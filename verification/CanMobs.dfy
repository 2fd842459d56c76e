/** The mailboxes of the CAN controller: who owns which, and that there is always one free. */
module CanMobs {

  import opened Words

  const NB_MOB := 15
  const NO_MOB := 0xFF

  /** can_cmd_t */
  datatype Cmd =
    | NoCmd | Tx | TxData | TxRemote
    | Rx | RxData | RxRemote | RxMasked | RxDataMasked | RxRemoteMasked
    | Reply | ReplyMasked | Abort

  /** The configuration bits of a MOb. */
  datatype Mode = Disabled | TxEnabled | RxEnabled

  /** How can_cmd configures the MOb for a command; CMD_NONE leaves it disabled. */
  function ModeFor(cmd: Cmd): (mode: Mode)
    ensures mode == TxEnabled <==> cmd == Tx || cmd == TxData || cmd == TxRemote
    ensures mode == Disabled <==> cmd == NoCmd || cmd == Abort
  {
    match cmd
    case Tx => TxEnabled
    case TxData => TxEnabled
    case TxRemote => TxEnabled
    case NoCmd => Disabled
    case Abort => Disabled
    case _ => RxEnabled
  }

  const CLEARED: byte := 0x00
  const NOT_COMPLETED: byte := 0x00
  const RX_COMPLETED: byte := 0x20
  const TX_COMPLETED: byte := 0x40
  const RX_COMPLETED_DLCW: byte := 0xA0
  const PENDING: byte := 0x60
  const NOT_REACHED: byte := 0x1F
  const MOB_DISABLE: byte := 0xFF

  datatype Frame = Frame(id: nat, data: seq<byte>)

  /** st_cmd_t, with the data its pointer leads to. */
  datatype Desc = Desc(cmd: Cmd, status: byte, handle: nat, frame: Frame) {
    predicate Pending() {
      status == PENDING
    }
  }

  /** What the registers of the selected MOb hold when they are read: any status the
      controller may have come to, and the frame received. */
  datatype Answer = Answer(status: byte, frame: Frame)

  /** can_get_mob_status of an enabled MOb: completed, else its error bits, else nothing yet. */
  function MobStatus(canstmob: byte): (s: byte)
    ensures s == NOT_COMPLETED || s == RX_COMPLETED || s == TX_COMPLETED || s == RX_COMPLETED_DLCW || s < 0x20
    ensures s != PENDING
  {
    var done := canstmob / 0x20 * 0x20;
    if done == RX_COMPLETED || done == TX_COMPLETED || done == RX_COMPLETED_DLCW then done else canstmob % 0x20
  }

  /** The statuses of a descriptor without a MOb. */
  predicate Idle(status: byte) {
    status == CLEARED || status == NOT_REACHED || status == MOB_DISABLE
  }

  /** The statuses can_get_status calls completed. */
  predicate Succeeds(s: byte) {
    s == RX_COMPLETED || s == RX_COMPLETED_DLCW || s == TX_COMPLETED
  }

  /* What the status register says: its upper three bits are the length warning, the finished
     transmission and the finished reception, its lower five are errors. */

  /** A frame has arrived, with or without a length warning. */
  predicate Arrived(canstmob: byte) {
    canstmob / 0x20 == 1 || canstmob / 0x20 == 5
  }

  /** The frame has been sent. */
  predicate Sent(canstmob: byte) {
    canstmob / 0x20 == 2
  }

  predicate Finished(canstmob: byte) {
    Arrived(canstmob) || Sent(canstmob)
  }

  predicate Failed(canstmob: byte) {
    !Finished(canstmob) && canstmob % 0x20 != 0
  }

  predicate Undecided(canstmob: byte) {
    !Finished(canstmob) && canstmob % 0x20 == 0
  }

  lemma OneOutcome(canstmob: byte)
    ensures Finished(canstmob) ==> !Failed(canstmob) && !Undecided(canstmob)
    ensures Failed(canstmob) <==> !Finished(canstmob) && !Undecided(canstmob)
  {
  }

  lemma StatusIs(canstmob: byte)
    ensures var s := MobStatus(canstmob);
            && (Arrived(canstmob) <==> s == RX_COMPLETED || s == RX_COMPLETED_DLCW)
            && (Sent(canstmob) <==> s == TX_COMPLETED)
            && (Finished(canstmob) <==> Succeeds(s))
            && (Failed(canstmob) <==> 0 < s < 0x20) && (Failed(canstmob) ==> s == canstmob % 0x20)
            && (Undecided(canstmob) <==> s == NOT_COMPLETED)
  {
  }

  function FirstFree(mode: seq<Mode>, from: nat): (m: nat)
    requires from <= |mode|
    ensures from <= m <= |mode|
    ensures m < |mode| ==> mode[m] == Disabled
    ensures forall k :: from <= k < m ==> mode[k] != Disabled
    decreases |mode| - from
  {
    if from == |mode| || mode[from] == Disabled then from else FirstFree(mode, from + 1)
  }

  /* ----------- ownership ----------- */

  /** Pending descriptors hold different MObs, enabled for their commands, and every enabled MOb
      is held by one. */
  ghost predicate Owned(mode: seq<Mode>, owners: seq<Desc>) {
    && |mode| == NB_MOB
    && (forall i :: 0 <= i < |owners| && owners[i].Pending() ==>
          owners[i].handle < NB_MOB && mode[owners[i].handle] == ModeFor(owners[i].cmd) != Disabled)
    && (forall i, j :: 0 <= i < j < |owners| && owners[i].Pending() && owners[j].Pending() ==>
        owners[i].handle != owners[j].handle)
    && (forall m :: 0 <= m < NB_MOB && mode[m] != Disabled ==> Held(m, owners))
  }

  ghost predicate Held(m: nat, owners: seq<Desc>) {
    exists i :: 0 <= i < |owners| && owners[i].Pending() && owners[i].handle == m
  }

  lemma HeldElsewhere(m: nat, owners: seq<Desc>, i: nat, d: Desc)
    requires i < |owners| && Held(m, owners)
    requires owners[i].Pending() && owners[i].handle == m ==> d.Pending() && d.handle == m
    ensures Held(m, owners[i := d])
  {
    var k :| 0 <= k < |owners| && owners[k].Pending() && owners[k].handle == m;
    assert owners[i := d][k].Pending() && owners[i := d][k].handle == m;
  }

  /** A descriptor that holds no MOb takes a free one. */
  lemma TakeKeeps(mode: seq<Mode>, owners: seq<Desc>, i: nat, m: nat, d: Desc)
    requires Owned(mode, owners) && i < |owners| && !owners[i].Pending()
    requires m < NB_MOB && mode[m] == Disabled && ModeFor(d.cmd) != Disabled && d.Pending() && d.handle == m
    ensures Owned(mode[m := ModeFor(d.cmd)], owners[i := d])
  {
    var mode' := mode[m := ModeFor(d.cmd)];
    assert owners[i := d][i].handle == m;
    forall k | 0 <= k < NB_MOB && mode'[k] != Disabled ensures Held(k, owners[i := d]) {
      if k != m {
        HeldElsewhere(k, owners, i, d);
      }
    }
  }

  /** A descriptor gives back the MOb it holds. */
  lemma ReleaseKeeps(mode: seq<Mode>, owners: seq<Desc>, i: nat, d: Desc)
    requires Owned(mode, owners) && i < |owners| && owners[i].Pending() && !d.Pending()
    ensures Owned(mode[owners[i].handle := Disabled], owners[i := d])
  {
    var mode' := mode[owners[i].handle := Disabled];
    forall k | 0 <= k < NB_MOB && mode'[k] != Disabled ensures Held(k, owners[i := d]) {
      HeldElsewhere(k, owners, i, d);
    }
  }

  /** One more descriptor, holding nothing, or one less. */
  lemma IdleJoins(mode: seq<Mode>, owners: seq<Desc>, d: Desc)
    requires !d.Pending()
    ensures Owned(mode, owners + [d]) <==> Owned(mode, owners)
  {
    forall k | Held(k, owners) ensures Held(k, owners + [d]) {
      var i :| 0 <= i < |owners| && owners[i].Pending() && owners[i].handle == k;
      assert (owners + [d])[i] == owners[i];
    }
    if Owned(mode, owners + [d]) {
      forall i | 0 <= i < |owners| ensures (owners + [d])[i] == owners[i] {
      }
    }
  }

  function Enabled(mode: seq<Mode>): set<nat> {
    set m: nat | m < |mode| && mode[m] != Disabled
  }

  function Holders(owners: seq<Desc>): set<nat> {
    set i: nat | i < |owners| && owners[i].Pending()
  }

  function Handles(owners: seq<Desc>, holders: set<nat>): set<nat>
    requires forall i :: i in holders ==> i < |owners|
  {
    set i | i in holders :: owners[i].handle
  }

  lemma {:induction false} HandlesCount(owners: seq<Desc>, holders: set<nat>)
    requires forall i :: i in holders ==> i < |owners|
    requires forall i, j :: i in holders && j in holders && i != j ==> owners[i].handle != owners[j].handle
    ensures |Handles(owners, holders)| == |holders|
    decreases holders
  {
    if holders != {} {
      var i :| i in holders;
      var rest := holders - {i};
      HandlesCount(owners, rest);
      assert Handles(owners, holders) == Handles(owners, rest) + {owners[i].handle};
    } else {
      assert Handles(owners, holders) == {};
    }
  }

  /** As many MObs are enabled as descriptors are pending. */
  lemma EnabledAreHeld(mode: seq<Mode>, owners: seq<Desc>)
    requires Owned(mode, owners)
    ensures |Enabled(mode)| == |Holders(owners)| <= |owners|
  {
    var holders := Holders(owners);
    HandlesCount(owners, holders);
    forall m | m in Enabled(mode) ensures m in Handles(owners, holders) {
      assert Held(m, owners);
      var i :| 0 <= i < |owners| && owners[i].Pending() && owners[i].handle == m;
      assert i in holders;
    }
    assert Enabled(mode) == Handles(owners, holders);
    BelowCount(holders, |owners|);
  }

  lemma {:induction false} BelowCount(s: set<nat>, n: nat)
    requires forall i :: i in s ==> i < n
    ensures |s| <= n
  {
    if n > 0 {
      BelowCount(s - {n - 1}, n - 1);
    }
  }

  lemma {:induction false} AllBelow(s: set<nat>, n: nat)
    requires forall i: nat :: i < n ==> i in s
    ensures |s| >= n
  {
    if n > 0 {
      AllBelow(s - {n - 1}, n - 1);
      assert |s| == |s - {n - 1}| + 1;
    }
  }

  /** With fewer than fifteen descriptors in all, some MOb is free. */
  lemma SomeFree(mode: seq<Mode>, owners: seq<Desc>)
    requires Owned(mode, owners) && |owners| < NB_MOB
    ensures FirstFree(mode, 0) < NB_MOB
  {
    EnabledAreHeld(mode, owners);
    if FirstFree(mode, 0) == NB_MOB {
      AllBelow(Enabled(mode), NB_MOB);
    }
  }
}
