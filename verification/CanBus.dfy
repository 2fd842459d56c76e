/** Sending and receiving over the mailboxes: canbus_init, canbus_send and canbus_recv. */
module CanBus {

  import opened Words
  import opened CanMobs

  const RX_MOB_CNT := 6
  const BUFFER_SIZE := 8

  datatype CmdResult = Accepted | Refused

  datatype Status = Completed | NotCompleted | Error

  datatype Ret = Ok | ErrTx | ErrRx | NoData

  /** Of the receive descriptors only the one at i may have changed. */
  ghost predicate OnlyAt(before: seq<Desc>, after: seq<Desc>, i: nat) {
    |after| == |before| && forall j :: 0 <= j < |before| && j != i ==> after[j] == before[j]
  }

  /** The most MObs in use so far. */
  function Higher(peak: nat, mode: seq<Mode>): nat {
    if |Enabled(mode)| > peak then |Enabled(mode)| else peak
  }

  class Bus {
    var mode: seq<Mode>          // the configuration of each MOb
    var mailbox: seq<Frame>      // the frame in each
    var polls: nat               // how often the status of a MOb has been read
    const answer: nat -> Answer  // and what it was each time
    var rx: seq<Desc>            // rx_mob_array
    var rxIndex: nat             // rx_mob_index
    ghost var sent: seq<Frame>   // the frames transmitted so far
    ghost var peak: nat          // the most MObs ever in use at once

    constructor (answer: nat -> Answer)
      ensures mode == seq(NB_MOB, _ => Disabled) && |mailbox| == NB_MOB && this.answer == answer && sent == [] &&
              peak == 0
    {
      mode := seq(NB_MOB, _ => Disabled);
      mailbox := seq(NB_MOB, _ => Frame(0, []));
      polls := 0;
      this.answer := answer;
      rx := seq(RX_MOB_CNT, _ => Desc(NoCmd, CLEARED, 0, Frame(0, [])));
      rxIndex := 0;
      sent := [];
      peak := 0;
    }

    /** Between the calls of the main loop: the receive descriptors own all MObs in use, and
        one without a MOb is marked to get one. */
    ghost predicate Valid()
      reads `mode, `mailbox, `rx, `rxIndex, `peak
    {
      && |mailbox| == NB_MOB && |rx| == RX_MOB_CNT && rxIndex < RX_MOB_CNT && peak <= RX_MOB_CNT + 1
      && Owned(mode, rx)
      && (forall i :: 0 <= i < RX_MOB_CNT ==> if rx[i].Pending() then rx[i].cmd == Rx else rx[i].cmd == NoCmd)
    }

    /** can_get_mob_free */
    method GetMobFree() returns (mob: nat)
      requires |mode| == NB_MOB
      ensures mob == if FirstFree(mode, 0) < NB_MOB then FirstFree(mode, 0) else NO_MOB
    {
      mob := 0;
      while mob < NB_MOB
        invariant 0 <= mob <= NB_MOB
        invariant FirstFree(mode, 0) == FirstFree(mode, mob)
      {
        if mode[mob] == Disabled {
          return;
        }
        mob := mob + 1;
      }
      mob := NO_MOB;
    }

    /** can_cmd.  The descriptor is handed over and back by value. */
    method CanCmd(cmd: Desc) returns (status: CmdResult, d: Desc)
      requires |mode| == |mailbox| == NB_MOB && (cmd.Pending() ==> cmd.handle < NB_MOB)
      modifies `mode, `mailbox, `peak
      ensures |mailbox| == NB_MOB && peak == if cmd.cmd == Abort then old(peak) else Higher(old(peak), mode)
      ensures cmd.cmd == Abort ==>
                && status == Accepted
                && mode == (if cmd.Pending() then old(mode)[cmd.handle := Disabled] else old(mode))
                && d == cmd.(status := CLEARED, handle := if cmd.Pending() then 0 else cmd.handle)
      ensures cmd.cmd != Abort ==>
                var m := FirstFree(old(mode), 0);
                && (status == Accepted <==> m < NB_MOB)
                && (status == Accepted ==>
                      && mode == old(mode)[m := ModeFor(cmd.cmd)]
                      && d == cmd.(status := if cmd.cmd == NoCmd then CLEARED else PENDING, handle := m)
                      && (ModeFor(cmd.cmd) == TxEnabled ==> mailbox[m] == cmd.frame))
                && (status == Refused ==> mode == old(mode) && d == cmd.(status := NOT_REACHED))
    {
      d := cmd;
      if cmd.cmd == Abort {
        if cmd.Pending() {
          mode := mode[cmd.handle := Disabled];
          d := d.(handle := 0);
        }
        d := d.(status := CLEARED);
        status := Accepted;
      } else {
        var mob := GetMobFree();
        if mob != NO_MOB {
          d := d.(status := PENDING, handle := mob);
          mailbox := mailbox[mob := if ModeFor(cmd.cmd) == TxEnabled then cmd.frame else Frame(0, [])];
          mode := mode[mob := ModeFor(cmd.cmd)];
          if cmd.cmd == NoCmd {
            d := d.(status := CLEARED);
          }
          status := Accepted;
        } else {
          d := d.(status := NOT_REACHED);
          status := Refused;
        }
        peak := Higher(peak, mode);
      }
    }

    /** can_get_status.  Whatever the outcome, if it is one the MOb is free again. */
    method CanGetStatus(cmd: Desc) returns (status: Status, d: Desc)
      requires |mode| == |mailbox| == NB_MOB && cmd.handle < NB_MOB
      modifies `mode, `polls, `sent
      ensures Idle(cmd.status) ==>
              status == Error && d == cmd && mode == old(mode) && polls == old(polls) && sent == old(sent)
      ensures !Idle(cmd.status) && old(mode)[cmd.handle] == Disabled ==>
                status == Error && d == cmd.(status := MOB_DISABLE) && mode == old(mode) && polls == old(polls)
                && sent == old(sent)
      ensures !Idle(cmd.status) && old(mode)[cmd.handle] != Disabled ==>
                var a := answer(old(polls));
                && polls == old(polls) + 1
                && (Undecided(a.status) ==> status == NotCompleted && d == cmd && mode == old(mode))
                && (!Undecided(a.status) ==> mode == old(mode)[cmd.handle := Disabled])
                && (Arrived(a.status) ==>
                    status == Completed && d == cmd.(status := a.status / 0x20 * 0x20, frame := a.frame))
                && (Sent(a.status) ==> status == Completed && d == cmd.(status := TX_COMPLETED))
                && (Failed(a.status) ==> status == Error && d == cmd.(status := a.status % 0x20))
                && sent == (if Sent(a.status) && old(mode)[cmd.handle] == TxEnabled then
                              old(sent) + [mailbox[cmd.handle]]
                            else old(sent))
    {
      StatusIs(answer(polls).status);
      d := cmd;
      if cmd.status == CLEARED || cmd.status == NOT_REACHED || cmd.status == MOB_DISABLE {
        return Error, d;
      }
      var s, a := MOB_DISABLE, answer(polls);
      if mode[cmd.handle] != Disabled {
        s := MobStatus(a.status);
        polls := polls + 1;
      }
      if s == NOT_COMPLETED {
        status := NotCompleted;
      } else if s == RX_COMPLETED || s == RX_COMPLETED_DLCW {
        d := d.(frame := a.frame, status := s);
        mode := mode[cmd.handle := Disabled];
        status := Completed;
      } else if s == TX_COMPLETED {
        d := d.(status := s);
        sent := if mode[cmd.handle] == TxEnabled then sent + [mailbox[cmd.handle]] else sent;
        mode := mode[cmd.handle := Disabled];
        status := Completed;
      } else {
        d := d.(status := s);
        mode := mode[cmd.handle := Disabled];
        status := Error;
      }
    }

    /** load_rx_mob: its loop ends at once, because a MOb is always free. */
    method LoadRxMob(i: nat)
      requires |mailbox| == NB_MOB && |rx| == RX_MOB_CNT && Owned(mode, rx)
      requires i < RX_MOB_CNT && !rx[i].Pending() && peak <= RX_MOB_CNT + 1
      modifies `mode, `mailbox, `rx, `peak
      ensures |mailbox| == NB_MOB && |rx| == RX_MOB_CNT && Owned(mode, rx) && peak <= RX_MOB_CNT + 1
      ensures rx[i].Pending() && rx[i].cmd == Rx
      ensures forall j :: 0 <= j < RX_MOB_CNT && j != i ==> rx[j] == old(rx)[j]
    {
      SomeFree(mode, rx);
      var d := Desc(Rx, rx[i].status, rx[i].handle, Frame(0, Zeros(BUFFER_SIZE)));
      var status;
      ghost var before := mode;
      status, d := CanCmd(d);
      assert status == Accepted;
      TakeKeeps(before, rx, i, d.handle, d);
      rx := rx[i := d];
      EnabledAreHeld(mode, rx);
    }

    /** init_rx_mobs, from a controller whose MObs are all disabled. */
    method InitRxMobs()
      requires mode == seq(NB_MOB, _ => Disabled) && |mailbox| == NB_MOB && peak == 0
      modifies `mode, `mailbox, `rx, `rxIndex, `peak
      ensures Valid() && forall i :: 0 <= i < RX_MOB_CNT ==> rx[i].Pending()
    {
      rx := seq(RX_MOB_CNT, _ => Desc(NoCmd, CLEARED, 0, Frame(0, [])));
      rxIndex := 0;
      var idx := 0;
      while idx < RX_MOB_CNT
        invariant 0 <= idx <= RX_MOB_CNT && |mailbox| == NB_MOB && |rx| == RX_MOB_CNT && rxIndex == 0
        invariant Owned(mode, rx) && peak <= RX_MOB_CNT + 1
        invariant forall i :: 0 <= i < RX_MOB_CNT ==>
                  if i < idx then rx[i].Pending() && rx[i].cmd == Rx else !rx[i].Pending()
      {
        LoadRxMob(idx);
        idx := idx + 1;
      }
    }

    /** The first half of canbus_send: hand the frame to a MOb of its own, at the first try. */
    method StartSend(frame: Frame) returns (cmd: Desc)
      requires Valid()
      modifies `mode, `mailbox, `peak
      ensures |mailbox| == NB_MOB && cmd.Pending() && Owned(mode, rx + [cmd]) && peak <= RX_MOB_CNT + 1
      ensures |mode| == NB_MOB && cmd.handle < NB_MOB && mode[cmd.handle] == TxEnabled && mailbox[cmd.handle] == frame
    {
      cmd := Desc(TxData, CLEARED, 0, frame);
      IdleJoins(mode, rx, cmd);
      SomeFree(mode, rx + [cmd]);
      ghost var before, was := mode, cmd;
      var status;
      status, cmd := CanCmd(cmd);
      assert status == Accepted;
      TakeKeeps(before, rx + [was], RX_MOB_CNT, cmd.handle, cmd);
      assert (rx + [was])[RX_MOB_CNT := cmd] == rx + [cmd];
      EnabledAreHeld(mode, rx + [cmd]);
    }

    /** One look at the MOb that is sending; once it is done, it is free again. */
    method PollSend(cmd: Desc) returns (status: Status, d: Desc)
      requires |mode| == |mailbox| == NB_MOB && Owned(mode, rx + [cmd]) && |rx| == RX_MOB_CNT
      requires cmd.Pending() && cmd.handle < NB_MOB && mode[cmd.handle] == TxEnabled
      modifies `mode, `polls, `sent
      ensures polls == old(polls) + 1
      ensures var a := answer(old(polls)).status;
              && (status == NotCompleted <==> Undecided(a))
              && (status == Completed <==> Finished(a))
              && sent == (if Sent(a) then old(sent) + [mailbox[cmd.handle]] else old(sent))
      ensures if status == NotCompleted then d == cmd && mode == old(mode) else Owned(mode, rx)
    {
      hide Owned;
      status, d := CanGetStatus(cmd);
      if status != NotCompleted {
        assert (rx + [cmd])[RX_MOB_CNT] == cmd;
        ReleaseKeeps(old(mode), rx + [cmd], RX_MOB_CNT, d);
        assert (rx + [cmd])[RX_MOB_CNT := d] == rx + [d];
        IdleJoins(mode, rx, d);
      }
    }

    /** canbus_send, given that the controller makes up its mind within `patience` more looks:
        it waits for the first look that shows an outcome; the frame has been sent if that is a
        finished transmission, and it reports an error if it is not a completion at all. */
    method Send(frame: Frame, ghost patience: nat) returns (ret: Ret)
      requires Valid() && !Undecided(answer(polls + patience).status)
      modifies `mode, `mailbox, `polls, `sent, `peak
      ensures Valid() && old(polls) < polls <= old(polls) + patience + 1
      ensures forall p :: old(polls) <= p < polls - 1 ==> Undecided(answer(p).status)
      ensures var a := answer(polls - 1).status;
              && !Undecided(a)
              && ret == (if Finished(a) then Ok else ErrTx)
              && sent == (if Sent(a) then old(sent) + [frame] else old(sent))
    {
      hide Owned;
      ghost var last := polls + patience;
      var cmd := StartSend(frame);
      ret := Ok;
      var status := NotCompleted;
      while status != Completed
        invariant old(polls) <= polls <= last + 1 && rx == old(rx) && |mailbox| == NB_MOB && peak <= RX_MOB_CNT + 1
        invariant forall p :: old(polls) <= p < polls - 1 ==> Undecided(answer(p).status)
        invariant status == NotCompleted ==>
                    && polls <= last && ret == Ok && sent == old(sent)
                    && (old(polls) < polls ==> Undecided(answer(polls - 1).status))
                    && Owned(mode, rx + [cmd]) && cmd.Pending() && |mode| == NB_MOB && cmd.handle < NB_MOB &&
                       mode[cmd.handle] == TxEnabled
                    && mailbox[cmd.handle] == frame
        invariant status != NotCompleted ==>
                    && status == Completed && old(polls) < polls && Owned(mode, rx)
                    && var a := answer(polls - 1).status;
                    && !Undecided(a)
                    && ret == (if Finished(a) then Ok else ErrTx)
                    && sent == (if Sent(a) then old(sent) + [frame] else old(sent))
        decreases last + 1 - polls, status != Completed
      {
        status, cmd := PollSend(cmd);
        if status == Error {
          ret := ErrTx;
          // force the return
          status := Completed;
        }
      }
    }

    /** clear_rx_mob, for a descriptor whose MOb has just been disabled. */
    method Clear(i: nat, d: Desc, ghost before: seq<Mode>)
      requires |rx| == RX_MOB_CNT && i < RX_MOB_CNT && rx[i].Pending()
      requires Owned(before, rx) && rx[i].handle < |before| && mode == before[rx[i].handle := Disabled]
      modifies `rx
      ensures Owned(mode, rx) && |rx| == RX_MOB_CNT && !rx[i].Pending() && rx[i].cmd == NoCmd && OnlyAt(old(rx), rx, i)
    {
      hide Owned;
      ReleaseKeeps(before, rx, i, d.(status := CLEARED, cmd := NoCmd));
      rx := rx[i := d.(status := CLEARED, cmd := NoCmd)];
    }

    /** The body of the loop of canbus_recv once the current descriptor has a MOb. */
    method VisitLoaded(i: nat) returns (ret: Ret, frame: Frame)
      requires Valid() && i < RX_MOB_CNT && rx[i].Pending()
      modifies `mode, `mailbox, `polls, `sent, `rx, `peak
      ensures Valid() && polls == old(polls) + 1 && sent == old(sent)
      ensures var a := answer(old(polls));
              && ret == (if Finished(a.status) then Ok else if Undecided(a.status) then NoData else ErrRx)
              && (Arrived(a.status) ==> frame == a.frame)
              && (Undecided(a.status) ==> rx == old(rx) && mode == old(mode))
              && (Failed(a.status) <==> !rx[i].Pending())
      ensures OnlyAt(old(rx), rx, i)
    {
      hide Held;
      ret, frame := NoData, Frame(0, []);
      ghost var before := mode;
      var status, d := CanGetStatus(rx[i]);
      if status == Error {
        ret := ErrRx;
        var aborted;
        aborted, d := CanCmd(d.(cmd := Abort));
        Clear(i, d, before);
      } else if status == Completed {
        frame := d.frame;
        Clear(i, d, before);
        LoadRxMob(i);
        ret := Ok;
      }
    }

    /** One round of the loop of canbus_recv: see how the current descriptor is doing. */
    method Visit() returns (ret: Ret, frame: Frame)
      requires Valid()
      modifies `mode, `mailbox, `polls, `sent, `rx, `rxIndex, `peak
      ensures Valid() && rxIndex == (old(rxIndex) + 1) % RX_MOB_CNT && polls == old(polls) + 1 && sent == old(sent)
      ensures var a := answer(old(polls));
              && ret == (if Finished(a.status) then Ok else if Undecided(a.status) then NoData else ErrRx)
              && (Arrived(a.status) ==> frame == a.frame)
              && (Undecided(a.status) && old(rx)[old(rxIndex)].Pending() ==> rx == old(rx) && mode == old(mode))
              && (Failed(a.status) <==> !rx[old(rxIndex)].Pending())
      ensures OnlyAt(old(rx), rx, old(rxIndex))
    {
      hide Owned;
      if rx[rxIndex].cmd == NoCmd {
        LoadRxMob(rxIndex);
      }
      ret, frame := VisitLoaded(rxIndex);
      rxIndex := rxIndex + 1;
      if rxIndex >= RX_MOB_CNT {
        rxIndex := 0;
      }
    }

    /** canbus_recv: visit the descriptors in turn until one has something, each at most once,
        going on where the last call left off. */
    method Recv() returns (ret: Ret, frame: Frame)
      requires Valid()
      modifies `mode, `mailbox, `polls, `sent, `rx, `rxIndex, `peak
      ensures Valid() && ret != ErrTx && sent == old(sent)
      ensures 1 <= polls - old(polls) <= RX_MOB_CNT
      ensures rxIndex == (old(rxIndex) + (polls - old(polls))) % RX_MOB_CNT
      ensures forall t :: old(polls) <= t < polls - 1 ==> Undecided(answer(t).status)
      ensures ret == NoData ==> polls == old(polls) + RX_MOB_CNT
      ensures var a := answer(polls - 1);
              && (ret == Ok <==> Finished(a.status)) && (ret == NoData <==> Undecided(a.status))
              && (ret == ErrRx <==> Failed(a.status))
              && (Arrived(a.status) ==> frame == a.frame)
      ensures ret == ErrRx <==> !rx[(old(rxIndex) + (polls - old(polls)) - 1) % RX_MOB_CNT].Pending()
    {
      hide Owned, OnlyAt, Undecided, Finished, Arrived, Failed, Desc.Pending;
      ret, frame := NoData, Frame(0, []);
      var idx := 0;
      while idx < RX_MOB_CNT && ret == NoData
        invariant 0 <= idx <= RX_MOB_CNT && Valid() && ret != ErrTx && sent == old(sent)
        invariant polls == old(polls) + idx && rxIndex == (old(rxIndex) + idx) % RX_MOB_CNT
        invariant ret != NoData ==> idx > 0
        invariant forall t :: old(polls) <= t < polls - 1 ==> Undecided(answer(t).status)
        invariant idx > 0 ==>
                    var a := answer(polls - 1);
                    && ret == (if Finished(a.status) then Ok else if Undecided(a.status) then NoData else ErrRx)
                    && (Arrived(a.status) ==> frame == a.frame)
                    && (ret == ErrRx <==> !rx[(old(rxIndex) + idx - 1) % RX_MOB_CNT].Pending())
      {
        OneOutcome(answer(polls).status);
        ret, frame := Visit();
        idx := idx + 1;
      }
      OneOutcome(answer(polls - 1).status);
    }

    /** canbus_init and any calls of canbus_send and canbus_recv after it: ownership is kept, no
        more than seven MObs are ever in use at once, and the frames transmitted are some of
        those that were to be sent, in their order. */
    method Run(calls: seq<Call>) returns (rets: seq<Ret>)
      requires mode == seq(NB_MOB, _ => Disabled) && |mailbox| == NB_MOB && peak == 0 && sent == []
      requires Responsive(answer)
      modifies this
      ensures Valid() && peak <= 7 && |rets| == |calls|
      ensures Among(sent, Frames(calls))
    {
      hide Owned, Undecided, Responsive;
      InitRxMobs();
      rets := [];
      assert calls[..0] == [];
      for i := 0 to |calls|
        invariant Valid() && |rets| == i
        invariant Among(sent, Frames(calls[..i]))
      {
        assert calls[..i + 1] == calls[..i] + [calls[i]];
        FramesNext(calls, i, sent);
        var ret;
        match calls[i] {
          case SendFrame(frame) =>
            ghost var next: nat := MakesUpItsMind(answer, polls);
            ret := Send(frame, next - polls);
          case Receive =>
            var received;
            ret, received := Recv();
        }
        rets := rets + [ret];
      }
      assert calls[..|calls|] == calls;
    }
  }

  /* ----------- runs ----------- */

  datatype Call = SendFrame(frame: Frame) | Receive

  ghost predicate Decides(answer: nat -> Answer, from: nat) {
    exists q: nat :: from <= q && !Undecided(answer(q).status)
  }

  /** However often it has been asked, the controller comes to an outcome in the end. */
  ghost predicate Responsive(answer: nat -> Answer) {
    forall p: nat :: Decides(answer, p)
  }

  lemma MakesUpItsMind(answer: nat -> Answer, p: nat) returns (q: nat)
    requires Responsive(answer)
    ensures p <= q && !Undecided(answer(q).status)
  {
    hide Undecided;
    assert Decides(answer, p);
    q :| p <= q && !Undecided(answer(q).status);
  }

  function Frames(calls: seq<Call>): seq<Frame> {
    if calls == [] then []
    else
      var n := |calls| - 1;
      Frames(calls[..n]) + if calls[n].SendFrame? then [calls[n].frame] else []
  }

  /** a is b with some elements left out. */
  predicate Among<T(==)>(a: seq<T>, b: seq<T>)
    decreases |b|
  {
    if b == [] then a == []
    else
      var n := |b| - 1;
      Among(a, b[..n]) || (a != [] && a[|a| - 1] == b[n] && Among(a[..|a| - 1], b[..n]))
  }

  lemma FramesNext(calls: seq<Call>, i: nat, sent: seq<Frame>)
    requires i < |calls| && Among(sent, Frames(calls[..i]))
    ensures Among(sent, Frames(calls[..i + 1]))
    ensures calls[i].SendFrame? ==> Among(sent + [calls[i].frame], Frames(calls[..i + 1]))
  {
    assert calls[..i + 1][..i] == calls[..i];
    if calls[i].SendFrame? {
      var before, more := Frames(calls[..i]), sent + [calls[i].frame];
      assert (before + [calls[i].frame])[..|before|] == before;
      assert more[..|more| - 1] == sent;
    } else {
      assert Frames(calls[..i]) + [] == Frames(calls[..i]);
    }
  }
}
