/** can_auto_baudrate, mode 0: the search for a bit timing the bus agrees with. */
module BitTiming {

  import opened Words

  const BRP_MAX := 64
  const NTQ_MIN := 8
  const NTQ_MAX := 25
  const PRS_MAX := 8
  const PHS_MIN := 2   // PHS1_MIN and PHS2_MIN
  const PHS_MAX := 8   // PHS1_MAX and PHS2_MAX

  /** Prescaler, time quanta per bit, and the two phase segments. */
  datatype Timing = Timing(brp: byte, ntq: byte, phs1: byte, phs2: byte) {

    /** The propagation segment is what is left, in eight bits. */
    function Prs(): byte {
      (ntq - (phs1 + phs2 + 1)) % 0x100
    }

    /** The test at the end of the evaluation loop. */
    predicate Accepted() {
      1 <= Prs() <= PRS_MAX && phs2 * 4 >= 1 + Prs() + phs1 && phs2 * 3 <= 1 + Prs() + phs1
    }

    /** Fit for the bit timing registers, with the sample point between 75% and 80% of the bit. */
    predicate Sound() {
      && 1 <= brp <= BRP_MAX && NTQ_MIN <= ntq <= NTQ_MAX
      && 1 <= Prs() <= PRS_MAX && PHS_MIN <= phs1 <= PHS_MAX && PHS_MIN <= phs2 <= PHS_MAX
      && ntq == 1 + Prs() + phs1 + phs2
      && 75 * ntq <= 100 * (1 + Prs() + phs1) <= 80 * ntq
    }
  }

  /** The k-th pair of phase segments tried for each number of quanta. */
  function Pair(k: nat): (byte, byte)
    requires k < 10
  {
    if k < 4 then (k + 2, k + 2)
    else if k == 4 then (6, 5)
    else if k == 5 then (6, 6)
    else if k == 6 then (7, 6)
    else if k == 7 then (7, 7)
    else if k == 8 then (8, 7)
    else (8, 8)
  }

  /** The pair accepted for a number of quanta, if there is one. */
  function Fitting(ntq: nat): (k: nat) {
    if ntq == 8 || ntq == 9 || ntq == 10 then 0
    else if 12 <= ntq <= 15 then 1
    else if ntq == 16 || ntq == 17 then 2
    else if ntq == 20 then 4
    else 10
  }

  /** How many numbers of quanta below this one have such a pair. */
  function Fewer(ntq: nat): nat {
    if ntq <= 11 then (if ntq <= 8 then 0 else ntq - 8)
    else if ntq <= 18 then ntq - 9
    else if ntq <= 20 then 9
    else 10
  }

  /** The number of quanta of the i-th acceptable setting for one prescaler. */
  function Quanta(i: nat): nat
    requires i < 10
  {
    if i < 3 then 8 + i else if i < 9 then 9 + i else 20
  }

  /** The j-th acceptable setting. */
  function Setting(j: nat): Timing
    requires j < 640
  {
    var ntq := Quanta(j % 10);
    Timing(j / 10 + 1, ntq, Pair(Fitting(ntq)).0, Pair(Fitting(ntq)).1)
  }

  lemma SettingSound(j: nat)
    requires j < 640
    ensures Setting(j).Sound() && Setting(j).Accepted()
  {
  }

  /** Of the pairs tried for a number of quanta, exactly the fitting one is accepted. */
  lemma AcceptedIsFitting(brp: byte, ntq: byte, k: nat)
    requires NTQ_MIN <= ntq <= NTQ_MAX && k < 10
    ensures Timing(brp, ntq, Pair(k).0, Pair(k).1).Accepted() <==> k == Fitting(ntq)
  {
  }

  lemma QuantaOfFewer(ntq: nat)
    requires NTQ_MIN <= ntq <= NTQ_MAX
    ensures Fewer(ntq) < 10 && Fitting(ntq) < 10 ==> Quanta(Fewer(ntq)) == ntq
    ensures Fewer(ntq + 1) == Fewer(ntq) + if Fitting(ntq) < 10 then 1 else 0
    ensures Fewer(NTQ_MIN) == 0 && Fewer(NTQ_MAX + 1) == 10 && Fewer(ntq) <= 10
    ensures Fitting(ntq) < 10 ==> Fewer(ntq) < 10
  {
  }

  /** An acceptable setting by its number. */
  lemma SettingAt(brp: byte, ntq: byte)
    requires 1 <= brp <= BRP_MAX && NTQ_MIN <= ntq <= NTQ_MAX && Fitting(ntq) < 10
    ensures 10 * (brp - 1) + Fewer(ntq) < 640
    ensures Setting(10 * (brp - 1) + Fewer(ntq)) == Timing(brp, ntq, Pair(Fitting(ntq)).0, Pair(Fitting(ntq)).1)
  {
    QuantaOfFewer(ntq);
    hide Fewer, Fitting, Pair;
  }

  /** Where the search is: at which pair, -1 meaning just before the first. */
  ghost predicate At(t: Timing, inc: bool, k: int) {
    && 1 <= t.brp <= BRP_MAX && NTQ_MIN <= t.ntq <= NTQ_MAX && -1 <= k < 10
    && (inc <==> k >= 0)
    && (t.phs1, t.phs2) == Pair(if k < 0 then 0 else k)
  }

  /** How many acceptable settings lie at or before this place. */
  ghost function Rank(t: Timing, k: int): nat
    requires t.brp >= 1
  {
    10 * (t.brp - 1) + Fewer(t.ntq) + if Fitting(t.ntq) < 10 && k >= Fitting(t.ntq) then 1 else 0
  }

  ghost predicate Later(t: Timing, k: int, t': Timing, k': int) {
    || t'.brp > t.brp
    || (t'.brp == t.brp && t'.ntq > t.ntq)
    || (t'.brp == t.brp && t'.ntq == t.ntq && k' > k)
  }

  datatype Outcome = Go | Found | Exhausted

  lemma FoundIsAccepted(t: Timing, found: bool)
    requires found <==>
             t.Prs() <= PRS_MAX && t.Prs() >= 1 && t.phs2 * 4 >= 1 + t.Prs() + t.phs1 &&
             t.phs2 * 3 <= 1 + t.Prs() + t.phs1
    ensures found <==> t.Accepted()
  {
  }

  lemma SearchStart()
    ensures At(Timing(1, NTQ_MIN, PHS_MIN, PHS_MIN), false, -1) && Rank(Timing(1, NTQ_MIN, PHS_MIN, PHS_MIN), -1) == 0
    ensures Timing(1, NTQ_MIN, PHS_MIN, PHS_MIN) == Setting(0)
  {
  }

  /** One round of the evaluation loop. */
  method Evaluate(t: Timing, inc: bool, ghost k: int) returns (t': Timing, inc': bool, outcome: Outcome, ghost k': int)
    requires At(t, inc, k)
    ensures outcome != Exhausted ==> At(t', inc', k')
    ensures outcome == Found ==>
            k' >= 0 && Rank(t, k) < 640 && t' == Setting(Rank(t, k)) && Rank(t', k') == Rank(t, k) + 1
    ensures outcome == Go ==> Rank(t', k') == Rank(t, k)
    ensures outcome == Go ==> Later(t, k, t', k')
    ensures outcome == Exhausted <==> t.brp == BRP_MAX && t.ntq == NTQ_MAX && k == 9
    ensures outcome == Exhausted ==> Rank(t, k) == 640
  {
    hide Setting, Fewer, Fitting, Timing.Accepted;
    QuantaOfFewer(t.ntq);
    if Fitting(t.ntq) < 10 {
      SettingAt(t.brp, t.ntq);
    }
    var phs1: int, phs2: int := t.phs1, t.phs2;
    if inc {
      phs1 := phs1 + 1;
    }
    inc' := true;
    if phs1 > PHS_MAX && phs2 >= PHS_MAX {
      inc', outcome, k' := false, Go, -1;
      if t.ntq != NTQ_MAX {
        t' := Timing(t.brp, t.ntq + 1, PHS_MIN, PHS_MIN);
      } else if t.brp != BRP_MAX {
        t' := Timing(t.brp + 1, NTQ_MIN, PHS_MIN, PHS_MIN);
      } else {
        t' := Timing(t.brp, NTQ_MIN, PHS_MIN, PHS_MIN);
        outcome := Exhausted;
      }
    } else {
      if phs1 > 5 {
        if phs1 > phs2 + 1 {
          phs2 := phs2 + 1;
          phs1 := phs2;
        }
      } else {
        phs2 := phs1;
      }
      t', k' := Timing(t.brp, t.ntq, phs1, phs2), k + 1;
      AcceptedIsFitting(t.brp, t.ntq, k');
      outcome := Go;
      if t'.Prs() <= PRS_MAX && t'.Prs() >= 1 {
        if t'.phs2 * 4 >= 1 + t'.Prs() + t'.phs1 && t'.phs2 * 3 <= 1 + t'.Prs() + t'.phs1 {
          outcome := Found;
        }
      }
      FoundIsAccepted(t', outcome == Found);
    }
  }

  /** The evaluation loop: on to the next acceptable setting, if there is one left. */
  method NextSetting(t: Timing, inc: bool, ghost k: int) returns (t': Timing, inc': bool, found: bool, ghost k': int)
    requires At(t, inc, k)
    ensures found <==> Rank(t, k) < 640
    ensures found ==> t'.brp >= 1 && At(t', inc', k') && t' == Setting(Rank(t, k)) && Rank(t', k') == Rank(t, k) + 1
  {
    t', inc', k' := t, inc, k;
    var outcome := Go;
    while outcome == Go
      invariant outcome != Exhausted ==> At(t', inc', k')
      invariant outcome == Go ==> Rank(t', k') == Rank(t, k)
      invariant outcome == Found ==> Rank(t, k) < 640 && t' == Setting(Rank(t, k)) && Rank(t', k') == Rank(t, k) + 1
      invariant outcome == Exhausted ==> Rank(t, k) == 640
      decreases outcome == Go, BRP_MAX - t'.brp, NTQ_MAX - t'.ntq, 9 - k'
    {
      t', inc', outcome, k' := Evaluate(t', inc', k');
    }
    found := outcome == Found;
  }

  /** can_auto_baudrate(0), for a bus on which the n-th attempt brings a message or an error or
      time-out.  Every setting tried is sound; the first one is tried twice, then each of the
      640 once, until one brings a message. */
  method AutoBaudrate(received: nat -> bool) returns (performed: bool, tried: seq<Timing>)
    ensures 1 <= |tried| <= 641
    ensures forall i :: 0 <= i < |tried| ==> tried[i] == Setting(if i == 0 then 0 else i - 1) && tried[i].Sound()
    ensures forall i :: 0 <= i < |tried| - 1 ==> !received(i)
    ensures performed <==> received(|tried| - 1)
    ensures !performed ==> |tried| == 641
  {
    hide Setting, Timing.Sound, Rank, At, Timing.Accepted;
    var t, inc := Timing(1, NTQ_MIN, PHS_MIN, PHS_MIN), false;
    ghost var k := -1;
    SearchStart();
    performed, tried := false, [];
    var notFound := true;
    while notFound
      invariant notFound ==>
                t.brp >= 1 && At(t, inc, k) && |tried| <= 640 && t == Setting(if |tried| == 0 then 0 else |tried| - 1)
      invariant notFound ==> Rank(t, k) == |tried| && !performed
      invariant |tried| <= 641 && (!notFound ==> |tried| >= 1)
      invariant forall i :: 0 <= i < |tried| ==> tried[i] == Setting(if i == 0 then 0 else i - 1) && tried[i].Sound()
      invariant forall i :: 0 <= i < |tried| - 1 ==> !received(i)
      invariant notFound ==> forall i :: 0 <= i < |tried| ==> !received(i)
      invariant !notFound ==> (performed <==> received(|tried| - 1)) && (!performed ==> |tried| == 641)
      decreases 641 - |tried|, notFound
    {
      SettingSound(if |tried| == 0 then 0 else |tried| - 1);
      tried := tried + [t];
      if received(|tried| - 1) {
        performed, notFound := true, false;
      } else {
        t, inc, notFound, k := NextSetting(t, inc, k);
      }
    }
  }


  /* ----------- what is searched ----------- */

  /** The segments the search combines: two of the same length, or from six on the first longer by one. */
  predicate Searched(t: Timing) {
    t.Sound() && (t.phs1 == t.phs2 || (t.phs1 == t.phs2 + 1 && t.phs1 > 5))
  }

  lemma PairOf(t: Timing) returns (k: nat)
    requires Searched(t)
    ensures k < 10 && Pair(k) == (t.phs1, t.phs2)
  {
    k := if t.phs1 == t.phs2 then t.phs1 - 2 else 4;
  }

  /** The settings are all the sound ones with such segments, ... */
  lemma SettingsComplete(t: Timing)
    ensures Searched(t) <==> exists j :: 0 <= j < 640 && Setting(j) == t
  {
    hide Fewer;
    if Searched(t) {
      var k := PairOf(t);
      AcceptedIsFitting(t.brp, t.ntq, k);
      SettingAt(t.brp, t.ntq);
      hide Setting, Pair, Fitting;
      assert t.Accepted();
      assert 0 <= 10 * (t.brp - 1) + Fewer(t.ntq) < 640 && Setting(10 * (t.brp - 1) + Fewer(t.ntq)) == t;
    } else if j :| 0 <= j < 640 && Setting(j) == t {
      SettingSound(j);
    }
  }

  /** ... from the fastest clock on, and for each in the order of the bit lengths. */
  lemma SettingsOrdered(i: nat, j: nat)
    requires i < j < 640
    ensures Setting(i).brp < Setting(j).brp || (Setting(i).brp == Setting(j).brp && Setting(i).ntq < Setting(j).ntq)
  {
  }
}
