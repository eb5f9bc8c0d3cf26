/** Which live slot a full duplicate filter gives up, over every run of queries. */
module Eviction {
  import opened Common
  import opened DupFilter

  /** All slots are used and have not expired. */
  ghost predicate FullAt(slots: seq<Slot>, now: nat) {
    |slots| == SLOTS && forall k :: 0 <= k < SLOTS ==> slots[k].Used() && now <= slots[k].expiry
  }

  /** A frame the full filter does not hold takes the slot chosen by the scan. */
  lemma FullFilterEvicts(slots: seq<Slot>, frame: Frame, clk: Clock)
    requires FullAt(slots, clk.now) && frame != [] && forall k :: 0 <= k < SLOTS ==> slots[k].command != frame
    ensures Filter(slots, frame, clk)
         == (false, slots[EvictAmong(slots, SLOTS) := Slot(clk.later + DUP_TIME, frame)])
  {
    assert Sweep(slots, SLOTS, clk.now) == slots;
  }

  // ----- Every run -----

  /** Every query of the run is over at this time. */
  ghost predicate Before(qs: seq<Query>, now: nat) { forall i :: 0 <= i < |qs| ==> qs[i].clk.later <= now }

  /** Query i was accepted and put what slot k holds at the end. */
  ghost predicate Filled(qs: seq<Query>, i: nat, k: nat)
    requires i < |qs| && k < SLOTS
  {
    AcceptedAt(qs, i, SlotsAfter(qs)[k].command, SlotsAfter(qs)[k].expiry)
  }

  lemma {:induction false} EverySlotFilled(qs: seq<Query>, k: nat)
    requires ValidRun(qs) && k < SLOTS && SlotsAfter(qs)[k].Used()
    ensures exists i :: 0 <= i < |qs| && Filled(qs, i, k)
  {
    hide SlotsAfter, AcceptedAt;
    SlotsHaveCauses(qs);
    assert HasCause(qs, SlotsAfter(qs)[k]);
    var i :| 0 <= i < |qs| && AcceptedAt(qs, i, SlotsAfter(qs)[k].command, SlotsAfter(qs)[k].expiry);
    assert Filled(qs, i, k);
  }

  /** The expiries of a full filter lie within 650 ms of the clock. */
  lemma ExpiriesClose(qs: seq<Query>, now: nat)
    requires ValidRun(qs) && Before(qs, now) && FullAt(SlotsAfter(qs), now)
    ensures forall k :: 0 <= k < SLOTS ==> now <= SlotsAfter(qs)[k].expiry <= now + 650
  {
    forall k | 0 <= k < SLOTS
      ensures SlotsAfter(qs)[k].expiry <= now + 650
    {
      EverySlotFilled(qs, k);
      var i :| 0 <= i < |qs| && Filled(qs, i, k);
    }
  }

  /** The next 650 ms do not cross a multiple of 2^31, nor come near the end of 64 bits. */
  predicate Steady(now: nat) {
    now / 0x8000_0000 == (now + 650) / 0x8000_0000 && now + 650 < 0xFFFF_FFFF_8000_0000
  }

  /** The low 32 bits of the clock are non-negative as an int. */
  predicate LowHalf(now: nat) { now / 0x8000_0000 % 2 == 0 }

  lemma HalfMeansLow(now: nat, t: nat)
    requires Steady(now) && now <= t <= now + 650
    ensures Low(t) <==> LowHalf(now)
    ensures t < 0x8000_0000 <==> now < 0x8000_0000
  {
    var h := t / 0x8000_0000;
    assert h == now / 0x8000_0000;
    HalfOf(t, h);
  }

  lemma HalfOf(t: nat, h: nat)
    requires h == t / 0x8000_0000
    ensures Low(t) <==> h % 2 == 0
  {
    var q, r := h / 2, t % 0x8000_0000;
    assert h == 2 * q + h % 2 && t == 0x8000_0000 * h + r;
    Mod32(t, q, 0x8000_0000 * (h % 2) + r);
  }

  lemma Mod32(t: nat, q: nat, r: nat)
    requires t == 0x1_0000_0000 * q + r && r < 0x1_0000_0000
    ensures t % 0x1_0000_0000 == r
  {}

  /** On every real clock the choice of a full filter does not look at the expiries at all. */
  lemma EvictsByPosition(qs: seq<Query>, now: nat)
    requires ValidRun(qs) && Before(qs, now) && FullAt(SlotsAfter(qs), now)
    requires Steady(now) && 0x8000_0000 <= now
    ensures EvictAmong(SlotsAfter(qs), SLOTS) == if LowHalf(now) then 0 else 15
  {
    hide Low, LowHalf, Steady, SlotsAfter, ValidRun, Before;
    var slots := SlotsAfter(qs);
    ExpiriesClose(qs, now);
    forall k | 0 <= k < SLOTS
      ensures Low(slots[k].expiry) <==> LowHalf(now)
      ensures slots[k].expiry >= 0x8000_0000
    {
      HalfMeansLow(now, slots[k].expiry);
    }
    SteadyInRange(now);
    EvictedOnLargeTimes(slots);
  }

  lemma SteadyInRange(now: nat)
    requires Steady(now)
    ensures now + 650 < 0xFFFF_FFFF_8000_0000
  {}

  /** The frame of slot e was accepted no later than that of any other slot. */
  ghost predicate AcceptedFirst(qs: seq<Query>, e: nat)
    requires e < SLOTS
  {
    forall i, j, k :: 0 <= i < |qs| && 0 <= j < |qs| && 0 <= k < SLOTS && Filled(qs, i, e) && Filled(qs, j, k)
      ==> qs[i].clk.later <= qs[j].clk.later
  }

  lemma EarliestIsAcceptedFirst(qs: seq<Query>, now: nat, e: nat)
    requires ValidRun(qs) && FullAt(SlotsAfter(qs), now) && e < SLOTS
    ensures IsEarliest(SlotsAfter(qs), e) <==> AcceptedFirst(qs, e)
  {
    EverySlotFilled(qs, e);
    var i :| 0 <= i < |qs| && Filled(qs, i, e);
    if AcceptedFirst(qs, e) {
      forall k | 0 <= k < SLOTS
        ensures SlotsAfter(qs)[e].expiry <= SlotsAfter(qs)[k].expiry
      {
        EverySlotFilled(qs, k);
        var j :| 0 <= j < |qs| && Filled(qs, j, k);
      }
    }
  }

  /** The exact condition in every run, away from a multiple of 2^31: a full filter gives up an entry closest to
      expiring iff the clock is still below 2^31, or the frame in slot 0 (slot 15 in the upper half of 2^32) was
      accepted no later than the other fifteen. */
  lemma EvictsEarliestInRunIff(qs: seq<Query>, now: nat)
    requires ValidRun(qs) && Before(qs, now) && FullAt(SlotsAfter(qs), now) && Steady(now)
    ensures IsEarliest(SlotsAfter(qs), EvictAmong(SlotsAfter(qs), SLOTS))
       <==> now < 0x8000_0000 || AcceptedFirst(qs, if LowHalf(now) then 0 else 15)
  {
    hide LowHalf, SlotsAfter, IsEarliest, AcceptedFirst, ValidRun, Before;
    if now < 0x8000_0000 {
      ExpiriesClose(qs, now);
      forall k | 0 <= k < SLOTS
        ensures SlotsAfter(qs)[k].expiry < 0x8000_0000
      {
        HalfMeansLow(now, SlotsAfter(qs)[k].expiry);
      }
      EvictsEarliestOnSmallTimes(SlotsAfter(qs));
    } else {
      EvictsByPosition(qs, now);
      EarliestIsAcceptedFirst(qs, now, if LowHalf(now) then 0 else 15);
    }
  }

  // ----- A run that loses the newest entry -----

  ghost predicate SixteenFrames(fs: seq<Frame>) {
    |fs| == SLOTS && [] !in fs && forall i, j :: 0 <= i < j < SLOTS ==> fs[i] != fs[j]
  }

  function At(t: nat): Clock { Clock(t, t, t / 1000) }

  /** The first frame comes 600 ms before the other fifteen, and again 51 ms after them. */
  function Time(base: nat, i: nat): nat { if i == 0 then base else if i < SLOTS then base + 600 else base + 651 }

  function Bursts(fs: seq<Frame>, base: nat): (qs: seq<Query>)
    requires |fs| == SLOTS
    ensures |qs| == 17
    ensures forall i :: 0 <= i < 17 ==> qs[i] == Query(fs[if i < SLOTS then i else 0], At(Time(base, i)))
  {
    seq(17, i requires 0 <= i < 17 => Query(fs[if i < SLOTS then i else 0], At(Time(base, i))))
  }

  /** The slots after the first n frames. */
  function FilledUp(fs: seq<Frame>, base: nat, n: nat): (slots: seq<Slot>)
    requires n <= SLOTS == |fs|
    ensures |slots| == SLOTS
    ensures forall k :: 0 <= k < SLOTS ==> slots[k] == if k < n then Slot(Time(base, k) + 650, fs[k]) else Slot(0, [])
  {
    seq(SLOTS, k requires 0 <= k < SLOTS => if k < n then Slot(Time(base, k) + 650, fs[k]) else Slot(0, []))
  }

  lemma FillNext(fs: seq<Frame>, base: nat, n: nat)
    requires SixteenFrames(fs) && n < SLOTS
    ensures Filter(FilledUp(fs, base, n), fs[n], At(Time(base, n))).1 == FilledUp(fs, base, n + 1)
  {
    var slots := FilledUp(fs, base, n);
    assert Find(slots, fs[n]) == SLOTS;
    assert Sweep(slots, SLOTS, Time(base, n)) == slots;
    assert Find(slots, []) == n;
  }

  lemma {:induction false} Filling(fs: seq<Frame>, base: nat, n: nat)
    requires SixteenFrames(fs) && n <= SLOTS
    ensures SlotsAfter(Bursts(fs, base)[..n]) == FilledUp(fs, base, n)
  {
    var qs := Bursts(fs, base)[..n];
    if n == 0 {
      assert Empty() == FilledUp(fs, base, 0);
    } else {
      hide Filter;
      Filling(fs, base, n - 1);
      assert qs[..n - 1] == Bursts(fs, base)[..n - 1];
      FillNext(fs, base, n - 1);
    }
  }

  function FullSlots(fs: seq<Frame>, base: nat): (slots: seq<Slot>)
    requires |fs| == SLOTS
    ensures |slots| == SLOTS
  {
    FilledUp(fs, base, SLOTS)[0 := Slot(base + 1301, fs[0])]
  }

  lemma BurstsFill(fs: seq<Frame>, base: nat)
    requires SixteenFrames(fs)
    ensures SlotsAfter(Bursts(fs, base)) == FullSlots(fs, base)
  {
    var qs, slots := Bursts(fs, base), FilledUp(fs, base, SLOTS);
    Filling(fs, base, SLOTS);
    assert Find(slots, fs[0]) == 0;
    assert Sweep(slots, 0, base + 651) == slots;
    assert Filter(slots, fs[0], At(base + 651)).1 == FullSlots(fs, base);
    assert qs[..16] == qs[..|qs| - 1];
  }

  lemma BurstsValid(fs: seq<Frame>, base: nat)
    requires SixteenFrames(fs)
    ensures ValidRun(Bursts(fs, base)) && Before(Bursts(fs, base), base + 700)
  {}

  /** A run of any real clock in which the entry that expires last is given up: a new frame at base + 700 takes slot
      0, and the first frame, accepted at base + 651, is accepted again 50 ms later. */
  lemma LosesNewestOnRealClock(fs: seq<Frame>, g: Frame, base: nat)
    requires SixteenFrames(fs) && g !in fs && g != []
    requires Steady(base + 700) && LowHalf(base + 700) && 0x8000_0000 <= base
    ensures var qs := Bursts(fs, base);
      var slots := SlotsAfter(qs);
      && ValidRun(qs) && Before(qs, base + 700) && FullAt(slots, base + 700)
      && (forall k :: 0 < k < SLOTS ==> slots[k].expiry < slots[0].expiry)
      && EvictAmong(slots, SLOTS) == 0
      && !Suppressed(qs, 16)
      && !Filter(Filter(slots, g, At(base + 700)).1, fs[0], At(base + 701)).0
  {
    hide Filter, SlotsAfter, LowHalf, Steady, ValidRun, Before;
    var qs := Bursts(fs, base);
    BurstsValid(fs, base);
    BurstsFill(fs, base);
    assert FullAt(FullSlots(fs, base), base + 700);
    EvictsByPosition(qs, base + 700);
    FullFilterEvicts(FullSlots(fs, base), g, At(base + 700));
    LastBurstAccepted(fs, base);
    NotHeldIsAccepted(FullSlots(fs, base)[0 := Slot(base + 1350, g)], fs[0], At(base + 701));
  }

  lemma LastBurstAccepted(fs: seq<Frame>, base: nat)
    requires SixteenFrames(fs)
    ensures !Suppressed(Bursts(fs, base), 16)
  {
    Filling(fs, base, SLOTS);
    assert Find(FilledUp(fs, base, SLOTS), fs[0]) == 0;
  }

  lemma NotHeldIsAccepted(slots: seq<Slot>, frame: Frame, clk: Clock)
    requires |slots| == SLOTS && forall k :: 0 <= k < SLOTS ==> slots[k].command != frame
    ensures !Filter(slots, frame, clk).0
  {}
}
