/**
 The duplicate filter of decode.c: radio frames arrive several times, and a 16-slot cache of recently accepted
 frames suppresses the repeats. Expired slots are freed lazily, and a full cache evicts a live one.
*/
module DupFilter {
  import opened Common

  const SLOTS: nat := 16
  const DUP_TIME: nat := 650

  /** An empty command marks an unused slot. */
  datatype Slot = Slot(expiry: nat, command: Frame)
  {
    predicate Used() { command != [] }
  }

  function Expired(s: Slot, now: nat): bool { now > s.expiry }

  /** No command occupies two slots. */
  ghost predicate Distinct(slots: seq<Slot>) {
    forall i, j :: 0 <= i < j < |slots| && slots[i].Used() ==> slots[i].command != slots[j].command
  }

  ghost predicate ValidSlots(slots: seq<Slot>) { |slots| == SLOTS && Distinct(slots) }

  /** The first slot holding the command, or the length. */
  function Find(slots: seq<Slot>, command: Frame): (k: nat)
    ensures k <= |slots|
    ensures k < |slots| ==> slots[k].command == command
    ensures forall i :: 0 <= i < k ==> slots[i].command != command
  {
    if slots == [] || slots[0].command == command then 0 else 1 + Find(slots[1..], command)
  }

  /** Frees the expired slots among the first k. */
  function Sweep(slots: seq<Slot>, k: nat, now: nat): (r: seq<Slot>)
    requires k <= |slots|
    ensures |r| == |slots|
    ensures forall i :: 0 <= i < |slots| ==>
      r[i] == if i < k && Expired(slots[i], now) then slots[i].(command := []) else slots[i]
  {
    seq(|slots|, i requires 0 <= i < |slots| =>
      if i < k && Expired(slots[i], now) then slots[i].(command := []) else slots[i])
  }

  // ----- Eviction -----

  /** A 64-bit time stored in a 32-bit int and then compared with a 64-bit unsigned time. */
  function Truncated(t: nat): nat {
    var w := t % 0x1_0000_0000;
    if w < 0x8000_0000 then w else 0xFFFF_FFFF_0000_0000 + w
  }

  /** The slot chosen among the first n by the scan for the least expiry. */
  function EvictAmong(slots: seq<Slot>, n: nat): (k: nat)
    requires 0 < n <= |slots|
    ensures k < n
  {
    if n == 1 then 0
    else
      var k := EvictAmong(slots, n - 1);
      if slots[n - 1].expiry < Truncated(slots[k].expiry) then n - 1 else k
  }

  ghost predicate IsEarliest(slots: seq<Slot>, k: nat)
    requires k < |slots|
  {
    forall i :: 0 <= i < |slots| ==> slots[k].expiry <= slots[i].expiry
  }

  /** The truncated time is a non-negative int. */
  predicate Low(t: nat) { t % 0x1_0000_0000 < 0x8000_0000 }

  /** The first slot whose truncated time is non-negative, or the length. */
  function FirstLow(slots: seq<Slot>): (k: nat)
    ensures k <= |slots|
    ensures k < |slots| ==> Low(slots[k].expiry)
    ensures forall i :: 0 <= i < k ==> !Low(slots[i].expiry)
  {
    if slots == [] || Low(slots[0].expiry) then 0 else 1 + FirstLow(slots[1..])
  }

  /** All expiry times are ones a clock can produce long before 64 bits overflow. */
  ghost predicate ClockRange(slots: seq<Slot>) {
    forall i :: 0 <= i < |slots| ==> slots[i].expiry < 0xFFFF_FFFF_8000_0000
  }

  lemma TruncatedLow(t: nat)
    requires Low(t)
    ensures Truncated(t) < 0x8000_0000 && Truncated(t) <= t
    ensures t < 0x8000_0000 ==> Truncated(t) == t
  {}

  lemma TruncatedHigh(t: nat)
    requires !Low(t)
    ensures Truncated(t) >= 0xFFFF_FFFF_8000_0000
  {}

  lemma SmallIsLow(t: nat)
    requires t < 0x8000_0000
    ensures Low(t)
  {}

  /** What the scan of n slots leaves in e: the last slot while no slot is low, and after the first low slot f
      either f itself or the least later expiry below the truncated time of f. */
  ghost predicate ScanResult(slots: seq<Slot>, n: nat, e: nat, f: nat)
    requires e < n <= |slots|
  {
    if n <= f then e == n - 1
    else
      && f <= e
      && (e == f ==> forall i :: f < i < n ==> slots[i].expiry >= Truncated(slots[f].expiry))
      && (e != f ==>
        && slots[e].expiry < Truncated(slots[f].expiry)
        && forall i :: f < i < n ==> slots[i].expiry >= slots[e].expiry)
  }

  lemma {:induction false} EvictScan(slots: seq<Slot>, n: nat)
    requires 0 < n <= |slots| && ClockRange(slots)
    ensures ScanResult(slots, n, EvictAmong(slots, n), FirstLow(slots))
  {
    hide Truncated, Low;
    if n > 1 {
      EvictScan(slots, n - 1);
      var k := EvictAmong(slots, n - 1);
      var f := FirstLow(slots);
      if n - 1 <= f {
        TruncatedHigh(slots[n - 2].expiry);
      } else {
        TruncatedLow(slots[f].expiry);
        if k != f {
          SmallIsLow(slots[k].expiry);
          TruncatedLow(slots[k].expiry);
        }
      }
    }
  }

  ghost predicate SomeSmall(slots: seq<Slot>) { exists i :: 0 <= i < |slots| && slots[i].expiry < 0x8000_0000 }

  /** For every cache the scan evicts an earliest-expiring slot exactly when: if some expiry is below 2^31, the first
      low slot is itself below 2^31 or a later one undercuts its truncated time; otherwise, the first low slot (or
      the last slot, when none is low) is an earliest one. */
  ghost predicate EvictionIsExact(slots: seq<Slot>)
    requires slots != []
  {
    var f := FirstLow(slots);
    if SomeSmall(slots) then
      f < |slots| && (slots[f].expiry < 0x8000_0000
        || exists i :: f < i < |slots| && slots[i].expiry < Truncated(slots[f].expiry))
    else
      IsEarliest(slots, if f < |slots| then f else |slots| - 1)
  }

  lemma EvictsEarliestIff(slots: seq<Slot>)
    requires slots != [] && ClockRange(slots)
    ensures IsEarliest(slots, EvictAmong(slots, |slots|)) <==> EvictionIsExact(slots)
  {
    hide IsEarliest, EvictionIsExact, Truncated, Low;
    EvictScan(slots, |slots|);
    var e, f := EvictAmong(slots, |slots|), FirstLow(slots);
    if s :| 0 <= s < |slots| && slots[s].expiry < 0x8000_0000 {
      SmallIsLow(slots[s].expiry);
      if e == f && slots[f].expiry >= 0x8000_0000 {
        TruncatedWins(slots, f, s);
      } else {
        SmallEvicted(slots, e, f, s);
      }
    } else {
      NoneSmall(slots, e, f);
    }
  }

  lemma NoneSmall(slots: seq<Slot>, e: nat, f: nat)
    requires e < |slots| && f == FirstLow(slots) && !SomeSmall(slots) && ScanResult(slots, |slots|, e, f)
    ensures IsEarliest(slots, e) <==> EvictionIsExact(slots)
  {
    assert slots[e].expiry >= 0x8000_0000;
    if f < |slots| { TruncatedLow(slots[f].expiry); }
  }

  /** On times of 2^31 and more the choice depends on positions only: the first low slot goes, or the last slot. */
  lemma EvictedOnLargeTimes(slots: seq<Slot>)
    requires slots != [] && ClockRange(slots) && !SomeSmall(slots)
    ensures EvictAmong(slots, |slots|) == if FirstLow(slots) < |slots| then FirstLow(slots) else |slots| - 1
  {
    hide Truncated, Low;
    EvictScan(slots, |slots|);
    if FirstLow(slots) < |slots| { TruncatedLow(slots[FirstLow(slots)].expiry); }
    assert slots[EvictAmong(slots, |slots|)].expiry >= 0x8000_0000;
  }

  lemma SmallEvicted(slots: seq<Slot>, e: nat, f: nat, s: nat)
    requires e < |slots| && s < |slots| && f == FirstLow(slots) <= s && ScanResult(slots, |slots|, e, f)
    requires slots[s].expiry < 0x8000_0000 && (e == f ==> slots[f].expiry < 0x8000_0000)
    ensures IsEarliest(slots, e) && EvictionIsExact(slots)
  {
    hide Truncated, Low;
    TruncatedLow(slots[f].expiry);
    assert SomeSmall(slots);
    forall i | 0 <= i < |slots|
      ensures slots[e].expiry <= slots[i].expiry
    {
      if i < f && slots[i].expiry < 0x8000_0000 { SmallIsLow(slots[i].expiry); }
    }
  }

  lemma TruncatedWins(slots: seq<Slot>, f: nat, s: nat)
    requires f < |slots| && s < |slots| && f == FirstLow(slots) && ScanResult(slots, |slots|, f, f)
    requires slots[s].expiry < 0x8000_0000 <= slots[f].expiry
    ensures !IsEarliest(slots, f) && !EvictionIsExact(slots)
  {
    assert SomeSmall(slots);
  }

  /** Below 2^31 the rule "the entry closest to expiring" holds. */
  lemma EvictsEarliestOnSmallTimes(slots: seq<Slot>)
    requires slots != [] && forall i :: 0 <= i < |slots| ==> slots[i].expiry < 0x8000_0000
    ensures IsEarliest(slots, EvictAmong(slots, |slots|))
  {
    assert slots[0].expiry < 0x8000_0000;
    EvictsEarliestIff(slots);
  }

  // ----- One call -----

  /** The slot an unknown frame goes to, once the expired slots are free. */
  function Place(slots: seq<Slot>): (k: nat)
    requires |slots| == SLOTS
    ensures k < SLOTS
  {
    var free := Find(slots, []);
    if free < SLOTS then free else EvictAmong(slots, SLOTS)
  }

  /** The answer (suppressed or not) and the slots afterwards. */
  function Filter(slots: seq<Slot>, frame: Frame, clk: Clock): (r: (bool, seq<Slot>))
    requires |slots| == SLOTS
    ensures |r.1| == SLOTS
  {
    var k := Find(slots, frame);
    var swept := Sweep(slots, k, clk.now);
    if k < SLOTS then
      if Expired(slots[k], clk.now) then (false, swept[k := Slot(clk.later + DUP_TIME, frame)])
      else (true, swept)
    else
      (false, swept[Place(swept) := Slot(clk.later + DUP_TIME, frame)])
  }

  lemma FilterStaysValid(slots: seq<Slot>, frame: Frame, clk: Clock)
    requires ValidSlots(slots) && frame != []
    ensures ValidSlots(Filter(slots, frame, clk).1)
  {
    var k := Find(slots, frame);
    var swept := Sweep(slots, k, clk.now);
    assert Distinct(swept);
    assert forall i :: 0 <= i < SLOTS && i != k ==> swept[i].command != frame;
  }

  /** A frame is suppressed iff an identical frame holds a slot that has not expired. */
  lemma SuppressedIffLive(slots: seq<Slot>, frame: Frame, clk: Clock)
    requires ValidSlots(slots) && frame != []
    ensures Filter(slots, frame, clk).0 <==>
      exists i :: 0 <= i < SLOTS && slots[i].command == frame && clk.now <= slots[i].expiry
  {}

  /** A live slot loses its command only when all 16 slots are live, and then only the evicted one does. */
  lemma LiveSlotsStay(slots: seq<Slot>, frame: Frame, clk: Clock, i: nat)
    requires ValidSlots(slots) && frame != [] && i < SLOTS
    requires slots[i].Used() && clk.now <= slots[i].expiry
    ensures var slots' := Filter(slots, frame, clk).1;
      slots'[i] == slots[i] ||
        (&& (forall j :: 0 <= j < SLOTS ==> slots[j].Used() && clk.now <= slots[j].expiry)
         && i == EvictAmong(slots, SLOTS))
  {
    var k := Find(slots, frame);
    var swept := Sweep(slots, k, clk.now);
    if k == SLOTS && Find(swept, []) == SLOTS {
      assert forall j :: 0 <= j < SLOTS ==> swept[j].command != [];
      assert forall j :: 0 <= j < SLOTS ==> swept[j] == slots[j];
      assert swept == slots;
    }
  }

  // ----- Agreement with an unbounded expiry map -----

  /** The filter without a capacity limit: it remembers the expiry of every frame it ever accepted. */
  function MapFilter(m: map<Frame, nat>, frame: Frame, clk: Clock): (bool, map<Frame, nat>) {
    if frame in m && clk.now <= m[frame] then (true, m) else (false, m[frame := clk.later + DUP_TIME])
  }

  function Live(m: map<Frame, nat>, now: nat): set<Frame> { set f | f in m && now <= m[f] }

  ghost predicate Holds(slots: seq<Slot>, f: Frame) { exists i :: 0 <= i < |slots| && slots[i].command == f }

  /** From time t on, the slots know what the map knows. */
  ghost predicate Agree(slots: seq<Slot>, m: map<Frame, nat>, t: nat) {
    && ValidSlots(slots) && [] !in m
    && (forall i :: 0 <= i < SLOTS && slots[i].Used() ==> slots[i].command in m && m[slots[i].command] == slots[i].expiry)
    && (forall f :: f in m && t <= m[f] ==> Holds(slots, f))
  }

  function Commands(slots: seq<Slot>): set<Frame> { set i | 0 <= i < |slots| :: slots[i].command }

  lemma {:induction false} CommandsSize(slots: seq<Slot>)
    requires Distinct(slots) && forall i :: 0 <= i < |slots| ==> slots[i].Used()
    ensures |Commands(slots)| == |slots|
    decreases |slots|
  {
    if slots != [] {
      var init := slots[..|slots| - 1];
      CommandsSize(init);
      assert Commands(slots) == Commands(init) + {slots[|slots| - 1].command};
      assert slots[|slots| - 1].command !in Commands(init);
    }
  }

  lemma SubsetSize<T>(a: set<T>, b: set<T>)
    requires a <= b
    ensures |a| <= |b|
  {
    assert b == a + (b - a);
  }

  /** If all 16 slots are live, accepting a new frame would make 17 frames live. */
  lemma FullMeansSeventeen(slots: seq<Slot>, m: map<Frame, nat>, frame: Frame, clk: Clock)
    requires Agree(slots, m, clk.now) && frame != [] && clk.now <= clk.later
    requires forall i :: 0 <= i < SLOTS ==> slots[i].Used() && clk.now <= slots[i].expiry && slots[i].command != frame
    ensures |Live(m[frame := clk.later + DUP_TIME], clk.now)| > SLOTS
  {
    CommandsSize(slots);
    var live := Live(m[frame := clk.later + DUP_TIME], clk.now);
    assert frame !in Commands(slots);
    assert |Commands(slots) + {frame}| == SLOTS + 1;
    SubsetSize(Commands(slots) + {frame}, live);
  }

  lemma AgreeStep(slots: seq<Slot>, m: map<Frame, nat>, t: nat, frame: Frame, clk: Clock)
    requires Agree(slots, m, t) && t <= clk.now <= clk.later && frame != []
    requires |Live(MapFilter(m, frame, clk).1, clk.now)| <= SLOTS
    ensures Filter(slots, frame, clk).0 == MapFilter(m, frame, clk).0
    ensures Agree(Filter(slots, frame, clk).1, MapFilter(m, frame, clk).1, clk.now)
  {
    hide Live, EvictAmong, Sweep, Find;
    var k := Find(slots, frame);
    var swept := Sweep(slots, k, clk.now);
    FilterStaysValid(slots, frame, clk);
    SweepAgrees(slots, m, t, k, clk.now);
    if frame in m && clk.now <= m[frame] {
      assert Holds(slots, frame);
    } else if k == SLOTS {
      if Find(swept, []) == SLOTS {
        FullMeansSeventeen(swept, m, frame, clk);
      }
      PlaceAgrees(swept, m, Find(swept, []), frame, clk);
    } else {
      PlaceAgrees(swept, m, k, frame, clk);
    }
  }

  lemma SweepAgrees(slots: seq<Slot>, m: map<Frame, nat>, t: nat, k: nat, now: nat)
    requires Agree(slots, m, t) && t <= now && k <= SLOTS
    ensures Agree(Sweep(slots, k, now), m, now)
  {
    var swept := Sweep(slots, k, now);
    forall f | f in m && now <= m[f]
      ensures Holds(swept, f)
    {
      assert Holds(slots, f);
      var i :| 0 <= i < SLOTS && slots[i].command == f;
      assert swept[i].command == f;
    }
  }

  /** Storing the frame in its own expired slot or in a free one keeps the agreement. */
  lemma PlaceAgrees(slots: seq<Slot>, m: map<Frame, nat>, k: nat, frame: Frame, clk: Clock)
    requires Agree(slots, m, clk.now) && frame != [] && k < SLOTS
    requires slots[k].command in {[], frame}
    requires forall i :: 0 <= i < SLOTS && i != k ==> slots[i].command != frame
    ensures Agree(slots[k := Slot(clk.later + DUP_TIME, frame)], m[frame := clk.later + DUP_TIME], clk.now)
  {
    var slots' := slots[k := Slot(clk.later + DUP_TIME, frame)];
    var m' := m[frame := clk.later + DUP_TIME];
    forall f | f in m' && clk.now <= m'[f]
      ensures Holds(slots', f)
    {
      if f == frame {
        assert slots'[k].command == f;
      } else {
        assert Holds(slots, f);
        var i :| 0 <= i < SLOTS && slots[i].command == f;
        assert slots'[i].command == f || (i == k && f == []);
      }
    }
  }

  // ----- Runs -----

  datatype Query = Query(frame: Frame, clk: Clock)

  function Empty(): (slots: seq<Slot>)
    ensures |slots| == SLOTS && forall i :: 0 <= i < SLOTS ==> slots[i] == Slot(0, [])
  {
    seq(SLOTS, _ => Slot(0, []))
  }

  function SlotsAfter(qs: seq<Query>): (slots: seq<Slot>)
    ensures |slots| == SLOTS
    decreases |qs|
  {
    if qs == [] then Empty()
    else Filter(SlotsAfter(qs[..|qs| - 1]), qs[|qs| - 1].frame, qs[|qs| - 1].clk).1
  }

  function MapAfter(qs: seq<Query>): map<Frame, nat>
    decreases |qs|
  {
    if qs == [] then map[]
    else MapFilter(MapAfter(qs[..|qs| - 1]), qs[|qs| - 1].frame, qs[|qs| - 1].clk).1
  }

  predicate Suppressed(qs: seq<Query>, i: nat)
    requires i < |qs|
  {
    Filter(SlotsAfter(qs[..i]), qs[i].frame, qs[i].clk).0
  }

  /** Frames are not empty and the clock does not run backwards. */
  ghost predicate ValidRun(qs: seq<Query>) {
    && (forall i :: 0 <= i < |qs| ==> qs[i].frame != [] && qs[i].clk.now <= qs[i].clk.later)
    && (forall i, j :: 0 <= i < j < |qs| ==> qs[i].clk.later <= qs[j].clk.now)
  }

  /** After each query at most 16 frames are within their expiry. */
  ghost predicate FewLive(qs: seq<Query>) {
    forall n :: 0 < n <= |qs| ==> |Live(MapAfter(qs[..n]), qs[n - 1].clk.now)| <= SLOTS
  }

  lemma RunPrefix(qs: seq<Query>, n: nat)
    requires n <= |qs|
    ensures ValidRun(qs) ==> ValidRun(qs[..n])
    ensures FewLive(qs) ==> FewLive(qs[..n])
    ensures forall i :: 0 <= i < n ==> qs[..n][..i] == qs[..i]
  {
    assert forall i :: 0 <= i <= n ==> qs[..n][..i] == qs[..i];
  }

  function LastNow(qs: seq<Query>): nat { if qs == [] then 0 else qs[|qs| - 1].clk.now }

  lemma {:induction false} SlotsKnowTheMap(qs: seq<Query>)
    requires ValidRun(qs) && FewLive(qs)
    ensures Agree(SlotsAfter(qs), MapAfter(qs), LastNow(qs))
    decreases |qs|
  {
    if qs != [] {
      var n := |qs| - 1;
      RunPrefix(qs, n);
      SlotsKnowTheMap(qs[..n]);
      assert qs[..n + 1] == qs;
      AgreeStep(SlotsAfter(qs[..n]), MapAfter(qs[..n]), LastNow(qs[..n]), qs[n].frame, qs[n].clk);
    }
  }

  /** While at most 16 frames are ever live at once, the 16 slots answer every query of the run exactly as the
      unbounded map does. */
  lemma AnswersLikeUnbounded(qs: seq<Query>, i: nat)
    requires ValidRun(qs) && FewLive(qs) && i < |qs|
    ensures Suppressed(qs, i) <==> MapFilter(MapAfter(qs[..i]), qs[i].frame, qs[i].clk).0
  {
    RunPrefix(qs, i);
    SlotsKnowTheMap(qs[..i]);
    assert qs[..i + 1][..i] == qs[..i];
    assert |Live(MapAfter(qs[..i + 1]), qs[i + 1 - 1].clk.now)| <= SLOTS;
    AgreeStep(SlotsAfter(qs[..i]), MapAfter(qs[..i]), LastNow(qs[..i]), qs[i].frame, qs[i].clk);
  }

  /** Once accepted, a frame stays in the map with at least that expiry. */
  lemma {:induction false} MapRemembers(qs: seq<Query>, i: nat)
    requires ValidRun(qs) && i < |qs|
    requires !MapFilter(MapAfter(qs[..i]), qs[i].frame, qs[i].clk).0
    ensures qs[i].frame in MapAfter(qs) && MapAfter(qs)[qs[i].frame] >= qs[i].clk.later + DUP_TIME
    decreases |qs|
  {
    hide MapFilter;
    var n := |qs| - 1;
    RunPrefix(qs, n);
    var before, q := qs[..n], qs[n];
    if i < n {
      assert before[..i] == qs[..i];
      MapRemembers(before, i);
      MapNeverForgets(MapAfter(before), q.frame, q.clk, qs[i].frame);
    } else {
      MapAccepts(MapAfter(before), q.frame, q.clk);
    }
  }

  lemma MapNeverForgets(m: map<Frame, nat>, frame: Frame, clk: Clock, f: Frame)
    requires f in m && clk.now <= clk.later
    ensures var m' := MapFilter(m, frame, clk).1; f in m' && m'[f] >= m[f]
  {}

  lemma MapAccepts(m: map<Frame, nat>, frame: Frame, clk: Clock)
    requires !MapFilter(m, frame, clk).0
    ensures MapFilter(m, frame, clk).1 == m[frame := clk.later + DUP_TIME]
  {}

  /** Hence two acceptances of one frame are more than 650 ms apart. */
  lemma AcceptancesFarApart(qs: seq<Query>, i: nat, j: nat)
    requires ValidRun(qs) && FewLive(qs) && i < j < |qs|
    requires qs[i].frame == qs[j].frame && !Suppressed(qs, i) && !Suppressed(qs, j)
    ensures qs[j].clk.now - qs[i].clk.later > 650
  {
    AnswersLikeUnbounded(qs, i);
    AnswersLikeUnbounded(qs, j);
    RunPrefix(qs, j);
    assert qs[..j][i] == qs[i];
    MapRemembers(qs[..j], i);
  }

  /** Some earlier query of this frame was accepted, and its 650 ms end at this expiry. */
  ghost predicate AcceptedAt(qs: seq<Query>, i: nat, frame: Frame, expiry: nat)
    requires i < |qs|
  {
    qs[i].frame == frame && !Suppressed(qs, i) && qs[i].clk.later + DUP_TIME == expiry
  }

  ghost predicate HasCause(qs: seq<Query>, s: Slot) { exists i :: 0 <= i < |qs| && AcceptedAt(qs, i, s.command, s.expiry) }

  lemma {:induction false} SlotsHaveCauses(qs: seq<Query>)
    requires forall i :: 0 <= i < |qs| ==> qs[i].frame != []
    ensures ValidSlots(SlotsAfter(qs))
    ensures forall k :: 0 <= k < SLOTS && SlotsAfter(qs)[k].Used() ==> HasCause(qs, SlotsAfter(qs)[k])
    decreases |qs|
  {
    if qs != [] {
      var n := |qs| - 1;
      var before, q := qs[..n], qs[n];
      hide Filter, HasCause;
      SlotsHaveCauses(before);
      FilterStaysValid(SlotsAfter(before), q.frame, q.clk);
      forall k | 0 <= k < SLOTS && SlotsAfter(qs)[k].Used()
        ensures HasCause(qs, SlotsAfter(qs)[k])
      {
        CauseStep(qs, k);
      }
    }
  }

  /** A slot in use after a query is as before, or holds the frame just accepted. */
  lemma SlotChanges(slots: seq<Slot>, frame: Frame, clk: Clock, k: nat)
    requires |slots| == SLOTS && k < SLOTS && Filter(slots, frame, clk).1[k].Used()
    ensures var (suppressed, slots') := Filter(slots, frame, clk);
      slots'[k] == slots[k] || (!suppressed && slots'[k] == Slot(clk.later + DUP_TIME, frame))
  {
    hide EvictAmong;
  }

  lemma CauseStep(qs: seq<Query>, k: nat)
    requires qs != [] && k < SLOTS && SlotsAfter(qs)[k].Used()
    requires var before := qs[..|qs| - 1];
      SlotsAfter(before)[k].Used() ==> HasCause(before, SlotsAfter(before)[k])
    ensures HasCause(qs, SlotsAfter(qs)[k])
  {
    hide Filter;
    var n := |qs| - 1;
    var s := SlotsAfter(qs)[k];
    SlotChanges(SlotsAfter(qs[..n]), qs[n].frame, qs[n].clk, k);
    if s == SlotsAfter(qs[..n])[k] {
      CauseStays(qs, s);
    } else {
      assert AcceptedAt(qs, n, s.command, s.expiry);
    }
  }

  lemma CauseStays(qs: seq<Query>, s: Slot)
    requires qs != [] && HasCause(qs[..|qs| - 1], s)
    ensures HasCause(qs, s)
  {
    var before := qs[..|qs| - 1];
    var i :| 0 <= i < |before| && AcceptedAt(before, i, s.command, s.expiry);
    assert before[..i] == qs[..i];
    assert AcceptedAt(qs, i, s.command, s.expiry);
  }

  /** In every run, with or without evictions, a frame is suppressed only because an identical one was accepted
      earlier and its 650 ms are not over. */
  lemma SuppressionHasCause(qs: seq<Query>, n: nat)
    requires (forall i :: 0 <= i < |qs| ==> qs[i].frame != []) && n < |qs| && Suppressed(qs, n)
    ensures exists i :: 0 <= i < n && qs[i].frame == qs[n].frame && !Suppressed(qs, i) &&
                        qs[n].clk.now <= qs[i].clk.later + 650
  {
    var before := qs[..n];
    SlotsHaveCauses(before);
    var s := SlotsAfter(before)[Find(SlotsAfter(before), qs[n].frame)];
    assert HasCause(before, s);
    var i :| 0 <= i < n && AcceptedAt(before, i, s.command, s.expiry);
    assert before[..i] == qs[..i];
  }

  // ----- The static array of dup_filter -----

  class DupCache {
    const dups: array<Slot>

    ghost function Repr(): set<object> { {this, dups} }

    ghost predicate Valid()
      reads Repr()
    {
      dups.Length == SLOTS && ValidSlots(dups[..])
    }

    constructor ()
      ensures Valid() && fresh(Repr())
      ensures dups[..] == Empty()
    {
      dups := new Slot[SLOTS](_ => Slot(0, []));
    }

    method DupFilter(frame: Frame, clk: Clock) returns (suppressed: bool)
      requires Valid() && frame != []
      modifies dups
      ensures Valid()
      ensures (suppressed, dups[..]) == Filter(old(dups[..]), frame, clk)
    {
      hide ValidSlots, EvictAmong, Find;
      ghost var was := dups[..];
      FilterStaysValid(was, frame, clk);
      var firstUnused := -1;
      for i := 0 to SLOTS
        invariant dups[..] == Sweep(was, i, clk.now)
        invariant forall j :: 0 <= j < i ==> was[j].command != frame
        invariant FirstUnused(firstUnused, i)
      {
        if dups[i].Used() {
          if dups[i].command == frame {
            FoundIs(was, frame, i);
            if Expired(dups[i], clk.now) {
              dups[i] := dups[i].(expiry := clk.later + DUP_TIME);
              assert dups[..] == Sweep(was, i, clk.now)[i := Slot(clk.later + DUP_TIME, frame)];
              return false;
            } else {
              return true;
            }
          } else if Expired(dups[i], clk.now) {
            dups[i] := dups[i].(command := []);
            if firstUnused == -1 { firstUnused := i; }
          }
        } else {
          if firstUnused == -1 { firstUnused := i; }
        }
        SweepNext(was, i, clk.now, dups[..]);
      }
      FoundIs(was, frame, SLOTS);
      AddEntry(firstUnused, frame, clk);
      return false;
    }

    /** Among the first n slots, k is the first unused one, or -1 if all are used. */
    ghost predicate FirstUnused(k: int, n: nat)
      requires n <= dups.Length
      reads dups
    {
      && -1 <= k < n
      && (k >= 0 ==> dups[k].command == [])
      && forall j :: 0 <= j < (if k >= 0 then k else n) ==> dups[j].command != []
    }

    method AddEntry(firstUnused: int, frame: Frame, clk: Clock)
      requires dups.Length == SLOTS && FirstUnused(firstUnused, SLOTS)
      modifies dups
      ensures dups[..] == old(dups[..])[Place(old(dups[..])) := Slot(clk.later + DUP_TIME, frame)]
    {
      var addIndex := firstUnused;
      if firstUnused == -1 {
        FoundIs(dups[..], [], SLOTS);
        addIndex := ClosestToExpiring();
      } else {
        FoundIs(dups[..], [], firstUnused);
      }
      dups[addIndex] := Slot(clk.later + DUP_TIME, frame);
    }

    method ClosestToExpiring() returns (k: nat)
      requires dups.Length == SLOTS
      ensures k == EvictAmong(dups[..], SLOTS)
    {
      var min := Truncated(dups[0].expiry);
      k := 0;
      for i := 1 to SLOTS
        invariant k == EvictAmong(dups[..], i)
        invariant min == Truncated(dups[k].expiry)
      {
        if dups[i].expiry < min {
          min := Truncated(dups[i].expiry);
          k := i;
        }
      }
    }
  }

  lemma SweepNext(slots: seq<Slot>, i: nat, now: nat, r: seq<Slot>)
    requires i < |slots| == |r|
    requires forall j :: 0 <= j < |slots| && j != i ==> r[j] == Sweep(slots, i, now)[j]
    requires r[i] == if Expired(slots[i], now) then slots[i].(command := []) else slots[i]
    ensures r == Sweep(slots, i + 1, now)
  {}

  lemma FoundIs(slots: seq<Slot>, command: Frame, k: nat)
    requires k <= |slots| && (k < |slots| ==> slots[k].command == command)
    requires forall i :: 0 <= i < k ==> slots[i].command != command
    ensures Find(slots, command) == k
  {}
}
