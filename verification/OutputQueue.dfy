/**
 The output FIFO of x10_write.c: at most one frame is in flight to the controller; the others
 wait in a 256-slot ring until an acknowledgement or a poll timeout releases the next one.
*/
module OutputQueue {
  import opened Common

  const SLOTS: nat := 256
  const CAPACITY: nat := 255
  const POLL_MS: int := 2000
  const POLL_FOREVER: int := -1

  /** What the ring stands for: waiting frames in order, and every frame handed to USB so far. */
  datatype Queue = Queue(busy: bool, waiting: seq<Frame>, written: seq<Frame>, pollTimeout: int)
  {
    ghost predicate Valid() {
      && |waiting| <= CAPACITY
      && (!busy ==> waiting == [])
    }

    predicate Full() { busy && |waiting| == CAPACITY }
  }

  /** One call of x10_write. */
  function Submit(q: Queue, frame: Frame): Queue {
    if !q.busy then q.(busy := true, pollTimeout := POLL_MS, written := q.written + [frame])
    else if |q.waiting| < CAPACITY then q.(waiting := q.waiting + [frame])
    else q
  }

  /** One call of send_next_x10out, made for every acknowledgement and every poll timeout. */
  function SendNext(q: Queue): Queue {
    if !q.busy then q
    else if q.waiting == [] then q.(busy := false, pollTimeout := POLL_FOREVER)
    else q.(waiting := q.waiting[1..], written := q.written + [q.waiting[0]])
  }

  function SubmitAll(q: Queue, frames: seq<Frame>): Queue
    decreases |frames|
  {
    if frames == [] then q else SubmitAll(Submit(q, frames[0]), frames[1..])
  }

  lemma {:induction false} SubmitAllAppend(q: Queue, a: seq<Frame>, b: seq<Frame>)
    ensures SubmitAll(q, a + b) == SubmitAll(SubmitAll(q, a), b)
    decreases |a|
  {
    if a == [] {
      assert a + b == b;
    } else {
      assert (a + b)[1..] == a[1..] + b;
      SubmitAllAppend(Submit(q, a[0]), a[1..], b);
    }
  }

  /** With room for all of them, a burst of frames is accepted whole and in order. */
  lemma {:induction false} SubmitAllWithRoom(q: Queue, frames: seq<Frame>)
    requires q.Valid()
    requires |q.waiting| + |frames| <= CAPACITY
    ensures var q' := SubmitAll(q, frames);
      && q'.Valid()
      && q'.written + q'.waiting == q.written + q.waiting + frames
      && (q.busy ==> q'.written == q.written)
      && (!q.busy && frames != [] ==> q'.written == q.written + [frames[0]])
    decreases |frames|
  {
    if frames == [] {
      assert q.written + q.waiting + frames == q.written + q.waiting;
    } else {
      var q1 := Submit(q, frames[0]);
      SubmitAllWithRoom(q1, frames[1..]);
      assert frames == [frames[0]] + frames[1..];
      assert q1.written + q1.waiting == q.written + q.waiting + [frames[0]];
    }
  }

  // ----- Runs -----

  datatype Action = Write(frame: Frame) | Release

  function Act(q: Queue, a: Action): Queue {
    match a
    case Write(f) => Submit(q, f)
    case Release => SendNext(q)
  }

  function Run(q: Queue, acts: seq<Action>): Queue
    decreases |acts|
  {
    if acts == [] then q else Act(Run(q, acts[..|acts| - 1]), acts[|acts| - 1])
  }

  /** The frames of a run that were not submitted to a full ring, in submission order. */
  function Accepted(q: Queue, acts: seq<Action>): seq<Frame>
    decreases |acts|
  {
    if acts == [] then []
    else
      var before := acts[..|acts| - 1];
      match acts[|acts| - 1]
      case Release => Accepted(q, before)
      case Write(f) => if Run(q, before).Full() then Accepted(q, before) else Accepted(q, before) + [f]
  }

  /** How many acknowledgements and timeouts of a run arrived while a frame was in flight. */
  function BusyReleases(q: Queue, acts: seq<Action>): nat
    decreases |acts|
  {
    if acts == [] then 0
    else
      var before := acts[..|acts| - 1];
      BusyReleases(q, before) + if acts[|acts| - 1].Release? && Run(q, before).busy then 1 else 0
  }

  /** One step moves a frame or adds an accepted one. */
  lemma ActConserves(q: Queue, a: Action)
    requires q.Valid()
    ensures Act(q, a).Valid()
    ensures Act(q, a).written + Act(q, a).waiting
         == q.written + q.waiting + if a.Write? && !q.Full() then [a.frame] else []
  {
    if a.Write? {
      assert q.written + (q.waiting + [a.frame]) == q.written + q.waiting + [a.frame];
    } else if q.busy && q.waiting != [] {
      assert q.waiting == [q.waiting[0]] + q.waiting[1..];
    }
  }

  /** Nothing accepted is lost, duplicated or reordered, in any run. */
  lemma {:induction false} RingIsFifo(q: Queue, acts: seq<Action>)
    requires q.Valid()
    ensures Run(q, acts).Valid()
    ensures Run(q, acts).written + Run(q, acts).waiting == q.written + q.waiting + Accepted(q, acts)
    decreases |acts|
  {
    if acts != [] {
      hide Act;
      var before, a := acts[..|acts| - 1], acts[|acts| - 1];
      RingIsFifo(q, before);
      ActConserves(Run(q, before), a);
      var kept := if a.Write? && !Run(q, before).Full() then [a.frame] else [];
      assert Accepted(q, acts) == Accepted(q, before) + kept;
    }
  }

  /** A submitted frame is lost exactly when it meets a busy queue with 255 frames waiting. */
  lemma LostIffFull(q: Queue, frame: Frame)
    requires q.Valid()
    ensures q.busy && |q.waiting| == 255 <==> Submit(q, frame) == q
    ensures !(q.busy && |q.waiting| == 255) ==>
      Submit(q, frame).written + Submit(q, frame).waiting == q.written + q.waiting + [frame]
  {
    if !q.busy {
      assert |Submit(q, frame).written| == |q.written| + 1;
    } else if |q.waiting| < CAPACITY {
      assert |Submit(q, frame).waiting| == |q.waiting| + 1;
      assert q.written + (q.waiting + [frame]) == q.written + q.waiting + [frame];
    }
  }

  /** In every state, the USB writes not yet released number exactly the busy flag. */
  lemma {:induction false} OneFrameInFlight(q: Queue, acts: seq<Action>)
    requires q.Valid() && !q.busy
    ensures |Run(q, acts).written| - |q.written| - BusyReleases(q, acts)
         == if Run(q, acts).busy then 1 else 0
    decreases |acts|
  {
    if acts != [] {
      OneFrameInFlight(q, acts[..|acts| - 1]);
    }
  }

  function Pending(q: Queue): nat { |q.waiting| + if q.busy then 1 else 0 }

  function Releases(n: nat): seq<Action> { seq(n, _ => Release) }

  /** Every release of a busy queue makes progress, whatever happened before. */
  lemma ReleaseMakesProgress(q: Queue)
    requires q.Valid()
    ensures SendNext(q).Valid()
    ensures q.busy ==> Pending(SendNext(q)) == Pending(q) - 1
    ensures !q.busy ==> SendNext(q) == q && Pending(q) == 0
  {}

  /** With no new writes, n releases write all n waiting frames in order; one more makes the queue idle. */
  lemma {:induction false} Drains(q: Queue, n: nat)
    requires q.Valid() && q.busy && n <= |q.waiting|
    ensures Run(q, Releases(n)) == q.(waiting := q.waiting[n..], written := q.written + q.waiting[..n])
    ensures n == |q.waiting| ==>
      Run(q, Releases(n + 1)) == Queue(false, [], q.written + q.waiting, POLL_FOREVER)
    decreases n
  {
    if n == 0 {
      assert q.waiting[0..] == q.waiting && q.written + q.waiting[..0] == q.written;
    } else {
      Drains(q, n - 1);
      assert Releases(n)[..n - 1] == Releases(n - 1);
      assert q.waiting[n - 1..][1..] == q.waiting[n..];
      assert q.waiting[..n] == q.waiting[..n - 1] + [q.waiting[n - 1]];
      assert q.written + q.waiting[..n] == q.written + q.waiting[..n - 1] + [q.waiting[n - 1]];
    }
    if n == |q.waiting| {
      assert Releases(n + 1)[..n] == Releases(n);
      assert q.waiting[..n] == q.waiting;
    }
  }

  // ----- Start-up and the poll timer -----

  /** The frames a CM19A is initialised with; a CM15A gets none. */
  function InitFrames(cm19a: bool): seq<Frame> {
    if !cm19a then []
    else
      [ [0x80, 0x05, 0x1b, 0x14, 0x28, 0x20, 0x24, 0x29],
        [0x83, 0x03],
        [0x84, 0x37, 0x02, 0x60, 0x00, 0x00, 0x00, 0x00],
        [0x80, 0x01, 0x00, 0x14, 0x20, 0x24, 0x28, 0x29],
        [0x83, 0x02, 0x0f],
        [0x83, 0x37, 0x02, 0x60, 0x00, 0x00, 0x00, 0x00],
        [0x20, 0x34, 0xcb, 0x58, 0xa7],
        [0x80, 0x05, 0x01, 0x14, 0x20, 0x24, 0x28, 0x29] ]
  }

  /** The process starts with all statics zero. */
  const BOOT: Queue := Queue(false, [], [], 0)

  /** The queue as the main loop finds it: the initial frames are submitted, and only then is the poll timer
      set to wait forever. */
  function StartUp(cm19a: bool): Queue {
    SubmitAll(BOOT, InitFrames(cm19a)).(pollTimeout := POLL_FOREVER)
  }

  lemma StartUpState(cm19a: bool)
    ensures StartUp(cm19a).Valid()
    ensures StartUp(cm19a).busy == cm19a && |StartUp(cm19a).waiting| == if cm19a then 7 else 0
    ensures StartUp(cm19a).pollTimeout == POLL_FOREVER
    ensures StartUp(cm19a).written + StartUp(cm19a).waiting == InitFrames(cm19a)
  {
    SubmitAllWithRoom(BOOT, InitFrames(cm19a));
    assert BOOT.written + BOOT.waiting + InitFrames(cm19a) == InitFrames(cm19a);
    if !cm19a {
      assert SubmitAll(BOOT, []) == BOOT;
    } else {
      var q := SubmitAll(BOOT, InitFrames(true));
      assert |q.written + q.waiting| == 8;
      SubmitAllBusy(BOOT, InitFrames(true));
    }
  }

  lemma {:induction false} SubmitAllBusy(q: Queue, frames: seq<Frame>)
    ensures SubmitAll(q, frames).busy == (q.busy || frames != [])
    decreases |frames|
  {
    if frames != [] { SubmitAllBusy(Submit(q, frames[0]), frames[1..]); }
  }

  /** Some state of the run, its first one included, is idle. */
  ghost predicate HasBeenIdle(q: Queue, acts: seq<Action>) {
    exists k :: 0 <= k <= |acts| && !Run(q, acts[..k]).busy
  }

  /** The exact meaning of the poll timer in every run after start-up: it is armed iff a frame is in flight
      and the queue has been idle at least once since the main loop began. */
  lemma PollTimerMeaning(cm19a: bool, acts: seq<Action>)
    ensures var q := Run(StartUp(cm19a), acts);
      q.pollTimeout == if q.busy && HasBeenIdle(StartUp(cm19a), acts) then 2000 else -1
  {
    StartUpState(cm19a);
    PollTimerFrom(StartUp(cm19a), acts);
  }

  lemma {:induction false} PollTimerFrom(q0: Queue, acts: seq<Action>)
    requires q0.Valid() && q0.pollTimeout == POLL_FOREVER
    ensures var q := Run(q0, acts);
      q.pollTimeout == if q.busy && HasBeenIdle(q0, acts) then POLL_MS else POLL_FOREVER
    decreases |acts|
  {
    hide HasBeenIdle;
    IdleNow(q0, acts);
    if acts == [] {
      if q0.busy { NotIdleYet(q0); }
    } else {
      PollTimerFrom(q0, acts[..|acts| - 1]);
      IdleNow(q0, acts[..|acts| - 1]);
      HasBeenIdleStep(q0, acts);
    }
  }

  lemma IdleNow(q0: Queue, acts: seq<Action>)
    ensures !Run(q0, acts).busy ==> HasBeenIdle(q0, acts)
  {
    assert acts[..|acts|] == acts;
  }

  lemma NotIdleYet(q0: Queue)
    requires q0.busy
    ensures !HasBeenIdle(q0, [])
  {}

  lemma HasBeenIdleStep(q0: Queue, acts: seq<Action>)
    requires acts != []
    ensures HasBeenIdle(q0, acts) <==> HasBeenIdle(q0, acts[..|acts| - 1]) || !Run(q0, acts).busy
  {
    hide Run;
    var n := |acts| - 1;
    var before := acts[..n];
    IdleNow(q0, acts);
    assert acts[..n + 1] == acts;
    assert forall k :: 0 <= k <= n ==> acts[..k] == before[..k];
    if HasBeenIdle(q0, before) {
      var k :| 0 <= k <= n && !Run(q0, before[..k]).busy;
      assert !Run(q0, acts[..k]).busy;
    }
  }

  /** On a CM15A the poll timer is armed exactly while a frame is in flight; on either controller an armed
      timer means a frame is in flight. */
  lemma PollTimerArmedImpliesBusy(cm19a: bool, acts: seq<Action>)
    ensures Run(StartUp(cm19a), acts).pollTimeout == POLL_MS ==> Run(StartUp(cm19a), acts).busy
    ensures !cm19a ==> (Run(StartUp(cm19a), acts).pollTimeout == POLL_MS <==> Run(StartUp(cm19a), acts).busy)
  {
    PollTimerMeaning(cm19a, acts);
    StartUpState(cm19a);
    if !cm19a {
      assert acts[..0] == [];
      assert !Run(StartUp(cm19a), acts[..0]).busy;
    }
  }

  /** The converse fails on a CM19A: its start-up frames are in flight with the poll timer off. */
  lemma Cm19aStartsWithTimerOff()
    ensures Run(StartUp(true), []).busy && Run(StartUp(true), []).pollTimeout != POLL_MS
  {
    StartUpState(true);
  }

  // ----- The ring -----

  function NextIndex(i: nat): nat { (i + 1) % SLOTS }

  /** The slot of the k-th waiting frame when the last frame sent came from slot head. */
  function SlotOf(head: nat, k: nat): nat { (head + 1 + k) % SLOTS }

  /** With n frames waiting behind slot head: the slot after the last, and when it is head itself. */
  lemma NewSlot(head: nat, tail: nat, n: nat)
    requires head < SLOTS && n < SLOTS && tail == (head + n) % SLOTS
    ensures NextIndex(tail) == SlotOf(head, n) == (head + (n + 1)) % SLOTS
    ensures NextIndex(tail) == head <==> n == CAPACITY
    ensures forall k :: 0 <= k < n ==> SlotOf(head, k) < SLOTS && SlotOf(head, k) != SlotOf(head, n)
  {}

  /** With n frames waiting behind slot head: when there are none, and what is left once the first is sent. */
  lemma NextHead(head: nat, tail: nat, n: nat)
    requires head < SLOTS && n < SLOTS && tail == (head + n) % SLOTS
    ensures head == tail <==> n == 0
    ensures NextIndex(head) == SlotOf(head, 0) < SLOTS
    ensures n > 0 ==> tail == (NextIndex(head) + (n - 1)) % SLOTS
    ensures forall k :: 0 <= k ==> SlotOf(NextIndex(head), k) == SlotOf(head, k + 1)
  {}

  /** The statics of x10_write.c. Slots head+1..tail, counted modulo 256, are the waiting frames. */
  class X10Out {
    const outlen: array<nat>
    const outdata: array2<byte>
    var head: nat
    var tail: nat
    var busy: bool
    var pollTimeout: int
    ghost var q: Queue

    ghost function Repr(): set<object> { {this, outlen, outdata} }

    predicate Shaped()
      reads outlen, outdata
    {
      && outlen.Length == SLOTS && outdata.Length0 == SLOTS && outdata.Length1 == 8
      && forall i :: 0 <= i < SLOTS ==> outlen[i] <= 8
    }

    function Record(slot: nat): Frame
      requires Shaped() && slot < SLOTS
      reads outlen, outdata
    {
      seq(outlen[slot], j requires 0 <= j < outlen[slot] && Shaped() && slot < SLOTS reads outlen, outdata => outdata[slot, j])
    }

    ghost predicate Valid()
      reads Repr()
    {
      && Shaped()
      && head < SLOTS && tail < SLOTS
      && q.Valid() && busy == q.busy && pollTimeout == q.pollTimeout
      && tail == (head + |q.waiting|) % SLOTS
      && forall k :: 0 <= k < |q.waiting| ==> Record(SlotOf(head, k)) == q.waiting[k]
    }

    constructor ()
      ensures Valid() && fresh(Repr())
      ensures q == BOOT
    {
      outlen := new nat[SLOTS](_ => 0);
      outdata := new byte[SLOTS, 8];
      head, tail, busy, pollTimeout := 0, 0, false, 0;
      q := BOOT;
    }

    /** Hands a frame to the controller. */
    ghost method WriteUsb(frame: Frame)
      modifies this`q
      ensures q == old(q).(written := old(q).written + [frame])
    {
      q := q.(written := q.written + [frame]);
    }

    method Store(slot: nat, frame: Frame)
      requires Shaped() && slot < SLOTS && |frame| <= 8
      modifies outlen, outdata
      ensures Shaped()
      ensures Record(slot) == frame
      ensures forall i :: 0 <= i < SLOTS && i != slot ==> Record(i) == old(Record(i))
    {
      outlen[slot] := |frame|;
      for j := 0 to |frame|
        modifies outdata
        invariant forall i, l :: 0 <= i < SLOTS && 0 <= l < 8 && i != slot ==> outdata[i, l] == old(outdata[i, l])
        invariant forall l :: 0 <= l < j ==> outdata[slot, l] == frame[l]
      {
        outdata[slot, j] := frame[j];
      }
    }

    method AddX10Out(frame: Frame) returns (rc: int)
      requires Valid() && busy && |frame| <= 8
      modifies this`tail, this`q, outlen, outdata
      ensures Valid()
      ensures q == Submit(old(q), frame)
      ensures rc == if old(q).Full() then -1 else |frame|
    {
      hide SlotOf, NextIndex;
      NewSlot(head, tail, |q.waiting|);
      var nxt := NextIndex(tail);
      if nxt == head {
        return -1;
      }
      Store(nxt, frame);
      tail := nxt;
      q := q.(waiting := q.waiting + [frame]);
      return |frame|;
    }

    method SendNextX10Out()
      requires Valid()
      modifies this
      ensures Valid()
      ensures q == SendNext(old(q))
    {
      hide SlotOf, NextIndex, Record;
      if busy {
        NextHead(head, tail, |q.waiting|);
        if head == tail {
          busy := false;
          pollTimeout := POLL_FOREVER;
          q := q.(busy := false, pollTimeout := POLL_FOREVER);
        } else {
          ghost var was := head;
          head := NextIndex(head);
          assert head == SlotOf(was, 0);
          WriteUsb(Record(head));
          q := q.(waiting := q.waiting[1..]);
        }
      }
    }

    /** Reports success even when the ring is full and the frame is dropped. */
    method X10Write(frame: Frame) returns (rc: int)
      requires Valid() && |frame| <= 8
      modifies Repr()
      ensures Valid()
      ensures q == Submit(old(q), frame)
      ensures rc == |frame|
    {
      if busy {
        var _ := AddX10Out(frame);
      } else {
        busy := true;
        pollTimeout := POLL_MS;
        q := q.(busy := true, pollTimeout := POLL_MS);
        WriteUsb(frame);
      }
      return |frame|;
    }

    /** The queue part of start-up: the initial frames, then the main loop's own setting of the timer. */
    method StartUpQueue(cm19a: bool)
      requires Valid() && q == BOOT
      modifies Repr()
      ensures Valid()
      ensures q == StartUp(cm19a)
    {
      var frames := InitFrames(cm19a);
      InitFramesFit(cm19a);
      var i := 0;
      while i < |frames|
        invariant 0 <= i <= |frames|
        invariant Valid()
        invariant SubmitAll(q, frames[i..]) == SubmitAll(BOOT, frames)
      {
        var _ := X10Write(frames[i]);
        assert frames[i..][1..] == frames[i + 1..];
        i := i + 1;
      }
      pollTimeout := POLL_FOREVER;
      q := q.(pollTimeout := POLL_FOREVER);
    }
  }

  lemma InitFramesFit(cm19a: bool)
    ensures forall i :: 0 <= i < |InitFrames(cm19a)| ==> |InitFrames(cm19a)[i]| <= 8
  {}
}
