/**
 The device-state tracker of x10state.c. X10 addresses units first and applies a function to the whole
 addressed group later, so the tracker keeps, per house, a selection, a flag telling whether the group is
 closed, and the status and dim level of each unit.
*/
module DeviceState {
  import opened Common

  datatype Status = Unknown | On | Off

  /** The tracker-relevant content of a received or echoed frame, and the "ST 0" reset. */
  datatype Event =
    | Reset
    | Address(house: nat, unit: nat)
    | Function(house: nat, on: bool)
    | AllUnits(house: nat, on: bool)
    | ExtDim(house: nat, unit: nat, level: byte)
  {
    predicate Valid() {
      && (!Reset? ==> house < 16)
      && (Address? || ExtDim? ==> unit < 16)
    }
  }

  datatype Row = Row(closed: bool, selected: seq<bool>, status: seq<Status>, level: seq<byte>)
  {
    predicate Valid() { |selected| == |status| == |level| == 16 }
  }

  function Const<T>(v: T): (s: seq<T>)
    ensures |s| == 16 && forall i :: 0 <= i < 16 ==> s[i] == v
  {
    seq(16, _ => v)
  }

  const BLANK: Row := Row(false, Const(false), Const(Unknown), Const(0))

  predicate ValidRows(rows: seq<Row>) { |rows| == 16 && forall h :: 0 <= h < 16 ==> rows[h].Valid() }

  predicate ValidHistory(hist: seq<Event>) { forall i :: 0 <= i < |hist| ==> hist[i].Valid() }

  function StatusFor(on: bool): Status { if on then On else Off }

  function LevelFor(on: bool): byte { if on then 63 else 0 }

  function RowApply(r: Row, e: Event): (r': Row)
    requires r.Valid() && e.Valid()
    ensures r'.Valid()
  {
    match e
    case Reset => BLANK
    case Address(_, u) =>
      r.(closed := false, selected := (if r.closed then Const(false) else r.selected)[u := true])
    case Function(_, on) =>
      r.(closed := true,
         status := seq(16, u requires 0 <= u < 16 => if r.selected[u] then StatusFor(on) else r.status[u]),
         level := seq(16, u requires 0 <= u < 16 => if r.selected[u] then LevelFor(on) else r.level[u]))
    case AllUnits(_, on) =>
      r.(closed := true, status := Const(StatusFor(on)), level := Const(LevelFor(on)))
    case ExtDim(_, u, level) =>
      r.(closed := true, selected := Const(false)[u := true],
         status := r.status[u := StatusFor(level != 0)], level := r.level[u := level])
  }

  function Apply(rows: seq<Row>, e: Event): (rows': seq<Row>)
    requires ValidRows(rows) && e.Valid()
    ensures ValidRows(rows')
  {
    if e.Reset? then Const(BLANK) else rows[e.house := RowApply(rows[e.house], e)]
  }

  /** The rows after a history of events, starting from a blank tracker. */
  function RowsAfter(hist: seq<Event>): (rows: seq<Row>)
    requires ValidHistory(hist)
    ensures ValidRows(rows)
    decreases |hist|
  {
    if hist == [] then Const(BLANK) else Apply(RowsAfter(hist[..|hist| - 1]), hist[|hist| - 1])
  }

  lemma NoRows()
    ensures ValidHistory([]) && forall h :: 0 <= h < 16 ==> RowsAfter([])[h] == BLANK
  {}

  lemma RowsAfterAppend(hist: seq<Event>, e: Event)
    requires ValidHistory(hist) && e.Valid()
    ensures ValidHistory(hist + [e]) && RowsAfter(hist + [e]) == Apply(RowsAfter(hist), e)
  {
    assert (hist + [e])[..|hist|] == hist;
  }

  // ----- What a history means, stated without running it -----

  predicate Addresses(e: Event, h: nat, u: nat) { e == Address(h, u) || (e.ExtDim? && e.house == h && e.unit == u) }

  predicate Closes(e: Event, h: nat) { (e.Function? || e.AllUnits? || e.ExtDim?) && e.house == h }

  predicate Opens(e: Event, h: nat) { e.Address? && e.house == h }

  predicate Discards(e: Event, h: nat) { e.Reset? || (e.ExtDim? && e.house == h) }

  ghost predicate NoCloser(hist: seq<Event>, i: nat, j: nat, h: nat)
    requires j <= |hist|
  {
    forall k :: i <= k < j ==> !Closes(hist[k], h)
  }

  /** The address group that event i belongs to is still the current one of house h at the end. */
  ghost predicate GroupCurrent(hist: seq<Event>, i: nat, h: nat) {
    forall j :: i < j < |hist| ==>
      && !Discards(hist[j], h)
      && (Opens(hist[j], h) ==> NoCloser(hist, i, j, h))
  }

  /** Unit u was addressed in the last address group of house h. */
  ghost predicate InLastGroup(hist: seq<Event>, h: nat, u: nat) {
    exists i :: 0 <= i < |hist| && Addresses(hist[i], h, u) && GroupCurrent(hist, i, h)
  }

  /** The last address group of house h has been closed. */
  ghost predicate GroupClosed(hist: seq<Event>, h: nat) {
    exists k :: 0 <= k < |hist| && Closes(hist[k], h)
      && forall j :: k < j < |hist| ==> hist[j] != Reset && !Opens(hist[j], h)
  }

  /** Event i of the history writes the status and dim level of unit u of house h. */
  ghost predicate Touches(hist: seq<Event>, i: nat, h: nat, u: nat)
    requires i < |hist|
  {
    match hist[i]
    case Reset => true
    case Address(_, _) => false
    case Function(h', _) => h' == h && InLastGroup(hist[..i], h, u)
    case AllUnits(h', _) => h' == h
    case ExtDim(h', u', _) => h' == h && u' == u
  }

  function Written(e: Event): (Status, byte)
    requires !e.Address?
  {
    match e
    case Reset => (Unknown, 0)
    case Function(_, on) => (StatusFor(on), LevelFor(on))
    case AllUnits(_, on) => (StatusFor(on), LevelFor(on))
    case ExtDim(_, _, level) => (StatusFor(level != 0), level)
  }

  ghost predicate LastTouch(hist: seq<Event>, i: nat, h: nat, u: nat)
    requires i < |hist|
  {
    Touches(hist, i, h, u) && forall j :: i < j < |hist| ==> !Touches(hist, j, h, u)
  }

  // ----- The tracker meets that meaning -----

  /** How one more event changes whether the last group is closed. */
  lemma GroupClosedStep(hist: seq<Event>, h: nat)
    requires hist != []
    ensures var n := |hist| - 1;
      GroupClosed(hist, h) <==>
        Closes(hist[n], h) || (GroupClosed(hist[..n], h) && hist[n] != Reset && !Opens(hist[n], h))
  {
    var n := |hist| - 1;
    var before := hist[..n];
    if Closes(hist[n], h) {
      assert GroupClosed(hist, h);
    } else if GroupClosed(hist, h) {
      var k :| 0 <= k < |hist| && Closes(hist[k], h)
        && forall j :: k < j < |hist| ==> hist[j] != Reset && !Opens(hist[j], h);
      assert Closes(before[k], h);
      assert forall j :: k < j < n ==> before[j] == hist[j];
    } else if GroupClosed(before, h) {
      var k :| 0 <= k < n && Closes(before[k], h)
        && forall j :: k < j < n ==> before[j] != Reset && !Opens(before[j], h);
      assert Closes(hist[k], h);
      assert forall j :: k < j < n ==> before[j] == hist[j];
    }
  }

  lemma {:induction false} ClosedMeaning(hist: seq<Event>, h: nat)
    requires ValidHistory(hist) && h < 16
    ensures RowsAfter(hist)[h].closed <==> GroupClosed(hist, h)
    decreases |hist|
  {
    if hist == [] {
      assert !GroupClosed(hist, h);
    } else {
      hide GroupClosed;
      ClosedMeaning(hist[..|hist| - 1], h);
      GroupClosedStep(hist, h);
    }
  }

  lemma GroupCurrentStep(hist: seq<Event>, i: nat, h: nat)
    requires i < |hist| - 1
    ensures var n := |hist| - 1;
      GroupCurrent(hist, i, h) <==>
        GroupCurrent(hist[..n], i, h) && !Discards(hist[n], h) && (Opens(hist[n], h) ==> NoCloser(hist[..n], i, n, h))
  {
    var n := |hist| - 1;
    var before := hist[..n];
    assert forall j :: 0 <= j < n ==> before[j] == hist[j];
    assert forall j :: i < j <= n ==> (NoCloser(hist, i, j, h) <==> NoCloser(before, i, j, h));
  }

  /** A current group is closed iff some event since it began closes it. */
  lemma CurrentGroupClosed(hist: seq<Event>, i: nat, h: nat, u: nat)
    requires i < |hist| && Addresses(hist[i], h, u) && GroupCurrent(hist, i, h)
    ensures GroupClosed(hist, h) <==> !NoCloser(hist, i, |hist|, h)
  {
    if !NoCloser(hist, i, |hist|, h) {
      var k :| i <= k < |hist| && Closes(hist[k], h);
      forall j | k < j < |hist|
        ensures hist[j] != Reset && !Opens(hist[j], h)
      {
        assert !NoCloser(hist, i, j, h);
      }
    }
    if GroupClosed(hist, h) {
      var k :| 0 <= k < |hist| && Closes(hist[k], h)
        && forall j :: k < j < |hist| ==> hist[j] != Reset && !Opens(hist[j], h);
      if k < i { assert Closes(hist[i], h); }
    }
  }

  /** How one more event changes the last address group. */
  lemma InLastGroupStep(hist: seq<Event>, h: nat, u: nat)
    requires hist != []
    ensures var n := |hist| - 1;
      InLastGroup(hist, h, u) <==>
        Addresses(hist[n], h, u)
        || (InLastGroup(hist[..n], h, u) && !Discards(hist[n], h)
            && !(Opens(hist[n], h) && GroupClosed(hist[..n], h)))
  {
    hide GroupClosed;
    var n := |hist| - 1;
    var before := hist[..n];
    if Addresses(hist[n], h, u) {
      assert GroupCurrent(hist, n, h);
    } else if InLastGroup(hist, h, u) {
      var i :| 0 <= i < |hist| && Addresses(hist[i], h, u) && GroupCurrent(hist, i, h);
      assert Addresses(before[i], h, u);
      GroupCurrentStep(hist, i, h);
      CurrentGroupClosed(before, i, h, u);
    } else if i :| 0 <= i < n && Addresses(before[i], h, u) && GroupCurrent(before, i, h) {
      assert Addresses(hist[i], h, u);
      GroupCurrentStep(hist, i, h);
      CurrentGroupClosed(before, i, h, u);
    }
  }

  lemma {:induction false} SelectionMeaning(hist: seq<Event>, h: nat, u: nat)
    requires ValidHistory(hist) && h < 16 && u < 16
    ensures RowsAfter(hist)[h].selected[u] <==> InLastGroup(hist, h, u)
    decreases |hist|
  {
    if hist == [] {
      assert !InLastGroup(hist, h, u);
    } else {
      hide InLastGroup, GroupClosed;
      var before := hist[..|hist| - 1];
      SelectionMeaning(before, h, u);
      ClosedMeaning(before, h);
      InLastGroupStep(hist, h, u);
    }
  }

  function Shown(hist: seq<Event>, h: nat, u: nat): (Status, byte)
    requires ValidHistory(hist) && h < 16 && u < 16
  {
    (RowsAfter(hist)[h].status[u], RowsAfter(hist)[h].level[u])
  }

  lemma LastEventMeaning(hist: seq<Event>, h: nat, u: nat)
    requires ValidHistory(hist) && hist != [] && h < 16 && u < 16
    ensures var n := |hist| - 1;
      Shown(hist, h, u) == if Touches(hist, n, h, u) then Written(hist[n]) else Shown(hist[..n], h, u)
  {
    SelectionMeaning(hist[..|hist| - 1], h, u);
  }

  lemma TouchesPrefix(hist: seq<Event>, n: nat, i: nat, h: nat, u: nat)
    requires i < n <= |hist|
    ensures Touches(hist[..n], i, h, u) <==> Touches(hist, i, h, u)
  {
    assert hist[..n][..i] == hist[..i];
  }

  lemma {:induction false} StatusOfLastTouch(hist: seq<Event>, i: nat, h: nat, u: nat)
    requires ValidHistory(hist) && h < 16 && u < 16
    requires i < |hist| && LastTouch(hist, i, h, u)
    ensures Shown(hist, h, u) == Written(hist[i])
    decreases |hist|
  {
    var n := |hist| - 1;
    LastEventMeaning(hist, h, u);
    if i < n {
      TouchesPrefix(hist, n, i, h, u);
      forall j | i < j < n
        ensures !Touches(hist[..n], j, h, u)
      {
        TouchesPrefix(hist, n, j, h, u);
      }
      StatusOfLastTouch(hist[..n], i, h, u);
    }
  }

  lemma {:induction false} StatusUntouched(hist: seq<Event>, h: nat, u: nat)
    requires ValidHistory(hist) && h < 16 && u < 16
    requires forall i :: 0 <= i < |hist| ==> !Touches(hist, i, h, u)
    ensures Shown(hist, h, u) == (Unknown, 0)
    decreases |hist|
  {
    if hist != [] {
      var n := |hist| - 1;
      LastEventMeaning(hist, h, u);
      forall i | 0 <= i < n
        ensures !Touches(hist[..n], i, h, u)
      {
        TouchesPrefix(hist, n, i, h, u);
      }
      StatusUntouched(hist[..n], h, u);
    }
  }

  /** After any history: the selection of a house is exactly its last address group, and each unit shows what
      the last event touching it wrote, or "unknown" if none did. */
  lemma TrackerMeetsHistory(hist: seq<Event>, h: nat, u: nat)
    requires ValidHistory(hist) && h < 16 && u < 16
    ensures var row := RowsAfter(hist)[h];
      && (row.selected[u] <==> InLastGroup(hist, h, u))
      && (row.closed <==> GroupClosed(hist, h))
      && (forall i :: 0 <= i < |hist| && LastTouch(hist, i, h, u) ==> Shown(hist, h, u) == Written(hist[i]))
      && ((forall i :: 0 <= i < |hist| ==> !Touches(hist, i, h, u)) ==> Shown(hist, h, u) == (Unknown, 0))
  {
    ClosedMeaning(hist, h);
    SelectionMeaning(hist, h, u);
    forall i | 0 <= i < |hist| && LastTouch(hist, i, h, u)
      ensures Shown(hist, h, u) == Written(hist[i])
    {
      StatusOfLastTouch(hist, i, h, u);
    }
    if forall i :: 0 <= i < |hist| ==> !Touches(hist, i, h, u) {
      StatusUntouched(hist, h, u);
    }
  }

  /** In every reachable state a unit is on exactly when its dim level is non-zero. */
  lemma {:induction false} OnIffDimmed(hist: seq<Event>, h: nat, u: nat)
    requires ValidHistory(hist) && h < 16 && u < 16
    ensures RowsAfter(hist)[h].status[u] == On <==> RowsAfter(hist)[h].level[u] != 0
    decreases |hist|
  {
    if hist != [] { OnIffDimmed(hist[..|hist| - 1], h, u); }
  }

  /** The events that concern house h: its own and the resets. */
  function ForHouse(hist: seq<Event>, h: nat): (own: seq<Event>)
    decreases |hist|
  {
    if hist == [] then []
    else
      var e := hist[|hist| - 1];
      ForHouse(hist[..|hist| - 1], h) + if e.Reset? || e.house == h then [e] else []
  }

  /** A house is unaffected by the traffic of every other house. */
  lemma {:induction false} HousesIndependent(hist: seq<Event>, h: nat)
    requires ValidHistory(hist) && h < 16
    ensures ValidHistory(ForHouse(hist, h))
    ensures RowsAfter(hist)[h] == RowsAfter(ForHouse(hist, h))[h]
    decreases |hist|
  {
    if hist != [] {
      var before, e := hist[..|hist| - 1], hist[|hist| - 1];
      HousesIndependent(before, h);
      if e.Reset? || e.house == h {
        RowsAfterAppend(ForHouse(before, h), e);
      } else {
        assert ForHouse(hist, h) == ForHouse(before, h);
      }
    }
  }

  /** Repeating an address and a function that were just applied to a unit narrows the selection to that unit and
      changes nothing else. */
  lemma RepeatedOnOffNarrows(hist: seq<Event>, h: nat, u: nat, on: bool)
    requires ValidHistory(hist) && h < 16 && u < 16
    ensures ValidHistory(hist + [Address(h, u), Function(h, on)])
    ensures ValidHistory(hist + [Address(h, u), Function(h, on), Address(h, u), Function(h, on)])
    ensures var once := RowsAfter(hist + [Address(h, u), Function(h, on)]);
      RowsAfter(hist + [Address(h, u), Function(h, on), Address(h, u), Function(h, on)])
        == once[h := once[h].(selected := Const(false)[u := true])]
  {
    var a, f := Address(h, u), Function(h, on);
    RowsAfterAppend(hist, a);
    RowsAfterAppend(hist + [a], f);
    RowsAfterAppend(hist + [a] + [f], a);
    RowsAfterAppend(hist + [a] + [f] + [a], f);
    assert hist + [a, f] == hist + [a] + [f];
    assert hist + [a, f, a, f] == hist + [a] + [f] + [a] + [f];
    var once := RowsAfter(hist + [a, f]);
    var twice := RowsAfter(hist + [a, f, a, f]);
    assert once[h].selected[u] && once[h].closed;
    assert twice[h].status == once[h].status;
    assert twice[h].level == once[h].level;
    assert twice == once[h := once[h].(selected := Const(false)[u := true])];
  }

  // ----- The statics of x10state.c -----

  function StatusOf(c: char): Status { if c == '1' then On else if c == '0' then Off else Unknown }

  function CharFor(on: bool): char { if on then '1' else '0' }

  class HouseUnits {
    const state: array2<char>       // '\0' unknown, '1' on, '0' off
    const selected: array2<char>    // '\0' not selected, '1' selected
    const dim: array2<byte>
    const proto: array<int>         // 0 addressing units, 1 function applied
    ghost var hist: seq<Event>

    ghost function Repr(): set<object> { {this, state, selected, dim, proto} }

    ghost predicate Shaped() {
      && state.Length0 == state.Length1 == 16 && selected.Length0 == selected.Length1 == 16
      && dim.Length0 == dim.Length1 == 16 && proto.Length == 16
      && state != selected && (dim as object) !in {state as object, selected, proto} && (proto as object) !in {state as object, selected}
    }

    /** The arrays hold row r for house h. */
    ghost predicate Holds(h: nat, r: Row)
      requires Shaped() && h < 16
      reads state, selected, dim, proto
    {
      && r.Valid()
      && proto[h] == (if r.closed then 1 else 0)
      && (forall u :: 0 <= u < 16 ==> selected[h, u] == if r.selected[u] then '1' else '\0')
      && (forall u :: 0 <= u < 16 ==> state[h, u] in {'\0', '0', '1'} && StatusOf(state[h, u]) == r.status[u])
      && (forall u :: 0 <= u < 16 ==> dim[h, u] == r.level[u])
    }

    ghost predicate Valid()
      reads Repr()
    {
      && Shaped()
      && ValidHistory(hist)
      && forall h :: 0 <= h < 16 ==> Holds(h, RowsAfter(hist)[h])
    }

    constructor ()
      ensures Valid() && fresh(Repr())
      ensures hist == []
    {
      state := new char[16, 16]((_, _) => '\0');
      selected := new char[16, 16]((_, _) => '\0');
      dim := new byte[16, 16]((_, _) => 0);
      proto := new int[16](_ => 0);
      hist := [];
      new;
      hide RowsAfter;
      NoRows();
      assert forall h :: 0 <= h < 16 ==> Holds(h, BLANK);
    }

    /** Adds an event to the history once the arrays show its effect. */
    ghost method Record(e: Event)
      requires Shaped() && ValidHistory(hist) && e.Valid() && !e.Reset?
      requires Holds(e.house, RowApply(RowsAfter(hist)[e.house], e))
      requires forall h :: 0 <= h < 16 && h != e.house ==> Holds(h, RowsAfter(hist)[h])
      modifies this`hist
      ensures Valid()
      ensures hist == old(hist) + [e]
    {
      RowsAfterAppend(hist, e);
      hist := hist + [e];
    }

    /** The device half of hua_sec_init. */
    method HuaSecInit()
      requires Valid()
      modifies Repr()
      ensures Valid()
      ensures hist == old(hist) + [Reset]
    {
      forall h, u | 0 <= h < 16 && 0 <= u < 16 { state[h, u] := '\0'; }
      forall h, u | 0 <= h < 16 && 0 <= u < 16 { selected[h, u] := '\0'; }
      forall h, u | 0 <= h < 16 && 0 <= u < 16 { dim[h, u] := 0; }
      forall h | 0 <= h < 16 { proto[h] := 0; }
      RowsAfterAppend(hist, Reset);
      hist := hist + [Reset];
      assert forall h :: 0 <= h < 16 ==> Holds(h, BLANK);
    }

    method HuaInit(house: nat)
      requires Shaped() && house < 16
      modifies selected
      ensures forall u :: 0 <= u < 16 ==> selected[house, u] == '\0'
      ensures forall h, u :: 0 <= h < 16 && 0 <= u < 16 && h != house ==> selected[h, u] == old(selected[h, u])
    {
      forall u | 0 <= u < 16 { selected[house, u] := '\0'; }
    }

    method HuaAdd(house: nat, unit: nat)
      requires Valid() && house < 16 && unit < 16
      modifies Repr()
      ensures Valid()
      ensures hist == old(hist) + [Address(house, unit)]
    {
      assert Holds(house, RowsAfter(hist)[house]);
      match proto[house] {
        case 0 =>
          selected[house, unit] := '1';
        case 1 =>
          HuaInit(house);
          selected[house, unit] := '1';
          proto[house] := 0;
        case _ => // "Invalid state"
          assert false;
      }
      Record(Address(house, unit));
    }

    method HuaFuncAll(house: nat, on: bool)
      requires Valid() && house < 16
      modifies Repr()
      ensures Valid()
      ensures hist == old(hist) + [AllUnits(house, on)]
    {
      proto[house] := 1;
      for u := 0 to 16
        modifies state, dim
        invariant forall h, v :: 0 <= h < 16 && 0 <= v < 16 && (h != house || u <= v) ==>
          state[h, v] == old(state[h, v]) && dim[h, v] == old(dim[h, v])
        invariant forall v :: 0 <= v < u ==> state[house, v] == CharFor(on) && dim[house, v] == LevelFor(on)
      {
        state[house, u] := CharFor(on);
        if on {
          dim[house, u] := 63;
        } else {
          dim[house, u] := 0;
        }
      }
      Record(AllUnits(house, on));
    }

    method HuaFunc(house: nat, on: bool)
      requires Valid() && house < 16
      modifies Repr()
      ensures Valid()
      ensures hist == old(hist) + [Function(house, on)]
    {
      hide RowsAfter;
      proto[house] := 1;
      for u := 0 to 16
        modifies state, dim
        invariant forall h, v :: 0 <= h < 16 && 0 <= v < 16 && (h != house || u <= v || selected[h, v] == '\0') ==>
          state[h, v] == old(state[h, v]) && dim[h, v] == old(dim[h, v])
        invariant forall v :: 0 <= v < u && selected[house, v] != '\0' ==>
          state[house, v] == CharFor(on) && dim[house, v] == LevelFor(on)
      {
        if selected[house, u] != '\0' {
          state[house, u] := CharFor(on);
          if on {
            dim[house, u] := 63;
          } else {
            dim[house, u] := 0;
          }
        }
      }
      Record(Function(house, on));
    }

    method HuaSetStatusXdim(house: nat, unit: nat, xdim: byte)
      requires Valid() && house < 16 && unit < 16
      modifies Repr()
      ensures Valid()
      ensures hist == old(hist) + [ExtDim(house, unit, xdim)]
    {
      hide RowsAfter;
      HuaInit(house);
      selected[house, unit] := '1';
      proto[house] := 1;
      dim[house, unit] := xdim;
      if xdim > 0 {
        state[house, unit] := '1';
      } else {
        state[house, unit] := '0';
      }
      Record(ExtDim(house, unit, xdim));
    }

    /** The answer is what the last event touching the unit wrote. */
    method HuaGetStatus(house: nat, unit: nat) returns (c: char)
      requires Valid() && house < 16 && unit < 16
      ensures StatusOf(c) == Shown(hist, house, unit).0
    {
      c := state[house, unit];
    }

    method HuaGetStatusXdim(house: nat, unit: nat) returns (level: byte)
      requires Valid() && house < 16 && unit < 16
      ensures level == Shown(hist, house, unit).1
    {
      level := dim[house, unit];
    }
  }
}
