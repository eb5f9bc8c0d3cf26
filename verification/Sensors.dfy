/**
 The security-sensor table of x10state.c: a 512-entry array scanned linearly, extended at its end and
 sorted in place whenever the status is shown.
*/
module Sensors {
  import opened Common

  const ENTRIES: nat := 512

  datatype Sensor = Sensor(addr: nat, lastUpdate: nat, addr8: bool, status: byte)

  ghost predicate Distinct(s: seq<Sensor>) {
    forall i, j :: 0 <= i < j < |s| ==> s[i].addr != s[j].addr
  }

  /** Addresses are assembled from three bytes. */
  ghost predicate ValidTable(s: seq<Sensor>) {
    && |s| < ENTRIES
    && (forall i :: 0 <= i < |s| ==> s[i].addr < 0x100_0000)
    && Distinct(s)
  }

  function Addr24(b0: byte, b1: byte, b2: byte): (a: nat)
    ensures a < 0x100_0000
  {
    b0 as nat * 0x1_0000 + b1 as nat * 0x100 + b2 as nat
  }

  /** The first entry with this address, or the length. */
  function Find(s: seq<Sensor>, addr: nat): (k: nat)
    ensures k <= |s|
    ensures k < |s| ==> s[k].addr == addr
    decreases |s|
  {
    if s == [] then 0
    else
      var k := Find(s[..|s| - 1], addr);
      if k < |s| - 1 || s[|s| - 1].addr == addr then k else |s|
  }

  lemma {:induction false} FindIsFirst(s: seq<Sensor>, addr: nat)
    ensures forall j :: 0 <= j < Find(s, addr) ==> s[j].addr != addr
    decreases |s|
  {
    if s != [] { FindIsFirst(s[..|s| - 1], addr); }
  }

  /** Searching a prefix finds the same entry, or stops at its end. */
  lemma {:induction false} FindPrefix(s: seq<Sensor>, n: nat, addr: nat)
    requires n <= |s|
    ensures Find(s[..n], addr) == if Find(s, addr) < n then Find(s, addr) else n
    decreases |s|
  {
    if n < |s| {
      assert s[..|s| - 1][..n] == s[..n];
      FindPrefix(s[..|s| - 1], n, addr);
    } else {
      assert s[..n] == s;
    }
  }

  /** One step of a linear search that has failed on the first i entries. */
  lemma SearchStep(s: seq<Sensor>, i: nat, addr: nat)
    requires i < |s| && Find(s[..i], addr) == i
    ensures if s[i].addr == addr then Find(s, addr) == i else Find(s[..i + 1], addr) == i + 1
  {
    assert s[..i + 1][..i] == s[..i];
    FindPrefix(s, i, addr);
    FindPrefix(s, i + 1, addr);
  }

  /** One security event: refresh a known sensor, else append it while fewer than 511 are known. */
  function Update(s: seq<Sensor>, addr: nat, status: byte, addr8: bool, time: nat): seq<Sensor> {
    var k := Find(s, addr);
    if k < |s| then s[k := s[k].(status := status, lastUpdate := time)]
    else if |s| + 1 >= ENTRIES then s
    else s + [Sensor(addr, time, addr8, status)]
  }

  // ----- The comparison function -----

  /** The difference of two unsigned longs, returned as an int. */
  function CmpX10Sensor(a: Sensor, b: Sensor): int { ToInt32((a.addr - b.addr) % 0x1_0000_0000_0000_0000) }

  lemma CmpIsNumericOrder(a: Sensor, b: Sensor)
    requires a.addr < 0x100_0000 && b.addr < 0x100_0000
    ensures CmpX10Sensor(a, b) == a.addr - b.addr
  {}

  ghost predicate SortedByCmp(s: seq<Sensor>) {
    forall i, j :: 0 <= i < j < |s| ==> CmpX10Sensor(s[i], s[j]) <= 0
  }

  ghost predicate SortedByAddr(s: seq<Sensor>) {
    forall i, j :: 0 <= i < j < |s| ==> s[i].addr <= s[j].addr
  }

  /** Where x goes in a sorted sequence. */
  function Insert(s: seq<Sensor>, x: Sensor): seq<Sensor>
    decreases |s|
  {
    if s == [] || s[|s| - 1].addr <= x.addr then s + [x] else Insert(s[..|s| - 1], x) + [s[|s| - 1]]
  }

  function Sorted(s: seq<Sensor>): seq<Sensor>
    decreases |s|
  {
    if s == [] then [] else Insert(Sorted(s[..|s| - 1]), s[|s| - 1])
  }

  lemma {:induction false} InsertSorts(s: seq<Sensor>, x: Sensor)
    requires SortedByAddr(s)
    ensures SortedByAddr(Insert(s, x))
    ensures multiset(Insert(s, x)) == multiset(s) + multiset{x}
    decreases |s|
  {
    if !(s == [] || s[|s| - 1].addr <= x.addr) {
      var init, last := s[..|s| - 1], s[|s| - 1];
      hide Insert;
      InsertUnfolds(s, x);
      InsertSorts(init, x);
      assert s == init + [last];
      BelowLast(Insert(init, x), init, x, last);
    } else {
      InsertUnfolds(s, x);
    }
  }

  lemma InsertUnfolds(s: seq<Sensor>, x: Sensor)
    ensures Insert(s, x) == if s == [] || s[|s| - 1].addr <= x.addr then s + [x]
                            else Insert(s[..|s| - 1], x) + [s[|s| - 1]]
  {}

  lemma BelowLast(t: seq<Sensor>, init: seq<Sensor>, x: Sensor, last: Sensor)
    requires multiset(t) == multiset(init) + multiset{x} && x.addr <= last.addr
    requires forall i :: 0 <= i < |init| ==> init[i].addr <= last.addr
    ensures forall i :: 0 <= i < |t| ==> t[i].addr <= last.addr
  {
    forall i | 0 <= i < |t|
      ensures t[i].addr <= last.addr
    {
      assert t[i] in multiset(t);
      assert t[i] in multiset(init) + multiset{x};
    }
  }

  /** Insertion happens below the larger entries and above the others. */
  lemma {:induction false} InsertAt(s: seq<Sensor>, x: Sensor, j: nat)
    requires j <= |s| && (j == 0 || s[j - 1].addr <= x.addr)
    requires forall k :: j <= k < |s| ==> s[k].addr > x.addr
    ensures Insert(s, x) == s[..j] + [x] + s[j..]
    decreases |s|
  {
    if j < |s| {
      var init, last := s[..|s| - 1], s[|s| - 1];
      InsertAt(init, x, j);
      assert init[j..] + [last] == s[j..];
      assert init[..j] == s[..j];
    } else {
      assert s[..j] == s && s[j..] == [];
      assert s + [x] + [] == s + [x];
    }
  }

  lemma MultisetInit(s: seq<Sensor>)
    requires s != []
    ensures multiset(s) == multiset(s[..|s| - 1]) + multiset{s[|s| - 1]}
    ensures multiset(s[..|s| - 1]) == multiset(s) - multiset{s[|s| - 1]}
  {
    assert s == s[..|s| - 1] + [s[|s| - 1]];
  }

  lemma {:induction false} SortedSorts(s: seq<Sensor>)
    ensures SortedByAddr(Sorted(s))
    ensures multiset(Sorted(s)) == multiset(s)
    decreases |s|
  {
    if s != [] {
      SortedSorts(s[..|s| - 1]);
      InsertSorts(Sorted(s[..|s| - 1]), s[|s| - 1]);
      MultisetInit(s);
    }
  }

  // ----- The map the table stands for -----

  datatype Entry = Entry(lastUpdate: nat, addr8: bool, status: byte)

  function EntryOf(x: Sensor): Entry { Entry(x.lastUpdate, x.addr8, x.status) }

  function Table(s: seq<Sensor>): map<nat, Entry>
    decreases |s|
  {
    if s == [] then map[] else Table(s[..|s| - 1])[s[|s| - 1].addr := EntryOf(s[|s| - 1])]
  }

  /** The same event on a map: the 8-bit flag is the one of first insertion. */
  function MapUpdate(m: map<nat, Entry>, addr: nat, status: byte, addr8: bool, time: nat): map<nat, Entry> {
    if addr in m then m[addr := m[addr].(status := status, lastUpdate := time)]
    else if |m| < 511 then m[addr := Entry(time, addr8, status)]
    else m
  }

  lemma {:induction false} TableAt(s: seq<Sensor>, k: nat)
    requires Distinct(s) && k < |s|
    ensures s[k].addr in Table(s) && Table(s)[s[k].addr] == EntryOf(s[k])
    decreases |s|
  {
    if k < |s| - 1 { TableAt(s[..|s| - 1], k); }
  }

  lemma {:induction false} TableKeys(s: seq<Sensor>, addr: nat)
    ensures addr in Table(s) <==> Find(s, addr) < |s|
    decreases |s|
  {
    if s != [] { TableKeys(s[..|s| - 1], addr); }
  }

  lemma {:induction false} TableSize(s: seq<Sensor>)
    requires Distinct(s)
    ensures |Table(s)| == |s|
    decreases |s|
  {
    if s != [] {
      var init := s[..|s| - 1];
      TableSize(init);
      TableKeys(init, s[|s| - 1].addr);
    }
  }

  /** A map of the right size that agrees with every entry is the table's map. */
  lemma {:induction false} TableIs(s: seq<Sensor>, m: map<nat, Entry>)
    requires Distinct(s) && |m| == |s|
    requires forall k :: 0 <= k < |s| ==> s[k].addr in m && m[s[k].addr] == EntryOf(s[k])
    ensures Table(s) == m
    decreases |s|
  {
    if s != [] {
      var a := s[|s| - 1].addr;
      var m' := m - {a};
      assert m'.Keys == m.Keys - {a};
      TableIs(s[..|s| - 1], m');
      assert m == m'[a := m[a]];
    }
  }

  lemma UpdateStaysValid(s: seq<Sensor>, addr: nat, status: byte, addr8: bool, time: nat)
    requires ValidTable(s) && addr < 0x100_0000
    ensures ValidTable(Update(s, addr, status, addr8, time))
  {
    FindIsFirst(s, addr);
  }

  /** The array refines the map: every event has the same effect on both, and the entries stay distinct and
      at most 511. */
  lemma UpdateRefinesMap(s: seq<Sensor>, addr: nat, status: byte, addr8: bool, time: nat)
    requires ValidTable(s) && addr < 0x100_0000
    ensures ValidTable(Update(s, addr, status, addr8, time))
    ensures Table(Update(s, addr, status, addr8, time)) == MapUpdate(Table(s), addr, status, addr8, time)
  {
    UpdateStaysValid(s, addr, status, addr8, time);
    TableKeys(s, addr);
    if Find(s, addr) < |s| {
      KnownRefines(s, addr, status, addr8, time);
    } else {
      UnknownRefines(s, addr, status, addr8, time);
    }
  }

  lemma KnownRefines(s: seq<Sensor>, addr: nat, status: byte, addr8: bool, time: nat)
    requires ValidTable(s) && Find(s, addr) < |s|
    ensures Table(Update(s, addr, status, addr8, time)) == MapUpdate(Table(s), addr, status, addr8, time)
  {
    hide Table;
    var k := Find(s, addr);
    TableAt(s, k);
    var s' := s[k := s[k].(status := status, lastUpdate := time)];
    RefreshTable(s, k, s', Table(s)[addr := EntryOf(s'[k])]);
  }

  lemma UnknownRefines(s: seq<Sensor>, addr: nat, status: byte, addr8: bool, time: nat)
    requires ValidTable(s) && Find(s, addr) == |s|
    ensures Table(Update(s, addr, status, addr8, time)) == MapUpdate(Table(s), addr, status, addr8, time)
  {
    TableSize(s);
    TableKeys(s, addr);
    if |s| + 1 < ENTRIES {
      var x := Sensor(addr, time, addr8, status);
      assert (s + [x])[..|s|] == s;
    }
  }

  lemma RefreshTable(s: seq<Sensor>, k: nat, s': seq<Sensor>, m: map<nat, Entry>)
    requires Distinct(s) && k < |s| && |s'| == |s| && s'[k].addr == s[k].addr
    requires forall i :: 0 <= i < |s| && i != k ==> s'[i] == s[i]
    requires m == Table(s)[s[k].addr := EntryOf(s'[k])]
    ensures Table(s') == m
  {
    TableSize(s);
    TableAt(s, k);
    assert m.Keys == Table(s).Keys;
    forall i | 0 <= i < |s'|
      ensures s'[i].addr in m && m[s'[i].addr] == EntryOf(s'[i])
    {
      TableAt(s, i);
    }
    assert Distinct(s');
    TableIs(s', m);
  }

  lemma PermutationIndex(s: seq<Sensor>, t: seq<Sensor>, i: nat) returns (k: nat)
    requires multiset(s) == multiset(t) && i < |t|
    ensures k < |s| && s[k] == t[i]
  {
    assert t[i] in multiset(t);
    k :| 0 <= k < |s| && s[k] == t[i];
  }

  lemma {:induction false} CountedOnce(s: seq<Sensor>, x: Sensor)
    requires Distinct(s)
    ensures multiset(s)[x] <= 1
    decreases |s|
  {
    if s != [] {
      MultisetInit(s);
      CountedOnce(s[..|s| - 1], x);
    }
  }

  lemma CountedTwice(t: seq<Sensor>, i: nat, j: nat)
    requires i < j < |t| && t[i] == t[j]
    ensures multiset(t)[t[i]] >= 2
  {
    assert t == t[..j] + t[j..];
    assert t[i] == t[..j][i] && t[i] == t[j..][0];
    assert t[i] in multiset(t[..j]) && t[i] in multiset(t[j..]);
  }

  lemma PermutationDistinct(s: seq<Sensor>, t: seq<Sensor>, i: nat, j: nat)
    requires Distinct(s) && multiset(s) == multiset(t) && i < j < |t|
    ensures t[i].addr != t[j].addr
  {
    if t[i].addr == t[j].addr {
      var k := PermutationIndex(s, t, i);
      var l := PermutationIndex(s, t, j);
      assert k == l;
      CountedTwice(t, i, j);
      CountedOnce(s, t[i]);
      assert false;
    }
  }

  /** Reordering the array does not change the map. */
  lemma PermutationKeepsTable(s: seq<Sensor>, t: seq<Sensor>)
    requires ValidTable(s) && multiset(s) == multiset(t)
    ensures |s| == |t| && ValidTable(t) && Table(t) == Table(s)
  {
    assert |s| == |multiset(s)| == |multiset(t)| == |t|;
    forall i, j | 0 <= i < j < |t|
      ensures t[i].addr != t[j].addr
    {
      PermutationDistinct(s, t, i, j);
    }
    TableSize(s);
    forall i | 0 <= i < |t|
      ensures t[i].addr < 0x100_0000 && t[i].addr in Table(s) && Table(s)[t[i].addr] == EntryOf(t[i])
    {
      var k := PermutationIndex(s, t, i);
      TableAt(s, k);
    }
    TableIs(t, Table(s));
  }

  /** Any permutation qsort may leave, given this comparison, is the one sorted order. */
  lemma SortIsUnique(s: seq<Sensor>, t: seq<Sensor>)
    requires ValidTable(s) && multiset(t) == multiset(s) && SortedByCmp(t)
    ensures t == Sorted(s)
  {
    PermutationKeepsTable(s, t);
    SortedSorts(s);
    PermutationKeepsTable(s, Sorted(s));
    forall i, j | 0 <= i < j < |t|
      ensures t[i].addr <= t[j].addr
    {
      CmpIsNumericOrder(t[i], t[j]);
    }
    SortedEqual(t, Sorted(s));
  }

  lemma {:induction false} SortedEqual(t: seq<Sensor>, r: seq<Sensor>)
    requires |t| == |r| && multiset(t) == multiset(r)
    requires SortedByAddr(t) && SortedByAddr(r) && Distinct(t) && Distinct(r)
    ensures t == r
    decreases |t|
  {
    if t != [] {
      var n := |t| - 1;
      LastAgrees(t, r);
      InitsAgree(t, r);
      SortedEqual(t[..n], r[..n]);
      assert t == t[..n] + [t[n]];
      assert r == r[..n] + [r[n]];
    }
  }

  lemma LastAgrees(t: seq<Sensor>, r: seq<Sensor>)
    requires |t| == |r| > 0 && multiset(t) == multiset(r)
    requires SortedByAddr(t) && SortedByAddr(r) && Distinct(t) && Distinct(r)
    ensures t[|t| - 1] == r[|t| - 1]
  {
    var k := PermutationIndex(r, t, |t| - 1);
    var l := PermutationIndex(t, r, |t| - 1);
  }

  lemma InitsAgree(t: seq<Sensor>, r: seq<Sensor>)
    requires |t| == |r| > 0 && multiset(t) == multiset(r) && t[|t| - 1] == r[|t| - 1]
    ensures multiset(t[..|t| - 1]) == multiset(r[..|t| - 1])
  {
    MultisetInit(t);
    MultisetInit(r);
  }

  // ----- Status queries -----

  const ALERT8: set<byte> := {0x04}
  const NORMAL8: set<byte> := {0x84}
  const ALERT24: set<byte> := {0x00, 0x01, 0x04, 0x05, 0x0C, 0x0D}
  const NORMAL24: set<byte> := {0x80, 0x81, 0x84, 0x85, 0x8C, 0x8D}

  /** What one matching entry answers: 1 alert, 0 normal, -1 no verdict. */
  function Verdict(addr8: bool, status: byte): int {
    if status in (if addr8 then ALERT8 else ALERT24) then 1
    else if status in (if addr8 then NORMAL8 else NORMAL24) then 0
    else -1
  }

  /** The answer read off the map: the verdict of the sensor with that address, if it is of the asked kind. */
  function MapStatus(m: map<nat, Entry>, rf8: bool, addr: nat): int {
    if addr in m && m[addr].addr8 == rf8 then Verdict(rf8, m[addr].status) else -1
  }

  /** Showing the status sorts the table but changes no answer, whatever order qsort produces. */
  lemma ShowingKeepsAnswers(s: seq<Sensor>, t: seq<Sensor>, rf8: bool, addr: nat)
    requires ValidTable(s) && multiset(t) == multiset(s) && SortedByCmp(t)
    ensures ValidTable(t) && t == Sorted(s)
    ensures MapStatus(Table(t), rf8, addr) == MapStatus(Table(s), rf8, addr)
  {
    PermutationKeepsTable(s, t);
    SortIsUnique(s, t);
  }

  // ----- Runs -----

  datatype Step = Heard(addr: nat, status: byte, addr8: bool, time: nat) | Shown | Cleared
  {
    predicate Valid() { Heard? ==> addr < 0x100_0000 }
  }

  function TableAfter(steps: seq<Step>): seq<Sensor>
    decreases |steps|
  {
    if steps == [] then []
    else
      var s := TableAfter(steps[..|steps| - 1]);
      match steps[|steps| - 1]
      case Heard(addr, status, addr8, time) => Update(s, addr, status, addr8, time)
      case Shown => Sorted(s)
      case Cleared => []
  }

  function MapAfter(steps: seq<Step>): map<nat, Entry>
    decreases |steps|
  {
    if steps == [] then map[]
    else
      var m := MapAfter(steps[..|steps| - 1]);
      match steps[|steps| - 1]
      case Heard(addr, status, addr8, time) => MapUpdate(m, addr, status, addr8, time)
      case Shown => m
      case Cleared => map[]
  }

  /** In every run the table is a bounded map in which showing the status leaves no trace. */
  lemma {:induction false} RunRefinesMap(steps: seq<Step>)
    requires forall i :: 0 <= i < |steps| ==> steps[i].Valid()
    ensures ValidTable(TableAfter(steps)) && |TableAfter(steps)| <= 511
    ensures Table(TableAfter(steps)) == MapAfter(steps)
    decreases |steps|
  {
    if steps != [] {
      var s := TableAfter(steps[..|steps| - 1]);
      RunRefinesMap(steps[..|steps| - 1]);
      match steps[|steps| - 1]
      case Heard(addr, status, addr8, time) => UpdateRefinesMap(s, addr, status, addr8, time);
      case Shown =>
        SortedSorts(s);
        PermutationKeepsTable(s, Sorted(s));
      case Cleared =>
    }
  }

  /** A known sensor stays known and keeps the address kind of its first event until a reset. */
  lemma {:induction false} FirstKindStays(before: seq<Step>, after: seq<Step>, addr: nat)
    requires addr in MapAfter(before)
    requires forall i :: 0 <= i < |after| ==> !after[i].Cleared?
    ensures addr in MapAfter(before + after)
    ensures MapAfter(before + after)[addr].addr8 == MapAfter(before)[addr].addr8
    decreases |after|
  {
    if after == [] {
      assert before + after == before;
    } else {
      assert (before + after)[..|before + after| - 1] == before + after[..|after| - 1];
      FirstKindStays(before, after[..|after| - 1], addr);
    }
  }

  // ----- The statics of x10state.c -----

  class SensorTable {
    const sensors: array<Sensor>
    var count: nat

    ghost function Repr(): set<object> { {this, sensors} }

    ghost function Entries(): seq<Sensor>
      requires sensors.Length == ENTRIES && count <= ENTRIES
      reads this, sensors
    {
      sensors[..count]
    }

    ghost predicate Valid()
      reads Repr()
    {
      && sensors.Length == ENTRIES && count < ENTRIES
      && ValidTable(Entries())
    }

    constructor ()
      ensures Valid() && fresh(Repr())
      ensures Entries() == []
    {
      sensors := new Sensor[ENTRIES](_ => Sensor(0, 0, false, 0));
      count := 0;
    }

    method Clear()
      requires Valid()
      modifies Repr()
      ensures Valid() && Entries() == []
    {
      forall i | 0 <= i < ENTRIES { sensors[i] := Sensor(0, 0, false, 0); }
      count := 0;
    }

    method HuaSecEvent(b0: byte, b1: byte, b2: byte, func: byte, addr8: bool, time: nat)
      requires Valid()
      modifies Repr()
      ensures Valid()
      ensures Entries() == Update(old(Entries()), Addr24(b0, b1, b2), func, addr8, time)
    {
      hide Table, MapUpdate, Addr24;
      var addr := Addr24(b0, b1, b2);
      ghost var was := Entries();
      UpdateStaysValid(was, addr, func, addr8, time);
      for i := 0 to count
        invariant count == |was| && sensors[..count] == was
        invariant Find(was[..i], addr) == i
      {
        assert sensors[i] == was[i];
        SearchStep(was, i, addr);
        if sensors[i].addr == addr {
          sensors[i] := sensors[i].(status := func, lastUpdate := time);
          assert Entries() == was[i := was[i].(status := func, lastUpdate := time)];
          return;
        }
      }
      assert was[..count] == was;
      if count + 1 >= ENTRIES {
        return;
      }
      sensors[count] := Sensor(addr, time, addr8, func);
      count := count + 1;
      assert Entries() == was + [Sensor(addr, time, addr8, func)];
    }

    method HuaGetStatusSec(rf8: bool, addr: nat) returns (r: int)
      requires Valid()
      ensures r == MapStatus(Table(Entries()), rf8, addr)
    {
      for i := 0 to count
        invariant forall j :: 0 <= j < i && sensors[j].addr == addr && sensors[j].addr8 == rf8 ==>
          Verdict(rf8, sensors[j].status) == -1
      {
        TableAt(Entries(), i);
        assert Entries()[i] == sensors[i];
        if rf8 && sensors[i].addr8 && addr == sensors[i].addr {
          match sensors[i].status {
            case 0x04 => return 1;
            case 0x84 => return 0;
            case _ =>
          }
        } else if !rf8 && !sensors[i].addr8 && addr == sensors[i].addr {
          if sensors[i].status in ALERT24 { return 1; }
          if sensors[i].status in NORMAL24 { return 0; }
        }
      }
      TableKeys(Entries(), addr);
      if addr in Table(Entries()) {
        TableAt(Entries(), Find(Entries(), addr));
      }
      return -1;
    }

    /** The sort that showing the status performs. */
    method SortSensors()
      requires Valid()
      modifies sensors
      ensures Valid()
      ensures Entries() == Sorted(old(Entries()))
    {
      ghost var was := Entries();
      var i := 0;
      while i < count
        invariant 0 <= i <= count
        invariant sensors[..i] == Sorted(was[..i])
        invariant forall k :: i <= k < count ==> sensors[k] == was[k]
      {
        assert was[..i + 1][..i] == was[..i];
        InsertLast(i);
        i := i + 1;
      }
      assert was[..count] == was;
      SortedSorts(was);
      PermutationKeepsTable(was, Sorted(was));
    }

    /** Moves entry i down to its place among the sorted entries before it. */
    method InsertLast(i: nat)
      requires i < count <= ENTRIES == sensors.Length
      modifies sensors
      ensures sensors[..i + 1] == Insert(old(sensors[..i]), old(sensors[i]))
      ensures forall k :: i < k < ENTRIES ==> sensors[k] == old(sensors[k])
    {
      var x := sensors[i];
      ghost var s := sensors[..i];
      var j := i;
      while j > 0 && sensors[j - 1].addr > x.addr
        invariant 0 <= j <= i
        invariant forall k :: 0 <= k < j ==> sensors[k] == s[k]
        invariant forall k :: j <= k < i ==> s[k].addr > x.addr
        invariant forall k :: j < k <= i ==> sensors[k] == s[k - 1]
        invariant forall k :: i < k < ENTRIES ==> sensors[k] == old(sensors[k])
      {
        sensors[j] := sensors[j - 1];
        j := j - 1;
      }
      sensors[j] := x;
      InsertAt(s, x, j);
      assert sensors[..i + 1] == s[..j] + [x] + s[j..];
    }
  }
}
