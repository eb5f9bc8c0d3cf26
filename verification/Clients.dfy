/** The client tables of mochad.c: three arrays of 32 descriptors, -1 marking a free slot, each with a counter. */
module Clients {

  const SLOTS: nat := 32
  const FREE: int := -1

  /** Ordinary clients, Flash XML clients and OpenRemote 2.0 clients. */
  datatype Kind = Plain | Xml | Or20

  datatype Table = Table(fds: seq<int>, count: int)
  {
    ghost predicate Valid() { |fds| == SLOTS && count == Occupied(fds) }
  }

  function Occupied(fds: seq<int>): nat
    decreases |fds|
  {
    if fds == [] then 0 else Occupied(fds[..|fds| - 1]) + if fds[|fds| - 1] == FREE then 0 else 1
  }

  /** The first slot holding a descriptor, or the length. */
  function FirstOf(fds: seq<int>, fd: int): (k: nat)
    ensures k <= |fds| && (k < |fds| ==> fds[k] == fd)
    ensures forall i :: 0 <= i < k ==> fds[i] != fd
  {
    if fds == [] || fds[0] == fd then 0 else 1 + FirstOf(fds[1..], fd)
  }

  lemma {:induction false} OccupiedUpdate(fds: seq<int>, k: nat, fd: int)
    requires k < |fds|
    ensures Occupied(fds[k := fd]) == Occupied(fds) - (if fds[k] == FREE then 0 else 1) + (if fd == FREE then 0 else 1)
    decreases |fds|
  {
    var n := |fds| - 1;
    if k < n {
      assert fds[k := fd][..n] == fds[..n][k := fd];
      OccupiedUpdate(fds[..n], k, fd);
    } else {
      assert fds[k := fd][..n] == fds[..n];
    }
  }

  // ----- Adding -----

  function Add(t: Table, fd: int): Table
    requires |t.fds| == SLOTS
  {
    var k := FirstOf(t.fds, FREE);
    if k < SLOTS then Table(t.fds[k := fd], t.count + 1) else t
  }

  /** The counter stays the number of occupied slots unless a free slot is given the descriptor -1, which a failed
      accept returns. */
  lemma AddKeepsCountIff(t: Table, fd: int)
    requires t.Valid()
    ensures Add(t, fd).Valid() <==> fd != -1 || Occupied(t.fds) == 32
  {
    var k := FirstOf(t.fds, FREE);
    FullIffNoneFree(t.fds);
    if k < SLOTS { OccupiedUpdate(t.fds, k, fd); }
  }

  lemma {:induction false} FullIffNoneFree(fds: seq<int>)
    ensures Occupied(fds) <= |fds|
    ensures Occupied(fds) == |fds| <==> FREE !in fds
    ensures Occupied(fds) == |fds| <==> FirstOf(fds, FREE) == |fds|
    decreases |fds|
  {
    if fds != [] {
      FullIffNoneFree(fds[..|fds| - 1]);
      assert fds == fds[..|fds| - 1] + [fds[|fds| - 1]];
    }
  }

  // ----- The three tables -----

  datatype Tables = Tables(plain: Table, xml: Table, or20: Table)
  {
    predicate Shaped() { |plain.fds| == |xml.fds| == |or20.fds| == SLOTS }

    ghost predicate Valid() { plain.Valid() && xml.Valid() && or20.Valid() }

    function Get(kind: Kind): Table { match kind case Plain => plain case Xml => xml case Or20 => or20 }

    function With(kind: Kind, t: Table): Tables {
      match kind case Plain => this.(plain := t) case Xml => this.(xml := t) case Or20 => this.(or20 := t)
    }

    predicate Has(fd: int) { fd in plain.fds || fd in xml.fds || fd in or20.fds }
  }

  /** A descriptor is connected in at most one slot of the three tables. */
  ghost predicate Unique(ts: Tables, fd: int)
    requires ts.Shaped()
  {
    forall k, l, i, j :: 0 <= i < SLOTS && 0 <= j < SLOTS && ts.Get(k).fds[i] == fd == ts.Get(l).fds[j] ==> k == l && i == j
  }

  function Clear(t: Table, i: nat): Table
    requires i < |t.fds|
  {
    Table(t.fds[i := FREE], t.count - 1)
  }

  /** Slot by slot, the first occurrence from slot i on is freed. */
  function DelFrom(ts: Tables, fd: int, i: nat): Tables
    requires ts.Shaped() && i <= SLOTS
    decreases SLOTS - i
  {
    if i == SLOTS then ts
    else if ts.plain.fds[i] == fd then ts.(plain := Clear(ts.plain, i))
    else if ts.xml.fds[i] == fd then ts.(xml := Clear(ts.xml, i))
    else if ts.or20.fds[i] == fd then ts.(or20 := Clear(ts.or20, i))
    else DelFrom(ts, fd, i + 1)
  }

  function Del(ts: Tables, fd: int): Tables
    requires ts.Shaped()
  {
    DelFrom(ts, fd, 0)
  }

  /** Where a descriptor sits. */
  ghost predicate At(ts: Tables, kind: Kind, i: nat, fd: int)
    requires ts.Shaped()
  {
    i < SLOTS && ts.Get(kind).fds[i] == fd
  }

  lemma DelUnfolds(ts: Tables, fd: int, i: nat)
    requires ts.Shaped() && i <= SLOTS
    ensures DelFrom(ts, fd, i) ==
      if i == SLOTS then ts
      else if ts.plain.fds[i] == fd then ts.(plain := Clear(ts.plain, i))
      else if ts.xml.fds[i] == fd then ts.(xml := Clear(ts.xml, i))
      else if ts.or20.fds[i] == fd then ts.(or20 := Clear(ts.or20, i))
      else DelFrom(ts, fd, i + 1)
  {}

  lemma {:induction false} DelFinds(ts: Tables, fd: int, i: nat, kind: Kind, k: nat)
    requires ts.Shaped() && i <= k && At(ts, kind, k, fd) && Unique(ts, fd)
    ensures DelFrom(ts, fd, i) == ts.With(kind, Clear(ts.Get(kind), k))
    decreases SLOTS - i
  {
    assert ts.plain == ts.Get(Plain) && ts.xml == ts.Get(Xml) && ts.or20 == ts.Get(Or20);
    if i < k { DelFinds(ts, fd, i + 1, kind, k); }
  }

  lemma {:induction false} DelMissing(ts: Tables, fd: int, i: nat)
    requires ts.Shaped() && i <= SLOTS && !ts.Has(fd)
    ensures DelFrom(ts, fd, i) == ts
    decreases SLOTS - i
  {
    if i < SLOTS { DelMissing(ts, fd, i + 1); }
  }

  lemma {:induction false} DelFromKeepsValid(ts: Tables, fd: int, i: nat)
    requires ts.Valid() && fd != FREE && i <= SLOTS
    ensures DelFrom(ts, fd, i).Valid()
    decreases SLOTS - i
  {
    if i < SLOTS {
      OccupiedUpdate(ts.plain.fds, i, FREE);
      OccupiedUpdate(ts.xml.fds, i, FREE);
      OccupiedUpdate(ts.or20.fds, i, FREE);
      DelFromKeepsValid(ts, fd, i + 1);
    }
  }

  /** Adding a descriptor that is not connected and deleting it again restores all tables and counters, in any
      state with a free slot. */
  lemma AddThenDelRestores(ts: Tables, kind: Kind, fd: int)
    requires ts.Valid() && fd >= 0 && !ts.Has(fd) && Occupied(ts.Get(kind).fds) < SLOTS
    ensures Del(ts.With(kind, Add(ts.Get(kind), fd)), fd) == ts
  {
    var t := ts.Get(kind);
    var k := FirstOf(t.fds, FREE);
    FullIffNoneFree(t.fds);
    var ts' := ts.With(kind, Add(t, fd));
    assert forall l: Kind, i :: 0 <= i < SLOTS ==> ts.Get(l).fds[i] != fd;
    assert forall l: Kind :: ts'.Get(l) == if l == kind then Add(t, fd) else ts.Get(l);
    assert At(ts', kind, k, fd) && Unique(ts', fd);
    DelFinds(ts', fd, 0, kind, k);
    assert t.fds[k := fd][k := FREE] == t.fds;
  }

  // ----- Copying for poll -----

  function Slot(fd: int): seq<int> { if fd == FREE then [] else [fd] }

  /** The connected descriptors of slot i of the three tables. */
  function Row(ts: Tables, i: nat): (r: seq<int>)
    requires ts.Shaped() && i < SLOTS
    ensures |r| <= 3
  {
    Slot(ts.plain.fds[i]) + Slot(ts.xml.fds[i]) + Slot(ts.or20.fds[i])
  }

  /** The connected descriptors of the first n slots, slot by slot. */
  function Copied(ts: Tables, n: nat): (r: seq<int>)
    requires ts.Shaped() && n <= SLOTS
    ensures |r| <= 3 * n
  {
    if n == 0 then [] else Copied(ts, n - 1) + Row(ts, n - 1)
  }

  lemma OccupiedNext(fds: seq<int>, n: nat)
    requires n < |fds|
    ensures Occupied(fds[..n + 1]) == Occupied(fds[..n]) + |Slot(fds[n])|
  {
    assert fds[..n + 1][..n] == fds[..n];
  }

  lemma {:induction false} CopiedCount(ts: Tables, n: nat)
    requires ts.Shaped() && n <= SLOTS
    ensures |Copied(ts, n)| == Occupied(ts.plain.fds[..n]) + Occupied(ts.xml.fds[..n]) + Occupied(ts.or20.fds[..n])
  {
    if n > 0 {
      CopiedCount(ts, n - 1);
      OccupiedNext(ts.plain.fds, n - 1);
      OccupiedNext(ts.xml.fds, n - 1);
      OccupiedNext(ts.or20.fds, n - 1);
    }
  }

  function Is(a: int, b: int): nat { if a == b then 1 else 0 }

  /** How often a descriptor sits in slot i of the three tables. */
  function RowTimes(ts: Tables, fd: int, i: nat): nat
    requires ts.Shaped() && i < SLOTS
  {
    Is(ts.plain.fds[i], fd) + Is(ts.xml.fds[i], fd) + Is(ts.or20.fds[i], fd)
  }

  /** How often a descriptor sits in the first n slots. */
  function Times(ts: Tables, fd: int, n: nat): nat
    requires ts.Shaped() && n <= SLOTS
  {
    if n == 0 then 0 else Times(ts, fd, n - 1) + RowTimes(ts, fd, n - 1)
  }

  lemma AppendTimes(a: seq<int>, b: seq<int>, fd: int)
    ensures multiset(a + b)[fd] == multiset(a)[fd] + multiset(b)[fd]
  {}

  lemma SlotTimes(x: int, fd: int)
    ensures multiset(Slot(x))[fd] == if fd == FREE then 0 else Is(x, fd)
  {}

  lemma RowHolds(ts: Tables, fd: int, i: nat)
    requires ts.Shaped() && i < SLOTS
    ensures multiset(Row(ts, i))[fd] == if fd == FREE then 0 else RowTimes(ts, fd, i)
  {
    var p, x, o := ts.plain.fds[i], ts.xml.fds[i], ts.or20.fds[i];
    AppendTimes(Slot(p), Slot(x), fd);
    AppendTimes(Slot(p) + Slot(x), Slot(o), fd);
    SlotTimes(p, fd);
    SlotTimes(x, fd);
    SlotTimes(o, fd);
  }

  lemma {:induction false} CopiedTimes(ts: Tables, fd: int, n: nat)
    requires ts.Shaped() && n <= SLOTS
    ensures multiset(Copied(ts, n))[fd] == if fd == FREE then 0 else Times(ts, fd, n)
  {
    hide Row, RowTimes;
    if n > 0 {
      CopiedTimes(ts, fd, n - 1);
      RowHolds(ts, fd, n - 1);
      AppendTimes(Copied(ts, n - 1), Row(ts, n - 1), fd);
    }
  }

  lemma {:induction false} TimesMeaning(ts: Tables, fd: int, n: nat)
    requires ts.Shaped() && n <= SLOTS && Unique(ts, fd)
    ensures Times(ts, fd, n) == if exists k, i :: 0 <= i < n && ts.Get(k).fds[i] == fd then 1 else 0
  {
    if n > 0 {
      TimesMeaning(ts, fd, n - 1);
      assert ts.plain == ts.Get(Plain) && ts.xml == ts.Get(Xml) && ts.or20 == ts.Get(Or20);
      if k, i :| 0 <= i < n - 1 && ts.Get(k).fds[i] == fd {
        assert ts.Get(Plain).fds[n - 1] != fd && ts.Get(Xml).fds[n - 1] != fd && ts.Get(Or20).fds[n - 1] != fd;
      } else if ts.plain.fds[n - 1] == fd {
        assert ts.Get(Plain).fds[n - 1] == fd;
        assert ts.Get(Xml).fds[n - 1] != fd && ts.Get(Or20).fds[n - 1] != fd;
      } else if ts.xml.fds[n - 1] == fd {
        assert ts.Get(Xml).fds[n - 1] == fd;
        assert ts.Get(Or20).fds[n - 1] != fd;
      } else if ts.or20.fds[n - 1] == fd {
        assert ts.Get(Or20).fds[n - 1] == fd;
      }
    }
  }

  /** The copy has as many entries as the counters add up to, and no free one; each connected descriptor is in it
      once. */
  lemma CopyIsExact(ts: Tables, fd: int)
    requires ts.Valid() && (fd != FREE ==> Unique(ts, fd))
    ensures |Copied(ts, SLOTS)| == ts.plain.count + ts.xml.count + ts.or20.count
    ensures multiset(Copied(ts, SLOTS))[fd] == if fd != FREE && ts.Has(fd) then 1 else 0
  {
    CopySize(ts);
    CopiedTimes(ts, fd, SLOTS);
    if fd != FREE {
      TimesMeaning(ts, fd, SLOTS);
      HasMeaning(ts, fd);
    }
  }

  lemma CopySize(ts: Tables)
    requires ts.Valid()
    ensures |Copied(ts, SLOTS)| == ts.plain.count + ts.xml.count + ts.or20.count
  {
    CopiedCount(ts, SLOTS);
    assert ts.plain.fds[..SLOTS] == ts.plain.fds;
    assert ts.xml.fds[..SLOTS] == ts.xml.fds;
    assert ts.or20.fds[..SLOTS] == ts.or20.fds;
  }

  lemma HasMeaning(ts: Tables, fd: int)
    requires ts.Shaped()
    ensures ts.Has(fd) <==> exists k, i :: 0 <= i < SLOTS && ts.Get(k).fds[i] == fd
  {
    if fd in ts.plain.fds {
      var i :| 0 <= i < SLOTS && ts.plain.fds[i] == fd;
      assert ts.Get(Plain).fds[i] == fd;
    } else if fd in ts.xml.fds {
      var i :| 0 <= i < SLOTS && ts.xml.fds[i] == fd;
      assert ts.Get(Xml).fds[i] == fd;
    } else if fd in ts.or20.fds {
      var i :| 0 <= i < SLOTS && ts.or20.fds[i] == fd;
      assert ts.Get(Or20).fds[i] == fd;
    }
  }

  // ----- Runs -----

  datatype Op = Connect(kind: Kind, fd: int) | Disconnect(fd: int)

  function Act(ts: Tables, op: Op): (ts': Tables)
    requires ts.Shaped()
    ensures ts'.Shaped()
  {
    match op
    case Connect(kind, fd) => ts.With(kind, Add(ts.Get(kind), fd))
    case Disconnect(fd) => DelFromShaped(ts, fd, 0); Del(ts, fd)
  }

  lemma {:induction false} DelFromShaped(ts: Tables, fd: int, i: nat)
    requires ts.Shaped() && i <= SLOTS
    ensures DelFrom(ts, fd, i).Shaped()
    decreases SLOTS - i
  {
    if i < SLOTS { DelFromShaped(ts, fd, i + 1); }
  }

  function After(ts: Tables, ops: seq<Op>): (ts': Tables)
    requires ts.Shaped()
    ensures ts'.Shaped()
    decreases |ops|
  {
    if ops == [] then ts else Act(After(ts, ops[..|ops| - 1]), ops[|ops| - 1])
  }

  /** Every descriptor given to an add function comes from a successful accept and is not connected already. */
  ghost predicate Proper(ts: Tables, ops: seq<Op>)
    requires ts.Shaped()
  {
    forall n :: 0 <= n < |ops| ==>
      ops[n].fd >= 0 && (ops[n].Connect? ==> !After(ts, ops[..n]).Has(ops[n].fd))
  }

  /** No slot, in any table, gains a descriptor other than fd. */
  ghost predicate OnlyGains(ts: Tables, ts': Tables, fd: int)
    requires ts.Shaped() && ts'.Shaped()
  {
    forall k, i :: 0 <= i < SLOTS ==> ts'.Get(k).fds[i] in {ts.Get(k).fds[i], fd, FREE}
  }

  lemma OnlyGainsUnique(ts: Tables, ts': Tables, fd: int, other: int)
    requires ts.Shaped() && ts'.Shaped() && OnlyGains(ts, ts', fd)
    requires other !in {fd, FREE} && Unique(ts, other)
    ensures Unique(ts', other)
  {}

  lemma {:induction false} DelOnlyGains(ts: Tables, fd: int, i: nat)
    requires ts.Shaped() && i <= SLOTS
    ensures DelFrom(ts, fd, i).Shaped() && OnlyGains(ts, DelFrom(ts, fd, i), FREE)
    decreases SLOTS - i
  {
    if i < SLOTS { DelOnlyGains(ts, fd, i + 1); }
  }

  lemma ConnectUnique(ts: Tables, kind: Kind, fd: int)
    requires ts.Shaped() && !ts.Has(fd) && fd != FREE
    ensures Unique(Act(ts, Connect(kind, fd)), fd)
  {
    assert forall l: Kind, i :: 0 <= i < SLOTS ==> ts.Get(l).fds[i] != fd;
    var ts' := Act(ts, Connect(kind, fd));
    assert forall l: Kind :: ts'.Get(l) == if l == kind then Add(ts.Get(kind), fd) else ts.Get(l);
  }

  lemma ActKeepsUnique(ts: Tables, op: Op, fd: int)
    requires ts.Shaped() && fd != FREE && Unique(ts, fd) && op.fd >= 0 && (op.Connect? ==> !ts.Has(op.fd))
    ensures Unique(Act(ts, op), fd)
  {
    match op
    case Connect(kind, f) =>
      if f == fd {
        ConnectUnique(ts, kind, fd);
      } else {
        assert OnlyGains(ts, Act(ts, op), f);
        OnlyGainsUnique(ts, Act(ts, op), f, fd);
      }
    case Disconnect(f) =>
      DelOnlyGains(ts, f, 0);
      OnlyGainsUnique(ts, Act(ts, op), FREE, fd);
  }

  lemma ProperPrefix(ts: Tables, ops: seq<Op>)
    requires ts.Shaped() && Proper(ts, ops) && ops != []
    ensures var n := |ops| - 1;
      && Proper(ts, ops[..n]) && ops[n].fd >= 0 && (ops[n].Connect? ==> !After(ts, ops[..n]).Has(ops[n].fd))
  {
    hide After;
    var n := |ops| - 1;
    assert forall k :: 0 <= k < n ==> ops[..n][..k] == ops[..k] && ops[..n][k] == ops[k];
  }

  /** In every proper run each counter equals its occupied slots and each descriptor sits in at most one slot. */
  lemma {:induction false} RunsStayExact(ts: Tables, ops: seq<Op>, fd: int)
    requires ts.Valid() && fd >= 0 && Unique(ts, fd) && Proper(ts, ops)
    ensures After(ts, ops).Valid() && Unique(After(ts, ops), fd)
    decreases |ops|
  {
    if ops != [] {
      var n := |ops| - 1;
      var op := ops[n];
      hide Act, Unique, Proper, Occupied;
      ProperPrefix(ts, ops);
      RunsStayExact(ts, ops[..n], fd);
      ActKeepsUnique(After(ts, ops[..n]), op, fd);
      ActKeepsValid(After(ts, ops[..n]), op);
    }
  }

  lemma ActKeepsValid(ts: Tables, op: Op)
    requires ts.Valid() && op.fd >= 0
    ensures Act(ts, op).Valid()
  {
    match op
    case Connect(kind, f) => AddKeepsCountIff(ts.Get(kind), f);
    case Disconnect(f) => DelFromKeepsValid(ts, f, 0);
  }

  // ----- The statics of mochad.c -----

  class ClientTables {
    const plain: array<int>
    const xml: array<int>
    const or20: array<int>
    var nPlain: int
    var nXml: int
    var nOr20: int

    ghost function Repr(): set<object> { {this, plain, xml, or20} }

    ghost predicate Shaped() {
      plain.Length == xml.Length == or20.Length == SLOTS && plain != xml && plain != or20 && xml != or20
    }

    ghost function Value(): Tables
      reads Repr()
    {
      Tables(Table(plain[..], nPlain), Table(xml[..], nXml), Table(or20[..], nOr20))
    }

    /** init_client. */
    constructor ()
      ensures Shaped() && fresh(Repr())
      ensures Value().Valid() && forall fd :: fd != FREE ==> !Value().Has(fd)
    {
      plain := new int[SLOTS](_ => FREE);
      xml := new int[SLOTS](_ => FREE);
      or20 := new int[SLOTS](_ => FREE);
      nPlain, nXml, nOr20 := 0, 0, 0;
      new;
      NoneOccupied(plain[..]);
      NoneOccupied(xml[..]);
      NoneOccupied(or20[..]);
    }

    /** The loop of the three add functions: the first free slot takes the descriptor. */
    static method AddTo(fds: array<int>, fd: int) returns (added: bool)
      requires fds.Length == SLOTS
      modifies fds
      ensures added == (FirstOf(old(fds[..]), FREE) < SLOTS)
      ensures fds[..] == if added then old(fds[..])[FirstOf(old(fds[..]), FREE) := fd] else old(fds[..])
    {
      ghost var was := fds[..];
      for i := 0 to SLOTS
        invariant fds[..] == was
        invariant forall j :: 0 <= j < i ==> was[j] != FREE
      {
        if fds[i] == FREE {
          fds[i] := fd;
          return true;
        }
      }
      return false;
    }

    method AddClient(fd: int) returns (rc: int)
      requires Shaped()
      modifies this`nPlain, plain
      ensures Value() == old(Value()).(plain := Add(old(Value()).plain, fd))
      ensures rc == 0 <==> FirstOf(old(plain[..]), FREE) < SLOTS
    {
      var added := AddTo(plain, fd);
      if !added {
        return -1;
      }
      nPlain := nPlain + 1;
      return 0;
    }

    method AddXmlClient(fd: int) returns (rc: int)
      requires Shaped()
      modifies this`nXml, xml
      ensures Value() == old(Value()).(xml := Add(old(Value()).xml, fd))
      ensures rc == 0 <==> FirstOf(old(xml[..]), FREE) < SLOTS
    {
      var added := AddTo(xml, fd);
      if !added {
        return -1;
      }
      nXml := nXml + 1;
      return 0;
    }

    method AddOr20Client(fd: int) returns (rc: int)
      requires Shaped()
      modifies this`nOr20, or20
      ensures Value() == old(Value()).(or20 := Add(old(Value()).or20, fd))
      ensures rc == 0 <==> FirstOf(old(or20[..]), FREE) < SLOTS
    {
      var added := AddTo(or20, fd);
      if !added {
        return -1;
      }
      nOr20 := nOr20 + 1;
      return 0;
    }

    method DelClient(fd: int) returns (rc: int)
      requires Shaped()
      modifies Repr()
      ensures Value() == Del(old(Value()), fd)
      ensures rc == 0 <==> old(Value()).Has(fd)
    {
      hide DelFrom;
      ghost var ts := Value();
      for i := 0 to SLOTS
        invariant Value() == ts && DelFrom(ts, fd, 0) == DelFrom(ts, fd, i)
        invariant forall j :: 0 <= j < i ==> plain[j] != fd && xml[j] != fd && or20[j] != fd
      {
        DelUnfolds(ts, fd, i);
        if plain[i] == fd {
          plain[i] := FREE;
          nPlain := nPlain - 1;
          assert plain[..] == ts.plain.fds[i := FREE];
          assert ts.plain.fds[i] == fd;
          return 0;
        }
        if xml[i] == fd {
          xml[i] := FREE;
          nXml := nXml - 1;
          assert xml[..] == ts.xml.fds[i := FREE];
          assert ts.xml.fds[i] == fd;
          return 0;
        }
        if or20[i] == fd {
          or20[i] := FREE;
          nOr20 := nOr20 - 1;
          assert or20[..] == ts.or20.fds[i := FREE];
          assert ts.or20.fds[i] == fd;
          return 0;
        }
      }
      DelUnfolds(ts, fd, SLOTS);
      return -1;
    }

    /** Writes the connected descriptors into an array, from a position on. */
    method CopyClients(dest: array<int>, at: nat) returns (n: int)
      requires Shaped() && dest !in Repr() && at + 3 * SLOTS <= dest.Length
      modifies dest
      ensures n == nPlain + nXml + nOr20
      ensures dest[..] == Put(old(dest[..]), at, Copied(Value(), SLOTS))
    {
      hide Put, Slot;
      ghost var ts, was := Value(), dest[..];
      PutNothing(was, at);
      var p := at;
      for i := 0 to SLOTS
        invariant Value() == ts && p == at + |Copied(ts, i)|
        invariant dest[..] == Put(was, at, Copied(ts, i))
      {
        PutPut(was, at, Copied(ts, i), Row(ts, i));
        p := CopyRow(dest, p, plain[i], xml[i], or20[i]);
      }
      return nPlain + nXml + nOr20;
    }

    static method CopyRow(dest: array<int>, p: nat, a: int, b: int, c: int) returns (p': nat)
      requires p + 3 <= dest.Length
      modifies dest
      ensures p' == p + |Slot(a) + Slot(b) + Slot(c)|
      ensures dest[..] == Put(old(dest[..]), p, Slot(a) + Slot(b) + Slot(c))
    {
      PutPut(dest[..], p, Slot(a), Slot(b));
      PutPut(dest[..], p, Slot(a) + Slot(b), Slot(c));
      p' := CopySlot(dest, p, a);
      p' := CopySlot(dest, p', b);
      p' := CopySlot(dest, p', c);
    }

    /** Writes one descriptor unless it is free. */
    static method CopySlot(dest: array<int>, p: nat, fd: int) returns (p': nat)
      requires p < dest.Length
      modifies dest
      ensures p' == p + |Slot(fd)|
      ensures dest[..] == Put(old(dest[..]), p, Slot(fd))
    {
      p' := p;
      if fd != FREE {
        dest[p] := fd;
        p' := p + 1;
      } else {
        assert dest[..] == dest[..p] + [] + dest[p..];
      }
    }
  }

  /** The sequence w with s written over it from p on. */
  function Put(w: seq<int>, p: nat, s: seq<int>): seq<int>
    requires p + |s| <= |w|
  {
    w[..p] + s + w[p + |s|..]
  }

  lemma PutNothing(w: seq<int>, p: nat)
    requires p <= |w|
    ensures Put(w, p, []) == w
  {
    assert w[..p] + [] + w[p..] == w;
  }

  lemma PutPut(w: seq<int>, p: nat, s: seq<int>, t: seq<int>)
    requires p + |s| + |t| <= |w|
    ensures Put(Put(w, p, s), p + |s|, t) == Put(w, p, s + t)
  {
    assert Put(w, p, s)[..p + |s|] == w[..p] + s;
    assert Put(w, p, s)[p + |s| + |t|..] == w[p + |s| + |t|..];
  }

  lemma {:induction false} NoneOccupied(fds: seq<int>)
    requires forall i :: 0 <= i < |fds| ==> fds[i] == FREE
    ensures Occupied(fds) == 0
    decreases |fds|
  {
    if fds != [] { NoneOccupied(fds[..|fds| - 1]); }
  }
}
