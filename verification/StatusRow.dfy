/**
 The device rows printed for "ST" (x10state.c) and the web page's reader of them (cgi/getsensors.pl), each as it
 works, and the proof that the page shows what the tracker holds.
*/
module StatusRow {
  import opened Common
  import opened Text
  import opened Codes
  import opened DeviceState

  // ----- Printing -----

  /** "unit=status" for one unit. */
  function Item(u: nat, c: char): string { Decimal(u + 1) + "=" + [c] }

  /** The items of the first n units that are not unknown. */
  function Items(state: seq<char>, n: nat): seq<string>
    requires n <= |state|
  {
    if n == 0 then [] else Items(state, n - 1) + if state[n - 1] == '\0' then [] else [Item(n - 1, state[n - 1])]
  }

  /** The strings separated by commas. */
  function Join(ts: seq<string>): string
    decreases |ts|
  {
    if ts == [] then ""
    else if |ts| == 1 then ts[0]
    else Join(ts[..|ts| - 1]) + "," + ts[|ts| - 1]
  }

  /** The row of a house; empty when every unit is unknown. */
  function RowText(h: nat, state: seq<char>): string
    requires h < 16
  {
    if Items(state, |state|) == [] then "" else "House " + [HouseChar(h)] + ": " + Join(Items(state, |state|)) + "\n"
  }

  lemma ItemsGrow(state: seq<char>, u: nat, head: string)
    requires u < |state| && state[u] != '\0'
    ensures var items, item := Items(state, u), Item(u, state[u]);
      && Items(state, u + 1) == items + [item]
      && head + Join(items + [item])
         == if items == [] then head + item else head + Join(items) + "," + item
  {
    var items, item := Items(state, u), Item(u, state[u]);
    assert (items + [item])[..|items|] == items;
    if items != [] {
      assert head + (Join(items) + "," + item) == head + Join(items) + "," + item;
    }
  }

  lemma ItemsSame(state: seq<char>, u: nat)
    requires u < |state| && state[u] == '\0'
    ensures Items(state, u + 1) == Items(state, u)
  {}

  predicate ValidRow(state: seq<char>) { |state| == 16 && forall u :: 0 <= u < 16 ==> state[u] in {'\0', '0', '1'} }

  function CharOf(s: Status): char { if s == On then '1' else if s == Off then '0' else '\0' }

  /** The characters of a house's status array. */
  function StateOf(hist: seq<Event>, h: nat): (state: seq<char>)
    requires ValidHistory(hist) && h < 16
    ensures ValidRow(state)
  {
    var row := RowsAfter(hist)[h];
    assert row.Valid();
    seq(16, u requires 0 <= u < 16 => CharOf(row.status[u]))
  }

  /** The rows of all houses, as "ST" prints them after a history; an empty one is not sent. */
  function DeviceRows(hist: seq<Event>): (rows: seq<string>)
    requires ValidHistory(hist)
    ensures |rows| == 16 && forall h :: 0 <= h < 16 ==> rows[h] == RowText(h, StateOf(hist, h))
  {
    seq(16, h requires 0 <= h < 16 => RowText(h, StateOf(hist, h)))
  }

  /** The status array of the tracker holds these characters. */
  lemma ArrayHoldsState(units: HouseUnits, h: nat)
    requires units.Valid() && h < 16
    ensures forall u :: 0 <= u < 16 ==> units.state[h, u] == StateOf(units.hist, h)[u]
  {
    assert units.Holds(h, RowsAfter(units.hist)[h]);
  }

  /** The loop over the units of one house in hua_show. */
  method ShowRow(units: HouseUnits, h: nat) returns (buf: string)
    requires units.Valid() && h < 16
    ensures buf == RowText(h, StateOf(units.hist, h))
  {
    hide HouseUnits.Holds;
    ghost var state := StateOf(units.hist, h);
    ArrayHoldsState(units, h);
    var head := "House " + [HouseChar(h)] + ": ";
    var headDone := false;
    buf := "";
    for u := 0 to 16
      invariant headDone == (Items(state, u) != [])
      invariant buf == if headDone then head + Join(Items(state, u)) else ""
    {
      if units.state[h, u] != '\0' {
        ItemsGrow(state, u, head);
        if !headDone {
          headDone := true;
          buf := head + Item(u, units.state[h, u]);
        } else {
          buf := buf + "," + Item(u, units.state[h, u]);
        }
      } else {
        ItemsSame(state, u);
      }
    }
    if headDone {
      buf := buf + "\n";
    }
  }

  // ----- Reading -----

  function SplitOn(s: string, sep: char): (r: seq<string>)
    ensures r != []
    decreases |s|
  {
    if s == "" then [""]
    else
      var rest := SplitOn(s[..|s| - 1], sep);
      var c := s[|s| - 1];
      if c == sep then rest + [""] else rest[|rest| - 1 := rest[|rest| - 1] + [c]]
  }

  /** Drops the first colon. */
  function DropColon(s: string): string
    decreases |s|
  {
    if s == "" then "" else if s[0] == ':' then s[1..] else [s[0]] + DropColon(s[1..])
  }

  /** The table cells of one row, by unit number; cell 0 is not shown. */
  type Cells = s: seq<char> | |s| == 17 witness seq(17, _ => '?')

  /** One "unit=status" field: a status that is numerically 1 is on, one that is numerically 0 is off. */
  function Mark(cells: Cells, field: string): Cells {
    var parts := SplitOn(field, '=');
    var unit := StrToNumber(parts[0], 10);
    var status := StrToNumber(if |parts| > 1 then parts[1] else "", 10);
    if !(0 <= unit <= 16) then cells
    else if status == 1 then cells[unit := '*']
    else if status == 0 then cells[unit := '-']
    else cells
  }

  function MarkAll(cells: Cells, fields: seq<string>): Cells
    decreases |fields|
  {
    if fields == [] then cells else Mark(MarkAll(cells, fields[..|fields| - 1]), fields[|fields| - 1])
  }

  function Blank(): Cells { seq(17, _ => '?') }

  /** The line's fields between runs of spaces; a leading space makes an empty first one. */
  function LineFields(line: string): seq<string> {
    if line != "" && line[0] == ' ' then [""] + Tokens(line) else Tokens(line)
  }

  function FieldAt(fields: seq<string>, i: nat): string { if i < |fields| then fields[i] else "" }

  function HouseOf(line: string): string { DropColon(FieldAt(LineFields(line), 3)) }

  function UnitFields(line: string): seq<string> {
    var text := FieldAt(LineFields(line), 4);
    if text == "" then [] else SplitOn(text, ',')
  }

  /** The loop over the fields of a device line: the house column and the sixteen unit cells. */
  method ParseRow(line: string) returns (house: string, cells: Cells)
    ensures house == HouseOf(line)
    ensures cells == MarkAll(Blank(), UnitFields(line))
  {
    hide HouseOf, UnitFields, Mark, Blank;
    house := HouseOf(line);
    cells := Blank();
    var fields := UnitFields(line);
    for i := 0 to |fields|
      invariant cells == MarkAll(Blank(), fields[..i])
    {
      MarkLast(fields[..i], fields[i]);
      assert fields[..i + 1] == fields[..i] + [fields[i]];
      cells := Mark(cells, fields[i]);
    }
    assert fields[..|fields|] == fields;
  }

  // ----- The page shows what the tracker holds -----

  lemma {:induction false} SplitWord(w: string, sep: char)
    requires sep !in w
    ensures SplitOn(w, sep) == [w]
    decreases |w|
  {
    if w != "" {
      SplitWord(w[..|w| - 1], sep);
      assert w == w[..|w| - 1] + [w[|w| - 1]];
    }
  }

  lemma {:induction false} SplitAppend(s: string, sep: char, w: string)
    requires sep !in w
    ensures SplitOn(s + [sep] + w, sep) == SplitOn(s, sep) + [w]
    decreases |w|
  {
    var t := s + [sep] + w;
    if w == "" {
      assert t[..|t| - 1] == s;
    } else {
      var init, c := w[..|w| - 1], w[|w| - 1];
      SplitAppend(s, sep, init);
      assert t[..|t| - 1] == s + [sep] + init && t[|t| - 1] == c;
      assert init + [c] == w;
    }
  }

  lemma {:induction false} SplitJoin(ts: seq<string>)
    requires ts != [] && forall t :: t in ts ==> ',' !in t
    ensures SplitOn(Join(ts), ',') == ts
    decreases |ts|
  {
    hide SplitOn, Join;
    var n := |ts| - 1;
    JoinUnfolds(ts);
    if n == 0 {
      SplitWord(ts[0], ',');
    } else {
      SplitJoin(ts[..n]);
      SplitAppend(Join(ts[..n]), ',', ts[n]);
      assert ts[..n] + [ts[n]] == ts;
    }
  }

  lemma JoinUnfolds(ts: seq<string>)
    requires ts != []
    ensures Join(ts) == if |ts| == 1 then ts[0] else Join(ts[..|ts| - 1]) + "," + ts[|ts| - 1]
  {}

  lemma OneDigit(c: char, tail: string)
    requires '0' <= c <= '9' && tail in {"", "\n"}
    ensures StrToNumber([c] + tail, 10) == DigitValue(c)
  {
    assert ([c] + tail)[1..] == tail;
    assert Magnitude(tail, 10, DigitValue(c)) == DigitValue(c);
  }

  lemma Teen(d: char)
    requires '0' <= d <= '9'
    ensures StrToNumber("1" + [d], 10) == 10 + DigitValue(d)
  {
    var s := "1" + [d];
    assert s[1..] == [d] && [d][1..] == "";
    assert Magnitude(s, 10, 0) == Magnitude([d], 10, 1) == Magnitude("", 10, 10 + DigitValue(d));
  }

  predicate Plain(c: char) { c != '=' && c != ',' && c != ' ' }

  lemma DecimalIs(n: nat)
    requires 1 <= n <= 16
    ensures StrToNumber(Decimal(n), 10) == n
    ensures forall c :: c in Decimal(n) ==> Plain(c)
  {
    if n >= 10 {
      var d := ('0' as int + n - 10) as char;
      assert n / 10 == 1 && n % 10 == n - 10;
      assert Decimal(n) == "1" + [d];
      Teen(d);
    } else {
      var d := ('0' as int + n) as char;
      OneDigit(d, "");
      assert Decimal(n) == [d] + "";
    }
  }

  function CellFor(c: char): char { if c == '1' then '*' else if c == '0' then '-' else '?' }

  lemma MarkItem(cells: Cells, u: nat, c: char)
    requires u < 16 && c in {'0', '1'}
    ensures Mark(cells, Item(u, c)) == cells[u + 1 := CellFor(c)]
    ensures Mark(cells, Item(u, c) + "\n") == cells[u + 1 := CellFor(c)]
  {
    hide Mark, Decimal;
    DecimalIs(u + 1);
    assert [c] + "" == [c];
    MarkField(cells, Decimal(u + 1), u + 1, c, "");
    MarkField(cells, Decimal(u + 1), u + 1, c, "\n");
    assert Item(u, c) + "\n" == Decimal(u + 1) + "=" + ([c] + "\n");
  }

  lemma MarkField(cells: Cells, unit: string, n: nat, c: char, tail: string)
    requires n <= 16 && StrToNumber(unit, 10) == n && '=' !in unit && c in {'0', '1'} && tail in {"", "\n"}
    ensures Mark(cells, unit + "=" + ([c] + tail)) == cells[n := CellFor(c)]
  {
    hide StrToNumber, SplitOn;
    SplitWord(unit, '=');
    SplitAppend(unit, '=', [c] + tail);
    OneDigit(c, tail);
  }

  /** The cells of the first n units filled in. */
  function CellsFor(state: seq<char>, n: nat): Cells
    requires ValidRow(state) && n <= 16
  {
    seq(17, u requires 0 <= u < 17 => if 1 <= u <= n then CellFor(state[u - 1]) else '?')
  }

  lemma CellsGrow(state: seq<char>, n: nat)
    requires ValidRow(state) && n < 16
    ensures CellsFor(state, n + 1)
      == if state[n] == '\0' then CellsFor(state, n) else CellsFor(state, n)[n + 1 := CellFor(state[n])]
  {}

  lemma MarkLast(items: seq<string>, item: string)
    ensures MarkAll(Blank(), items + [item]) == Mark(MarkAll(Blank(), items), item)
  {
    assert (items + [item])[..|items|] == items;
  }

  lemma {:induction false} MarkItems(state: seq<char>, n: nat)
    requires ValidRow(state) && n <= 16
    ensures MarkAll(Blank(), Items(state, n)) == CellsFor(state, n)
  {
    if n > 0 {
      MarkItems(state, n - 1);
      if state[n - 1] != '\0' {
        MarkItem(CellsFor(state, n - 1), n - 1, state[n - 1]);
        MarkLast(Items(state, n - 1), Item(n - 1, state[n - 1]));
        ItemsGrow(state, n - 1, "");
      } else {
        ItemsSame(state, n - 1);
      }
      CellsGrow(state, n - 1);
    }
  }

  lemma {:induction false} ItemsAreWords(state: seq<char>, n: nat)
    requires ValidRow(state) && n <= 16
    ensures forall t :: t in Items(state, n) ==> ',' !in t && ' ' !in t && t != ""
    ensures Items(state, n) != [] ==>
      exists u :: 0 <= u < n && state[u] != '\0' && Items(state, n)[|Items(state, n)| - 1] == Item(u, state[u])
  {
    if n > 0 {
      ItemsAreWords(state, n - 1);
      DecimalIs(n);
    }
  }

  lemma LastReplaced(items: seq<string>, x: string)
    requires items != []
    ensures items[|items| - 1 := x] == items[..|items| - 1] + [x]
  {}

  lemma NewlineOnLast(items: seq<string>, u: nat, c: char)
    requires items != [] && u < 16 && c in {'0', '1'} && items[|items| - 1] == Item(u, c)
    ensures MarkAll(Blank(), items[|items| - 1 := items[|items| - 1] + "\n"]) == MarkAll(Blank(), items)
  {
    hide Mark, Item, MarkAll, Blank;
    var last := |items| - 1;
    var init, item := items[..last], items[last];
    MarkItem(MarkAll(Blank(), init), u, c);
    MarkLast(init, item);
    MarkLast(init, item + "\n");
    LastReplaced(items, item + "\n");
    assert items == init + [item];
  }

  /** The newline behind the last item does not matter. */
  lemma NewlineHarmless(state: seq<char>)
    requires ValidRow(state) && Items(state, 16) != []
    ensures var items := Items(state, 16);
      var last := |items| - 1;
      MarkAll(Blank(), items[last := items[last] + "\n"]) == MarkAll(Blank(), items)
  {
    hide Items, MarkAll, Item, Blank, Mark;
    var items := Items(state, 16);
    var last := |items| - 1;
    ItemsAreWords(state, 16);
    var u :| 0 <= u < 16 && state[u] != '\0' && items[last] == Item(u, state[u]);
    NewlineOnLast(items, u, state[u]);
  }

  lemma JoinNewline(items: seq<string>)
    requires items != []
    ensures Join(items[|items| - 1 := items[|items| - 1] + "\n"]) == Join(items) + "\n"
  {
    var n := |items| - 1;
    var items' := items[n := items[n] + "\n"];
    assert items'[..n] == items[..n];
    if n > 0 {
      assert Join(items[..n]) + "," + (items[n] + "\n") == Join(items[..n]) + "," + items[n] + "\n";
    }
  }

  lemma {:induction false} JoinIsWord(ts: seq<string>)
    requires ts != [] && forall t :: t in ts ==> ' ' !in t && t != ""
    ensures IsWord(Join(ts))
    decreases |ts|
  {
    if |ts| > 1 { JoinIsWord(ts[..|ts| - 1]); }
  }

  /** The line a client receives: a date and a time stamp, and the row. */
  function SentRow(date: string, time: string, h: nat, state: seq<char>): string
    requires h < 16
  {
    date + " " + time + " " + RowText(h, state)
  }

  lemma Regroup(a: string, b: string, rest: string)
    ensures a + " " + b + " " + rest == a + " " + (b + " " + rest)
  {}

  lemma TwoWords(a: string, b: string, rest: string)
    requires IsWord(a) && IsWord(b)
    ensures Tokens(a + " " + b + " " + rest) == [a, b] + Tokens(rest)
  {
    hide Tokens;
    Regroup(a, b, rest);
    TokensCons(b, rest);
    TokensCons(a, b + " " + rest);
  }

  lemma FiveWords(a: string, b: string, c: string, d: string, e: string)
    requires IsWord(a) && IsWord(b) && IsWord(c) && IsWord(d) && IsWord(e)
    ensures LineFields(a + " " + b + " " + (c + " " + d + " " + e)) == [a, b, c, d, e]
  {
    hide Tokens;
    TokensOfWord(e);
    TwoWords(c, d, e);
    TwoWords(a, b, c + " " + d + " " + e);
  }

  lemma RowIs(h: nat, state: seq<char>)
    requires h < 16 && ValidRow(state) && Items(state, 16) != []
    ensures IsWord(Join(Items(state, 16)) + "\n")
    ensures RowText(h, state) == "House" + " " + [HouseChar(h), ':'] + " " + (Join(Items(state, 16)) + "\n")
  {
    hide Items, Join, HouseChar;
    var text := Join(Items(state, 16));
    ItemsAreWords(state, 16);
    JoinIsWord(Items(state, 16));
    HeadWords(HouseChar(h));
    LastJoined("House " + [HouseChar(h)] + ": ", text);
  }

  lemma HeadWords(c: char)
    ensures "House " + [c] + ": " == "House" + " " + [c, ':'] + " "
  {}

  lemma LastJoined(head: string, text: string)
    ensures head + text + "\n" == head + (text + "\n")
  {}

  lemma UnitFieldsOfRow(state: seq<char>)
    requires ValidRow(state) && Items(state, 16) != []
    ensures var items := Items(state, 16);
      var last := |items| - 1;
      SplitOn(Join(items) + "\n", ',') == items[last := items[last] + "\n"]
  {
    var items := Items(state, 16);
    var last := |items| - 1;
    var items' := items[last := items[last] + "\n"];
    ItemsAreWords(state, 16);
    JoinNewline(items);
    forall i | 0 <= i < |items'|
      ensures ',' !in items'[i]
    {
      assert items[i] in items;
    }
    SplitJoin(items');
  }

  lemma DropsColon(c: char)
    requires c != ':'
    ensures DropColon([c, ':']) == [c]
  {
    assert [c, ':'][1..] == ":";
    assert DropColon(":") == "";
  }

  /** For every non-empty device row, the page shows the house's letter and, for each of the 16 units, on, off or
      unknown exactly as the tracker holds it. */
  lemma PageShowsRow(date: string, time: string, h: nat, state: seq<char>)
    requires IsWord(date) && IsWord(time) && h < 16 && ValidRow(state) && RowText(h, state) != ""
    ensures var line := SentRow(date, time, h, state);
      && HouseOf(line) == [HouseChar(h)]
      && forall u :: 0 <= u < 16 ==> MarkAll(Blank(), UnitFields(line))[u + 1] == CellFor(state[u])
  {
    hide Items, Join, RowText, MarkAll, SplitOn, Tokens, LineFields, DropColon;
    var text := Join(Items(state, 16)) + "\n";
    RowShown(h, state);
    RowIs(h, state);
    FiveWords(date, time, "House", [HouseChar(h), ':'], text);
    UnitFieldsOfRow(state);
    DropsColon(HouseChar(h));
    NewlineHarmless(state);
    MarkItems(state, 16);
  }

  /** Over every history, the page's cell for a unit tells what the last event that touched the unit wrote. */
  lemma PageShowsLastTouch(date: string, time: string, hist: seq<Event>, i: nat, h: nat, u: nat)
    requires IsWord(date) && IsWord(time) && ValidHistory(hist) && h < 16 && u < 16
    requires i < |hist| && LastTouch(hist, i, h, u) && hist[i] != Reset
    ensures var line := SentRow(date, time, h, StateOf(hist, h));
      && HouseOf(line) == [HouseChar(h)]
      && MarkAll(Blank(), UnitFields(line))[u + 1] == if Written(hist[i]).0 == On then '*' else '-'
  {
    hide RowText, MarkAll, UnitFields, HouseOf, LastTouch;
    StatusOfLastTouch(hist, i, h, u);
    KnownIsShown(StateOf(hist, h), u, 16);
    RowShown(h, StateOf(hist, h));
    PageShowsRow(date, time, h, StateOf(hist, h));
  }

  lemma {:induction false} KnownIsShown(state: seq<char>, u: nat, n: nat)
    requires u < n <= |state| && state[u] != '\0'
    ensures Items(state, n) != []
    decreases n
  {
    if u < n - 1 { KnownIsShown(state, u, n - 1); }
  }

  lemma RowShown(h: nat, state: seq<char>)
    requires h < 16 && |state| == 16
    ensures RowText(h, state) != "" <==> Items(state, 16) != []
  {}
}
