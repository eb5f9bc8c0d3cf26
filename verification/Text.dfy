/**
 C-string handling used by the command parser: upper-casing in place, strtok with its hidden cursor, number
 conversion and number printing.
*/
module Text {
  import opened Common

  function UpperChar(c: char): char { if 'a' <= c <= 'z' then (c as int - 32) as char else c }

  function Upper(s: string): (r: string)
    ensures |r| == |s| && forall i :: 0 <= i < |s| ==> r[i] == UpperChar(s[i])
  {
    seq(|s|, i requires 0 <= i < |s| => UpperChar(s[i]))
  }

  // ----- Tokens -----

  /** The number of leading characters that are (or are not) spaces. */
  function Span(s: string, spaces: bool): (n: nat)
    ensures n <= |s|
    ensures forall i :: 0 <= i < n ==> (s[i] == ' ') == spaces
    ensures n < |s| ==> (s[n] == ' ') != spaces
  {
    if s == "" || (s[0] == ' ') != spaces then 0 else 1 + Span(s[1..], spaces)
  }

  /** The first word of a text, empty if there is none. */
  function Word(s: string): string {
    var t := s[Span(s, true)..];
    t[..Span(t, false)]
  }

  /** The text after the first word and the space that ends it. */
  function AfterWord(s: string): (r: string)
    ensures Word(s) != "" ==> |r| < |s|
  {
    var t := s[Span(s, true)..];
    var n := Span(t, false);
    if n < |t| then t[n + 1..] else ""
  }

  /** What repeated strtok calls with delimiter " " return. */
  function Tokens(s: string): seq<string>
    decreases |s|
  {
    if Word(s) == "" then [] else [Word(s)] + Tokens(AfterWord(s))
  }

  predicate IsWord(w: string) { w != "" && ' ' !in w }

  lemma SpanIs(s: string, spaces: bool, n: nat)
    requires n <= |s|
    requires forall i :: 0 <= i < n ==> (s[i] == ' ') == spaces
    requires n < |s| ==> (s[n] == ' ') != spaces
    ensures Span(s, spaces) == n
  {}

  lemma TokensOfWord(w: string)
    requires IsWord(w)
    ensures Tokens(w) == [w]
  {
    SpanIs(w, true, 0);
    assert w[0..] == w;
    SpanIs(w, false, |w|);
    assert w[..|w|] == w;
    assert Word(w) == w && AfterWord(w) == "";
    assert Tokens("") == [];
  }

  lemma TokensCons(w: string, s: string)
    requires IsWord(w)
    ensures Tokens(w + " " + s) == [w] + Tokens(s)
  {
    var t := w + " " + s;
    SpanIs(t, true, 0);
    assert t[0..] == t;
    SpanIs(t, false, |w|);
    assert t[..|w|] == w;
    assert t[|w| + 1..] == s;
    assert Word(t) == w && AfterWord(t) == s;
  }

  lemma UpperSpan(s: string, spaces: bool)
    ensures Span(Upper(s), spaces) == Span(s, spaces)
  {
    SpanIs(Upper(s), spaces, Span(s, spaces));
  }

  function UpperAll(ts: seq<string>): (r: seq<string>)
    ensures |r| == |ts| && forall i :: 0 <= i < |ts| ==> r[i] == Upper(ts[i])
  {
    seq(|ts|, i requires 0 <= i < |ts| => Upper(ts[i]))
  }

  lemma UpperSlice(s: string, k: nat)
    requires k <= |s|
    ensures Upper(s)[k..] == Upper(s[k..]) && Upper(s)[..k] == Upper(s[..k])
  {}

  lemma UpperWord(s: string)
    ensures Word(Upper(s)) == Upper(Word(s)) && AfterWord(Upper(s)) == Upper(AfterWord(s))
  {
    hide Upper, Span;
    var k := Span(s, true);
    var t := s[k..];
    var n := Span(t, false);
    UpperSpan(s, true);
    UpperSlice(s, k);
    UpperSpan(t, false);
    UpperSlice(t, n);
    if n < |t| { UpperSlice(t, n + 1); }
    assert Upper("") == "";
  }

  lemma UpperAllCons(w: string, ts: seq<string>)
    ensures UpperAll([w] + ts) == [Upper(w)] + UpperAll(ts)
  {}

  /** Upper-casing a line upper-cases its tokens. */
  lemma {:induction false} UpperTokens(s: string)
    ensures Tokens(Upper(s)) == UpperAll(Tokens(s))
    decreases |s|
  {
    UpperWord(s);
    if Word(s) != "" {
      UpperTokens(AfterWord(s));
      UpperAllCons(Word(s), Tokens(AfterWord(s)));
    }
  }

  lemma Slices(a: string, pos: nat, i: nat, k: nat, end: nat)
    requires pos <= i <= k <= end <= |a|
    ensures a[pos..end][i - pos..] == a[i..end]
    ensures a[pos..end][i - pos..k - pos] == a[i..k]
    ensures k < end ==> a[pos..end][k - pos + 1..] == a[k + 1..end]
  {
    SliceOfSlice(a, pos, end, i - pos, end - pos);
    SliceOfSlice(a, pos, end, i - pos, k - pos);
    if k < end { SliceOfSlice(a, pos, end, k - pos + 1, end - pos); }
  }

  lemma SliceOfSlice(a: string, pos: nat, end: nat, x: nat, y: nat)
    requires pos <= end <= |a| && x <= y <= end - pos
    ensures a[pos..end][x..y] == a[pos + x..pos + y]
    ensures y == end - pos ==> a[pos..end][x..] == a[pos + x..end]
  {
    var t := a[pos..end];
    assert forall i :: 0 <= i < |t| ==> t[i] == a[pos + i];
    assert t[x..y] == a[pos + x..pos + y];
    assert t[x..] == t[x..|t|];
  }

  lemma NoTokens()
    ensures Tokens("") == []
  {}

  /** The first token lies between the end of the leading spaces and the end of the word. */
  lemma NextToken(text: string, i: nat, k: nat)
    requires i == Span(text, true) && k == i + Span(text[i..], false)
    ensures Tokens(text) ==
      if i == k then [] else [text[i..k]] + Tokens(if k < |text| then text[k + 1..] else "")
  {
    assert text[i..][..k - i] == text[i..k] == Word(text);
    assert AfterWord(text) == if k < |text| then text[k + 1..] else "";
  }

  // ----- Numbers -----

  predicate IsDigit(c: char) { '0' <= c <= '9' }

  function DigitValue(c: char): nat {
    if '0' <= c <= '9' then c as nat - '0' as nat
    else if 'A' <= c <= 'Z' then c as nat - 'A' as nat + 10
    else if 'a' <= c <= 'z' then c as nat - 'a' as nat + 10
    else 99
  }

  /** The value of the longest prefix of digits, continuing from acc. */
  function Magnitude(s: string, radix: nat, acc: nat): nat
    decreases |s|
  {
    if s == "" || DigitValue(s[0]) >= radix then acc
    else Magnitude(s[1..], radix, acc * radix + DigitValue(s[0]))
  }

  function SkipBlanks(s: string): string
    decreases |s|
  {
    if s != "" && (s[0] == ' ' || 9 as char <= s[0] <= 13 as char) then SkipBlanks(s[1..]) else s
  }

  function SkipPrefix(s: string, radix: nat): string {
    if radix == 16 && |s| >= 2 && s[0] == '0' && (s[1] == 'x' || s[1] == 'X') then s[2..] else s
  }

  /** The C library's string-to-number conversion, without its overflow clamping. */
  function StrToNumber(s: string, radix: nat): int {
    var t := SkipBlanks(s);
    var neg := t != "" && t[0] == '-';
    var u := if t != "" && (t[0] == '-' || t[0] == '+') then t[1..] else t;
    var v: int := Magnitude(SkipPrefix(u, radix), radix, 0);
    if neg then -v else v
  }

  function Wrap64(x: int): nat { x % 0x1_0000_0000_0000_0000 }

  function Decimal(n: nat): string
    decreases n
  {
    if n < 10 then [('0' as int + n) as char] else Decimal(n / 10) + [('0' as int + n % 10) as char]
  }

  function HexDigit(n: nat): char
    requires n < 16
  {
    "0123456789ABCDEF"[n]
  }

  /** The two digits of "%02X". */
  function Hex2(b: byte): string { [HexDigit((b >> 4) as nat), HexDigit((b & 0x0F) as nat)] }

  // ----- C strings in buffers -----

  /** The string in a buffer: everything before the first NUL. */
  function CString(a: seq<char>): (s: string)
    ensures |s| <= |a| && s == a[..|s|] && '\0' !in s
    ensures |s| < |a| ==> a[|s|] == '\0'
  {
    if a == [] || a[0] == '\0' then "" else [a[0]] + CString(a[1..])
  }

  lemma {:induction false} CStringIs(a: seq<char>, n: nat)
    requires n < |a| && a[n] == '\0' && '\0' !in a[..n]
    ensures CString(a) == a[..n]
  {
    if n > 0 {
      assert a[..n] == [a[0]] + a[1..][..n - 1];
      CStringIs(a[1..], n - 1);
    }
  }

  method StrUpper(buf: array<char>)
    requires '\0' in buf[..]
    modifies buf
    ensures '\0' in buf[..]
    ensures CString(buf[..]) == Upper(CString(old(buf[..])))
  {
    ghost var was := buf[..];
    ghost var n := |CString(was)|;
    assert n < |was|;
    var p := 0;
    while buf[p] != '\0'
      invariant 0 <= p <= n
      invariant forall i :: 0 <= i < p ==> buf[i] == UpperChar(was[i])
      invariant forall i :: p <= i < buf.Length ==> buf[i] == was[i]
      decreases n - p
    {
      assert was[p] != '\0';
      if 'a' <= buf[p] <= 'z' { buf[p] := UpperChar(buf[p]); }
      p := p + 1;
    }
    assert forall i :: 0 <= i < n ==> was[i] == CString(was)[i] != '\0';
    assert p == n;
    assert buf[..][..n] == Upper(CString(was));
    CStringIs(buf[..], n);
  }

  predicate NoNul(s: string) { '\0' !in s }

  lemma EmptyHasNoNul()
    ensures NoNul("")
  {}

  /** strtok with the delimiter " ": a cursor into the caller's buffer, which it cuts with NULs. */
  class StrTok {
    var buf: array<char>
    var pos: nat
    ghost var end: nat              // the NUL that ends the unread text
    ghost var rest: seq<string>     // the tokens still to be returned

    ghost predicate Valid()
      reads this, buf
    {
      && pos <= end < buf.Length && buf[end] == '\0' && NoNul(buf[pos..end])
      && rest == Tokens(buf[pos..end])
    }

    constructor ()
      ensures Valid() && fresh(buf) && rest == []
    {
      var b := new char[1](_ => '\0');
      buf := b;
      pos, end, rest := 0, 0, [];
      new;
      assert buf[0..0] == "";
    }

    /** The first call, which names the buffer. */
    method First(line: array<char>) returns (token: Option<string>)
      requires '\0' in line[..]
      modifies this, line
      ensures Valid() && buf == line
      ensures var tokens := Tokens(CString(old(line[..])));
        if tokens == [] then token == None && rest == [] else token == Some(tokens[0]) && rest == tokens[1..]
    {
      buf, pos := line, 0;
      end := |CString(line[..])|;
      rest := Tokens(line[0..end]);
      assert line[0..end] == CString(line[..]);
      token := Next();
    }

    /** A further call. */
    method Next() returns (token: Option<string>)
      requires Valid()
      modifies this, buf
      ensures Valid() && buf == old(buf)
      ensures if old(rest) == [] then token == None && rest == []
              else token == Some(old(rest)[0]) && rest == old(rest)[1..]
    {
      hide Tokens, NoNul;
      var i, k := Scan();
      if i == k {
        pos := i;
        assert buf[i..end] == "";
        NoTokens();
        EmptyHasNoNul();
        return None;
      }
      token := Some(buf[i..k]);
      rest := rest[1..];
      if buf[k] == '\0' {
        pos := k;
        assert buf[k..end] == "";
        EmptyHasNoNul();
      } else {
        ghost var left := buf[k + 1..end];
        buf[k] := '\0';
        pos := k + 1;
        assert buf[k + 1..end] == left;
      }
    }

    /** Where the next word begins and ends; at the same place if there is none. */
    method Scan() returns (i: nat, k: nat)
      requires Valid()
      ensures pos <= i <= k <= end && (i == k ==> i == end) && (k < end <==> buf[k] != '\0')
      ensures k < end ==> NoNul(buf[k + 1..end])
      ensures rest == if i == k then [] else [buf[i..k]] + Tokens(if k < end then buf[k + 1..end] else "")
    {
      hide Tokens, Span, Word, AfterWord, NoNul;
      ghost var text := buf[pos..end];
      i := SpanFrom(pos, true);
      k := SpanFrom(i, false);
      Slices(buf[..], pos, i, k, end);
      NextToken(text, i - pos, k - pos);
    }

    /** The end of the run of spaces (or of other characters) at i. */
    method SpanFrom(i: nat, spaces: bool) returns (k: nat)
      requires i <= end < buf.Length && buf[end] == '\0' && NoNul(buf[i..end])
      ensures i <= k <= end && k == i + Span(buf[i..end], spaces)
      ensures NoNul(buf[k..end]) && (k < end ==> buf[k] != '\0' && NoNul(buf[k + 1..end]))
    {
      ghost var text := buf[i..end];
      k := i;
      while buf[k] != '\0' && (buf[k] == ' ') == spaces
        invariant i <= k <= end
        invariant forall j :: 0 <= j < k - i ==> (text[j] == ' ') == spaces
        decreases end - k
      {
        assert buf[k] == text[k - i];
        k := k + 1;
      }
      assert k < end ==> buf[k] == text[k - i];
      SpanIs(text, spaces, k - i);
      assert buf[k..end] == text[k - i..];
      assert k < end ==> buf[k + 1..end] == text[k + 1 - i..];
    }
  }
}
