/** The hexadecimal printer of mochad.c, and its reader, the "PT" command. */
module HexDump {
  import opened Common
  import opened Text
  import opened Frames
  import opened Commands
  import Dup = DupFilter

  /** Two digits and a space for each byte. */
  function HexText(bytes: Frame): (s: string)
    ensures |s| == 3 * |bytes|
    decreases |bytes|
  {
    if bytes == [] then "" else HexText(bytes[..|bytes| - 1]) + Hex2(bytes[|bytes| - 1]) + " "
  }

  /** How many bytes fit an output buffer. */
  function Fitting(len: nat, outlen: nat): nat { if len > outlen / 3 then outlen / 3 else len }

  /** Prints as many bytes as fit; when that is none it prints nothing, not even the terminator. */
  method PrintHex(bytes: Frame, out: array<char>)
    requires 3 * Fitting(|bytes|, out.Length) < out.Length
    modifies out
    ensures var l := Fitting(|bytes|, out.Length);
      out[..] == if l == 0 then old(out[..]) else HexText(bytes[..l]) + "\0" + old(out[3 * l + 1..])
  {
    if |bytes| == 0 {
      return;
    }
    ghost var was := out[..];
    var l := Fitting(|bytes|, out.Length);
    var p := 0;
    for i := 0 to l
      invariant p == 3 * i
      invariant out[..p] == HexText(bytes[..i])
      invariant forall j :: (if i == 0 then 0 else p + 1) <= j < out.Length ==> out[j] == was[j]
      invariant i > 0 ==> out[p] == '\0'
    {
      assert bytes[..i + 1][..i] == bytes[..i];
      ghost var text := out[..p];
      var digits := Hex2(bytes[i]);
      out[p], out[p + 1], out[p + 2], out[p + 3] := digits[0], digits[1], ' ', '\0';
      p := p + 3;
      assert out[..p] == text + digits + " ";
    }
    assert l > 0 ==> out[..] == out[..p] + [out[p]] + out[p + 1..];
  }

  // ----- Reading the text back -----

  function Words(bytes: Frame): (ws: seq<string>)
    ensures |ws| == |bytes| && forall i :: 0 <= i < |bytes| ==> ws[i] == Hex2(bytes[i])
  {
    seq(|bytes|, i requires 0 <= i < |bytes| => Hex2(bytes[i]))
  }

  lemma HexDigitValue(n: nat)
    requires n < 16
    ensures DigitValue(HexDigit(n)) == n && HexDigit(n) != ' ' && HexDigit(n) != 'x' && HexDigit(n) != 'X'
    ensures HexDigit(n) != '-' && HexDigit(n) != '+' && UpperChar(HexDigit(n)) == HexDigit(n)
    ensures !(9 as char <= HexDigit(n) <= 13 as char)
  {}

  lemma TwoDigits(a: char, b: char)
    requires DigitValue(a) < 16 && DigitValue(b) < 16
    requires a != ' ' && a != '-' && a != '+' && !(9 as char <= a <= 13 as char) && b != 'x' && b != 'X'
    ensures StrToNumber([a, b], 16) == 16 * DigitValue(a) + DigitValue(b)
  {
    assert [a, b][1..] == [b] && [b][1..] == "";
    assert Magnitude([b], 16, DigitValue(a)) == 16 * DigitValue(a) + DigitValue(b);
  }

  lemma SplitByte(b: byte)
    ensures (b >> 4) < 16 && (b & 0x0F) < 16
    ensures b as int == 16 * (b >> 4) as int + (b & 0x0F) as int
  {
    assert b == ((b >> 4) << 4) | (b & 0x0F);
    NibbleSum(b >> 4, b & 0x0F);
  }

  lemma HexNumber(b: byte)
    ensures StrToNumber(Hex2(b), 16) == b as int
  {
    SplitByte(b);
    HexDigitValue((b >> 4) as nat);
    HexDigitValue((b & 0x0F) as nat);
    TwoDigits(HexDigit((b >> 4) as nat), HexDigit((b & 0x0F) as nat));
  }

  /** The two printed digits of a byte are read back as that byte. */
  lemma HexRoundTrip(b: byte)
    ensures HexByte(Hex2(b)) == b
  {
    hide LowByte, StrToNumber, Hex2;
    HexNumber(b);
    LowByteValue(StrToNumber(Hex2(b), 16));
    ByteInRange(b);
    SameByte(HexByte(Hex2(b)), b);
  }

  lemma ByteInRange(b: byte)
    ensures 0 <= b as int < 256 && b as int % 256 == b as int
  {}

  lemma HexWord(b: byte)
    ensures IsWord(Hex2(b)) && Upper(Hex2(b)) == Hex2(b)
  {
    HexDigitValue((b >> 4) as nat);
    HexDigitValue((b & 0x0F) as nat);
  }

  lemma {:induction false} HexTokens(bytes: Frame)
    ensures Tokens(HexText(bytes)) == Words(bytes)
    decreases |bytes|
  {
    hide Hex2, Tokens;
    if bytes == [] {
      NoTokens();
    } else {
      HexTokens(bytes[1..]);
      HexTokensStep(bytes);
    }
  }

  lemma HexTokensStep(bytes: Frame)
    requires bytes != [] && Tokens(HexText(bytes[1..])) == Words(bytes[1..])
    ensures Tokens(HexText(bytes)) == Words(bytes)
  {
    hide HexText, Hex2, Tokens;
    HexTextFirst(bytes);
    HexWord(bytes[0]);
    TokensCons(Hex2(bytes[0]), HexText(bytes[1..]));
    assert Words(bytes) == [Hex2(bytes[0])] + Words(bytes[1..]);
  }

  lemma {:induction false} HexIsUpper(bytes: Frame)
    ensures Upper(HexText(bytes)) == HexText(bytes)
    decreases |bytes|
  {
    if bytes != [] {
      var n := |bytes| - 1;
      HexWord(bytes[n]);
      HexIsUpper(bytes[..n]);
      UpperConcat(HexText(bytes[..n]) + Hex2(bytes[n]), " ");
      UpperConcat(HexText(bytes[..n]), Hex2(bytes[n]));
    }
  }

  lemma UpperConcat(s: string, t: string)
    ensures Upper(s + t) == Upper(s) + Upper(t)
  {}

  lemma {:induction false} HexTextFirst(bytes: Frame)
    requires bytes != []
    ensures HexText(bytes) == Hex2(bytes[0]) + " " + HexText(bytes[1..])
    decreases |bytes|
  {
    var n := |bytes| - 1;
    if n == 0 {
      assert bytes[..0] == [] && bytes[1..] == [];
      assert HexText(bytes) == "" + Hex2(bytes[0]) + " ";
    } else {
      HexTextFirst(bytes[..n]);
      assert bytes[..n][1..] == bytes[1..][..n - 1];
      var w := Hex2(bytes[0]) + " ";
      assert w + HexText(bytes[..n][1..]) + Hex2(bytes[n]) + " " == w + (HexText(bytes[..n][1..]) + Hex2(bytes[n]) + " ");
    }
  }

  lemma {:induction false} WordsConvert(bytes: Frame, n: nat)
    requires |bytes| <= n
    ensures Convert(HexByte, Words(bytes), n) == bytes
    decreases |bytes|
  {
    if bytes != [] {
      HexRoundTrip(bytes[0]);
      WordsConvert(bytes[1..], n - 1);
      assert Words(bytes)[1..] == Words(bytes[1..]);
    }
  }

  /** "PT" followed by the printed form of one to eight bytes submits exactly those bytes. */
  lemma PrintedBytesPassThrough(cm19a: bool, st: St, bytes: Frame, clk: Clock)
    requires 1 <= |bytes| <= 8 && |st.dups| == Dup.SLOTS
    ensures Process(cm19a, st, "PT " + HexText(bytes), clk) == Effect(st, [bytes])
  {
    hide HexByte, Words, HexText, Process, Convert, Tokens;
    var line := "PT " + HexText(bytes);
    HexTokens(bytes);
    HexIsUpper(bytes);
    UpperConcat("PT ", HexText(bytes));
    assert Upper("PT ") == "PT ";
    assert line == "PT" + " " + HexText(bytes);
    TokensCons("PT", HexText(bytes));
    WordsConvert(bytes, 8);
    PtRuns(cm19a, st, line, bytes, clk);
  }

  lemma PtRuns(cm19a: bool, st: St, line: string, bytes: Frame, clk: Clock)
    requires |st.dups| == Dup.SLOTS && LineTokens(line) == ["PT"] + Words(bytes) && bytes != []
    requires line != "" && line[0] == 'P' && Convert(HexByte, Words(bytes), 8) == bytes
    ensures Process(cm19a, st, line, clk) == Effect(st, [bytes])
  {
    hide HexByte, Words, LineTokens;
    var ts := LineTokens(line);
    assert Upper(line)[0] == 'P';
    assert LineCommand(line) == PT;
    assert ts[1..] == Words(bytes);
  }
}
