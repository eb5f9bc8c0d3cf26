/** The words of command lines, letter by letter: which first word runs which command, and what the names and numbers
    that may follow it stand for. */
module Words {
  import opened Common
  import opened Text
  import opened Codes
  import opened Frames
  import opened Commands

  // ----- The first word -----

  /** The text spells the word, which is in capitals, in capital or small letters. */
  predicate Spells(t: string, w: string) {
    |t| == |w| && forall i :: 0 <= i < |w| ==> t[i] == w[i] || ('A' <= w[i] <= 'Z' && t[i] as int == w[i] as int + 32)
  }

  predicate Capitals(w: string) { forall i :: 0 <= i < |w| ==> !('a' <= w[i] <= 'z') }

  lemma SpellsIsUpper(t: string, w: string)
    requires Capitals(w)
    ensures Spells(t, w) <==> Upper(t) == w
  {
    if Spells(t, w) {
      assert forall i :: 0 <= i < |t| ==> Upper(t)[i] == w[i];
    }
    if Upper(t) == w {
      assert forall i :: 0 <= i < |t| ==> UpperChar(t[i]) == w[i];
    }
  }

  /** The first word of the line is this one. */
  predicate Says(line: string, w: string) { Tokens(line) != [] && Spells(Tokens(line)[0], w) }

  lemma FirstWord(line: string)
    ensures LineTokens(line) == [] <==> Tokens(line) == []
    ensures Tokens(line) != [] ==> LineTokens(line)[0] == Upper(Tokens(line)[0])
  {
    UpperTokens(line);
  }

  /** A line that is the policy request begins with that word. */
  lemma PolicyWord(line: string)
    requires Upper(line) == "<POLICY-FILE-REQUEST/>"
    ensures LineTokens(line) == ["<POLICY-FILE-REQUEST/>"]
  {
    TokensOfWord("<POLICY-FILE-REQUEST/>");
  }

  lemma SaysIsFirst(line: string, w: string)
    requires Capitals(w)
    ensures Says(line, w) <==> LineTokens(line) != [] && LineTokens(line)[0] == w
  {
    FirstWord(line);
    if Tokens(line) != [] { SpellsIsUpper(Tokens(line)[0], w); }
  }

  /** A line runs the command that its first word spells. */
  lemma SaysRuns(line: string, w: string)
    requires Capitals(w) && w != "<POLICY-FILE-REQUEST/>" && Says(line, w)
    ensures LineTokens(line) != [] && LineTokens(line)[0] == w && LineCommand(line) == CommandOf(w)
  {
    hide LineTokens;
    SaysIsFirst(line, w);
    if Upper(line) == "<POLICY-FILE-REQUEST/>" { PolicyWord(line); }
  }

  lemma PowerAndRadioWords(line: string)
    ensures Says(line, "PL") ==> LineCommand(line) == PL
    ensures Says(line, "RF") ==> LineCommand(line) == RF
    ensures Says(line, "RFSEC") ==> LineCommand(line) == RFSEC
    ensures Says(line, "RFCAM") ==> LineCommand(line) == RFCAM
    ensures Says(line, "PT") ==> LineCommand(line) == PT
  {
    hide LineCommand, LineTokens, Says;
    if Says(line, "PL") { SaysRuns(line, "PL"); }
    if Says(line, "RF") { SaysRuns(line, "RF"); }
    if Says(line, "RFSEC") { SaysRuns(line, "RFSEC"); }
    if Says(line, "RFCAM") { SaysRuns(line, "RFCAM"); }
    if Says(line, "PT") { SaysRuns(line, "PT"); }
  }

  lemma SettingAndQueryWords(line: string)
    ensures Says(line, "RFTOPL") ==> LineCommand(line) == RFTOPL
    ensures Says(line, "RFTORF") ==> LineCommand(line) == RFTORF
    ensures Says(line, "ST") ==> LineCommand(line) == ST
    ensures Says(line, "GETSTATUS") ==> LineCommand(line) == GETSTATUS
    ensures Says(line, "GETSTATUSSEC") ==> LineCommand(line) == GETSTATUSSEC
  {
    hide LineCommand, LineTokens, Says;
    if Says(line, "RFTOPL") { SaysRuns(line, "RFTOPL"); }
    if Says(line, "RFTORF") { SaysRuns(line, "RFTORF"); }
    if Says(line, "ST") { SaysRuns(line, "ST"); }
    if Says(line, "GETSTATUS") { SaysRuns(line, "GETSTATUS"); }
    if Says(line, "GETSTATUSSEC") { SaysRuns(line, "GETSTATUSSEC"); }
  }

  /** The line begins with one of the ten command words. */
  predicate IsCommand(line: string) {
    || Says(line, "PL") || Says(line, "RF") || Says(line, "RFSEC") || Says(line, "RFCAM") || Says(line, "PT")
    || Says(line, "RFTOPL") || Says(line, "RFTORF") || Says(line, "ST") || Says(line, "GETSTATUS")
    || Says(line, "GETSTATUSSEC")
  }

  lemma NoCommandWord(line: string)
    requires !IsCommand(line)
    ensures LineCommand(line) in {Other, Policy}
  {
    hide LineTokens;
    SaysIsFirst(line, "PL");
    SaysIsFirst(line, "RF");
    SaysIsFirst(line, "RFSEC");
    SaysIsFirst(line, "RFCAM");
    SaysIsFirst(line, "PT");
    SaysIsFirst(line, "RFTOPL");
    SaysIsFirst(line, "RFTORF");
    SaysIsFirst(line, "ST");
    SaysIsFirst(line, "GETSTATUS");
    SaysIsFirst(line, "GETSTATUSSEC");
  }

  /** Any other line changes nothing, submits nothing and has no reply. */
  lemma OtherLinesDoNothing(cm19a: bool, st: St, line: string, clk: Clock)
    requires st.Valid() && !IsCommand(line)
    ensures Process(cm19a, st, line, clk) == Effect(st, [])
    ensures Answer(st, LineCommand(line), LineTokens(line)) == NoReply
  {
    hide LineTokens, LineCommand, IsCommand;
    NoCommandWord(line);
  }
}
