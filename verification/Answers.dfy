/** Who is answered what: the replies of the whole gateway, over every run. */
module Answers {
  import opened Common
  import opened Text
  import opened DeviceState
  import opened Commands
  import opened Words
  import opened System
  import SensorRuns
  import Sensors
  import SensorMeaning
  import StatusRow
  import Codes

  // ----- Every reply -----

  /** The reply r is the answer to the line that byte i of a chunk ends, in the state before that byte, and goes to the
      client that sent the byte. */
  ghost predicate AnsweredAt(cm19a: bool, s: Sys, bytes: seq<Input1>, i: nat, r: (int, Reply))
    requires s.st.Valid() && i < |bytes|
  {
    var s' := Step(cm19a, s, Bytes(bytes[..i]));
    && EndsLine(bytes[i].c) && s'.pending != ""
    && r.1 != NoReply
    && r == (bytes[i].fd, ReplyTo(s'.st, s'.pending))
  }

  lemma OneByteReplies(cm19a: bool, s: Sys, b: Input1)
    requires s.st.Valid()
    ensures Step(cm19a, s, Bytes([b])).replies
         == s.replies + if EndsLine(b.c) && s.pending != "" then Sent(b.fd, ReplyTo(s.st, s.pending)) else []
  {
    hide Step, Process, ReplyTo;
    StepOneByte(cm19a, s, b);
    assert s.replies + [] == s.replies;
  }

  lemma AnsweredStays(cm19a: bool, s: Sys, init: seq<Input1>, b: Input1, i: nat, r: (int, Reply))
    requires s.st.Valid() && i < |init| && AnsweredAt(cm19a, s, init, i, r)
    ensures AnsweredAt(cm19a, s, init + [b], i, r)
  {
    hide Step, ReplyTo;
    assert (init + [b])[..i] == init[..i];
  }

  lemma LastByteAnswers(cm19a: bool, s: Sys, init: seq<Input1>, b: Input1)
    requires s.st.Valid()
    ensures var before, replies := Step(cm19a, s, Bytes(init)).replies, Step(cm19a, s, Bytes(init + [b])).replies;
      replies == before || exists r :: replies == before + [r] && AnsweredAt(cm19a, s, init + [b], |init|, r)
  {
    hide Step, ReplyTo;
    TwoChunks(cm19a, s, init, [b]);
    OneByteReplies(cm19a, Step(cm19a, s, Bytes(init)), b);
    assert (init + [b])[..|init|] == init;
    var s1 := Step(cm19a, s, Bytes(init));
    var r := (b.fd, ReplyTo(s1.st, s1.pending));
    assert s1.replies + [] == s1.replies;
    if EndsLine(b.c) && s1.pending != "" && r.1 != NoReply {
      assert AnsweredAt(cm19a, s, init + [b], |init|, r);
    }
  }

  ghost predicate Answered(cm19a: bool, s: Sys, bytes: seq<Input1>, r: (int, Reply))
    requires s.st.Valid()
  {
    exists i :: 0 <= i < |bytes| && AnsweredAt(cm19a, s, bytes, i, r)
  }

  /** From reply number n on, each reply answers the client whose byte ended the line. */
  ghost predicate AllAnswered(cm19a: bool, s: Sys, bytes: seq<Input1>, n: nat, replies: seq<(int, Reply)>)
    requires s.st.Valid()
  {
    forall j :: n <= j < |replies| ==> Answered(cm19a, s, bytes, replies[j])
  }

  lemma AllAnsweredStep(cm19a: bool, s: Sys, init: seq<Input1>, b: Input1, n: nat, before: seq<(int, Reply)>, replies: seq<(int, Reply)>)
    requires s.st.Valid() && AllAnswered(cm19a, s, init, n, before)
    requires replies == before || exists r :: replies == before + [r] && AnsweredAt(cm19a, s, init + [b], |init|, r)
    ensures AllAnswered(cm19a, s, init + [b], n, replies)
  {
    hide Step, ReplyTo;
    forall j | n <= j < |replies|
      ensures Answered(cm19a, s, init + [b], replies[j])
    {
      if j < |before| {
        assert Answered(cm19a, s, init, before[j]);
        var i :| 0 <= i < |init| && AnsweredAt(cm19a, s, init, i, before[j]);
        AnsweredStays(cm19a, s, init, b, i, before[j]);
        assert AnsweredAt(cm19a, s, init + [b], i, replies[j]);
      } else {
        assert AnsweredAt(cm19a, s, init + [b], |init|, replies[j]);
      }
    }
  }

  /** Replies are never withdrawn or reordered, and every new one answers the client whose byte ended the line. */
  lemma {:induction false} RepliesGoToAskers(cm19a: bool, s: Sys, bytes: seq<Input1>)
    requires s.st.Valid()
    ensures s.replies <= Step(cm19a, s, Bytes(bytes)).replies
    ensures AllAnswered(cm19a, s, bytes, |s.replies|, Step(cm19a, s, Bytes(bytes)).replies)
    decreases |bytes|
  {
    hide Step, AnsweredAt;
    if bytes == [] {
      NoBytes(cm19a, s);
    } else {
      var n := |bytes| - 1;
      assert bytes == bytes[..n] + [bytes[n]];
      RepliesGoToAskers(cm19a, s, bytes[..n]);
      LastByteAnswers(cm19a, s, bytes[..n], bytes[n]);
      AllAnsweredStep(cm19a, s, bytes[..n], bytes[n], |s.replies|, Step(cm19a, s, Bytes(bytes[..n])).replies,
                      Step(cm19a, s, Bytes(bytes)).replies);
    }
  }

  lemma NoBytes(cm19a: bool, s: Sys)
    requires s.st.Valid()
    ensures Step(cm19a, s, Bytes([])) == s
  {}

  /** Packets and timeouts send no reply. */
  lemma OnlyLinesAreAnswered(cm19a: bool, s: Sys, input: Input)
    requires s.st.Valid() && input.Valid() && !input.Bytes?
    ensures Step(cm19a, s, input).replies == s.replies
  {}

  // ----- The answers to queries, in every run -----

  /** The run, and one more byte that ends the unfinished line. */
  lemma LastByteAnswered(cm19a: bool, inputs: seq<Input>, b: Input1)
    requires ValidInputs(inputs) && EndsLine(b.c) && After(cm19a, inputs).pending != ""
    ensures ValidInputs(inputs + [Bytes([b])])
    ensures var s := After(cm19a, inputs);
      After(cm19a, inputs + [Bytes([b])]).replies == s.replies + Sent(b.fd, ReplyTo(s.st, s.pending))
  {
    hide Step, ReplyTo;
    AfterOneMore(cm19a, inputs, Bytes([b]));
    OneByteReplies(cm19a, After(cm19a, inputs), b);
  }

  /** The unfinished line asks for the status of a unit. */
  ghost predicate AsksStatus(pending: string, h: nat, u: nat) {
    && Says(pending, "GETSTATUS")
    && ParseAddr(Arg(LineTokens(pending), 1)) == (h as int, u as int)
  }

  lemma AskedUnitInRange(pending: string, h: nat, u: nat)
    requires AsksStatus(pending, h, u)
    ensures h < 16 && u < 16 && pending != "" && LineCommand(pending) == GETSTATUS
  {
    hide LineCommand, LineTokens, ParseAddr;
    SettingAndQueryWords(pending);
    SomethingSaid(pending, "GETSTATUS");
  }

  lemma SomethingSaid(line: string, w: string)
    requires Says(line, w)
    ensures line != ""
  {
    if line == "" { NoTokens(); }
  }

  /** Event i is the last that touched the unit, and it switched the unit on. */
  ghost predicate LeftOn(hist: seq<Event>, h: nat, u: nat) {
    exists i :: 0 <= i < |hist| && LastTouch(hist, i, h, u) && Written(hist[i]).0 == On
  }

  /** The last touching event among the first n, if there is one. */
  lemma {:induction false} LastTouchExists(hist: seq<Event>, n: nat, h: nat, u: nat) returns (i: int)
    requires n <= |hist| && forall j :: n <= j < |hist| ==> !Touches(hist, j, h, u)
    ensures i == -1 || (0 <= i < n && LastTouch(hist, i, h, u))
    ensures i == -1 ==> forall j :: 0 <= j < |hist| ==> !Touches(hist, j, h, u)
  {
    if n == 0 {
      i := -1;
    } else if Touches(hist, n - 1, h, u) {
      i := n - 1;
    } else {
      i := LastTouchExists(hist, n - 1, h, u);
    }
  }

  lemma ShownOnIff(hist: seq<Event>, h: nat, u: nat)
    requires ValidHistory(hist) && h < 16 && u < 16
    ensures Shown(hist, h, u).0 == On <==> LeftOn(hist, h, u)
  {
    hide Shown, Touches, RowsAfter;
    var i := LastTouchExists(hist, |hist|, h, u);
    if i == -1 {
      StatusUntouched(hist, h, u);
    } else {
      StatusOfLastTouch(hist, i, h, u);
      forall j | 0 <= j < |hist| && LastTouch(hist, j, h, u)
        ensures j == i
      {}
    }
  }

  /** GETSTATUS: exactly one reply, to the client that ended the line; it says "on" iff the last event that touched the
      unit, in the whole run, switched it on. */
  lemma StatusAnswered(cm19a: bool, inputs: seq<Input>, b: Input1, h: nat, u: nat)
    requires ValidInputs(inputs) && EndsLine(b.c)
    requires AsksStatus(After(cm19a, inputs).pending, h, u) && |LineTokens(After(cm19a, inputs).pending)| == 2
    ensures ValidInputs(inputs + [Bytes([b])])
    ensures var s := After(cm19a, inputs);
      After(cm19a, inputs + [Bytes([b])]).replies == s.replies + [(b.fd, IsOn(LeftOn(s.st.history, h, u)))]
  {
    hide After, LeftOn, Shown, LineTokens, LineCommand, ParseAddr;
    var s := After(cm19a, inputs);
    AskedUnitInRange(s.pending, h, u);
    ShownOnIff(s.st.history, h, u);
    LastByteAnswered(cm19a, inputs, b);
  }

  /** GETSTATUS with XDIM: the dim level written by the last event that touched the unit. */
  lemma DimAnswered(cm19a: bool, inputs: seq<Input>, b: Input1, h: nat, u: nat, i: nat)
    requires ValidInputs(inputs) && EndsLine(b.c)
    requires AsksStatus(After(cm19a, inputs).pending, h, u)
    requires Arg(LineTokens(After(cm19a, inputs).pending), 2) == Some("XDIM")
    requires i < |After(cm19a, inputs).st.history| && LastTouch(After(cm19a, inputs).st.history, i, h, u)
    ensures ValidInputs(inputs + [Bytes([b])])
    ensures var s := After(cm19a, inputs);
      After(cm19a, inputs + [Bytes([b])]).replies == s.replies + [(b.fd, Level(Written(s.st.history[i]).1))]
  {
    hide After, Shown, LastTouch, LineTokens, LineCommand, ParseAddr;
    var s := After(cm19a, inputs);
    AskedUnitInRange(s.pending, h, u);
    StatusOfLastTouch(s.st.history, i, h, u);
    LastByteAnswered(cm19a, inputs, b);
  }

  /** GETSTATUS with any other third word: the reply is -1. */
  lemma OtherQueryAnswered(cm19a: bool, inputs: seq<Input>, b: Input1, h: nat, u: nat)
    requires ValidInputs(inputs) && EndsLine(b.c)
    requires AsksStatus(After(cm19a, inputs).pending, h, u) && |LineTokens(After(cm19a, inputs).pending)| > 2
    requires LineTokens(After(cm19a, inputs).pending)[2] != "XDIM"
    ensures ValidInputs(inputs + [Bytes([b])])
    ensures After(cm19a, inputs + [Bytes([b])]).replies == After(cm19a, inputs).replies + [(b.fd, MinusOne)]
  {
    hide After, Shown, LineTokens, LineCommand, ParseAddr;
    AskedUnitInRange(After(cm19a, inputs).pending, h, u);
    LastByteAnswered(cm19a, inputs, b);
  }

  /** A query that names no unit, or no sensor, has no reply. */
  lemma UnnamedNotAnswered(cm19a: bool, inputs: seq<Input>, b: Input1)
    requires ValidInputs(inputs) && EndsLine(b.c)
    requires var line := After(cm19a, inputs).pending;
      || (Says(line, "GETSTATUS") && ParseAddr(Arg(LineTokens(line), 1)).1 < 0)
      || (Says(line, "GETSTATUSSEC") && |LineTokens(line)| == 1)
    ensures ValidInputs(inputs + [Bytes([b])])
    ensures After(cm19a, inputs + [Bytes([b])]).replies == After(cm19a, inputs).replies
  {
    hide After, Shown, LineTokens, LineCommand, ParseAddr, Says;
    var line := After(cm19a, inputs).pending;
    SettingAndQueryWords(line);
    SomethingSaid(line, if Says(line, "GETSTATUS") then "GETSTATUS" else "GETSTATUSSEC");
    LastByteAnswered(cm19a, inputs, b);
    assert After(cm19a, inputs).replies + [] == After(cm19a, inputs).replies;
  }

  /** GETSTATUSSEC: exactly one reply, to the client that ended the line. It says "on" iff the address was first heard as
      the kind that is asked and the last event of the address, in the whole run since the last reset, carries the key of
      an alert. */
  lemma SensorAnswered(cm19a: bool, inputs: seq<Input>, b: Input1)
    requires ValidInputs(inputs) && EndsLine(b.c) && Says(After(cm19a, inputs).pending, "GETSTATUSSEC")
    requires |LineTokens(After(cm19a, inputs).pending)| >= 2
    ensures ValidInputs(inputs + [Bytes([b])])
    ensures var s := After(cm19a, inputs);
      var (rf8, addr) := ParseRfAddr(LineTokens(s.pending)[1]);
      After(cm19a, inputs + [Bytes([b])]).replies
        == s.replies + [(b.fd, IsOn(SensorMeaning.Alerts(SensorRuns.SensorSteps(cm19a, inputs), rf8, addr)))]
  {
    hide After, SensorRuns.SensorSteps, Sensors.MapAfter, Sensors.MapStatus, Sensors.Table, LineTokens, LineCommand, ParseRfAddr;
    hide SensorMeaning.Alerts, Says;
    var s := After(cm19a, inputs);
    SettingAndQueryWords(s.pending);
    SomethingSaid(s.pending, "GETSTATUSSEC");
    SensorRuns.SensorTableIsMap(cm19a, inputs);
    var (rf8, addr) := ParseRfAddr(LineTokens(s.pending)[1]);
    SensorMeaning.AnswersAlerts(SensorRuns.SensorSteps(cm19a, inputs), rf8, addr);
    LastByteAnswered(cm19a, inputs, b);
  }

  /** ST: the rows go to the client that ended the line, and the web page made of the row of house h shows for unit u
      what the last event that touched the unit wrote. */
  lemma PageAnswered(cm19a: bool, inputs: seq<Input>, b: Input1, h: nat, u: nat, i: nat, date: string, time: string)
    requires ValidInputs(inputs) && EndsLine(b.c) && Says(After(cm19a, inputs).pending, "ST")
    requires Arg(LineTokens(After(cm19a, inputs).pending), 1) != Some("0")
    requires h < 16 && u < 16 && IsWord(date) && IsWord(time)
    requires i < |After(cm19a, inputs).st.history| && LastTouch(After(cm19a, inputs).st.history, i, h, u)
    requires After(cm19a, inputs).st.history[i] != Reset
    ensures ValidInputs(inputs + [Bytes([b])])
    ensures var s := After(cm19a, inputs);
      var rows := StatusRow.DeviceRows(s.st.history);
      var line := date + " " + time + " " + rows[h];
      && After(cm19a, inputs + [Bytes([b])]).replies == s.replies + [(b.fd, Rows(rows))]
      && StatusRow.HouseOf(line) == [Codes.HouseChar(h)]
      && StatusRow.MarkAll(StatusRow.Blank(), StatusRow.UnitFields(line))[u + 1]
         == if Written(s.st.history[i]).0 == On then '*' else '-'
  {
    hide After, StatusRow.HouseOf, StatusRow.UnitFields, StatusRow.MarkAll, StatusRow.Blank, LastTouch, LineTokens, LineCommand;
    hide StatusRow.RowText, StatusRow.StateOf, Says;
    var s := After(cm19a, inputs);
    SettingAndQueryWords(s.pending);
    SomethingSaid(s.pending, "ST");
    StatusRow.PageShowsLastTouch(date, time, s.st.history, i, h, u);
    LastByteAnswered(cm19a, inputs, b);
  }
}
