/** The transcript codec: how a conversation is written to a Markdown file
    (`formatMessagesToMarkdown` and the body loop of `saveChatHistoryToFile`)
    and read back (`parseMarkdownToChatHistory`). */
module Transcript {
  import opened Text

  datatype Role = User | Assistant

  /** A message's `time` (a JavaScript Date) as the time of day the host shows.
      `Invalid` is an Invalid Date. */
  datatype Stamp = At(hour: nat, minute: nat, second: nat) | Invalid

  /** One chat message. `images` is `None` when the message object has no
      `images` field at all, and `Some(list)` when it has one (even empty). */
  datatype Turn = Turn(role: Role, content: string, time: Stamp, images: Option<seq<string>>)

  predicate ValidStamp(t: Stamp) {
    t.At? && t.hour < 24 && t.minute < 60 && t.second < 60
  }

  /** The speaker marker: `你` for the user, `AI` for every other role. */
  function Marker(role: Role): string {
    if role == User then "你" else "AI"
  }

  /** `toLocaleTimeString()`, fixed to the H:MM:SS form. */
  function TimeText(t: Stamp): string {
    match t
    case At(h, m, s) => NatString(h) + ":" + Pad(m, 2) + ":" + Pad(s, 2)
    case Invalid => "Invalid Date"
  }

  function HeaderLine(t: Turn): string {
    "### " + Marker(t.role) + " (" + TimeText(t.time) + ")"
  }

  /** One block of the transcript: `### {speaker} ({time})\n\n{content}\n\n`. */
  function FormatTurn(t: Turn): string {
    HeaderLine(t) + "\n\n" + t.content + "\n\n"
  }

  /** `formatMessagesToMarkdown`: the blocks of all messages, in order. */
  function Format(turns: seq<Turn>): string {
    if |turns| == 0 then "" else FormatTurn(turns[0]) + Format(turns[1..])
  }

  /** The body loop of `saveChatHistoryToFile`, which appends one block per
      message with `content +=`. */
  method ArchiveContent(history: seq<Turn>) returns (content: string)
    ensures content == Format(history)
  {
    content := "";
    var i := 0;
    while i < |history|
      invariant 0 <= i <= |history|
      invariant content == Format(history[..i])
    {
      FormatSnoc(history[..i], history[i]);
      assert history[..i + 1] == history[..i] + [history[i]];
      content := content + FormatTurn(history[i]);
      i := i + 1;
    }
    assert history[..|history|] == history;
  }

  lemma {:induction false} FormatSnoc(turns: seq<Turn>, t: Turn)
    ensures Format(turns + [t]) == Format(turns) + FormatTurn(t)
    decreases |turns|
  {
    if |turns| == 0 {
      assert turns + [t] == [t];
      assert [t][1..] == [];
    } else {
      var ts := turns + [t];
      assert ts[1..] == turns[1..] + [t];
      FormatSnoc(turns[1..], t);
      AppendAssoc(FormatTurn(turns[0]), Format(turns[1..]), FormatTurn(t));
    }
  }

  // ---------------------------------------------------------------------------
  // Reading a transcript back
  // ---------------------------------------------------------------------------

  /** What the header pattern `^###\s*(你|AI)\s*\((\d{1,2}:\d{2}:\d{2})\)` captures. */
  datatype Header = Header(role: Role, hour: nat, minute: nat, second: nat)

  /** The end of the run of `\s` that starts at `i`. */
  function SkipSpaces(s: string, i: nat): (j: nat)
    requires i <= |s|
    ensures i <= j <= |s|
    decreases |s| - i
  {
    if i < |s| && IsSpace(s[i]) then SkipSpaces(s, i + 1) else i
  }

  /** `\d{2}:\d{2}\)` at the front of `r`, as (minute, second). */
  function MatchMinutesSeconds(r: string): Option<(nat, nat)>
  {
    if |r| >= 6 && IsDigit(r[0]) && IsDigit(r[1]) && r[2] == ':' && IsDigit(r[3]) && IsDigit(r[4]) && r[5] == ')'
    then Some((DecimalValue(r[..2]), DecimalValue(r[3..5])))
    else None
  }

  /** `\d{1,2}:\d{2}:\d{2}\)` at the front of `s`, as (hour, minute, second). */
  function MatchClock(s: string): Option<(nat, nat, nat)>
  {
    var n :=
      if |s| >= 2 && IsDigit(s[0]) && s[1] == ':' then 1
      else if |s| >= 3 && IsDigit(s[0]) && IsDigit(s[1]) && s[2] == ':' then 2
      else 0;
    if n == 0 then None
    else
      match MatchMinutesSeconds(s[n + 1..])
      case Some((m, sec)) => Some((DecimalValue(s[..n]), m, sec))
      case None => None
  }

  /** The speaker marker at position `i`, and where it ends. */
  function MatchMarker(s: string, i: nat): Option<(Role, nat)>
    requires i <= |s|
  {
    if i < |s| && s[i] == '你' then Some((User, i + 1))
    else if i + 2 <= |s| && s[i..i + 2] == "AI" then Some((Assistant, i + 2))
    else None
  }

  /** `line.match(/^###\s*(你|AI)\s*\((\d{1,2}:\d{2}:\d{2})\)/)`; whatever
      follows the closing parenthesis is ignored. */
  function MatchHeader(line: string): Option<Header>
  {
    if !StartsWith(line, "###") then None
    else
      match MatchMarker(line, SkipSpaces(line, 3))
      case None => None
      case Some((role, b)) =>
        var c := SkipSpaces(line, b);
        if c < |line| && line[c] == '(' then
          match MatchClock(line[c + 1..])
          case Some((h, m, s)) => Some(Header(role, h, m, s))
          case None => None
        else None
  }

  /** `new Date(`1970-01-01T${time}Z`)` read back as a time of day; ECMAScript
      accepts 24:00:00 as the end of the day and nothing else out of range. */
  function ParsedStamp(h: nat, m: nat, s: nat): Stamp {
    if h < 24 && m < 60 && s < 60 then At(h, m, s)
    else if h == 24 && m == 0 && s == 0 then At(0, 0, 0)
    else Invalid
  }

  function TurnOf(h: Header, body: seq<string>): Turn {
    Turn(h.role, Join(body), ParsedStamp(h.hour, h.minute, h.second), None)
  }

  /** The parser's loop variables: the messages so far, the current header
      (`currentRole` and `currentTime`) and `currentContent`. */
  datatype ParseState = ParseState(history: seq<Turn>, current: Option<Header>, body: seq<string>)

  const Start := ParseState([], None, [])

  /** "Save the previous message": only when a header was seen and at least
      one line followed it. */
  function Flushed(st: ParseState): seq<Turn> {
    if st.current.Some? && |st.body| > 0 then st.history + [TurnOf(st.current.value, st.body)]
    else st.history
  }

  /** One iteration of the line loop. */
  function Step(st: ParseState, line: string, header: string -> Option<Header>): ParseState {
    match header(line)
    case Some(h) => ParseState(Flushed(st), Some(h), [])
    case None => if st.current.Some? then st.(body := st.body + [line]) else st
  }

  function Run(st: ParseState, lines: seq<string>, header: string -> Option<Header>): ParseState
    decreases |lines|
  {
    if |lines| == 0 then st else Step(Run(st, lines[..|lines| - 1], header), lines[|lines| - 1], header)
  }

  /** The meaning of `parseMarkdownToChatHistory`. */
  function Parse(text: string): seq<Turn> {
    Flushed(Run(Start, Split(text), MatchHeader))
  }

  /** `parseMarkdownToChatHistory`, line loop and all. */
  method ParseMarkdownToChatHistory(content: string) returns (chatHistory: seq<Turn>)
    ensures chatHistory == Parse(content)
  {
    var lines := Split(content);
    chatHistory := [];
    var current: Option<Header> := None;
    var currentContent: seq<string> := [];
    var i := 0;
    while i < |lines|
      invariant 0 <= i <= |lines|
      invariant Run(Start, lines[..i], MatchHeader) == ParseState(chatHistory, current, currentContent)
    {
      var line := lines[i];
      var roleMatch := MatchHeader(line);
      if roleMatch.Some? {
        if current.Some? && |currentContent| > 0 {
          chatHistory := chatHistory + [TurnOf(current.value, currentContent)];
        }
        current := roleMatch;
        currentContent := [];
      } else if current.Some? {
        currentContent := currentContent + [line];
      }
      assert lines[..i + 1][..i] == lines[..i];
      i := i + 1;
    }
    assert lines[..|lines|] == lines;
    if current.Some? && |currentContent| > 0 {
      chatHistory := chatHistory + [TurnOf(current.value, currentContent)];
    }
  }

  // ---------------------------------------------------------------------------
  // Facts about the line loop
  // ---------------------------------------------------------------------------

  lemma {:induction false} RunConcat(st: ParseState, a: seq<string>, b: seq<string>, header: string -> Option<Header>)
    ensures Run(st, a + b, header) == Run(Run(st, a, header), b, header)
    decreases |b|
  {
    if |b| == 0 {
      assert a + b == a;
    } else {
      assert (a + b)[..|a + b| - 1] == a + b[..|b| - 1];
      RunConcat(st, a, b[..|b| - 1], header);
    }
  }

  /** Lines that are not headers are appended to the current body. */
  lemma {:induction false} RunBody(st: ParseState, lines: seq<string>, header: string -> Option<Header>)
    requires st.current.Some?
    requires forall k :: 0 <= k < |lines| ==> header(lines[k]).None?
    ensures Run(st, lines, header) == st.(body := st.body + lines)
    decreases |lines|
  {
    if |lines| > 0 {
      var init := lines[..|lines| - 1];
      RunBody(st, init, header);
      assert st.body + init + [lines[|lines| - 1]] == st.body + lines;
    }
  }

  /** Before the first header, lines are dropped. */
  lemma {:induction false} RunIdle(lines: seq<string>, header: string -> Option<Header>)
    requires forall k :: 0 <= k < |lines| ==> header(lines[k]).None?
    ensures Run(Start, lines, header) == Start
    decreases |lines|
  {
    if |lines| > 0 {
      RunIdle(lines[..|lines| - 1], header);
    }
  }

  /** Lines before the first header are discarded. */
  lemma PreambleIgnored(preamble: string, rest: string)
    requires forall l :: l in Split(preamble) ==> MatchHeader(l).None?
    ensures Parse(preamble + "\n" + rest) == Parse(rest)
  {
    SplitConcat(preamble, rest);
    RunConcat(Start, Split(preamble), Split(rest), MatchHeader);
    var pre := Split(preamble);
    forall k | 0 <= k < |pre| ensures MatchHeader(pre[k]).None? {
      assert pre[k] in pre;
    }
    RunIdle(pre, MatchHeader);
  }

  /** A header directly followed by another header yields no message. */
  lemma HeaderWithoutBodyDropped(first: string, second: string)
    requires '\n' !in first && '\n' !in second
    requires MatchHeader(first).Some? && MatchHeader(second).Some?
    ensures Parse(first + "\n" + second) == []
  {
    SplitConcat(first, second);
    SplitNoNewline(first);
    SplitNoNewline(second);
    assert Split(first + "\n" + second) == [first, second];
    TwoHeaders(first, second, MatchHeader);
  }

  lemma TwoHeaders(first: string, second: string, header: string -> Option<Header>)
    requires header(first).Some? && header(second).Some?
    ensures Run(Start, [first, second], header) == ParseState([], header(second), [])
  {
    assert [first, second][..1] == [first];
    assert [first][..0] == [];
    assert Run(Start, [first], header) == ParseState([], header(first), []);
  }

  // ---------------------------------------------------------------------------
  // The header line is recognised
  // ---------------------------------------------------------------------------

  lemma MinutesSecondsFields(ms: string, ss: string, rest: string)
    requires AllDigits(ms) && AllDigits(ss) && |ms| == 2 && |ss| == 2
    ensures MatchMinutesSeconds(ms + (":" + (ss + (")" + rest)))) == Some((DecimalValue(ms), DecimalValue(ss)))
  {
    var z := ss + (")" + rest);
    var y := ":" + z;
    var r := ms + y;
    assert r[..2] == ms && r[2..] == y;
    assert y[0] == ':' && y[1..] == z;
    assert z[..2] == ss && z[2] == ')';
    assert r[3..] == z;
    assert r[3..5] == ss;
    assert IsDigit(ms[0]) && IsDigit(ms[1]) && IsDigit(ss[0]) && IsDigit(ss[1]);
  }

  /** The clock pattern at the front of `line`, given where its hour ends. */
  lemma ClockAt(line: string, n: nat)
    requires 1 <= n <= 2 && n < |line|
    requires AllDigits(line[..n]) && line[n] == ':'
    requires MatchMinutesSeconds(line[n + 1..]).Some?
    ensures MatchClock(line) == Some((DecimalValue(line[..n]),
      MatchMinutesSeconds(line[n + 1..]).value.0, MatchMinutesSeconds(line[n + 1..]).value.1))
  {
    assert IsDigit(line[..n][0]);
    if n == 2 {
      assert IsDigit(line[..n][1]);
    }
  }

  lemma TimeTextShape(h: nat, m: nat, s: nat, rest: string)
    requires h < 24 && m < 60 && s < 60
    ensures MatchClock(TimeText(At(h, m, s)) + ")" + rest) == Some((h, m, s))
  {
    var hs, ms, ss := NatString(h), Pad(m, 2), Pad(s, 2);
    var tail := ms + (":" + (ss + (")" + rest)));
    var line := TimeText(At(h, m, s)) + ")" + rest;
    assert line == hs + ":" + tail;
    var n := |hs|;
    assert Pow10(2) == 100;
    PadValue(m, 2);
    PadValue(s, 2);
    HourField(h);
    assert line[..n] == hs;
    assert line[n] == ':';
    assert line[n + 1..] == tail;
    MinutesSecondsFields(ms, ss, rest);
    ClockAt(line, n);
  }

  lemma HourField(h: nat)
    requires h < 24
    ensures 1 <= |NatString(h)| <= 2
    ensures AllDigits(NatString(h)) && DecimalValue(NatString(h)) == h
  {
    PadValue(h, DigitCount(h));
    assert h < 10 || DigitCount(h / 10) == 1;
  }

  /** The header a message's header line carries (an invalid time carries none). */
  function HeaderOf(t: Turn): Header {
    match t.time
    case At(h, m, s) => Header(t.role, h, m, s)
    case Invalid => Header(t.role, 0, 0, 0)
  }

  /** The header pattern read over `### {marker} (` and whatever follows. */
  lemma HeaderPrefix(line: string, role: Role, rest: string)
    requires line == "### " + Marker(role) + " (" + rest
    ensures MatchHeader(line) ==
      match MatchClock(rest)
      case Some((h, m, s)) => Some(Header(role, h, m, s))
      case None => None
  {
    var p := "### " + Marker(role) + " (";
    assert line[..|p|] == p && line[|p|..] == rest;
    assert StartsWith(line, "###") by { assert line[..3] == p[..3]; }
    assert line[3] == ' ';
    if role == User {
      assert p == "### 你 (";
      assert line[4] == '你' && line[5] == ' ' && line[6] == '(';
      assert SkipSpaces(line, 3) == 4;
      assert MatchMarker(line, 4) == Some((User, 5));
      assert SkipSpaces(line, 5) == 6;
    } else {
      assert p == "### AI (";
      assert line[4..6] == "AI" && line[6] == ' ' && line[7] == '(';
      assert SkipSpaces(line, 3) == 4;
      assert MatchMarker(line, 4) == Some((Assistant, 6));
      assert SkipSpaces(line, 6) == 7;
    }
  }

  /** A header line written by `Format` is recognised again, whatever follows
      its closing parenthesis. */
  lemma HeaderRecognised(t: Turn, suffix: string)
    requires ValidStamp(t.time)
    ensures MatchHeader(HeaderLine(t) + suffix) == Some(HeaderOf(t))
  {
    var rest := TimeText(t.time) + ")" + suffix;
    assert HeaderLine(t) + suffix == "### " + Marker(t.role) + " (" + rest;
    HeaderPrefix(HeaderLine(t) + suffix, t.role, rest);
    TimeTextShape(t.time.hour, t.time.minute, t.time.second, suffix);
  }

  lemma HeaderLineHasNoNewline(t: Turn)
    ensures '\n' !in HeaderLine(t)
  {
    assert '\n' !in TimeText(t.time) by {
      match t.time
      case At(h, m, s) =>
        PadDigits(h, DigitCount(h));
        PadDigits(m, 2);
        PadDigits(s, 2);
        DigitsHaveNoNewline(NatString(h));
        DigitsHaveNoNewline(Pad(m, 2));
        DigitsHaveNoNewline(Pad(s, 2));
      case Invalid =>
    }
    assert '\n' !in "### " + Marker(t.role) + " (";
  }

  lemma DigitsHaveNoNewline(s: string)
    requires AllDigits(s)
    ensures '\n' !in s
  {
    forall k | 0 <= k < |s| ensures s[k] != '\n' {
      assert IsDigit(s[k]);
    }
  }

  // ---------------------------------------------------------------------------
  // Round trip
  // ---------------------------------------------------------------------------

  /** A message that survives the round trip: a time the header pattern can
      carry, and no content line that reads as a header. */
  predicate Encodable(t: Turn) {
    ValidStamp(t.time) && forall l :: l in Split(t.content) ==> MatchHeader(l).None?
  }

  /** The lines one block splits into, up to the next block. */
  function Block(t: Turn): seq<string> {
    [HeaderLine(t), ""] + Split(t.content) + [""]
  }

  lemma FormatTurnLayout(t: Turn, f: string)
    ensures FormatTurn(t) + f == HeaderLine(t) + "\n" + ("" + "\n" + (t.content + "\n" + ("" + "\n" + f)))
  {
  }

  lemma Regroup<T>(a: T, b: T, xs: seq<T>, c: T, ys: seq<T>)
    ensures [a] + ([b] + (xs + ([c] + ys))) == [a, b] + xs + [c] + ys
  {
  }

  lemma SplitFormat(turns: seq<Turn>)
    requires |turns| > 0
    ensures Split(Format(turns)) == Block(turns[0]) + Split(Format(turns[1..]))
  {
    var t := turns[0];
    var f := Format(turns[1..]);
    var h := HeaderLine(t);
    var z := "" + "\n" + f;
    var y := t.content + "\n" + z;
    var x := "" + "\n" + y;
    var lc, lf := Split(t.content), Split(f);
    calc {
      Split(Format(turns));
      { FormatTurnLayout(t, f); }
      Split(h + "\n" + x);
      { SplitConcat(h, x); }
      Split(h) + Split(x);
      { HeaderLineHasNoNewline(t); SplitNoNewline(h); SplitConcat("", y); }
      [h] + ([""] + Split(y));
      { SplitConcat(t.content, z); SplitConcat("", f); }
      [h] + ([""] + (lc + ([""] + lf)));
      { Regroup(h, "", lc, "", lf); }
      [h, ""] + lc + [""] + lf;
      Block(t) + lf;
    }
  }

  lemma BodyLinesNotHeaders(t: Turn)
    requires Encodable(t)
    ensures forall k :: 0 <= k < |[""] + Split(t.content) + [""]| ==>
      MatchHeader(([""] + Split(t.content) + [""])[k]).None?
  {
    var lc := Split(t.content);
    var rest := [""] + lc + [""];
    forall k | 0 <= k < |rest| ensures MatchHeader(rest[k]).None? {
      if 0 < k < |rest| - 1 {
        assert rest[k] == lc[k - 1];
        assert lc[k - 1] in lc;
      } else {
        assert rest[k] == "";
      }
    }
  }

  /** A header line followed by lines that are not headers opens one message
      holding those lines. */
  lemma {:induction false} RunHeaderThenBody(st: ParseState, first: string, rest: seq<string>,
                                             header: string -> Option<Header>)
    requires header(first).Some?
    requires forall k :: 0 <= k < |rest| ==> header(rest[k]).None?
    ensures Run(st, [first] + rest, header) == ParseState(Flushed(st), header(first), rest)
  {
    var st0 := ParseState(Flushed(st), header(first), []);
    RunConcat(st, [first], rest, header);
    assert [first][..0] == [];
    assert Run(st, [first], header) == st0;
    RunBody(st0, rest, header);
    assert st0.body + rest == rest;
  }

  lemma RunBlock(st: ParseState, t: Turn)
    requires Encodable(t)
    ensures Run(st, Block(t), MatchHeader) == ParseState(Flushed(st), Some(HeaderOf(t)), [""] + Split(t.content) + [""])
  {
    var rest := [""] + Split(t.content) + [""];
    assert Block(t) == [HeaderLine(t)] + rest;
    HeaderRecognised(t, "");
    assert HeaderLine(t) + "" == HeaderLine(t);
    BodyLinesNotHeaders(t);
    RunHeaderThenBody(st, HeaderLine(t), rest, MatchHeader);
  }

  /** A message read back from a block that is followed by another block. */
  function Middle(t: Turn): Turn {
    Turn(t.role, "\n" + t.content + "\n", t.time, None)
  }

  /** The last message read back: the file's final newline adds one more line. */
  function Final(t: Turn): Turn {
    Turn(t.role, "\n" + t.content + "\n\n", t.time, None)
  }

  function Middles(turns: seq<Turn>): (r: seq<Turn>)
    ensures |r| == |turns|
  {
    seq(|turns|, i requires 0 <= i < |turns| => Middle(turns[i]))
  }

  lemma StampKept(t: Turn)
    requires ValidStamp(t.time)
    ensures ParsedStamp(HeaderOf(t).hour, HeaderOf(t).minute, HeaderOf(t).second) == t.time
    ensures HeaderOf(t).role == t.role
  {
  }

  lemma WrapJoin(c: seq<string>, extra: seq<string>)
    requires |c| >= 1 && |extra| >= 1
    ensures Join([""] + c + extra) == "\n" + Join(c) + "\n" + Join(extra)
  {
    var jc, je := Join(c), Join(extra);
    assert [""] + c + extra == [""] + (c + extra);
    JoinAppend([""], c + extra);
    JoinAppend(c, extra);
    assert Join([""]) == "";
    assert Join([""] + c + extra) == "" + "\n" + (jc + "\n" + je);
    assert "" + "\n" == "\n";
    AppendAssoc("\n", jc + "\n", je);
    AppendAssoc("\n", jc, "\n");
  }

  /** The lines of a content, wrapped in blank lines, join back to the content
      wrapped in newlines. */
  lemma WrappedJoin(content: string, extra: seq<string>)
    requires |extra| >= 1
    ensures Join([""] + Split(content) + extra) == "\n" + content + "\n" + Join(extra)
  {
    JoinSplit(content);
    WrapJoin(Split(content), extra);
  }

  lemma MiddleBody(t: Turn)
    requires ValidStamp(t.time)
    ensures TurnOf(HeaderOf(t), [""] + Split(t.content) + [""]) == Middle(t)
    ensures TurnOf(HeaderOf(t), [""] + Split(t.content) + ["", ""]) == Final(t)
  {
    StampKept(t);
    WrappedJoin(t.content, [""]);
    WrappedJoin(t.content, ["", ""]);
    assert Join(["", ""]) == "\n";
    assert "\n" + t.content + "\n" + "" == "\n" + t.content + "\n";
    AppendAssoc("\n" + t.content, "\n", "\n");
  }

  /** The first block of a transcript leaves its message open. */
  lemma RunFormatHead(st: ParseState, turns: seq<Turn>)
    requires |turns| > 0 && Encodable(turns[0])
    ensures Run(st, Split(Format(turns)), MatchHeader)
         == Run(ParseState(Flushed(st), Some(HeaderOf(turns[0])), [""] + Split(turns[0].content) + [""]),
                Split(Format(turns[1..])), MatchHeader)
  {
    var t := turns[0];
    var rest := Split(Format(turns[1..]));
    SplitFormat(turns);
    RunConcat(st, Block(t), rest, MatchHeader);
    RunBlock(st, t);
  }

  /** The file's final newline adds one empty line to the last message. */
  lemma RunFinalLine(st: ParseState, body: seq<string>)
    ensures Run(st, Split(Format([])), MatchHeader).history == st.history
    ensures st.current.Some? ==> Run(st, Split(Format([])), MatchHeader) == st.(body := st.body + [""])
  {
    assert Split(Format([])) == [""];
    assert [""][..0] == [];
    assert MatchHeader("").None?;
  }

  lemma MiddlesStep(turns: seq<Turn>)
    requires |turns| >= 2
    ensures Middles(turns[..|turns| - 1]) == [Middle(turns[0])] + Middles(turns[1..][..|turns| - 2])
  {
    var a, b := Middles(turns[..|turns| - 1]), [Middle(turns[0])] + Middles(turns[1..][..|turns| - 2]);
    forall i | 0 <= i < |a| ensures a[i] == b[i] {
      if i > 0 {
        assert turns[1..][..|turns| - 2][i - 1] == turns[i];
      }
    }
  }

  lemma {:induction false} RunFormat(st: ParseState, turns: seq<Turn>)
    requires |turns| > 0
    requires forall i :: 0 <= i < |turns| ==> Encodable(turns[i])
    ensures Run(st, Split(Format(turns)), MatchHeader) ==
      ParseState(Flushed(st) + Middles(turns[..|turns| - 1]), Some(HeaderOf(turns[|turns| - 1])),
                 [""] + Split(turns[|turns| - 1].content) + ["", ""])
    decreases |turns|
  {
    var t := turns[0];
    var n := |turns|;
    var body := [""] + Split(t.content) + [""];
    var st1 := ParseState(Flushed(st), Some(HeaderOf(t)), body);
    RunFormatHead(st, turns);
    if n == 1 {
      assert turns[1..] == [];
      RunFinalLine(st1, body);
      Regroup2([""], Split(t.content), "", "");
      assert Middles(turns[..0]) == [];
      assert Flushed(st) + [] == Flushed(st);
    } else {
      var tail := turns[1..];
      assert |tail| == n - 1 && tail[|tail| - 1] == turns[n - 1];
      RunFormat(st1, tail);
      MiddlesStep(turns);
      MiddleBody(t);
      assert Flushed(st1) == Flushed(st) + [Middle(t)];
      Regroup3(Flushed(st), Middle(t), Middles(tail[..n - 2]));
    }
  }

  lemma Regroup3<T>(xs: seq<T>, a: T, ys: seq<T>)
    ensures xs + [a] + ys == xs + ([a] + ys)
  {
  }

  lemma Regroup2<T>(xs: seq<T>, ys: seq<T>, a: T, b: T)
    ensures xs + ys + [a] + [b] == xs + ys + [a, b]
  {
  }

  /** Writing a conversation and reading it back gives the same number of
      messages with the same roles and times; each content comes back wrapped
      in the blank lines around it: one more newline on the last message. */
  lemma RoundTrip(turns: seq<Turn>)
    requires forall i :: 0 <= i < |turns| ==> Encodable(turns[i])
    ensures |Parse(Format(turns))| == |turns|
    ensures forall i :: 0 <= i < |turns| ==>
      Parse(Format(turns))[i] == (if i < |turns| - 1 then Middle(turns[i]) else Final(turns[i]))
  {
    if |turns| == 0 {
      assert Format(turns) == "";
      RunFinalLine(Start, []);
    } else {
      var n := |turns|;
      var last := turns[n - 1];
      var body := [""] + Split(last.content) + ["", ""];
      var ms := Middles(turns[..n - 1]);
      RunFormat(Start, turns);
      assert Flushed(Start) == [];
      assert [] + ms == ms;
      MiddleBody(last);
      var r := Parse(Format(turns));
      assert r == ms + [Final(last)];
      forall i | 0 <= i < n
        ensures r[i] == (if i < n - 1 then Middle(turns[i]) else Final(turns[i]))
      {
        if i < n - 1 {
          assert r[i] == ms[i];
        }
      }
    }
  }
}
