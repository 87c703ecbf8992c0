/**
 The event-stream reader of website/lib/api.ts: text arrives in arbitrary pieces, line endings are
 normalised read by read, frames end at a blank line, and each frame is dispatched to handlers.
 The wire format is the one of section 9.2.6 of the HTML Living Standard.
 */
module SseClient {
  import opened Common

  /******* Line endings *******/

  /** replace(/\r\n/g, "\n") */
  function ReplaceCrLf(s: string): (r: string)
    ensures s == "" <==> r == ""
    decreases |s|
  {
    if s == "" then ""
    else if |s| >= 2 && s[0] == '\r' && s[1] == '\n' then ['\n'] + ReplaceCrLf(s[2..])
    else [s[0]] + ReplaceCrLf(s[1..])
  }

  /** replace(/\r/g, "\n") */
  function ReplaceCr(s: string): (r: string)
    ensures |r| == |s|
  {
    seq(|s|, i requires 0 <= i < |s| => if s[i] == '\r' then '\n' else s[i])
  }

  function Normalize(s: string): string { ReplaceCr(ReplaceCrLf(s)) }

  /** A carriage return ends `a` and its line feed begins `b`. */
  predicate CutsPair(a: string, b: string) {
    a != "" && b != "" && a[|a| - 1] == '\r' && b[0] == '\n'
  }

  lemma PairUnfolds(s: string)
    requires s != ""
    ensures ReplaceCrLf(s) ==
      if |s| >= 2 && s[0] == '\r' && s[1] == '\n' then ['\n'] + ReplaceCrLf(s[2..]) else [s[0]] + ReplaceCrLf(s[1..])
  {
  }

  lemma {:induction false} ReplaceCrLfAppend(a: string, b: string)
    ensures !CutsPair(a, b) ==> ReplaceCrLf(a + b) == ReplaceCrLf(a) + ReplaceCrLf(b)
    ensures CutsPair(a, b) ==> |ReplaceCrLf(a + b)| == |ReplaceCrLf(a)| + |ReplaceCrLf(b)| - 1
    decreases |a|
  {
    hide ReplaceCrLf;
    var s := a + b;
    if a == "" {
      assert s == b;
      NothingToReplace();
    } else {
      PairUnfolds(a);
      PairUnfolds(s);
      if |a| >= 2 && a[0] == '\r' && a[1] == '\n' {
        assert s[2..] == a[2..] + b;
        ReplaceCrLfAppend(a[2..], b);
      } else if |a| == 1 && CutsPair(a, b) {
        assert s[2..] == b[1..];
        PairUnfolds(b);
        NothingToReplace();
        assert a[1..] == "";
      } else {
        assert s[1..] == a[1..] + b;
        ReplaceCrLfAppend(a[1..], b);
      }
    }
  }

  lemma NothingToReplace()
    ensures ReplaceCrLf("") == ""
  {
  }

  /** Normalising read by read agrees with normalising the whole exactly when no CR LF pair is cut. */
  lemma NormalizeAppendExact(a: string, b: string)
    ensures Normalize(a + b) == Normalize(a) + Normalize(b) <==> !CutsPair(a, b)
    ensures |Normalize(a + b)| == |Normalize(a)| + |Normalize(b)| - if CutsPair(a, b) then 1 else 0
  {
    ReplaceCrLfAppend(a, b);
    var x, y := ReplaceCrLf(a), ReplaceCrLf(b);
    assert ReplaceCr(x + y) == ReplaceCr(x) + ReplaceCr(y);
  }

  /******* Frames *******/

  predicate BlankLineAt(s: string, i: int) { 0 <= i && i + 1 < |s| && s[i] == '\n' && s[i + 1] == '\n' }

  /** indexOf("\n\n"), or the length of the text. */
  function NextBlankLine(s: string, i: nat): (b: nat)
    requires i <= |s|
    ensures i <= b <= |s|
    ensures b < |s| ==> BlankLineAt(s, b)
    ensures forall k | i <= k < b :: !BlankLineAt(s, k)
    decreases |s| - i
  {
    if i == |s| || BlankLineAt(s, i) then i else NextBlankLine(s, i + 1)
  }

  datatype Framed = Framed(frames: seq<string>, rest: string)

  /** All complete frames of a text, and what follows the last boundary. */
  function SplitFrames(s: string): (f: Framed)
    decreases |s|
  {
    var b := NextBlankLine(s, 0);
    if b == |s| then Framed([], s)
    else
      var more := SplitFrames(s[b + 2..]);
      Framed([s[..b]] + more.frames, more.rest)
  }

  lemma {:induction false} RestHasNoBoundary(s: string)
    ensures forall k :: !BlankLineAt(SplitFrames(s).rest, k)
    decreases |s|
  {
    var b := NextBlankLine(s, 0);
    if b < |s| {
      RestHasNoBoundary(s[b + 2..]);
    }
  }

  /** No blank line begins before n. */
  predicate Unbroken(s: string, n: int) { forall k | 0 <= k < n && k <= |s| :: !("\n\n" <= s[k..]) }

  /** What the frames and the rest are: a frame ends at the first blank line after its start, and no blank line
      is left in the rest. */
  lemma {:induction false} FramesExactly(s: string)
    ensures forall f | f in SplitFrames(s).frames :: Unbroken(f + "\n\n", |f|)
    ensures Unbroken(SplitFrames(s).rest, |SplitFrames(s).rest|)
    decreases |s|
  {
    hide SplitFrames, NextBlankLine;
    SplitUnfolds(s);
    var b := NextBlankLine(s, 0);
    forall k | 0 <= k < b ensures !("\n\n" <= s[k..]) {
      assert !BlankLineAt(s, k);
      assert |s[k..]| > 1 ==> s[k..][0] == s[k] && s[k..][1] == s[k + 1];
    }
    if b < |s| {
      FramesExactly(s[b + 2..]);
      var f := s[..b] + "\n\n";
      assert f == s[..b + 2];
      forall k | 0 <= k < b ensures !("\n\n" <= f[k..]) {
        assert s[k..] == f[k..] + s[b + 2..];
      }
    }
  }

  /** Splitting what has arrived and later the rest finds the same frames as splitting it all. */
  lemma {:induction false} SplitResumes(x: string, y: string)
    ensures var f := SplitFrames(x); var g := SplitFrames(f.rest + y);
      SplitFrames(x + y) == Framed(f.frames + g.frames, g.rest)
    decreases |x|
  {
    hide SplitFrames, NextBlankLine;
    var b := NextBlankLine(x, 0);
    SplitUnfolds(x);
    if b == |x| {
      assert [] + SplitFrames(x + y).frames == SplitFrames(x + y).frames;
    } else {
      var tail := x[b + 2..];
      assert forall k | 0 <= k < b :: BlankLineAt(x + y, k) == BlankLineAt(x, k);
      NextBlankLineIs(x + y, 0, b);
      SplitUnfolds(x + y);
      SplitResumes(tail, y);
      var f := SplitFrames(tail);
      assert (x + y)[b + 2..] == tail + y;
      assert (x + y)[..b] == x[..b];
      FrameCons(x[..b], f.frames, SplitFrames(f.rest + y).frames);
    }
  }

  lemma FrameCons(first: string, more: seq<string>, last: seq<string>)
    ensures ([first] + more) + last == [first] + (more + last)
  {
  }

  lemma SplitUnfolds(s: string)
    ensures var b := NextBlankLine(s, 0);
      SplitFrames(s) == if b == |s| then Framed([], s)
        else Framed([s[..b]] + SplitFrames(s[b + 2..]).frames, SplitFrames(s[b + 2..]).rest)
  {
    hide NextBlankLine, BlankLineAt;
  }

  lemma {:induction false} NextBlankLineIs(s: string, i: nat, b: nat)
    requires i <= b && BlankLineAt(s, b) && forall k | i <= k < b :: !BlankLineAt(s, k)
    ensures NextBlankLine(s, i) == b
    decreases b - i
  {
    if i < b {
      NextBlankLineIs(s, i + 1, b);
    }
  }

  /** The reading loop: frames dispatched so far, and the buffer left. */
  function ReadAll(buffer: string, pieces: seq<string>): Framed
    decreases |pieces|
  {
    if pieces == [] then Framed([], buffer)
    else
      var now := SplitFrames(buffer + Normalize(pieces[0]));
      var later := ReadAll(now.rest, pieces[1..]);
      Framed(now.frames + later.frames, later.rest)
  }

  /** No CR LF pair is cut at a read boundary. */
  predicate PairsWhole(pieces: seq<string>) {
    |pieces| <= 1 || (!CutsPair(pieces[0], Flatten(pieces[1..])) && PairsWhole(pieces[1..]))
  }

  /** What has been normalised read by read. */
  function Piecewise(pieces: seq<string>): string {
    if pieces == [] then "" else Normalize(pieces[0]) + Piecewise(pieces[1..])
  }

  /** How many pairs are cut. */
  function CutPairs(pieces: seq<string>): (n: nat)
    ensures n == 0 <==> PairsWhole(pieces)
  {
    if |pieces| <= 1 then 0
    else (if CutsPair(pieces[0], Flatten(pieces[1..])) then 1 else 0) + CutPairs(pieces[1..])
  }

  /** Every cut pair leaves one line ending too many, and without any the two normalisations agree. */
  lemma {:induction false} CutsCount(pieces: seq<string>)
    ensures |Piecewise(pieces)| == |Normalize(Flatten(pieces))| + CutPairs(pieces)
    ensures CutPairs(pieces) == 0 ==> Piecewise(pieces) == Normalize(Flatten(pieces))
    decreases |pieces|
  {
    hide Normalize, CutsPair;
    NormalizeEmpty();
    if pieces != [] {
      CutsCount(pieces[1..]);
      NormalizeAppendExact(pieces[0], Flatten(pieces[1..]));
      if |pieces| == 1 {
        assert pieces[1..] == [];
        NothingCut(pieces[0]);
      }
    }
  }

  lemma NothingCut(a: string)
    ensures !CutsPair(a, "")
  {
  }

  /** However the text is cut, the reading loop splits what was normalised read by read. */
  lemma {:induction false} ReadsSplit(buffer: string, pieces: seq<string>)
    requires SplitFrames(buffer) == Framed([], buffer)
    ensures ReadAll(buffer, pieces) == SplitFrames(buffer + Piecewise(pieces))
    decreases |pieces|
  {
    hide SplitFrames, Normalize;
    if pieces == [] {
      assert buffer + "" == buffer;
    } else {
      var head, tail := Normalize(pieces[0]), Piecewise(pieces[1..]);
      var x := buffer + head;
      var now := SplitFrames(x);
      SplitIdempotent(x);
      ReadsSplit(now.rest, pieces[1..]);
      SplitResumes(x, tail);
      assert x + tail == buffer + (head + tail);
    }
  }

  /** The text a split came from. */
  function Rejoined(frames: seq<string>, rest: string): string {
    if frames == [] then rest else frames[0] + (['\n', '\n'] + Rejoined(frames[1..], rest))
  }

  /** Splitting loses nothing, so it tells different texts apart. */
  lemma {:induction false} SplitRejoins(s: string)
    ensures Rejoined(SplitFrames(s).frames, SplitFrames(s).rest) == s
    decreases |s|
  {
    hide NextBlankLine, SplitFrames;
    SplitUnfolds(s);
    var b := NextBlankLine(s, 0);
    if b < |s| {
      var more := SplitFrames(s[b + 2..]);
      SplitRejoins(s[b + 2..]);
      assert ([s[..b]] + more.frames)[1..] == more.frames;
      assert s == s[..b] + (['\n', '\n'] + s[b + 2..]);
    }
  }

  lemma NormalizeEmpty()
    ensures Normalize("") == ""
  {
  }

  lemma SplitIdempotent(s: string)
    ensures SplitFrames(SplitFrames(s).rest) == Framed([], SplitFrames(s).rest)
  {
    RestHasNoBoundary(s);
  }

  /** For every way of cutting a text into pieces: the frames found read by read, with the text left
      over, are those of the whole normalised text exactly when no CR LF pair is cut. */
  lemma FramesRefine(pieces: seq<string>)
    ensures ReadAll("", pieces) == SplitFrames(Normalize(Flatten(pieces))) <==> PairsWhole(pieces)
  {
    hide SplitFrames, Normalize, PairsWhole, CutPairs;
    NothingSplit();
    ReadsSplit("", pieces);
    CutsCount(pieces);
    var read, whole := Piecewise(pieces), Normalize(Flatten(pieces));
    assert "" + read == read;
    SplitRejoins(read);
    SplitRejoins(whole);
  }

  lemma NothingSplit()
    ensures SplitFrames("") == Framed([], "")
  {
  }

  /** Between pieces the buffer never holds a complete boundary, however the text is cut. */
  lemma {:induction false} BufferHasNoBoundary(buffer: string, pieces: seq<string>)
    requires forall k :: !BlankLineAt(buffer, k)
    ensures forall k :: !BlankLineAt(ReadAll(buffer, pieces).rest, k)
    decreases |pieces|
  {
    hide SplitFrames, Normalize;
    if pieces != [] {
      var x := buffer + Normalize(pieces[0]);
      RestHasNoBoundary(x);
      BufferHasNoBoundary(SplitFrames(x).rest, pieces[1..]);
    }
  }

  /** Cutting a pair does matter: one frame of two lines becomes two frames. */
  lemma CutPairSplitsFrame()
    ensures SplitFrames(Normalize(Flatten(["a\r", "\nb\n\n"]))).frames == ["a\nb"]
    ensures ReadAll("", ["a\r", "\nb\n\n"]).frames == ["a", "b"]
  {
    hide SplitFrames, Normalize;
    var pieces := ["a\r", "\nb\n\n"];
    assert pieces[1..] == ["\nb\n\n"] && pieces[1..][1..] == [];
    assert Flatten(pieces[1..]) == "\nb\n\n" + "" == "\nb\n\n";
    assert Flatten(pieces) == "a\r\nb\n\n";
    NormalizeExamples();
    SplitExamples();
    assert "" + "a\n" == "a\n" && "a\n" + "\nb\n\n" == "a\n\nb\n\n";
    assert ReadAll("a\n", pieces[1..]) == Framed(["a", "b"], "");
  }

  lemma NormalizeExamples()
    ensures Normalize("a\r\nb\n\n") == "a\nb\n\n" && Normalize("a\r") == "a\n" && Normalize("\nb\n\n") == "\nb\n\n"
  {
    var s := "a\r\nb\n\n";
    assert s[1..] == "\r\nb\n\n" && s[1..][2..] == "b\n\n";
    PlainText("b\n\n");
    assert ReplaceCrLf(s[1..]) == ['\n'] + ReplaceCrLf("b\n\n");
    assert ReplaceCrLf(s) == "a\nb\n\n";
    PlainText("\nb\n\n");
    assert ReplaceCrLf("a\r") == ['a'] + ReplaceCrLf("\r");
    assert ReplaceCrLf("\r") == "\r";
  }

  lemma {:induction false} PlainText(s: string)
    requires '\r' !in s
    ensures ReplaceCrLf(s) == s && Normalize(s) == s
    decreases |s|
  {
    if s != "" {
      PlainText(s[1..]);
    }
  }

  lemma SplitExamples()
    ensures SplitFrames("a\nb\n\n") == Framed(["a\nb"], "")
    ensures SplitFrames("a\n") == Framed([], "a\n")
    ensures SplitFrames("a\n\nb\n\n") == Framed(["a", "b"], "")
  {
    var s := "a\nb\n\n";
    assert BlankLineAt(s, 3) && !BlankLineAt(s, 0) && !BlankLineAt(s, 1) && !BlankLineAt(s, 2);
    assert NextBlankLine(s, 0) == 3;
    assert s[..3] == "a\nb" && s[5..] == "";
    assert SplitFrames("") == Framed([], "");
    var t := "a\n";
    assert !BlankLineAt(t, 0) && !BlankLineAt(t, 1);
    assert NextBlankLine(t, 0) == 2;
    var u := "a\n\nb\n\n";
    assert BlankLineAt(u, 1) && !BlankLineAt(u, 0);
    assert NextBlankLine(u, 0) == 1;
    assert u[..1] == "a" && u[3..] == "b\n\n";
    var v := "b\n\n";
    assert BlankLineAt(v, 1) && !BlankLineAt(v, 0);
    assert NextBlankLine(v, 0) == 1;
    assert v[..1] == "b" && v[3..] == "";
    assert SplitFrames(v) == Framed(["b"], "");
  }

  /******* Dispatch *******/

  /** What String.prototype.trim removes. */
  predicate IsSpace(c: char) {
    '\U{9}' <= c <= '\U{D}' || c == ' ' || c == '\U{A0}' || c == '\U{1680}' || '\U{2000}' <= c <= '\U{200A}' ||
    c == '\U{2028}' || c == '\U{2029}' || c == '\U{202F}' || c == '\U{205F}' || c == '\U{3000}' || c == '\U{FEFF}'
  }

  function TrimLeft(s: string): string { if s != "" && IsSpace(s[0]) then TrimLeft(s[1..]) else s }

  function TrimRight(s: string): string {
    if s != "" && IsSpace(s[|s| - 1]) then TrimRight(s[..|s| - 1]) else s
  }

  function Trim(s: string): string { TrimRight(TrimLeft(s)) }

  function Lines(s: string): (lines: seq<string>)
    ensures lines != []
    decreases |s|
  {
    LinesFrom(s, 0)
  }

  function LinesFrom(s: string, i: nat): (lines: seq<string>)
    requires i <= |s|
    ensures lines != []
    decreases |s|, |s| - i
  {
    if i == |s| then [s]
    else if s[i] == '\n' then [s[..i]] + LinesFrom(s[i + 1..], 0)
    else LinesFrom(s, i + 1)
  }

  function JoinLines(lines: seq<string>): string {
    if lines == [] then "" else if |lines| == 1 then lines[0] else lines[0] + "\n" + JoinLines(lines[1..])
  }

  /** A parsed JSON payload; reading a property of null throws. */
  datatype Json = Null | Value(text: string)

  datatype Callback = OnTranscript(payload: Json) | OnChunk(payload: Json) | OnFinal(payload: Json) | OnError(detail: string)

  predicate Terminal(c: Callback) { c.OnFinal? || c.OnError? }

  datatype Dispatched = Quiet | Called(callback: Callback) | Threw

  datatype Fields = Fields(event: string, dataLines: seq<string>)

  /** The last event name and the data lines of a frame, read line by line. */
  function Scan(lines: seq<string>, f: Fields): Fields
    decreases |lines|
  {
    if lines == [] then f
    else
      var line := lines[0];
      Scan(lines[1..],
        if "event:" <= line then f.(event := Trim(line[6..]))
        else if "data:" <= line then f.(dataLines := f.dataLines + [Trim(line[5..])])
        else f)
  }

  /** What one frame does. `parse` is JSON.parse and `describe` the error text built from a payload. */
  function Dispatch(frame: string, parse: string -> Option<Json>, describe: string -> string): Dispatched {
    var f := Scan(Lines(frame), Fields("message", []));
    if f.dataLines == [] then Quiet
    else
      match parse(JoinLines(f.dataLines))
      case None => Quiet
      case Some(payload) =>
        if f.event == "transcript" then Called(OnTranscript(payload))
        else if f.event == "answer_chunk" then (if payload.Null? then Threw else Called(OnChunk(payload)))
        else if f.event == "final" then Called(OnFinal(payload))
        else if f.event == "error" then (if payload.Null? then Threw else Called(OnError(describe(payload.text))))
        else Quiet
  }

  /******* What a frame means, from its text *******/

  predicate Blank(s: string) { forall c | c in s :: IsSpace(c) && c != '\n' }

  predicate Tidy(s: string) { '\n' !in s && (s != "" ==> !IsSpace(s[0]) && !IsSpace(s[|s| - 1])) }

  /** A line of a frame as a server may write it: an event or a data field with its value, blanks around the
      value, or anything else. */
  datatype Line = EventLine(before: string, value: string, after: string)
                | DataLine(before: string, value: string, after: string)
                | OtherLine(text: string)

  predicate Proper(l: Line) {
    match l
    case OtherLine(text) => !("event:" <= text) && !("data:" <= text) && '\n' !in text
    case _ => Blank(l.before) && Tidy(l.value) && Blank(l.after)
  }

  predicate AllProper(ls: seq<Line>) { forall l | l in ls :: Proper(l) }

  function Written(l: Line): string {
    match l
    case EventLine(before, value, after) => "event:" + (before + (value + after))
    case DataLine(before, value, after) => "data:" + (before + (value + after))
    case OtherLine(text) => text
  }

  function WrittenLines(ls: seq<Line>): (lines: seq<string>)
    ensures |lines| == |ls| && forall i | 0 <= i < |ls| :: lines[i] == Written(ls[i])
  {
    seq(|ls|, i requires 0 <= i < |ls| => Written(ls[i]))
  }

  /** The frame those lines make up. */
  function FrameOf(ls: seq<Line>): string { JoinLines(WrittenLines(ls)) }

  /** The last event line decides the name. */
  ghost predicate Named(ls: seq<Line>, name: string) {
    if exists l :: l in ls && l.EventLine? then
      exists i :: 0 <= i < |ls| && ls[i].EventLine? && ls[i].value == name && forall j | i < j < |ls| :: !ls[j].EventLine?
    else name == "message"
  }

  /** The values of the data lines, in order. */
  function DataOf(ls: seq<Line>): seq<string> {
    if ls == [] then []
    else (if ls[0].DataLine? then [ls[0].value] else []) + DataOf(ls[1..])
  }

  /** The payload of the lines: their data, joined by newlines and parsed. */
  function PayloadOf(ls: seq<Line>, parse: string -> Option<Json>): Option<Json> {
    if DataOf(ls) == [] then None else parse(JoinLines(DataOf(ls)))
  }

  lemma {:induction false} TrimLeftOf(before: string, value: string)
    requires Blank(before) && (value != "" ==> !IsSpace(value[0]))
    ensures TrimLeft(before + value) == value
    decreases |before|
  {
    hide IsSpace;
    if before == "" {
      assert before + value == value;
    } else {
      assert before[0] in before && (before + value)[0] == before[0] && (before + value)[1..] == before[1..] + value;
      TrimLeftOf(before[1..], value);
    }
  }

  lemma {:induction false} TrimRightOf(value: string, after: string)
    requires Blank(after) && (value != "" ==> !IsSpace(value[|value| - 1]))
    ensures TrimRight(value + after) == value
    decreases |after|
  {
    hide IsSpace;
    if after == "" {
      assert value + after == value;
    } else {
      var n := |after| - 1;
      assert after[n] in after && (value + after)[|value| + n] == after[n] && (value + after)[..|value| + n] == value + after[..n];
      TrimRightOf(value, after[..n]);
    }
  }

  lemma {:induction false} TrimBlank(after: string)
    requires Blank(after)
    ensures TrimLeft(after) == ""
    decreases |after|
  {
    hide IsSpace;
    if after != "" {
      assert after[0] in after;
      TrimBlank(after[1..]);
    }
  }

  /** Trimming drops the blanks around a value and nothing of it. */
  lemma TrimOf(before: string, value: string, after: string)
    requires Blank(before) && Tidy(value) && Blank(after)
    ensures Trim(before + (value + after)) == value
  {
    hide IsSpace, TrimLeft, TrimRight, Blank;
    if value == "" {
      assert before + (value + after) == before + after;
      BlankJoin(before, after);
      TrimBlank(before + after);
      TrimRightOf("", "") by { NothingIsBlank(); }
      assert "" + "" == "";
    } else {
      TrimLeftOf(before, value + after);
      TrimRightOf(value, after);
    }
  }

  lemma NothingIsBlank()
    ensures Blank("")
  {
  }

  lemma BlankJoin(a: string, b: string)
    requires Blank(a) && Blank(b)
    ensures Blank(a + b)
  {
  }

  /** Every line is written by some proper line. */
  lemma LineRead(text: string) returns (l: Line)
    requires '\n' !in text
    ensures Proper(l) && Written(l) == text
  {
    if "event:" <= text {
      var before, value, after := Tidied(text[6..]);
      l := EventLine(before, value, after);
      assert text == "event:" + text[6..];
    } else if "data:" <= text {
      var before, value, after := Tidied(text[5..]);
      l := DataLine(before, value, after);
      assert text == "data:" + text[5..];
    } else {
      l := OtherLine(text);
    }
  }

  lemma {:induction false} Tidied(s: string) returns (before: string, value: string, after: string)
    requires '\n' !in s
    ensures Blank(before) && Tidy(value) && Blank(after) && s == before + (value + after)
    decreases |s|
  {
    hide IsSpace;
    if s != "" && IsSpace(s[0]) {
      before, value, after := Tidied(s[1..]);
      before := [s[0]] + before;
    } else if s != "" && IsSpace(s[|s| - 1]) {
      var n := |s| - 1;
      before, value, after := Tidied(s[..n]);
      after := after + [s[n]];
      assert s == s[..n] + [s[n]];
    } else {
      before, value, after := "", s, "";
    }
  }

  lemma {:induction false} LinesFromOf(line: string, rest: string, i: nat)
    requires i <= |line| && forall k | i <= k < |line| :: line[k] != '\n'
    ensures LinesFrom(line + (['\n'] + rest), i) == [line] + LinesFrom(rest, 0)
    decreases |line| - i
  {
    hide LinesFrom;
    var s := line + (['\n'] + rest);
    LinesUnfold(s, i);
    if i == |line| {
      assert s[i] == '\n' && s[..i] == line && s[i + 1..] == rest;
    } else {
      assert s[i] == line[i];
      LinesFromOf(line, rest, i + 1);
    }
  }

  lemma LinesUnfold(s: string, i: nat)
    requires i <= |s|
    ensures LinesFrom(s, i) ==
      if i == |s| then [s] else if s[i] == '\n' then [s[..i]] + LinesFrom(s[i + 1..], 0) else LinesFrom(s, i + 1)
  {
  }

  lemma {:induction false} OneLine(line: string, i: nat)
    requires i <= |line| && forall k | i <= k < |line| :: line[k] != '\n'
    ensures LinesFrom(line, i) == [line]
    decreases |line| - i
  {
    if i < |line| {
      OneLine(line, i + 1);
    }
  }

  /** Splitting a text at its newlines undoes joining the lines. */
  lemma {:induction false} LinesJoined(lines: seq<string>)
    requires lines != [] && forall l | l in lines :: '\n' !in l
    ensures Lines(JoinLines(lines)) == lines
    decreases |lines|
  {
    hide LinesFrom;
    assert lines[0] in lines && forall k | 0 <= k < |lines[0]| :: lines[0][k] != '\n';
    if |lines| == 1 {
      OneLine(lines[0], 0);
    } else {
      LinesJoined(lines[1..]);
      LinesFromOf(lines[0], JoinLines(lines[1..]), 0);
      assert lines[0] + "\n" + JoinLines(lines[1..]) == lines[0] + (['\n'] + JoinLines(lines[1..]));
    }
  }

  /** Every frame is what some proper lines write. */
  lemma {:induction false} FrameRead(frame: string, i: nat) returns (ls: seq<Line>)
    requires i <= |frame| && forall k | 0 <= k < i :: frame[k] != '\n'
    ensures ls != [] && AllProper(ls) && FrameOf(ls) == frame
    decreases |frame|, |frame| - i
  {
    hide Proper, Written;
    if i == |frame| {
      var l := LineRead(frame);
      ls := [l];
      assert WrittenLines(ls) == [frame];
    } else if frame[i] == '\n' {
      var l := LineRead(frame[..i]);
      var more := FrameRead(frame[i + 1..], 0);
      ls := [l] + more;
      assert WrittenLines(ls) == [frame[..i]] + WrittenLines(more);
      assert WrittenLines(ls)[1..] == WrittenLines(more);
      assert frame == frame[..i] + "\n" + frame[i + 1..];
    } else {
      ls := FrameRead(frame, i + 1);
    }
  }

  lemma WrittenProper(l: Line)
    requires Proper(l)
    ensures '\n' !in Written(l)
    ensures var text := Written(l);
      match l
      case EventLine(_, value, _) => "event:" <= text && Trim(text[6..]) == value
      case DataLine(_, value, _) => !("event:" <= text) && "data:" <= text && Trim(text[5..]) == value
      case OtherLine(_) => !("event:" <= text) && !("data:" <= text)
  {
    hide IsSpace, Trim;
    match l
    case EventLine(before, value, after) =>
      TrimOf(before, value, after);
      assert Written(l)[6..] == before + (value + after);
    case DataLine(before, value, after) =>
      TrimOf(before, value, after);
      assert Written(l)[5..] == before + (value + after);
      assert Written(l)[0] == 'd';
    case OtherLine(_) =>
  }

  /** Reading line by line leaves the value of the last event line and collects the data. */
  lemma {:induction false} ScanReads(ls: seq<Line>, f: Fields)
    requires AllProper(ls)
    ensures var r := Scan(WrittenLines(ls), f);
      && r.dataLines == f.dataLines + DataOf(ls)
      && (if exists l :: l in ls && l.EventLine? then Named(ls, r.event) else r.event == f.event)
    decreases |ls|
  {
    hide Proper, Written, Trim, Named;
    if ls != [] {
      assert ls[0] in ls;
      WrittenProper(ls[0]);
      assert WrittenLines(ls)[1..] == WrittenLines(ls[1..]);
      var line := WrittenLines(ls)[0];
      var g :=
        if "event:" <= line then f.(event := Trim(line[6..]))
        else if "data:" <= line then f.(dataLines := f.dataLines + [Trim(line[5..])])
        else f;
      ScanReads(ls[1..], g);
      NamedCons(ls, Scan(WrittenLines(ls[1..]), g).event);
      var own := if ls[0].DataLine? then [ls[0].value] else [];
      assert g.dataLines == f.dataLines + own;
      assert f.dataLines + own + DataOf(ls[1..]) == f.dataLines + (own + DataOf(ls[1..]));
    }
  }

  lemma NamedCons(ls: seq<Line>, name: string)
    requires ls != []
    requires if exists l :: l in ls[1..] && l.EventLine? then Named(ls[1..], name) else ls[0].EventLine? ==> name == ls[0].value
    ensures (exists l :: l in ls && l.EventLine?) ==> Named(ls, name)
    ensures (exists l :: l in ls && l.EventLine?) <==> ls[0].EventLine? || exists l :: l in ls[1..] && l.EventLine?
  {
    assert ls == [ls[0]] + ls[1..];
    if exists l :: l in ls[1..] && l.EventLine? {
      var i :| 0 <= i < |ls[1..]| && ls[1..][i].EventLine? && ls[1..][i].value == name
            && forall j | i < j < |ls[1..]| :: !ls[1..][j].EventLine?;
      assert ls[i + 1].EventLine? && ls[i + 1].value == name;
      forall j | i + 1 < j < |ls| ensures !ls[j].EventLine? {
        assert ls[j] == ls[1..][j - 1];
      }
    } else if ls[0].EventLine? {
      assert ls[0].EventLine? && ls[0].value == name;
      forall j | 0 < j < |ls| ensures !ls[j].EventLine? {
        assert ls[j] in ls[1..];
      }
    }
  }

  lemma NameUnique(ls: seq<Line>, a: string, b: string)
    requires Named(ls, a) && Named(ls, b)
    ensures a == b
  {
  }

  /** What a frame of a name with a payload does: the handler of that name is called with the payload, no
      other name and no payload calls anything, and reading a field of null throws. */
  ghost predicate Means(name: string, payload: Option<Json>, describe: string -> string, d: Dispatched) {
    match payload
    case None => d == Quiet
    case Some(Null) =>
      d == if name == "transcript" then Called(OnTranscript(Null))
           else if name == "final" then Called(OnFinal(Null))
           else if name == "answer_chunk" || name == "error" then Threw
           else Quiet
    case Some(Value(text)) =>
      && (name == "transcript" ==> d == Called(OnTranscript(Value(text))))
      && (name == "answer_chunk" ==> d == Called(OnChunk(Value(text))))
      && (name == "final" ==> d == Called(OnFinal(Value(text))))
      && (name == "error" ==> d == Called(OnError(describe(text))))
      && (name !in {"transcript", "answer_chunk", "final", "error"} ==> d == Quiet)
  }

  /** For every event name and data, written in any order with anything between: a frame does what its last
      event line and its joined data lines mean. */
  lemma WrittenFrame(ls: seq<Line>, name: string, parse: string -> Option<Json>, describe: string -> string)
    requires ls != [] && AllProper(ls) && Named(ls, name)
    ensures Means(name, PayloadOf(ls, parse), describe, Dispatch(FrameOf(ls), parse, describe))
  {
    hide Scan, Proper, Written, Lines, JoinLines, DataOf, Named;
    forall l | l in WrittenLines(ls) ensures '\n' !in l {
      var i :| 0 <= i < |ls| && WrittenLines(ls)[i] == l;
      assert ls[i] in ls;
      WrittenProper(ls[i]);
    }
    LinesJoined(WrittenLines(ls));
    ScanReads(ls, Fields("message", []));
    var f := Scan(Lines(FrameOf(ls)), Fields("message", []));
    assert [] + DataOf(ls) == DataOf(ls);
    if !exists l :: l in ls && l.EventLine? {
      Unnamed(ls);
    }
    NameUnique(ls, name, f.event);
  }

  lemma Unnamed(ls: seq<Line>)
    requires !exists l :: l in ls && l.EventLine?
    ensures Named(ls, "message")
  {
  }

  /** The frame is written by lines that mean `d`. */
  ghost predicate FrameMeans(frame: string, parse: string -> Option<Json>, describe: string -> string, d: Dispatched) {
    exists ls, name :: Writes(frame, ls, name) && Means(name, PayloadOf(ls, parse), describe, d)
  }

  ghost predicate Writes(frame: string, ls: seq<Line>, name: string) {
    ls != [] && AllProper(ls) && FrameOf(ls) == frame && Named(ls, name)
  }

  lemma FrameWritten(frame: string) returns (ls: seq<Line>, name: string)
    ensures Writes(frame, ls, name)
  {
    hide AllProper, FrameOf, Named;
    ls := FrameRead(frame, 0);
    if exists l :: l in ls && l.EventLine? {
      ScanReads(ls, Fields("message", []));
      name := Scan(WrittenLines(ls), Fields("message", [])).event;
    } else {
      name := "message";
      Unnamed(ls);
    }
  }

  /** Every frame does what its text means, and nothing else. */
  lemma DispatchMeans(frame: string, parse: string -> Option<Json>, describe: string -> string)
    ensures FrameMeans(frame, parse, describe, Dispatch(frame, parse, describe))
    ensures forall d :: FrameMeans(frame, parse, describe, d) ==> d == Dispatch(frame, parse, describe)
  {
    hide Dispatch, FrameOf, AllProper, Named, PayloadOf;
    var ls, name := FrameWritten(frame);
    WrittenFrame(ls, name, parse, describe);
    forall d | FrameMeans(frame, parse, describe, d) ensures d == Dispatch(frame, parse, describe) {
      var ks, n :| Writes(frame, ks, n) && Means(n, PayloadOf(ks, parse), describe, d);
      WrittenFrame(ks, n, parse, describe);
    }
  }

  /** The frame is named final or error and has a payload: it ends the stream. */
  ghost predicate EndsStream(frame: string, parse: string -> Option<Json>) {
    exists ls, name :: Writes(frame, ls, name) && (name == "final" || name == "error") && PayloadOf(ls, parse).Some?
  }

  ghost function EndingFrames(frames: seq<string>, parse: string -> Option<Json>): nat {
    if frames == [] then 0 else (if EndsStream(frames[0], parse) then 1 else 0) + EndingFrames(frames[1..], parse)
  }

  lemma EndsExactly(frame: string, parse: string -> Option<Json>, describe: string -> string)
    ensures var d := Dispatch(frame, parse, describe);
      !d.Threw? ==> (EndsStream(frame, parse) <==> d.Called? && Terminal(d.callback))
  {
    hide Dispatch, FrameOf, AllProper, Named, PayloadOf;
    var d := Dispatch(frame, parse, describe);
    var ls, name := FrameWritten(frame);
    WrittenFrame(ls, name, parse, describe);
    if EndsStream(frame, parse) {
      var ks, n :| Writes(frame, ks, n) && (n == "final" || n == "error") && PayloadOf(ks, parse).Some?;
      WrittenFrame(ks, n, parse, describe);
    }
  }

  datatype Calls = Calls(log: seq<Callback>, threw: bool)

  /** Dispatching frames in order, up to the first that throws. */
  function DispatchAll(frames: seq<string>, parse: string -> Option<Json>, describe: string -> string): Calls
    decreases |frames|
  {
    if frames == [] then Calls([], false)
    else
      match Dispatch(frames[0], parse, describe)
      case Threw => Calls([], true)
      case Quiet => DispatchAll(frames[1..], parse, describe)
      case Called(c) =>
        var rest := DispatchAll(frames[1..], parse, describe);
        Calls([c] + rest.log, rest.threw)
  }

  /** As many terminal calls as frames that end the stream. */
  lemma {:induction false} EndingAreTerminal(frames: seq<string>, parse: string -> Option<Json>, describe: string -> string)
    ensures var calls := DispatchAll(frames, parse, describe);
      !calls.threw ==> TerminalCount(calls.log) == EndingFrames(frames, parse)
    decreases |frames|
  {
    hide Dispatch, EndsStream;
    if frames != [] {
      EndsExactly(frames[0], parse, describe);
      EndingAreTerminal(frames[1..], parse, describe);
      var calls, rest := DispatchAll(frames, parse, describe), DispatchAll(frames[1..], parse, describe);
      var d := Dispatch(frames[0], parse, describe);
      if d.Called? {
        assert calls.log == [d.callback] + rest.log && calls.log[1..] == rest.log;
      }
    }
  }

  function TerminalCount(log: seq<Callback>): nat {
    if log == [] then 0 else (if Terminal(log[0]) then 1 else 0) + TerminalCount(log[1..])
  }

  lemma {:induction false} TerminalAppend(a: seq<Callback>, b: seq<Callback>)
    ensures TerminalCount(a + b) == TerminalCount(a) + TerminalCount(b)
    decreases |a|
  {
    if a == [] {
      assert a + b == b;
    } else {
      TerminalAppend(a[1..], b);
      assert (a + b)[1..] == a[1..] + b;
    }
  }

  /** How the body ends: it is read to the end, the idle timer fires, or the caller aborts. */
  datatype End = Done | TimedOut | Aborted

  const CUT_OFF := "The answer stream ended before it finished. Try again."
  const TIMEOUT := "No response from the API in 60 seconds. Check your connection and try again."

  /** The frames a run dispatches: a leftover that is not blank counts only at the end of the body. */
  function FramesOf(pieces: seq<string>, end: End): seq<string> {
    var all := ReadAll("", pieces);
    all.frames + (if end.Done? && Trim(all.rest) != "" then [all.rest] else [])
  }

  lemma {:induction false} TrimLeftEmpty(s: string)
    ensures TrimLeft(s) == "" <==> forall c | c in s :: IsSpace(c)
    decreases |s|
  {
    hide IsSpace;
    if s != "" && IsSpace(s[0]) {
      TrimLeftEmpty(s[1..]);
      assert s == [s[0]] + s[1..];
    } else if s != "" {
      assert s[0] in s;
    }
  }

  lemma {:induction false} TrimRightKeeps(s: string)
    requires s != "" && !IsSpace(s[0])
    ensures TrimRight(s) != ""
    decreases |s|
  {
    hide IsSpace;
    if IsSpace(s[|s| - 1]) {
      TrimRightKeeps(s[..|s| - 1]);
    }
  }

  lemma {:induction false} TrimLeftStarts(s: string)
    ensures TrimLeft(s) != "" ==> !IsSpace(TrimLeft(s)[0])
    decreases |s|
  {
    hide IsSpace;
    if s != "" && IsSpace(s[0]) {
      TrimLeftStarts(s[1..]);
    }
  }

  /** A leftover is dispatched exactly when the body was read to its end and the leftover is not blank. */
  lemma LeftoverExactly(pieces: seq<string>, end: End)
    ensures var all := ReadAll("", pieces);
      FramesOf(pieces, end) ==
        all.frames + if end == Done && exists c :: c in all.rest && !IsSpace(c) then [all.rest] else []
  {
    hide IsSpace, ReadAll, TrimLeft, TrimRight;
    var rest := ReadAll("", pieces).rest;
    TrimLeftEmpty(rest);
    TrimLeftStarts(rest);
    if TrimLeft(rest) != "" {
      TrimRightKeeps(TrimLeft(rest));
    } else {
      TrimRightNothing();
    }
  }

  lemma TrimRightNothing()
    ensures TrimRight("") == ""
  {
  }

  lemma {:induction false} DispatchAppend(a: seq<string>, b: seq<string>, parse: string -> Option<Json>, describe: string -> string)
    ensures var x := DispatchAll(a, parse, describe); var y := DispatchAll(b, parse, describe);
      DispatchAll(a + b, parse, describe) == if x.threw then x else Calls(x.log + y.log, y.threw)
    decreases |a|
  {
    hide Dispatch;
    if a == [] {
      assert a + b == b;
      assert [] + DispatchAll(b, parse, describe).log == DispatchAll(b, parse, describe).log;
    } else {
      DispatchAppend(a[1..], b, parse, describe);
      assert (a + b)[1..] == a[1..] + b;
      var d := Dispatch(a[0], parse, describe);
      if d.Called? {
        var x, y := DispatchAll(a[1..], parse, describe), DispatchAll(b, parse, describe);
        assert [d.callback] + (x.log + y.log) == ([d.callback] + x.log) + y.log;
      }
    }
  }

  /** The reader. It returns the calls made on the handlers and whether the promise rejected. */
  class StreamReader {
    var buffer: string
    var finished: bool
    var log: seq<Callback>

    constructor ()
      ensures buffer == "" && !finished && log == []
    {
      buffer, finished, log := "", false, [];
    }

    ghost predicate Tracks(calls: Calls)
      reads this
    {
      log == calls.log && !calls.threw && (finished <==> TerminalCount(log) > 0)
    }

    method Call(c: Callback)
      modifies this`finished, this`log
      requires finished <==> TerminalCount(log) > 0
      ensures log == old(log) + [c] && (finished <==> TerminalCount(log) > 0)
      ensures finished == (old(finished) || Terminal(c))
    {
      TerminalAppend(log, [c]);
      assert [c][1..] == [];
      log := log + [c];
      if Terminal(c) {
        finished := true;
      }
    }

    method DispatchOne(frame: string, parse: string -> Option<Json>, describe: string -> string, ghost frames: seq<string>)
      returns (threw: bool)
      requires Tracks(DispatchAll(frames, parse, describe))
      modifies this`finished, this`log
      ensures !threw ==> Tracks(DispatchAll(frames + [frame], parse, describe))
      ensures exists d :: FrameMeans(frame, parse, describe, d) && threw == d.Threw?
                       && log == old(log) + if d.Called? then [d.callback] else []
      ensures threw ==> DispatchAll(frames + [frame], parse, describe) == Calls(log, true)
    {
      hide Dispatch, TerminalCount, FrameMeans;
      DispatchMeans(frame, parse, describe);
      DispatchAppend(frames, [frame], parse, describe);
      assert [frame][1..] == [];
      assert log + [] == log;
      match Dispatch(frame, parse, describe) {
        case Threw => threw := true;
        case Quiet => threw := false;
        case Called(c) =>
          Call(c);
          threw := false;
      }
    }

    /** Dispatches every complete frame in the buffer. */
    method Drain(parse: string -> Option<Json>, describe: string -> string, ghost frames: seq<string>)
      returns (threw: bool, ghost frames': seq<string>)
      requires Tracks(DispatchAll(frames, parse, describe))
      modifies this
      ensures var f := SplitFrames(old(buffer));
        !threw ==> buffer == f.rest && frames' == frames + f.frames && Tracks(DispatchAll(frames', parse, describe))
      ensures var f := SplitFrames(old(buffer));
        threw ==> frames' <= frames + f.frames && DispatchAll(frames', parse, describe) == Calls(log, true)
    {
      hide DispatchAll, NextBlankLine, FrameMeans, SplitFrames, TerminalCount;
      SplitUnfolds(buffer);
      ghost var whole := SplitFrames(buffer);
      frames' := frames;
      var boundary := NextBlankLine(buffer, 0);
      assert frames + whole.frames == frames' + SplitFrames(buffer).frames;
      while boundary != |buffer|
        invariant boundary == NextBlankLine(buffer, 0)
        invariant SplitFrames(buffer) == if boundary == |buffer| then Framed([], buffer)
          else Framed([buffer[..boundary]] + SplitFrames(buffer[boundary + 2..]).frames, SplitFrames(buffer[boundary + 2..]).rest)
        invariant Tracks(DispatchAll(frames', parse, describe))
        invariant frames + whole.frames == frames' + SplitFrames(buffer).frames && whole.rest == SplitFrames(buffer).rest
        decreases |buffer|
      {
        ghost var more := SplitFrames(buffer[boundary + 2..]);
        var frame := buffer[..boundary];
        assert SplitFrames(buffer) == Framed([frame] + more.frames, more.rest);
        assert frames' + ([frame] + more.frames) == (frames' + [frame]) + more.frames;
        threw := DispatchOne(frame, parse, describe, frames');
        frames' := frames' + [frame];
        if threw {
          return;
        }
        buffer := buffer[boundary + 2..];
        boundary := NextBlankLine(buffer, 0);
        SplitUnfolds(buffer);
      }
      assert SplitFrames(buffer) == Framed([], buffer);
      assert frames' + [] == frames';
      threw := false;
    }

    /** Reads the body. On a normal return the callbacks are those of the frames in order, and then,
        if no frame ended the stream, one error: so as many terminal calls as frames named final or error
        with a payload, and at least one. */
    method Run(pieces: seq<string>, end: End, parse: string -> Option<Json>, describe: string -> string)
      returns (rejected: bool)
      requires buffer == "" && !finished && log == []
      modifies this
      ensures var calls := DispatchAll(FramesOf(pieces, end), parse, describe);
        && rejected == (calls.threw || end.Aborted?)
        && (calls.threw ==> log == calls.log)
        && (!rejected ==> log == calls.log + (if TerminalCount(calls.log) > 0 then []
                                               else [OnError(if end.Done? then CUT_OFF else TIMEOUT)]))
      ensures !rejected ==> TerminalCount(log) == Max(1, EndingFrames(FramesOf(pieces, end), parse))
    {
      hide DispatchAll, SplitFrames, Normalize, Trim, TerminalCount, EndingFrames;
      EndingAreTerminal(FramesOf(pieces, end), parse, describe);
      ghost var all := ReadAll("", pieces);
      ghost var frames: seq<string> := [];
      NothingDispatched(parse, describe);
      assert [] + all.frames == all.frames;
      for i := 0 to |pieces|
        invariant Tracks(DispatchAll(frames, parse, describe))
        invariant all.frames == frames + ReadAll(buffer, pieces[i..]).frames && all.rest == ReadAll(buffer, pieces[i..]).rest
      {
        ReadStep(buffer, pieces, i);
        ghost var now := SplitFrames(buffer + Normalize(pieces[i]));
        ghost var later := ReadAll(now.rest, pieces[i + 1..]);
        assert frames + (now.frames + later.frames) == (frames + now.frames) + later.frames;
        buffer := buffer + Normalize(pieces[i]);
        var threw;
        ghost var frames';
        threw, frames' := Drain(parse, describe, frames);
        if threw {
          PrefixThrows(frames', FramesOf(pieces, end), parse, describe);
          return true;
        }
        frames := frames';
      }
      assert pieces[|pieces|..] == [];
      assert frames + [] == frames;
      if end.Aborted? {
        assert FramesOf(pieces, end) == frames + [];
        return true;
      }
      if end.Done? && Trim(buffer) != "" {
        var threw := DispatchOne(buffer, parse, describe, frames);
        frames := frames + [buffer];
        if threw {
          return true;
        }
      } else {
        assert FramesOf(pieces, end) == frames + [];
      }
      assert log + [] == log;
      if !finished {
        Call(OnError(if end.Done? then CUT_OFF else TIMEOUT));
        FirstTerminal(DispatchAll(frames, parse, describe).log, log[|log| - 1]);
      }
      return false;
    }

    lemma FirstTerminal(before: seq<Callback>, c: Callback)
      requires TerminalCount(before) == 0 && Terminal(c)
      ensures TerminalCount(before + [c]) == 1
    {
      TerminalAppend(before, [c]);
      assert [c][1..] == [];
    }

    lemma NothingDispatched(parse: string -> Option<Json>, describe: string -> string)
      ensures DispatchAll([], parse, describe) == Calls([], false) && TerminalCount([]) == 0
    {
    }

    lemma ReadStep(buffer: string, pieces: seq<string>, i: nat)
      requires i < |pieces|
      ensures var now := SplitFrames(buffer + Normalize(pieces[i])); var later := ReadAll(now.rest, pieces[i + 1..]);
        ReadAll(buffer, pieces[i..]) == Framed(now.frames + later.frames, later.rest)
    {
      assert pieces[i..][1..] == pieces[i + 1..];
    }

    lemma PrefixThrows(prefix: seq<string>, frames: seq<string>, parse: string -> Option<Json>, describe: string -> string)
      requires prefix <= frames && DispatchAll(prefix, parse, describe).threw
      ensures DispatchAll(frames, parse, describe) == DispatchAll(prefix, parse, describe)
    {
      DispatchAppend(prefix, frames[|prefix|..], parse, describe);
      assert frames == prefix + frames[|prefix|..];
    }
  }

  /** The calls do not depend on how the text is cut into pieces, as long as CR LF pairs stay whole. */
  lemma CutDoesNotMatter(pieces: seq<string>, others: seq<string>, end: End)
    requires PairsWhole(pieces) && PairsWhole(others) && Flatten(pieces) == Flatten(others)
    ensures FramesOf(pieces, end) == FramesOf(others, end)
  {
    FramesRefine(pieces);
    FramesRefine(others);
  }
}
