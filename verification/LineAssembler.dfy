/** The streaming line assembler: cutting lines out of chunks. */
module LineAssembler {
  import opened ByteText
  import BlockScan
  import Sanitizer

  const CARRIAGE_RETURN: byte := 0x0D

  /** What the JSON parser makes of a payload, as far as the handler looks at it. */
  datatype Parsed = Malformed | Event(usage: Option<Bytes>, piece: Option<Bytes>)
  datatype Option<T> = None | Some(value: T)

  type Parser = Bytes -> Parsed

  /** The handler's results: the answer text, the usage record, the end flag and the terminal output. */
  datatype Answer = Answer(content: Bytes, usage: Option<Bytes>, done: bool, screen: Bytes)

  // ---------------------------------------------------------------------------------------------
  // One line
  // ---------------------------------------------------------------------------------------------

  function StripCr(line: Bytes): Bytes {
    if line != [] && line[|line| - 1] == CARRIAGE_RETURN then line[..|line| - 1] else line
  }

  /** The payload of a data line. */
  function Payload(line: Bytes): Option<Bytes> {
    if |line| < 5 || line[..5] != Ascii("data:") then None
    else if |line| > 5 && line[5] == SPACE then Some(line[6..])
    else Some(line[5..])
  }

  function HandleEvent(a: Answer, e: Parsed): Answer {
    match e
    case Malformed => a
    case Event(usage, piece) =>
      var a1 := if a.usage.None? && usage.Some? then a.(usage := usage) else a;
      if piece.None? || piece.value == [] then a1
      else a1.(content := a1.content + piece.value, screen := a1.screen + Sanitizer.Clean(piece.value))
  }

  /** What one line, without its newline, does to the answer. */
  function HandleLine(parse: Parser, a: Answer, line: Bytes): Answer {
    match Payload(StripCr(line))
    case None => a
    case Some(payload) =>
      if a.done then a
      else if payload == Ascii("[DONE]") then a.(done := true)
      else HandleEvent(a, parse(payload))
  }

  function HandleLines(parse: Parser, a: Answer, lines: seq<Bytes>): Answer
    decreases |lines|
  {
    if lines == [] then a else HandleLines(parse, HandleLine(parse, a, lines[0]), lines[1..])
  }

  // ---------------------------------------------------------------------------------------------
  // Lines of a byte stream
  // ---------------------------------------------------------------------------------------------

  /** The newline-terminated lines of s and what follows the last newline. */
  datatype Cut = Cut(lines: seq<Bytes>, rest: Bytes)

  function FirstNewline(s: Bytes): (r: nat)
    ensures BlockScan.IsFirst(s, [NEWLINE], r)
  {
    if s == [] || s[0] == NEWLINE then 0 else 1 + FirstNewline(s[1..])
  }

  function Split(s: Bytes): Cut
    decreases |s|
  {
    var nl := FirstNewline(s);
    if nl == |s| then Cut([], s)
    else
      var tail := Split(s[nl + 1..]);
      Cut([s[..nl]] + tail.lines, tail.rest)
  }

  function Unsplit(c: Cut): Bytes
    decreases |c.lines|
  {
    if c.lines == [] then c.rest else c.lines[0] + [NEWLINE] + Unsplit(Cut(c.lines[1..], c.rest))
  }

  ghost predicate IsCut(c: Cut) {
    NEWLINE !in c.rest && forall i :: 0 <= i < |c.lines| ==> NEWLINE !in c.lines[i]
  }

  lemma CutAround(s: Bytes, nl: nat)
    requires nl < |s| && s[nl] == NEWLINE
    ensures s == s[..nl] + [NEWLINE] + s[nl + 1..]
  {
  }

  lemma {:induction false} SplitUnsplits(s: Bytes)
    ensures IsCut(Split(s)) && Unsplit(Split(s)) == s
    decreases |s|
  {
    var nl := FirstNewline(s);
    if nl < |s| {
      hide Unsplit, FirstNewline, Split, IsCut;
      SplitUnsplits(s[nl + 1..]);
      UnsplitCons(s[..nl], Split(s[nl + 1..]));
      SplitAtFirst(s, nl);
      CutAround(s, nl);
    }
  }

  lemma UnsplitCons(line: Bytes, tail: Cut)
    ensures Unsplit(Cut([line] + tail.lines, tail.rest)) == line + [NEWLINE] + Unsplit(tail)
    ensures NEWLINE !in line && IsCut(tail) ==> IsCut(Cut([line] + tail.lines, tail.rest))
  {
    assert ([line] + tail.lines)[1..] == tail.lines;
  }

  /** There is only one way to cut a stream into newline-free lines and a newline-free rest. */
  lemma {:induction false} SplitIsTheOnlyCut(c: Cut)
    requires IsCut(c)
    ensures Split(Unsplit(c)) == c
    decreases |c.lines|
  {
    var s := Unsplit(c);
    var nl := FirstNewline(s);
    if c.lines == [] {
      assert nl == |s|;
    } else {
      var line, tail := c.lines[0], Cut(c.lines[1..], c.rest);
      assert s[|line|] == NEWLINE;
      assert forall i :: 0 <= i < |line| ==> s[i] == line[i];
      assert nl == |line|;
      assert s[nl + 1..] == Unsplit(tail) && s[..nl] == line;
      SplitIsTheOnlyCut(tail);
      assert c.lines == [line] + tail.lines;
    }
  }

  lemma SplitStep(line: Bytes, rest: Bytes)
    requires NEWLINE !in line
    ensures Split(line + [NEWLINE] + rest) == Cut([line] + Split(rest).lines, Split(rest).rest)
  {
    var s := line + [NEWLINE] + rest;
    assert s[|line|] == NEWLINE && forall i :: 0 <= i < |line| ==> s[i] == line[i];
    assert FirstNewline(s) == |line|;
    assert s[..|line|] == line && s[|line| + 1..] == rest;
  }

  lemma SplitAtFirst(s: Bytes, nl: nat)
    requires BlockScan.IsFirst(s, [NEWLINE], nl) && nl < |s|
    ensures Split(s) == Cut([s[..nl]] + Split(s[nl + 1..]).lines, Split(s[nl + 1..]).rest)
  {
    hide Split;
    CutAround(s, nl);
    SplitStep(s[..nl], s[nl + 1..]);
  }

  /** What is cut when b arrives after c was cut. */
  function Resume(c: Cut, b: Bytes): Cut {
    Cut(c.lines + Split(c.rest + b).lines, Split(c.rest + b).rest)
  }

  lemma ResumeCons(line: Bytes, c: Cut, b: Bytes)
    ensures Resume(Cut([line] + c.lines, c.rest), b) == Cut([line] + Resume(c, b).lines, Resume(c, b).rest)
  {
    var u := Split(c.rest + b).lines;
    assert ([line] + c.lines) + u == [line] + (c.lines + u);
  }

  lemma ResumeNothing(a: Bytes, b: Bytes)
    requires NEWLINE !in a
    ensures Split(a) == Cut([], a) && Resume(Split(a), b) == Split(a + b)
  {
    assert FirstNewline(a) == |a|;
    assert [] + Split(a + b).lines == Split(a + b).lines;
  }

  lemma CutFirst(s: Bytes) returns (line: Bytes, rest: Bytes)
    requires NEWLINE in s
    ensures NEWLINE !in line && s == line + [NEWLINE] + rest
  {
    var nl := FirstNewline(s);
    line, rest := s[..nl], s[nl + 1..];
  }

  /** Cutting a and then going on with what is left of it cuts the whole. */
  lemma {:induction false} SplitConcat(a: Bytes, b: Bytes)
    ensures Split(a + b) == Resume(Split(a), b)
    decreases |a|
  {
    if NEWLINE !in a {
      ResumeNothing(a, b);
    } else {
      hide Split, Resume;
      var line, tail := CutFirst(a);
      SplitConcat(tail, b);
      SplitStep(line, tail);
      Assoc(line + [NEWLINE], tail, b);
      SplitStep(line, tail + b);
      ResumeCons(line, Split(tail), b);
    }
  }

  lemma HandleCons(parse: Parser, a: Answer, line: Bytes, rest: seq<Bytes>)
    ensures HandleLines(parse, a, [line] + rest) == HandleLines(parse, HandleLine(parse, a, line), rest)
  {
    hide HandleLine;
    assert ([line] + rest)[1..] == rest;
  }

  lemma {:induction false} HandleConcat(parse: Parser, a: Answer, l1: seq<Bytes>, l2: seq<Bytes>)
    ensures HandleLines(parse, a, l1 + l2) == HandleLines(parse, HandleLines(parse, a, l1), l2)
    decreases |l1|
  {
    if l1 == [] {
      assert l1 + l2 == l2;
    } else {
      hide HandleLine, HandleLines;
      HandleConcat(parse, HandleLine(parse, a, l1[0]), l1[1..], l2);
      HandleCons(parse, a, l1[0], l1[1..]);
      HandleCons(parse, a, l1[0], l1[1..] + l2);
      assert l1 == [l1[0]] + l1[1..];
      Assoc([l1[0]], l1[1..], l2);
    }
  }

  // ---------------------------------------------------------------------------------------------
  // The closure
  // ---------------------------------------------------------------------------------------------

  class Assembler {
    const parse: Parser
    var buffer: Bytes
    var content: Bytes
    var usage: Bytes
    var haveUsage: bool
    var streamDone: bool
    var screen: Bytes

    constructor (parse: Parser)
      ensures this.parse == parse && buffer == [] && Result() == Answer([], None, false, [])
    {
      this.parse := parse;
      buffer, content, usage, screen := [], [], [], [];
      haveUsage, streamDone := false, false;
    }

    function Result(): Answer
      reads this
    {
      Answer(content, if haveUsage then Some(usage) else None, streamDone, screen)
    }

    /** One turn of the consume loop on a line already cut out of the buffer. */
    method OnLine(line: Bytes)
      modifies this`content, this`usage, this`haveUsage, this`streamDone, this`screen
      ensures Result() == HandleLine(parse, old(Result()), line)
    {
      var view := line;
      if view != [] && view[|view| - 1] == CARRIAGE_RETURN {
        view := view[..|view| - 1];
      }
      if |view| < 5 || view[..5] != Ascii("data:") {
        return;
      }
      var payload := view[5..];
      if |payload| > 0 && payload[0] == SPACE {
        payload := payload[1..];
      }
      assert Payload(StripCr(line)) == Some(payload);
      if streamDone {
        return;
      }
      if |payload| == 6 && payload == Ascii("[DONE]") {
        streamDone := true;
        return;
      }
      match parse(payload)
      case Malformed =>
      case Event(u, piece) =>
        if !haveUsage && u.Some? {
          usage, haveUsage := u.value, true;
        }
        if piece.None? || piece.value == [] {
          return;
        }
        content := content + piece.value;
        var safe := Sanitizer.SanitizeVector(piece.value);
        if safe != [] {
          screen := screen + safe;
        } else {
          assert screen + safe == screen;
        }
    }

    /** Takes the first line off the buffer and handles it. */
    method ConsumeLine(nl: nat)
      requires BlockScan.IsFirst(buffer, [NEWLINE], nl) && nl < |buffer|
      modifies this
      ensures |buffer| < |old(buffer)|
      ensures Split(old(buffer)) == Cut([old(buffer)[..nl]] + Split(buffer).lines, Split(buffer).rest)
      ensures Result() == HandleLine(parse, old(Result()), old(buffer)[..nl])
    {
      hide Split, HandleLine;
      var line := buffer[..nl];
      SplitAtFirst(buffer, nl);
      buffer := buffer[nl + 1..];
      OnLine(line);
    }

    /** The callback: handle every line that the new data completes and keep the rest. */
    method OnData(data: Bytes)
      modifies this
      ensures buffer == Split(old(buffer) + data).rest
      ensures Result() == HandleLines(parse, old(Result()), Split(old(buffer) + data).lines)
    {
      buffer := buffer + data;
      ghost var all := Split(buffer);
      var nl := BlockScan.FindFirstOfScalar(buffer, [NEWLINE]);
      while nl != |buffer|
        invariant BlockScan.IsFirst(buffer, [NEWLINE], nl)
        invariant all.rest == Split(buffer).rest
        invariant HandleLines(parse, old(Result()), all.lines) == HandleLines(parse, Result(), Split(buffer).lines)
        decreases |buffer|
      {
        ghost var before := Split(buffer).lines;
        ConsumeLine(nl);
        assert before[1..] == Split(buffer).lines;
        nl := BlockScan.FindFirstOfScalar(buffer, [NEWLINE]);
      }
      assert FirstNewline(buffer) == |buffer|;
    }

    /** A whole response: the pieces in the order they arrive. */
    method Receive(pieces: seq<Bytes>)
      requires NEWLINE !in buffer
      modifies this
      ensures buffer == Split(old(buffer) + Concat(pieces)).rest
      ensures Result() == HandleLines(parse, old(Result()), Split(old(buffer) + Concat(pieces)).lines)
    {
      var i := 0;
      while i < |pieces|
        invariant i <= |pieces|
        invariant State(buffer, Result()) == Feed(parse, State(old(buffer), old(Result())), pieces[..i])
      {
        FeedLast(parse, State(old(buffer), old(Result())), pieces[..i], pieces[i]);
        assert pieces[..i + 1] == pieces[..i] + [pieces[i]];
        OnData(pieces[i]);
        i := i + 1;
      }
      assert pieces[..i] == pieces;
      FeedIsSplit(parse, State(old(buffer), old(Result())), pieces);
    }
  }

  // ---------------------------------------------------------------------------------------------
  // Chunking invariance
  // ---------------------------------------------------------------------------------------------

  datatype State = State(buffer: Bytes, answer: Answer)

  function FeedOne(parse: Parser, s: State, data: Bytes): State {
    var c := Split(s.buffer + data);
    State(c.rest, HandleLines(parse, s.answer, c.lines))
  }

  /** The effect of `on_data` on each piece in turn. */
  function Feed(parse: Parser, s: State, pieces: seq<Bytes>): State
    decreases |pieces|
  {
    if pieces == [] then s else Feed(parse, FeedOne(parse, s, pieces[0]), pieces[1..])
  }

  function Concat(pieces: seq<Bytes>): Bytes {
    if pieces == [] then [] else pieces[0] + Concat(pieces[1..])
  }

  lemma {:induction false} FeedLast(parse: Parser, s: State, pieces: seq<Bytes>, last: Bytes)
    ensures Feed(parse, s, pieces + [last]) == FeedOne(parse, Feed(parse, s, pieces), last)
    decreases |pieces|
  {
    if pieces == [] {
      assert Feed(parse, s, [last]) == Feed(parse, FeedOne(parse, s, last), []);
    } else {
      FeedLast(parse, FeedOne(parse, s, pieces[0]), pieces[1..], last);
      assert (pieces + [last])[1..] == pieces[1..] + [last];
    }
  }

  /** Two pieces fed one after the other are one piece. */
  lemma FeedTwo(parse: Parser, s: State, d1: Bytes, d2: Bytes)
    ensures FeedOne(parse, FeedOne(parse, s, d1), d2) == FeedOne(parse, s, d1 + d2)
  {
    SplitConcat(s.buffer + d1, d2);
    assert s.buffer + d1 + d2 == s.buffer + (d1 + d2);
    var c := Split(s.buffer + d1);
    HandleConcat(parse, s.answer, c.lines, Split(c.rest + d2).lines);
  }

  /** Feeding the pieces is cutting the whole stream once. */
  lemma {:induction false} FeedIsSplit(parse: Parser, s: State, pieces: seq<Bytes>)
    requires NEWLINE !in s.buffer
    ensures Feed(parse, s, pieces) == FeedOne(parse, s, Concat(pieces))
    decreases |pieces|
  {
    if pieces == [] {
      assert FirstNewline(s.buffer) == |s.buffer|;
      assert s.buffer + [] == s.buffer;
    } else {
      SplitUnsplits(s.buffer + pieces[0]);
      FeedIsSplit(parse, FeedOne(parse, s, pieces[0]), pieces[1..]);
      FeedTwo(parse, s, pieces[0], Concat(pieces[1..]));
    }
  }

  /** Two ways of cutting the same response into pieces end in the same state. */
  lemma ChunkingInvariance(parse: Parser, a: Answer, pieces1: seq<Bytes>, pieces2: seq<Bytes>)
    requires Concat(pieces1) == Concat(pieces2)
    ensures Feed(parse, State([], a), pieces1) == Feed(parse, State([], a), pieces2)
  {
    FeedIsSplit(parse, State([], a), pieces1);
    FeedIsSplit(parse, State([], a), pieces2);
  }

  /** After the end marker nothing that arrives changes the answer. */
  lemma {:induction false} NothingAfterDone(parse: Parser, a: Answer, lines: seq<Bytes>)
    requires a.done
    ensures HandleLines(parse, a, lines) == a
    decreases |lines|
  {
    if lines != [] {
      NothingAfterDone(parse, a, lines[1..]);
    }
  }

  /** Bytes after a complete end marker are irrelevant, however they are cut. */
  lemma DoneIsFinal(parse: Parser, s: State, pieces: seq<Bytes>)
    requires s.answer.done && NEWLINE !in s.buffer
    ensures Feed(parse, s, pieces).answer == s.answer
  {
    FeedIsSplit(parse, s, pieces);
    NothingAfterDone(parse, s.answer, Split(s.buffer + Concat(pieces)).lines);
  }

  /** The answer only grows: text is appended, the first usage record stays, the flag stays set. */
  lemma {:induction false} AnswerOnlyGrows(parse: Parser, a: Answer, lines: seq<Bytes>)
    ensures var r := HandleLines(parse, a, lines);
      && a.content <= r.content && a.screen <= r.screen
      && (a.usage.Some? ==> r.usage == a.usage) && (a.done ==> r.done)
    decreases |lines|
  {
    if lines != [] {
      AnswerOnlyGrows(parse, HandleLine(parse, a, lines[0]), lines[1..]);
    }
  }

  // ---------------------------------------------------------------------------------------------
  // Line ends
  // ---------------------------------------------------------------------------------------------

  function WithCr(lines: seq<Bytes>): (r: seq<Bytes>)
    ensures |r| == |lines| && forall i :: 0 <= i < |lines| ==> r[i] == lines[i] + [CARRIAGE_RETURN]
  {
    if lines == [] then [] else [lines[0] + [CARRIAGE_RETURN]] + WithCr(lines[1..])
  }

  /** CRLF line ends are handled like LF line ends, for lines that do not themselves end in CR. */
  lemma {:induction false} CrLfLikeLf(parse: Parser, a: Answer, lines: seq<Bytes>)
    requires forall i :: 0 <= i < |lines| ==> lines[i] == [] || lines[i][|lines[i]| - 1] != CARRIAGE_RETURN
    ensures HandleLines(parse, a, WithCr(lines)) == HandleLines(parse, a, lines)
    decreases |lines|
  {
    if lines != [] {
      assert StripCr(lines[0] + [CARRIAGE_RETURN]) == lines[0] == StripCr(lines[0]);
      CrLfLikeLf(parse, HandleLine(parse, a, lines[0]), lines[1..]);
      assert WithCr(lines)[1..] == WithCr(lines[1..]);
    }
  }

  /** A lone CR does not end a line: without a newline nothing is handled. */
  lemma CrAloneEndsNothing(parse: Parser, s: State, data: Bytes)
    requires NEWLINE !in s.buffer
    ensures NEWLINE !in data <==> Split(s.buffer + data).lines == []
    ensures NEWLINE !in data ==> FeedOne(parse, s, data) == State(s.buffer + data, s.answer)
  {
    var all := s.buffer + data;
    var nl := FirstNewline(all);
    if NEWLINE !in data {
      assert NEWLINE !in all;
      assert nl == |all|;
    } else {
      var k :| 0 <= k < |data| && data[k] == NEWLINE;
      assert all[|s.buffer| + k] == NEWLINE;
    }
  }

  // ---------------------------------------------------------------------------------------------
  // What reaches the terminal
  // ---------------------------------------------------------------------------------------------

  /** The text pieces that the lines add to the content, in order. */
  function Pieces(parse: Parser, a: Answer, lines: seq<Bytes>): seq<Bytes>
    decreases |lines|
  {
    if lines == [] then []
    else
      var a1 := HandleLine(parse, a, lines[0]);
      [a1.content[if |a.content| <= |a1.content| then |a.content| else 0..]] + Pieces(parse, a1, lines[1..])
  }

  /** One line appends a piece to the content and the same piece, sanitized, to the screen. */
  lemma LineAppends(parse: Parser, a: Answer, line: Bytes)
    ensures var a1 := HandleLine(parse, a, line);
      a.content <= a1.content && a1.screen == a.screen + Sanitizer.Clean(a1.content[|a.content|..])
  {
    var a1 := HandleLine(parse, a, line);
    if a1.content == a.content {
      assert a1.content[|a.content|..] == [];
      assert a.screen + [] == a.screen;
    }
  }

  /** If no piece ends inside an escape sequence, the terminal shows the sanitized content. */
  lemma {:induction false} ScreenIsCleanContent(parse: Parser, a: Answer, lines: seq<Bytes>)
    requires a.screen == Sanitizer.Clean(a.content) && Sanitizer.Settled(a.content, 0)
    requires forall i :: 0 <= i < |Pieces(parse, a, lines)| ==> Sanitizer.Settled(Pieces(parse, a, lines)[i], 0)
    ensures var r := HandleLines(parse, a, lines); r.screen == Sanitizer.Clean(r.content)
    decreases |lines|
  {
    hide Sanitizer.CleanFrom, Sanitizer.Settled, HandleLine;
    if lines != [] {
      var a1 := HandleLine(parse, a, lines[0]);
      var piece := a1.content[if |a.content| <= |a1.content| then |a.content| else 0..];
      assert Pieces(parse, a, lines)[0] == piece;
      LineAppends(parse, a, lines[0]);
      assert a1.content == a.content + piece;
      Sanitizer.SettledSplits(a.content, piece, 0);
      Sanitizer.SettledConcat(a.content, piece, 0);
      forall i | 0 <= i < |Pieces(parse, a1, lines[1..])|
        ensures Sanitizer.Settled(Pieces(parse, a1, lines[1..])[i], 0)
      {
        assert Pieces(parse, a1, lines[1..])[i] == Pieces(parse, a, lines)[i + 1];
      }
      ScreenIsCleanContent(parse, a1, lines[1..]);
    }
  }

  /** Whatever event comes next, the terminal goes on showing the sanitized content iff the content is settled. */
  lemma ScreenStaysCleanIffSettled(a: Answer)
    requires a.screen == Sanitizer.Clean(a.content)
    ensures Sanitizer.Settled(a.content, 0)
       <==> forall e :: HandleEvent(a, e).screen == Sanitizer.Clean(HandleEvent(a, e).content)
  {
    hide Sanitizer.CleanFrom, Sanitizer.Settled;
    Sanitizer.SplitsExactlyWhenSettled(a.content);
    if !Sanitizer.Settled(a.content, 0) {
      var b :| Sanitizer.Clean(a.content + b) != a.screen + Sanitizer.Clean(b);
      var e := Event(None, Some(b));
      if b == [] {
        assert a.content + [] == a.content && a.screen + [] == a.screen;
        Sanitizer.FixedPoints([]);
      }
      assert HandleEvent(a, e).content == a.content + b;
    }
  }

  lemma {:induction false} LinesKeepScreenSafe(parse: Parser, a: Answer, lines: seq<Bytes>)
    requires Sanitizer.AllShown(a.screen)
    ensures Sanitizer.AllShown(HandleLines(parse, a, lines).screen)
    decreases |lines|
  {
    hide HandleLine, Sanitizer.CleanFrom;
    if lines != [] {
      var a1 := HandleLine(parse, a, lines[0]);
      LineAppends(parse, a, lines[0]);
      var _ := Sanitizer.OutputIsSafe(a1.content[|a.content|..], 0);
      LinesKeepScreenSafe(parse, a1, lines[1..]);
    }
  }

  /** However the stream is cut and wherever pieces end, no control byte ever reaches the terminal. */
  lemma {:induction false} ScreenIsAlwaysSafe(parse: Parser, s: State, chunks: seq<Bytes>)
    requires Sanitizer.AllShown(s.answer.screen)
    ensures Sanitizer.AllShown(Feed(parse, s, chunks).answer.screen)
    decreases |chunks|
  {
    hide HandleLines, Split, Sanitizer.AllShown;
    if chunks != [] {
      LinesKeepScreenSafe(parse, s.answer, Split(s.buffer + chunks[0]).lines);
      ScreenIsAlwaysSafe(parse, FeedOne(parse, s, chunks[0]), chunks[1..]);
    }
  }

  const NOTHING: Answer := Answer([], None, false, [])

  /** ESC at the end of one piece and `[A` at the start of the next: shown, though the whole is one control sequence. */
  lemma CutSequenceIsShown(parse: Parser, line1: Bytes, line2: Bytes, payload1: Bytes, payload2: Bytes)
    requires Payload(StripCr(line1)) == Some(payload1) && Payload(StripCr(line2)) == Some(payload2)
    requires payload1 != Ascii("[DONE]") && payload2 != Ascii("[DONE]")
    requires parse(payload1) == Event(None, Some([Sanitizer.ESC]))
    requires parse(payload2) == Event(None, Some(Sanitizer.Probe()))
    ensures var r := HandleLines(parse, NOTHING, [line1, line2]);
      && r.content == [Sanitizer.ESC] + Sanitizer.Probe() && r.screen == Sanitizer.Probe()
      && Sanitizer.Clean(r.content) == []
  {
    hide Sanitizer.CleanFrom;
    var a1 := HandleLine(parse, NOTHING, line1);
    Sanitizer.EscapeAlone();
    assert a1 == Answer([Sanitizer.ESC], None, false, []);
    var a2 := HandleLine(parse, a1, line2);
    Sanitizer.ProbeIsShown();
    assert [] + Sanitizer.Probe() == Sanitizer.Probe();
    assert [line1, line2][1..] == [line2] && [line2][1..] == [];
    assert HandleLines(parse, NOTHING, [line1, line2]) == HandleLines(parse, a1, [line2]) == a2;
    assert a2.content == [Sanitizer.ESC] + Sanitizer.Probe();
  }
}
