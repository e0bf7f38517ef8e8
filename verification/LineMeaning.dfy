/** What a line of the response means, byte by byte, and when a response has ended. */
module LineMeaning {
  import opened ByteText
  import opened LineAssembler
  import Sanitizer

  /** The line starts with `data:`. */
  ghost predicate HasPrefix(line: Bytes) {
    |line| >= 5 && line[..5] == [0x64, 0x61, 0x74, 0x61, 0x3A]
  }

  /** `data:`, perhaps a space, the payload, perhaps a CR. */
  function DataLine(payload: Bytes, space: bool, cr: bool): (line: Bytes)
    ensures space && cr ==> line == [0x64, 0x61, 0x74, 0x61, 0x3A, 0x20] + payload + [0x0D]
    ensures space && !cr ==> line == [0x64, 0x61, 0x74, 0x61, 0x3A, 0x20] + payload
    ensures !space && cr ==> line == [0x64, 0x61, 0x74, 0x61, 0x3A] + payload + [0x0D]
    ensures !space && !cr ==> line == [0x64, 0x61, 0x74, 0x61, 0x3A] + payload
  {
    [0x64, 0x61, 0x74, 0x61, 0x3A] + (if space then [0x20] else []) + payload + (if cr then [0x0D] else [])
  }

  /** A space in front and a CR at the end are never read as payload. */
  ghost predicate ReadsAs(payload: Bytes, space: bool, cr: bool) {
    && (payload != [] && payload[0] == 0x20 ==> space)
    && (payload != [] && payload[|payload| - 1] == 0x0D ==> cr)
  }

  /** `data:[DONE]` or `data: [DONE]`, with or without a CR at the end. */
  ghost predicate EndMarker(line: Bytes) {
    || line == [0x64, 0x61, 0x74, 0x61, 0x3A, 0x5B, 0x44, 0x4F, 0x4E, 0x45, 0x5D]
    || line == [0x64, 0x61, 0x74, 0x61, 0x3A, 0x5B, 0x44, 0x4F, 0x4E, 0x45, 0x5D, 0x0D]
    || line == [0x64, 0x61, 0x74, 0x61, 0x3A, 0x20, 0x5B, 0x44, 0x4F, 0x4E, 0x45, 0x5D]
    || line == [0x64, 0x61, 0x74, 0x61, 0x3A, 0x20, 0x5B, 0x44, 0x4F, 0x4E, 0x45, 0x5D, 0x0D]
  }

  lemma Literals()
    ensures Ascii("data:") == [0x64, 0x61, 0x74, 0x61, 0x3A]
    ensures Ascii("[DONE]") == [0x5B, 0x44, 0x4F, 0x4E, 0x45, 0x5D]
  {
  }

  // ---------------------------------------------------------------------------------------------
  // One line
  // ---------------------------------------------------------------------------------------------

  /** Every data line can be read in exactly one way. */
  lemma DataLineReads(line: Bytes) returns (payload: Bytes, space: bool, cr: bool)
    requires HasPrefix(line)
    ensures line == DataLine(payload, space, cr) && ReadsAs(payload, space, cr)
  {
    cr := line[|line| - 1] == 0x0D;
    var body := line[5..if cr then |line| - 1 else |line|];
    space := body != [] && body[0] == 0x20;
    payload := if space then body[1..] else body;
    assert line == line[..5] + body + (if cr then [0x0D] else []);
    assert body == (if space then [0x20] else []) + payload;
  }

  lemma PayloadOf(payload: Bytes, space: bool, cr: bool)
    requires ReadsAs(payload, space, cr)
    ensures Payload(StripCr(DataLine(payload, space, cr))) == Some(payload)
  {
    Literals();
    var line := DataLine(payload, space, cr);
    var stripped := DataLine(payload, space, false);
    assert StripCr(line) == stripped by {
      if !cr {
        assert line[|line| - 1] != CARRIAGE_RETURN;
      } else {
        assert line == stripped + [0x0D];
      }
    }
    assert stripped[..5] == Ascii("data:");
    if space {
      assert stripped[5] == 0x20 && stripped[6..] == payload;
    } else {
      assert stripped[5..] == payload;
      assert payload != [] ==> stripped[5] == payload[0];
    }
  }

  /** A line without the prefix, and any line after the end marker, changes nothing. */
  lemma OtherLineIgnored(parse: Parser, a: Answer, line: Bytes)
    requires !HasPrefix(line) || a.done
    ensures HandleLine(parse, a, line) == a
  {
    Literals();
  }

  /** A data line hands its payload to the parser; a bad payload is dropped, an event adds its usage and text. */
  lemma DataLineHandled(parse: Parser, a: Answer, payload: Bytes, space: bool, cr: bool)
    requires !a.done && ReadsAs(payload, space, cr) && payload != [0x5B, 0x44, 0x4F, 0x4E, 0x45, 0x5D]
    ensures var r := HandleLine(parse, a, DataLine(payload, space, cr));
      match parse(payload)
      case Malformed => r == a
      case Event(usage, piece) =>
        && !r.done
        && r.usage == (if a.usage.Some? then a.usage else usage)
        && r.content == a.content + (if piece.Some? then piece.value else [])
        && r.screen == a.screen + (if piece.Some? then Sanitizer.Clean(piece.value) else [])
  {
    PayloadOf(payload, space, cr);
    Literals();
    hide Payload, StripCr, DataLine;
    if parse(payload).Event? {
      assert a.content + [] == a.content && a.screen + [] == a.screen;
      Sanitizer.CleanEnd([]);
    }
  }

  /** A line ends the stream exactly when it is the end marker, and then does nothing else. */
  lemma EndMarkerEnds(parse: Parser, a: Answer, line: Bytes)
    ensures HandleLine(parse, a, line).done <==> a.done || EndMarker(line)
    ensures EndMarker(line) ==> HandleLine(parse, a, line) == a.(done := true)
  {
    hide HandleLine, DataLine, ReadsAs;
    if a.done || !HasPrefix(line) {
      OtherLineIgnored(parse, a, line);
    } else {
      var payload, space, cr := DataLineReads(line);
      MarkerReads(payload, space, cr);
      if payload == [0x5B, 0x44, 0x4F, 0x4E, 0x45, 0x5D] {
        PayloadOf(payload, space, cr);
        Literals();
        MarkerHandled(parse, a, line);
      } else {
        DataLineHandled(parse, a, payload, space, cr);
      }
    }
  }

  lemma MarkerHandled(parse: Parser, a: Answer, line: Bytes)
    requires !a.done && Payload(StripCr(line)) == Some(Ascii("[DONE]"))
    ensures HandleLine(parse, a, line) == a.(done := true)
  {
    hide Payload, StripCr;
  }

  lemma MarkerPayload(line: Bytes)
    requires EndMarker(line)
    ensures Payload(StripCr(line)) == Some([0x5B, 0x44, 0x4F, 0x4E, 0x45, 0x5D])
  {
    Literals();
    var stripped := StripCr(line);
    if |line| == 12 && line[5] == 0x20 {
      assert stripped == line;
    } else if |line| == 11 {
      assert stripped == line;
    } else {
      assert stripped == line[..|line| - 1];
    }
    assert stripped[..5] == Ascii("data:");
    if stripped[5] == 0x20 {
      assert stripped[6..] == [0x5B, 0x44, 0x4F, 0x4E, 0x45, 0x5D];
    } else {
      assert stripped[5..] == [0x5B, 0x44, 0x4F, 0x4E, 0x45, 0x5D];
    }
  }

  lemma MarkerReads(payload: Bytes, space: bool, cr: bool)
    requires ReadsAs(payload, space, cr)
    ensures EndMarker(DataLine(payload, space, cr)) <==> payload == [0x5B, 0x44, 0x4F, 0x4E, 0x45, 0x5D]
  {
    var line := DataLine(payload, space, cr);
    if EndMarker(line) {
      MarkerPayload(line);
      PayloadOf(payload, space, cr);
    }
  }

  // ---------------------------------------------------------------------------------------------
  // A whole response
  // ---------------------------------------------------------------------------------------------

  /** `line` is one of the newline-terminated lines of s. */
  ghost predicate LineAt(s: Bytes, before: Bytes, line: Bytes, after: Bytes) {
    && s == before + line + [0x0A] + after
    && 0x0A !in line
    && (before == [] || before[|before| - 1] == 0x0A)
  }

  lemma {:induction false} CutLineStands(s: Bytes, i: nat) returns (before: Bytes, after: Bytes)
    requires i < |Split(s).lines|
    ensures LineAt(s, before, Split(s).lines[i], after)
    decreases i
  {
    hide Split;
    SplitUnsplits(s);
    if NEWLINE !in s {
      ResumeNothing(s, []);
    }
    var first, rest := CutFirst(s);
    SplitStep(first, rest);
    if i == 0 {
      before, after := [], rest;
      assert [] + first == first;
    } else {
      var b, a := CutLineStands(rest, i - 1);
      before, after := first + [NEWLINE] + b, a;
      AssocLine(first + [NEWLINE], b, Split(s).lines[i], a);
    }
  }

  lemma AssocLine(x: Bytes, before: Bytes, line: Bytes, after: Bytes)
    ensures x + (before + line + [0x0A] + after) == x + before + line + [0x0A] + after
  {
  }

  lemma {:induction false} StandingLineIsCut(s: Bytes, before: Bytes, line: Bytes, after: Bytes)
    requires LineAt(s, before, line, after)
    ensures line in Split(s).lines
    decreases |before|
  {
    hide Split;
    if before == [] {
      assert [] + line == line;
      SplitStep(line, after);
    } else {
      var first, rest := CutFirst(before);
      var s' := rest + line + [0x0A] + after;
      assert rest != [] ==> rest[|rest| - 1] == before[|before| - 1];
      StandingLineIsCut(s', rest, line, after);
      AssocLine(first + [NEWLINE], rest, line, after);
      SplitStep(first, s');
    }
  }

  lemma {:induction false} LinesEnd(parse: Parser, a: Answer, lines: seq<Bytes>)
    ensures HandleLines(parse, a, lines).done <==> a.done || exists i :: 0 <= i < |lines| && EndMarker(lines[i])
    decreases |lines|
  {
    hide HandleLine, EndMarker;
    if lines != [] {
      EndMarkerEnds(parse, a, lines[0]);
      LinesEnd(parse, HandleLine(parse, a, lines[0]), lines[1..]);
      if i :| 0 <= i < |lines| && EndMarker(lines[i]) && i > 0 {
        assert lines[1..][i - 1] == lines[i];
      }
    }
  }

  /**
   However the response is cut into pieces, the end flag is set afterwards exactly when it was set before
   or one of the lines that are now complete is the end marker.
   */
  lemma DoneIffMarkerArrived(parse: Parser, s: State, pieces: seq<Bytes>)
    requires 0x0A !in s.buffer
    ensures Feed(parse, s, pieces).answer.done <==>
      s.answer.done ||
      exists before, line, after :: LineAt(s.buffer + Concat(pieces), before, line, after) && EndMarker(line)
  {
    hide HandleLines, Split, EndMarker, Concat, Feed;
    var all := s.buffer + Concat(pieces);
    FeedIsSplit(parse, s, pieces);
    var lines := Split(all).lines;
    LinesEnd(parse, s.answer, lines);
    if i :| 0 <= i < |lines| && EndMarker(lines[i]) {
      var before, after := CutLineStands(all, i);
    }
    if before, line, after :| LineAt(all, before, line, after) && EndMarker(line) {
      StandingLineIsCut(all, before, line, after);
    }
  }

  /** One complete line after another is handled as it arrives; the rest is kept for the next piece. */
  lemma CompleteLineHandled(parse: Parser, a: Answer, line: Bytes, rest: Bytes)
    requires 0x0A !in line && 0x0A !in rest
    ensures Feed(parse, State([], a), [line + [0x0A] + rest]) == State(rest, HandleLine(parse, a, line))
  {
    hide HandleLine;
    var data := line + [NEWLINE] + rest;
    assert [] + data == data;
    SplitStep(line, rest);
    ResumeNothing(rest, []);
    assert Split(data) == Cut([line], rest);
    HandleCons(parse, a, line, []);
    assert [line] + [] == [line];
    assert FeedOne(parse, State([], a), data) == State(rest, HandleLine(parse, a, line));
  }
}
