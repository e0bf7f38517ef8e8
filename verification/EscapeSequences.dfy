/** What each kind of byte and escape sequence leaves of the text behind it. */
module EscapeSequences {
  import opened ByteText
  import opened Sanitizer

  /** The byte can start a control sequence or a string sequence behind ESC. */
  ghost predicate Opens(c: byte) {
    c == 0x5B || c == 0x5D || c == 0x5F || c == 0x50
  }

  /** No byte can end a control sequence. */
  ghost predicate NoFinal(body: Bytes) {
    forall k :: 0 <= k < |body| ==> body[k] < 0x40 || body[k] > 0x7E
  }

  /** Neither BEL nor ESC backslash stands in the body of a string sequence. */
  ghost predicate NoTerminator(body: Bytes) {
    && 0x07 !in body
    && forall k :: 0 <= k < |body| - 1 ==> !(body[k] == 0x1B && body[k + 1] == 0x5C)
  }

  // ---------------------------------------------------------------------------------------------
  // Where sequences end
  // ---------------------------------------------------------------------------------------------

  lemma {:induction false} CsiRuns(d: Bytes, i: nat, e: nat)
    requires i <= e <= |d| && forall k :: i <= k < e ==> d[k] < 0x40 || d[k] > 0x7E
    ensures CsiEnd(d, i) == CsiEnd(d, e)
    decreases e - i
  {
    if i < e {
      CsiRuns(d, i + 1, e);
    }
  }

  lemma {:induction false} StringRuns(d: Bytes, i: nat, e: nat)
    requires i <= e <= |d| && forall k :: i <= k < e ==> d[k] != 0x07
    requires forall k :: i <= k < e && k + 1 < |d| ==> !(d[k] == 0x1B && d[k + 1] == 0x5C)
    ensures StringEnd(d, i) == StringEnd(d, e)
    decreases e - i
  {
    if i < e {
      StringRuns(d, i + 1, e);
    }
  }

  /** If the escape at the front of d ends after n bytes, cleaning goes on there. */
  lemma EscapeDropped(d: Bytes, n: nat)
    requires d != [] && d[0] == 0x1B && EscapeEnd(d, 0) == n
    ensures n <= |d| && Clean(d) == Clean(d[n..])
  {
    CleanSkips(d, 0);
    assert d == d[..n] + d[n..];
    CleanSuffix(d[..n], d[n..], 0);
  }

  // ---------------------------------------------------------------------------------------------
  // The cases
  // ---------------------------------------------------------------------------------------------

  /** Tab, newline and the bytes from 0x20 up except DEL are shown; other bytes but ESC are dropped alone. */
  lemma PlainByte(c: byte, b: Bytes)
    requires c != 0x1B
    ensures c == 0x09 || c == 0x0A || (0x20 <= c && c != 0x7F) ==> Clean([c] + b) == [c] + Clean(b)
    ensures c < 0x09 || 0x0A < c < 0x20 || c == 0x7F ==> Clean([c] + b) == Clean(b)
  {
    hide EscapeEnd;
    CleanStep([c] + b, 0);
    CleanSuffix([c], b, 0);
    assert [] + Clean(b) == Clean(b);
  }

  /** ESC at the end, or before a byte that opens nothing, is dropped alone. */
  lemma LoneEscape(b: Bytes)
    requires b != [] ==> !Opens(b[0])
    ensures Clean([0x1B] + b) == Clean(b)
  {
    var d := [0x1B] + b;
    assert b != [] ==> d[1] == b[0];
    EscapeDropped(d, 1);
    assert d[1..] == b;
  }

  /** A control sequence ends behind its first byte from 0x40 to 0x7E. */
  lemma ControlSequenceDropped(body: Bytes, final: byte, b: Bytes)
    requires NoFinal(body) && 0x40 <= final <= 0x7E
    ensures Clean([0x1B, 0x5B] + body + [final] + b) == Clean(b)
  {
    var d := [0x1B, 0x5B] + body + [final] + b;
    var e := |body| + 2;
    assert forall k :: 2 <= k < e ==> d[k] == body[k - 2];
    assert d[e] == final;
    CsiRuns(d, 2, e);
    EscapeDropped(d, e + 1);
    assert d[e + 1..] == b;
  }

  /** A control sequence that is never ended swallows the rest of the text. */
  lemma OpenControlSequence(body: Bytes)
    requires NoFinal(body)
    ensures Clean([0x1B, 0x5B] + body) == []
  {
    var d := [0x1B, 0x5B] + body;
    assert forall k :: 2 <= k < |d| ==> d[k] == body[k - 2];
    CsiRuns(d, 2, |d|);
    EscapeDropped(d, |d|);
    CleanEnd([]);
  }

  lemma StringBody(d: Bytes, opener: byte, body: Bytes, rest: Bytes)
    requires opener == 0x5D || opener == 0x5F || opener == 0x50
    requires d == [0x1B, opener] + body + rest && NoTerminator(body)
    requires rest != [] ==> rest[0] == 0x07 || rest[0] == 0x1B
    ensures EscapeEnd(d, 0) == StringEnd(d, |body| + 2)
  {
    var e := |body| + 2;
    assert forall k :: 2 <= k < e ==> d[k] == body[k - 2];
    assert rest != [] ==> d[e] == rest[0];
    forall k | 2 <= k < e && k + 1 < |d| ensures !(d[k] == 0x1B && d[k + 1] == 0x5C) {
      if k + 1 < e {
        assert d[k] == body[k - 2] && d[k + 1] == body[k - 1];
      }
    }
    StringRuns(d, 2, e);
  }

  /** A string sequence (ESC and one of `]`, `_`, `P`) ends behind its first BEL or ESC backslash. */
  lemma StringSequenceDropped(opener: byte, body: Bytes, terminator: Bytes, b: Bytes)
    requires opener == 0x5D || opener == 0x5F || opener == 0x50
    requires NoTerminator(body) && (terminator == [0x07] || terminator == [0x1B, 0x5C])
    ensures Clean([0x1B, opener] + body + terminator + b) == Clean(b)
  {
    hide EscapeEnd;
    var d := [0x1B, opener] + body + terminator + b;
    var e := |body| + 2;
    Assoc([0x1B, opener] + body, terminator, b);
    StringBody(d, opener, body, terminator + b);
    assert d[e..] == terminator + b;
    assert forall k :: 0 <= k < |terminator| ==> d[e + k] == terminator[k];
    assert StringEnd(d, e) == e + |terminator|;
    EscapeDropped(d, e + |terminator|);
    assert d[e + |terminator|..] == b;
  }

  /** A string sequence that is never ended swallows the rest of the text. */
  lemma OpenStringSequence(opener: byte, body: Bytes)
    requires opener == 0x5D || opener == 0x5F || opener == 0x50
    requires NoTerminator(body)
    ensures Clean([0x1B, opener] + body) == []
  {
    hide EscapeEnd;
    var d := [0x1B, opener] + body;
    assert d == d + [];
    StringBody(d, opener, body, []);
    EscapeDropped(d, |d|);
    CleanEnd([]);
  }

  /** Behind any text without ESC, a finished string sequence vanishes and nothing else does. */
  lemma StringSequenceVanishes(a: Bytes, opener: byte, body: Bytes, terminator: Bytes, b: Bytes)
    requires 0x1B !in a && (opener == 0x5D || opener == 0x5F || opener == 0x50)
    requires NoTerminator(body) && (terminator == [0x07] || terminator == [0x1B, 0x5C])
    ensures Clean(a + [0x1B, opener] + body + terminator + b) == Clean(a) + Clean(b)
  {
    hide CleanFrom;
    var d := [0x1B, opener] + body + terminator + b;
    EscFreeSettles(a, 0);
    SettledSplits(a, d, 0);
    StringSequenceDropped(opener, body, terminator, b);
    assert a + [0x1B, opener] + body + terminator + b == a + d;
  }

  // ---------------------------------------------------------------------------------------------
  // The cases are all there are
  // ---------------------------------------------------------------------------------------------

  ghost predicate PlainLaw(f: Bytes -> Bytes) {
    forall c: byte, b :: c != 0x1B ==>
      f([c] + b) == (if c == 0x09 || c == 0x0A || (0x20 <= c && c != 0x7F) then [c] else []) + f(b)
  }

  ghost predicate LoneEscapeLaw(f: Bytes -> Bytes) {
    forall b :: (b != [] ==> !Opens(b[0])) ==> f([0x1B] + b) == f(b)
  }

  ghost predicate ControlLaw(f: Bytes -> Bytes) {
    && (forall body, final: byte, b :: NoFinal(body) && 0x40 <= final <= 0x7E ==>
         f([0x1B, 0x5B] + body + [final] + b) == f(b))
    && (forall body :: NoFinal(body) ==> f([0x1B, 0x5B] + body) == [])
  }

  ghost predicate StringLaw(f: Bytes -> Bytes, opener: byte) {
    && (forall body, b :: NoTerminator(body) ==> f([0x1B, opener] + body + [0x07] + b) == f(b))
    && (forall body, b :: NoTerminator(body) ==> f([0x1B, opener] + body + [0x1B, 0x5C] + b) == f(b))
    && (forall body :: NoTerminator(body) ==> f([0x1B, opener] + body) == [])
  }

  /** The laws above, as a property of any way to sanitize. */
  ghost predicate Obeys(f: Bytes -> Bytes) {
    && f([]) == [] && PlainLaw(f) && LoneEscapeLaw(f) && ControlLaw(f)
    && StringLaw(f, 0x5D) && StringLaw(f, 0x5F) && StringLaw(f, 0x50)
  }

  /** The first byte that ends a control sequence, if any. */
  lemma FirstFinal(s: Bytes) returns (k: nat)
    ensures k <= |s| && NoFinal(s[..k])
    ensures k < |s| ==> 0x40 <= s[k] <= 0x7E
  {
    k := 0;
    while k < |s| && (s[k] < 0x40 || s[k] > 0x7E)
      invariant k <= |s| && NoFinal(s[..k])
    {
      k := k + 1;
    }
  }

  /** The first terminator of a string sequence, if any, and its length. */
  lemma FirstTerminator(s: Bytes) returns (k: nat, n: nat)
    ensures k + n <= |s| && NoTerminator(s[..k])
    ensures s[k..k + n] == [0x07] || s[k..k + n] == [0x1B, 0x5C] || (n == 0 && k == |s|)
  {
    k := 0;
    while k < |s|
      invariant k <= |s| && NoTerminator(s[..k])
      invariant k > 0 && s[k - 1] == 0x1B && k < |s| ==> s[k] != 0x5C
    {
      if s[k] == 0x07 {
        return k, 1;
      }
      if s[k] == 0x1B && k + 1 < |s| && s[k + 1] == 0x5C {
        return k, 2;
      }
      k := k + 1;
    }
    n := 0;
  }

  lemma CleanObeys()
    ensures Obeys(Clean)
  {
    hide CleanFrom, NoFinal, NoTerminator, Opens;
    assert Clean([]) == [] by {
      CleanEnd([]);
    }
    forall c: byte, b | c != 0x1B
      ensures Clean([c] + b) == (if c == 0x09 || c == 0x0A || (0x20 <= c && c != 0x7F) then [c] else []) + Clean(b)
    {
      PlainByte(c, b);
      assert [] + Clean(b) == Clean(b);
    }
    forall b: Bytes | b != [] ==> !Opens(b[0]) ensures Clean([0x1B] + b) == Clean(b) {
      LoneEscape(b);
    }
    forall body, final: byte, b | NoFinal(body) && 0x40 <= final <= 0x7E
      ensures Clean([0x1B, 0x5B] + body + [final] + b) == Clean(b)
    {
      ControlSequenceDropped(body, final, b);
    }
    forall body | NoFinal(body) ensures Clean([0x1B, 0x5B] + body) == [] {
      OpenControlSequence(body);
    }
    CleanObeysString(0x5D);
    CleanObeysString(0x5F);
    CleanObeysString(0x50);
  }

  lemma CleanObeysString(opener: byte)
    requires opener == 0x5D || opener == 0x5F || opener == 0x50
    ensures StringLaw(Clean, opener)
  {
    hide CleanFrom, NoTerminator;
    forall body, b | NoTerminator(body) ensures Clean([0x1B, opener] + body + [0x07] + b) == Clean(b) {
      StringSequenceDropped(opener, body, [0x07], b);
    }
    forall body, b | NoTerminator(body) ensures Clean([0x1B, opener] + body + [0x1B, 0x5C] + b) == Clean(b) {
      StringSequenceDropped(opener, body, [0x1B, 0x5C], b);
    }
    forall body | NoTerminator(body) ensures Clean([0x1B, opener] + body) == [] {
      OpenStringSequence(opener, body);
    }
  }

  /** The text that goes on behind the sequence at the front of d. */
  lemma BehindControl(f: Bytes -> Bytes, g: Bytes -> Bytes, d: Bytes) returns (b: Bytes)
    requires Obeys(f) && Obeys(g) && |d| > 1 && d[0] == 0x1B && d[1] == 0x5B
    ensures |b| < |d| && f(d) == f(b) && g(d) == g(b)
  {
    hide NoFinal, PlainLaw, LoneEscapeLaw, StringLaw;
    var s := d[2..];
    var k := FirstFinal(s);
    if k < |s| {
      b := s[k + 1..];
      assert d == [0x1B, 0x5B] + s[..k] + [s[k]] + b;
    } else {
      b := [];
      assert d == [0x1B, 0x5B] + s[..k];
    }
  }

  lemma BehindString(f: Bytes -> Bytes, g: Bytes -> Bytes, d: Bytes) returns (b: Bytes)
    requires f([]) == g([]) == [] && |d| > 1 && d[0] == 0x1B && StringLaw(f, d[1]) && StringLaw(g, d[1])
    ensures |b| < |d| && f(d) == f(b) && g(d) == g(b)
  {
    hide NoTerminator;
    var s := d[2..];
    var k, n := FirstTerminator(s);
    b := s[k + n..];
    assert d == [0x1B, d[1]] + s[..k] + s[k..k + n] + b;
    if n == 0 {
      assert d == [0x1B, d[1]] + s[..k] && b == [];
    }
  }

  lemma {:induction false} LawsDetermine(f: Bytes -> Bytes, g: Bytes -> Bytes, d: Bytes)
    requires Obeys(f) && Obeys(g)
    ensures f(d) == g(d)
    decreases |d|
  {
    hide StringLaw, ControlLaw;
    if d == [] {
    } else if d[0] != 0x1B {
      assert d == [d[0]] + d[1..];
      LawsDetermine(f, g, d[1..]);
    } else if |d| == 1 || !Opens(d[1]) {
      assert d == [0x1B] + d[1..];
      LawsDetermine(f, g, d[1..]);
    } else if d[1] == 0x5B {
      var b := BehindControl(f, g, d);
      LawsDetermine(f, g, b);
    } else {
      var b := BehindString(f, g, d);
      LawsDetermine(f, g, b);
    }
  }

  /** The laws hold of the sanitizer and leave no other reading: whatever obeys them agrees on every text. */
  lemma LawsAreClean(f: Bytes -> Bytes, d: Bytes)
    ensures Obeys(Clean)
    ensures Obeys(f) ==> f(d) == Clean(d)
  {
    CleanObeys();
    if Obeys(f) {
      LawsDetermine(f, Clean, d);
    }
  }
}
