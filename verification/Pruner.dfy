/** Context compression: three passes over the text, and the specification `Compressed`. */
module Pruner {
  import opened ByteText
  import opened Tokenizer

  const GAP: set<byte> := {SPACE, TAB, NEWLINE}
  const BANG: byte := 0x21
  const QUESTION: byte := 0x3F
  const DOT: byte := 0x2E

  // ---------------------------------------------------------------------------------------------
  // Specification
  // ---------------------------------------------------------------------------------------------

  function Tokens(s: Bytes, i: nat): seq<Bytes>
    requires i <= |s|
    decreases |s| - i
  {
    var b := SkipSeparators(s, GAP, i);
    if b == |s| then []
    else
      var e := TokenEnd(s, GAP, b);
      [s[b..e]] + Tokens(s, e)
  }

  /** Length of the run of c at the start of s. */
  function Run(s: Bytes, c: byte): (r: nat)
    ensures r <= |s| && (forall k :: 0 <= k < r ==> s[k] == c) && (r < |s| ==> s[r] != c)
  {
    if s == [] || s[0] != c then 0 else 1 + Run(s[1..], c)
  }

  /** What a run of r copies of c becomes: ! and ? once, dots once unless exactly three. */
  function RunKept(c: byte, r: nat): Bytes {
    if c == DOT && r == 3 then [DOT, DOT, DOT] else [c]
  }

  predicate Collapses(c: byte) {
    c == BANG || c == QUESTION || c == DOT
  }

  function CollapseRuns(s: Bytes): Bytes
    decreases |s|
  {
    if s == [] then []
    else if Collapses(s[0]) then RunKept(s[0], Run(s, s[0])) + CollapseRuns(s[Run(s, s[0])..])
    else [s[0]] + CollapseRuns(s[1..])
  }

  predicate IsAlpha(c: byte) {
    0x41 <= c <= 0x5A || 0x61 <= c <= 0x7A
  }

  function Lower(c: byte): byte {
    if 0x41 <= c <= 0x5A then c + 0x20 else c
  }

  function LowerAll(s: Bytes): (r: Bytes)
    ensures |r| == |s| && forall i :: 0 <= i < |s| ==> r[i] == Lower(s[i])
  {
    if s == [] then [] else [Lower(s[0])] + LowerAll(s[1..])
  }

  function DropLeft(s: Bytes): Bytes {
    if s == [] || IsAlpha(s[0]) then s else DropLeft(s[1..])
  }

  function DropRight(s: Bytes): Bytes {
    if s == [] || IsAlpha(s[|s| - 1]) then s else DropRight(s[..|s| - 1])
  }

  function Fillers(): (r: seq<Bytes>)
    ensures forall f :: f in r ==> |f| <= 3
  {
    [Ascii("um"), Ascii("uh"), Ascii("erm"), Ascii("er"), Ascii("hmm"), Ascii("umm"), Ascii("uhh"), Ascii("uhm"),
     Ascii("heh")]
  }

  /** The token, without leading and trailing non-letters, is a hesitation sound in any case. */
  predicate IsFiller(token: Bytes) {
    LowerAll(DropRight(DropLeft(token))) in Fillers()
  }

  function KeptWord(token: Bytes): seq<Bytes> {
    if IsFiller(token) then [] else [token]
  }

  function Words(tokens: seq<Bytes>): seq<Bytes> {
    if tokens == [] then [] else KeptWord(CollapseRuns(tokens[0])) + Words(tokens[1..])
  }

  function Join(words: seq<Bytes>): Bytes {
    if words == [] then [] else if |words| == 1 then words[0] else words[0] + [SPACE] + Join(words[1..])
  }

  /** The specification of `compress_context`: split into tokens, collapse each, drop fillers, join with spaces. */
  function Compressed(s: Bytes): Bytes {
    Join(Words(Tokens(s, 0)))
  }

  // ---------------------------------------------------------------------------------------------
  // First pass: whitespace
  // ---------------------------------------------------------------------------------------------

  function Newlines(s: Bytes): nat {
    if s == [] then 0 else (if s[0] == NEWLINE then 1 else 0) + Newlines(s[1..])
  }

  /** What a gap becomes: a space, a newline, or a blank line. */
  function GapKept(newlines: nat): Bytes {
    if newlines >= 2 then [NEWLINE, NEWLINE] else if newlines == 1 then [NEWLINE] else [SPACE]
  }

  /** The text from the token at b on, with every inner gap reduced and the last one dropped. */
  function Structural(s: Bytes, b: nat): Bytes
    requires b <= |s| && (b < |s| ==> s[b] !in GAP)
    decreases |s| - b
  {
    if b == |s| then []
    else
      var e := TokenEnd(s, GAP, b);
      var c := SkipSeparators(s, GAP, e);
      if c == |s| then s[b..e] else s[b..e] + GapKept(Newlines(s[e..c])) + Structural(s, c)
  }

  /** What the loop still appends, with `newlines` newlines and perhaps a space pending. */
  ghost function Pending(s: Bytes, i: nat, newlines: nat, space: bool): Bytes
    requires i <= |s|
    decreases |s| - i
  {
    if i == |s| then []
    else if s[i] == NEWLINE then Pending(s, i + 1, newlines + 1, false)
    else if s[i] in GAP then Pending(s, i + 1, newlines, newlines == 0 || space)
    else (if newlines > 0 || space then GapKept(newlines) else []) + [s[i]] + Pending(s, i + 1, 0, false)
  }

  lemma PushAssoc(out: Bytes, kept: Bytes, c: byte, rest: Bytes)
    ensures out + (kept + [c] + rest) == out + kept + [c] + rest
  {
  }

  method CollapseWhitespace(input: Bytes) returns (out: Bytes)
    ensures out == Structural(input, SkipSeparators(input, GAP, 0))
  {
    out := [];
    var i := 0;
    while i < |input| && (input[i] == SPACE || input[i] == TAB || input[i] == NEWLINE)
      invariant i <= |input| && SkipSeparators(input, GAP, i) == SkipSeparators(input, GAP, 0)
    {
      i := i + 1;
    }
    var start := i;
    var newlineRun := 0;
    var pendingSpace := false;
    while i < |input|
      invariant start <= i <= |input|
      invariant out == [] ==> i == start && newlineRun == 0 && !pendingSpace
      invariant out != [] ==> out[|out| - 1] !in GAP
      invariant newlineRun > 0 ==> !pendingSpace
      invariant out + Pending(input, i, newlineRun, pendingSpace) == Pending(input, start, 0, false)
    {
      var c := input[i];
      if c == NEWLINE {
        newlineRun := newlineRun + 1;
        pendingSpace := false;
      } else if c == SPACE || c == TAB {
        if newlineRun == 0 {
          pendingSpace := true;
        }
      } else {
        ghost var before := out;
        ghost var kept := if newlineRun > 0 || pendingSpace then GapKept(newlineRun) else [];
        PushAssoc(out, kept, c, Pending(input, i + 1, 0, false));
        if newlineRun > 0 {
          out := out + (if newlineRun >= 2 then [NEWLINE, NEWLINE] else [NEWLINE]);
          newlineRun := 0;
        } else if pendingSpace && out != [] && out[|out| - 1] != NEWLINE {
          out := out + [SPACE];
        }
        assert out == before + kept;
        pendingSpace := false;
        out := out + [c];
      }
      i := i + 1;
    }
    assert out + [] == out;
    PendingIsStructural(input, start);
  }

  lemma {:induction false} PendingToken(s: Bytes, i: nat, e: nat)
    requires i <= e <= |s| && forall k :: i <= k < e ==> s[k] !in GAP
    ensures Pending(s, i, 0, false) == s[i..e] + Pending(s, e, 0, false)
    decreases e - i
  {
    hide Pending;
    if i == e {
      assert s[i..e] + Pending(s, e, 0, false) == Pending(s, e, 0, false);
    } else {
      PendingByte(s, i);
      PendingToken(s, i + 1, e);
      assert s[i..e] == [s[i]] + s[i + 1..e];
      Assoc([s[i]], s[i + 1..e], Pending(s, e, 0, false));
    }
  }

  lemma PendingByte(s: Bytes, i: nat)
    requires i < |s| && s[i] !in GAP
    ensures Pending(s, i, 0, false) == [s[i]] + Pending(s, i + 1, 0, false)
  {
    assert [] + [s[i]] == [s[i]];
  }

  lemma PendingEnd(s: Bytes, newlines: nat, space: bool)
    ensures Pending(s, |s|, newlines, space) == []
  {
  }

  lemma {:induction false} PendingGap(s: Bytes, i: nat, c: nat, newlines: nat, space: bool)
    requires i <= c <= |s| && (forall k :: i <= k < c ==> s[k] in GAP) && (newlines > 0 ==> !space)
    ensures Pending(s, i, newlines, space)
         == Pending(s, c, newlines + Newlines(s[i..c]), newlines + Newlines(s[i..c]) == 0 && (space || i < c))
    decreases c - i
  {
    if i < c {
      assert s[i..c][1..] == s[i + 1..c];
      if s[i] == NEWLINE {
        PendingGap(s, i + 1, c, newlines + 1, false);
      } else {
        PendingGap(s, i + 1, c, newlines, newlines == 0 || space);
      }
    }
  }

  /** The text from the gap at e on: nothing, or the reduced gap and the rest. */
  lemma PendingFromGap(s: Bytes, e: nat, c: nat)
    requires e < c <= |s| && (forall k :: e <= k < c ==> s[k] in GAP) && (c < |s| ==> s[c] !in GAP)
    ensures Pending(s, e, 0, false)
         == if c == |s| then [] else GapKept(Newlines(s[e..c])) + Pending(s, c, 0, false)
  {
    hide Pending, Newlines, GapKept;
    var n := Newlines(s[e..c]);
    PendingGap(s, e, c, 0, false);
    if c == |s| {
      PendingEnd(s, n, n == 0);
    } else {
      PendingAfterGap(s, c, n);
    }
  }

  lemma {:induction false} PendingIsStructural(s: Bytes, b: nat)
    requires b <= |s| && (b < |s| ==> s[b] !in GAP)
    ensures Pending(s, b, 0, false) == Structural(s, b)
    decreases |s| - b
  {
    if b == |s| {
      PendingEnd(s, 0, false);
    } else {
      hide Pending, Newlines, GapKept, TokenEnd, SkipSeparators;
      var e := TokenEnd(s, GAP, b);
      var c := SkipSeparators(s, GAP, e);
      PendingToken(s, b, e);
      if e == |s| {
        PendingEnd(s, 0, false);
      } else {
        PendingFromGap(s, e, c);
      }
      if c == |s| {
        assert s[b..e] + [] == s[b..e];
      } else {
        PendingIsStructural(s, c);
        PendingJoins(s[b..e], GapKept(Newlines(s[e..c])), Structural(s, c), Pending(s, e, 0, false));
      }
    }
  }

  lemma PendingJoins(token: Bytes, gap: Bytes, rest: Bytes, pending: Bytes)
    requires pending == gap + rest
    ensures token + pending == token + gap + rest
  {
  }

  lemma PendingAfterGap(s: Bytes, c: nat, newlines: nat)
    requires c < |s| && s[c] !in GAP
    ensures Pending(s, c, newlines, newlines == 0) == GapKept(newlines) + Pending(s, c, 0, false)
  {
    assert [] + [s[c]] == [s[c]];
    assert GapKept(newlines) + [s[c]] + Pending(s, c + 1, 0, false)
        == GapKept(newlines) + ([s[c]] + Pending(s, c + 1, 0, false));
  }

  // ---------------------------------------------------------------------------------------------
  // Second pass: punctuation runs
  // ---------------------------------------------------------------------------------------------

  lemma {:induction false} RunIs(s: Bytes, c: byte, r: nat)
    requires r <= |s| && (forall k :: 0 <= k < r ==> s[k] == c) && (r < |s| ==> s[r] != c)
    ensures Run(s, c) == r
  {
  }

  method CollapsePunctuation(s: Bytes) returns (out: Bytes)
    ensures out == CollapseRuns(s)
  {
    hide CollapseRuns;
    if |s| < 2 {
      ShortUnchanged(s);
      return s;
    }
    out := [];
    var i := 0;
    assert s[0..] == s && [] + CollapseRuns(s) == CollapseRuns(s);
    while i < |s|
      invariant i <= |s| && out + CollapseRuns(s[i..]) == CollapseRuns(s)
      decreases |s| - i
    {
      var c := s[i];
      ghost var before := out;
      ghost var begin := i;
      if c == BANG || c == QUESTION {
        out := out + [c];
        i := i + 1;
        while i < |s| && s[i] == c
          invariant begin < i <= |s| && forall k :: begin <= k < i ==> s[k] == c
        {
          i := i + 1;
        }
        RunStep(s, begin, i);
        Assoc(before, [c], CollapseRuns(s[i..]));
      } else if c == DOT {
        var runEnd := i;
        while runEnd < |s| && s[runEnd] == DOT
          invariant begin <= runEnd <= |s| && forall k :: begin <= k < runEnd ==> s[k] == c
        {
          runEnd := runEnd + 1;
        }
        var run := runEnd - i;
        RunStep(s, begin, runEnd);
        Assoc(before, RunKept(c, run), CollapseRuns(s[runEnd..]));
        if run == 3 {
          out := out + [DOT, DOT, DOT];
        } else {
          out := out + [DOT];
        }
        i := runEnd;
      } else {
        assert s[i..] == [c] + s[i + 1..];
        CollapseOther(c, s[i + 1..]);
        Assoc(before, [c], CollapseRuns(s[i + 1..]));
        out := out + [c];
        i := i + 1;
      }
    }
    CollapseNothing();
    assert s[i..] == [] && out + [] == out;
  }

  lemma CollapseNothing()
    ensures CollapseRuns([]) == []
  {
  }

  lemma ShortUnchanged(s: Bytes)
    requires |s| < 2
    ensures CollapseRuns(s) == s
  {
    if |s| == 1 {
      assert s == [s[0]] && s[1..] == [];
      assert Run(s, s[0]) == 1;
    }
  }

  lemma RunStep(s: Bytes, i: nat, e: nat)
    requires i < e <= |s| && Collapses(s[i]) && (forall k :: i <= k < e ==> s[k] == s[i]) && (e < |s| ==> s[e] != s[i])
    ensures CollapseRuns(s[i..]) == RunKept(s[i], e - i) + CollapseRuns(s[e..])
  {
    RunIs(s[i..], s[i], e - i);
    assert s[i..][e - i..] == s[e..];
  }

  // ---------------------------------------------------------------------------------------------
  // Third pass: fillers
  // ---------------------------------------------------------------------------------------------

  lemma {:induction false} DropLeftAt(s: Bytes, lo: nat)
    requires lo <= |s| && (forall k :: 0 <= k < lo ==> !IsAlpha(s[k])) && (lo < |s| ==> IsAlpha(s[lo]))
    ensures DropLeft(s) == s[lo..]
    decreases lo
  {
    if lo > 0 {
      DropLeftAt(s[1..], lo - 1);
    }
  }

  lemma {:induction false} DropRightAt(s: Bytes, hi: nat)
    requires hi <= |s| && (forall k :: hi <= k < |s| ==> !IsAlpha(s[k])) && (hi > 0 ==> IsAlpha(s[hi - 1]))
    ensures DropRight(s) == s[..hi]
    decreases |s| - hi
  {
    if hi < |s| {
      DropRightAt(s[..|s| - 1], hi);
      assert s[..|s| - 1][..hi] == s[..hi];
    } else {
      assert s[..hi] == s;
    }
  }

  method IsFillerToken(token: Bytes) returns (filler: bool)
    ensures filler == IsFiller(token)
  {
    hide Fillers, DropLeft, DropRight;
    var lo, hi := 0, |token|;
    while lo < hi && !IsAlpha(token[lo])
      invariant lo <= hi == |token| && forall k :: 0 <= k < lo ==> !IsAlpha(token[k])
    {
      lo := lo + 1;
    }
    DropLeftAt(token, lo);
    while hi > lo && !IsAlpha(token[hi - 1])
      invariant lo <= hi <= |token| && forall k :: hi <= k < |token| ==> !IsAlpha(token[k])
    {
      hi := hi - 1;
    }
    var core := token[lo..hi];
    assert token[lo..][..hi - lo] == core;
    DropRightAt(token[lo..], hi - lo);
    filler := false;
    if |core| <= 4 {
      var buf: Bytes := [];
      while |buf| < |core|
        invariant |buf| <= |core| && forall i :: 0 <= i < |buf| ==> buf[i] == Lower(core[i])
        decreases |core| - |buf|
      {
        buf := buf + [Lower(core[|buf|])];
      }
      assert buf == LowerAll(core);
      filler := buf in Fillers();
    }
  }

  function Kept(tokens: seq<Bytes>): seq<Bytes> {
    if tokens == [] then [] else KeptWord(tokens[0]) + Kept(tokens[1..])
  }

  lemma {:induction false} KeptLast(tokens: seq<Bytes>, t: Bytes)
    ensures Kept(tokens + [t]) == Kept(tokens) + KeptWord(t)
  {
    hide KeptWord;
    if tokens == [] {
      assert tokens + [t] == [t];
      assert KeptWord(t) + [] == [] + KeptWord(t);
    } else {
      KeptLast(tokens[1..], t);
      assert (tokens + [t])[1..] == tokens[1..] + [t];
      Assoc(KeptWord(tokens[0]), Kept(tokens[1..]), KeptWord(t));
    }
  }

  lemma {:induction false} JoinLast(words: seq<Bytes>, w: Bytes)
    ensures Join(words + [w]) == if words == [] then w else Join(words) + [SPACE] + w
  {
    if |words| == 0 {
      assert words + [w] == [w];
    } else {
      JoinLast(words[1..], w);
      assert (words + [w])[1..] == words[1..] + [w];
      if |words| > 1 {
        assert words[0] + [SPACE] + (Join(words[1..]) + [SPACE] + w)
            == words[0] + [SPACE] + Join(words[1..]) + [SPACE] + w;
      }
    }
  }

  /** The bounds of the next token at or after position `at`; an empty one at the end of the text. */
  method ScanToken(s: Bytes, at: nat) returns (begin: nat, end: nat)
    requires at <= |s|
    ensures at <= begin <= end <= |s|
    ensures begin == |s| ==> Tokens(s, at) == []
    ensures begin < |s| ==> begin < end && Tokens(s, at) == [s[begin..end]] + Tokens(s, end)
  {
    var i := at;
    while i < |s| && (s[i] == SPACE || s[i] == TAB || s[i] == NEWLINE)
      invariant at <= i <= |s| && SkipSeparators(s, GAP, i) == SkipSeparators(s, GAP, at)
    {
      i := i + 1;
    }
    begin := i;
    while i < |s| && s[i] != SPACE && s[i] != TAB && s[i] != NEWLINE
      invariant begin <= i <= |s| && TokenEnd(s, GAP, i) == TokenEnd(s, GAP, begin)
    {
      i := i + 1;
    }
    end := i;
  }

  /** What one more token does to the output. */
  lemma AppendToken(seen: seq<Bytes>, token: Bytes, filler: bool)
    requires KeptWord(token) == if filler then [] else [token]
    ensures Kept(seen + [token]) == if filler then Kept(seen) else Kept(seen) + [token]
    ensures Join(Kept(seen + [token]))
         == if filler then Join(Kept(seen))
            else if Kept(seen) == [] then token
            else Join(Kept(seen)) + [SPACE] + token
  {
    KeptLast(seen, token);
    JoinLast(Kept(seen), token);
    assert Kept(seen) + [] == Kept(seen);
  }

  method RemoveFillers(s: Bytes) returns (out: Bytes)
    ensures out == Join(Kept(Tokens(s, 0)))
  {
    hide IsFiller;
    out := [];
    var i := 0;
    var first := true;
    ghost var seen: seq<Bytes> := [];
    while i < |s|
      invariant i <= |s| && seen + Tokens(s, i) == Tokens(s, 0)
      invariant out == Join(Kept(seen)) && (first <==> Kept(seen) == [])
      decreases |s| - i
    {
      var begin, end := ScanToken(s, i);
      if begin >= |s| {
        assert seen + [] == seen;
        return;
      }
      var token := s[begin..end];
      i := end;
      Assoc(seen, [token], Tokens(s, i));
      var isFiller := IsFillerToken(token);
      AppendToken(seen, token, isFiller);
      seen := seen + [token];
      if isFiller {
        continue;
      }
      if !first {
        out := out + [SPACE];
      }
      first := false;
      out := out + token;
    }
    assert seen + [] == seen;
  }

  // ---------------------------------------------------------------------------------------------
  // Composition
  // ---------------------------------------------------------------------------------------------

  ghost predicate IsToken(t: Bytes) {
    t != [] && forall k :: 0 <= k < |t| ==> t[k] !in GAP
  }

  ghost predicate AllGap(g: Bytes) {
    forall k :: 0 <= k < |g| ==> g[k] in GAP
  }

  lemma {:induction false} SkipGap(g: Bytes, r: Bytes, i: nat)
    requires AllGap(g) && i <= |g| && (r != [] ==> r[0] !in GAP)
    ensures SkipSeparators(g + r, GAP, i) == |g|
    decreases |g| - i
  {
    if i < |g| {
      SkipGap(g, r, i + 1);
    }
  }

  lemma {:induction false} SkipSuffix(a: Bytes, b: Bytes, i: nat)
    requires i <= |b|
    ensures SkipSeparators(a + b, GAP, |a| + i) == |a| + SkipSeparators(b, GAP, i)
    ensures TokenEnd(a + b, GAP, |a| + i) == |a| + TokenEnd(b, GAP, i)
    decreases |b| - i
  {
    if i < |b| {
      SkipSuffix(a, b, i + 1);
    }
  }

  lemma SliceSuffix(a: Bytes, b: Bytes, p: nat, e: nat)
    requires p <= e <= |b|
    ensures (a + b)[|a| + p..|a| + e] == b[p..e]
  {
  }

  lemma TokensStep(s: Bytes, i: nat, b: nat, e: nat)
    requires i <= |s| && b == SkipSeparators(s, GAP, i) && b < |s| && e == TokenEnd(s, GAP, b)
    ensures Tokens(s, i) == [s[b..e]] + Tokens(s, e)
  {
  }

  lemma TokensNone(s: Bytes, i: nat)
    requires i <= |s| && SkipSeparators(s, GAP, i) == |s|
    ensures Tokens(s, i) == []
  {
  }

  lemma {:induction false} TokensSuffix(a: Bytes, b: Bytes, i: nat)
    requires i <= |b|
    ensures Tokens(a + b, |a| + i) == Tokens(b, i)
    decreases |b| - i
  {
    hide SkipSeparators, TokenEnd, Tokens;
    SkipSuffix(a, b, i);
    var p := SkipSeparators(b, GAP, i);
    if p < |b| {
      SkipSuffix(a, b, p);
      var e := TokenEnd(b, GAP, p);
      SliceSuffix(a, b, p, e);
      TokensSuffix(a, b, e);
      TokensStep(b, i, p, e);
      TokensStep(a + b, |a| + i, |a| + p, |a| + e);
    } else {
      TokensNone(b, i);
      TokensNone(a + b, |a| + i);
    }
  }

  lemma FirstTokenEnds(t: Bytes, r: Bytes)
    requires IsToken(t) && (r != [] ==> r[0] in GAP)
    ensures SkipSeparators(t + r, GAP, 0) == 0 && TokenEnd(t + r, GAP, 0) == |t| && (t + r)[0..|t|] == t
  {
    hide TokenEnd;
    var s := t + r;
    assert s[0] == t[0] && forall k :: 0 <= k < |t| ==> s[k] == t[k];
    assert r != [] ==> s[|t|] == r[0];
  }

  /** Tokens of a token, a gap and more text. */
  lemma TokensOfTokenGap(t: Bytes, g: Bytes, r: Bytes)
    requires IsToken(t) && AllGap(g) && g != []
    ensures Tokens(t + g + r, 0) == [t] + Tokens(r, 0)
  {
    hide SkipSeparators, TokenEnd;
    Assoc(t, g, r);
    FirstTokenEnds(t, g + r);
    TokensSuffix(t, g + r, 0);
    TokensAfterGap(g, r);
  }

  lemma TokensAfterGapByte(c: byte, r: Bytes)
    requires c in GAP
    ensures Tokens([c] + r, 0) == Tokens(r, 0)
  {
    hide TokenEnd;
    var s := [c] + r;
    assert SkipSeparators(s, GAP, 0) == SkipSeparators(s, GAP, 1);
    TokensSuffix([c], r, 0);
  }

  lemma {:induction false} TokensAfterGap(g: Bytes, r: Bytes)
    requires AllGap(g)
    ensures Tokens(g + r, 0) == Tokens(r, 0)
    decreases |g|
  {
    hide Tokens;
    if g == [] {
      assert g + r == r;
    } else {
      assert g == [g[0]] + g[1..];
      Assoc([g[0]], g[1..], r);
      TokensAfterGap(g[1..], r);
      TokensAfterGapByte(g[0], g[1..] + r);
    }
  }

  lemma TokensOfOne(t: Bytes)
    requires IsToken(t)
    ensures Tokens(t, 0) == [t]
  {
    assert TokenEnd(t, GAP, 0) == |t|;
    assert t[0..|t|] == t;
  }

  /** The first pass keeps the tokens. */
  lemma {:induction false} StructuralTokens(s: Bytes, b: nat)
    requires b <= |s| && (b < |s| ==> s[b] !in GAP)
    ensures Tokens(Structural(s, b), 0) == Tokens(s, b)
    decreases |s| - b
  {
    if b < |s| {
      var e := TokenEnd(s, GAP, b);
      var c := SkipSeparators(s, GAP, e);
      TokensSkip(s, e);
      if c == |s| {
        TokensOfOne(s[b..e]);
      } else {
        StructuralTokens(s, c);
        TokensOfTokenGap(s[b..e], GapKept(Newlines(s[e..c])), Structural(s, c));
      }
    }
  }

  lemma TokensSkip(s: Bytes, i: nat)
    requires i <= |s|
    ensures Tokens(s, i) == Tokens(s, SkipSeparators(s, GAP, i))
  {
    var b := SkipSeparators(s, GAP, i);
    assert SkipSeparators(s, GAP, b) == b;
  }

  lemma {:induction false} RunInPrefix(a: Bytes, r: Bytes, c: byte)
    requires r == [] || r[0] != c || Run(a, c) < |a|
    ensures Run(a + r, c) == Run(a, c)
  {
    RunIs(a + r, c, Run(a, c));
  }

  /** Punctuation runs never cross a gap. */
  lemma {:induction false} CollapseSplits(a: Bytes, r: Bytes)
    requires r != [] && r[0] in GAP
    ensures CollapseRuns(a + r) == CollapseRuns(a) + CollapseRuns(r)
    decreases |a|
  {
    if a == [] {
      assert a + r == r;
    } else {
      assert (a + r)[0] == a[0];
      var n := if Collapses(a[0]) then Run(a, a[0]) else 1;
      if Collapses(a[0]) {
        RunInPrefix(a, r, a[0]);
      }
      assert (a + r)[n..] == a[n..] + r;
      CollapseSplits(a[n..], r);
      var h := if Collapses(a[0]) then RunKept(a[0], n) else [a[0]];
      assert CollapseRuns(a + r) == h + CollapseRuns(a[n..] + r);
      Assoc(h, CollapseRuns(a[n..]), CollapseRuns(r));
    }
  }

  lemma CollapseOther(c: byte, r: Bytes)
    requires !Collapses(c)
    ensures CollapseRuns([c] + r) == [c] + CollapseRuns(r)
  {
    hide Run;
    assert ([c] + r)[1..] == r;
  }

  lemma {:induction false} CollapseGap(g: Bytes, r: Bytes)
    requires AllGap(g)
    ensures CollapseRuns(g + r) == g + CollapseRuns(r)
    decreases |g|
  {
    hide CollapseRuns;
    if g == [] {
      assert g + r == r;
    } else {
      assert g == [g[0]] + g[1..];
      CollapseGap(g[1..], r);
      CollapseOther(g[0], g[1..] + r);
      Assoc([g[0]], g[1..], r);
      Assoc([g[0]], g[1..], CollapseRuns(r));
    }
  }

  /** Collapsing a token gives a token, never longer. */
  lemma {:induction false} CollapseToken(t: Bytes)
    ensures |CollapseRuns(t)| <= |t|
    ensures t != [] ==> CollapseRuns(t) != [] && CollapseRuns(t)[0] == t[0]
    ensures (forall k :: 0 <= k < |t| ==> t[k] !in GAP) ==>
      forall k :: 0 <= k < |CollapseRuns(t)| ==> CollapseRuns(t)[k] !in GAP
    decreases |t|
  {
    if t != [] {
      var n := if Collapses(t[0]) then Run(t, t[0]) else 1;
      CollapseToken(t[n..]);
    }
  }

  function CollapseAll(tokens: seq<Bytes>): seq<Bytes> {
    if tokens == [] then [] else [CollapseRuns(tokens[0])] + CollapseAll(tokens[1..])
  }

  /** Collapsing the text collapses each token. */
  lemma {:induction false} CollapseTokens(s: Bytes, b: nat)
    requires b <= |s| && (b < |s| ==> s[b] !in GAP)
    ensures Tokens(CollapseRuns(Structural(s, b)), 0) == CollapseAll(Tokens(s, b))
    decreases |s| - b
  {
    hide CollapseRuns, SkipSeparators, TokenEnd;
    if b == |s| {
      ShortUnchanged([]);
    } else {
      var e := TokenEnd(s, GAP, b);
      var c := SkipSeparators(s, GAP, e);
      var t := s[b..e];
      CollapseToken(t);
      TokensSkip(s, b);
      TokensSkip(s, e);
      assert Tokens(s, b) == [t] + Tokens(s, e);
      assert Tokens(s, b)[1..] == Tokens(s, e);
      if c == |s| {
        TokensOfOne(CollapseRuns(t));
      } else {
        var g := GapKept(Newlines(s[e..c]));
        var r := Structural(s, c);
        CollapseTokens(s, c);
        Assoc(t, g, r);
        CollapseSplits(t, g + r);
        CollapseGap(g, r);
        Assoc(CollapseRuns(t), g, CollapseRuns(r));
        TokensOfTokenGap(CollapseRuns(t), g, CollapseRuns(r));
      }
    }
  }

  lemma {:induction false} KeptOfCollapsed(tokens: seq<Bytes>)
    ensures Kept(CollapseAll(tokens)) == Words(tokens)
  {
    if tokens != [] {
      KeptOfCollapsed(tokens[1..]);
    }
  }

  /** `compress_context`: the three passes meet the one-line specification on every input. */
  method CompressContext(input: Bytes) returns (out: Bytes)
    ensures out == Compressed(input)
  {
    var structural := CollapseWhitespace(input);
    structural := CollapsePunctuation(structural);
    out := RemoveFillers(structural);
    var b := SkipSeparators(input, GAP, 0);
    CollapseTokens(input, b);
    TokensSkip(input, 0);
    KeptOfCollapsed(Tokens(input, 0));
  }

  // ---------------------------------------------------------------------------------------------
  // Consequences
  // ---------------------------------------------------------------------------------------------

  ghost predicate AllWords(words: seq<Bytes>) {
    forall i :: 0 <= i < |words| ==> IsToken(words[i])
  }

  /** Joined words are split back into the same words. */
  lemma {:induction false} TokensOfJoin(words: seq<Bytes>)
    requires AllWords(words)
    ensures Tokens(Join(words), 0) == words
  {
    if |words| == 1 {
      TokensOfOne(words[0]);
    } else if |words| > 1 {
      TokensOfJoin(words[1..]);
      TokensOfTokenGap(words[0], [SPACE], Join(words[1..]));
    }
  }

  /** Each run is kept once or, for three dots, whole: collapsing again changes nothing. */
  lemma {:induction false} CollapseTwice(s: Bytes)
    ensures CollapseRuns(CollapseRuns(s)) == CollapseRuns(s)
    decreases |s|
  {
    if s != [] {
      var c := s[0];
      var n := if Collapses(c) then Run(s, c) else 1;
      var h := if Collapses(c) then RunKept(c, n) else [c];
      var r := CollapseRuns(s[n..]);
      CollapseTwice(s[n..]);
      CollapseToken(s[n..]);
      assert CollapseRuns(s) == h + r;
      if Collapses(c) {
        RunIs(h + r, c, |h|);
        assert (h + r)[|h|..] == r;
      } else {
        assert (h + r)[1..] == r;
      }
    }
  }

  ghost predicate StableWords(words: seq<Bytes>) {
    forall i :: 0 <= i < |words| ==> IsToken(words[i]) && CollapseRuns(words[i]) == words[i] && !IsFiller(words[i])
  }

  lemma {:induction false} WordsAreStable(tokens: seq<Bytes>)
    requires AllWords(tokens)
    ensures StableWords(Words(tokens))
  {
    if tokens != [] {
      WordsAreStable(tokens[1..]);
      CollapseToken(tokens[0]);
      CollapseTwice(tokens[0]);
    }
  }

  lemma {:induction false} StableWordsUnchanged(words: seq<Bytes>)
    requires StableWords(words)
    ensures Words(words) == words
  {
    if words != [] {
      StableWordsUnchanged(words[1..]);
    }
  }

  lemma {:induction false} TokensAreWords(s: Bytes, i: nat)
    requires i <= |s|
    ensures AllWords(Tokens(s, i))
    decreases |s| - i
  {
    var b := SkipSeparators(s, GAP, i);
    if b < |s| {
      TokensAreWords(s, TokenEnd(s, GAP, b));
    }
  }

  /** Compressing twice is compressing once. */
  lemma CompressIdempotent(s: Bytes)
    ensures Compressed(Compressed(s)) == Compressed(s)
  {
    var words := Words(Tokens(s, 0));
    TokensAreWords(s, 0);
    WordsAreStable(Tokens(s, 0));
    TokensOfJoin(words);
    StableWordsUnchanged(words);
  }

  /** The unchanged texts are exactly the joined stable words. */
  lemma CompressFixedPoints(s: Bytes)
    ensures Compressed(s) == s <==> exists words :: StableWords(words) && s == Join(words)
  {
    TokensAreWords(s, 0);
    WordsAreStable(Tokens(s, 0));
    if words :| StableWords(words) && s == Join(words) {
      TokensOfJoin(words);
      StableWordsUnchanged(words);
    }
  }

  /** What a list of words costs: their bytes and one separator each. */
  function Cost(words: seq<Bytes>): nat {
    if words == [] then 0 else |words[0]| + 1 + Cost(words[1..])
  }

  lemma {:induction false} JoinCost(words: seq<Bytes>)
    ensures words != [] ==> |Join(words)| + 1 == Cost(words)
  {
    if |words| > 1 {
      JoinCost(words[1..]);
    }
  }

  lemma {:induction false} WordsCost(tokens: seq<Bytes>)
    ensures Cost(Words(tokens)) <= Cost(tokens)
  {
    if tokens != [] {
      WordsCost(tokens[1..]);
      CollapseToken(tokens[0]);
      var t := CollapseRuns(tokens[0]);
      var w := Words(tokens[1..]);
      assert Words(tokens) == w || Words(tokens) == [t] + w;
      assert ([t] + w)[1..] == w;
      assert [] + w == w;
    }
  }

  lemma {:induction false} TokensCost(s: Bytes, i: nat)
    requires i <= |s|
    ensures Cost(Tokens(s, i)) <= |s| - i + 1
    decreases |s| - i
  {
    var b := SkipSeparators(s, GAP, i);
    if b < |s| {
      var e := TokenEnd(s, GAP, b);
      TokensCost(s, e);
      if e < |s| {
        TokensSkip(s, e);
        TokensCost(s, SkipSeparators(s, GAP, e));
      }
    }
  }

  /** Compression never lengthens its input. */
  lemma CompressNeverLonger(s: Bytes)
    ensures |Compressed(s)| <= |s|
  {
    var words := Words(Tokens(s, 0));
    JoinCost(words);
    WordsCost(Tokens(s, 0));
    TokensCost(s, 0);
  }
}
