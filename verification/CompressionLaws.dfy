/** What the three passes of context compression do, byte by byte. */
module CompressionLaws {
  import opened ByteText
  import opened Tokenizer
  import opened Pruner

  // ---------------------------------------------------------------------------------------------
  // Words that are dropped
  // ---------------------------------------------------------------------------------------------

  /** An ASCII letter. */
  ghost predicate Letter(c: byte) {
    0x41 <= c <= 0x5A || 0x61 <= c <= 0x7A
  }

  /** The lower-case word, each of its letters in either case. */
  ghost predicate Spells(s: Bytes, word: Bytes) {
    |s| == |word| && forall i :: 0 <= i < |s| ==> s[i] == word[i] || s[i] as int == word[i] as int - 32
  }

  /** um, uh, erm, er, hmm, umm, uhh, uhm or heh. */
  ghost predicate Hesitation(s: Bytes) {
    || Spells(s, [0x75, 0x6D])
    || Spells(s, [0x75, 0x68])
    || Spells(s, [0x65, 0x72, 0x6D])
    || Spells(s, [0x65, 0x72])
    || Spells(s, [0x68, 0x6D, 0x6D])
    || Spells(s, [0x75, 0x6D, 0x6D])
    || Spells(s, [0x75, 0x68, 0x68])
    || Spells(s, [0x75, 0x68, 0x6D])
    || Spells(s, [0x68, 0x65, 0x68])
  }

  /** t[lo..hi] reaches from the first letter of t to its last. */
  ghost predicate LetterCore(t: Bytes, lo: nat, hi: nat) {
    && lo < hi <= |t| && Letter(t[lo]) && Letter(t[hi - 1])
    && (forall k :: 0 <= k < lo ==> !Letter(t[k]))
    && (forall k :: hi <= k < |t| ==> !Letter(t[k]))
  }

  /** From its first letter to its last, the word is a hesitation. */
  ghost predicate Hesitates(t: Bytes) {
    exists lo: nat, hi: nat :: LetterCore(t, lo, hi) && Hesitation(t[lo..hi])
  }

  lemma {:induction false} DropLeftFinds(s: Bytes) returns (lo: nat)
    ensures lo <= |s| && DropLeft(s) == s[lo..] && (lo < |s| ==> Letter(s[lo]))
    ensures forall k :: 0 <= k < lo ==> !Letter(s[k])
  {
    lo := 0;
    if s != [] && !Letter(s[0]) {
      lo := DropLeftFinds(s[1..]);
      lo := lo + 1;
    }
  }

  lemma {:induction false} DropRightFinds(s: Bytes) returns (hi: nat)
    ensures hi <= |s| && DropRight(s) == s[..hi] && (hi > 0 ==> Letter(s[hi - 1]))
    ensures forall k :: hi <= k < |s| ==> !Letter(s[k])
  {
    hi := |s|;
    if s != [] && !Letter(s[|s| - 1]) {
      hi := DropRightFinds(s[..|s| - 1]);
    }
  }

  lemma CoreIsUnique(t: Bytes, lo: nat, hi: nat)
    requires LetterCore(t, lo, hi)
    ensures DropRight(DropLeft(t)) == t[lo..hi]
  {
    DropLeftAt(t, lo);
    DropRightAt(t[lo..], hi - lo);
    assert t[lo..][..hi - lo] == t[lo..hi];
  }

  lemma LowerSpells(s: Bytes, word: Bytes)
    requires forall i :: 0 <= i < |word| ==> 0x61 <= word[i] <= 0x7A
    ensures LowerAll(s) == word <==> Spells(s, word)
  {
  }

  lemma FillersAreHesitations(s: Bytes)
    ensures LowerAll(s) in Fillers() <==> Hesitation(s)
  {
    hide LowerAll, Spells;
    FillerBytes();
    LowerSpells(s, [0x75, 0x6D]);
    LowerSpells(s, [0x75, 0x68]);
    LowerSpells(s, [0x65, 0x72, 0x6D]);
    LowerSpells(s, [0x65, 0x72]);
    LowerSpells(s, [0x68, 0x6D, 0x6D]);
    LowerSpells(s, [0x75, 0x6D, 0x6D]);
    LowerSpells(s, [0x75, 0x68, 0x68]);
    LowerSpells(s, [0x75, 0x68, 0x6D]);
    LowerSpells(s, [0x68, 0x65, 0x68]);
  }

  lemma FillerBytes()
    ensures Fillers() == [
      [0x75, 0x6D], [0x75, 0x68], [0x65, 0x72, 0x6D], [0x65, 0x72], [0x68, 0x6D, 0x6D], [0x75, 0x6D, 0x6D],
      [0x75, 0x68, 0x68], [0x75, 0x68, 0x6D], [0x68, 0x65, 0x68]]
  {
    assert Ascii("um") == [0x75, 0x6D] && Ascii("uh") == [0x75, 0x68] && Ascii("er") == [0x65, 0x72];
    assert Ascii("erm") == [0x65, 0x72, 0x6D] && Ascii("hmm") == [0x68, 0x6D, 0x6D];
    assert Ascii("umm") == [0x75, 0x6D, 0x6D] && Ascii("uhh") == [0x75, 0x68, 0x68];
    assert Ascii("uhm") == [0x75, 0x68, 0x6D] && Ascii("heh") == [0x68, 0x65, 0x68];
  }

  /** A word is dropped exactly when, from its first letter to its last, it is a hesitation in any case. */
  lemma DroppedWords(t: Bytes)
    ensures IsFiller(t) <==> Hesitates(t)
    ensures KeptWord(t) == if Hesitates(t) then [] else [t]
  {
    hide DropLeft, DropRight, LowerAll, Fillers, Hesitation;
    var lo := DropLeftFinds(t);
    var n := DropRightFinds(t[lo..]);
    var core := t[lo..][..n];
    assert core == t[lo..lo + n];
    FillersAreHesitations(core);
    EmptyIsNoHesitation();
    if n > 0 {
      assert t[lo..][n - 1] == t[lo + n - 1];
      forall k | lo + n <= k < |t| ensures !Letter(t[k]) {
        assert t[k] == t[lo..][k - lo];
      }
      assert t[lo] == t[lo..][0];
      assert LetterCore(t, lo, lo + n);
    }
    if Hesitates(t) {
      var lo': nat, hi': nat :| LetterCore(t, lo', hi') && Hesitation(t[lo'..hi']);
      CoreIsUnique(t, lo', hi');
    }
  }

  lemma EmptyIsNoHesitation()
    ensures !Hesitation([])
  {
  }

  // ---------------------------------------------------------------------------------------------
  // Punctuation
  // ---------------------------------------------------------------------------------------------

  /** n copies of c. */
  function Copies(c: byte, n: nat): (r: Bytes)
    ensures |r| == n && forall k :: 0 <= k < n ==> r[k] == c
  {
    seq(n, _ => c)
  }

  /** A maximal run: `!` and `?` once, three dots as they are, other dots once; other bytes one by one. */
  lemma RunCollapses(c: byte, n: nat, rest: Bytes)
    requires n > 0 && (rest != [] ==> rest[0] != c)
    ensures c == 0x21 || c == 0x3F ==> CollapseRuns(Copies(c, n) + rest) == [c] + CollapseRuns(rest)
    ensures c == 0x2E && n == 3 ==> CollapseRuns(Copies(c, n) + rest) == [0x2E, 0x2E, 0x2E] + CollapseRuns(rest)
    ensures c == 0x2E && n != 3 ==> CollapseRuns(Copies(c, n) + rest) == [0x2E] + CollapseRuns(rest)
  {
    hide CollapseRuns;
    var s := Copies(c, n) + rest;
    assert forall k :: 0 <= k < n ==> s[k] == c;
    assert n < |s| ==> s[n] == rest[0];
    if c == 0x21 || c == 0x3F || c == 0x2E {
      RunStep(s, 0, n);
      assert s[0..] == s && s[n..] == rest;
    }
  }

  lemma OtherByteStays(c: byte, rest: Bytes)
    requires c != 0x21 && c != 0x3F && c != 0x2E
    ensures CollapseRuns([c] + rest) == [c] + CollapseRuns(rest)
  {
    CollapseOther(c, rest);
  }

  // ---------------------------------------------------------------------------------------------
  // Whitespace
  // ---------------------------------------------------------------------------------------------

  /** Spaces, tabs and newlines. */
  ghost predicate Blank(g: Bytes) {
    forall k :: 0 <= k < |g| ==> g[k] == 0x20 || g[k] == 0x09 || g[k] == 0x0A
  }

  /** A non-empty text without spaces, tabs and newlines. */
  ghost predicate Word(t: Bytes) {
    t != [] && forall k :: 0 <= k < |t| ==> t[k] != 0x20 && t[k] != 0x09 && t[k] != 0x0A
  }

  /** The result of the first pass. */
  function Squeezed(s: Bytes): Bytes {
    Structural(s, SkipSeparators(s, GAP, 0))
  }

  lemma {:induction false} NewlinesCounted(g: Bytes)
    ensures Newlines(g) == multiset(g)[0x0A]
  {
    if g != [] {
      assert g == [g[0]] + g[1..];
      NewlinesCounted(g[1..]);
    }
  }

  lemma SkipNothing(s: Bytes)
    requires s != [] ==> s[0] !in GAP
    ensures SkipSeparators(s, GAP, 0) == 0
  {
  }

  lemma StructuralEnd(s: Bytes)
    ensures Structural(s, |s|) == []
  {
  }

  /** The word t stands at b, the gap g behind it, and the next word, if any, at c. */
  ghost predicate Head(s: Bytes, b: nat, c: nat, t: Bytes, g: Bytes) {
    && b + |t| + |g| == c <= |s| && t != [] && s[b] !in GAP
    && b + |t| == TokenEnd(s, GAP, b) && c == SkipSeparators(s, GAP, b + |t|)
    && s[b..b + |t|] == t && s[b + |t|..c] == g
  }

  lemma HeadAt(s: Bytes, b: nat) returns (c: nat, t: Bytes, g: Bytes)
    requires b < |s| && s[b] !in GAP
    ensures b < c <= |s| && (c < |s| ==> s[c] !in GAP) && Head(s, b, c, t, g)
  {
    var e := TokenEnd(s, GAP, b);
    c := SkipSeparators(s, GAP, e);
    t, g := s[b..e], s[e..c];
  }

  lemma StructuralHead(s: Bytes, b: nat, c: nat, t: Bytes, g: Bytes)
    requires Head(s, b, c, t, g) && (c < |s| ==> s[c] !in GAP)
    ensures b < c <= |s| && s[b] !in GAP
    ensures Structural(s, b) == if c == |s| then t else t + GapKept(Newlines(g)) + Structural(s, c)
  {
    hide TokenEnd, SkipSeparators, Newlines, GapKept;
    var e := b + |t|;
    assert TokenEnd(s, GAP, b) == e && SkipSeparators(s, GAP, e) == c;
    assert s[b..e] == t && s[e..c] == g;
  }

  lemma HeadShifts(a: Bytes, b: Bytes, i: nat, c: nat, t: Bytes, g: Bytes)
    requires Head(b, i, c, t, g)
    ensures Head(a + b, |a| + i, |a| + c, t, g)
  {
    hide TokenEnd, SkipSeparators;
    SkipSuffix(a, b, i);
    SkipSuffix(a, b, i + |t|);
    SliceSuffix(a, b, i, i + |t|);
    SliceSuffix(a, b, i + |t|, c);
  }

  lemma {:induction false} StructuralSuffix(a: Bytes, b: Bytes, i: nat)
    requires i <= |b| && (i < |b| ==> b[i] !in GAP)
    ensures Structural(a + b, |a| + i) == Structural(b, i)
    decreases |b| - i
  {
    hide Head, Newlines, GapKept, Structural;
    if i == |b| {
      StructuralEnd(b);
      StructuralEnd(a + b);
    } else {
      var c, t, g := HeadAt(b, i);
      HeadShifts(a, b, i, c, t, g);
      StructuralHead(b, i, c, t, g);
      StructuralHead(a + b, |a| + i, |a| + c, t, g);
      if c < |b| {
        StructuralSuffix(a, b, c);
      }
    }
  }

  /** The gap in front is dropped. */
  lemma LeadingGapDropped(g: Bytes, s: Bytes)
    requires Blank(g) && (s == [] || Word(s[..1]))
    ensures Squeezed(g + s) == Squeezed(s)
    ensures s == [] ==> Squeezed(g + s) == []
  {
    hide Structural;
    assert s != [] ==> s[0] == s[..1][0];
    SkipGap(g, s, 0);
    StructuralSuffix(g, s, 0);
    SkipNothing(s);
    StructuralEnd([]);
  }

  /**
   A word stays; the gap behind it is dropped at the end of the text, and otherwise becomes one space
   without a newline in it, a newline with one, and a blank line with more.
   */
  lemma InnerGapReduced(t: Bytes, g: Bytes, s: Bytes)
    requires Word(t) && Blank(g) && (s == [] || (g != [] && Word(s[..1])))
    ensures s == [] ==> Squeezed(t + g + s) == t
    ensures s != [] && multiset(g)[0x0A] == 0 ==> Squeezed(t + g + s) == t + [0x20] + Squeezed(s)
    ensures s != [] && multiset(g)[0x0A] == 1 ==> Squeezed(t + g + s) == t + [0x0A] + Squeezed(s)
    ensures s != [] && multiset(g)[0x0A] >= 2 ==> Squeezed(t + g + s) == t + [0x0A, 0x0A] + Squeezed(s)
  {
    hide Structural, SkipSeparators, Newlines, Head;
    var d := t + g + s;
    HeadStands(t, g, s);
    StructuralHead(d, 0, |t| + |g|, t, g);
    NewlinesCounted(g);
    StructuralSuffix(t + g, s, 0);
    SkipNothing(s);
    SkipNothing(d);
  }

  lemma HeadStands(t: Bytes, g: Bytes, s: Bytes)
    requires IsToken(t) && AllGap(g) && (s == [] || (g != [] && s[0] !in GAP))
    ensures Head(t + g + s, 0, |t| + |g|, t, g)
  {
    hide SkipSeparators, TokenEnd;
    assert t + g + s == t + (g + s);
    FirstTokenEnds(t, g + s);
    SkipSuffix(t, g + s, 0);
    SkipGap(g, s, 0);
    SliceSuffix(t, g + s, 0, |g|);
    assert (g + s)[0..|g|] == g;
  }

  // ---------------------------------------------------------------------------------------------
  // The whole
  // ---------------------------------------------------------------------------------------------

  lemma NothingLeft(g: Bytes)
    requires Blank(g)
    ensures Compressed(g) == []
  {
    assert g + [] == g;
    SkipGap(g, [], 0);
  }

  /**
   The first word: its punctuation is collapsed and then, unless it is a hesitation, it is kept and
   separated by one space from what is left of the rest.
   */
  lemma FirstWord(g: Bytes, t: Bytes, rest: Bytes)
    requires Blank(g) && Word(t) && (rest != [] ==> Blank(rest[..1]))
    ensures var w := CollapseRuns(t);
      Compressed(g + t + rest)
        == if Hesitates(w) then Compressed(rest)
           else if Compressed(rest) == [] then w
           else w + [0x20] + Compressed(rest)
  {
    hide CollapseRuns, KeptWord, Hesitates, Tokens, Words, Join;
    var w := CollapseRuns(t);
    var words := Words(Tokens(rest, 0));
    DroppedWords(w);
    FirstTokens(g, t, rest);
    WordsCons(t, Tokens(rest, 0));
    JoinCons(w, words);
    JoinEmpty(rest);
    assert [] + words == words;
  }

  lemma FirstTokens(g: Bytes, t: Bytes, rest: Bytes)
    requires Blank(g) && Word(t) && (rest != [] ==> Blank(rest[..1]))
    ensures Tokens(g + t + rest, 0) == [t] + Tokens(rest, 0)
  {
    hide Tokens;
    assert rest != [] ==> rest[0] == rest[..1][0];
    Assoc(g, t, rest);
    TokensAfterGap(g, t + rest);
    FirstTokenAndRest(t, rest);
  }

  lemma WordsCons(t: Bytes, tokens: seq<Bytes>)
    ensures Words([t] + tokens) == KeptWord(CollapseRuns(t)) + Words(tokens)
  {
    hide KeptWord, CollapseRuns;
    assert ([t] + tokens)[1..] == tokens;
  }

  lemma JoinCons(w: Bytes, words: seq<Bytes>)
    ensures Join([w] + words) == if words == [] then w else w + [SPACE] + Join(words)
  {
    assert ([w] + words)[1..] == words;
  }

  lemma FirstTokenAndRest(t: Bytes, rest: Bytes)
    requires IsToken(t) && (rest != [] ==> rest[0] in GAP)
    ensures Tokens(t + rest, 0) == [t] + Tokens(rest, 0)
  {
    if rest == [] {
      assert t + rest == t;
      TokensOfOne(t);
    } else {
      assert rest == rest[..1] + rest[1..];
      Assoc(t, rest[..1], rest[1..]);
      TokensOfTokenGap(t, rest[..1], rest[1..]);
      TokensAfterGap(rest[..1], rest[1..]);
    }
  }

  lemma JoinEmpty(s: Bytes)
    ensures Compressed(s) == [] <==> Words(Tokens(s, 0)) == []
  {
    TokensAreWords(s, 0);
    WordsAreStable(Tokens(s, 0));
  }
}
