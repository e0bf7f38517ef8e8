/** The byte scanners: scalar loops and vector kernels. */
module BlockScan {
  import opened ByteText
  import opened Bits
  import opened Tokenizer

  /** r is the first position of p holding one of the wanted bytes, or |p|. */
  ghost predicate IsFirst(p: Bytes, wanted: seq<byte>, r: nat) {
    && r <= |p|
    && (forall i :: 0 <= i < r ==> p[i] !in wanted)
    && (r < |p| ==> p[r] in wanted)
  }

  function Count(p: Bytes, c: byte): nat {
    if p == [] then 0 else Bit(p[0] == c) + Count(p[1..], c)
  }

  lemma {:induction false} CountConcat(a: Bytes, b: Bytes, c: byte)
    ensures Count(a + b, c) == Count(a, c) + Count(b, c)
  {
    if a == [] {
      assert a + b == b;
    } else {
      CountConcat(a[1..], b, c);
      assert (a + b)[1..] == a[1..] + b;
    }
  }

  method FindFirstOfScalar(p: Bytes, wanted: seq<byte>) returns (r: nat)
    ensures IsFirst(p, wanted, r)
  {
    r := 0;
    while r < |p|
      invariant r <= |p| && forall i :: 0 <= i < r ==> p[i] !in wanted
    {
      var k := 0;
      while k < |wanted|
        invariant k <= |wanted| && forall j :: 0 <= j < k ==> p[r] != wanted[j]
      {
        if p[r] == wanted[k] {
          return;
        }
        k := k + 1;
      }
      r := r + 1;
    }
  }

  method CountScalar(p: Bytes, c: byte) returns (k: nat)
    ensures k == Count(p, c) == multiset(p)[c]
  {
    CountIsMultiplicity(p, c);
    k := 0;
    var i := 0;
    while i < |p|
      invariant i <= |p| && k == Count(p[..i], c)
    {
      CountConcat(p[..i], [p[i]], c);
      assert p[..i + 1] == p[..i] + [p[i]];
      k := k + (if p[i] == c then 1 else 0);
      i := i + 1;
    }
    assert p[..i] == p;
  }

  /** `Count` is the number of times the byte occurs. */
  lemma {:induction false} CountIsMultiplicity(p: Bytes, c: byte)
    ensures Count(p, c) == multiset(p)[c]
  {
    if p != [] {
      assert p == [p[0]] + p[1..];
      CountIsMultiplicity(p[1..], c);
    }
  }

  /** Lane-wise equality of a block with one byte. */
  function Equal(block: Bytes, c: byte): (lanes: seq<bool>)
    ensures |lanes| == |block| && forall i :: 0 <= i < |block| ==> lanes[i] == (block[i] == c)
  {
    seq(|block|, i requires 0 <= i < |block| => block[i] == c)
  }

  function AnyOf(block: Bytes, wanted: seq<byte>): (lanes: seq<bool>)
    ensures |lanes| == |block| && forall i :: 0 <= i < |block| ==> lanes[i] == (block[i] in wanted)
  {
    seq(|block|, i requires 0 <= i < |block| => block[i] in wanted)
  }

  /** The accumulated mask of a block over all wanted bytes. */
  method BlockMask(block: Bytes, wanted: seq<byte>) returns (acc: nat)
    ensures acc == MoveMask(AnyOf(block, wanted))
  {
    acc := 0;
    var s := 0;
    FirstLane(AnyOf(block, []));
    while s < |wanted|
      invariant s <= |wanted| && acc == MoveMask(AnyOf(block, wanted[..s]))
    {
      var a, b := AnyOf(block, wanted[..s]), Equal(block, wanted[s]);
      OrLanes(a, b);
      assert seq(|a|, i requires 0 <= i < |a| => a[i] || b[i]) == AnyOf(block, wanted[..s + 1]);
      acc := Or(acc, MoveMask(b));
      s := s + 1;
    }
    assert wanted[..s] == wanted;
  }

  /** `junk` is what the temporary buffer held before the tail was copied over it. */
  method FindFirstOfBlocks(p: Bytes, wanted: seq<byte>, width: nat, junk: Bytes) returns (r: nat)
    requires width > 0 && |junk| == width
    ensures IsFirst(p, wanted, r)
  {
    var off := 0;
    while off + width <= |p|
      invariant off <= |p| && forall i :: 0 <= i < off ==> p[i] !in wanted
    {
      var block := p[off..off + width];
      var acc := BlockMask(block, wanted);
      FirstLane(AnyOf(block, wanted));
      if acc != 0 {
        assert forall i :: off <= i < off + width ==> p[i] == block[i - off];
        return off + Ctz(acc);
      }
      assert forall i :: off <= i < off + width ==> p[i] == block[i - off];
      off := off + width;
    }
    if off < |p| {
      var tail := |p| - off;
      var tmp := p[off..] + junk[tail..];
      var acc := BlockMask(tmp, wanted);
      LowLanes(AnyOf(tmp, wanted), tail);
      acc := And(acc, Pow2(tail) - 1);
      var lanes := AnyOf(tmp, wanted)[..tail];
      assert forall i :: 0 <= i < tail ==> lanes[i] == (p[off + i] in wanted);
      FirstLane(lanes);
      if acc != 0 {
        assert forall k :: 0 <= k < Ctz(acc) ==> !lanes[k];
        forall i | off <= i < off + Ctz(acc) ensures p[i] !in wanted { assert !lanes[i - off]; }
        return off + Ctz(acc);
      }
      forall i | off <= i < |p| ensures p[i] !in wanted { assert !lanes[i - off]; }
    }
    return |p|;
  }

  lemma {:induction false} PopCountLanes(block: Bytes, c: byte)
    ensures PopCount(MoveMask(Equal(block, c))) == Count(block, c)
  {
    if block != [] {
      PopCountLanes(block[1..], c);
      assert Equal(block, c)[1..] == Equal(block[1..], c);
      var m := MoveMask(Equal(block, c));
      assert m / 2 == MoveMask(Equal(block[1..], c)) && (m % 2 == 1 <==> block[0] == c);
    }
  }

  /** The last, partly filled buffer counts what is left of p. */
  lemma CountTail(p: Bytes, c: byte, off: nat, tmp: Bytes)
    requires off < |p| <= off + |tmp| && tmp[..|p| - off] == p[off..]
    ensures Count(p, c) == Count(p[..off], c) + PopCount(And(MoveMask(Equal(tmp, c)), Pow2(|p| - off) - 1))
  {
    hide Count, PopCount, And, MoveMask, Pow2;
    var tail := |p| - off;
    LowLanes(Equal(tmp, c), tail);
    assert Equal(tmp, c)[..tail] == Equal(p[off..], c);
    PopCountLanes(p[off..], c);
    CountConcat(p[..off], p[off..], c);
    assert p == p[..off] + p[off..];
  }

  method CountBlocks(p: Bytes, c: byte, width: nat, junk: Bytes) returns (total: nat)
    requires width > 0 && |junk| == width
    ensures total == Count(p, c) == multiset(p)[c]
  {
    hide PopCount, And, MoveMask, Pow2;
    var off := 0;
    total := 0;
    while off + width <= |p|
      invariant off <= |p| && total == Count(p[..off], c)
    {
      var block := p[off..off + width];
      PopCountLanes(block, c);
      CountConcat(p[..off], block, c);
      assert p[..off + width] == p[..off] + block;
      total := total + PopCount(MoveMask(Equal(block, c)));
      off := off + width;
    }
    if off < |p| {
      var tail := |p| - off;
      var tmp := p[off..] + junk[tail..];
      CountTail(p, c, off, tmp);
      total := total + PopCount(And(MoveMask(Equal(tmp, c)), Pow2(tail) - 1));
    } else {
      assert p[..off] == p;
    }
    CountIsMultiplicity(p, c);
  }

  datatype Level = Scalar | Avx2 | Avx512

  const MAX_VECTOR_SET: nat := 8

  method FindFirstOf(level: Level, p: Bytes, wanted: seq<byte>, junk: Bytes) returns (r: nat)
    requires |junk| == 64
    ensures IsFirst(p, wanted, r)
  {
    if |p| == 0 || |wanted| == 0 {
      return |p|;
    }
    if |wanted| > MAX_VECTOR_SET {
      r := FindFirstOfScalar(p, wanted);
      return;
    }
    match level
    case Avx512 => r := FindFirstOfBlocks(p, wanted, 64, junk);
    case Avx2 => r := FindFirstOfBlocks(p, wanted, 32, junk[..32]);
    case Scalar => r := FindFirstOfScalar(p, wanted);
  }

  // ---------------------------------------------------------------------------------------------
  // Tokens
  // ---------------------------------------------------------------------------------------------

  const WHITESPACE: seq<byte> := [0x20, 0x09, 0x0A, 0x0B, 0x0C, 0x0D]

  /** Space, tab, newline, vertical tab, form feed or carriage return. */
  predicate IsBlank(c: byte) {
    c == 0x20 || 0x09 <= c <= 0x0D
  }

  function Separators(): (r: set<byte>)
    ensures forall c :: c in r <==> c in WHITESPACE
    ensures forall c :: c in r <==> IsBlank(c)
  {
    set c | c in WHITESPACE
  }

  /** The tokens from position i on, as half-open ranges. */
  function Ranges(s: Bytes, i: nat): seq<(nat, nat)>
    requires i <= |s|
    decreases |s| - i
  {
    var b := SkipSeparators(s, Separators(), i);
    if b == |s| then []
    else
      var e := TokenEnd(s, Separators(), b);
      [(b, e)] + Ranges(s, e)
  }

  /** One call of the tokenizer: the view [b, e) and the new position. */
  method NextToken(level: Level, data: Bytes, pos: nat, junk: Bytes) returns (b: nat, e: nat, pos': nat)
    requires |junk| == 64
    ensures pos >= |data| ==> b == e && pos' == pos
    ensures pos < |data| ==> b <= e <= |data| && pos < pos' <= |data|
    ensures pos < |data| ==> Ranges(data, pos) == if b == e then [] else [(b, e)] + Ranges(data, e)
    ensures pos < |data| ==> pos' == if b == e then |data| else e
  {
    if pos >= |data| {
      return 0, 0, pos;
    }
    var p := pos;
    while p < |data| && data[p] in WHITESPACE
      invariant pos <= p <= |data|
      invariant SkipSeparators(data, Separators(), pos) == SkipSeparators(data, Separators(), p)
    {
      p := p + 1;
    }
    if p >= |data| {
      return 0, 0, |data|;
    }
    var rel := FindFirstOf(level, data[p..], WHITESPACE, junk);
    e := p + rel;
    assert forall k :: p <= k < e ==> data[k] == data[p..][k - p];
    EndUnique(data, p, e);
    return p, e, e;
  }

  lemma EndUnique(s: Bytes, b: nat, e: nat)
    requires b <= e <= |s| && (forall k :: b <= k < e ==> s[k] !in Separators()) && (e < |s| ==> s[e] in Separators())
    ensures TokenEnd(s, Separators(), b) == e
  {
    var r := TokenEnd(s, Separators(), b);
  }

  /** Calling the tokenizer until it returns an empty view. */
  method AllTokens(level: Level, data: Bytes, junk: Bytes) returns (tokens: seq<(nat, nat)>)
    requires |junk| == 64
    ensures tokens == Ranges(data, 0)
  {
    tokens := [];
    var pos := 0;
    while pos < |data|
      invariant pos <= |data| && tokens + Ranges(data, pos) == Ranges(data, 0)
    {
      var b, e, next := NextToken(level, data, pos, junk);
      if b == e {
        assert tokens + [] == tokens;
        return;
      }
      tokens := tokens + [(b, e)];
      pos := next;
    }
    assert Ranges(data, pos) == [];
  }

  /** [b, e) is a maximal run of bytes that are not blank. */
  ghost predicate MaximalRun(s: Bytes, b: nat, e: nat) {
    && b < e <= |s|
    && (forall k :: b <= k < e ==> !IsBlank(s[k]))
    && (b == 0 || IsBlank(s[b - 1]))
    && (e == |s| || IsBlank(s[e]))
  }

  /** The tokens are exactly the maximal runs, in order of position. */
  lemma {:induction false} TokensAreMaximalRuns(s: Bytes, i: nat)
    requires i <= |s| && (i == 0 || i == |s| || IsBlank(s[i - 1]) || IsBlank(s[i]))
    ensures forall b: nat, e: nat :: (b, e) in Ranges(s, i) <==> i <= b && MaximalRun(s, b, e)
    ensures forall p, q :: 0 <= p < q < |Ranges(s, i)| ==> Ranges(s, i)[p].1 < Ranges(s, i)[q].0
    decreases |s| - i
  {
    var b0 := SkipSeparators(s, Separators(), i);
    if b0 < |s| {
      var e0 := TokenEnd(s, Separators(), b0);
      TokensAreMaximalRuns(s, e0);
      assert Ranges(s, i) == [(b0, e0)] + Ranges(s, e0);
      forall b: nat, e: nat
        ensures (b, e) in Ranges(s, i) <==> i <= b && MaximalRun(s, b, e)
      {
        FirstRun(s, i, b, e);
      }
      forall q | 1 <= q < |Ranges(s, i)|
        ensures Ranges(s, i)[0].1 < Ranges(s, i)[q].0
      {
        assert Ranges(s, i)[q] in Ranges(s, e0);
        assert MaximalRun(s, Ranges(s, i)[q].0, Ranges(s, i)[q].1);
      }
    } else {
      forall b: nat, e: nat | i <= b ensures !MaximalRun(s, b, e) {
        assert b < |s| ==> s[b] in Separators();
      }
    }
  }

  /** A maximal run at or after i is the first one, or starts behind it. */
  lemma FirstRun(s: Bytes, i: nat, b: nat, e: nat)
    requires i <= |s| && (i == 0 || i == |s| || IsBlank(s[i - 1]) || IsBlank(s[i]))
    requires SkipSeparators(s, Separators(), i) < |s|
    ensures var b0 := SkipSeparators(s, Separators(), i);
      var e0 := TokenEnd(s, Separators(), b0);
      && MaximalRun(s, b0, e0)
      && (i <= b && MaximalRun(s, b, e) <==> (b == b0 && e == e0) || (e0 <= b && MaximalRun(s, b, e)))
  {
    var b0 := SkipSeparators(s, Separators(), i);
    var e0 := TokenEnd(s, Separators(), b0);
    assert e0 < |s| ==> s[e0] in Separators();
    assert b0 <= e < e0 ==> s[e] !in Separators();
    assert i <= b < b0 ==> s[b] in Separators();
    assert b0 < b <= e0 ==> s[b - 1] !in Separators();
  }
}
