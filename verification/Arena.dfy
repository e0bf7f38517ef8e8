/**
 The bump allocator: alignment by mask, disjoint blocks, and strings that stay put until `Reset`
 whatever is written into other blocks.
 */
module Arena {
  import opened ByteText
  import opened Bits

  const DEFAULT_ALIGNMENT: nat := 64

  predicate IsPowerOfTwo(a: nat) {
    exists k: nat | k < a :: a == Pow2(k)
  }

  /** The mask expression (cur + a - 1) & ~(a - 1). */
  function AlignUp(cur: nat, a: nat): nat
    requires a > 0
  {
    AndNot(cur + a - 1, a - 1)
  }

  lemma {:induction false} Pow2Grows(k: nat)
    ensures k < Pow2(k)
  {
    if k > 0 {
      Pow2Grows(k - 1);
    }
  }

  lemma MultiplesApart(x: nat, y: nat, p: nat)
    requires p > 0 && x % p == 0 && y % p == 0 && x <= y < x + p
    ensures x == y
  {
    var d := y / p - x / p;
    assert p * d == y - x;
    assert d == 0;
  }

  lemma {:induction false} AndNotAtLeast(x: nat, m: nat)
    ensures AndNot(x, m) + m >= x
  {
    if x > 0 {
      AndNotAtLeast(x / 2, m / 2);
    }
  }

  /** For a power of two the mask expression is the least aligned address at or above the cursor. */
  lemma AlignUpIsLeast(cur: nat, k: nat)
    ensures var a := Pow2(k);
      var r := AlignUp(cur, a);
      && cur <= r < cur + a && r % a == 0
      && forall y: nat :: cur <= y && y % a == 0 ==> r <= y
  {
    hide AlignUp;
    var a := Pow2(k);
    var r := AlignUp(cur, a);
    AlignUpRoundsDown(cur, k);
    forall y: nat | cur <= y && y % a == 0 ensures r <= y {
      if y < r {
        MultiplesApart(y, r, a);
      }
    }
  }

  lemma AlignUpRoundsDown(cur: nat, k: nat)
    ensures cur <= AlignUp(cur, Pow2(k)) < cur + Pow2(k) && AlignUp(cur, Pow2(k)) % Pow2(k) == 0
  {
    hide AndNot, Pow2;
    var x := cur + Pow2(k) - 1;
    ClearLowBits(x, k);
    ModOfRoundedDown(x, Pow2(k));
  }

  lemma ModOfRoundedDown(x: nat, a: nat)
    requires a > 0
    ensures (x - x % a) % a == 0
  {
    assert x - x % a == a * (x / a) + 0;
    ModUnique(x - x % a, a, x / a, 0);
  }

  /** The mask works on the low k bits alone when both it and the added part fit there. */
  lemma {:induction false} AndNotSplit(t: nat, x: nat, m: nat, k: nat)
    requires x < Pow2(k) && m < Pow2(k)
    ensures AndNot(t * Pow2(k) + x, m) == t * Pow2(k) + AndNot(x, m)
  {
    if k == 0 {
      AndNotZero(t);
    } else {
      var half := t * Pow2(k - 1);
      assert t * Pow2(k) == 2 * half;
      AndNotSplit(t, x / 2, m / 2, k - 1);
      assert (2 * half + x) / 2 == half + x / 2 && (2 * half + x) % 2 == x % 2;
    }
  }

  /** The largest power of two that is not above a. */
  lemma {:induction false} FloorPower(a: nat) returns (k: nat)
    requires a > 0
    ensures Pow2(k) <= a < Pow2(k + 1)
  {
    if a == 1 {
      k := 0;
    } else {
      k := FloorPower(a / 2);
      k := k + 1;
    }
  }

  /** Only powers of two divide a power of two. */
  lemma {:induction false} DivisorOfPower(a: nat, q: int, k: nat) returns (j: nat)
    requires a * q == Pow2(k)
    ensures a == Pow2(j)
    decreases k
  {
    if k == 0 {
      FactorsOfOne(a, q);
      j := 0;
    } else if a % 2 == 0 {
      Halves(a, q, Pow2(k - 1));
      j := DivisorOfPower(a / 2, q, k - 1);
      j := j + 1;
    } else {
      EvenFactor(a, q, Pow2(k - 1));
      Halves(q, a, Pow2(k - 1));
      j := DivisorOfPower(a, q / 2, k - 1);
    }
  }

  lemma Halves(a: int, q: int, p: nat)
    requires a % 2 == 0 && a * q == 2 * p
    ensures (a / 2) * q == p
  {
    var h := a / 2;
    assert a == 2 * h;
    assert (2 * h) * q == 2 * (h * q);
  }

  lemma EvenFactor(a: nat, q: int, p: nat)
    requires a % 2 == 1 && a * q == 2 * p
    ensures q % 2 == 0
  {
    if q % 2 == 1 {
      OddTimesOdd(a, q);
    }
  }

  lemma ProductSign(a: nat, q: int)
    ensures if q >= 1 then a * q >= a else a * q <= 0
  {
  }

  lemma FactorsOfOne(a: nat, q: int)
    requires a * q == 1
    ensures a == 1
  {
    ProductSign(a, q);
    assert a != 0;
  }

  lemma Distribute(h: int, q: int)
    ensures (2 * h + 1) * q == 2 * (h * q) + q
  {
  }

  lemma OddTimesOdd(a: nat, q: int)
    requires a % 2 == 1 && q % 2 == 1
    ensures (a * q) % 2 == 1
  {
    var h, g := a / 2, q / 2;
    assert a == 2 * h + 1 && q == 2 * g + 1;
    Distribute(h, q);
    var hq := h * q;
    assert a * q == 2 * (hq + g) + 1;
  }

  /** Cursors one past a multiple of a larger power of two round to the same distance from it. */
  lemma AlignUpPastPower(t: nat, a: nat, k: nat)
    requires 0 < a < Pow2(k)
    ensures AlignUp(t * Pow2(k) + 1, a) == t * Pow2(k) + AndNot(a, a - 1)
  {
    AndNotSplit(t, a, a - 1, k);
  }

  lemma MultiplesDiffer(x: nat, y: nat, a: nat) returns (q: int)
    requires a > 0 && x % a == 0 && y % a == 0
    ensures y - x == a * q
  {
    q := y / a - x / a;
    assert x == a * (x / a) && y == a * (y / a);
  }

  /** Two such cursors cannot both be rounded to a multiple of a. */
  lemma OneOfTwoFails(t: nat, a: nat, k: nat)
    requires 0 < a < Pow2(k) && !IsPowerOfTwo(a)
    ensures AlignUp(t * Pow2(k) + 1, a) % a != 0 || AlignUp((t + 1) * Pow2(k) + 1, a) % a != 0
  {
    hide AlignUp, AndNot, Pow2;
    AlignUpPastPower(t, a, k);
    AlignUpPastPower(t + 1, a, k);
    var x, y := AlignUp(t * Pow2(k) + 1, a), AlignUp((t + 1) * Pow2(k) + 1, a);
    assert (t + 1) * Pow2(k) == t * Pow2(k) + Pow2(k);
    if x % a == 0 && y % a == 0 {
      var q := MultiplesDiffer(x, y, a);
      var j := DivisorOfPower(a, q, k);
      Pow2Grows(j);
      assert false;
    }
  }

  lemma NextMultiple(from: nat, p: nat) returns (t: nat)
    requires p > 0
    ensures from < t * p <= from + p
  {
    t := from / p + 1;
    assert from == p * (from / p) + from % p;
    assert t * p == p * (from / p) + p;
  }

  /** Any other alignment fails within four times its own size from every address. */
  lemma OtherAlignmentsFail(from: nat, a: nat) returns (cur: nat)
    requires a > 0 && !IsPowerOfTwo(a)
    ensures from <= cur < from + 4 * a && AlignUp(cur, a) % a != 0
  {
    hide AlignUp;
    var k := FloorPower(a);
    Pow2Grows(k);
    var p := Pow2(k + 1);
    assert Pow2(k) != a && p == 2 * Pow2(k);
    var t := NextMultiple(from, p);
    OneOfTwoFails(t, a, k + 1);
    assert (t + 1) * p == t * p + p;
    cur := if AlignUp(t * p + 1, a) % a != 0 then t * p + 1 else (t + 1) * p + 1;
  }

  /** From any base on, the mask expression aligns every cursor exactly when the alignment is a power of two. */
  lemma AlignsIffPowerOfTwo(base: nat, a: nat)
    requires a > 0
    ensures IsPowerOfTwo(a) <==> forall cur: nat :: cur >= base ==> AlignUp(cur, a) % a == 0
  {
    hide AlignUp;
    if IsPowerOfTwo(a) {
      forall cur: nat ensures AlignUp(cur, a) % a == 0 {
        AlignUpReaches(cur, a);
      }
    } else {
      var cur := OtherAlignmentsFail(base, a);
    }
  }

  /** The same for the cursors of an arena at `base` that is at least four times as large as the alignment. */
  lemma ArenaAlignsIffPowerOfTwo(base: nat, capacity: nat, a: nat)
    requires 0 < 4 * a <= capacity
    ensures IsPowerOfTwo(a) <==> forall cur: nat :: base <= cur <= base + capacity ==> AlignUp(cur, a) % a == 0
  {
    hide AlignUp;
    if IsPowerOfTwo(a) {
      forall cur: nat ensures AlignUp(cur, a) % a == 0 {
        AlignUpReaches(cur, a);
      }
    } else {
      var cur := OtherAlignmentsFail(base, a);
    }
  }

  /** The cursor n bytes above the base is rounded to an address that is not aligned. */
  predicate Misaligns(base: nat, a: nat, n: nat)
    requires a > 0
  {
    AlignUp(base + n, a) % a != 0
  }

  lemma {:induction false} AndNotAtMost(x: nat, m: nat)
    ensures AndNot(x, m) <= x
  {
    if x > 0 {
      AndNotAtMost(x / 2, m / 2);
    }
  }

  lemma AlignUpIsNear(cur: nat, a: nat)
    requires a > 0
    ensures cur <= AlignUp(cur, a) < cur + a
  {
    AndNotAtLeast(cur + a - 1, a - 1);
    AndNotAtMost(cur + a - 1, a - 1);
  }

  lemma AlignOneIsHere(cur: nat)
    ensures AlignUp(cur, 1) == cur
  {
    AlignUpIsNear(cur, 1);
  }

  /** A successful request: where the block starts, its size, and the alignment asked for. */
  datatype Block = Block(start: nat, size: nat, align: nat)
  /** A string returned by `alloc_string`: the index of its block, and its bytes. */
  datatype Text = Text(block: nat, bytes: Bytes)

  predicate BlockOk(base: nat, cur: nat, b: Block) {
    base <= b.start && b.start + b.size <= cur && (IsPowerOfTwo(b.align) ==> b.start % b.align == 0)
  }

  /** Every block is aligned and between base and cursor, and the blocks lie one after the other. */
  ghost predicate BlocksOk(base: nat, cur: nat, blocks: seq<Block>) {
    && (forall i :: 0 <= i < |blocks| ==> BlockOk(base, cur, blocks[i]))
    && (forall i, j :: 0 <= i < j < |blocks| ==> blocks[i].start + blocks[i].size <= blocks[j].start)
  }

  lemma BlockAdded(base: nat, cur: nat, blocks: seq<Block>, b: Block)
    requires BlocksOk(base, cur, blocks) && base <= cur <= b.start
    requires IsPowerOfTwo(b.align) ==> b.start % b.align == 0
    ensures BlocksOk(base, b.start + b.size, blocks + [b])
  {
    hide IsPowerOfTwo;
    forall i | 0 <= i < |blocks| ensures BlockOk(base, b.start + b.size, blocks[i]) {
      assert BlockOk(base, cur, blocks[i]);
    }
  }

  /** The string fills one of the blocks. */
  ghost predicate TextOk(base: nat, blocks: seq<Block>, memory: seq<byte>, t: Text) {
    && t.block < |blocks|
    && var b := blocks[t.block];
       && b.size == |t.bytes| && base <= b.start && b.start + b.size <= base + |memory|
       && memory[b.start - base..b.start - base + b.size] == t.bytes
  }

  lemma TextOkWithMore(base: nat, blocks: seq<Block>, b: Block, memory: seq<byte>, t: Text)
    requires TextOk(base, blocks, memory, t)
    ensures TextOk(base, blocks + [b], memory, t)
  {
  }

  /** What is written into another block leaves a string as it was. */
  lemma TextStays(base: nat, cur: nat, blocks: seq<Block>, memory: seq<byte>, memory': seq<byte>, t: Text, k: nat)
    requires TextOk(base, blocks, memory, t) && BlocksOk(base, cur, blocks) && k < |blocks| && k != t.block
    requires |memory'| == |memory|
    requires forall i :: 0 <= i < |memory| && !(blocks[k].start <= base + i < blocks[k].start + blocks[k].size)
               ==> memory'[i] == memory[i]
    ensures TextOk(base, blocks, memory', t)
  {
    hide IsPowerOfTwo;
    var b := blocks[t.block];
    assert b.start + b.size <= blocks[k].start || blocks[k].start + blocks[k].size <= b.start;
    var from := b.start - base;
    assert memory'[from..from + b.size] == memory[from..from + b.size];
  }

  /** Any alignment gives an address at or above the cursor; a power of two gives an aligned one. */
  lemma AlignUpReaches(cur: nat, a: nat)
    requires a > 0
    ensures cur <= AlignUp(cur, a)
    ensures IsPowerOfTwo(a) ==> AlignUp(cur, a) % a == 0
  {
    AndNotAtLeast(cur + a - 1, a - 1);
    if IsPowerOfTwo(a) {
      var k: nat :| k < a && a == Pow2(k);
      AlignUpIsLeast(cur, k);
    }
  }

  class ArenaAllocator {
    /** Address of the memory; 0 when the constructor got none. */
    const base: nat
    const memory: array<byte>
    var cur: nat
    ghost var blocks: seq<Block>
    ghost var texts: seq<Text>

    ghost predicate Valid()
      reads this, memory
    {
      && base <= cur <= base + memory.Length
      && BlocksOk(base, cur, blocks)
      && (forall i :: 0 <= i < |texts| ==> TextOk(base, blocks, memory[..], texts[i]))
    }

    constructor (base: nat, memory: array<byte>)
      requires base == 0 ==> memory.Length == 0
      ensures Valid() && this.base == base && this.memory == memory && cur == base && blocks == [] && texts == []
    {
      this.base, this.memory := base, memory;
      cur := base;
      blocks, texts := [], [];
    }

    method Reset()
      requires Valid()
      modifies this
      ensures Valid() && cur == base && blocks == [] && texts == []
    {
      cur := base;
      blocks, texts := [], [];
    }

    function Remaining(): nat
      requires Valid()
      reads this, memory
    {
      if base == 0 then 0 else base + memory.Length - cur
    }

    /** What a request for `align` uses. */
    function Alignment(align: nat): nat {
      if align != 0 then align else DEFAULT_ALIGNMENT
    }

    /** Whether the request is refused. */
    predicate Refused(bytes: nat, align: nat)
      requires Valid()
      reads this, memory
    {
      base == 0 || AlignUp(cur, Alignment(align)) - cur + bytes > Remaining()
    }

    /** The address 0 stands for a refusal, which changes nothing. */
    method Alloc(bytes: nat, align: nat) returns (p: nat)
      requires Valid()
      modifies this`cur, this`blocks
      ensures Valid()
      ensures p == 0 <==> old(Refused(bytes, align))
      ensures p == 0 <==>
        base == 0 || AlignUp(old(cur), if align == 0 then 64 else align) + bytes > base + memory.Length
      ensures p == 0 ==> cur == old(cur) && blocks == old(blocks)
      ensures p != 0 ==>
        && p == AlignUp(old(cur), if align == 0 then 64 else align) && cur == p + bytes && old(cur) <= p
        && blocks == old(blocks) + [Block(p, bytes, Alignment(align))]
    {
      hide IsPowerOfTwo, AlignUp, BlocksOk, TextOk;
      if base == 0 {
        return 0;
      }
      var a := if align != 0 then align else DEFAULT_ALIGNMENT;
      var aligned := AlignUp(cur, a);
      AlignUpReaches(cur, a);
      var shift := aligned - cur;
      if shift + bytes > base + memory.Length - cur {
        return 0;
      }
      p := aligned;
      BlockAdded(base, cur, blocks, Block(p, bytes, a));
      forall i | 0 <= i < |texts| ensures TextOk(base, blocks + [Block(p, bytes, a)], memory[..], texts[i]) {
        TextOkWithMore(base, blocks, Block(p, bytes, a), memory[..], texts[i]);
      }
      cur := p + bytes;
      blocks := blocks + [Block(p, bytes, a)];
    }

    /**
     On a fresh arena at least five times as large as an alignment that is no power of two, two accepted
     requests end at a misaligned address: `n` bytes to move the cursor, then the aligned request.
     */
    method RequestMisaligned(a: nat) returns (n: nat, p: nat)
      requires Valid() && base != 0 && cur == base && 0 < 5 * a <= memory.Length && !IsPowerOfTwo(a)
      modifies this`cur, this`blocks
      ensures Valid() && n < 4 * a && blocks == old(blocks) + [Block(base, n, 1), Block(p, 0, a)]
      ensures p != 0 && p % a != 0
    {
      hide AlignUp, IsPowerOfTwo;
      ghost var bad := OtherAlignmentsFail(base, a);
      assert base + (bad - base) == bad && Misaligns(base, a, bad - base);
      n :| 0 <= n < 4 * a && Misaligns(base, a, n);
      AlignOneIsHere(base);
      var first := Alloc(n, 1);
      assert first == base && cur == base + n;
      AlignUpIsNear(cur, a);
      assert !Refused(0, a);
      p := Alloc(0, a);
      assert p == AlignUp(base + n, a);
      assert Misaligns(base, a, n);
    }

    /** An empty view (length 0) stands for a refusal or an empty source. */
    method AllocString(source: Bytes) returns (start: nat, length: nat)
      requires Valid()
      modifies this`cur, this`blocks, this`texts, memory
      ensures Valid()
      ensures length == (if source == [] || old(Refused(|source|, 1)) then 0 else |source|)
      ensures length == 0 ==>
        texts == old(texts) && blocks == old(blocks) && cur == old(cur) && memory[..] == old(memory[..])
      ensures length != 0 ==>
        && start == old(cur) && texts == old(texts) + [Text(|old(blocks)|, source)]
        && blocks == old(blocks) + [Block(start, |source|, 1)]
        && (forall i :: 0 <= i < memory.Length && !(start - base <= i < start - base + |source|) ==>
              memory[i] == old(memory[i]))
    {
      if source == [] || base == 0 {
        return 0, 0;
      }
      assert Pow2(0) == 1 && IsPowerOfTwo(1);
      AlignUpIsLeast(cur, 0);
      var p := Alloc(|source|, 1);
      if p == 0 {
        return 0, 0;
      }
      ghost var before := memory[..];
      CopyTo(p - base, source);
      forall i | 0 <= i < |texts| ensures TextOk(base, blocks, memory[..], texts[i]) {
        TextStays(base, cur, blocks, before, memory[..], texts[i], |blocks| - 1);
      }
      assert TextOk(base, blocks, memory[..], Text(|blocks| - 1, source));
      texts := texts + [Text(|blocks| - 1, source)];
      return p, |source|;
    }

    /** The owner of block k, which is not one of the strings, writes a byte at an address inside it. */
    method WriteBlock(ghost k: nat, address: nat, v: byte)
      requires Valid() && k < |blocks| && blocks[k].start <= address < blocks[k].start + blocks[k].size
      requires forall i :: 0 <= i < |texts| ==> texts[i].block != k
      modifies memory
      ensures Valid()
      ensures memory[..] == old(memory[..])[address - base := v]
    {
      assert BlockOk(base, cur, blocks[k]);
      memory[address - base] := v;
      forall i | 0 <= i < |texts| ensures TextOk(base, blocks, memory[..], texts[i]) {
        TextStays(base, cur, blocks, old(memory[..]), memory[..], texts[i], k);
      }
    }

    /** memcpy into the arena. */
    method CopyTo(at: nat, source: Bytes)
      requires at + |source| <= memory.Length
      modifies memory
      ensures memory[at..at + |source|] == source
      ensures forall i :: 0 <= i < memory.Length && !(at <= i < at + |source|) ==> memory[i] == old(memory[i])
    {
      var i := 0;
      while i < |source|
        invariant i <= |source|
        invariant forall j :: 0 <= j < i ==> memory[at + j] == source[j]
        invariant forall j :: 0 <= j < memory.Length && !(at <= j < at + i) ==> memory[j] == old(memory[j])
      {
        memory[at + i] := source[i];
        i := i + 1;
      }
    }
  }
}
