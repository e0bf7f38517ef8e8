/** The machine's mask operations, on naturals read as unbounded bit strings. */
module Bits {
  function Pow2(k: nat): (r: nat)
    ensures r >= 1
  {
    if k == 0 then 1 else 2 * Pow2(k - 1)
  }

  function Bit(b: bool): nat {
    if b then 1 else 0
  }

  function And(x: nat, y: nat): nat {
    if x == 0 then 0 else 2 * And(x / 2, y / 2) + Bit(x % 2 == 1 && y % 2 == 1)
  }

  function Or(x: nat, y: nat): nat
    decreases x + y
  {
    if x == 0 then y else if y == 0 then x else 2 * Or(x / 2, y / 2) + Bit(x % 2 == 1 || y % 2 == 1)
  }

  /** x & ~y */
  function AndNot(x: nat, y: nat): nat {
    if x == 0 then 0 else 2 * AndNot(x / 2, y / 2) + Bit(x % 2 == 1 && y % 2 == 0)
  }

  /** Count of trailing zeros of a non-zero mask. */
  function Ctz(m: nat): nat
    requires m != 0
  {
    if m % 2 == 1 then 0 else 1 + Ctz(m / 2)
  }

  function PopCount(m: nat): nat {
    if m == 0 then 0 else Bit(m % 2 == 1) + PopCount(m / 2)
  }

  /** One bit per lane, lane 0 lowest: what a vector compare followed by a move-mask gives. */
  function MoveMask(lanes: seq<bool>): nat {
    if lanes == [] then 0 else Bit(lanes[0]) + 2 * MoveMask(lanes[1..])
  }

  /** Keeping the low k bits of a lane mask keeps the first k lanes. */
  lemma {:induction false} LowLanes(lanes: seq<bool>, k: nat)
    requires k <= |lanes|
    ensures And(MoveMask(lanes), Pow2(k) - 1) == MoveMask(lanes[..k])
  {
    if lanes != [] {
      var m := MoveMask(lanes);
      assert m / 2 == MoveMask(lanes[1..]) && (m % 2 == 1 <==> lanes[0]);
      if k == 0 {
        AndZero(m);
      } else {
        LowLanes(lanes[1..], k - 1);
        assert (Pow2(k) - 1) / 2 == Pow2(k - 1) - 1 && (Pow2(k) - 1) % 2 == 1;
        assert lanes[..k][1..] == lanes[1..][..k - 1];
      }
    }
  }

  lemma {:induction false} AndZero(x: nat)
    ensures And(x, 0) == 0
  {
    if x != 0 {
      AndZero(x / 2);
    }
  }

  lemma {:induction false} OrLanes(a: seq<bool>, b: seq<bool>)
    requires |a| == |b|
    ensures Or(MoveMask(a), MoveMask(b)) == MoveMask(seq(|a|, i requires 0 <= i < |a| => a[i] || b[i]))
  {
    var c := seq(|a|, i requires 0 <= i < |a| => a[i] || b[i]);
    if a != [] {
      OrLanes(a[1..], b[1..]);
      assert c[1..] == seq(|a| - 1, i requires 0 <= i < |a| - 1 => a[1..][i] || b[1..][i]);
      assert MoveMask(a) / 2 == MoveMask(a[1..]) && MoveMask(b) / 2 == MoveMask(b[1..]);
    }
  }

  /** A zero mask means no lane is set; otherwise Ctz is the first set lane. */
  lemma {:induction false} FirstLane(lanes: seq<bool>)
    ensures MoveMask(lanes) == 0 <==> forall i :: 0 <= i < |lanes| ==> !lanes[i]
    ensures MoveMask(lanes) != 0 ==>
      var k := Ctz(MoveMask(lanes));
      k < |lanes| && lanes[k] && forall i :: 0 <= i < k ==> !lanes[i]
  {
    if lanes != [] {
      FirstLane(lanes[1..]);
      var m := MoveMask(lanes);
      assert m / 2 == MoveMask(lanes[1..]) && (m % 2 == 1 <==> lanes[0]);
      if forall i :: 0 <= i < |lanes| ==> !lanes[i] {
        assert forall i :: 0 <= i < |lanes| - 1 ==> lanes[1..][i] == lanes[i + 1];
      } else if !lanes[0] {
        var i :| 0 <= i < |lanes| && lanes[i];
        assert lanes[1..][i - 1];
        assert m != 0 && Ctz(m) == 1 + Ctz(m / 2);
        assert forall i :: 1 <= i < |lanes| ==> lanes[i] == lanes[1..][i - 1];
      }
    }
  }

  lemma AndNotLowBit(x: nat, p: nat)
    requires p >= 1
    ensures AndNot(x, 2 * p - 1) == 2 * AndNot(x / 2, p - 1)
  {
    assert (2 * p - 1) / 2 == p - 1 && (2 * p - 1) % 2 == 1;
  }

  /** Clearing the low k bits rounds down to a multiple of 2^k. */
  lemma {:induction false} ClearLowBits(x: nat, k: nat)
    ensures AndNot(x, Pow2(k) - 1) == x - x % Pow2(k)
    decreases k
  {
    if k == 0 {
      AndNotZero(x);
    } else {
      var p := Pow2(k - 1);
      assert Pow2(k) == 2 * p;
      hide AndNot, Pow2;
      ClearLowBits(x / 2, k - 1);
      AndNotLowBit(x, p);
      ModDouble(x, p);
    }
  }

  lemma ModDouble(x: nat, p: nat)
    requires p >= 1
    ensures x % (2 * p) == 2 * ((x / 2) % p) + x % 2
  {
    var q, r := (x / 2) / p, (x / 2) % p;
    assert x / 2 == p * q + r;
    assert x == 2 * (p * q + r) + x % 2;
    assert 2 * (p * q) == (2 * p) * q;
    ModUnique(x, 2 * p, q, 2 * r + x % 2);
  }

  lemma ModUnique(x: nat, m: nat, q: nat, r: nat)
    requires m >= 1 && x == m * q + r && r < m
    ensures x % m == r
  {
    var d := x / m - q;
    assert m * d == r - x % m;
    assert d == 0;
  }

  lemma {:induction false} AndNotZero(x: nat)
    ensures AndNot(x, 0) == x
  {
    if x != 0 {
      AndNotZero(x / 2);
    }
  }
}
