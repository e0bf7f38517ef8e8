/** The terminal sanitizer: byte loop and vector loop. */
module Sanitizer {
  import opened ByteText
  import opened Bits

  const ESC: byte := 0x1B
  const BEL: byte := 0x07
  const DEL: byte := 0x7F
  const BACKSLASH: byte := 0x5C
  const LEFT_BRACKET: byte := 0x5B
  const BLOCK: nat := 32

  predicate IsFinal(c: byte) {
    0x40 <= c <= 0x7E
  }

  /** A control byte that is never shown; ESC is one of them. */
  predicate Dirty(c: byte) {
    (c < 0x20 && c != NEWLINE && c != TAB) || c == DEL
  }

  // ---------------------------------------------------------------------------------------------
  // Escape sequences
  // ---------------------------------------------------------------------------------------------

  /** End of a control sequence whose parameters start at i: one past its final byte, or the end of input. */
  function CsiEnd(d: Bytes, i: nat): (r: nat)
    requires i <= |d|
    ensures i <= r <= |d|
    decreases |d| - i
  {
    if i == |d| then i else if IsFinal(d[i]) then i + 1 else CsiEnd(d, i + 1)
  }

  /** End of a string sequence whose text starts at i: past BEL or ESC \, or the end of input. */
  function StringEnd(d: Bytes, i: nat): (r: nat)
    requires i <= |d|
    ensures i <= r <= |d|
    decreases |d| - i
  {
    if i == |d| then i
    else if d[i] == BEL then i + 1
    else if d[i] == ESC && i + 1 < |d| && d[i + 1] == BACKSLASH then i + 2
    else StringEnd(d, i + 1)
  }

  predicate OpensString(c: byte) {
    c == 0x5D || c == 0x5F || c == 0x50
  }

  /** Where scanning goes on after the escape at i. */
  function EscapeEnd(d: Bytes, i: nat): (r: nat)
    requires i < |d|
    ensures i < r <= |d|
  {
    if i + 1 == |d| then |d|
    else if d[i + 1] == LEFT_BRACKET then CsiEnd(d, i + 2)
    else if OpensString(d[i + 1]) then StringEnd(d, i + 2)
    else i + 1
  }

  method ConsumeEscape(d: Bytes, start: nat) returns (i: nat)
    requires start < |d|
    ensures i == EscapeEnd(d, start)
  {
    i := start;
    if i + 1 >= |d| {
      return |d|;
    }
    var next := d[i + 1];
    if next == LEFT_BRACKET {
      i := i + 2;
      while i < |d|
        invariant i <= |d| && CsiEnd(d, i) == CsiEnd(d, start + 2)
      {
        if IsFinal(d[i]) {
          return i + 1;
        }
        i := i + 1;
      }
      return;
    }
    if OpensString(next) {
      i := i + 2;
      while i < |d|
        invariant i <= |d| && StringEnd(d, i) == StringEnd(d, start + 2)
      {
        if d[i] == BEL {
          return i + 1;
        }
        if d[i] == ESC && i + 1 < |d| && d[i + 1] == BACKSLASH {
          return i + 2;
        }
        i := i + 1;
      }
      return;
    }
    return i + 1;
  }

  // ---------------------------------------------------------------------------------------------
  // The two loops
  // ---------------------------------------------------------------------------------------------

  /** Scanning takes one byte, or one whole escape sequence. */
  function After(d: Bytes, i: nat): (r: nat)
    requires i < |d|
    ensures i < r <= |d|
  {
    if d[i] == ESC then EscapeEnd(d, i) else i + 1
  }

  function Shown(c: byte): Bytes {
    if Dirty(c) then [] else [c]
  }

  /** What is kept of d from position i on. */
  function CleanFrom(d: Bytes, i: nat): Bytes
    requires i <= |d|
    decreases |d| - i
  {
    if i == |d| then [] else Shown(d[i]) + CleanFrom(d, After(d, i))
  }

  function Clean(d: Bytes): Bytes {
    CleanFrom(d, 0)
  }

  lemma CleanStep(d: Bytes, i: nat)
    requires i < |d|
    ensures CleanFrom(d, i) == Shown(d[i]) + CleanFrom(d, After(d, i))
  {
    hide After;
  }

  lemma CleanSkips(d: Bytes, i: nat)
    requires i < |d| && Dirty(d[i])
    ensures CleanFrom(d, i) == CleanFrom(d, After(d, i))
  {
    hide After;
    assert [] + CleanFrom(d, After(d, i)) == CleanFrom(d, After(d, i));
  }

  lemma CleanEnd(d: Bytes)
    ensures CleanFrom(d, |d|) == []
  {
  }

  /** A stretch without dirty bytes is kept as it is. */
  lemma {:induction false} CleanStretch(d: Bytes, i: nat, j: nat)
    requires i <= j <= |d| && forall k :: i <= k < j ==> !Dirty(d[k])
    ensures CleanFrom(d, i) == d[i..j] + CleanFrom(d, j)
    decreases j - i
  {
    hide EscapeEnd;
    if i < j {
      CleanStretch(d, i + 1, j);
      assert After(d, i) == i + 1;
      assert CleanFrom(d, i) == [d[i]] + CleanFrom(d, i + 1);
      assert d[i..j] == [d[i]] + d[i + 1..j];
      Assoc([d[i]], d[i + 1..j], CleanFrom(d, j));
    }
  }

  /** The lane test of the vector loop, with the mask 0xE0 picking the three high bits. */
  predicate DirtyLane(c: byte) {
    (((c as bv8) & 0xE0) == 0 && !(c == TAB || c == NEWLINE)) || c == DEL
  }

  lemma HighBits(x: bv8)
    ensures (x & 0xE0) == 0 <==> x < 0x20
  {
  }

  lemma LaneIsDirty(c: byte)
    ensures DirtyLane(c) <==> Dirty(c)
  {
    HighBits(c as bv8);
  }

  function DirtyLanes(block: Bytes): (lanes: seq<bool>)
    ensures |lanes| == |block| && forall i :: 0 <= i < |block| ==> lanes[i] == DirtyLane(block[i])
  {
    seq(|block|, i requires 0 <= i < |block| => DirtyLane(block[i]))
  }

  /** The byte loop, from position i with `kept` already taken. */
  method ScanBytes(d: Bytes, start: nat, kept: Bytes) returns (safe: Bytes)
    requires start <= |d|
    ensures safe == kept + CleanFrom(d, start)
  {
    hide CleanFrom, EscapeEnd;
    safe := kept;
    var i := start;
    while i < |d|
      invariant start <= i <= |d| && safe + CleanFrom(d, i) == kept + CleanFrom(d, start)
    {
      var ch := d[i];
      if ch == ESC {
        CleanSkips(d, i);
        i := ConsumeEscape(d, i);
      } else if (ch < 0x20 && ch != 0x0A && ch != 0x09) || ch == 0x7F {
        CleanSkips(d, i);
        i := i + 1;
      } else {
        CleanStep(d, i);
        Assoc(safe, [ch], CleanFrom(d, i + 1));
        safe := safe + [ch];
        i := i + 1;
      }
    }
    CleanEnd(d);
    assert safe + [] == safe;
  }

  /** `sanitize_terminal_output` on a machine without the vector extension. */
  method SanitizeScalar(input: Bytes) returns (safe: Bytes)
    ensures safe == Clean(input)
  {
    if input == [] {
      return [];
    }
    safe := ScanBytes(input, 0, []);
    assert [] + Clean(input) == Clean(input);
  }

  /** One vector compare: how many clean bytes the block at i starts with. */
  method CleanLanes(d: Bytes, i: nat) returns (first: nat)
    requires i + BLOCK <= |d|
    ensures first <= BLOCK && (forall k :: i <= k < i + first ==> !Dirty(d[k]))
    ensures first < BLOCK ==> Dirty(d[i + first])
  {
    var lanes := DirtyLanes(d[i..i + BLOCK]);
    var mask := MoveMask(lanes);
    FirstLane(lanes);
    first := if mask == 0 then BLOCK else Ctz(mask);
    forall k | i <= k < i + BLOCK ensures lanes[k - i] == Dirty(d[k]) {
      LaneIsDirty(d[k]);
    }
    forall k | i <= k < i + first ensures !Dirty(d[k]) {
      assert !lanes[k - i];
    }
    assert first < BLOCK ==> lanes[first];
  }

  lemma KeepsInvariant(kept: Bytes, d: Bytes, i: nat, j: nat, all: Bytes)
    requires i <= j <= |d| && kept + CleanFrom(d, i) == all && forall k :: i <= k < j ==> !Dirty(d[k])
    ensures kept + d[i..j] + CleanFrom(d, j) == all
  {
    CleanStretch(d, i, j);
    assert kept + d[i..j] + CleanFrom(d, j) == kept + (d[i..j] + CleanFrom(d, j));
  }

  /** `sanitize_terminal_output` with the 32-byte loop in front of the byte loop. */
  method SanitizeVector(input: Bytes) returns (safe: Bytes)
    ensures safe == Clean(input)
  {
    hide CleanFrom, EscapeEnd;
    safe := [];
    if input == [] {
      CleanEnd(input);
      return;
    }
    var i := 0;
    assert [] + CleanFrom(input, 0) == Clean(input);
    while i + BLOCK <= |input|
      invariant i <= |input| && safe + CleanFrom(input, i) == Clean(input)
      decreases |input| - i
    {
      var first := CleanLanes(input, i);
      KeepsInvariant(safe, input, i, i + first, Clean(input));
      safe := safe + input[i..i + first];
      i := i + first;
      if first < BLOCK {
        CleanSkips(input, i);
        if input[i] == ESC {
          i := ConsumeEscape(input, i);
        } else {
          i := i + 1;
        }
      }
    }
    safe := ScanBytes(input, i, safe);
  }

  // ---------------------------------------------------------------------------------------------
  // What the output is
  // ---------------------------------------------------------------------------------------------

  ghost predicate AllShown(d: Bytes) {
    forall i :: 0 <= i < |d| ==> !Dirty(d[i])
  }

  /** `at` picks the kept bytes of d in increasing positions. */
  ghost predicate PickedFrom(out: Bytes, d: Bytes, at: seq<nat>) {
    && |at| == |out|
    && (forall k :: 0 <= k < |at| ==> at[k] < |d| && out[k] == d[at[k]])
    && (forall k, l :: 0 <= k < l < |at| ==> at[k] < at[l])
  }

  /** The output shows no control byte and is a subsequence of the input. */
  lemma {:induction false} OutputIsSafe(d: Bytes, i: nat) returns (at: seq<nat>)
    requires i <= |d|
    ensures AllShown(CleanFrom(d, i))
    ensures PickedFrom(CleanFrom(d, i), d, at) && forall k :: 0 <= k < |at| ==> i <= at[k]
    decreases |d| - i
  {
    hide After;
    if i == |d| {
      at := [];
    } else {
      var rest := CleanFrom(d, After(d, i));
      at := OutputIsSafe(d, After(d, i));
      if Dirty(d[i]) {
        assert CleanFrom(d, i) == rest;
      } else {
        PickOneMore(d, rest, at, i);
        at := [i] + at;
      }
    }
  }

  lemma PickOneMore(d: Bytes, rest: Bytes, at: seq<nat>, i: nat)
    requires i < |d| && PickedFrom(rest, d, at) && forall k :: 0 <= k < |at| ==> i < at[k]
    ensures PickedFrom([d[i]] + rest, d, [i] + at)
  {
  }

  lemma {:induction false} CleanNeverLonger(d: Bytes, i: nat)
    requires i <= |d|
    ensures |CleanFrom(d, i)| <= |d| - i
    decreases |d| - i
  {
    if i < |d| {
      CleanNeverLonger(d, After(d, i));
    }
  }

  /** Exactly the strings without dirty bytes are left unchanged. */
  lemma FixedPoints(d: Bytes)
    ensures Clean(d) == d <==> AllShown(d)
  {
    if AllShown(d) {
      CleanStretch(d, 0, |d|);
    } else {
      var _ := OutputIsSafe(d, 0);
    }
  }

  lemma Idempotent(d: Bytes)
    ensures Clean(Clean(d)) == Clean(d)
  {
    var _ := OutputIsSafe(d, 0);
    FixedPoints(Clean(d));
  }

  // ---------------------------------------------------------------------------------------------
  // Cutting the input in two
  // ---------------------------------------------------------------------------------------------

  /** The escape at i reaches its terminator before the input ends. */
  function CsiCloses(d: Bytes, i: nat): bool
    requires i <= |d|
    decreases |d| - i
  {
    i < |d| && (IsFinal(d[i]) || CsiCloses(d, i + 1))
  }

  function StringCloses(d: Bytes, i: nat): bool
    requires i <= |d|
    decreases |d| - i
  {
    && i < |d|
    && (d[i] == BEL || (d[i] == ESC && i + 1 < |d| && d[i + 1] == BACKSLASH) || StringCloses(d, i + 1))
  }

  predicate EscapeCloses(d: Bytes, i: nat)
    requires i < |d|
  {
    && i + 1 < |d|
    && (d[i + 1] == LEFT_BRACKET ==> CsiCloses(d, i + 2))
    && (OpensString(d[i + 1]) ==> StringCloses(d, i + 2))
  }

  /** Scanning d from i ends between sequences, not inside one. */
  predicate Settled(d: Bytes, i: nat)
    requires i <= |d|
    decreases |d| - i
  {
    i < |d| ==> (d[i] == ESC ==> EscapeCloses(d, i)) && Settled(d, After(d, i))
  }

  lemma {:induction false} CsiEndShift(a: Bytes, b: Bytes, i: nat)
    requires i <= |a|
    ensures CsiEnd(a + b, i) == if CsiCloses(a, i) then CsiEnd(a, i) else CsiEnd(a + b, |a|)
    decreases |a| - i
  {
    if i < |a| && !IsFinal(a[i]) {
      CsiEndShift(a, b, i + 1);
    }
  }

  lemma {:induction false} StringEndClosed(a: Bytes, b: Bytes, i: nat)
    requires i <= |a| && StringCloses(a, i)
    ensures StringEnd(a + b, i) == StringEnd(a, i)
    decreases |a| - i
  {
    if a[i] != BEL && !(a[i] == ESC && i + 1 < |a| && a[i + 1] == BACKSLASH) {
      assert i + 1 < |a|;
      StringEndClosed(a, b, i + 1);
    }
  }

  /** An open string sequence runs on into b, unless b completes ESC \ across the cut. */
  lemma {:induction false} StringEndOpen(a: Bytes, b: Bytes, i: nat)
    requires i <= |a| && !StringCloses(a, i) && b != [] && b[0] != BACKSLASH
    ensures StringEnd(a + b, i) == StringEnd(a + b, |a|)
    decreases |a| - i
  {
    if i < |a| {
      assert (a + b)[i] == a[i];
      StringEndOpen(a, b, i + 1);
    }
  }

  lemma {:induction false} CsiEndSuffix(a: Bytes, b: Bytes, i: nat)
    requires i <= |b|
    ensures CsiEnd(a + b, |a| + i) == |a| + CsiEnd(b, i)
    decreases |b| - i
  {
    if i < |b| && !IsFinal(b[i]) {
      CsiEndSuffix(a, b, i + 1);
    }
  }

  lemma {:induction false} StringEndSuffix(a: Bytes, b: Bytes, i: nat)
    requires i <= |b|
    ensures StringEnd(a + b, |a| + i) == |a| + StringEnd(b, i)
    decreases |b| - i
  {
    if i < |b| && b[i] != BEL && !(b[i] == ESC && i + 1 < |b| && b[i + 1] == BACKSLASH) {
      StringEndSuffix(a, b, i + 1);
    }
  }

  lemma AfterSuffix(a: Bytes, b: Bytes, i: nat)
    requires i < |b|
    ensures After(a + b, |a| + i) == |a| + After(b, i)
  {
    if b[i] == ESC && i + 1 < |b| {
      assert (a + b)[|a| + i + 1] == b[i + 1];
      CsiEndSuffix(a, b, i + 2);
      StringEndSuffix(a, b, i + 2);
    }
  }

  lemma {:induction false} CleanSuffix(a: Bytes, b: Bytes, i: nat)
    requires i <= |b|
    ensures CleanFrom(a + b, |a| + i) == CleanFrom(b, i)
    decreases |b| - i
  {
    if i == |b| {
      CleanEnd(b);
      CleanEnd(a + b);
    } else {
      hide After, CleanFrom;
      assert (a + b)[|a| + i] == b[i];
      AfterSuffix(a, b, i);
      CleanSuffix(a, b, After(b, i));
      CleanStep(b, i);
      CleanStep(a + b, |a| + i);
    }
  }

  /** A sequence that closes inside a is not affected by what follows a. */
  lemma AfterPrefix(a: Bytes, b: Bytes, i: nat)
    requires i < |a| && (a[i] == ESC ==> EscapeCloses(a, i))
    ensures After(a + b, i) == After(a, i)
  {
    if a[i] == ESC {
      assert (a + b)[i + 1] == a[i + 1];
      CsiEndShift(a, b, i + 2);
      if OpensString(a[i + 1]) {
        StringEndClosed(a, b, i + 2);
      }
    }
  }

  lemma {:induction false} SettledSplits(a: Bytes, b: Bytes, i: nat)
    requires i <= |a| && Settled(a, i)
    ensures CleanFrom(a + b, i) == CleanFrom(a, i) + Clean(b)
    decreases |a| - i
  {
    hide After, EscapeCloses;
    if i == |a| {
      CleanSuffix(a, b, 0);
    } else {
      AfterPrefix(a, b, i);
      SettledSplits(a, b, After(a, i));
      assert (a + b)[i] == a[i];
      Assoc(Shown(a[i]), CleanFrom(a, After(a, i)), Clean(b));
    }
  }

  lemma {:induction false} CsiClosesSuffix(a: Bytes, b: Bytes, i: nat)
    requires i <= |b|
    ensures CsiCloses(a + b, |a| + i) == CsiCloses(b, i) && StringCloses(a + b, |a| + i) == StringCloses(b, i)
    decreases |b| - i
  {
    if i < |b| {
      CsiClosesSuffix(a, b, i + 1);
    }
  }

  lemma {:induction false} ClosesInPrefix(a: Bytes, b: Bytes, i: nat)
    requires i <= |a|
    ensures CsiCloses(a, i) ==> CsiCloses(a + b, i)
    ensures StringCloses(a, i) ==> StringCloses(a + b, i)
    decreases |a| - i
  {
    if i < |a| {
      ClosesInPrefix(a, b, i + 1);
    }
  }

  lemma {:induction false} SettledSuffix(a: Bytes, b: Bytes, i: nat)
    requires i <= |b| && Settled(b, i)
    ensures Settled(a + b, |a| + i)
    decreases |b| - i
  {
    if i < |b| {
      assert (a + b)[|a| + i] == b[i];
      if b[i] == ESC {
        assert (a + b)[|a| + i + 1] == b[i + 1];
        CsiClosesSuffix(a, b, i + 2);
      }
      AfterSuffix(a, b, i);
      SettledSuffix(a, b, After(b, i));
    }
  }

  lemma ClosesStill(a: Bytes, b: Bytes, i: nat)
    requires i < |a| && EscapeCloses(a, i)
    ensures EscapeCloses(a + b, i)
  {
    assert (a + b)[i + 1] == a[i + 1];
    ClosesInPrefix(a, b, i + 2);
  }

  /** Settled texts one after the other are settled. */
  lemma {:induction false} SettledConcat(a: Bytes, b: Bytes, i: nat)
    requires i <= |a| && Settled(a, i) && Settled(b, 0)
    ensures Settled(a + b, i)
    decreases |a| - i
  {
    hide After, EscapeCloses;
    if i == |a| {
      SettledSuffix(a, b, 0);
    } else {
      assert (a + b)[i] == a[i];
      if a[i] == ESC {
        ClosesStill(a, b, i);
      }
      AfterPrefix(a, b, i);
      SettledConcat(a, b, After(a, i));
    }
  }

  /** Text that an open sequence swallows although it is shown on its own. */
  function Probe(): Bytes {
    [LEFT_BRACKET, 0x41]
  }

  lemma ProbeIsShown()
    ensures Clean(Probe()) == Probe()
  {
    FixedPoints(Probe());
  }

  /** A lone ESC shows nothing, and together with the probe it is one control sequence. */
  lemma EscapeAlone()
    ensures Clean([ESC]) == [] && Clean([ESC] + Probe()) == []
  {
    CleanSkips([ESC], 0);
    CleanEnd([ESC]);
    var e := [ESC] + Probe();
    assert e == [ESC, LEFT_BRACKET, 0x41];
    CsiRunsToFinal(e, 2);
    CleanSkips(e, 0);
    CleanEnd(e);
  }

  lemma OpenEscapeRunsOver(a: Bytes, i: nat)
    requires i < |a| && a[i] == ESC && !EscapeCloses(a, i)
    ensures After(a + Probe(), i) > |a|
  {
    var p := Probe();
    assert (a + p)[|a|] == LEFT_BRACKET && (a + p)[|a| + 1] == 0x41;
    if i + 1 < |a| {
      assert (a + p)[i + 1] == a[i + 1];
      if a[i + 1] == LEFT_BRACKET {
        CsiEndShift(a, p, i + 2);
      } else {
        StringEndOpen(a, p, i + 2);
      }
    }
  }

  /** An open sequence at the end of a swallows part of the probe. */
  lemma {:induction false} UnsettledSwallows(a: Bytes, i: nat)
    requires i <= |a| && !Settled(a, i)
    ensures |CleanFrom(a + Probe(), i)| < |CleanFrom(a, i)| + |Probe()|
    decreases |a| - i
  {
    hide After, EscapeCloses;
    assert (a + Probe())[i] == a[i];
    if a[i] == ESC && !EscapeCloses(a, i) {
      OpenEscapeRunsOver(a, i);
      CleanNeverLonger(a + Probe(), After(a + Probe(), i));
    } else {
      AfterPrefix(a, Probe(), i);
      UnsettledSwallows(a, After(a, i));
    }
  }

  /** Sanitizing piecewise after a is the same as sanitizing the whole exactly when a is settled. */
  lemma SplitsExactlyWhenSettled(a: Bytes)
    ensures Settled(a, 0) <==> forall b :: Clean(a + b) == Clean(a) + Clean(b)
  {
    if Settled(a, 0) {
      forall b ensures Clean(a + b) == Clean(a) + Clean(b) {
        SettledSplits(a, b, 0);
      }
    } else {
      UnsettledSwallows(a, 0);
      ProbeIsShown();
      assert Clean(a + Probe()) != Clean(a) + Clean(Probe());
    }
  }

  /** ESC [ body final, where no byte of the body is itself a final byte. */
  ghost predicate ControlSequence(e: Bytes) {
    && |e| >= 3 && e[0] == ESC && e[1] == LEFT_BRACKET && IsFinal(e[|e| - 1])
    && forall k :: 2 <= k < |e| - 1 ==> !IsFinal(e[k])
  }

  /** Parameter bytes 0x30-0x3F, then intermediate bytes 0x20-0x2F, then a final byte. */
  ghost predicate WellFormedCsi(e: Bytes, params: Bytes, intermediates: Bytes, final: byte) {
    && e == [ESC, LEFT_BRACKET] + params + intermediates + [final]
    && (forall k :: 0 <= k < |params| ==> 0x30 <= params[k] <= 0x3F)
    && (forall k :: 0 <= k < |intermediates| ==> 0x20 <= intermediates[k] <= 0x2F)
    && IsFinal(final)
  }

  lemma WellFormedIsControlSequence(e: Bytes, params: Bytes, intermediates: Bytes, final: byte)
    requires WellFormedCsi(e, params, intermediates, final)
    ensures ControlSequence(e)
  {
    var body := params + intermediates;
    assert e == [ESC, LEFT_BRACKET] + body + [final];
    assert forall k :: 2 <= k < |e| - 1 ==> e[k] == body[k - 2];
  }

  lemma {:induction false} CsiRunsToFinal(e: Bytes, i: nat)
    requires ControlSequence(e) && 2 <= i < |e|
    ensures CsiCloses(e, i) && CsiEnd(e, i) == |e|
    decreases |e| - i
  {
    if i < |e| - 1 {
      CsiRunsToFinal(e, i + 1);
    }
  }

  lemma {:induction false} EscFreeSettles(a: Bytes, i: nat)
    requires i <= |a| && ESC !in a
    ensures Settled(a, i)
    decreases |a| - i
  {
    if i < |a| {
      EscFreeSettles(a, i + 1);
    }
  }

  /** A control sequence vanishes from the middle of any text that does not open another one. */
  lemma ControlSequenceVanishes(a: Bytes, e: Bytes, b: Bytes)
    requires Settled(a, 0) && ControlSequence(e)
    ensures Clean(a + e + b) == Clean(a) + Clean(b)
  {
    CsiRunsToFinal(e, 2);
    assert Settled(e, |e|) && EscapeEnd(e, 0) == |e|;
    SettledSplits(e, b, 0);
    assert Clean(e) == [] && [] + Clean(b) == Clean(b);
    SettledSplits(a, e + b, 0);
    assert a + e + b == a + (e + b);
  }

  lemma WellFormedCsiVanishes(a: Bytes, e: Bytes, params: Bytes, intermediates: Bytes, final: byte, b: Bytes)
    requires ESC !in a && WellFormedCsi(e, params, intermediates, final)
    ensures Clean(a + e + b) == Clean(a) + Clean(b)
  {
    EscFreeSettles(a, 0);
    WellFormedIsControlSequence(e, params, intermediates, final);
    ControlSequenceVanishes(a, e, b);
  }
}
