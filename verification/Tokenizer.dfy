/** Runs of separators and of other bytes, by position. */
module Tokenizer {
  import opened ByteText

  /** First position at or after i that is not a separator. */
  function SkipSeparators(s: Bytes, seps: set<byte>, i: nat): (r: nat)
    requires i <= |s|
    ensures i <= r <= |s|
    ensures (forall k :: i <= k < r ==> s[k] in seps) && (r < |s| ==> s[r] !in seps)
    decreases |s| - i
  {
    if i < |s| && s[i] in seps then SkipSeparators(s, seps, i + 1) else i
  }

  /** First position at or after i that is a separator. */
  function TokenEnd(s: Bytes, seps: set<byte>, i: nat): (r: nat)
    requires i <= |s|
    ensures i <= r <= |s|
    ensures (forall k :: i <= k < r ==> s[k] !in seps) && (r < |s| ==> s[r] in seps)
    decreases |s| - i
  {
    if i < |s| && s[i] !in seps then TokenEnd(s, seps, i + 1) else i
  }
}
