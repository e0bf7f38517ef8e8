/** What an eviction leaves in the database: the tag and the words of every message, in order. */
module StoredText {
  import opened ByteText
  import opened Tokenizer
  import opened ContextWindow
  import Laws = CompressionLaws
  import Pruner
  import Store = EvictionStore
  import Writer = ChunkWriter

  /** `[system]`, `[user]`, `[assistant]` or `[tool]`. */
  function Label(role: Role): (r: Bytes)
    ensures |r| >= 6 && r[0] == 0x5B && r[|r| - 1] == 0x5D
    ensures forall k :: 1 <= k < |r| - 1 ==> 0x61 <= r[k] <= 0x7A
  {
    match role
    case System => [0x5B, 0x73, 0x79, 0x73, 0x74, 0x65, 0x6D, 0x5D]
    case User => [0x5B, 0x75, 0x73, 0x65, 0x72, 0x5D]
    case Assistant => [0x5B, 0x61, 0x73, 0x73, 0x69, 0x73, 0x74, 0x61, 0x6E, 0x74, 0x5D]
    case Tool => [0x5B, 0x74, 0x6F, 0x6F, 0x6C, 0x5D]
  }

  // ---------------------------------------------------------------------------------------------
  // The transcript
  // ---------------------------------------------------------------------------------------------

  lemma TagIsLabel(role: Role)
    ensures Tag(role) == Label(role) + [0x20]
  {
  }

  /** Each message is one entry: its label, a space, its content and a newline. */
  lemma TranscriptOfOne(m: Message)
    ensures Transcript([m]) == Label(m.role) + [0x20] + m.content + [0x0A]
  {
    TagIsLabel(m.role);
    TranscriptLast([], m);
    assert [] + [m] == [m] && [] + Entry(m) == Entry(m);
  }

  function Entry(m: Message): Bytes {
    Tag(m.role) + m.content + [NEWLINE]
  }

  lemma TranscriptLast(ms: seq<Message>, last: Message)
    ensures Transcript([]) == []
    ensures Transcript(ms + [last]) == Transcript(ms) + Entry(last)
  {
    hide Tag;
    var all := ms + [last];
    assert all[..|all| - 1] == ms && all[|all| - 1] == last;
    assert Transcript(all) == Transcript(ms) + Tag(last.role) + last.content + [NEWLINE];
    EntryAssoc(Transcript(ms), Tag(last.role), last.content);
  }

  lemma EntryAssoc(text: Bytes, tag: Bytes, content: Bytes)
    ensures text + tag + content + [NEWLINE] == text + (tag + content + [NEWLINE])
  {
  }

  lemma {:induction false} TranscriptConcat(a: seq<Message>, b: seq<Message>)
    ensures Transcript(a + b) == Transcript(a) + Transcript(b)
    decreases |b|
  {
    hide Transcript, Entry;
    if b == [] {
      TranscriptLast([], Message(User, [], 0, 0.0));
      assert a + b == a && Transcript(a) + [] == Transcript(a);
    } else {
      var pre, last := b[..|b| - 1], b[|b| - 1];
      TranscriptConcat(a, pre);
      TranscriptLast(a + pre, last);
      TranscriptLast(pre, last);
      assert b == pre + [last] && a + b == a + pre + [last];
      Assoc(Transcript(a), Transcript(pre), Entry(last));
    }
  }

  /** Every evicted message stands in the text with its label and its whole content, in eviction order. */
  lemma TranscriptHolds(before: seq<Message>, m: Message, after: seq<Message>)
    ensures Transcript(before + [m] + after)
         == Transcript(before) + (Label(m.role) + [0x20] + m.content + [0x0A]) + Transcript(after)
  {
    hide Transcript;
    TranscriptConcat(before + [m], after);
    TranscriptConcat(before, [m]);
    TranscriptOfOne(m);
  }

  // ---------------------------------------------------------------------------------------------
  // Its words
  // ---------------------------------------------------------------------------------------------

  lemma {:induction false} TokensPrefix(a: Bytes, r: Bytes, i: nat)
    requires i <= |a| && r != [] && r[0] in Pruner.GAP
    ensures Pruner.Tokens(a + r, i) == Pruner.Tokens(a, i) + Pruner.Tokens(r, 0)
    decreases |a| - i
  {
    hide Pruner.Tokens, SkipSeparators, TokenEnd;
    PrefixScan(a, r, i);
    var p := SkipSeparators(a, Pruner.GAP, i);
    if p == |a| {
      Pruner.TokensNone(a, i);
      Pruner.TokensSuffix(a, r, 0);
      assert [] + Pruner.Tokens(r, 0) == Pruner.Tokens(r, 0);
    } else {
      PrefixScan(a, r, p);
      var e := TokenEnd(a, Pruner.GAP, p);
      TokensPrefix(a, r, e);
      Pruner.TokensStep(a, i, p, e);
      Pruner.TokensStep(a + r, i, p, e);
      assert (a + r)[p..e] == a[p..e];
      Assoc([a[p..e]], Pruner.Tokens(a, e), Pruner.Tokens(r, 0));
    }
  }

  /** Up to the end of a, scanning a + r stops where scanning a does. */
  lemma PrefixScan(a: Bytes, r: Bytes, i: nat)
    requires i <= |a| && r != [] && r[0] in Pruner.GAP
    ensures var p := SkipSeparators(a, Pruner.GAP, i);
      if p < |a| then SkipSeparators(a + r, Pruner.GAP, i) == p
      else Pruner.Tokens(a + r, i) == Pruner.Tokens(a + r, |a|)
    ensures TokenEnd(a + r, Pruner.GAP, i) == TokenEnd(a, Pruner.GAP, i)
  {
    PrefixSkip(a, r, i);
    PrefixEnd(a, r, i);
    Pruner.TokensSkip(a + r, i);
    Pruner.TokensSkip(a + r, |a|);
  }

  lemma {:induction false} PrefixSkip(a: Bytes, r: Bytes, i: nat)
    requires i <= |a|
    ensures var p := SkipSeparators(a, Pruner.GAP, i);
      SkipSeparators(a + r, Pruner.GAP, i) == if p < |a| then p else SkipSeparators(a + r, Pruner.GAP, |a|)
    decreases |a| - i
  {
    if i < |a| {
      PrefixSkip(a, r, i + 1);
      assert (a + r)[i] == a[i];
    }
  }

  lemma {:induction false} PrefixEnd(a: Bytes, r: Bytes, i: nat)
    requires i <= |a| && r != [] && r[0] in Pruner.GAP
    ensures TokenEnd(a + r, Pruner.GAP, i) == TokenEnd(a, Pruner.GAP, i)
    decreases |a| - i
  {
    if i < |a| {
      PrefixEnd(a, r, i + 1);
      assert (a + r)[i] == a[i];
    } else {
      assert (a + r)[i] == r[0];
    }
  }

  /** Words on the two sides of a gap byte are split as on their own. */
  lemma TokensAround(a: Bytes, c: byte, b: Bytes)
    requires c in Pruner.GAP
    ensures Pruner.Tokens(a + [c] + b, 0) == Pruner.Tokens(a, 0) + Pruner.Tokens(b, 0)
  {
    hide Pruner.Tokens;
    Assoc(a, [c], b);
    TokensPrefix(a, [c] + b, 0);
    Pruner.TokensAfterGapByte(c, b);
  }

  /** The words of a text that ends in a newline, or is empty, and of what follows it. */
  lemma TokensOfEntries(a: Bytes, b: Bytes)
    requires a != [] ==> a[|a| - 1] == 0x0A
    ensures Pruner.Tokens(a + b, 0) == Pruner.Tokens(a, 0) + Pruner.Tokens(b, 0)
  {
    hide Pruner.Tokens;
    Pruner.TokensNone([], 0);
    if a == [] {
      assert a + b == b && [] + Pruner.Tokens(b, 0) == Pruner.Tokens(b, 0);
    } else {
      var a' := a[..|a| - 1];
      assert a == a' + [0x0A] && a == a' + [0x0A] + [];
      TokensAround(a', 0x0A, b);
      TokensAround(a', 0x0A, []);
      assert Pruner.Tokens(a', 0) + [] == Pruner.Tokens(a', 0);
    }
  }

  lemma {:induction false} WordsConcat(a: seq<Bytes>, b: seq<Bytes>)
    ensures Pruner.Words(a + b) == Pruner.Words(a) + Pruner.Words(b)
  {
    hide Pruner.KeptWord, Pruner.CollapseRuns;
    if a == [] {
      assert a + b == b;
      assert [] + Pruner.Words(b) == Pruner.Words(b);
    } else {
      WordsConcat(a[1..], b);
      assert (a + b)[1..] == a[1..] + b;
      Assoc(Pruner.KeptWord(Pruner.CollapseRuns(a[0])), Pruner.Words(a[1..]), Pruner.Words(b));
    }
  }

  lemma {:induction false} NoPunctuation(s: Bytes)
    requires forall k :: 0 <= k < |s| ==> !Pruner.Collapses(s[k])
    ensures Pruner.CollapseRuns(s) == s
  {
    if s != [] {
      NoPunctuation(s[1..]);
      assert s == [s[0]] + s[1..];
    }
  }

  /** Compression keeps every label. */
  lemma LabelStays(role: Role)
    ensures Pruner.IsToken(Label(role)) && Pruner.Words([Label(role)]) == [Label(role)]
  {
    hide Label, Pruner.CollapseRuns, Pruner.DropLeft, Pruner.DropRight, Pruner.Fillers;
    var t := Label(role);
    NoPunctuation(t);
    assert Laws.LetterCore(t, 1, |t| - 1);
    Laws.CoreIsUnique(t, 1, |t| - 1);
    assert !Pruner.IsFiller(t);
    assert [t] + [] == [t];
    assert [t][1..] == [];
  }

  /** The words that a text keeps under compression. */
  function KeptWords(s: Bytes): seq<Bytes> {
    Pruner.Words(Pruner.Tokens(s, 0))
  }

  /** Splitting a compressed text at its spaces gives the kept words back. */
  lemma CompressedWords(s: Bytes)
    ensures Pruner.Tokens(Pruner.Compressed(s), 0) == KeptWords(s)
  {
    hide Pruner.Tokens, Pruner.Join, Pruner.CollapseRuns, Pruner.IsFiller;
    Pruner.TokensAreWords(s, 0);
    Pruner.WordsAreStable(Pruner.Tokens(s, 0));
    Pruner.TokensOfJoin(KeptWords(s));
  }

  lemma EntryWords(m: Message)
    ensures KeptWords(Transcript([m])) == [Label(m.role)] + KeptWords(m.content)
  {
    hide Transcript, Label, Pruner.Words, Pruner.Tokens;
    TranscriptOfOne(m);
    var head := Label(m.role);
    LabelStays(m.role);
    var entry := head + [0x20] + m.content;
    TokensAround(entry, 0x0A, []);
    assert entry + [0x0A] + [] == entry + [0x0A];
    Pruner.TokensNone([], 0);
    assert Pruner.Tokens(entry, 0) + [] == Pruner.Tokens(entry, 0);
    TokensAround(head, 0x20, m.content);
    Pruner.TokensOfOne(head);
    WordsConcat([head], Pruner.Tokens(m.content, 0));
  }

  lemma TranscriptEnds(ms: seq<Message>)
    ensures Transcript(ms) != [] ==> Transcript(ms)[|Transcript(ms)| - 1] == 0x0A
  {
  }

  lemma ChunkConcat(a: seq<Message>, b: seq<Message>)
    ensures KeptWords(Transcript(a + b)) == KeptWords(Transcript(a)) + KeptWords(Transcript(b))
  {
    hide Transcript, Pruner.Words, Pruner.Tokens;
    TranscriptConcat(a, b);
    TranscriptEnds(a);
    TokensOfEntries(Transcript(a), Transcript(b));
    WordsConcat(Pruner.Tokens(Transcript(a), 0), Pruner.Tokens(Transcript(b), 0));
  }

  /** The words of a stored chunk: for each evicted message in order its label and the kept words of its content. */
  lemma ChunkWords(before: seq<Message>, m: Message, after: seq<Message>)
    ensures Pruner.Tokens(Store.Chunk(before + [m] + after), 0)
         == Pruner.Tokens(Store.Chunk(before), 0) + ([Label(m.role)] + KeptWords(m.content))
            + Pruner.Tokens(Store.Chunk(after), 0)
  {
    hide Transcript, KeptWords, Pruner.Compressed, Pruner.Tokens, Label;
    CompressedWords(Transcript(before + [m] + after));
    CompressedWords(Transcript(before));
    CompressedWords(Transcript(after));
    ChunkConcat(before + [m], after);
    ChunkConcat(before, [m]);
    EntryWords(m);
  }

  // ---------------------------------------------------------------------------------------------
  // In the database
  // ---------------------------------------------------------------------------------------------

  /**
   When a flush reports success, the k-th stored chunk is the compressed text in which each message of the
   k-th eviction stands with its label and content, in order.
   */
  lemma FlushStoresText(c: Store.Settings, s: Store.State, k: nat,
                        before: seq<Message>, m: Message, after: seq<Message>)
    requires Store.Inv(c, s) && Writer.FlushCanSucceed(s.writer)
    requires k < |Store.Evictions(c, s.ops)| && Store.Evictions(c, s.ops)[k] == before + [m] + after
    ensures |s.writer.finished| == |Store.Evictions(c, s.ops)|
    ensures s.writer.finished[k] == Pruner.Compressed(
      Transcript(before) + (Label(m.role) + [0x20] + m.content + [0x0A]) + Transcript(after))
    ensures Pruner.Tokens(s.writer.finished[k], 0)
         == Pruner.Tokens(Store.Chunk(before), 0) + ([Label(m.role)] + KeptWords(m.content))
            + Pruner.Tokens(Store.Chunk(after), 0)
  {
    hide Transcript, KeptWords, Pruner.Compressed, Pruner.Tokens, Label, Store.Evictions;
    Store.FlushStoresEvictions(c, s);
    TranscriptHolds(before, m, after);
    ChunkWords(before, m, after);
  }
}
