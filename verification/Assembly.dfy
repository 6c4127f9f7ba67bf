/** Ordering transcripts and removing the words that audio overlap repeated
    (speaktap/assembly/overlap.py). norm is the comparison form of a word. */
module Assembly {
  import opened Domain

  const LIMIT := 16

  /** The last size words of existing repeat as the first size words of incoming. */
  predicate Repeats(norm: string -> string, existing: seq<string>, incoming: seq<string>, size: nat) {
    && size <= |existing| && size <= |incoming|
    && Keys(norm, existing)[|existing| - size..] == Keys(norm, incoming)[..size]
  }

  function LongestRepeat(norm: string -> string, existing: seq<string>, incoming: seq<string>, upper: nat): (size: nat)
    ensures size <= upper
    ensures Repeats(norm, existing, incoming, size)
    ensures forall z :: size < z <= upper ==> !Repeats(norm, existing, incoming, z)
  {
    if upper == 0 || Repeats(norm, existing, incoming, upper) then upper
    else LongestRepeat(norm, existing, incoming, upper - 1)
  }

  /** The largest number of words, at most LIMIT, that incoming repeats. */
  function Overlap(norm: string -> string, existing: seq<string>, incoming: seq<string>): (size: nat)
    ensures size <= LIMIT
    ensures Repeats(norm, existing, incoming, size)
    ensures forall z :: size < z <= LIMIT ==> !Repeats(norm, existing, incoming, z)
  {
    LongestRepeat(norm, existing, incoming, LIMIT)
  }

  method WordOverlap(existing: seq<string>, incoming: seq<string>, norm: string -> string) returns (size: nat)
    ensures size <= LIMIT && Repeats(norm, existing, incoming, size)
    ensures forall z :: size < z <= LIMIT ==> !Repeats(norm, existing, incoming, z)
    ensures size == Overlap(norm, existing, incoming)
  {
    size := Min(Min(|existing|, |incoming|), LIMIT);
    var normalizedExisting := Keys(norm, existing);
    var normalizedIncoming := Keys(norm, incoming);
    while size > 0
      invariant 0 <= size <= LIMIT && size <= |existing| && size <= |incoming|
      invariant forall z :: size < z <= LIMIT ==> !Repeats(norm, existing, incoming, z)
    {
      if normalizedExisting[|existing| - size..] == normalizedIncoming[..size] {
        assert Repeats(norm, existing, incoming, size);
        return;
      }
      size := size - 1;
    }
  }

  /** The assembled words after one more chunk. */
  function Join(norm: string -> string, existing: seq<string>, incoming: seq<string>): seq<string> {
    existing + incoming[Overlap(norm, existing, incoming)..]
  }

  function JoinAll(norm: string -> string, texts: seq<seq<string>>): seq<string> {
    if texts == [] then [] else Join(norm, JoinAll(norm, texts[..|texts| - 1]), texts[|texts| - 1])
  }

  // ---------------------------------------------------------------- ordering

  /** Stable insertion by sequence number. */
  function Insert(x: TranscriptChunk, xs: seq<TranscriptChunk>): seq<TranscriptChunk> {
    if xs == [] || xs[|xs| - 1].sequence <= x.sequence then xs + [x]
    else Insert(x, xs[..|xs| - 1]) + [xs[|xs| - 1]]
  }

  /** sorted(chunks, key=sequence). */
  function BySequence(xs: seq<TranscriptChunk>): seq<TranscriptChunk> {
    if xs == [] then [] else Insert(xs[|xs| - 1], BySequence(xs[..|xs| - 1]))
  }

  function Texts(xs: seq<TranscriptChunk>): (texts: seq<seq<string>>)
    ensures |texts| == |xs|
    ensures forall i :: 0 <= i < |xs| ==> texts[i] == xs[i].words
  {
    seq(|xs|, i requires 0 <= i < |xs| => xs[i].words)
  }

  function Assemble(norm: string -> string, chunks: seq<TranscriptChunk>): seq<string> {
    JoinAll(norm, Texts(BySequence(chunks)))
  }

  /** The assembled words after k chunks. */
  function Prefix(norm: string -> string, texts: seq<seq<string>>, k: nat): seq<string>
    requires k <= |texts|
  {
    JoinAll(norm, texts[..k])
  }

  lemma JoinAllOneMore(norm: string -> string, texts: seq<seq<string>>, i: nat)
    requires i < |texts|
    ensures Prefix(norm, texts, i + 1) == Join(norm, Prefix(norm, texts, i), texts[i])
    ensures texts[i] == [] ==> Prefix(norm, texts, i + 1) == Prefix(norm, texts, i)
  {
    assert texts[..i + 1][..i] == texts[..i];
  }

  lemma JoinAllEnds(norm: string -> string, texts: seq<seq<string>>)
    ensures Prefix(norm, texts, 0) == [] && Prefix(norm, texts, |texts|) == JoinAll(norm, texts)
  {
    assert texts[..|texts|] == texts;
  }

  method AssembleTranscript(chunks: seq<TranscriptChunk>, norm: string -> string) returns (assembled: seq<string>)
    ensures assembled == Assemble(norm, chunks)
  {
    hide JoinAll, Prefix, BySequence, Repeats, Overlap;
    assembled := [];
    var ordered := BySequence(chunks);
    ghost var texts := Texts(ordered);
    JoinAllEnds(norm, texts);
    for i := 0 to |ordered|
      invariant assembled == Prefix(norm, texts, i)
    {
      var incoming := ordered[i].words;
      JoinAllOneMore(norm, texts, i);
      if incoming == [] {
        continue;
      }
      var overlap := WordOverlap(assembled, incoming, norm);
      assembled := assembled + incoming[overlap..];
    }
  }

  // ---------------------------------------------------------------- laws

  lemma {:induction false} Grows(norm: string -> string, texts: seq<seq<string>>, k: nat, n: nat)
    requires k <= n <= |texts|
    ensures Prefix(norm, texts, k) <= Prefix(norm, texts, n)
  {
    if k < n {
      assert texts[..n][..n - 1] == texts[..n - 1];
      Grows(norm, texts, k, n - 1);
    }
  }

  /** Each chunk's keys occur as a contiguous block of the result. The block starts
      where the words so far end, less the longest repeat of at most LIMIT words; so
      the blocks leave no gap, their ends never move back, and the last one ends the
      result. */
  lemma BlocksCover(norm: string -> string, texts: seq<seq<string>>, k: nat)
    requires k < |texts|
    ensures var result := Keys(norm, JoinAll(norm, texts));
            var before, end := Prefix(norm, texts, k), |Prefix(norm, texts, k + 1)|;
            var start := |before| - Overlap(norm, before, texts[k]);
            && 0 <= start <= |before| <= end <= |result|
            && result[start..end] == Keys(norm, texts[k])
            && (k == 0 ==> start == 0)
            && (k == |texts| - 1 ==> end == |result|)
  {
    Grows(norm, texts, k + 1, |texts|);
    assert texts[..|texts|] == texts;
    assert texts[..k + 1][..k] == texts[..k];
    JoinEndsWith(norm, Prefix(norm, texts, k), texts[k]);
    var after := Prefix(norm, texts, k + 1);
    assert Keys(norm, JoinAll(norm, texts))[..|after|] == Keys(norm, after);
  }

  /** Joining appends exactly what is not a repeat, so the incoming text is how the
      joined words end. */
  lemma JoinEndsWith(norm: string -> string, before: seq<string>, text: seq<string>)
    ensures var keys := Keys(norm, Join(norm, before, text));
            var start := |before| - Overlap(norm, before, text);
            && 0 <= start && |keys| == start + |text|
            && keys[start..] == Keys(norm, text)
  {
    var removed := Overlap(norm, before, text);
    var start := |before| - removed;
    var keys := Keys(norm, Join(norm, before, text));
    forall i | 0 <= i < |text| ensures keys[start + i] == norm(text[i]) {
      if i < removed {
        assert Keys(norm, before)[start..][i] == Keys(norm, text)[..removed][i];
      }
    }
  }

  predicate Ascending(xs: seq<TranscriptChunk>) {
    forall i, j :: 0 <= i < j < |xs| ==> xs[i].sequence <= xs[j].sequence
  }

  predicate DistinctSequences(xs: seq<TranscriptChunk>) {
    forall i, j :: 0 <= i < j < |xs| ==> xs[i].sequence != xs[j].sequence
  }

  lemma {:induction false} InsertKeeps(x: TranscriptChunk, xs: seq<TranscriptChunk>)
    ensures multiset(Insert(x, xs)) == multiset(xs) + multiset{x}
  {
    if xs != [] && xs[|xs| - 1].sequence > x.sequence {
      InsertKeeps(x, xs[..|xs| - 1]);
      assert xs == xs[..|xs| - 1] + [xs[|xs| - 1]];
    }
  }

  /** Sorting keeps every chunk as often as it occurs. */
  lemma {:induction false} SortKeeps(xs: seq<TranscriptChunk>)
    ensures multiset(BySequence(xs)) == multiset(xs)
  {
    if xs != [] {
      SortKeeps(xs[..|xs| - 1]);
      InsertKeeps(xs[|xs| - 1], BySequence(xs[..|xs| - 1]));
      assert xs == xs[..|xs| - 1] + [xs[|xs| - 1]];
    }
  }

  lemma {:induction false} InsertAscending(x: TranscriptChunk, xs: seq<TranscriptChunk>)
    requires Ascending(xs)
    ensures Ascending(Insert(x, xs))
  {
    if xs != [] && xs[|xs| - 1].sequence > x.sequence {
      var p, last := xs[..|xs| - 1], xs[|xs| - 1];
      InsertAscending(x, p);
      InsertKeeps(x, p);
      forall y | y in Insert(x, p) ensures y.sequence <= last.sequence {
        assert y in multiset(Insert(x, p));
        assert y == x || y in p;
      }
      hide Insert;
      AppendAscending(Insert(x, p), last);
    }
  }

  lemma AppendAscending(xs: seq<TranscriptChunk>, x: TranscriptChunk)
    requires Ascending(xs) && forall y :: y in xs ==> y.sequence <= x.sequence
    ensures Ascending(xs + [x])
  {
    assert forall i :: 0 <= i < |xs| ==> xs[i] in xs;
  }

  lemma {:induction false} SortedAscending(xs: seq<TranscriptChunk>)
    ensures Ascending(BySequence(xs))
  {
    if xs != [] {
      SortedAscending(xs[..|xs| - 1]);
      InsertAscending(xs[|xs| - 1], BySequence(xs[..|xs| - 1]));
    }
  }

  lemma InsertLast(x: TranscriptChunk, xs: seq<TranscriptChunk>)
    requires xs == [] || xs[|xs| - 1].sequence <= x.sequence
    ensures Insert(x, xs) == xs + [x]
  {
  }

  /** Sorting a list that is in order already changes nothing. */
  lemma {:induction false} SortedIsFixed(xs: seq<TranscriptChunk>)
    requires Ascending(xs)
    ensures BySequence(xs) == xs
  {
    if xs != [] {
      var p := xs[..|xs| - 1];
      SortedIsFixed(p);
      InsertLast(xs[|xs| - 1], p);
      hide Insert;
      assert xs == p + [xs[|xs| - 1]];
    }
  }

  ghost predicate SequenceIdentifies(m: multiset<TranscriptChunk>) {
    forall x, y :: x in m && y in m && x.sequence == y.sequence ==> x == y
  }

  lemma LastAgrees(xs: seq<TranscriptChunk>, ys: seq<TranscriptChunk>)
    requires Ascending(xs) && Ascending(ys) && multiset(xs) == multiset(ys) && xs != [] && ys != []
    requires SequenceIdentifies(multiset(xs))
    ensures xs[|xs| - 1] == ys[|ys| - 1]
  {
    var x, y := xs[|xs| - 1], ys[|ys| - 1];
    assert x in multiset(ys) && y in multiset(xs);
    assert x in ys && y in xs;
  }

  lemma WithoutLast(xs: seq<TranscriptChunk>)
    requires xs != [] && Ascending(xs) && SequenceIdentifies(multiset(xs))
    ensures var p := xs[..|xs| - 1];
            && Ascending(p) && SequenceIdentifies(multiset(p))
            && multiset(xs) == multiset(p) + multiset{xs[|xs| - 1]}
  {
    assert xs == xs[..|xs| - 1] + [xs[|xs| - 1]];
  }

  lemma Cancel<T>(a: multiset<T>, b: multiset<T>, x: T)
    requires a + multiset{x} == b + multiset{x}
    ensures a == b
  {
    assert a == (a + multiset{x}) - multiset{x};
    assert b == (b + multiset{x}) - multiset{x};
  }

  ghost predicate SameSorted(xs: seq<TranscriptChunk>, ys: seq<TranscriptChunk>) {
    Ascending(xs) && Ascending(ys) && multiset(xs) == multiset(ys) && SequenceIdentifies(multiset(xs))
  }

  lemma PeelLast(xs: seq<TranscriptChunk>, ys: seq<TranscriptChunk>)
    requires SameSorted(xs, ys) && xs != [] && ys != []
    ensures SameSorted(xs[..|xs| - 1], ys[..|ys| - 1]) && xs[|xs| - 1] == ys[|ys| - 1]
  {
    LastAgrees(xs, ys);
    WithoutLast(xs);
    WithoutLast(ys);
    Cancel(multiset(xs[..|xs| - 1]), multiset(ys[..|ys| - 1]), xs[|xs| - 1]);
  }

  lemma {:induction false} AscendingIsUnique(xs: seq<TranscriptChunk>, ys: seq<TranscriptChunk>)
    requires SameSorted(xs, ys) && |xs| == |ys|
    ensures xs == ys
    decreases |xs|
  {
    hide SameSorted;
    if xs != [] {
      var p, q := xs[..|xs| - 1], ys[..|ys| - 1];
      PeelLast(xs, ys);
      AscendingIsUnique(p, q);
      assert xs == p + [xs[|xs| - 1]] && ys == q + [ys[|ys| - 1]];
    }
  }

  /** With distinct sequence numbers the result does not depend on the input order. */
  lemma OrderDoesNotMatter(norm: string -> string, xs: seq<TranscriptChunk>, ys: seq<TranscriptChunk>)
    requires multiset(xs) == multiset(ys) && DistinctSequences(xs)
    ensures Assemble(norm, xs) == Assemble(norm, ys)
  {
    SortedAscending(xs);
    SortedAscending(ys);
    SortKeeps(xs);
    SortKeeps(ys);
    assert SequenceIdentifies(multiset(xs)) by {
      forall x, y | x in multiset(xs) && y in multiset(xs) && x.sequence == y.sequence ensures x == y {
        assert x in xs && y in xs;
      }
    }
    assert |multiset(xs)| == |BySequence(xs)| && |multiset(ys)| == |BySequence(ys)|;
    AscendingIsUnique(BySequence(xs), BySequence(ys));
  }
}
