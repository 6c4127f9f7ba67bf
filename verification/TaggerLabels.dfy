/** Word labels for the deletion tagger (derive_example in
    benchmark/cleanup/train_multilingual_tagger.py): match the fluent words from right
    to left. normalized is the comparison form of a word, empty for pure punctuation. */
module TaggerLabels {
  import opened Domain

  datatype Label = Keep | Delete

  function NonEmpty(keys: seq<string>): (r: seq<string>)
    ensures forall i :: 0 <= i < |r| ==> r[i] != ""
  {
    if keys == [] then []
    else NonEmpty(keys[..|keys| - 1]) + (if keys[|keys| - 1] == "" then [] else [keys[|keys| - 1]])
  }

  function Present(keys: seq<string>): (mask: seq<bool>)
    ensures |mask| == |keys| && forall i :: 0 <= i < |keys| ==> mask[i] == (keys[i] != "")
  {
    seq(|keys|, i requires 0 <= i < |keys| => keys[i] != "")
  }

  predicate Picks(keys: seq<string>, at: seq<int>, target: seq<string>) {
    |target| == |at| && forall i :: 0 <= i < |at| ==> 0 <= at[i] < |keys| && target[i] == keys[at[i]]
  }

  /** target consists of the keys that are not empty, each once and in order. */
  ghost predicate IsTarget(keys: seq<string>, target: seq<string>) {
    exists at :: Positions(Present(keys), at) && Picks(keys, at, target)
  }

  lemma PicksOneMore(keys: seq<string>, n: nat, at: seq<int>, target: seq<string>)
    requires n < |keys| && Picks(keys[..n], at, target)
    ensures Picks(keys, at, target) && Picks(keys, at + [n], target + [keys[n]])
  {
  }

  lemma {:induction false} NonEmptyAt(keys: seq<string>) returns (at: seq<int>)
    ensures Positions(Present(keys), at) && Picks(keys, at, NonEmpty(keys))
    decreases |keys|
  {
    if keys == [] {
      at := [];
    } else {
      var n := |keys| - 1;
      hide Positions, Picks, Present;
      at := NonEmptyAt(keys[..n]);
      assert Present(keys) == Present(keys[..n]) + [keys[n] != ""];
      PositionsOneMore(Present(keys[..n]), keys[n] != "", at);
      PicksOneMore(keys, n, at, NonEmpty(keys[..n]));
      if keys[n] != "" {
        at := at + [n];
      } else {
        assert NonEmpty(keys[..n]) + [] == NonEmpty(keys[..n]);
      }
    }
  }

  /** There is one such list, and only one. */
  lemma TargetIsNonEmpty(keys: seq<string>, target: seq<string>)
    ensures IsTarget(keys, target) <==> target == NonEmpty(keys)
  {
    var at := NonEmptyAt(keys);
    hide NonEmpty;
    if IsTarget(keys, target) {
      var other :| Positions(Present(keys), other) && Picks(keys, other, target);
      PositionsUnique(Present(keys), at, other);
    }
  }

  /** at lists increasing positions of source that spell target. */
  predicate Embeds(source: seq<string>, target: seq<string>, at: seq<int>) {
    && |at| == |target|
    && (forall i :: 0 <= i < |at| ==> 0 <= at[i] < |source| && source[at[i]] == target[i])
    && (forall i, j :: 0 <= i < j < |at| ==> at[i] < at[j])
  }

  ghost predicate Subsequence(target: seq<string>, source: seq<string>) {
    exists at :: Embeds(source, target, at)
  }

  /** Pointwise at or to the right of every other embedding. */
  ghost predicate Rightmost(source: seq<string>, target: seq<string>, at: seq<int>) {
    && Embeds(source, target, at)
    && forall other :: Embeds(source, target, other) ==> forall i :: 0 <= i < |at| ==> other[i] <= at[i]
  }

  /** The positions from onwards that are labelled KEEP. */
  function Kept(labels: seq<Label>, from: nat): seq<int>
    requires from <= |labels|
    decreases |labels| - from
  {
    if from == |labels| then []
    else (if labels[from] == Keep then [from] else []) + Kept(labels, from + 1)
  }

  lemma {:induction false} KeptIsLocal(a: seq<Label>, b: seq<Label>, from: nat)
    requires from <= |a| == |b| && a[from..] == b[from..]
    ensures Kept(a, from) == Kept(b, from)
    decreases |a| - from
  {
    if from < |a| {
      assert a[from] == a[from..][0] && b[from] == b[from..][0];
      assert a[from + 1..] == a[from..][1..] && b[from + 1..] == b[from..][1..];
      KeptIsLocal(a, b, from + 1);
    }
  }

  /** Loop state: target[t..] is matched, rightmost, at positions at, all >= s. */
  ghost predicate Matched(source: seq<string>, target: seq<string>, s: int, t: int, at: seq<int>) {
    && 0 <= s <= |source| && 0 <= t <= |target| && |at| == |target| - t
    && Embeds(source, target[t..], at) && (forall i :: 0 <= i < |at| ==> s <= at[i])
    && (forall other :: Embeds(source, target, other) ==>
          && (forall i :: 0 <= i < |at| ==> other[t + i] <= at[i])
          && (t > 0 ==> other[t - 1] < s))
  }

  lemma MatchStep(source: seq<string>, target: seq<string>, s: int, t: int, at: seq<int>)
    requires Matched(source, target, s + 1, t, at) && s >= 0 && t > 0 && source[s] == target[t - 1]
    ensures Matched(source, target, s, t - 1, [s] + at)
  {
    assert target[t - 1..] == [target[t - 1]] + target[t..];
    forall other | Embeds(source, target, other)
      ensures forall i :: 0 <= i < |at| + 1 ==> other[t - 1 + i] <= ([s] + at)[i]
      ensures t - 1 > 0 ==> other[t - 2] < s
    {
      assert forall i :: 0 <= i < |at| ==> other[t + i] <= at[i];
    }
  }

  lemma SkipStep(source: seq<string>, target: seq<string>, s: int, t: int, at: seq<int>)
    requires Matched(source, target, s + 1, t, at) && s >= 0 && (t == 0 || source[s] != target[t - 1])
    ensures Matched(source, target, s, t, at)
  {
  }

  lemma MatchStart(source: seq<string>, target: seq<string>)
    ensures Matched(source, target, |source|, |target|, [])
  {
    assert target[|target|..] == [];
  }

  /** Once the source is used up the match is the rightmost embedding, or there is none. */
  lemma MatchEnd(source: seq<string>, target: seq<string>, t: int, at: seq<int>)
    requires Matched(source, target, 0, t, at)
    ensures t > 0 ==> !Subsequence(target, source)
    ensures t == 0 ==> Subsequence(target, source) && Rightmost(source, target, at)
  {
    assert target[0..] == target;
  }

  lemma KeptOneMore(labels: seq<Label>, s: nat)
    requires s < |labels|
    ensures Kept(labels[s := Keep], s) == [s] + Kept(labels, s + 1)
    ensures labels[s] == Delete ==> Kept(labels, s) == Kept(labels, s + 1)
  {
    KeptIsLocal(labels, labels[s := Keep], s + 1);
  }

  function Marked(labels: seq<Label>): (mask: seq<bool>)
    ensures |mask| == |labels| && forall i :: 0 <= i < |labels| ==> mask[i] == (labels[i] == Keep)
  {
    seq(|labels|, i requires 0 <= i < |labels| => labels[i] == Keep)
  }

  predicate Rising(at: seq<int>) {
    forall i, j :: 0 <= i < j < |at| ==> at[i] < at[j]
  }

  lemma RisingFirst(x: int, rest: seq<int>)
    requires Rising(rest) && forall p :: p in rest ==> x < p
    ensures Rising([x] + rest)
    ensures forall p :: p in [x] + rest <==> p == x || p in rest
  {
    assert forall i :: 0 <= i < |rest| ==> rest[i] in rest;
  }

  lemma KeptFirst(labels: seq<Label>, from: nat)
    requires from <= |labels|
    ensures from == |labels| ==> Kept(labels, from) == []
    ensures from < |labels| ==>
              Kept(labels, from)
                == if labels[from] == Keep then [from] + Kept(labels, from + 1) else Kept(labels, from + 1)
  {
  }

  lemma {:induction false} KeptIsMarked(labels: seq<Label>, from: nat)
    requires from <= |labels|
    ensures Rising(Kept(labels, from))
    ensures forall p :: p in Kept(labels, from) <==> from <= p < |labels| && labels[p] == Keep
    decreases |labels| - from
  {
    hide Kept;
    KeptFirst(labels, from);
    if from < |labels| {
      hide Rising;
      KeptIsMarked(labels, from + 1);
      if labels[from] == Keep { RisingFirst(from, Kept(labels, from + 1)); }
    }
  }

  lemma KeptPositions(labels: seq<Label>)
    ensures Positions(Marked(labels), Kept(labels, 0))
  {
    KeptIsMarked(labels, 0);
    hide Kept;
    assert forall i :: 0 <= i < |Kept(labels, 0)| ==> Kept(labels, 0)[i] in Kept(labels, 0);
  }

  /** The positions labelled KEEP are the rightmost embedding of target. */
  ghost predicate KeepsRightmost(source: seq<string>, target: seq<string>, labels: seq<Label>) {
    && |labels| == |source|
    && exists at :: Positions(Marked(labels), at) && Rightmost(source, target, at)
  }

  /** The target is the list of non-empty fluent keys: there is exactly one such list. */
  method DeriveExample(words: seq<string>, fluentWords: seq<string>, normalized: string -> string)
    returns (r: Option<seq<Label>>)
    ensures words == [] ==> r.None?
    ensures exists target :: IsTarget(Keys(normalized, fluentWords), target)
    ensures forall target :: words != [] && IsTarget(Keys(normalized, fluentWords), target) ==>
              (r.None? <==> !Subsequence(target, Keys(normalized, words)))
    ensures forall target :: r.Some? && IsTarget(Keys(normalized, fluentWords), target) ==>
              KeepsRightmost(Keys(normalized, words), target, r.value)
  {
    ghost var fluent := Keys(normalized, fluentWords);
    forall target ensures IsTarget(fluent, target) <==> target == NonEmpty(fluent) {
      TargetIsNonEmpty(fluent, target);
    }
    if words == [] {
      assert IsTarget(fluent, NonEmpty(fluent));
      return None;
    }
    hide IsTarget, NonEmpty, Rightmost, Subsequence;
    assert IsTarget(fluent, NonEmpty(fluent));
    r := LabelKeys(Keys(normalized, words), NonEmpty(Keys(normalized, fluentWords)));
    if r.Some? { KeptPositions(r.value); }
  }

  /** Before position s: nothing labelled yet; from s on the KEEP labels match the
      target from t on. */
  ghost predicate ScanState(source: seq<string>, target: seq<string>, labels: seq<Label>, s: int, t: int) {
    && 0 <= s <= |source| == |labels| && 0 <= t <= |target|
    && (forall i :: 0 <= i < s ==> labels[i] == Delete)
    && Matched(source, target, s, t, Kept(labels, s))
  }

  lemma ScanKeeps(source: seq<string>, target: seq<string>, labels: seq<Label>, s: int, t: int)
    requires s >= 0 && ScanState(source, target, labels, s + 1, t)
    ensures t > 0 && source[s] == target[t - 1] ==> ScanState(source, target, labels[s := Keep], s, t - 1)
    ensures t == 0 || source[s] != target[t - 1] ==> ScanState(source, target, labels, s, t)
  {
    hide Matched, Kept;
    KeptOneMore(labels, s);
    if t > 0 && source[s] == target[t - 1] {
      MatchStep(source, target, s, t, Kept(labels, s + 1));
    } else {
      SkipStep(source, target, s, t, Kept(labels, s + 1));
    }
  }

  lemma ScanStarts(source: seq<string>, target: seq<string>, labels: seq<Label>)
    requires |labels| == |source| && forall i :: 0 <= i < |labels| ==> labels[i] == Delete
    ensures ScanState(source, target, labels, |source|, |target|)
  {
    MatchStart(source, target);
  }

  /** The backward scan over the keys. */
  method LabelKeys(sourceKeys: seq<string>, targetKeys: seq<string>) returns (r: Option<seq<Label>>)
    requires forall i :: 0 <= i < |targetKeys| ==> targetKeys[i] != ""
    ensures r.None? <==> !Subsequence(targetKeys, sourceKeys)
    ensures r.Some? ==> |r.value| == |sourceKeys| && Rightmost(sourceKeys, targetKeys, Kept(r.value, 0))
  {
    hide ScanState, Rightmost, Subsequence, Kept;
    var labels := seq(|sourceKeys|, _ => Delete);
    var targetIndex := |targetKeys| - 1;
    ScanStarts(sourceKeys, targetKeys, labels);
    var s := |sourceKeys|;
    while s > 0
      invariant 0 <= s <= |sourceKeys| == |labels| && -1 <= targetIndex < |targetKeys|
      invariant ScanState(sourceKeys, targetKeys, labels, s, targetIndex + 1)
    {
      s := s - 1;
      ScanKeeps(sourceKeys, targetKeys, labels, s, targetIndex + 1);
      var sourceKey := sourceKeys[s];
      if sourceKey != "" && targetIndex >= 0 && sourceKey == targetKeys[targetIndex] {
        labels := labels[s := Keep];
        targetIndex := targetIndex - 1;
      }
    }
    ScanEnds(sourceKeys, targetKeys, labels, targetIndex + 1);
    r := if targetIndex >= 0 then None else Some(labels);
  }

  lemma ScanEnds(source: seq<string>, target: seq<string>, labels: seq<Label>, t: int)
    requires ScanState(source, target, labels, 0, t)
    ensures t > 0 ==> !Subsequence(target, source)
    ensures t == 0 ==> |labels| == |source| && Subsequence(target, source) && Rightmost(source, target, Kept(labels, 0))
  {
    MatchEnd(source, target, t, Kept(labels, 0));
  }
}
