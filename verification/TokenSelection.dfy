/** Validating a learned edit (apply_token_selection in benchmark/cleanup/run_candidate.py):
    the edit keeps some tokens of the text, and is accepted only if it removes fillers and
    adjacent repetitions, or splices one explicit correction. */
module TokenSelection {
  import opened Domain

  const FILLERS: set<string> := {"ah", "er", "euh", "heu", "hmm", "uh", "um"}

  const BOUNDARY_WORDS: set<string> :=
    {"a", "an", "au", "aux", "de", "des", "du", "it", "l", "la", "le", "les", "on", "the", "un", "une"}

  predicate IsBoundaryWord(key: string) {
    key in BOUNDARY_WORDS
  }

  const DAY_NAMES: set<string> :=
    {"friday", "jeudi", "lundi", "mardi", "mercredi", "monday", "samedi", "saturday", "sunday",
     "thursday", "tuesday", "vendredi", "wednesday"}

  const MARKERS: seq<seq<string>> := [["no", "sorry"], ["non", "pardon"]]

  /** What the regular expressions and character tests of the source decide. */
  datatype Lexicon = Lexicon(split: string -> seq<string>, key: string -> string,
                             isProtected: (string, int) -> bool)

  datatype Reason =
    | OutOfRange | NotIncreasing | EmptySelection | ProtectedToken(index: int) | FinalTokenDeleted
    | MultipleCorrections | UnsafeDeletion(index: int) | PartialMarker
    | InvalidPrefix | InvalidSuffix | UnsafeBoundary | Accepted

  datatype Decision = Decision(output: string, accepted: bool, reason: Reason, keep: seq<int>)

  // ---------------------------------------------------------------- simple deletions

  /** i and j lie in one run of equal adjacent keys. */
  predicate SameRun(keys: seq<string>, i: int, j: int)
    requires 0 <= i < |keys|
  {
    0 <= j < |keys| && forall m | (i <= m <= j || j <= m <= i) && 0 <= m < |keys| :: keys[m] == keys[i]
  }

  predicate InLongRun(keys: seq<string>, i: int)
    requires 0 <= i < |keys|
  {
    (i > 0 && keys[i - 1] == keys[i]) || (i + 1 < |keys| && keys[i + 1] == keys[i])
  }

  /** The token repeats a neighbour, and some token of its run is kept. */
  ghost predicate Duplicate(keys: seq<string>, kept: set<int>, i: int)
    requires 0 <= i < |keys|
  {
    InLongRun(keys, i) && exists j :: j in kept && SameRun(keys, i, j)
  }

  ghost predicate Simple(keys: seq<string>, kept: set<int>, i: int)
    requires 0 <= i < |keys|
  {
    keys[i] in FILLERS || Duplicate(keys, kept, i)
  }

  /** start..end is the whole run around i. */
  predicate WholeRun(keys: seq<string>, i: int, start: int, end: int)
    requires 0 <= i < |keys|
  {
    && 0 <= start <= i < end <= |keys|
    && (forall m :: start <= m < end ==> keys[m] == keys[i])
    && (start > 0 ==> keys[start - 1] != keys[i])
    && (end < |keys| ==> keys[end] != keys[i])
  }

  lemma RunIsWhole(keys: seq<string>, i: int, start: int, end: int)
    requires 0 <= i < |keys| && WholeRun(keys, i, start, end)
    ensures InLongRun(keys, i) <==> end - start > 1
    ensures forall j :: SameRun(keys, i, j) <==> start <= j < end
  {
  }

  method IsDuplicateDeletion(index: int, keys: seq<string>, kept: set<int>) returns (r: bool)
    requires 0 <= index < |keys|
    ensures r <==> Duplicate(keys, kept, index)
  {
    var start := index;
    while start > 0 && keys[start - 1] == keys[index]
      invariant 0 <= start <= index && forall m :: start <= m <= index ==> keys[m] == keys[index]
    {
      start := start - 1;
    }
    var end := index + 1;
    while end < |keys| && keys[end] == keys[index]
      invariant index < end <= |keys| && forall m :: index <= m < end ==> keys[m] == keys[index]
    {
      end := end + 1;
    }
    RunIsWhole(keys, index, start, end);
    r := end - start > 1 && exists candidate :: start <= candidate < end && candidate in kept;
  }

  // ---------------------------------------------------------------- correction markers

  predicate IsMarker(keys: seq<string>, start: int) {
    0 <= start && start + 2 <= |keys|
    && (keys[start..start + 2] == MARKERS[0] || keys[start..start + 2] == MARKERS[1])
  }

  lemma MarkersDiffer()
    ensures forall k, m :: 0 <= k < m < |MARKERS| ==> MARKERS[k] != MARKERS[m]
  {
    assert |MARKERS[0][0]| != |MARKERS[1][0]|;
  }

  /** _correction_ranges, by start: each marker occurrence once. */
  method CorrectionStarts(keys: seq<string>) returns (starts: seq<int>)
    ensures forall s :: s in starts <==> IsMarker(keys, s)
    ensures forall i, j :: 0 <= i < j < |starts| ==> starts[i] != starts[j]
  {
    starts := [];
    MarkersDiffer();
    for m := 0 to |MARKERS|
      invariant forall s :: s in starts <==>
                  0 <= s && s + 2 <= |keys| && exists k :: 0 <= k < m && keys[s..s + 2] == MARKERS[k]
      invariant forall i, j :: 0 <= i < j < |starts| ==> starts[i] != starts[j]
    {
      var start := 0;
      while start + 2 <= |keys|
        invariant 0 <= start && (start + 2 <= |keys| + 1 || start == 0)
        invariant forall s :: s in starts <==>
                    0 <= s && s + 2 <= |keys|
                    && ((exists k :: 0 <= k < m && keys[s..s + 2] == MARKERS[k])
                        || (s < start && keys[s..s + 2] == MARKERS[m]))
        invariant forall i, j :: 0 <= i < j < |starts| ==> starts[i] != starts[j]
      {
        if keys[start..start + 2] == MARKERS[m] {
          assert start !in starts;
          starts := starts + [start];
        }
        start := start + 1;
      }
    }
  }

  // ---------------------------------------------------------------- which edits are safe

  predicate Increasing(keep: seq<int>, n: nat) {
    && (forall i :: 0 <= i < |keep| ==> 0 <= keep[i] < n)
    && (forall i, j :: 0 <= i < j < |keep| ==> keep[i] < keep[j])
  }

  ghost predicate HasMarker(keys: seq<string>) {
    exists m :: IsMarker(keys, m)
  }

  ghost predicate OneMarker(keys: seq<string>) {
    forall m, n :: IsMarker(keys, m) && IsMarker(keys, n) ==> m == n
  }

  /** No protected token is deleted, except a day name next to a correction. */
  ghost predicate ProtectedKept(lex: Lexicon, tokens: seq<string>, keys: seq<string>, kept: set<int>)
    requires |tokens| == |keys|
  {
    forall i :: 0 <= i < |tokens| && i !in kept && lex.isProtected(tokens[i], i) ==>
      HasMarker(keys) && keys[i] in DAY_NAMES
  }

  predicate Meaningful(keys: seq<string>, i: int)
    requires 0 <= i < |keys|
  {
    keys[i] != "" && keys[i] !in FILLERS
  }

  predicate IsLastMeaningful(keys: seq<string>, i: int) {
    0 <= i < |keys| && Meaningful(keys, i) && forall j :: i < j < |keys| ==> !Meaningful(keys, j)
  }

  ghost predicate FinalKept(keys: seq<string>, kept: set<int>) {
    forall i :: IsLastMeaningful(keys, i) ==> i in kept
  }

  ghost predicate OnlySimpleDeleted(keys: seq<string>, kept: set<int>) {
    forall i :: 0 <= i < |keys| && i !in kept ==> Simple(keys, kept, i)
  }

  /** A token a correction splice must treat as content. */
  ghost predicate Content(keys: seq<string>, kept: set<int>, i: int) {
    0 <= i < |keys| && !Simple(keys, kept, i)
  }

  /** Of the content in lo..hi exactly what lies before p is kept. */
  ghost predicate KeepsUpTo(keys: seq<string>, kept: set<int>, lo: int, hi: int, p: int) {
    forall i :: lo <= i < hi && Content(keys, kept, i) ==> (i in kept <==> i < p)
  }

  /** Of the content in lo..hi exactly what lies at or after q is kept. */
  ghost predicate KeepsFrom(keys: seq<string>, kept: set<int>, lo: int, hi: int, q: int) {
    forall i :: lo <= i < hi && Content(keys, kept, i) ==> (i in kept <==> i >= q)
  }

  ghost predicate SomePrefixKept(keys: seq<string>, kept: set<int>, lo: int, hi: int) {
    exists p :: KeepsUpTo(keys, kept, lo, hi, p)
  }

  ghost predicate SomeSuffixKept(keys: seq<string>, kept: set<int>, lo: int, hi: int) {
    exists q :: KeepsFrom(keys, kept, lo, hi, q)
  }

  ghost predicate KeptContent(keys: seq<string>, kept: set<int>, i: int) {
    Content(keys, kept, i) && i in kept
  }

  /** i is the last kept content before hi. */
  ghost predicate LastKept(keys: seq<string>, kept: set<int>, hi: int, i: int) {
    0 <= i < hi && KeptContent(keys, kept, i) && forall k :: i < k < hi ==> !KeptContent(keys, kept, k)
  }

  /** j is the first kept content from lo onwards. */
  ghost predicate FirstKept(keys: seq<string>, kept: set<int>, lo: int, j: int) {
    lo <= j && KeptContent(keys, kept, j) && forall k :: lo <= k < j ==> !KeptContent(keys, kept, k)
  }

  /** The words that meet once the marker at m is gone. */
  ghost predicate Seam(keys: seq<string>, kept: set<int>, m: int, i: int, j: int) {
    LastKept(keys, kept, m, i) && FirstKept(keys, kept, m + 2, j)
  }

  /** The words that meet are not both function words. */
  ghost predicate SeamAllowed(keys: seq<string>, kept: set<int>, m: int) {
    exists i, j :: Seam(keys, kept, m, i, j) && !(IsBoundaryWord(keys[i]) && IsBoundaryWord(keys[j]))
  }

  /** The marker at m is deleted, together with the content between a cut p before it
      and a cut q after it; content outside the cuts is kept, some on either side, and
      the two words that meet are not both function words. */
  ghost predicate Splice(keys: seq<string>, kept: set<int>, m: int) {
    && m !in kept && m + 1 !in kept
    && SomePrefixKept(keys, kept, 0, m)
    && SomeSuffixKept(keys, kept, m + 2, |keys|)
    && SeamAllowed(keys, kept, m)
  }

  /** A marker is kept whole, with only simple deletions around it, or spliced out. */
  ghost predicate MarkerSafe(keys: seq<string>, kept: set<int>, m: int) {
    (m in kept && m + 1 in kept && OnlySimpleDeleted(keys, kept)) || Splice(keys, kept, m)
  }

  ghost predicate DeletionsSafe(keys: seq<string>, kept: set<int>) {
    && OneMarker(keys)
    && (!HasMarker(keys) ==> OnlySimpleDeleted(keys, kept))
    && (forall m :: IsMarker(keys, m) ==> MarkerSafe(keys, kept, m))
  }

  function SetOf(keep: seq<int>): (kept: set<int>)
    ensures forall i :: i in kept <==> i in keep
  {
    set i | i in keep
  }

  /** The edits that are accepted. */
  ghost predicate SafeEdit(lex: Lexicon, tokens: seq<string>, keep: seq<int>) {
    var keys, kept := Keys(lex.key, tokens), SetOf(keep);
    && Increasing(keep, |tokens|)
    && (tokens != [] ==> keep != [])
    && ProtectedKept(lex, tokens, keys, kept)
    && FinalKept(keys, kept)
    && DeletionsSafe(keys, kept)
  }

  // ---------------------------------------------------------------- which reason is given

  ghost predicate KeptBefore(keys: seq<string>, kept: set<int>, hi: int) {
    exists i :: LastKept(keys, kept, hi, i)
  }

  ghost predicate KeptAfter(keys: seq<string>, kept: set<int>, lo: int) {
    exists j :: FirstKept(keys, kept, lo, j)
  }

  /** Some content before the marker is kept, and what is kept is a prefix of it. */
  ghost predicate PrefixFine(keys: seq<string>, kept: set<int>, m: int) {
    KeptBefore(keys, kept, m) && SomePrefixKept(keys, kept, 0, m)
  }

  ghost predicate SuffixFine(keys: seq<string>, kept: set<int>, m: int) {
    KeptAfter(keys, kept, m + 2) && SomeSuffixKept(keys, kept, m + 2, |keys|)
  }

  ghost predicate SpliceVerdict(keys: seq<string>, kept: set<int>, m: int, r: Reason) {
    if !PrefixFine(keys, kept, m) then r == InvalidPrefix
    else if !SuffixFine(keys, kept, m) then r == InvalidSuffix
    else if !SeamAllowed(keys, kept, m) then r == UnsafeBoundary
    else r == Accepted
  }

  ghost predicate SimpleVerdict(keys: seq<string>, kept: set<int>, r: Reason) {
    if OnlySimpleDeleted(keys, kept) then r == Accepted
    else r.UnsafeDeletion? && 0 <= r.index < |keys| && r.index !in kept && !Simple(keys, kept, r.index)
  }

  ghost predicate MarkerVerdict(keys: seq<string>, kept: set<int>, m: int, r: Reason) {
    if m in kept && m + 1 in kept then SimpleVerdict(keys, kept, r)
    else if m in kept || m + 1 in kept then r == PartialMarker
    else SpliceVerdict(keys, kept, m, r)
  }

  ghost predicate DeletionVerdict(keys: seq<string>, kept: set<int>, r: Reason) {
    if !OneMarker(keys) then r == MultipleCorrections
    else if !HasMarker(keys) then SimpleVerdict(keys, kept, r)
    else forall m :: IsMarker(keys, m) ==> MarkerVerdict(keys, kept, m, r)
  }

  /** Token i is deleted although it is protected and no day name next to a correction. */
  ghost predicate Unprotected(lex: Lexicon, tokens: seq<string>, keys: seq<string>, kept: set<int>, i: int)
    requires |tokens| == |keys|
  {
    && 0 <= i < |tokens| && i !in kept && lex.isProtected(tokens[i], i)
    && !(HasMarker(keys) && keys[i] in DAY_NAMES)
  }

  ghost predicate EditVerdict(lex: Lexicon, tokens: seq<string>, keys: seq<string>, kept: set<int>, r: Reason)
    requires |tokens| == |keys|
  {
    if !ProtectedKept(lex, tokens, keys, kept) then
      && r.ProtectedToken? && Unprotected(lex, tokens, keys, kept, r.index)
      && forall j :: 0 <= j < r.index ==> !Unprotected(lex, tokens, keys, kept, j)
    else if !FinalKept(keys, kept) then r == FinalTokenDeleted
    else DeletionVerdict(keys, kept, r)
  }

  /** The reason given is the first check that fails. */
  ghost predicate Verdict(lex: Lexicon, tokens: seq<string>, keep: seq<int>, r: Reason) {
    if exists i :: 0 <= i < |keep| && !(0 <= keep[i] < |tokens|) then r == OutOfRange
    else if !Increasing(keep, |tokens|) then r == NotIncreasing
    else if tokens != [] && keep == [] then r == EmptySelection
    else EditVerdict(lex, tokens, Keys(lex.key, tokens), SetOf(keep), r)
  }

  function Selected(tokens: seq<string>, keep: seq<int>): (r: seq<string>)
    requires Increasing(keep, |tokens|)
    ensures |r| == |keep| && forall i :: 0 <= i < |keep| ==> r[i] == tokens[keep[i]]
  {
    seq(|keep|, i requires 0 <= i < |keep| => tokens[keep[i]])
  }

  function Spaced(tokens: seq<string>): string {
    if tokens == [] then "" else if |tokens| == 1 then tokens[0] else tokens[0] + " " + Spaced(tokens[1..])
  }

  /** Where the first space is, or the end. */
  function FirstSpace(text: string): (k: nat)
    ensures k <= |text| && (k < |text| ==> text[k] == ' ')
    ensures forall i :: 0 <= i < k ==> text[i] != ' '
  {
    if text == [] || text[0] == ' ' then 0 else FirstSpace(text[1..]) + 1
  }

  /** The pieces of a text between single spaces. */
  function Pieces(text: string): seq<string>
    decreases |text|
  {
    var k := FirstSpace(text);
    if k == |text| then [text] else [text[..k]] + Pieces(text[k + 1..])
  }

  lemma PiecesFirst(first: string, rest: string)
    requires ' ' !in first
    ensures Pieces(first) == [first]
    ensures Pieces(first + " " + rest) == [first] + Pieces(rest)
  {
    assert forall i :: 0 <= i < |first| ==> first[i] in first;
    var text := first + " " + rest;
    assert text[|first|] == ' ';
    assert forall i :: 0 <= i < |first| ==> text[i] == first[i];
    assert FirstSpace(text) == |first|;
    assert text[..|first|] == first && text[|first| + 1..] == rest;
  }

  function Letters(tokens: seq<string>): nat {
    if tokens == [] then 0 else |tokens[0]| + Letters(tokens[1..])
  }

  /** The joined text splits into the tokens again, and has one space between each two. */
  lemma {:induction false} SpacedSplits(tokens: seq<string>)
    requires tokens != []
    ensures |Spaced(tokens)| == Letters(tokens) + |tokens| - 1
    ensures (forall i :: 0 <= i < |tokens| ==> ' ' !in tokens[i]) ==> Pieces(Spaced(tokens)) == tokens
    decreases |tokens|
  {
    if |tokens| == 1 {
      assert tokens[1..] == [];
      if ' ' !in tokens[0] { PiecesFirst(tokens[0], ""); }
    } else {
      var rest := tokens[1..];
      SpacedSplits(rest);
      assert forall i :: 0 <= i < |rest| ==> rest[i] == tokens[i + 1];
      if forall i :: 0 <= i < |tokens| ==> ' ' !in tokens[i] {
        PiecesFirst(tokens[0], Spaced(rest));
        assert tokens == [tokens[0]] + rest;
      }
    }
  }

  /** The output holds the kept tokens, in order, with one space between each two. */
  ghost predicate JoinsKept(tokens: seq<string>, keep: seq<int>, output: string)
    requires Increasing(keep, |tokens|)
  {
    && (keep == [] ==> output == "")
    && (keep != [] ==> |output| == Letters(Selected(tokens, keep)) + |keep| - 1)
    && (keep != [] && (forall i :: 0 <= i < |keep| ==> ' ' !in tokens[keep[i]]) ==>
          |Pieces(output)| == |keep| && forall i :: 0 <= i < |keep| ==> Pieces(output)[i] == tokens[keep[i]])
  }

  lemma SpacedJoins(tokens: seq<string>, keep: seq<int>)
    requires Increasing(keep, |tokens|)
    ensures JoinsKept(tokens, keep, Spaced(Selected(tokens, keep)))
  {
    hide Increasing, Pieces, Letters;
    if keep != [] {
      SpacedSplits(Selected(tokens, keep));
      hide Spaced;
    }
  }

  // ---------------------------------------------------------------- content lists

  /** simple[i] says whether token i may be deleted anywhere. */
  ghost predicate Flags(simple: seq<bool>, keys: seq<string>, kept: set<int>) {
    |simple| == |keys| && forall i :: 0 <= i < |keys| ==> simple[i] == Simple(keys, kept, i)
  }

  method SimpleFlags(keys: seq<string>, kept: set<int>) returns (simple: seq<bool>)
    ensures Flags(simple, keys, kept)
  {
    simple := [];
    for i := 0 to |keys|
      invariant |simple| == i
      invariant forall j :: 0 <= j < i ==> simple[j] == Simple(keys, kept, j)
    {
      var duplicate := IsDuplicateDeletion(i, keys, kept);
      simple := simple + [keys[i] in FILLERS || duplicate];
    }
  }

  predicate Ascending(xs: seq<int>) {
    forall i, j :: 0 <= i < j < |xs| ==> xs[i] < xs[j]
  }

  /** The indexes in lo..hi that are not simple, in order. */
  function ContentList(simple: seq<bool>, lo: nat, hi: nat): (r: seq<int>)
    requires hi <= |simple|
    ensures Ascending(r)
    ensures forall i :: i in r <==> lo <= i < hi && !simple[i]
  {
    if lo >= hi then []
    else
      var p := ContentList(simple, lo, hi - 1);
      assert forall k :: 0 <= k < |p| ==> p[k] in p;
      p + (if simple[hi - 1] then [] else [hi - 1])
  }

  function KeptOf(xs: seq<int>, kept: set<int>): (r: seq<int>)
    ensures |r| <= |xs|
    ensures forall i :: i in r <==> i in xs && i in kept
  {
    if xs == [] then []
    else
      var p, x := xs[..|xs| - 1], xs[|xs| - 1];
      assert xs == p + [x];
      KeptOf(p, kept) + (if x in kept then [x] else [])
  }

  lemma {:induction false} KeptOfAppend(a: seq<int>, b: seq<int>, kept: set<int>)
    ensures KeptOf(a + b, kept) == KeptOf(a, kept) + KeptOf(b, kept)
  {
    if b == [] {
      assert a + b == a;
    } else {
      assert (a + b)[..|a + b| - 1] == a + b[..|b| - 1];
      KeptOfAppend(a, b[..|b| - 1], kept);
    }
  }

  predicate All(xs: seq<int>, kept: set<int>) {
    forall i :: 0 <= i < |xs| ==> xs[i] in kept
  }

  predicate NoneIn(xs: seq<int>, kept: set<int>) {
    forall i :: 0 <= i < |xs| ==> xs[i] !in kept
  }

  lemma {:induction false} KeptAll(xs: seq<int>, kept: set<int>)
    requires All(xs, kept)
    ensures KeptOf(xs, kept) == xs
  {
    if xs != [] { KeptAll(xs[..|xs| - 1], kept); }
  }

  lemma KeptNone(xs: seq<int>, kept: set<int>)
    ensures KeptOf(xs, kept) == [] <==> NoneIn(xs, kept)
  {
    var r := KeptOf(xs, kept);
    if r != [] {
      assert r[0] in r;
    } else {
      assert forall i :: 0 <= i < |xs| ==> xs[i] in xs && xs[i] !in r;
    }
  }

  /** A list splits at c into a kept and a deleted part, in that order. */
  predicate SplitsAt(xs: seq<int>, kept: set<int>, c: nat) {
    c <= |xs| && All(xs[..c], kept) && NoneIn(xs[c..], kept)
  }

  lemma KeptSplit(xs: seq<int>, kept: set<int>, c: nat)
    requires SplitsAt(xs, kept, c)
    ensures KeptOf(xs, kept) == xs[..c]
  {
    hide KeptOf;
    KeptAll(xs[..c], kept);
    KeptNone(xs[c..], kept);
    KeptOfAppend(xs[..c], xs[c..], kept);
    assert xs[..c] + xs[c..] == xs;
  }

  /** The kept entries are a prefix of the list exactly when the list splits. */
  lemma KeptPrefixIff(xs: seq<int>, kept: set<int>)
    ensures KeptOf(xs, kept) == xs[..|KeptOf(xs, kept)|] <==> exists c: nat :: SplitsAt(xs, kept, c)
  {
    hide KeptOf;
    var n := |KeptOf(xs, kept)|;
    if KeptOf(xs, kept) == xs[..n] {
      KeptPrefixSplits(xs, kept, n);
    } else if exists c: nat :: SplitsAt(xs, kept, c) {
      var c: nat :| SplitsAt(xs, kept, c);
      KeptSplit(xs, kept, c);
    }
  }

  lemma SliceKept(xs: seq<int>, kept: set<int>, lo: nat, hi: nat)
    requires lo <= hi <= |xs| && KeptOf(xs, kept) == xs[lo..hi]
    ensures All(xs[lo..hi], kept)
  {
    hide KeptOf;
    forall i | 0 <= i < |xs[lo..hi]| ensures xs[lo..hi][i] in kept {
      assert xs[lo..hi][i] in KeptOf(xs, kept);
    }
  }

  lemma KeptUpTo(xs: seq<int>, kept: set<int>, n: nat)
    requires n <= |xs| && KeptOf(xs[..n], kept) == xs[..n] && KeptOf(xs, kept) == xs[..n]
    ensures KeptOf(xs[n..], kept) == []
  {
    hide KeptOf;
    KeptOfAppend(xs[..n], xs[n..], kept);
    assert xs[..n] + xs[n..] == xs;
    assert |xs[..n] + KeptOf(xs[n..], kept)| == |xs[..n]|;
  }

  lemma KeptPrefixSplits(xs: seq<int>, kept: set<int>, n: nat)
    requires n <= |xs| && KeptOf(xs, kept) == xs[..n]
    ensures SplitsAt(xs, kept, n)
  {
    assert xs[..n] == xs[0..n];
    SliceKept(xs, kept, 0, n);
    hide KeptOf, All, NoneIn;
    KeptAll(xs[..n], kept);
    KeptUpTo(xs, kept, n);
    KeptNone(xs[n..], kept);
  }

  predicate SplitsFrom(xs: seq<int>, kept: set<int>, c: nat) {
    c <= |xs| && NoneIn(xs[..c], kept) && All(xs[c..], kept)
  }

  lemma KeptSplitFrom(xs: seq<int>, kept: set<int>, c: nat)
    requires SplitsFrom(xs, kept, c)
    ensures KeptOf(xs, kept) == xs[c..]
  {
    hide KeptOf;
    KeptAll(xs[c..], kept);
    KeptNone(xs[..c], kept);
    KeptOfAppend(xs[..c], xs[c..], kept);
    assert xs[..c] + xs[c..] == xs;
  }

  lemma KeptSuffixIff(xs: seq<int>, kept: set<int>)
    ensures KeptOf(xs, kept) == xs[|xs| - |KeptOf(xs, kept)|..] <==> exists c: nat :: SplitsFrom(xs, kept, c)
  {
    hide KeptOf;
    var n := |xs| - |KeptOf(xs, kept)|;
    if KeptOf(xs, kept) == xs[n..] {
      KeptSuffixSplits(xs, kept, n);
    } else if exists c: nat :: SplitsFrom(xs, kept, c) {
      var c: nat :| SplitsFrom(xs, kept, c);
      KeptSplitFrom(xs, kept, c);
    }
  }

  lemma KeptRest(xs: seq<int>, kept: set<int>, n: nat)
    requires n <= |xs| && KeptOf(xs[n..], kept) == xs[n..] && KeptOf(xs, kept) == xs[n..]
    ensures KeptOf(xs[..n], kept) == []
  {
    hide KeptOf;
    KeptOfAppend(xs[..n], xs[n..], kept);
    assert xs[..n] + xs[n..] == xs;
    assert |KeptOf(xs[..n], kept) + xs[n..]| == |xs[n..]|;
  }

  lemma KeptSuffixSplits(xs: seq<int>, kept: set<int>, n: nat)
    requires n <= |xs| && KeptOf(xs, kept) == xs[n..]
    ensures SplitsFrom(xs, kept, n)
  {
    assert xs[n..] == xs[n..|xs|];
    SliceKept(xs, kept, n, |xs|);
    hide KeptOf, All, NoneIn;
    KeptAll(xs[n..], kept);
    KeptRest(xs, kept, n);
    KeptNone(xs[..n], kept);
  }

  // ---------------------------------------------------------------- cuts and lists agree

  lemma {:induction false} Position(xs: seq<int>, p: int) returns (c: nat)
    requires Ascending(xs)
    ensures c <= |xs| && (forall i :: 0 <= i < c ==> xs[i] < p) && (forall i :: c <= i < |xs| ==> xs[i] >= p)
  {
    c := 0;
    while c < |xs| && xs[c] < p
      invariant c <= |xs| && forall i :: 0 <= i < c ==> xs[i] < p
    {
      c := c + 1;
    }
  }

  lemma PrefixIsCut(keys: seq<string>, kept: set<int>, simple: seq<bool>, lo: nat, hi: nat)
    requires Flags(simple, keys, kept) && hi <= |keys|
    ensures var xs := ContentList(simple, lo, hi);
            KeptOf(xs, kept) == xs[..|KeptOf(xs, kept)|] <==> SomePrefixKept(keys, kept, lo, hi)
  {
    hide KeptOf, ContentList, Simple;
    var xs := ContentList(simple, lo, hi);
    KeptPrefixIff(xs, kept);
    if c: nat :| SplitsAt(xs, kept, c) {
      SplitIsCut(keys, kept, simple, lo, hi, c);
    } else if p :| KeepsUpTo(keys, kept, lo, hi, p) {
      var c := Position(xs, p);
      CutIsSplit(keys, kept, simple, lo, hi, p, c);
    }
  }

  lemma SplitIsCut(keys: seq<string>, kept: set<int>, simple: seq<bool>, lo: nat, hi: nat, c: nat)
    requires Flags(simple, keys, kept) && hi <= |keys|
    requires SplitsAt(ContentList(simple, lo, hi), kept, c)
    ensures SomePrefixKept(keys, kept, lo, hi)
  {
    hide ContentList, Simple;
    var xs := ContentList(simple, lo, hi);
    var p := if c < |xs| then xs[c] else hi;
    forall i | lo <= i < hi && Content(keys, kept, i) ensures i in kept <==> i < p {
      assert i in xs;
      var k :| 0 <= k < |xs| && xs[k] == i;
      if k < c { assert xs[..c][k] in kept; } else { assert xs[c..][k - c] !in kept; }
    }
    assert KeepsUpTo(keys, kept, lo, hi, p);
  }

  lemma CutIsSplit(keys: seq<string>, kept: set<int>, simple: seq<bool>, lo: nat, hi: nat, p: int, c: nat)
    requires Flags(simple, keys, kept) && hi <= |keys|
    requires KeepsUpTo(keys, kept, lo, hi, p)
    requires var xs := ContentList(simple, lo, hi);
             c <= |xs| && (forall i :: 0 <= i < c ==> xs[i] < p) && (forall i :: c <= i < |xs| ==> xs[i] >= p)
    ensures SplitsAt(ContentList(simple, lo, hi), kept, c)
  {
    hide ContentList, Simple;
    var xs := ContentList(simple, lo, hi);
    assert forall k :: 0 <= k < |xs| ==> xs[k] in xs;
  }

  lemma SuffixIsCut(keys: seq<string>, kept: set<int>, simple: seq<bool>, lo: nat, hi: nat)
    requires Flags(simple, keys, kept) && hi <= |keys|
    ensures var xs := ContentList(simple, lo, hi);
            KeptOf(xs, kept) == xs[|xs| - |KeptOf(xs, kept)|..] <==> SomeSuffixKept(keys, kept, lo, hi)
  {
    hide KeptOf, ContentList, Simple;
    var xs := ContentList(simple, lo, hi);
    KeptSuffixIff(xs, kept);
    if c: nat :| SplitsFrom(xs, kept, c) {
      SplitIsCutFrom(keys, kept, simple, lo, hi, c);
    } else if q :| KeepsFrom(keys, kept, lo, hi, q) {
      var c := Position(xs, q);
      CutIsSplitFrom(keys, kept, simple, lo, hi, q, c);
    }
  }

  lemma SplitIsCutFrom(keys: seq<string>, kept: set<int>, simple: seq<bool>, lo: nat, hi: nat, c: nat)
    requires Flags(simple, keys, kept) && hi <= |keys|
    requires SplitsFrom(ContentList(simple, lo, hi), kept, c)
    ensures SomeSuffixKept(keys, kept, lo, hi)
  {
    hide ContentList, Simple;
    var xs := ContentList(simple, lo, hi);
    var q := if c < |xs| then xs[c] else hi;
    forall i | lo <= i < hi && Content(keys, kept, i) ensures i in kept <==> i >= q {
      assert i in xs;
      var k :| 0 <= k < |xs| && xs[k] == i;
      if k < c { assert xs[..c][k] !in kept; } else { assert xs[c..][k - c] in kept; }
    }
    assert KeepsFrom(keys, kept, lo, hi, q);
  }

  lemma CutIsSplitFrom(keys: seq<string>, kept: set<int>, simple: seq<bool>, lo: nat, hi: nat, q: int, c: nat)
    requires Flags(simple, keys, kept) && hi <= |keys|
    requires KeepsFrom(keys, kept, lo, hi, q)
    requires var xs := ContentList(simple, lo, hi);
             c <= |xs| && (forall i :: 0 <= i < c ==> xs[i] < q) && (forall i :: c <= i < |xs| ==> xs[i] >= q)
    ensures SplitsFrom(ContentList(simple, lo, hi), kept, c)
  {
    hide ContentList, Simple;
    var xs := ContentList(simple, lo, hi);
    assert forall k :: 0 <= k < |xs| ==> xs[k] in xs;
  }

  // ---------------------------------------------------------------- the validator

  lemma LastKeptIs(keys: seq<string>, kept: set<int>, simple: seq<bool>, hi: nat)
    requires Flags(simple, keys, kept) && hi <= |keys|
    ensures var pre := KeptOf(ContentList(simple, 0, hi), kept);
            forall i :: LastKept(keys, kept, hi, i) <==> pre != [] && i == pre[|pre| - 1]
  {
    hide Simple, KeptOf, ContentList;
    var pre := KeptOf(ContentList(simple, 0, hi), kept);
    KeptOfAscending(ContentList(simple, 0, hi), kept);
    assert forall i :: i in pre <==> 0 <= i < hi && KeptContent(keys, kept, i);
    if pre != [] { Ends(pre); }
  }

  lemma FirstKeptIs(keys: seq<string>, kept: set<int>, simple: seq<bool>, lo: nat)
    requires Flags(simple, keys, kept) && lo <= |keys|
    ensures var post := KeptOf(ContentList(simple, lo, |keys|), kept);
            forall j :: FirstKept(keys, kept, lo, j) <==> post != [] && j == post[0]
  {
    hide Simple, KeptOf, ContentList;
    var post := KeptOf(ContentList(simple, lo, |keys|), kept);
    KeptOfAscending(ContentList(simple, lo, |keys|), kept);
    assert forall j :: j in post <==> lo <= j < |keys| && KeptContent(keys, kept, j);
    if post != [] { Ends(post); }
  }

  lemma {:induction false} KeptOfAscending(xs: seq<int>, kept: set<int>)
    requires Ascending(xs)
    ensures Ascending(KeptOf(xs, kept))
  {
    if xs != [] {
      var p := xs[..|xs| - 1];
      KeptOfAscending(p, kept);
      assert forall k :: 0 <= k < |KeptOf(p, kept)| ==> KeptOf(p, kept)[k] in p;
    }
  }

  lemma Ends(xs: seq<int>)
    requires Ascending(xs) && xs != []
    ensures xs[0] in xs && xs[|xs| - 1] in xs
    ensures forall x :: x in xs ==> xs[0] <= x <= xs[|xs| - 1]
  {
  }

  lemma KeptInRange(simple: seq<bool>, kept: set<int>, lo: nat, hi: nat)
    requires hi <= |simple|
    ensures var ks := KeptOf(ContentList(simple, lo, hi), kept);
            |ks| <= |ContentList(simple, lo, hi)| && forall i :: 0 <= i < |ks| ==> lo <= ks[i] < hi
  {
    hide KeptOf, ContentList;
    var ks := KeptOf(ContentList(simple, lo, hi), kept);
    forall i | 0 <= i < |ks| ensures lo <= ks[i] < hi {
      assert ks[i] in ks;
    }
  }

  /** The words that meet are the last of keptPre and the first of keptPost. */
  lemma SeamFromEnds(keys: seq<string>, kept: set<int>, m: nat, lo: nat, keptPre: seq<int>, keptPost: seq<int>)
    requires lo == m + 2
    requires forall i :: LastKept(keys, kept, m, i) <==> keptPre != [] && i == keptPre[|keptPre| - 1]
    requires forall j :: FirstKept(keys, kept, lo, j) <==> keptPost != [] && j == keptPost[0]
    ensures forall i, j :: Seam(keys, kept, m, i, j) <==>
              keptPre != [] && keptPost != [] && i == keptPre[|keptPre| - 1] && j == keptPost[0]
  {
    hide LastKept, FirstKept;
  }

  lemma SeamAllowedIff(keys: seq<string>, kept: set<int>, m: nat, keptPre: seq<int>, keptPost: seq<int>)
    requires forall i :: 0 <= i < |keptPre| ==> 0 <= keptPre[i] < |keys|
    requires forall i :: 0 <= i < |keptPost| ==> 0 <= keptPost[i] < |keys|
    requires forall i, j :: Seam(keys, kept, m, i, j) <==>
               keptPre != [] && keptPost != [] && i == keptPre[|keptPre| - 1] && j == keptPost[0]
    ensures SeamAllowed(keys, kept, m) <==>
              && keptPre != [] && keptPost != []
              && !(IsBoundaryWord(keys[keptPre[|keptPre| - 1]]) && IsBoundaryWord(keys[keptPost[0]]))
  {
    hide Seam, IsBoundaryWord;
    if keptPre != [] && keptPost != [] {
      assert Seam(keys, kept, m, keptPre[|keptPre| - 1], keptPost[0]);
    }
  }

  /** The verdict on the lists: prefix first, then suffix, then the seam. */
  function ListVerdict(keys: seq<string>, pre: seq<int>, keptPre: seq<int>, post: seq<int>, keptPost: seq<int>): Reason
    requires |keptPre| <= |pre| && |keptPost| <= |post|
    requires forall i :: 0 <= i < |keptPre| ==> 0 <= keptPre[i] < |keys|
    requires forall i :: 0 <= i < |keptPost| ==> 0 <= keptPost[i] < |keys|
  {
    if keptPre == [] || keptPre != pre[..|keptPre|] then InvalidPrefix
    else if keptPost == [] || keptPost != post[|post| - |keptPost|..] then InvalidSuffix
    else if IsBoundaryWord(keys[keptPre[|keptPre| - 1]]) && IsBoundaryWord(keys[keptPost[0]]) then UnsafeBoundary
    else Accepted
  }

  lemma SpliceVerdictByLists(keys: seq<string>, kept: set<int>, simple: seq<bool>, m: nat,
                             pre: seq<int>, keptPre: seq<int>, post: seq<int>, keptPost: seq<int>)
    requires Flags(simple, keys, kept) && m + 2 <= |keys|
    requires pre == ContentList(simple, 0, m) && keptPre == KeptOf(pre, kept)
    requires post == ContentList(simple, m + 2, |keys|) && keptPost == KeptOf(post, kept)
    requires forall i :: 0 <= i < |keptPre| ==> 0 <= keptPre[i] < |keys|
    requires forall i :: 0 <= i < |keptPost| ==> 0 <= keptPost[i] < |keys|
    ensures SpliceVerdict(keys, kept, m, ListVerdict(keys, pre, keptPre, post, keptPost))
  {
    hide SomePrefixKept, SomeSuffixKept, LastKept, FirstKept, Seam, SeamAllowed;
    hide KeptOf, ContentList, Flags, IsBoundaryWord;
    PrefixIsCut(keys, kept, simple, 0, m);
    SuffixIsCut(keys, kept, simple, m + 2, |keys|);
    LastKeptIs(keys, kept, simple, m);
    FirstKeptIs(keys, kept, simple, m + 2);
    assert SeamAllowed(keys, kept, m) <==>
              && keptPre != [] && keptPost != []
              && !(IsBoundaryWord(keys[keptPre[|keptPre| - 1]]) && IsBoundaryWord(keys[keptPost[0]])) by {
      SeamFromEnds(keys, kept, m, m + 2, keptPre, keptPost);
      SeamAllowedIff(keys, kept, m, keptPre, keptPost);
    }
    assert keptPre != [] ==> LastKept(keys, kept, m, keptPre[|keptPre| - 1]);
    assert keptPost != [] ==> FirstKept(keys, kept, m + 2, keptPost[0]);
    assert PrefixFine(keys, kept, m) <==> keptPre != [] && keptPre == pre[..|keptPre|];
    assert SuffixFine(keys, kept, m) <==> keptPost != [] && keptPost == post[|post| - |keptPost|..];
    hide PrefixFine, SuffixFine;
  }

  lemma SpliceIsAccepted(keys: seq<string>, kept: set<int>, m: int)
    requires m !in kept && m + 1 !in kept
    ensures forall r: Reason :: SpliceVerdict(keys, kept, m, r) ==> (r.Accepted? <==> Splice(keys, kept, m))
  {
    hide SomePrefixKept, SomeSuffixKept, LastKept, FirstKept, IsBoundaryWord;
  }

  method CheckSplice(keys: seq<string>, kept: set<int>, simple: seq<bool>, m: nat) returns (reason: Reason)
    requires Flags(simple, keys, kept) && m + 2 <= |keys| && m !in kept && m + 1 !in kept
    ensures reason.Accepted? <==> Splice(keys, kept, m)
    ensures SpliceVerdict(keys, kept, m, reason)
  {
    var preContent := ContentList(simple, 0, m);
    var postContent := ContentList(simple, m + 2, |keys|);
    KeptInRange(simple, kept, 0, m);
    KeptInRange(simple, kept, m + 2, |keys|);
    var keptPre := KeptOf(preContent, kept);
    var keptPost := KeptOf(postContent, kept);
    SpliceIsAccepted(keys, kept, m);
    hide Splice, SpliceVerdict, KeptOf, ContentList, Flags, ListVerdict;
    SpliceVerdictByLists(keys, kept, simple, m, preContent, keptPre, postContent, keptPost);
    reason := ListVerdict(keys, preContent, keptPre, postContent, keptPost);
  }

  method CheckOnlySimple(keys: seq<string>, kept: set<int>, simple: seq<bool>) returns (reason: Reason)
    requires Flags(simple, keys, kept)
    ensures reason.Accepted? <==> OnlySimpleDeleted(keys, kept)
    ensures SimpleVerdict(keys, kept, reason)
  {
    for i := 0 to |keys|
      invariant forall j :: 0 <= j < i && j !in kept ==> Simple(keys, kept, j)
    {
      if i !in kept && !simple[i] {
        return UnsafeDeletion(i);
      }
    }
    return Accepted;
  }

  method CheckDeletions(keys: seq<string>, kept: set<int>, corrections: seq<int>) returns (reason: Reason)
    requires forall s :: s in corrections <==> IsMarker(keys, s)
    requires forall i, j :: 0 <= i < j < |corrections| ==> corrections[i] != corrections[j]
    ensures reason.Accepted? <==> DeletionsSafe(keys, kept)
    ensures DeletionVerdict(keys, kept, reason)
  {
    hide OnlySimpleDeleted, SimpleVerdict, Splice, SpliceVerdict, IsMarker, Flags;
    MarkersFound(keys, corrections);
    var simple := SimpleFlags(keys, kept);
    if |corrections| > 1 {
      assert corrections[0] in corrections && corrections[1] in corrections;
      return MultipleCorrections;
    }
    if corrections == [] {
      reason := CheckOnlySimple(keys, kept, simple);
    } else {
      var m := corrections[0];
      assert forall s :: IsMarker(keys, s) <==> s == m;
      MarkerInRange(keys, m);
      if m in kept && m + 1 in kept {
        reason := CheckOnlySimple(keys, kept, simple);
        SpliceDeletes(keys, kept, m);
      } else if m in kept || m + 1 in kept {
        reason := PartialMarker;
        SpliceDeletes(keys, kept, m);
      } else {
        reason := CheckSplice(keys, kept, simple, m);
      }
    }
  }

  lemma MarkerInRange(keys: seq<string>, m: int)
    requires IsMarker(keys, m)
    ensures 0 <= m && m + 2 <= |keys|
  {
  }

  lemma SpliceDeletes(keys: seq<string>, kept: set<int>, m: int)
    ensures Splice(keys, kept, m) ==> m !in kept && m + 1 !in kept
  {
  }

  /** An edit is accepted exactly when it is safe; then the output is the kept tokens,
      and otherwise the text unchanged. */
  method ApplyTokenSelection(lex: Lexicon, text: string, keep: seq<int>) returns (d: Decision)
    ensures d.keep == keep
    ensures d.accepted <==> SafeEdit(lex, lex.split(text), keep)
    ensures d.accepted <==> d.reason.Accepted?
    ensures Verdict(lex, lex.split(text), keep, d.reason)
    ensures if d.accepted then JoinsKept(lex.split(text), keep, d.output) else d.output == text
  {
    var tokens := lex.split(text);
    if exists i :: 0 <= i < |keep| && !(0 <= keep[i] < |tokens|) {
      return Decision(text, false, OutOfRange, keep);
    }
    if exists i :: 0 <= i < |keep| - 1 && keep[i] >= keep[i + 1] {
      return Decision(text, false, NotIncreasing, keep);
    }
    StepwiseIncreasing(keep);
    if tokens != [] && keep == [] {
      return Decision(text, false, EmptySelection, keep);
    }
    var reason := CheckEdit(lex, tokens, Keys(lex.key, tokens), SetOf(keep));
    if !reason.Accepted? {
      return Decision(text, false, reason, keep);
    }
    SpacedJoins(tokens, keep);
    d := Decision(Spaced(Selected(tokens, keep)), true, Accepted, keep);
  }

  lemma {:induction false} StepwiseIncreasing(keep: seq<int>)
    requires forall i :: 0 <= i < |keep| - 1 ==> keep[i] < keep[i + 1]
    ensures forall i, j :: 0 <= i < j < |keep| ==> keep[i] < keep[j]
  {
    if keep != [] {
      var p := keep[..|keep| - 1];
      StepwiseIncreasing(p);
      forall i, j | 0 <= i < j < |keep| ensures keep[i] < keep[j] {
        if j == |keep| - 1 && i < j - 1 { assert p[i] < p[j - 1]; }
        else if j < |keep| - 1 { assert p[i] < p[j]; }
      }
    }
  }

  method CheckEdit(lex: Lexicon, tokens: seq<string>, keys: seq<string>, kept: set<int>) returns (reason: Reason)
    requires |tokens| == |keys|
    ensures reason.Accepted? <==>
              ProtectedKept(lex, tokens, keys, kept) && FinalKept(keys, kept) && DeletionsSafe(keys, kept)
    ensures EditVerdict(lex, tokens, keys, kept, reason)
  {
    hide DeletionsSafe, DeletionVerdict, IsMarker;
    var corrections := CorrectionStarts(keys);
    MarkersFound(keys, corrections);
    for i := 0 to |tokens|
      invariant forall j :: 0 <= j < i && j !in kept && lex.isProtected(tokens[j], j) ==>
                  HasMarker(keys) && keys[j] in DAY_NAMES
    {
      var correctableTime := corrections != [] && keys[i] in DAY_NAMES;
      if lex.isProtected(tokens[i], i) && !correctableTime && i !in kept {
        return ProtectedToken(i);
      }
    }
    var last := LastMeaningful(keys);
    if last >= 0 && last !in kept {
      return FinalTokenDeleted;
    }
    hide ProtectedKept;
    reason := CheckDeletions(keys, kept, corrections);
  }

  lemma MarkersFound(keys: seq<string>, corrections: seq<int>)
    requires forall s :: s in corrections <==> IsMarker(keys, s)
    ensures corrections != [] <==> HasMarker(keys)
  {
    if corrections != [] {
      assert corrections[0] in corrections;
      assert IsMarker(keys, corrections[0]);
    }
    if HasMarker(keys) {
      var m :| IsMarker(keys, m);
      assert m in corrections;
    }
  }

  method LastMeaningful(keys: seq<string>) returns (last: int)
    ensures last >= 0 ==> IsLastMeaningful(keys, last)
    ensures forall i :: IsLastMeaningful(keys, i) ==> i == last
  {
    last := -1;
    for i := 0 to |keys|
      invariant -1 <= last < i
      invariant last >= 0 ==> Meaningful(keys, last)
      invariant forall j :: last < j < i ==> !Meaningful(keys, j)
    {
      if keys[i] != "" && keys[i] !in FILLERS {
        last := i;
      }
    }
  }
}
