/** Texts that truly repeat some words of the text before, and what the assembler, which
    only sees equal keys, makes of them (speaktap/assembly/overlap.py). */
module Overlaps {
  import opened Domain
  import opened Assembly

  predicate Distinct(norm: string -> string, words: seq<string>) {
    forall i, j :: 0 <= i < j < |words| ==> norm(words[i]) != norm(words[j])
  }

  /** Text k begins with rep words that truly repeat the end of text k - 1. */
  predicate LinkedAt(texts: seq<seq<string>>, rep: nat, k: nat)
    requires k < |texts|
  {
    && rep <= |texts[k]|
    && (k == 0 ==> rep == 0)
    && (k > 0 ==> rep <= |texts[k - 1]| && texts[k][..rep] == texts[k - 1][|texts[k - 1]| - rep..])
  }

  predicate Linked(texts: seq<seq<string>>, reps: seq<nat>) {
    |reps| == |texts| && forall k :: 0 <= k < |texts| ==> LinkedAt(texts, reps[k], k)
  }

  predicate Fits(texts: seq<seq<string>>, reps: seq<nat>) {
    |reps| == |texts| && forall k :: 0 <= k < |texts| ==> reps[k] <= |texts[k]|
  }

  /** The words said: every text without what it truly repeats. */
  function Plain(texts: seq<seq<string>>, reps: seq<nat>): seq<string>
    requires Fits(texts, reps)
  {
    if texts == [] then []
    else
      var n := |texts| - 1;
      Plain(texts[..n], reps[..n]) + texts[n][reps[n]..]
  }

  /** The words said in the first k texts. */
  function PlainTo(texts: seq<seq<string>>, reps: seq<nat>, k: nat): seq<string>
    requires Fits(texts, reps) && k <= |texts|
  {
    Plain(texts[..k], reps[..k])
  }

  /** What the assembler takes for a repeat at text k. */
  function Found(norm: string -> string, texts: seq<seq<string>>, k: nat): nat
    requires k < |texts|
  {
    Overlap(norm, Prefix(norm, texts, k), texts[k])
  }

  /** At every text the assembler removes exactly what is truly repeated. */
  predicate TrueOverlaps(norm: string -> string, texts: seq<seq<string>>, reps: seq<nat>) {
    |reps| == |texts| && forall k :: 0 <= k < |texts| ==> Found(norm, texts, k) == reps[k]
  }

  predicate Short(reps: seq<nat>) {
    forall k :: 0 <= k < |reps| ==> reps[k] <= LIMIT
  }

  // ---------------------------------------------------------------- one more text

  lemma PlainOneMore(texts: seq<seq<string>>, reps: seq<nat>, i: nat)
    requires Fits(texts, reps) && i < |texts|
    ensures PlainTo(texts, reps, i + 1) == PlainTo(texts, reps, i) + texts[i][reps[i]..]
  {
    assert texts[..i + 1][..i] == texts[..i] && reps[..i + 1][..i] == reps[..i];
  }

  lemma PrefixOneMore(norm: string -> string, texts: seq<seq<string>>, i: nat)
    requires i < |texts|
    ensures Prefix(norm, texts, i + 1) == Join(norm, Prefix(norm, texts, i), texts[i])
    ensures |Prefix(norm, texts, i + 1)| == |Prefix(norm, texts, i)| + |texts[i]| - Found(norm, texts, i)
  {
    JoinAllOneMore(norm, texts, i);
  }

  lemma LinkedOneMore(texts: seq<seq<string>>, reps: seq<nat>, text: seq<string>, rep: nat)
    requires Linked(texts, reps) && LinkedAt(texts + [text], rep, |texts|)
    ensures Linked(texts + [text], reps + [rep])
    ensures Plain(texts + [text], reps + [rep]) == Plain(texts, reps) + text[rep..]
  {
    var ts, rs := texts + [text], reps + [rep];
    forall k | 0 <= k < |texts| ensures LinkedAt(ts, rs[k], k) {
      assert LinkedAt(texts, reps[k], k);
    }
    assert ts[..|texts|] == texts && rs[..|texts|] == reps;
  }

  lemma Whole(norm: string -> string, texts: seq<seq<string>>, reps: seq<nat>)
    requires Fits(texts, reps)
    ensures Prefix(norm, texts, |texts|) == JoinAll(norm, texts)
    ensures PlainTo(texts, reps, |texts|) == Plain(texts, reps)
  {
    assert texts[..|texts|] == texts && reps[..|reps|] == reps;
  }

  // ---------------------------------------------------------------- the end of the words

  /** Whatever was removed before, the assembled words end in the last text, so the true
      repeat is always there to be seen. */
  lemma TrueRepeatIsSeen(norm: string -> string, texts: seq<seq<string>>, reps: seq<nat>, k: nat)
    requires Linked(texts, reps) && k < |texts|
    ensures Repeats(norm, Prefix(norm, texts, k), texts[k], reps[k])
  {
    assert LinkedAt(texts, reps[k], k);
    if k > 0 {
      PrefixOneMore(norm, texts, k - 1);
      JoinEndsWith(norm, Prefix(norm, texts, k - 1), texts[k - 1]);
      SuffixRepeats(norm, Prefix(norm, texts, k), texts[k - 1], texts[k], reps[k]);
    }
  }

  lemma SuffixRepeats(norm: string -> string, told: seq<string>, last: seq<string>, text: seq<string>, rep: nat)
    requires rep <= |text| && rep <= |last| <= |told| && text[..rep] == last[|last| - rep..]
    requires Keys(norm, told)[|told| - |last|..] == Keys(norm, last)
    ensures Repeats(norm, told, text, rep)
  {
    forall i | 0 <= i < rep ensures Keys(norm, told)[|told| - rep..][i] == Keys(norm, text)[..rep][i] {
      assert Keys(norm, told)[|told| - |last|..][|last| - rep + i] == Keys(norm, last)[|last| - rep + i];
      assert text[..rep][i] == last[|last| - rep..][i];
    }
  }

  lemma SeenIsFound(norm: string -> string, texts: seq<seq<string>>, reps: seq<nat>, k: nat)
    requires Linked(texts, reps) && k < |texts| && reps[k] <= LIMIT
    ensures Found(norm, texts, k) >= reps[k]
  {
    hide Repeats;
    TrueRepeatIsSeen(norm, texts, reps, k);
  }

  /** The words said so far end in the last text. */
  lemma {:induction false} PlainEndsWith(texts: seq<seq<string>>, reps: seq<nat>, k: nat)
    requires Linked(texts, reps) && Fits(texts, reps) && 0 < k <= |texts|
    ensures var said := PlainTo(texts, reps, k);
            |texts[k - 1]| <= |said| && said[|said| - |texts[k - 1]|..] == texts[k - 1]
  {
    var text, rep := texts[k - 1], reps[k - 1];
    assert LinkedAt(texts, rep, k - 1);
    PlainOneMore(texts, reps, k - 1);
    if k == 1 {
      assert PlainTo(texts, reps, 0) == [];
      assert [] + text[0..] == text;
    } else {
      hide Plain, PlainTo, Linked, Fits;
      PlainEndsWith(texts, reps, k - 1);
      EndsInRepeat(PlainTo(texts, reps, k - 1), texts[k - 2], text, rep);
    }
  }

  lemma EndsInRepeat(said: seq<string>, last: seq<string>, text: seq<string>, rep: nat)
    requires rep <= |text| && rep <= |last| <= |said|
    requires said[|said| - |last|..] == last && text[..rep] == last[|last| - rep..]
    ensures var more := said + text[rep..];
            |text| <= |more| && more[|more| - |text|..] == text
  {
    var more := said + text[rep..];
    assert said[|said| - rep..] == last[|last| - rep..];
    assert more[|more| - |text|..] == said[|said| - rep..] + text[rep..];
  }

  // ---------------------------------------------------------------- when the text is right

  lemma {:induction false} RightSoFar(norm: string -> string, texts: seq<seq<string>>, reps: seq<nat>, k: nat)
    requires Fits(texts, reps) && k <= |texts|
    requires forall j :: 0 <= j < k ==> Found(norm, texts, j) == reps[j]
    ensures Prefix(norm, texts, k) == PlainTo(texts, reps, k)
  {
    if k > 0 {
      RightSoFar(norm, texts, reps, k - 1);
      PrefixOneMore(norm, texts, k - 1);
      PlainOneMore(texts, reps, k - 1);
      hide Plain;
    }
  }

  /** The assembler never removes less than is truly repeated, so it ends up with the right
      number of words only if it never removes more. */
  lemma {:induction false} NeverTooLong(norm: string -> string, texts: seq<seq<string>>, reps: seq<nat>, k: nat)
    requires Linked(texts, reps) && Fits(texts, reps) && Short(reps) && k <= |texts|
    ensures |Prefix(norm, texts, k)| <= |PlainTo(texts, reps, k)|
    ensures |Prefix(norm, texts, k)| == |PlainTo(texts, reps, k)| ==>
              forall j :: 0 <= j < k ==> Found(norm, texts, j) == reps[j]
  {
    hide Linked, LinkedAt, Overlap, JoinAll, Plain;
    if k == 0 {
      NothingYet(norm, texts, reps);
    } else {
      NeverTooLong(norm, texts, reps, k - 1);
      SeenIsFound(norm, texts, reps, k - 1);
      PrefixOneMore(norm, texts, k - 1);
      PlainOneMore(texts, reps, k - 1);
      hide Found, Prefix, PlainTo;
    }
  }

  lemma NothingYet(norm: string -> string, texts: seq<seq<string>>, reps: seq<nat>)
    requires Fits(texts, reps)
    ensures Prefix(norm, texts, 0) == [] && PlainTo(texts, reps, 0) == []
  {
  }

  lemma LinkedFits(texts: seq<seq<string>>, reps: seq<nat>)
    requires Linked(texts, reps)
    ensures Fits(texts, reps)
  {
    forall k | 0 <= k < |texts| ensures reps[k] <= |texts[k]| {
      assert LinkedAt(texts, reps[k], k);
    }
  }

  /** At no text does a stretch longer than the true repeat, within the limit, look like a
      repeat of the words said before. */
  predicate NoLongerRepeat(norm: string -> string, texts: seq<seq<string>>, reps: seq<nat>)
    requires Fits(texts, reps)
  {
    forall k, z :: 0 <= k < |texts| && reps[k] < z <= LIMIT ==> !Repeats(norm, PlainTo(texts, reps, k), texts[k], z)
  }

  lemma {:induction false} FindsTrueRepeats(norm: string -> string, texts: seq<seq<string>>, reps: seq<nat>, k: nat)
    requires Linked(texts, reps) && Fits(texts, reps) && Short(reps) && NoLongerRepeat(norm, texts, reps)
    requires k <= |texts|
    ensures forall j :: 0 <= j < k ==> Found(norm, texts, j) == reps[j]
  {
    hide Linked, LinkedAt, Repeats, Plain, JoinAll;
    if k > 0 {
      FindsTrueRepeats(norm, texts, reps, k - 1);
      RightSoFar(norm, texts, reps, k - 1);
      SeenIsFound(norm, texts, reps, k - 1);
      hide Prefix, PlainTo, Overlap;
      assert Repeats(norm, Prefix(norm, texts, k - 1), texts[k - 1], Found(norm, texts, k - 1));
    }
  }

  lemma TrueIsNoLonger(norm: string -> string, texts: seq<seq<string>>, reps: seq<nat>)
    requires Fits(texts, reps) && TrueOverlaps(norm, texts, reps)
    ensures Short(reps) && NoLongerRepeat(norm, texts, reps)
  {
    hide Repeats, Plain, JoinAll;
    forall k | 0 <= k < |texts|
      ensures reps[k] <= LIMIT
      ensures forall z :: reps[k] < z <= LIMIT ==> !Repeats(norm, PlainTo(texts, reps, k), texts[k], z)
    {
      RightSoFar(norm, texts, reps, k);
      assert Found(norm, texts, k) == reps[k];
      hide Prefix, PlainTo;
    }
    hide PlainTo;
  }

  /** The assembler finds just the true repeats exactly when they are within its limit and
      nothing longer looks like one. */
  lemma TrueOverlapsIff(norm: string -> string, texts: seq<seq<string>>, reps: seq<nat>)
    requires Linked(texts, reps) && Fits(texts, reps)
    ensures TrueOverlaps(norm, texts, reps) <==> Short(reps) && NoLongerRepeat(norm, texts, reps)
  {
    hide Linked, Short, NoLongerRepeat, Found;
    if TrueOverlaps(norm, texts, reps) { TrueIsNoLonger(norm, texts, reps); }
    if Short(reps) && NoLongerRepeat(norm, texts, reps) { FindsTrueRepeats(norm, texts, reps, |texts|); }
  }

  /** When no true repeat is past the limit, the assembled text is right if and only if
      among the words said nothing longer looks like a repeat. Words may recur. */
  lemma RightIff(norm: string -> string, texts: seq<seq<string>>, reps: seq<nat>)
    requires Linked(texts, reps) && Fits(texts, reps) && Short(reps)
    ensures JoinAll(norm, texts) == Plain(texts, reps) <==> NoLongerRepeat(norm, texts, reps)
  {
    hide Linked, Short, NoLongerRepeat, JoinAll, Plain, Overlap, Found;
    TrueOverlapsIff(norm, texts, reps);
    Whole(norm, texts, reps);
    hide Prefix, PlainTo;
    NeverTooLong(norm, texts, reps, |texts|);
    if TrueOverlaps(norm, texts, reps) { RightSoFar(norm, texts, reps, |texts|); }
  }

  predicate RightAfterAll(norm: string -> string, texts: seq<seq<string>>, reps: seq<nat>)
    requires Fits(texts, reps)
  {
    forall k :: 0 <= k <= |texts| ==> Prefix(norm, texts, k) == PlainTo(texts, reps, k)
  }

  lemma RightMeansTrue(norm: string -> string, texts: seq<seq<string>>, reps: seq<nat>)
    requires Fits(texts, reps)
    ensures RightAfterAll(norm, texts, reps) <==> TrueOverlaps(norm, texts, reps)
  {
    hide JoinAll, Plain, Overlap, Prefix, PlainTo;
    if TrueOverlaps(norm, texts, reps) {
      forall k | 0 <= k <= |texts| ensures Prefix(norm, texts, k) == PlainTo(texts, reps, k) {
        RightSoFar(norm, texts, reps, k);
      }
    }
    if RightAfterAll(norm, texts, reps) {
      forall k | 0 <= k < |texts| ensures Found(norm, texts, k) == reps[k] {
        PrefixOneMore(norm, texts, k);
        PlainOneMore(texts, reps, k);
        assert Prefix(norm, texts, k + 1) == PlainTo(texts, reps, k + 1);
      }
    }
  }

  /** With no bound on the repeats: the text is right after every chunk if and only if no
      true repeat is past the limit and nothing longer looks like a repeat. */
  lemma RightThroughoutIff(norm: string -> string, texts: seq<seq<string>>, reps: seq<nat>)
    requires Linked(texts, reps) && Fits(texts, reps)
    ensures RightAfterAll(norm, texts, reps) <==> Short(reps) && NoLongerRepeat(norm, texts, reps)
  {
    hide Linked, Short, NoLongerRepeat, RightAfterAll, TrueOverlaps;
    RightMeansTrue(norm, texts, reps);
    TrueOverlapsIff(norm, texts, reps);
  }

  // ---------------------------------------------------------------- right by chance

  function Same(n: nat): (words: seq<string>)
    ensures |words| == n && forall i :: 0 <= i < n ==> words[i] == "a"
  {
    seq(n, _ => "a")
  }

  lemma SameRepeats(norm: string -> string, m: nat, n: nat, z: nat)
    requires z <= m && z <= n
    ensures Repeats(norm, Same(m), Same(n), z)
  {
    assert Keys(norm, Same(m))[m - z..] == Keys(norm, Same(n))[..z];
  }

  lemma SameJoin(m: nat, n: nat, z: nat)
    requires z <= n
    ensures Same(m) + Same(n)[z..] == Same(m + n - z)
  {
  }

  lemma SameOverlap(norm: string -> string, m: nat, n: nat)
    ensures var z := if m <= n then m else n;
            Overlap(norm, Same(m), Same(n)) == if z <= LIMIT then z else LIMIT
    ensures Join(norm, Same(m), Same(n)) == Same(m + n - Overlap(norm, Same(m), Same(n)))
  {
    var least := if m <= n then m else n;
    var found := Overlap(norm, Same(m), Same(n));
    assert found <= least;
    hide Same, Repeats;
    SameRepeats(norm, m, n, if least <= LIMIT then least else LIMIT);
    SameJoin(m, n, found);
  }

  /** The whole text can come out right although it was wrong in between: seventeen equal
      words, truly repeated, are one too many for the assembler, and the next one is then
      taken for a repeat. So the bound in RightIff is needed. */
  lemma RightByChance(norm: string -> string)
    ensures var texts, reps: seq<nat> := [Same(17), Same(17), Same(1)], [0, 17, 0];
            && Linked(texts, reps) && Fits(texts, reps) && !Short(reps)
            && !RightAfterAll(norm, texts, reps)
            && JoinAll(norm, texts) == Plain(texts, reps)
  {
    var texts, reps: seq<nat> := [Same(17), Same(17), Same(1)], [0, 17, 0];
    ChanceLinked(texts, reps);
    hide Linked, Same;
    Whole(norm, texts, reps);
    ChanceJoin(norm, texts);
    ChancePlain(texts, reps);
    hide Prefix, PlainTo, JoinAll, Plain;
    assert reps[1] > LIMIT;
    assert Prefix(norm, texts, 2) != PlainTo(texts, reps, 2);
  }

  lemma ChanceLinked(texts: seq<seq<string>>, reps: seq<nat>)
    requires texts == [Same(17), Same(17), Same(1)] && reps == [0, 17, 0]
    ensures Linked(texts, reps) && Fits(texts, reps)
  {
    assert LinkedAt(texts, reps[0], 0) && LinkedAt(texts, reps[1], 1) && LinkedAt(texts, reps[2], 2);
    hide LinkedAt;
  }

  lemma ChanceJoin(norm: string -> string, texts: seq<seq<string>>)
    requires texts == [Same(17), Same(17), Same(1)]
    ensures Prefix(norm, texts, 2) == Same(18) && Prefix(norm, texts, 3) == Same(18)
  {
    JoinAllEnds(norm, texts);
    JoinAllOneMore(norm, texts, 0);
    JoinAllOneMore(norm, texts, 1);
    JoinAllOneMore(norm, texts, 2);
    assert Same(0) == [];
    SameOverlap(norm, 0, 17);
    SameOverlap(norm, 17, 17);
    SameOverlap(norm, 18, 1);
  }

  lemma ChancePlain(texts: seq<seq<string>>, reps: seq<nat>)
    requires texts == [Same(17), Same(17), Same(1)] && reps == [0, 17, 0]
    ensures PlainTo(texts, reps, 2) == Same(17) && PlainTo(texts, reps, 3) == Same(18)
  {
    assert PlainTo(texts, reps, 0) == [];
    PlainOneMore(texts, reps, 0);
    PlainOneMore(texts, reps, 1);
    PlainOneMore(texts, reps, 2);
    hide PlainTo, Plain;
    assert [] + Same(17)[0..] == Same(17) && Same(17) + Same(17)[17..] == Same(17);
    assert Same(17) + Same(1)[0..] == Same(18);
  }

  // ---------------------------------------------------------------- one join

  lemma NothingFoundIff(norm: string -> string, existing: seq<string>, incoming: seq<string>)
    ensures Overlap(norm, existing, incoming) == 0
       <==> forall z :: 1 <= z <= LIMIT ==> !Repeats(norm, existing, incoming, z)
  {
    hide Repeats;
    assert Repeats(norm, existing, incoming, Overlap(norm, existing, incoming));
  }

  /** Joining keeps all words if and only if no stretch up to the limit looks like a
      repeat. Without a true repeat, whatever looks like one is lost. */
  lemma JoinKeepsAllIff(norm: string -> string, existing: seq<string>, incoming: seq<string>)
    ensures Join(norm, existing, incoming) == existing + incoming
       <==> forall z :: 1 <= z <= LIMIT ==> !Repeats(norm, existing, incoming, z)
  {
    NothingFoundIff(norm, existing, incoming);
    if Overlap(norm, existing, incoming) == 0 {
      assert incoming[0..] == incoming;
    } else {
      assert |Join(norm, existing, incoming)| < |existing + incoming|;
    }
  }

  // ---------------------------------------------------------------- distinct words

  lemma RepeatIsFull(norm: string -> string, x: seq<string>, m: seq<string>, y: seq<string>, size: nat)
    requires Distinct(norm, x + m + y)
    requires size > 0 && Repeats(norm, x + m, m + y, size)
    ensures size == |m|
  {
    var e, w := x + m, x + m + y;
    assert Keys(norm, e)[|e| - size..][0] == Keys(norm, m + y)[..size][0];
    assert norm(e[|e| - size]) == norm((m + y)[0]);
    assert w[|x|] == (m + y)[0] && w[|e| - size] == e[|e| - size];
  }

  lemma FullRepeats(norm: string -> string, x: seq<string>, m: seq<string>, y: seq<string>)
    ensures Repeats(norm, x + m, m + y, |m|)
  {
    assert Keys(norm, x + m)[|x|..] == Keys(norm, m + y)[..|m|];
  }

  /** With distinct words the overlap found is the true one, or nothing when the true
      one is longer than the limit. */
  lemma OverlapIsTrue(norm: string -> string, x: seq<string>, m: seq<string>, y: seq<string>)
    requires Distinct(norm, x + m + y)
    ensures Overlap(norm, x + m, m + y) == if |m| <= LIMIT then |m| else 0
  {
    hide Distinct, Repeats;
    var found := Overlap(norm, x + m, m + y);
    FullRepeats(norm, x, m, y);
    if found > 0 { RepeatIsFull(norm, x, m, y, found); }
  }

  /** Joining chunk text m + y to words that end in m. */
  lemma JoinIsTrue(norm: string -> string, x: seq<string>, m: seq<string>, y: seq<string>)
    requires Distinct(norm, x + m + y)
    ensures |m| <= LIMIT ==> Overlap(norm, x + m, m + y) == |m|
    ensures |m| > LIMIT ==> !Distinct(norm, Join(norm, x + m, m + y))
  {
    OverlapIsTrue(norm, x, m, y);
    var j := Join(norm, x + m, m + y);
    if |m| > LIMIT { assert j[|x|] == m[0] && j[|x| + |m|] == m[0]; }
  }

  lemma DistinctPrefix(norm: string -> string, a: seq<string>, b: seq<string>)
    requires Distinct(norm, a + b)
    ensures Distinct(norm, a)
  {
    assert forall i :: 0 <= i < |a| ==> (a + b)[i] == a[i];
  }

  lemma StillRepeated(norm: string -> string, existing: seq<string>, incoming: seq<string>)
    requires !Distinct(norm, existing)
    ensures !Distinct(norm, Join(norm, existing, incoming))
  {
    var i, j :| 0 <= i < j < |existing| && norm(existing[i]) == norm(existing[j]);
    var r := Join(norm, existing, incoming);
    assert r[i] == existing[i] && r[j] == existing[j];
  }

  /** The next text joined while all was right so far. */
  lemma DistinctStep(norm: string -> string, texts: seq<seq<string>>, reps: seq<nat>, k: nat)
    requires Linked(texts, reps) && Fits(texts, reps) && k < |texts|
    requires Prefix(norm, texts, k) == PlainTo(texts, reps, k)
    requires Distinct(norm, PlainTo(texts, reps, k + 1))
    ensures reps[k] <= LIMIT ==> Found(norm, texts, k) == reps[k]
    ensures reps[k] > LIMIT ==> !Distinct(norm, Prefix(norm, texts, k + 1))
  {
    hide Distinct, Join, JoinAll, Plain, Prefix, PlainTo, Overlap;
    var said, text, rep := PlainTo(texts, reps, k), texts[k], reps[k];
    assert LinkedAt(texts, rep, k);
    PrefixOneMore(norm, texts, k);
    PlainOneMore(texts, reps, k);
    if k > 0 { PlainEndsWith(texts, reps, k); }
    var x, m, y := said[..|said| - rep], text[..rep], text[rep..];
    assert x + m == said;
    assert m + y == text;
    JoinIsTrue(norm, x, m, y);
  }

  lemma {:induction false} DistinctSoFar(norm: string -> string, texts: seq<seq<string>>, reps: seq<nat>, k: nat)
    requires Linked(texts, reps) && Fits(texts, reps) && k <= |texts|
    requires Distinct(norm, PlainTo(texts, reps, k))
    ensures if Short(reps[..k]) then forall j :: 0 <= j < k ==> Found(norm, texts, j) == reps[j]
            else !Distinct(norm, Prefix(norm, texts, k))
  {
    hide Distinct, Join, JoinAll, Plain, Prefix, PlainTo, Overlap, Linked, Found;
    if k > 0 {
      PlainOneMore(texts, reps, k - 1);
      DistinctPrefix(norm, PlainTo(texts, reps, k - 1), texts[k - 1][reps[k - 1]..]);
      DistinctSoFar(norm, texts, reps, k - 1);
      assert Short(reps[..k]) <==> Short(reps[..k - 1]) && reps[k - 1] <= LIMIT by {
        assert reps[..k] == reps[..k - 1] + [reps[k - 1]];
        assert forall j :: 0 <= j < k - 1 ==> reps[..k][j] == reps[..k - 1][j];
        assert reps[..k][k - 1] == reps[k - 1];
      }
      if Short(reps[..k - 1]) {
        RightSoFar(norm, texts, reps, k - 1);
        DistinctStep(norm, texts, reps, k - 1);
      } else {
        PrefixOneMore(norm, texts, k - 1);
        StillRepeated(norm, Prefix(norm, texts, k - 1), texts[k - 1]);
      }
    }
  }

  /** When all words said are distinct, the overlaps are true, and the text right, if and
      only if no true repeat is past the limit. */
  lemma DistinctIff(norm: string -> string, texts: seq<seq<string>>, reps: seq<nat>)
    requires Linked(texts, reps) && Fits(texts, reps) && Distinct(norm, Plain(texts, reps))
    ensures JoinAll(norm, texts) == Plain(texts, reps) <==> Short(reps)
    ensures TrueOverlaps(norm, texts, reps) <==> Short(reps)
  {
    hide Distinct, JoinAll, Plain, Overlap, Linked, Found;
    Whole(norm, texts, reps);
    hide Prefix, PlainTo;
    assert reps[..|texts|] == reps;
    DistinctSoFar(norm, texts, reps, |texts|);
    if TrueOverlaps(norm, texts, reps) { RightSoFar(norm, texts, reps, |texts|); }
  }
}
