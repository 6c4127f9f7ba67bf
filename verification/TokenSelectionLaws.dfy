/** What accepted edits preserve: without a deleted correction the text keeps its
    canonical form; with one, everything outside the cut is kept. */
module TokenSelectionLaws {
  import opened Domain
  import opened TokenSelection

  // ---------------------------------------------------------------- canonical form

  function DropFillers(keys: seq<string>): seq<string> {
    if keys == [] then []
    else
      var k := keys[|keys| - 1];
      DropFillers(keys[..|keys| - 1]) + (if k in FILLERS then [] else [k])
  }

  /** Collapse runs of equal adjacent keys to one. */
  function Collapse(keys: seq<string>): seq<string> {
    if |keys| <= 1 then keys
    else
      Collapse(keys[..|keys| - 1]) + (if keys[|keys| - 1] == keys[|keys| - 2] then [] else [keys[|keys| - 1]])
  }

  function Canonical(keys: seq<string>): seq<string> {
    Collapse(DropFillers(keys))
  }

  /** The keys at the kept indexes below n. */
  function KeptKeys(keys: seq<string>, kept: set<int>, n: nat): seq<string>
    requires n <= |keys|
  {
    if n == 0 then [] else KeptKeys(keys, kept, n - 1) + (if n - 1 in kept then [keys[n - 1]] else [])
  }

  /** One more key on a canonical sequence. */
  function Push(c: seq<string>, k: string): seq<string> {
    if k in FILLERS || (c != [] && c[|c| - 1] == k) then c else c + [k]
  }

  lemma {:induction false} CollapseEnd(s: seq<string>)
    ensures s != [] <==> Collapse(s) != []
    ensures s != [] ==> Collapse(s)[|Collapse(s)| - 1] == s[|s| - 1]
  {
    if |s| > 1 { CollapseEnd(s[..|s| - 1]); }
  }

  lemma DropFillersPush(s: seq<string>, k: string)
    ensures DropFillers(s + [k]) == if k in FILLERS then DropFillers(s) else DropFillers(s) + [k]
  {
    assert (s + [k])[..|s + [k]| - 1] == s;
  }

  lemma CollapsePush(d: seq<string>, k: string)
    requires k !in FILLERS
    ensures Collapse(d + [k]) == Push(Collapse(d), k)
  {
    assert (d + [k])[..|d + [k]| - 1] == d;
    CollapseEnd(d);
  }

  lemma CanonicalPush(s: seq<string>, k: string)
    ensures Canonical(s + [k]) == Push(Canonical(s), k)
  {
    DropFillersPush(s, k);
    if k !in FILLERS { CollapsePush(DropFillers(s), k); }
  }

  /** Some token below n of the run that ends at n is kept. */
  ghost predicate RunKept(keys: seq<string>, kept: set<int>, n: nat)
    requires 0 < n <= |keys|
  {
    exists j :: 0 <= j < n && j in kept && SameRun(keys, n - 1, j)
  }

  ghost predicate Agree(keys: seq<string>, kept: set<int>, n: nat)
    requires n <= |keys|
  {
    var full, part := Canonical(keys[..n]), Canonical(KeptKeys(keys, kept, n));
    if n == 0 || keys[n - 1] in FILLERS then part == full
    else Push(part, keys[n - 1]) == full && (RunKept(keys, kept, n) ==> part == full)
  }

  lemma RunKeptStep(keys: seq<string>, kept: set<int>, n: nat)
    requires 0 < n < |keys| && keys[n] == keys[n - 1]
    ensures RunKept(keys, kept, n + 1) ==> n in kept || RunKept(keys, kept, n)
  {
    if RunKept(keys, kept, n + 1) && n !in kept {
      var j :| 0 <= j < n + 1 && j in kept && SameRun(keys, n, j);
      assert SameRun(keys, n - 1, j);
    }
  }

  /** A run that ends has a kept token, so both canonical forms agree there. */
  lemma RunEnds(keys: seq<string>, kept: set<int>, n: nat)
    requires n <= |keys| && Agree(keys, kept, n) && OnlySimpleDeleted(keys, kept)
    requires n == |keys| || n == 0 || keys[n] != keys[n - 1]
    ensures Canonical(KeptKeys(keys, kept, n)) == Canonical(keys[..n])
  {
    hide Canonical, KeptKeys;
    if n > 0 && keys[n - 1] !in FILLERS {
      if n - 1 in kept {
        assert SameRun(keys, n - 1, n - 1);
      } else {
        assert Duplicate(keys, kept, n - 1);
        var j :| j in kept && SameRun(keys, n - 1, j);
        assert j < n;
      }
      assert RunKept(keys, kept, n);
    }
  }

  /** Both canonical forms after token n. */
  lemma FormsStep(keys: seq<string>, kept: set<int>, n: nat)
    requires n < |keys|
    ensures Canonical(keys[..n + 1]) == Push(Canonical(keys[..n]), keys[n])
    ensures var part := Canonical(KeptKeys(keys, kept, n));
            Canonical(KeptKeys(keys, kept, n + 1)) == if n in kept then Push(part, keys[n]) else part
  {
    assert keys[..n + 1] == keys[..n] + [keys[n]];
    CanonicalPush(keys[..n], keys[n]);
    CanonicalPush(KeptKeys(keys, kept, n), keys[n]);
    hide Canonical;
    assert KeptKeys(keys, kept, n) + [] == KeptKeys(keys, kept, n);
    assert KeptKeys(keys, kept, n + 1) == KeptKeys(keys, kept, n) + (if n in kept then [keys[n]] else []);
  }

  lemma AgreeStep(keys: seq<string>, kept: set<int>, n: nat)
    requires n < |keys| && Agree(keys, kept, n) && OnlySimpleDeleted(keys, kept)
    ensures Agree(keys, kept, n + 1)
  {
    hide Canonical, KeptKeys, OnlySimpleDeleted;
    FormsStep(keys, kept, n);
    if n > 0 && keys[n] == keys[n - 1] {
      RunKeptStep(keys, kept, n);
      hide RunKept;
    } else {
      AgreeAtStart(keys, kept, n);
    }
  }

  /** Token n starts a run. */
  lemma AgreeAtStart(keys: seq<string>, kept: set<int>, n: nat)
    requires n < |keys| && Agree(keys, kept, n) && OnlySimpleDeleted(keys, kept)
    requires n > 0 ==> keys[n] != keys[n - 1]
    ensures Agree(keys, kept, n + 1)
  {
    hide Canonical, KeptKeys, OnlySimpleDeleted, RunKept;
    RunEnds(keys, kept, n);
    if RunKept(keys, kept, n + 1) { RunStartsHere(keys, kept, n); }
    FormsStep(keys, kept, n);
  }

  lemma RunStartsHere(keys: seq<string>, kept: set<int>, n: nat)
    requires n < |keys| && (n > 0 ==> keys[n] != keys[n - 1]) && RunKept(keys, kept, n + 1)
    ensures n in kept
  {
    var j :| 0 <= j < n + 1 && j in kept && SameRun(keys, n, j);
    assert j == n;
  }

  lemma {:induction false} AgreeUpTo(keys: seq<string>, kept: set<int>, n: nat)
    requires n <= |keys| && OnlySimpleDeleted(keys, kept)
    ensures Agree(keys, kept, n)
  {
    hide Agree, OnlySimpleDeleted;
    if n > 0 {
      AgreeUpTo(keys, kept, n - 1);
      AgreeStep(keys, kept, n - 1);
    } else {
      AgreeNothing(keys, kept);
    }
  }

  lemma AgreeNothing(keys: seq<string>, kept: set<int>)
    ensures Agree(keys, kept, 0)
  {
    assert keys[..0] == [];
  }

  lemma {:induction false} KeptKeysPrefix(keys: seq<string>, keep: seq<int>, n: nat, c: nat)
    requires Increasing(keep, |keys|) && n <= |keys| && c <= |keep|
    requires forall i :: 0 <= i < |keep| ==> (keep[i] < n <==> i < c)
    ensures KeptKeys(keys, SetOf(keep), n) == Selected(keys, keep)[..c]
  {
    var all := Selected(keys, keep);
    assert c > 0 ==> 0 <= keep[c - 1] < n;
    if n > 0 {
      if n - 1 in SetOf(keep) {
        var i :| 0 <= i < |keep| && keep[i] == n - 1;
        assert i < c && (i + 1 < |keep| ==> keep[i + 1] >= n);
        assert i == c - 1;
        KeptKeysPrefix(keys, keep, n - 1, c - 1);
        hide Increasing;
        assert all[..c] == all[..c - 1] + [all[c - 1]];
      } else {
        assert forall i :: 0 <= i < |keep| ==> keep[i] in keep && keep[i] != n - 1;
        KeptKeysPrefix(keys, keep, n - 1, c);
      }
    }
  }

  lemma KeptKeysAreSelected(keys: seq<string>, keep: seq<int>)
    requires Increasing(keep, |keys|)
    ensures KeptKeys(keys, SetOf(keep), |keys|) == Selected(keys, keep)
  {
    KeptKeysPrefix(keys, keep, |keys|, |keep|);
    assert Selected(keys, keep)[..|keep|] == Selected(keys, keep);
  }

  /** An accepted edit that deletes no correction marker leaves the canonical form of the
      keys unchanged: drop the fillers, collapse the repetitions, and input and output
      read the same. */
  lemma CanonicalFormKept(lex: Lexicon, tokens: seq<string>, keep: seq<int>)
    requires SafeEdit(lex, tokens, keep)
    requires forall m :: IsMarker(Keys(lex.key, tokens), m) ==> m in keep || m + 1 in keep
    ensures Canonical(Keys(lex.key, Selected(tokens, keep))) == Canonical(Keys(lex.key, tokens))
  {
    var keys, kept := Keys(lex.key, tokens), SetOf(keep);
    assert OnlySimpleDeleted(keys, kept) by {
      if HasMarker(keys) {
        var m :| IsMarker(keys, m);
        assert MarkerSafe(keys, kept, m);
      }
    }
    AgreeUpTo(keys, kept, |keys|);
    RunEnds(keys, kept, |keys|);
    assert keys[..|keys|] == keys;
    KeptKeysAreSelected(keys, keep);
    assert Keys(lex.key, Selected(tokens, keep)) == Selected(keys, keep);
  }

  // ---------------------------------------------------------------- corrections

  /** An accepted edit that deletes the correction marker at m has cut points p before it
      and q after it: tokens that are not simple are kept outside p..q and deleted inside,
      some are kept on both sides, the last meaningful token is kept, and a protected
      token is deleted only if it is a day name. */
  lemma CorrectionSpliced(lex: Lexicon, tokens: seq<string>, keep: seq<int>, m: int) returns (p: int, q: int)
    requires SafeEdit(lex, tokens, keep)
    requires IsMarker(Keys(lex.key, tokens), m) && (m !in keep || m + 1 !in keep)
    ensures var keys, kept := Keys(lex.key, tokens), SetOf(keep);
            && p <= m && m + 2 <= q
            && (forall i :: Content(keys, kept, i) ==> (i in keep <==> i < p || i >= q))
            && (exists i :: i < p && KeptContent(keys, kept, i))
            && (exists i :: i >= q && KeptContent(keys, kept, i))
            && SeamHolds(keys, kept, p, q)
            && (forall i :: 0 <= i < |tokens| && i !in keep && lex.isProtected(tokens[i], i) ==> keys[i] in DAY_NAMES)
  {
    var keys, kept := Keys(lex.key, tokens), SetOf(keep);
    assert MarkerSafe(keys, kept, m);
    p, q := SpliceCuts(keys, kept, m);
  }

  /** The last content kept before p and the first kept from q on are not both function words. */
  ghost predicate SeamHolds(keys: seq<string>, kept: set<int>, p: int, q: int) {
    exists i, j ::
      && i < p && KeptContent(keys, kept, i) && (forall k :: i < k < p ==> !KeptContent(keys, kept, k))
      && j >= q && KeptContent(keys, kept, j) && (forall k :: q <= k < j ==> !KeptContent(keys, kept, k))
      && !(keys[i] in BOUNDARY_WORDS && keys[j] in BOUNDARY_WORDS)
  }

  /** The kept tokens of every accepted edit include the last one that is neither pure
      punctuation nor a filler, and every protected token, day names next to a correction
      excepted. */
  lemma WhatEditsKeep(lex: Lexicon, tokens: seq<string>, keep: seq<int>, i: int)
    requires SafeEdit(lex, tokens, keep) && 0 <= i < |tokens|
    ensures var keys := Keys(lex.key, tokens);
            (keys[i] != "" && keys[i] !in FILLERS
             && forall j :: i < j < |keys| ==> keys[j] == "" || keys[j] in FILLERS) ==> i in keep
    ensures var keys := Keys(lex.key, tokens);
            lex.isProtected(tokens[i], i) && !(HasMarker(keys) && keys[i] in DAY_NAMES) ==> i in keep
  {
    hide DeletionsSafe;
    var keys, kept := Keys(lex.key, tokens), SetOf(keep);
    assert FinalKept(keys, kept);
    hide HasMarker;
  }

  lemma SpliceCuts(keys: seq<string>, kept: set<int>, m: int) returns (p: int, q: int)
    requires IsMarker(keys, m) && Splice(keys, kept, m)
    ensures p <= m && m + 2 <= q
    ensures forall i :: Content(keys, kept, i) ==> (i in kept <==> i < p || i >= q)
    ensures exists i :: i < p && KeptContent(keys, kept, i)
    ensures exists i :: i >= q && KeptContent(keys, kept, i)
    ensures SeamHolds(keys, kept, p, q)
  {
    hide SeamHolds, SeamAllowed, Simple;
    var p0 :| KeepsUpTo(keys, kept, 0, m, p0);
    var q0 :| KeepsFrom(keys, kept, m + 2, |keys|, q0);
    var i, j := SeamOf(keys, kept, m);
    p := if p0 <= m then p0 else m;
    q := if q0 >= m + 2 then q0 else m + 2;
    assert i < p && KeptContent(keys, kept, i);
    assert j >= q && KeptContent(keys, kept, j);
    SeamAtCuts(keys, kept, p, q, i, j);
  }

  lemma SeamOf(keys: seq<string>, kept: set<int>, m: int) returns (i: int, j: int)
    requires SeamAllowed(keys, kept, m)
    ensures Seam(keys, kept, m, i, j) && !(IsBoundaryWord(keys[i]) && IsBoundaryWord(keys[j]))
  {
    i, j :| Seam(keys, kept, m, i, j) && !(IsBoundaryWord(keys[i]) && IsBoundaryWord(keys[j]));
  }

  lemma SeamAtCuts(keys: seq<string>, kept: set<int>, p: int, q: int, i: int, j: int)
    requires LastKept(keys, kept, p, i) && FirstKept(keys, kept, q, j)
    requires !(IsBoundaryWord(keys[i]) && IsBoundaryWord(keys[j]))
    ensures SeamHolds(keys, kept, p, q)
  {
    hide Content;
  }
}
