/** Word error counting: the two-row edit distance of speaktap/benchmark/benchmark.py
    (score) and benchmark/cleanup/run_candidate.py (_edit_distance), for words or
    characters alike. */
module EditDistance {

  /** One step of an edit script, read from left to right. */
  datatype Edit<K> = Pair(x: K, y: K) | Delete(x: K) | Insert(y: K)

  function Source<K>(script: seq<Edit<K>>): seq<K> {
    if script == [] then []
    else
      var e := script[|script| - 1];
      Source(script[..|script| - 1]) + (if e.Insert? then [] else [e.x])
  }

  function Target<K>(script: seq<Edit<K>>): seq<K> {
    if script == [] then []
    else
      var e := script[|script| - 1];
      Target(script[..|script| - 1]) + (if e.Delete? then [] else [e.y])
  }

  /** A pair of equal items is free; a substitution, deletion or insertion costs one. */
  function EditCost<K(==)>(e: Edit<K>): nat {
    if e.Pair? && e.x == e.y then 0 else 1
  }

  function Cost<K(==)>(script: seq<Edit<K>>): nat {
    if script == [] then 0 else Cost(script[..|script| - 1]) + EditCost(script[|script| - 1])
  }

  /** script turns a into b. */
  predicate Edits<K(==)>(script: seq<Edit<K>>, a: seq<K>, b: seq<K>) {
    Source(script) == a && Target(script) == b
  }

  function Min3(a: nat, b: nat, c: nat): nat {
    if a <= b && a <= c then a else if b <= c then b else c
  }

  function Distance<K(==)>(a: seq<K>, b: seq<K>): nat {
    if a == [] then |b|
    else if b == [] then |a|
    else
      var a', b' := a[..|a| - 1], b[..|b| - 1];
      Min3(Distance(a, b') + 1, Distance(a', b) + 1,
           Distance(a', b') + (if a[|a| - 1] != b[|b| - 1] then 1 else 0))
  }

  /** n is the least cost of any script turning a into b. */
  ghost predicate LeastCost<K(!new)>(n: nat, a: seq<K>, b: seq<K>) {
    && (exists script :: Edits(script, a, b) && Cost(script) == n)
    && (forall script :: Edits(script, a, b) ==> n <= Cost(script))
  }

  lemma OneMore<K>(script: seq<Edit<K>>, e: Edit<K>)
    ensures Source(script + [e]) == Source(script) + (if e.Insert? then [] else [e.x])
    ensures Target(script + [e]) == Target(script) + (if e.Delete? then [] else [e.y])
    ensures Cost(script + [e]) == Cost(script) + EditCost(e)
  {
    assert (script + [e])[..|script|] == script;
  }

  lemma Extended<K>(prefix: seq<Edit<K>>, e: Edit<K>, a: seq<K>, b: seq<K>)
    requires e.Insert? || (a != [] && e.x == a[|a| - 1])
    requires e.Delete? || (b != [] && e.y == b[|b| - 1])
    requires Edits(prefix, if e.Insert? then a else a[..|a| - 1], if e.Delete? then b else b[..|b| - 1])
    ensures Edits(prefix + [e], a, b) && Cost(prefix + [e]) == Cost(prefix) + EditCost(e)
  {
    OneMore(prefix, e);
    hide Source, Target, Cost;
    if a != [] { assert a == a[..|a| - 1] + [a[|a| - 1]]; }
    if b != [] { assert b == b[..|b| - 1] + [b[|b| - 1]]; }
  }

  /** The last edit of a cheapest script. */
  function LastEdit<K(==)>(a: seq<K>, b: seq<K>): Edit<K>
    requires a != [] || b != []
  {
    if b != [] && (a == [] || Distance(a, b) == Distance(a, b[..|b| - 1]) + 1) then Insert(b[|b| - 1])
    else if b == [] || Distance(a, b) == Distance(a[..|a| - 1], b) + 1 then Delete(a[|a| - 1])
    else Pair(a[|a| - 1], b[|b| - 1])
  }

  lemma LastEditCost<K>(a: seq<K>, b: seq<K>)
    requires a != [] || b != []
    ensures var e := LastEdit(a, b);
            && (!e.Insert? ==> a != []) && (!e.Delete? ==> b != [])
            && Distance(a, b) == Distance(if e.Insert? then a else a[..|a| - 1],
                                          if e.Delete? then b else b[..|b| - 1]) + EditCost(e)
  {
  }

  /** Some script costs exactly the distance. */
  lemma {:induction false} Attained<K>(a: seq<K>, b: seq<K>) returns (script: seq<Edit<K>>)
    ensures Edits(script, a, b) && Cost(script) == Distance(a, b)
    decreases |a| + |b|
  {
    if a == [] && b == [] {
      script := [];
    } else {
      var e := LastEdit(a, b);
      LastEditCost(a, b);
      var prefix := Attained(if e.Insert? then a else a[..|a| - 1], if e.Delete? then b else b[..|b| - 1]);
      Extended(prefix, e, a, b);
      script := prefix + [e];
    }
  }

  /** No script costs less than the distance. */
  lemma {:induction false} LowerBound<K>(script: seq<Edit<K>>)
    ensures Distance(Source(script), Target(script)) <= Cost(script)
  {
    if script != [] {
      var prefix, e := script[..|script| - 1], script[|script| - 1];
      LowerBound(prefix);
      DistanceStep(Source(prefix), Target(prefix), e);
    }
  }

  lemma DistanceStep<K>(a: seq<K>, b: seq<K>, e: Edit<K>)
    ensures Distance(a + (if e.Insert? then [] else [e.x]), b + (if e.Delete? then [] else [e.y]))
         <= Distance(a, b) + EditCost(e)
  {
    var a' := a + (if e.Insert? then [] else [e.x]);
    var b' := b + (if e.Delete? then [] else [e.y]);
    if !e.Insert? { assert a'[..|a|] == a; }
    if !e.Delete? { assert b'[..|b|] == b; }
    if e.Insert? { assert a' == a; }
    if e.Delete? { assert b' == b; }
    DistanceAtMostLengths(a, b);
    DistanceAtLeastLengths(a, b);
  }

  lemma {:induction false} DistanceAtMostLengths<K>(a: seq<K>, b: seq<K>)
    ensures Distance(a, b) <= if |a| >= |b| then |a| else |b|
  {
    if a != [] && b != [] { DistanceAtMostLengths(a[..|a| - 1], b[..|b| - 1]); }
  }

  lemma {:induction false} DistanceAtLeastLengths<K>(a: seq<K>, b: seq<K>)
    ensures Distance(a, b) >= if |a| >= |b| then |a| - |b| else |b| - |a|
    decreases |a| + |b|
  {
    if a != [] && b != [] {
      DistanceAtLeastLengths(a, b[..|b| - 1]);
      DistanceAtLeastLengths(a[..|a| - 1], b);
      DistanceAtLeastLengths(a[..|a| - 1], b[..|b| - 1]);
    }
  }

  lemma DistanceIsLeastCost<K(!new)>(a: seq<K>, b: seq<K>)
    ensures LeastCost(Distance(a, b), a, b)
  {
    var best := Attained(a, b);
    forall script | Edits(script, a, b) ensures Distance(a, b) <= Cost(script) {
      LowerBound(script);
    }
  }

  // ---------------------------------------------------------------- the two rows

  /** Row i of the table: distances from a to every prefix of b. */
  predicate IsRow<K(==)>(row: seq<nat>, a: seq<K>, b: seq<K>, n: nat) {
    |row| == n <= |b| + 1 && forall j :: 0 <= j < n ==> row[j] == Distance(a, b[..j])
  }

  /** One cell of the table from its three neighbours. */
  lemma Cell<K>(a: seq<K>, b: seq<K>, i: nat, j: nat)
    requires i < |a| && j < |b|
    ensures Distance(a[..i + 1], b[..j + 1])
         == Min3(Distance(a[..i + 1], b[..j]) + 1, Distance(a[..i], b[..j + 1]) + 1,
                 Distance(a[..i], b[..j]) + (if a[i] != b[j] then 1 else 0))
  {
    assert a[..i + 1][..i] == a[..i] && b[..j + 1][..j] == b[..j];
  }

  method Score<K(==, !new)>(expected: seq<K>, actual: seq<K>) returns (errors: nat, referenceWords: nat)
    ensures LeastCost(errors, expected, actual)
    ensures errors == Distance(expected, actual)
    ensures referenceWords == |expected|
  {
    hide Distance, LeastCost;
    DistanceIsLeastCost(expected, actual);
    FirstRow(actual);
    var previous: seq<nat> := seq(|actual| + 1, j => j);
    assert expected[..0] == [];
    for i := 0 to |expected|
      invariant IsRow(previous, expected[..i], actual, |actual| + 1)
    {
      FirstColumn(expected, i + 1);
      var current: seq<nat> := [i + 1];
      assert actual[..0] == [];
      for j := 0 to |actual|
        invariant IsRow(current, expected[..i + 1], actual, j + 1)
      {
        Cell(expected, actual, i, j);
        var substitution := previous[j] + (if expected[i] != actual[j] then 1 else 0);
        current := current + [Min3(current[j] + 1, previous[j + 1] + 1, substitution)];
      }
      previous := current;
    }
    assert expected[..|expected|] == expected && actual[..|actual|] == actual;
    errors := previous[|previous| - 1];
    referenceWords := |expected|;
  }

  lemma FirstRow<K>(b: seq<K>)
    ensures forall j :: 0 <= j <= |b| ==> Distance([], b[..j]) == j
  {
  }

  lemma FirstColumn<K>(a: seq<K>, i: nat)
    requires i <= |a|
    ensures Distance(a[..i], []) == i
  {
  }

  // ---------------------------------------------------------------- metric laws

  /** The same script read backwards in direction: from b to a. */
  function Inverse<K>(script: seq<Edit<K>>): seq<Edit<K>> {
    if script == [] then []
    else
      var e := script[|script| - 1];
      Inverse(script[..|script| - 1])
        + [match e case Pair(x, y) => Pair(y, x) case Delete(x) => Insert(x) case Insert(y) => Delete(y)]
  }

  lemma {:induction false} InverseEdits<K>(script: seq<Edit<K>>)
    ensures Source(Inverse(script)) == Target(script)
    ensures Target(Inverse(script)) == Source(script)
    ensures Cost(Inverse(script)) == Cost(script)
  {
    if script != [] {
      var p := script[..|script| - 1];
      InverseEdits(p);
      var q := Inverse(script);
      OneMore(Inverse(p), q[|q| - 1]);
      assert q == Inverse(p) + [q[|q| - 1]];
    }
  }

  lemma {:induction false} Symmetric<K>(a: seq<K>, b: seq<K>)
    ensures Distance(a, b) == Distance(b, a)
  {
    var s := Attained(a, b);
    InverseEdits(s);
    LowerBound(Inverse(s));
    var t := Attained(b, a);
    InverseEdits(t);
    LowerBound(Inverse(t));
  }

  /** The distance is zero exactly for equal sequences. */
  lemma {:induction false} ZeroIffEqual<K>(a: seq<K>, b: seq<K>)
    ensures Distance(a, b) == 0 <==> a == b
  {
    if a != [] && b != [] {
      ZeroIffEqual(a[..|a| - 1], b[..|b| - 1]);
      if a == b || Distance(a, b) == 0 {
        assert a == a[..|a| - 1] + [a[|a| - 1]] && b == b[..|b| - 1] + [b[|b| - 1]];
      }
    }
  }

  /** Composing a script from a to b with one from b to c costs at most their sum. */
  lemma {:induction false} Composed<K>(s: seq<Edit<K>>, t: seq<Edit<K>>) returns (u: seq<Edit<K>>)
    requires Target(s) == Source(t)
    ensures Edits(u, Source(s), Target(t)) && Cost(u) <= Cost(s) + Cost(t)
    decreases |s| + |t|
  {
    if s == [] && t == [] {
      u := [];
    } else if t != [] && t[|t| - 1].Insert? {
      u := Composed(s, t[..|t| - 1]);
      OneMore(u, t[|t| - 1]);
      u := u + [t[|t| - 1]];
    } else if s != [] && s[|s| - 1].Delete? {
      u := Composed(s[..|s| - 1], t);
      OneMore(u, s[|s| - 1]);
      u := u + [s[|s| - 1]];
    } else {
      u := ComposedPair(s, t);
    }
  }

  /** Both scripts end on the same item of the middle sequence. */
  lemma {:induction false} ComposedPair<K>(s: seq<Edit<K>>, t: seq<Edit<K>>) returns (u: seq<Edit<K>>)
    requires Target(s) == Source(t) && (s != [] || t != [])
    requires (t != [] ==> !t[|t| - 1].Insert?) && (s != [] ==> !s[|s| - 1].Delete?)
    ensures Edits(u, Source(s), Target(t)) && Cost(u) <= Cost(s) + Cost(t)
    decreases |s| + |t|, 0
  {
    assert s != [] && t != [];
    var p, q, d, e := s[..|s| - 1], t[..|t| - 1], s[|s| - 1], t[|t| - 1];
    assert Target(p) == Target(s)[..|Target(s)| - 1] && Source(q) == Source(t)[..|Source(t)| - 1];
    assert d.y == e.x by { assert Target(s)[|Target(s)| - 1] == Source(t)[|Source(t)| - 1]; }
    u := Composed(p, q);
    match (d, e) {
      case (Pair(x, _), Pair(_, y)) => OneMore(u, Pair(x, y)); u := u + [Pair(x, y)];
      case (Pair(x, _), Delete(_)) => OneMore(u, Delete(x)); u := u + [Delete(x)];
      case (Insert(_), Pair(_, y)) => OneMore(u, Insert(y)); u := u + [Insert(y)];
      case (Insert(_), Delete(_)) =>
    }
  }

  lemma {:induction false} Triangle<K>(a: seq<K>, b: seq<K>, c: seq<K>)
    ensures Distance(a, c) <= Distance(a, b) + Distance(b, c)
  {
    var s := Attained(a, b);
    var t := Attained(b, c);
    var u := Composed(s, t);
    LowerBound(u);
  }

  /** The score lies between the difference of the lengths and the larger length. */
  lemma {:induction false} Bounds<K>(a: seq<K>, b: seq<K>)
    ensures |a| - |b| <= Distance(a, b) && |b| - |a| <= Distance(a, b)
    ensures Distance(a, b) <= |a| || Distance(a, b) <= |b|
  {
    DistanceAtMostLengths(a, b);
    DistanceAtLeastLengths(a, b);
  }
}
