/** Choosing the deletion threshold (metrics_for_threshold and choose_threshold in
    benchmark/cleanup/train_multilingual_tagger.py), with probabilities as reals. */
module TaggerThresholds {
  import opened Domain

  const DELETE := 1

  datatype Verdict = TrueDelete | FalseDelete | MissedDelete | TrueKeep

  datatype Metrics = Metrics(threshold: real, deletePrecision: real, deleteRecall: real, deleteF1: real,
                             falseDeleteRate: real, accuracy: real,
                             trueDeletes: nat, falseDeletes: nat, missedDeletes: nat, trueKeeps: nat)

  function Judge(probability: real, gold: int, threshold: real): Verdict {
    if probability >= threshold then
      if gold == DELETE then TrueDelete else FalseDelete
    else
      if gold == DELETE then MissedDelete else TrueKeep
  }

  /** How many words get verdict v. */
  function Count(ps: seq<real>, ls: seq<int>, threshold: real, v: Verdict): nat
    requires |ps| == |ls|
  {
    if ps == [] then 0
    else
      var n := |ps| - 1;
      Count(ps[..n], ls[..n], threshold, v) + (if Judge(ps[n], ls[n], threshold) == v then 1 else 0)
  }

  /** How many words the reference keeps. */
  function Keeps(ls: seq<int>): nat {
    if ls == [] then 0 else Keeps(ls[..|ls| - 1]) + (if ls[|ls| - 1] == DELETE then 0 else 1)
  }

  function MaxReal(a: real, b: real): real { if a >= b then a else b }

  function Ratio(part: nat, whole: nat): (r: real)
    requires part <= whole
    ensures 0.0 <= r <= 1.0
  {
    var denominator := (if whole < 1 then 1 else whole) as real;
    assert part as real <= denominator;
    part as real / denominator
  }

  function Summary(threshold: real, tp: nat, fp: nat, fn: nat, tn: nat): Metrics {
    var precision := Ratio(tp, tp + fp);
    var recall := Ratio(tp, tp + fn);
    var f1 := 2.0 * precision * recall / MaxReal(0.000000000001, precision + recall);
    Metrics(threshold, precision, recall, f1, Ratio(fp, fp + tn), Ratio(tp + tn, tp + fp + fn + tn), tp, fp, fn, tn)
  }

  /** rate is part of whole, and 0 of nothing. */
  predicate IsShare(rate: real, part: nat, whole: nat) {
    rate * whole as real == part as real && (whole == 0 ==> rate == 0.0)
  }

  /** Up to this many words F1 is not disturbed by the floor on its denominator. */
  const MANY: nat := 1_000_000_000_000

  /** What the rates mean in terms of the four counters. */
  predicate MeansCounts(m: Metrics) {
    && IsShare(m.deletePrecision, m.trueDeletes, m.trueDeletes + m.falseDeletes)
    && IsShare(m.deleteRecall, m.trueDeletes, m.trueDeletes + m.missedDeletes)
    && IsShare(m.falseDeleteRate, m.falseDeletes, m.falseDeletes + m.trueKeeps)
    && IsShare(m.accuracy, m.trueDeletes + m.trueKeeps,
               m.trueDeletes + m.falseDeletes + m.missedDeletes + m.trueKeeps)
    && (m.trueDeletes == 0 ==> m.deleteF1 == 0.0)
    && (m.trueDeletes > 0 && m.trueDeletes + m.falseDeletes <= MANY ==>
          IsShare(m.deleteF1, 2 * m.trueDeletes, 2 * m.trueDeletes + m.falseDeletes + m.missedDeletes))
  }

  predicate Falls(probability: real, gold: int, threshold: real, predicted: bool, deleted: bool) {
    (probability >= threshold) == predicted && (gold == DELETE) == deleted
  }

  /** The words predicted deleted or kept, and deleted or kept in the reference. */
  function Words(ps: seq<real>, ls: seq<int>, threshold: real, predicted: bool, deleted: bool): set<int>
    requires |ps| == |ls|
  {
    set i | 0 <= i < |ps| && Falls(ps[i], ls[i], threshold, predicted, deleted)
  }

  /** The metrics of the words at this threshold. */
  predicate Measures(ps: seq<real>, ls: seq<int>, threshold: real, m: Metrics)
    requires |ps| == |ls|
  {
    && m.threshold == threshold
    && m.trueDeletes == |Words(ps, ls, threshold, true, true)|
    && m.falseDeletes == |Words(ps, ls, threshold, true, false)|
    && m.missedDeletes == |Words(ps, ls, threshold, false, true)|
    && m.trueKeeps == |Words(ps, ls, threshold, false, false)|
    && MeansCounts(m)
  }

  lemma WordsBefore(ps: seq<real>, ls: seq<int>, t: real, predicted: bool, deleted: bool, i: int)
    requires |ps| == |ls| && ps != []
    ensures var n := |ps| - 1;
            i in Words(ps[..n], ls[..n], t, predicted, deleted) <==>
              i in Words(ps, ls, t, predicted, deleted) && i != n
  {
    hide Falls;
  }

  lemma WordsOneMore(ps: seq<real>, ls: seq<int>, t: real, predicted: bool, deleted: bool)
    requires |ps| == |ls| && ps != []
    ensures var n := |ps| - 1;
            |Words(ps, ls, t, predicted, deleted)|
              == |Words(ps[..n], ls[..n], t, predicted, deleted)|
                 + (if Falls(ps[n], ls[n], t, predicted, deleted) then 1 else 0)
  {
    var n := |ps| - 1;
    var less, more := Words(ps[..n], ls[..n], t, predicted, deleted), Words(ps, ls, t, predicted, deleted);
    assert n in more <==> Falls(ps[n], ls[n], t, predicted, deleted);
    hide Falls, Words;
    forall i ensures i in less <==> i in more && i != n {
      WordsBefore(ps, ls, t, predicted, deleted, i);
    }
    assert less == more - {n};
  }

  lemma {:induction false} CountIsSize(ps: seq<real>, ls: seq<int>, t: real, v: Verdict)
    requires |ps| == |ls|
    ensures Count(ps, ls, t, v) == |Words(ps, ls, t, v.TrueDelete? || v.FalseDelete?, v.TrueDelete? || v.MissedDelete?)|
    decreases |ps|
  {
    var predicted, deleted := v.TrueDelete? || v.FalseDelete?, v.TrueDelete? || v.MissedDelete?;
    if ps == [] {
      assert Words(ps, ls, t, predicted, deleted) == {};
    } else {
      CountIsSize(ps[..|ps| - 1], ls[..|ps| - 1], t, v);
      WordsOneMore(ps, ls, t, predicted, deleted);
      hide Words;
    }
  }

  lemma MetricsMeasure(ps: seq<real>, ls: seq<int>, t: real)
    requires |ps| == |ls|
    ensures Measures(ps, ls, t, MetricsAt(ps, ls, t))
  {
    hide MeansCounts, Count, Words;
    CountIsSize(ps, ls, t, TrueDelete);
    CountIsSize(ps, ls, t, FalseDelete);
    CountIsSize(ps, ls, t, MissedDelete);
    CountIsSize(ps, ls, t, TrueKeep);
    SummaryMeansCounts(t, Count(ps, ls, t, TrueDelete), Count(ps, ls, t, FalseDelete),
                       Count(ps, ls, t, MissedDelete), Count(ps, ls, t, TrueKeep));
  }

  lemma RatioIsShare(part: nat, whole: nat)
    requires part <= whole
    ensures IsShare(Ratio(part, whole), part, whole)
  {
    if whole > 0 { assert (part as real / whole as real) * whole as real == part as real; }
  }

  /** A share of at most MANY is not below the floor. */
  lemma ShareAboveFloor(rate: real, part: nat, whole: nat)
    requires IsShare(rate, part, whole) && 0 < part <= whole <= MANY && rate >= 0.0
    ensures rate >= 0.000000000001
  {
    var many := 1000000000000.0;
    assert whole as real <= many;
    Scale(rate, whole as real, many);
    AtLeastOne(part);
    assert rate * many >= part as real;
  }

  lemma AtLeastOne(part: nat)
    requires part > 0
    ensures part as real >= 1.0
  {
  }

  lemma Scale(rate: real, less: real, more: real)
    requires rate >= 0.0 && less <= more
    ensures rate * less <= rate * more
  {
  }

  /** The harmonic mean of tp / a and tp / b is 2 tp / (a + b). */
  lemma HarmonicMean(p: real, r: real, f1: real, tp: real, a: real, b: real)
    requires p * a == tp && r * b == tp && f1 * (p + r) == 2.0 * p * r
    requires tp > 0.0 && a > 0.0 && b > 0.0
    ensures f1 * (a + b) == 2.0 * tp
  {
    assert f1 * (p + r) * (a * b) == 2.0 * p * r * (a * b);
    assert (p + r) * (a * b) == (p * a) * b + (r * b) * a;
    assert (p + r) * (a * b) == tp * (a + b);
    assert f1 * (p + r) * (a * b) == f1 * ((p + r) * (a * b));
    assert 2.0 * p * r * (a * b) == 2.0 * (p * a) * (r * b);
    assert f1 * (tp * (a + b)) == 2.0 * tp * tp;
    assert tp * (f1 * (a + b)) == tp * (2.0 * tp);
    Cancel(tp, f1 * (a + b), 2.0 * tp);
  }

  lemma Cancel(k: real, x: real, y: real)
    requires k > 0.0 && k * x == k * y
    ensures x == y
  {
  }

  lemma F1IsShare(tp: nat, fp: nat, fn: nat)
    requires tp > 0 && tp + fp <= MANY
    ensures var p, r := Ratio(tp, tp + fp), Ratio(tp, tp + fn);
            IsShare(2.0 * p * r / MaxReal(0.000000000001, p + r), 2 * tp, 2 * tp + fp + fn)
  {
    var p, r := Ratio(tp, tp + fp), Ratio(tp, tp + fn);
    RatioIsShare(tp, tp + fp);
    RatioIsShare(tp, tp + fn);
    hide Ratio;
    ShareAboveFloor(p, tp, tp + fp);
    var f1 := 2.0 * p * r / (p + r);
    assert f1 * (p + r) == 2.0 * p * r;
    HarmonicMean(p, r, f1, tp as real, (tp + fp) as real, (tp + fn) as real);
  }

  lemma SummaryMeansCounts(threshold: real, tp: nat, fp: nat, fn: nat, tn: nat)
    ensures MeansCounts(Summary(threshold, tp, fp, fn, tn))
  {
    RatioIsShare(tp, tp + fp);
    RatioIsShare(tp, tp + fn);
    RatioIsShare(fp, fp + tn);
    RatioIsShare(tp + tn, tp + fp + fn + tn);
    if tp > 0 && tp + fp <= MANY {
      F1IsShare(tp, fp, fn);
    }
    if tp == 0 { NoF1(fp, fn); }
    hide Ratio, IsShare, MaxReal;
  }

  lemma NoF1(fp: nat, fn: nat)
    ensures var p, r := Ratio(0, fp), Ratio(0, fn);
            2.0 * p * r / MaxReal(0.000000000001, p + r) == 0.0
  {
    assert Ratio(0, fp) == 0.0 && Ratio(0, fn) == 0.0;
  }

  function MetricsAt(ps: seq<real>, ls: seq<int>, threshold: real): Metrics
    requires |ps| == |ls|
  {
    Summary(threshold, Count(ps, ls, threshold, TrueDelete), Count(ps, ls, threshold, FalseDelete),
            Count(ps, ls, threshold, MissedDelete), Count(ps, ls, threshold, TrueKeep))
  }

  /** The strict zip raises when the lists differ in length: no metrics then. */
  method MetricsForThreshold(probabilities: seq<real>, labels: seq<int>, threshold: real)
    returns (r: Option<Metrics>)
    ensures r.Some? <==> |probabilities| == |labels|
    ensures r.Some? ==> r.value == MetricsAt(probabilities, labels, threshold)
    ensures r.Some? ==> Measures(probabilities, labels, threshold, r.value)
    ensures r.Some? ==>
              r.value.trueDeletes + r.value.falseDeletes + r.value.missedDeletes + r.value.trueKeeps == |labels|
  {
    if |probabilities| != |labels| {
      return None;
    }
    var tp, fp, fn, tn := 0, 0, 0, 0;
    for i := 0 to |labels|
      invariant tp == Count(probabilities[..i], labels[..i], threshold, TrueDelete)
      invariant fp == Count(probabilities[..i], labels[..i], threshold, FalseDelete)
      invariant fn == Count(probabilities[..i], labels[..i], threshold, MissedDelete)
      invariant tn == Count(probabilities[..i], labels[..i], threshold, TrueKeep)
    {
      assert probabilities[..i + 1][..i] == probabilities[..i] && labels[..i + 1][..i] == labels[..i];
      var predictedDelete := probabilities[i] >= threshold;
      if predictedDelete && labels[i] == DELETE {
        tp := tp + 1;
      } else if predictedDelete {
        fp := fp + 1;
      } else if labels[i] == DELETE {
        fn := fn + 1;
      } else {
        tn := tn + 1;
      }
    }
    assert probabilities[..|labels|] == probabilities && labels[..|labels|] == labels;
    CountsPartition(probabilities, labels, threshold);
    MetricsMeasure(probabilities, labels, threshold);
    hide Measures;
    r := Some(Summary(threshold, tp, fp, fn, tn));
  }

  /** The four verdicts partition the words; false deletes and true keeps partition the
      words to keep, whatever the threshold. */
  lemma {:induction false} CountsPartition(ps: seq<real>, ls: seq<int>, t: real)
    requires |ps| == |ls|
    ensures Count(ps, ls, t, TrueDelete) + Count(ps, ls, t, MissedDelete) == |ls| - Keeps(ls)
    ensures Count(ps, ls, t, FalseDelete) + Count(ps, ls, t, TrueKeep) == Keeps(ls)
  {
    if ps != [] {
      CountsPartition(ps[..|ps| - 1], ls[..|ps| - 1], t);
    }
  }

  lemma {:induction false} FalseDeletesFall(ps: seq<real>, ls: seq<int>, t: real, u: real)
    requires |ps| == |ls| && t <= u
    ensures Count(ps, ls, u, FalseDelete) <= Count(ps, ls, t, FalseDelete)
  {
    if ps != [] {
      FalseDeletesFall(ps[..|ps| - 1], ls[..|ps| - 1], t, u);
    }
  }

  lemma RatioMonotone(a: nat, b: nat, whole: nat)
    requires a <= b <= whole
    ensures Ratio(a, whole) <= Ratio(b, whole)
  {
    DivisionMonotone(a as real, b as real, (if whole < 1 then 1 else whole) as real);
  }

  lemma DivisionMonotone(x: real, y: real, d: real)
    requires x <= y && d > 0.0
    ensures x / d <= y / d
  {
    assert (y - x) / d >= 0.0;
    assert y / d - x / d == (y - x) / d;
  }

  /** A stricter threshold never has a higher false-delete rate. */
  lemma RateFalls(ps: seq<real>, ls: seq<int>, t: real, u: real)
    requires |ps| == |ls| && t <= u
    ensures MetricsAt(ps, ls, u).falseDeleteRate <= MetricsAt(ps, ls, t).falseDeleteRate
  {
    FalseDeletesFall(ps, ls, t, u);
    CountsPartition(ps, ls, t);
    CountsPartition(ps, ls, u);
    RatioMonotone(Count(ps, ls, u, FalseDelete), Count(ps, ls, t, FalseDelete), Keeps(ls));
  }

  // ---------------------------------------------------------------- choosing

  const CANDIDATES: seq<real> := [0.5, 0.6, 0.7, 0.75, 0.8, 0.85, 0.9, 0.925, 0.95, 0.975, 0.99, 0.995]

  function AllMetrics(ps: seq<real>, ls: seq<int>): (ms: seq<Metrics>)
    requires |ps| == |ls|
    ensures |ms| == |CANDIDATES|
    ensures forall k :: 0 <= k < |ms| ==> ms[k] == MetricsAt(ps, ls, CANDIDATES[k])
  {
    seq(|CANDIDATES|, k requires 0 <= k < |CANDIDATES| => MetricsAt(ps, ls, CANDIDATES[k]))
  }

  predicate Eligible(m: Metrics, ceiling: real) {
    m.falseDeleteRate <= ceiling
  }

  /** The order of the selection key: F1, then precision, then threshold. */
  predicate AtMost(a: Metrics, b: Metrics) {
    || a.deleteF1 < b.deleteF1
    || (a.deleteF1 == b.deleteF1 && (a.deletePrecision < b.deletePrecision
        || (a.deletePrecision == b.deletePrecision && a.threshold <= b.threshold)))
  }

  /** best has the highest F1, among those the highest precision, among those the highest
      threshold. */
  predicate NoBetter(m: Metrics, best: Metrics) {
    && m.deleteF1 <= best.deleteF1
    && (m.deleteF1 == best.deleteF1 ==> m.deletePrecision <= best.deletePrecision)
    && (m.deleteF1 == best.deleteF1 && m.deletePrecision == best.deletePrecision ==> m.threshold <= best.threshold)
  }

  /** max(pool, key=...): the first greatest metrics. */
  method Greatest(pool: seq<Metrics>) returns (best: Metrics)
    requires pool != []
    ensures best in pool && forall m :: m in pool ==> NoBetter(m, best)
  {
    best := pool[0];
    for i := 1 to |pool|
      invariant best in pool
      invariant forall j :: 0 <= j < i ==> AtMost(pool[j], best)
    {
      if !AtMost(pool[i], best) {
        best := pool[i];
      }
    }
  }

  function EligibleOf(ms: seq<Metrics>, ceiling: real): (r: seq<Metrics>)
    ensures forall m :: m in r <==> m in ms && Eligible(m, ceiling)
  {
    if ms == [] then []
    else
      assert forall m :: m in ms <==> m in ms[..|ms| - 1] || m == ms[|ms| - 1];
      EligibleOf(ms[..|ms| - 1], ceiling)
        + (if Eligible(ms[|ms| - 1], ceiling) then [ms[|ms| - 1]] else [])
  }

  datatype Choice = Choice(selected: Metrics, metrics: seq<Metrics>)

  /** The chosen candidate is the greatest of the eligible ones, or of all when none is;
      it meets the ceiling exactly when the strictest candidate does. */
  ghost predicate RightChoice(ps: seq<real>, ls: seq<int>, ceiling: real, choice: Choice)
    requires |ps| == |ls|
  {
    var Choice(selected, metrics) := choice;
    && metrics == AllMetrics(ps, ls)
    && selected in metrics
    && (selected.falseDeleteRate <= ceiling <==> metrics[|metrics| - 1].falseDeleteRate <= ceiling)
    && (forall m :: m in metrics && (m.falseDeleteRate <= ceiling || selected.falseDeleteRate > ceiling) ==>
          NoBetter(m, selected))
  }

  method ChooseThreshold(probabilities: seq<real>, labels: seq<int>, ceiling: real) returns (r: Option<Choice>)
    ensures r.Some? <==> |probabilities| == |labels|
    ensures r.Some? ==> RightChoice(probabilities, labels, ceiling, r.value)
    ensures r.Some? ==> |r.value.metrics| == |CANDIDATES|
    ensures r.Some? ==> forall k :: 0 <= k < |CANDIDATES| ==>
              Measures(probabilities, labels, CANDIDATES[k], r.value.metrics[k])
  {
    if |probabilities| != |labels| {
      return None;
    }
    hide MetricsAt, Measures, NoBetter, EligibleOf, RightChoice, AllMetrics;
    var metrics := MetricsForAll(probabilities, labels);
    var eligible := EligibleOf(metrics, ceiling);
    var selected := Greatest(if eligible != [] then eligible else metrics);
    ChosenFromPool(probabilities, labels, ceiling, selected);
    r := Some(Choice(selected, metrics));
  }

  method MetricsForAll(probabilities: seq<real>, labels: seq<int>) returns (metrics: seq<Metrics>)
    requires |probabilities| == |labels|
    ensures metrics == AllMetrics(probabilities, labels)
    ensures forall k :: 0 <= k < |metrics| ==> Measures(probabilities, labels, CANDIDATES[k], metrics[k])
  {
    hide MetricsAt, Measures;
    metrics := [];
    for k := 0 to |CANDIDATES|
      invariant |metrics| == k
      invariant forall j :: 0 <= j < k ==> metrics[j] == MetricsAt(probabilities, labels, CANDIDATES[j])
      invariant forall j :: 0 <= j < k ==> Measures(probabilities, labels, CANDIDATES[j], metrics[j])
    {
      var m := MetricsForThreshold(probabilities, labels, CANDIDATES[k]);
      metrics := metrics + [m.value];
    }
  }

  lemma ChosenFromPool(ps: seq<real>, ls: seq<int>, ceiling: real, selected: Metrics)
    requires |ps| == |ls|
    requires var ms := AllMetrics(ps, ls);
             var eligible := EligibleOf(ms, ceiling);
             var pool := if eligible != [] then eligible else ms;
             selected in pool && forall m :: m in pool ==> NoBetter(m, selected)
    ensures RightChoice(ps, ls, ceiling, Choice(selected, AllMetrics(ps, ls)))
  {
    hide NoBetter, EligibleOf, MetricsAt;
    StrictestDecides(ps, ls, ceiling);
    var ms := AllMetrics(ps, ls);
    var eligible := EligibleOf(ms, ceiling);
    if eligible == [] {
      assert forall m :: m in ms ==> m !in eligible;
    } else {
      assert eligible[0] in ms && Eligible(eligible[0], ceiling);
    }
  }

  /** Eligible candidates form a suffix of the ascending list, so one exists exactly when
      the strictest candidate is eligible. */
  lemma StrictestDecides(ps: seq<real>, ls: seq<int>, ceiling: real)
    requires |ps| == |ls|
    ensures var ms := AllMetrics(ps, ls);
            && (forall j, k :: 0 <= j <= k < |ms| && Eligible(ms[j], ceiling) ==> Eligible(ms[k], ceiling))
            && ((exists m :: m in ms && Eligible(m, ceiling)) <==> Eligible(ms[|ms| - 1], ceiling))
  {
    var ms := AllMetrics(ps, ls);
    forall j, k | 0 <= j <= k < |ms| && Eligible(ms[j], ceiling) ensures Eligible(ms[k], ceiling) {
      Ascending(j, k);
      RateFalls(ps, ls, CANDIDATES[j], CANDIDATES[k]);
    }
    assert ms[|ms| - 1] in ms;
  }

  lemma Ascending(j: nat, k: nat)
    requires j <= k < |CANDIDATES|
    ensures CANDIDATES[j] <= CANDIDATES[k]
    decreases k - j
  {
    if j < k { Ascending(j + 1, k); }
  }
}
