/** `calibrate_threshold` and `_percentile` of the evaluation module. */
module Calibration {
  import opened Text
  import opened Domain

  /** A labelled case with what the classifier made of it. */
  datatype Case = Case(expectedHandoff: bool, expectedIntent: Intent, predicted: Intent, confidence: real)

  datatype Costs = Costs(falseAccept: int, falseHandoff: int, safetyMargin: real)

  datatype Row = Row(threshold: real, correct: nat, falseAccepts: nat, falseHandoffs: nat, cost: int)

  predicate AutoRoutes(c: Case, threshold: real) {
    c.predicted != Unknown && c.confidence >= threshold
  }

  predicate IsFalseAccept(c: Case, threshold: real) { AutoRoutes(c, threshold) && c.expectedHandoff }

  predicate IsFalseHandoff(c: Case, threshold: real) { !AutoRoutes(c, threshold) && !c.expectedHandoff }

  predicate IsCorrect(c: Case, threshold: real) { AutoRoutes(c, threshold) == !c.expectedHandoff }

  datatype Verdict = FalseAccept | FalseHandoff | Correct

  predicate Judged(c: Case, threshold: real, v: Verdict) {
    match v
    case FalseAccept => IsFalseAccept(c, threshold)
    case FalseHandoff => IsFalseHandoff(c, threshold)
    case Correct => IsCorrect(c, threshold)
  }

  /** The positions of the cases with this verdict. */
  function With(cases: seq<Case>, threshold: real, v: Verdict): set<nat> {
    set i: nat | i < |cases| && Judged(cases[i], threshold, v)
  }

  function RowFor(cases: seq<Case>, threshold: real, costs: Costs): Row {
    var accepts, handoffs := |With(cases, threshold, FalseAccept)|, |With(cases, threshold, FalseHandoff)|;
    Row(threshold, |With(cases, threshold, Correct)|, accepts, handoffs,
        accepts * costs.falseAccept + handoffs * costs.falseHandoff)
  }

  /** The cases answered at this threshold: the intent is known and the confidence reaches the threshold. */
  function Answered(cases: seq<Case>, threshold: real): set<nat> {
    set i: nat | i < |cases| && cases[i].predicted != Unknown && cases[i].confidence >= threshold
  }

  function Labelled(cases: seq<Case>, handoff: bool): set<nat> {
    set i: nat | i < |cases| && cases[i].expectedHandoff == handoff
  }

  lemma FalseAcceptsAre(cases: seq<Case>, threshold: real)
    ensures With(cases, threshold, FalseAccept) == Answered(cases, threshold) * Labelled(cases, true)
  {
  }

  lemma FalseHandoffsAre(cases: seq<Case>, threshold: real)
    ensures With(cases, threshold, FalseHandoff) == Labelled(cases, false) - Answered(cases, threshold)
  {
  }

  lemma CorrectAre(cases: seq<Case>, threshold: real)
    ensures With(cases, threshold, Correct) ==
      Answered(cases, threshold) * Labelled(cases, false) + (Labelled(cases, true) - Answered(cases, threshold))
    ensures Labelled(cases, true) !! Labelled(cases, false)
  {
  }

  /**
   * A row counts the cases answered although they should be handed off, the cases handed off although they
   * should be answered, and the rest, and weighs each kind of error by its own cost.
   */
  lemma RowCounts(cases: seq<Case>, threshold: real, costs: Costs)
    ensures var row := RowFor(cases, threshold, costs);
      var answered, toHandOff, toAnswer := Answered(cases, threshold), Labelled(cases, true), Labelled(cases, false);
      && row.threshold == threshold
      && row.falseAccepts == |answered * toHandOff|
      && row.falseHandoffs == |toAnswer - answered|
      && row.correct == |answered * toAnswer| + |toHandOff - answered|
      && row.cost == costs.falseAccept * row.falseAccepts + costs.falseHandoff * row.falseHandoffs
  {
    FalseAcceptsAre(cases, threshold);
    FalseHandoffsAre(cases, threshold);
    CorrectAre(cases, threshold);
    hide With, Answered, Labelled;
    DisjointCount(Answered(cases, threshold) * Labelled(cases, false),
        Labelled(cases, true) - Answered(cases, threshold));
  }

  lemma DisjointCount(a: set<nat>, b: set<nat>)
    requires a !! b
    ensures |a + b| == |a| + |b|
  {
  }

  lemma WithOneMore(cases: seq<Case>, i: nat, threshold: real, v: Verdict)
    requires i < |cases|
    ensures |With(cases[..i + 1], threshold, v)|
        == |With(cases[..i], threshold, v)| + (if Judged(cases[i], threshold, v) then 1 else 0)
  {
    var before, after := With(cases[..i], threshold, v), With(cases[..i + 1], threshold, v);
    assert after == if Judged(cases[i], threshold, v) then before + {i} else before;
  }

  /** Counts the verdicts at one threshold. */
  method Evaluate(cases: seq<Case>, threshold: real, costs: Costs) returns (row: Row)
    ensures row == RowFor(cases, threshold, costs)
  {
    var falseAccepts, falseHandoffs, correct := 0, 0, 0;
    for i := 0 to |cases|
      invariant falseAccepts == |With(cases[..i], threshold, FalseAccept)|
      invariant falseHandoffs == |With(cases[..i], threshold, FalseHandoff)|
      invariant correct == |With(cases[..i], threshold, Correct)|
    {
      WithOneMore(cases, i, threshold, FalseAccept);
      WithOneMore(cases, i, threshold, FalseHandoff);
      WithOneMore(cases, i, threshold, Correct);
      hide With;
      if IsFalseAccept(cases[i], threshold) { falseAccepts := falseAccepts + 1; }
      if IsFalseHandoff(cases[i], threshold) { falseHandoffs := falseHandoffs + 1; }
      if IsCorrect(cases[i], threshold) { correct := correct + 1; }
    }
    assert cases[..|cases|] == cases;
    row := Row(threshold, correct, falseAccepts, falseHandoffs,
        falseAccepts * costs.falseAccept + falseHandoffs * costs.falseHandoff);
  }

  // ---- selection ----

  predicate IsPositive(c: Case) { !c.expectedHandoff && c.predicted == c.expectedIntent }

  /** The lowest confidence among the correctly classified automatable cases. */
  function WeakestPositive(cases: seq<Case>): (r: Option<real>)
    ensures r.None? <==> forall c :: c in cases ==> !IsPositive(c)
    ensures r.Some? ==> exists c :: c in cases && IsPositive(c) && c.confidence == r.value
    ensures r.Some? ==> forall c :: c in cases && IsPositive(c) ==> r.value <= c.confidence
  {
    if cases == [] then None
    else
      var rest := WeakestPositive(cases[1..]);
      assert forall c :: c in cases <==> c == cases[0] || c in cases[1..];
      if !IsPositive(cases[0]) then rest
      else if rest.None? || cases[0].confidence <= rest.value then Some(cases[0].confidence)
      else rest
  }

  function SafetyCeiling(cases: seq<Case>, costs: Costs): real {
    var weakest := WeakestPositive(cases);
    if weakest.Some? then weakest.value - costs.safetyMargin else 0.80
  }

  ghost predicate IsMinimal(rows: seq<Row>, row: Row) {
    row in rows && forall r :: r in rows ==> row.cost <= r.cost
  }

  /**
   * The recommendation: of the cheapest rows the highest one at or below the ceiling, or simply the highest
   * if none is.
   */
  ghost predicate IsRecommended(rows: seq<Row>, ceiling: real, row: Row) {
    && IsMinimal(rows, row)
    && ((exists r :: IsMinimal(rows, r) && r.threshold <= ceiling) ==> row.threshold <= ceiling)
    && (forall r :: IsMinimal(rows, r) && (r.threshold <= ceiling || row.threshold > ceiling) ==>
          r.threshold <= row.threshold)
  }

  method MinimumCost(rows: seq<Row>) returns (cost: int)
    requires rows != []
    ensures exists r :: r in rows && r.cost == cost
    ensures forall r :: r in rows ==> cost <= r.cost
  {
    cost := rows[0].cost;
    for i := 1 to |rows|
      invariant exists r :: r in rows && r.cost == cost
      invariant forall k :: 0 <= k < i ==> cost <= rows[k].cost
    {
      if rows[i].cost < cost {
        cost := rows[i].cost;
        assert rows[i] in rows;
      }
    }
  }

  /** The rows that satisfy the condition, in order. */
  function Select(rows: seq<Row>, keep: Row -> bool): (r: seq<Row>)
    ensures forall x :: x in r <==> x in rows && keep(x)
  {
    if rows == [] then []
    else
      assert rows == [rows[0]] + rows[1..];
      (if keep(rows[0]) then [rows[0]] else []) + Select(rows[1..], keep)
  }

  method Highest(rows: seq<Row>) returns (row: Row)
    requires rows != []
    ensures row in rows && forall r :: r in rows ==> r.threshold <= row.threshold
  {
    row := rows[0];
    for i := 1 to |rows|
      invariant row in rows && forall k :: 0 <= k < i ==> rows[k].threshold <= row.threshold
    {
      if rows[i].threshold > row.threshold { row := rows[i]; }
    }
  }

  /** One row per candidate threshold, and the recommended row. Without candidates the source raises an error. */
  method Calibrate(
      cases: seq<Case>, candidates: seq<real>, costs: Costs) returns (rows: seq<Row>, recommended: Option<Row>)
    ensures |rows| == |candidates| && forall i :: 0 <= i < |rows| ==> rows[i] == RowFor(cases, candidates[i], costs)
    ensures recommended.None? <==> candidates == []
    ensures recommended.Some? ==> IsRecommended(rows, SafetyCeiling(cases, costs), recommended.value)
  {
    rows := [];
    for i := 0 to |candidates|
      invariant |rows| == i && forall k :: 0 <= k < i ==> rows[k] == RowFor(cases, candidates[k], costs)
    {
      var row := Evaluate(cases, candidates[i], costs);
      rows := rows + [row];
    }
    hide RowFor;
    if rows == [] { return rows, None; }
    var minimum := MinimumCost(rows);
    var best := Select(rows, (r: Row) => r.cost == minimum);
    var ceiling := SafetyCeiling(cases, costs);
    var eligible := Select(best, (r: Row) => r.threshold <= ceiling);
    assert forall r :: IsMinimal(rows, r) <==> r in best;
    var cheapest :| cheapest in rows && cheapest.cost == minimum;
    assert cheapest in best;
    var row := Highest(if eligible != [] then eligible else best);
    if eligible == [] {
      forall r | IsMinimal(rows, r) ensures r.threshold > ceiling { assert r !in eligible; }
    } else {
      assert row in eligible;
    }
    recommended := Some(row);
  }

  // ---- guarantees ----

  /** At every threshold each case has exactly one of the three verdicts. */
  lemma VerdictsPartition(cases: seq<Case>, threshold: real, costs: Costs)
    ensures var row := RowFor(cases, threshold, costs);
      row.correct + row.falseAccepts + row.falseHandoffs == |cases|
  {
    PartitionUpTo(cases, |cases|, threshold);
    assert cases[..|cases|] == cases;
  }

  lemma {:induction false} PartitionUpTo(cases: seq<Case>, n: nat, threshold: real)
    requires n <= |cases|
    ensures |With(cases[..n], threshold, Correct)| + |With(cases[..n], threshold, FalseAccept)|
      + |With(cases[..n], threshold, FalseHandoff)| == n
  {
    if n > 0 {
      PartitionUpTo(cases, n - 1, threshold);
      WithOneMore(cases, n - 1, threshold, Correct);
      WithOneMore(cases, n - 1, threshold, FalseAccept);
      WithOneMore(cases, n - 1, threshold, FalseHandoff);
      hide With;
    }
  }

  lemma SubsetCount(a: set<nat>, b: set<nat>)
    requires a <= b
    ensures |a| <= |b|
  {
    assert b == a + (b - a);
  }

  /** A higher threshold never accepts more in error and never hands off less in error. */
  lemma ThresholdTradeOff(cases: seq<Case>, low: real, high: real, costs: Costs)
    requires low <= high
    ensures RowFor(cases, high, costs).falseAccepts <= RowFor(cases, low, costs).falseAccepts
    ensures RowFor(cases, high, costs).falseHandoffs >= RowFor(cases, low, costs).falseHandoffs
  {
    SubsetCount(With(cases, high, FalseAccept), With(cases, low, FalseAccept));
    SubsetCount(With(cases, low, FalseHandoff), With(cases, high, FalseHandoff));
  }

  /** A recommendation at or below the ceiling leaves every correctly classified automatable case the safety margin. */
  lemma RecommendationIsSafe(cases: seq<Case>, costs: Costs, rows: seq<Row>, row: Row, c: Case)
    requires IsRecommended(rows, SafetyCeiling(cases, costs), row)
    requires exists r :: IsMinimal(rows, r) && r.threshold <= SafetyCeiling(cases, costs)
    requires c in cases && IsPositive(c)
    ensures c.confidence >= row.threshold + costs.safetyMargin
    ensures c.predicted != Unknown && costs.safetyMargin >= 0.0 ==> !IsFalseHandoff(c, row.threshold)
  {
    assert WeakestPositive(cases).Some?;
  }

  /** Without such a case the ceiling is 0.80: of the cheapest rows one at or below it is taken if there is one. */
  lemma RecommendationWithoutPositives(cases: seq<Case>, costs: Costs, rows: seq<Row>, row: Row)
    requires IsRecommended(rows, SafetyCeiling(cases, costs), row) && forall c :: c in cases ==> !IsPositive(c)
    ensures row.threshold > 0.80 ==> forall r :: IsMinimal(rows, r) ==> r.threshold > 0.80
    ensures forall r :: IsMinimal(rows, r) && r.threshold <= 0.80 ==> r.threshold <= row.threshold
  {
    assert WeakestPositive(cases).None?;
  }

  /** The recommended threshold is unique. */
  lemma RecommendationIsUnique(rows: seq<Row>, ceiling: real, a: Row, b: Row)
    requires IsRecommended(rows, ceiling, a) && IsRecommended(rows, ceiling, b)
    ensures a.threshold == b.threshold && a.cost == b.cost
  {
  }

  // ---- percentiles ----

  function InsertValue(x: real, s: seq<real>): seq<real> {
    if s == [] || x <= s[0] then [x] + s else [s[0]] + InsertValue(x, s[1..])
  }

  function Sorted(values: seq<real>): seq<real> {
    if values == [] then [] else InsertValue(values[0], Sorted(values[1..]))
  }

  ghost predicate Ascending(s: seq<real>) {
    forall i, j :: 0 <= i < j < |s| ==> s[i] <= s[j]
  }

  lemma {:induction false} InsertSorts(x: real, s: seq<real>)
    requires Ascending(s)
    ensures Ascending(InsertValue(x, s))
    ensures forall y :: y in InsertValue(x, s) <==> y == x || y in s
    ensures |InsertValue(x, s)| == |s| + 1
  {
    if s != [] && x > s[0] {
      InsertSorts(x, s[1..]);
      assert forall y :: y in s <==> y == s[0] || y in s[1..];
      var r := InsertValue(x, s[1..]);
      forall k | 0 <= k < |r| ensures s[0] <= r[k] {
        assert r[k] in r;
      }
    }
  }

  lemma {:induction false} SortedSorts(values: seq<real>)
    ensures Ascending(Sorted(values)) && |Sorted(values)| == |values|
    ensures forall y :: y in Sorted(values) <==> y in values
  {
    if values != [] {
      SortedSorts(values[1..]);
      InsertSorts(values[0], Sorted(values[1..]));
      assert forall y :: y in values <==> y == values[0] || y in values[1..];
    }
  }

  predicate Under(y: real, x: real, strict: bool) { if strict then y < x else y <= x }

  /** How many values lie below `x`, or at most at `x`. */
  function CountUnder(s: seq<real>, x: real, strict: bool): nat {
    if s == [] then 0 else (if Under(s[0], x, strict) then 1 else 0) + CountUnder(s[1..], x, strict)
  }

  lemma {:induction false} CountInserted(x: real, s: seq<real>, bound: real, strict: bool)
    ensures CountUnder(InsertValue(x, s), bound, strict)
        == CountUnder(s, bound, strict) + (if Under(x, bound, strict) then 1 else 0)
  {
    if s == [] || x <= s[0] {
      assert ([x] + s)[1..] == s;
    } else {
      CountInserted(x, s[1..], bound, strict);
      assert ([s[0]] + InsertValue(x, s[1..]))[1..] == InsertValue(x, s[1..]);
    }
  }

  lemma {:induction false} CountSorted(values: seq<real>, bound: real, strict: bool)
    ensures CountUnder(Sorted(values), bound, strict) == CountUnder(values, bound, strict)
  {
    if values != [] {
      CountSorted(values[1..], bound, strict);
      CountInserted(values[0], Sorted(values[1..]), bound, strict);
    }
  }

  /** In sorted order the value at position `r` has at most `r` values below it, and more than `r` up to it. */
  lemma {:induction false} CountAtPosition(s: seq<real>, r: nat)
    requires Ascending(s) && r < |s|
    ensures CountUnder(s, s[r], true) <= r < CountUnder(s, s[r], false)
  {
    if r > 0 {
      CountAtPosition(s[1..], r - 1);
    } else {
      NothingUnder(s, s[0]);
    }
  }

  lemma {:induction false} NothingUnder(s: seq<real>, x: real)
    requires forall k :: 0 <= k < |s| ==> s[k] >= x
    ensures CountUnder(s, x, true) == 0
  {
    if s != [] { NothingUnder(s[1..], x); }
  }

  function Ceiling(r: real): int {
    if r == r.Floor as real then r.Floor else r.Floor + 1
  }

  function RankOf(length: nat, quantile: real): nat {
    var position := Ceiling(length as real * quantile) - 1;
    if position > 0 then position else 0
  }

  /** The nearest-rank percentile, or nothing where the source's index is out of range. */
  function Percentile(values: seq<real>, quantile: real): Option<real> {
    SortedSorts(values);
    if RankOf(|values|, quantile) < |values| then Some(Sorted(values)[RankOf(|values|, quantile)]) else None
  }

  /**
   * For a quantile in (0, 1] the percentile is a value that enough values do not exceed, and too few values
   * are below.
   */
  lemma PercentileIsNearestRank(values: seq<real>, quantile: real)
    requires values != [] && 0.0 < quantile <= 1.0
    ensures var p := Percentile(values, quantile);
      && p.Some? && p.value in values
      && CountUnder(values, p.value, false) as real >= |values| as real * quantile
      && (CountUnder(values, p.value, true) as real) < |values| as real * quantile
  {
    hide RankOf, CountUnder, Sorted;
    SortedSorts(values);
    RankBounds(|values|, quantile);
    PositionBounds(values, RankOf(|values|, quantile));
  }

  lemma PositionBounds(values: seq<real>, r: nat)
    requires r < |values|
    ensures |Sorted(values)| == |values| && Sorted(values)[r] in values
    ensures CountUnder(values, Sorted(values)[r], true) <= r < CountUnder(values, Sorted(values)[r], false)
  {
    hide CountUnder;
    SortedSorts(values);
    var x := Sorted(values)[r];
    CountAtPosition(Sorted(values), r);
    CountSorted(values, x, true);
    CountSorted(values, x, false);
  }

  lemma RankBounds(n: nat, quantile: real)
    requires n > 0 && 0.0 < quantile <= 1.0
    ensures RankOf(n, quantile) < n
    ensures (RankOf(n, quantile) as real) < n as real * quantile <= (RankOf(n, quantile) + 1) as real
  {
    Scaled(n as real, quantile);
  }

  lemma Scaled(n: real, quantile: real)
    requires n > 0.0 && 0.0 < quantile <= 1.0
    ensures 0.0 < n * quantile <= n
  {
  }
}
