/** Aggregating judged answers into a candidate's summary (scripts/perf/llm_retrieval_eval.py). */
module RetrievalEval {
  import opened Base

  // ---- every manifest question, exactly once ---------------------------------------------------------

  datatype CoverageError = CoverageError(unknown: set<string>, duplicate: set<string>, missing: set<string>)

  /** Accepts exactly the row lists that hold each manifest question once; otherwise names every offender. */
  method ValidateQuestionCoverage(ids: seq<string>, manifest: set<string>) returns (r: Result<(), CoverageError>)
    ensures r.Ok? <==> multiset(ids) == multiset(manifest)
    ensures r.Err? ==>
      && (forall q :: q in r.error.unknown <==> q in ids && q !in manifest)
      && (forall q :: q in r.error.duplicate <==> multiset(ids)[q] > 1)
      && (forall q :: q in r.error.missing <==> q in manifest && q !in ids)
  {
    var seen, duplicate: set<string> := {}, {};
    for i := 0 to |ids|
      invariant forall q :: q in seen <==> multiset(ids[..i])[q] > 0
      invariant forall q :: q in duplicate <==> multiset(ids[..i])[q] > 1
    {
      assert ids[..i + 1] == ids[..i] + [ids[i]];
      if ids[i] in seen { duplicate := duplicate + {ids[i]}; }
      seen := seen + {ids[i]};
    }
    assert ids[..|ids|] == ids;
    var unknown, missing := seen - manifest, manifest - seen;
    if unknown == {} && duplicate == {} && missing == {} {
      assert seen == manifest;
      forall q ensures multiset(ids)[q] == multiset(manifest)[q] {
        assert q in seen <==> multiset(ids)[q] > 0;
        assert !(multiset(ids)[q] > 1) by { assert q !in duplicate; }
      }
      return Ok(());
    }
    if q :| q in unknown { assert multiset(ids)[q] != multiset(manifest)[q]; }
    else if q :| q in duplicate { assert multiset(ids)[q] != multiset(manifest)[q]; }
    else { var m :| m in missing; assert multiset(ids)[m] != multiset(manifest)[m]; }
    return Err(CoverageError(unknown, duplicate, missing));
  }

  // ---- the weighted score -----------------------------------------------------------------------------

  function Sum(s: seq<real>): real {
    if s == [] then 0.0 else s[0] + Sum(s[1..])
  }

  function Dot(scores: seq<real>, weights: seq<real>): real
    requires |scores| == |weights|
  {
    if scores == [] then 0.0 else Weighted(scores[0], weights[0]) + Dot(scores[1..], weights[1..])
  }

  function Weighted(score: real, weight: real): real {
    score * weight
  }

  function WeightedPct(scores: seq<real>, weights: seq<real>): real
    requires |scores| == |weights|
  {
    var denominator := 2.0 * Sum(weights);
    if denominator <= 0.0 then 0.0 else Dot(scores, weights) / denominator * 100.0
  }

  predicate Scores(s: seq<real>) {
    forall i :: 0 <= i < |s| ==> 0.0 <= s[i] <= 2.0
  }

  predicate NonNegative(weights: seq<real>) {
    forall i :: 0 <= i < |weights| ==> weights[i] >= 0.0
  }

  lemma Term(score: real, weight: real)
    requires 0.0 <= score <= 2.0 && weight >= 0.0
    ensures 0.0 <= Weighted(score, weight) <= weight + weight
  {
    if weight > 0.0 && 0.0 < score < 2.0 {
      assert score * weight > 0.0;
      assert (2.0 - score) * weight > 0.0;
    }
  }

  lemma DotStep(scores: seq<real>, weights: seq<real>)
    requires |scores| == |weights| > 0 && 0.0 <= scores[0] <= 2.0 && weights[0] >= 0.0
    ensures Dot(scores[1..], weights[1..]) <= Dot(scores, weights) <= Dot(scores[1..], weights[1..]) +
            (weights[0] + weights[0])
  {
    Term(scores[0], weights[0]);
  }

  lemma {:induction false} DotBounds(scores: seq<real>, weights: seq<real>)
    requires |scores| == |weights| && Scores(scores) && NonNegative(weights)
    ensures 0.0 <= Dot(scores, weights) <= 2.0 * Sum(weights)
  {
    if scores != [] {
      DotStep(scores, weights);
      assert Scores(scores[1..]) && NonNegative(weights[1..]);
      DotBounds(scores[1..], weights[1..]);
    }
  }

  /** Full marks on one dimension, none elsewhere. */
  function Only(n: nat, k: nat): (s: seq<real>)
    ensures |s| == n && Scores(s)
  {
    seq(n, i => if i == k then 2.0 else 0.0)
  }

  lemma {:induction false} DotOnly(weights: seq<real>, k: int)
    requires k < |weights|
    ensures Dot(seq(|weights|, i => if i == k then 2.0 else 0.0), weights) == if k < 0 then 0.0 else 2.0 * weights[k]
    decreases |weights|
  {
    if weights != [] {
      var s := seq(|weights|, i => if i == k then 2.0 else 0.0);
      assert s[1..] == seq(|weights[1..]|, i => if i == k - 1 then 2.0 else 0.0);
      DotOnly(weights[1..], if k < 0 then -1 else k - 1);
      if k < 0 { assert s[1..] == seq(|weights[1..]|, i => if i == -1 then 2.0 else 0.0); }
    }
  }

  lemma Ratio(n: real, d: real)
    requires d > 0.0
    ensures 0.0 <= n / d * 100.0 <= 100.0 <==> 0.0 <= n <= d
  {
    var q := n / d;
    assert q * d == n;
    if 0.0 <= q <= 1.0 { assert 0.0 <= q * d <= d; }
    if q < 0.0 { assert q * d < 0.0; }
    if q > 1.0 { assert q * d > d; }
  }

  /**
   * The manifest loader asks only for a positive total weight. The score is a percentage
   * for every admissible answer exactly when no single weight is negative.
   */
  lemma PercentageIffWeightsNonNegative(weights: seq<real>)
    requires Sum(weights) > 0.0
    ensures NonNegative(weights) <==>
      forall scores: seq<real> :: |scores| == |weights| && Scores(scores) ==>
                                  0.0 <= WeightedPct(scores, weights) <= 100.0
  {
    if NonNegative(weights) {
      forall scores: seq<real> | |scores| == |weights| && Scores(scores)
        ensures 0.0 <= WeightedPct(scores, weights) <= 100.0 {
        DotBounds(scores, weights);
        Ratio(Dot(scores, weights), 2.0 * Sum(weights));
      }
    } else {
      var k :| 0 <= k < |weights| && weights[k] < 0.0;
      DotOnly(weights, k);
      Ratio(Dot(Only(|weights|, k), weights), 2.0 * Sum(weights));
      assert !(0.0 <= WeightedPct(Only(|weights|, k), weights));
    }
  }

  // ---- the ninety-fifth percentile ----------------------------------------------------------------------

  function Insert(x: real, s: seq<real>): seq<real> {
    if s == [] || x <= s[0] then [x] + s else [s[0]] + Insert(x, s[1..])
  }

  function Sorted(s: seq<real>): seq<real> {
    if s == [] then [] else Insert(s[0], Sorted(s[1..]))
  }

  /** One less than 0.95 n rounded up. */
  function P95Index(n: nat): nat
    requires n > 0
  {
    Min(n - 1, (19 * n + 19) / 20 - 1)
  }

  function Min(a: int, b: int): int {
    if a < b then a else b
  }

  function P95(values: seq<real>): Option<real> {
    if values == [] then None else
      SortedShape(values);
      Some(Sorted(values)[P95Index(|values|)])
  }

  predicate Ordered(s: seq<real>) {
    forall i, j :: 0 <= i < j < |s| ==> s[i] <= s[j]
  }

  lemma {:induction false} InsertBag(x: real, s: seq<real>)
    ensures multiset(Insert(x, s)) == multiset(s) + multiset{x} && |Insert(x, s)| == |s| + 1
  {
    if s != [] && !(x <= s[0]) {
      InsertBag(x, s[1..]);
      assert s == [s[0]] + s[1..];
    }
  }

  lemma {:induction false} InsertOrdered(x: real, s: seq<real>)
    requires Ordered(s)
    ensures Ordered(Insert(x, s))
  {
    if s != [] && !(x <= s[0]) {
      InsertOrdered(x, s[1..]);
      InsertBag(x, s[1..]);
      var r := Insert(x, s[1..]);
      forall j | 0 <= j < |r| ensures s[0] <= r[j] {
        assert r[j] in multiset(r);
        if r[j] != x { assert r[j] in s[1..]; }
      }
    }
  }

  lemma {:induction false} SortedShape(s: seq<real>)
    ensures Ordered(Sorted(s)) && multiset(Sorted(s)) == multiset(s) && |Sorted(s)| == |s|
  {
    if s != [] {
      SortedShape(s[1..]);
      InsertOrdered(s[0], Sorted(s[1..]));
      InsertBag(s[0], Sorted(s[1..]));
      assert s == [s[0]] + s[1..];
    }
  }

  /** How many values are at most v, and how many strictly below it. */
  function AtMost(s: seq<real>, v: real): (n: nat)
    ensures n <= |s|
  {
    if s == [] then 0 else (if s[0] <= v then 1 else 0) + AtMost(s[1..], v)
  }

  function Below(s: seq<real>, v: real): (n: nat)
    ensures n <= |s|
  {
    if s == [] then 0 else (if s[0] < v then 1 else 0) + Below(s[1..], v)
  }

  lemma {:induction false} CountsSplit(a: seq<real>, b: seq<real>, v: real)
    ensures AtMost(a + b, v) == AtMost(a, v) + AtMost(b, v) && Below(a + b, v) == Below(a, v) + Below(b, v)
  {
    if a == [] { assert a + b == b; } else {
      assert (a + b)[1..] == a[1..] + b;
      CountsSplit(a[1..], b, v);
    }
  }

  /** A list with the same members as a, parted around a's first. */
  lemma PartAround<T>(a: seq<T>, b: seq<T>) returns (p: seq<T>, q: seq<T>)
    requires a != [] && multiset(a) == multiset(b)
    ensures b == p + [a[0]] + q && multiset(a[1..]) == multiset(p + q)
  {
    assert a[0] in multiset(b);
    var i :| 0 <= i < |b| && b[i] == a[0];
    p, q := b[..i], b[i + 1..];
    assert a == [a[0]] + a[1..];
    assert b == p + [b[i]] + q;
    assert multiset(a) == multiset{a[0]} + multiset(a[1..]);
    assert multiset(b) == multiset(p) + multiset{b[i]} + multiset(q);
    assert multiset(a[1..]) == multiset(a) - multiset{a[0]};
  }

  lemma {:induction false} CountsOfSameBag(a: seq<real>, b: seq<real>, v: real)
    requires multiset(a) == multiset(b)
    ensures AtMost(a, v) == AtMost(b, v) && Below(a, v) == Below(b, v)
    decreases |a|
  {
    if a == [] {
      assert |b| == |multiset(b)| == 0;
    } else {
      var p, q := PartAround(a, b);
      CountsSplit(p + [a[0]], q, v);
      CountsSplit(p, [a[0]], v);
      CountsSplit(p, q, v);
      CountsOfSameBag(a[1..], p + q, v);
    }
  }

  predicate UpTo(s: seq<real>, v: real) {
    forall i :: 0 <= i < |s| ==> s[i] <= v
  }

  predicate From(s: seq<real>, v: real) {
    forall i :: 0 <= i < |s| ==> v <= s[i]
  }

  lemma {:induction false} AllAtMost(s: seq<real>, v: real)
    requires UpTo(s, v)
    ensures AtMost(s, v) == |s|
  {
    if s != [] {
      AllAtMost(s[1..], v);
    }
  }

  lemma {:induction false} NoneBelow(s: seq<real>, v: real)
    requires From(s, v)
    ensures Below(s, v) == 0
  {
    if s != [] {
      NoneBelow(s[1..], v);
    }
  }

  /** v is a sample that at least 95% of the samples do not exceed and fewer than 95% lie below. */
  predicate IsP95(values: seq<real>, v: real) {
    v in values && 20 * AtMost(values, v) >= 19 * |values| && 20 * Below(values, v) < 19 * |values|
  }

  lemma SortedCounts(s: seq<real>, k: nat)
    requires Ordered(s) && k < |s|
    ensures AtMost(s, s[k]) >= k + 1 && Below(s, s[k]) <= k
  {
    SplitCounts(s, k + 1, s[k]);
    SplitCounts(s, k, s[k]);
    OrderedEnds(s, k);
    AllAtMost(s[..k + 1], s[k]);
    NoneBelow(s[k..], s[k]);
  }

  lemma OrderedEnds(s: seq<real>, k: nat)
    requires Ordered(s) && k < |s|
    ensures UpTo(s[..k + 1], s[k]) && From(s[k..], s[k])
  {
  }

  lemma SplitCounts(s: seq<real>, k: nat, v: real)
    requires k <= |s|
    ensures AtMost(s, v) == AtMost(s[..k], v) + AtMost(s[k..], v) && Below(s, v) == Below(s[..k], v) + Below(s[k..], v)
  {
    assert s == s[..k] + s[k..];
    CountsSplit(s[..k], s[k..], v);
  }

  lemma P95IsPercentile(values: seq<real>)
    requires values != []
    ensures IsP95(values, P95(values).value)
  {
    var s, k := Sorted(values), P95Index(|values|);
    SortedShape(values);
    SortedCounts(s, k);
    CountsOfSameBag(s, values, s[k]);
    assert s[k] in multiset(s);
  }

  lemma {:induction false} BelowCoversAtMost(values: seq<real>, v: real, w: real)
    requires v < w
    ensures AtMost(values, v) <= Below(values, w)
  {
    if values != [] { BelowCoversAtMost(values[1..], v, w); }
  }

  /** Nothing else has that property, so it pins the percentile down. */
  lemma P95Unique(values: seq<real>, v: real, w: real)
    requires IsP95(values, v) && IsP95(values, w)
    ensures v == w
  {
    if v < w { BelowCoversAtMost(values, v, w); }
    if w < v { BelowCoversAtMost(values, w, v); }
  }

  lemma P95Exactly(values: seq<real>, v: real)
    requires values != []
    ensures P95(values) == Some(v) <==> IsP95(values, v)
  {
    P95IsPercentile(values);
    if IsP95(values, v) { P95Unique(values, v, P95(values).value); }
  }

  lemma P95OrderFree(a: seq<real>, b: seq<real>)
    requires multiset(a) == multiset(b)
    ensures P95(a) == P95(b)
  {
    assert |a| == |multiset(a)| == |multiset(b)| == |b|;
    if a != [] {
      var v := P95(a).value;
      P95IsPercentile(a);
      CountsOfSameBag(a, b, v);
      assert v in multiset(b);
      P95Exactly(b, v);
    }
  }

  // ---- collecting a candidate's answers -----------------------------------------------------------------

  /** A judged row; the flags are the outcomes of the row's text and field tests. */
  datatype Answer = Answer(questionId: string, empty: bool, hidden: bool, wrongPaper: bool, fabricated: bool,
                           structureFailed: bool, eligible: bool, latency: Option<real>, scores: seq<real>)

  /** The hard-fail counters. */
  datatype Fails = Fails(empty: nat, hidden: nat, wrongPaper: nat, fabricated: nat, structureFailed: nat)

  datatype Summary = Summary(fails: Fails, eligible: bool, latencies: seq<real>, quality: seq<real>)

  const NOTHING := Summary(Fails(0, 0, 0, 0, 0), true, [], [])

  /** Each row's question has weights, one per scored dimension. */
  ghost predicate Covered(rows: seq<Answer>, weights: map<string, seq<real>>) {
    forall a :: a in rows ==> a.questionId in weights && |a.scores| == |weights[a.questionId]|
  }

  function Bump(flag: bool): nat {
    if flag then 1 else 0
  }

  function LatencyOf(a: Answer): seq<real> {
    if a.latency.Some? then [a.latency.value] else []
  }

  /** The weighted score under the manifest; coverage was checked first, so every question is known. */
  function Scorer(weights: map<string, seq<real>>): Answer -> real {
    (a: Answer) =>
      if a.questionId in weights && |a.scores| == |weights[a.questionId]|
      then WeightedPct(a.scores, weights[a.questionId]) else 0.0
  }

  function AddFails(f: Fails, a: Answer): Fails {
    Fails(f.empty + Bump(a.empty), f.hidden + Bump(a.hidden), f.wrongPaper + Bump(a.wrongPaper),
          f.fabricated + Bump(a.fabricated), f.structureFailed + Bump(a.structureFailed))
  }

  function Add(t: Summary, a: Answer, pct: real): Summary {
    Summary(AddFails(t.fails, a), t.eligible && a.eligible, t.latencies + LatencyOf(a), t.quality + [pct])
  }

  function Collected(rows: seq<Answer>, pct: Answer -> real): (t: Summary)
    ensures |t.quality| == |rows|
  {
    if rows == [] then NOTHING
    else Add(Collected(rows[..|rows| - 1], pct), rows[|rows| - 1], pct(rows[|rows| - 1]))
  }

  class CandidateStats {
    var fails: Fails
    var eligible: bool
    var latencies: seq<real>
    var quality: seq<real>

    function State(): Summary
      reads this
    {
      Summary(fails, eligible, latencies, quality)
    }

    constructor ()
      ensures State() == NOTHING
    {
      fails, eligible, latencies, quality := Fails(0, 0, 0, 0, 0), true, [], [];
    }

    method UpdateFromAnswer(a: Answer, pct: Answer -> real)
      modifies this
      ensures State() == Add(old(State()), a, pct(a))
    {
      fails := AddFails(fails, a);
      eligible := eligible && a.eligible;
      if a.latency.Some? { latencies := latencies + [a.latency.value]; }
      quality := quality + [pct(a)];
    }
  }

  method CollectCandidateStats(rows: seq<Answer>, pct: Answer -> real) returns (stats: CandidateStats)
    ensures fresh(stats) && stats.State() == Collected(rows, pct)
  {
    stats := new CandidateStats();
    for i := 0 to |rows|
      invariant fresh(stats) && stats.State() == Collected(rows[..i], pct)
    {
      assert rows[..i + 1][..i] == rows[..i];
      stats.UpdateFromAnswer(rows[i], pct);
    }
    assert rows[..|rows|] == rows;
  }

  datatype Decision = Reject | DeferNotEligible | Defer

  function CandidateDecision(t: Summary): Decision {
    if t.fails.hidden > 0 || t.fails.empty > 1 || t.fails.wrongPaper > 2 || t.fails.fabricated > 0 ||
       t.fails.structureFailed > 0 then Reject
    else if !t.eligible then DeferNotEligible
    else Defer
  }

  // ---- what the counters count ----------------------------------------------------------------------------

  ghost function Positions(rows: seq<Answer>, flag: Answer -> bool): set<nat> {
    set i: nat | i < |rows| && flag(rows[i])
  }

  lemma PositionsStep(rows: seq<Answer>, flag: Answer -> bool)
    requires rows != []
    ensures |Positions(rows, flag)| == |Positions(rows[..|rows| - 1], flag)| + Bump(flag(rows[|rows| - 1]))
  {
    var n := |rows| - 1;
    var front := Positions(rows[..n], flag);
    assert forall i: nat :: i < n ==> rows[..n][i] == rows[i];
    assert Positions(rows, flag) == if flag(rows[n]) then front + {n} else front;
  }

  lemma {:induction false} CountersCount(rows: seq<Answer>, pct: Answer -> real)
    ensures var t := Collected(rows, pct);
      && t.fails.empty == |Positions(rows, (a: Answer) => a.empty)| &&
         t.fails.hidden == |Positions(rows, (a: Answer) => a.hidden)|
      && t.fails.wrongPaper == |Positions(rows, (a: Answer) => a.wrongPaper)|
      && t.fails.fabricated == |Positions(rows, (a: Answer) => a.fabricated)|
      && t.fails.structureFailed == |Positions(rows, (a: Answer) => a.structureFailed)|
      && (t.eligible <==> forall a :: a in rows ==> a.eligible)
  {
    if rows != [] {
      var front, last := rows[..|rows| - 1], rows[|rows| - 1];
      CountersCount(front, pct);
      PositionsStep(rows, (a: Answer) => a.empty);
      PositionsStep(rows, (a: Answer) => a.hidden);
      PositionsStep(rows, (a: Answer) => a.wrongPaper);
      PositionsStep(rows, (a: Answer) => a.fabricated);
      PositionsStep(rows, (a: Answer) => a.structureFailed);
      assert rows == front + [last];
    }
  }

  // ---- the order of the rows does not matter ---------------------------------------------------------------

  ghost predicate Alike(t: Summary, u: Summary) {
    && t.(latencies := [], quality := []) == u.(latencies := [], quality := [])
    && multiset(t.latencies) == multiset(u.latencies) && multiset(t.quality) == multiset(u.quality)
  }

  lemma AddAlike(t: Summary, u: Summary, a: Answer, pct: real)
    requires Alike(t, u)
    ensures Alike(Add(t, a, pct), Add(u, a, pct))
  {
  }

  lemma AddSwapped(t: Summary, a: Answer, p: real, b: Answer, q: real)
    ensures Alike(Add(Add(t, a, p), b, q), Add(Add(t, b, q), a, p))
  {
  }

  lemma CollectedSnoc(rows: seq<Answer>, x: Answer, pct: Answer -> real)
    ensures Collected(rows + [x], pct) == Add(Collected(rows, pct), x, pct(x))
  {
    assert (rows + [x])[..|rows + [x]| - 1] == rows;
  }

  /** Moving a row to the end leaves the summary alike. */
  lemma {:induction false} MoveLast(p: seq<Answer>, x: Answer, q: seq<Answer>, pct: Answer -> real)
    ensures Alike(Collected(p + [x] + q, pct), Add(Collected(p + q, pct), x, pct(x)))
    decreases |q|
  {
    if q == [] {
      assert p + [x] + q == p + [x] && p + q == p;
      CollectedSnoc(p, x, pct);
    } else {
      var front, y := q[..|q| - 1], q[|q| - 1];
      assert q == front + [y];
      MoveLast(p, x, front, pct);
      assert p + [x] + q == (p + [x] + front) + [y] && p + q == (p + front) + [y];
      MovePast(p + [x] + front, p + front, x, y, pct);
    }
  }

  lemma MovePast(a: seq<Answer>, b: seq<Answer>, x: Answer, y: Answer, pct: Answer -> real)
    requires Alike(Collected(a, pct), Add(Collected(b, pct), x, pct(x)))
    ensures Alike(Collected(a + [y], pct), Add(Collected(b + [y], pct), x, pct(x)))
  {
    CollectedSnoc(a, y, pct);
    CollectedSnoc(b, y, pct);
    AddPast(Collected(a, pct), Collected(b, pct), x, pct(x), y, pct(y));
  }

  lemma AddPast(t: Summary, u: Summary, x: Answer, px: real, y: Answer, py: real)
    requires Alike(t, Add(u, x, px))
    ensures Alike(Add(t, y, py), Add(Add(u, y, py), x, px))
  {
    AddAlike(t, Add(u, x, px), y, py);
    AddSwapped(u, x, px, y, py);
  }

  lemma CollectedWithout(rows: seq<Answer>, p: seq<Answer>, x: Answer, q: seq<Answer>, pct: Answer -> real)
    requires rows == p + [x] + q
    ensures Alike(Collected(rows, pct), Add(Collected(p + q, pct), x, pct(x)))
  {
    MoveLast(p, x, q, pct);
  }

  lemma AlikeThrough(t: Summary, u: Summary, r: Summary, s: Summary, a: Answer, pct: real)
    requires Alike(t, Add(r, a, pct)) && Alike(u, Add(s, a, pct)) && Alike(r, s)
    ensures Alike(t, u)
  {
    AddAlike(r, s, a, pct);
  }

  lemma {:induction false} CollectedAlike(a: seq<Answer>, b: seq<Answer>, pct: Answer -> real)
    requires multiset(a) == multiset(b)
    ensures Alike(Collected(a, pct), Collected(b, pct))
    decreases |a|
  {
    if a == [] {
      assert |b| == |multiset(b)| == 0;
    } else {
      var p, q := PartAround(a, b);
      CollectedAlike(a[1..], p + q, pct);
      FirstAside(a, pct);
      CollectedWithout(b, p, a[0], q, pct);
      AlikeThrough(Collected(a, pct), Collected(b, pct), Collected(a[1..], pct), Collected(p + q, pct), a[0],
                   pct(a[0]));
    }
  }

  lemma FirstAside(rows: seq<Answer>, pct: Answer -> real)
    requires rows != []
    ensures Alike(Collected(rows, pct), Add(Collected(rows[1..], pct), rows[0], pct(rows[0])))
  {
    assert rows == [] + [rows[0]] + rows[1..];
    assert [] + rows[1..] == rows[1..];
    CollectedWithout(rows, [], rows[0], rows[1..], pct);
  }

  lemma {:induction false} SumSplit(a: seq<real>, b: seq<real>)
    ensures Sum(a + b) == Sum(a) + Sum(b)
  {
    if a == [] { assert a + b == b; } else {
      assert (a + b)[1..] == a[1..] + b;
      SumSplit(a[1..], b);
    }
  }

  lemma {:induction false} SumOrderFree(a: seq<real>, b: seq<real>)
    requires multiset(a) == multiset(b)
    ensures Sum(a) == Sum(b)
    decreases |a|
  {
    if a == [] {
      assert |b| == |multiset(b)| == 0;
    } else {
      var p, q := PartAround(a, b);
      SumSplit(p + [a[0]], q);
      SumSplit(p, [a[0]]);
      SumSplit(p, q);
      SumOrderFree(a[1..], p + q);
    }
  }

  /** The reported numbers: mean quality, latency percentile and decision. */
  function Report(t: Summary): (real, Option<real>, Decision)
    requires t.quality != []
  {
    (Sum(t.quality) / |t.quality| as real, P95(t.latencies), CandidateDecision(t))
  }

  lemma ReportOrderFree(a: seq<Answer>, b: seq<Answer>, pct: Answer -> real)
    requires multiset(a) == multiset(b) && a != [] && b != []
    ensures Report(Collected(a, pct)) == Report(Collected(b, pct))
  {
    var t, u := Collected(a, pct), Collected(b, pct);
    CollectedAlike(a, b, pct);
    SumOrderFree(t.quality, u.quality);
    P95OrderFree(t.latencies, u.latencies);
    assert |t.quality| == |multiset(t.quality)| == |multiset(u.quality)| == |u.quality|;
  }

  // ---- the mean is a percentage ---------------------------------------------------------------------------

  lemma {:induction false} SumBounds(s: seq<real>)
    requires forall i :: 0 <= i < |s| ==> 0.0 <= s[i] <= 100.0
    ensures 0.0 <= Sum(s) <= 100.0 * |s| as real
  {
    if s != [] { SumBounds(s[1..]); }
  }

  lemma {:induction false} QualityOfRows(rows: seq<Answer>, pct: Answer -> real)
    ensures forall i :: 0 <= i < |rows| ==> Collected(rows, pct).quality[i] == pct(rows[i])
  {
    if rows != [] {
      var front := rows[..|rows| - 1];
      QualityOfRows(front, pct);
      assert forall i :: 0 <= i < |front| ==> front[i] == rows[i];
    }
  }

  lemma ScoreInRange(a: Answer, weights: map<string, seq<real>>)
    requires Covered([a], weights) && Scores(a.scores) && NonNegative(weights[a.questionId])
    ensures 0.0 <= Scorer(weights)(a) <= 100.0
  {
    assert a in [a];
    var w := weights[a.questionId];
    if Sum(w) > 0.0 {
      DotBounds(a.scores, w);
      Ratio(Dot(a.scores, w), 2.0 * Sum(w));
    }
  }

  /** Admissible scores and non-negative weights: the mean quality is between 0 and 100. */
  lemma MeanQualityInRange(rows: seq<Answer>, weights: map<string, seq<real>>)
    requires rows != [] && Covered(rows, weights)
    requires forall a :: a in rows ==> Scores(a.scores) && NonNegative(weights[a.questionId])
    ensures 0.0 <= Report(Collected(rows, Scorer(weights))).0 <= 100.0
  {
    var q := Collected(rows, Scorer(weights)).quality;
    QualityOfRows(rows, Scorer(weights));
    forall i | 0 <= i < |q| ensures 0.0 <= q[i] <= 100.0 {
      assert rows[i] in rows;
      ScoreInRange(rows[i], weights);
    }
    SumBounds(q);
    MeanBounds(Sum(q), |q| as real);
  }

  lemma MeanBounds(total: real, n: real)
    requires n > 0.0
    ensures 0.0 <= total / n <= 100.0 <==> 0.0 <= total <= 100.0 * n
  {
    var q := total / n;
    assert q * n == total;
    if 0.0 <= q <= 100.0 { assert 0.0 <= q * n <= 100.0 * n; }
    if q < 0.0 { assert q * n < 0.0; }
    if q > 100.0 { assert q * n > 100.0 * n; }
  }

  // ---- the report in terms of the rows ------------------------------------------------------------------

  /** A candidate is rejected, deferred for ineligibility or deferred by what its rows show, and by nothing else. */
  lemma DecisionByRows(rows: seq<Answer>, pct: Answer -> real)
    ensures var decision := CandidateDecision(Collected(rows, pct));
      && (decision == Reject <==>
            || (exists i :: 0 <= i < |rows| && (rows[i].hidden || rows[i].fabricated || rows[i].structureFailed))
            || |Positions(rows, (a: Answer) => a.empty)| >= 2
            || |Positions(rows, (a: Answer) => a.wrongPaper)| >= 3)
      && (decision == Defer ==> forall i :: 0 <= i < |rows| ==> rows[i].eligible)
      && (decision == DeferNotEligible ==> exists i :: 0 <= i < |rows| && !rows[i].eligible)
  {
    CountersCount(rows, pct);
    SomePosition(rows, (a: Answer) => a.hidden);
    SomePosition(rows, (a: Answer) => a.fabricated);
    SomePosition(rows, (a: Answer) => a.structureFailed);
  }

  lemma SomePosition(rows: seq<Answer>, flag: Answer -> bool)
    ensures |Positions(rows, flag)| > 0 <==> exists i :: 0 <= i < |rows| && flag(rows[i])
  {
    if i :| 0 <= i < |rows| && flag(rows[i]) { assert i in Positions(rows, flag); }
    if |Positions(rows, flag)| > 0 { var i :| i in Positions(rows, flag); }
  }

  function Scored(rows: seq<Answer>, pct: Answer -> real): (r: seq<real>)
    ensures |r| == |rows| && forall i :: 0 <= i < |r| ==> r[i] == pct(rows[i])
  {
    seq(|rows|, i requires 0 <= i < |rows| => pct(rows[i]))
  }

  lemma QualityIs(rows: seq<Answer>, pct: Answer -> real)
    ensures Collected(rows, pct).quality == Scored(rows, pct)
  {
    QualityOfRows(rows, pct);
  }

  /** The quality reported is the mean of the rows' scores. */
  lemma MeanOfRows(rows: seq<Answer>, pct: Answer -> real)
    requires rows != []
    ensures Report(Collected(rows, pct)).0 == Sum(Scored(rows, pct)) / |rows| as real
  {
    QualityIs(rows, pct);
  }

  /** The latencies are those of the rows that have one. */
  lemma {:induction false} LatenciesCounted(rows: seq<Answer>, pct: Answer -> real, v: real)
    ensures multiset(Collected(rows, pct).latencies)[v] == |Positions(rows, (a: Answer) => a.latency == Some(v))|
  {
    if rows != [] {
      LatenciesCounted(rows[..|rows| - 1], pct, v);
      PositionsStep(rows, (a: Answer) => a.latency == Some(v));
    }
  }

  // ---- the score as a weighted mean ---------------------------------------------------------------------

  /** How far each dimension's percentage is from q, weighted. */
  function Deviations(scores: seq<real>, weights: seq<real>, q: real): seq<real>
    requires |scores| == |weights|
  {
    seq(|scores|, i requires 0 <= i < |scores| => Weighted(scores[i] * 50.0 - q, weights[i]))
  }

  lemma {:induction false} DeviationsSum(scores: seq<real>, weights: seq<real>, q: real)
    requires |scores| == |weights|
    ensures Sum(Deviations(scores, weights, q)) == 50.0 * Dot(scores, weights) - q * Sum(weights)
  {
    if scores != [] {
      DeviationsSum(scores[1..], weights[1..], q);
      assert Deviations(scores, weights, q)[1..] == Deviations(scores[1..], weights[1..], q);
      DeviationIs(scores[0], weights[0], q);
      Spread(q, weights[0], Sum(weights[1..]));
    }
  }

  lemma DeviationIs(score: real, weight: real, q: real)
    ensures Weighted(score * 50.0 - q, weight) == 50.0 * Weighted(score, weight) - q * weight
  {
  }

  lemma Spread(q: real, a: real, b: real)
    ensures q * (a + b) == q * a + q * b
  {
  }

  /** The score is the weighted mean of the dimensions' percentages, two points being 100: the deviations cancel out. */
  lemma PctIsWeightedMean(scores: seq<real>, weights: seq<real>, q: real)
    requires |scores| == |weights| && Sum(weights) > 0.0
    ensures WeightedPct(scores, weights) == q <==> Sum(Deviations(scores, weights, q)) == 0.0
  {
    DeviationsSum(scores, weights, q);
    var dot, sum := Dot(scores, weights), Sum(weights);
    Proportion(dot, sum, q);
  }

  lemma Proportion(dot: real, sum: real, q: real)
    requires sum > 0.0
    ensures dot / (2.0 * sum) * 100.0 == q <==> 50.0 * dot - q * sum == 0.0
  {
    var part := dot / (2.0 * sum);
    assert part * (2.0 * sum) == dot;
    assert (part * 100.0) * sum == 50.0 * dot;
    if q * sum == (part * 100.0) * sum { assert (q - part * 100.0) * sum == 0.0; }
  }
}
