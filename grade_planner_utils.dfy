/** Progress statistics of the grade planner (src/domain/grade-planner/utils.ts):
    per-UC, per-semester and per-course figures and the upcoming-deadline list.
    Numbers are exact reals and timestamps integer milliseconds; `now` is a parameter. */
module GradePlannerUtils {
  import opened Wrappers
  import opened GradePlannerSchema

  const DayInMs: int := 24 * 60 * 60 * 1000

  // ---------------------------------------------------------------- number helpers

  /** `Math.round(value * 10) / 10`: the nearest tenth, halves rounded up. */
  function Round1(value: real): (r: real)
    ensures r - 0.05 <= value < r + 0.05
    ensures (r * 10.0).Floor as real == r * 10.0
  {
    ((value * 10.0 + 0.5).Floor as real) / 10.0
  }

  lemma Round1Monotone(x: real, y: real)
    requires x <= y
    ensures Round1(x) <= Round1(y)
  {
    assert (x * 10.0 + 0.5).Floor <= (y * 10.0 + 0.5).Floor;
  }

  /** A whole number of tenths is left unchanged. */
  lemma Round1OfTenths(k: int)
    ensures Round1(k as real / 10.0) == k as real / 10.0
  {
    var x := k as real / 10.0;
    assert x * 10.0 + 0.5 == k as real + 0.5;
    assert (k as real + 0.5).Floor == k;
  }

  /** Rounding keeps a value inside bounds that are whole tenths. */
  lemma Round1Within(value: real, lo: int, hi: int)
    requires lo as real / 10.0 <= value <= hi as real / 10.0
    ensures lo as real / 10.0 <= Round1(value) <= hi as real / 10.0
  {
    Round1Monotone(lo as real / 10.0, value);
    Round1Monotone(value, hi as real / 10.0);
    Round1OfTenths(lo);
    Round1OfTenths(hi);
  }

  /** `Math.min(max, Math.max(min, value))` */
  function Clamp(value: real, min: real, max: real): (r: real)
    ensures min <= max ==> min <= r <= max
    ensures min <= value <= max ==> r == value
    ensures min <= max && value < min ==> r == min
    ensures value > max ==> r == max
  {
    var lifted := if min > value then min else value;
    if max < lifted then max else lifted
  }

  function Max(a: real, b: real): real {
    if a >= b then a else b
  }

  /** The top of each grading scale. */
  function ScaleTop(scale: GradeScale): real {
    match scale
    case Scale0To20 => 20.0
    case Scale0To10 => 10.0
    case Scale0To100 => 100.0
  }

  /** Converts a score to the 0-20 scale: the same fraction of the scale's top. */
  function NormalizeScoreTo20(score: ScoreValueObject): (r: real)
    ensures r * ScaleTop(score.scale) == score.value * 20.0
  {
    match score.scale
    case Scale0To10 => score.value * 2.0
    case Scale0To100 => score.value / 5.0
    case Scale0To20 => score.value
  }

  /** A score inside its scale lands inside 0..20. */
  lemma NormalizeWithinTwenty(score: ScoreValueObject)
    requires 0.0 <= score.value <= ScaleTop(score.scale)
    ensures 0.0 <= NormalizeScoreTo20(score) <= 20.0
  {
  }

  // ---------------------------------------------------------------- sequences

  /** `Array.prototype.filter`, keeping order. */
  function Filter<T>(xs: seq<T>, p: T -> bool): (r: seq<T>)
    ensures |r| <= |xs|
    ensures forall x :: x in r ==> x in xs && p(x)
    ensures forall x :: x in xs && p(x) ==> x in r
    decreases |xs|
  {
    if xs == [] then []
    else
      var init := Filter(xs[..|xs| - 1], p);
      var last := xs[|xs| - 1];
      assert forall x :: x in xs ==> x in xs[..|xs| - 1] || x == last;
      if p(last) then init + [last] else init
  }

  lemma FilterNone<T>(xs: seq<T>, p: T -> bool)
    requires forall x :: x in xs ==> !p(x)
    ensures Filter(xs, p) == []
  {
  }

  lemma {:induction false} FilterAll<T>(xs: seq<T>, p: T -> bool)
    requires forall i :: 0 <= i < |xs| ==> p(xs[i])
    ensures Filter(xs, p) == xs
  {
    if xs != [] {
      var init, last := xs[..|xs| - 1], xs[|xs| - 1];
      assert forall i :: 0 <= i < |init| ==> p(init[i]) by {
        forall i | 0 <= i < |init| ensures p(init[i]) {
          assert init[i] == xs[i];
        }
      }
      FilterAll(init, p);
      assert p(last);
      assert init + [last] == xs;
    }
  }

  lemma {:induction false} FilterConcat<T>(xs: seq<T>, ys: seq<T>, p: T -> bool)
    ensures Filter(xs + ys, p) == Filter(xs, p) + Filter(ys, p)
    decreases |ys|
  {
    if ys == [] {
      assert xs + ys == xs;
    } else {
      var init := ys[..|ys| - 1];
      assert (xs + ys)[..|xs + ys| - 1] == xs + init;
      FilterConcat(xs, init, p);
    }
  }

  /** Filtering keeps every kept value as often as it occurs, and drops the others entirely. */
  lemma {:induction false} FilterMultiplicity<T>(xs: seq<T>, p: T -> bool)
    ensures forall x :: multiset(Filter(xs, p))[x] == if p(x) then multiset(xs)[x] else 0
    decreases |xs|
  {
    if xs != [] {
      var init, last := xs[..|xs| - 1], xs[|xs| - 1];
      assert xs == init + [last];
      assert multiset(xs) == multiset(init) + multiset{last};
      FilterMultiplicity(init, p);
      if p(last) {
        assert Filter(xs, p) == Filter(init, p) + [last];
        assert multiset(Filter(xs, p)) == multiset(Filter(init, p)) + multiset{last};
      } else {
        assert Filter(xs, p) == Filter(init, p);
      }
    }
  }

  lemma FilterAppendOne<T>(xs: seq<T>, a: T, p: T -> bool)
    ensures Filter(xs + [a], p) == if p(a) then Filter(xs, p) + [a] else Filter(xs, p)
  {
    assert (xs + [a])[..|xs|] == xs;
  }

  predicate SortedByDue(xs: seq<Activity>) {
    forall i, j :: 0 <= i < j < |xs| ==> xs[i].dueAt <= xs[j].dueAt
  }

  /** Inserts `a` after every element due no later than it, so equal due dates keep
      their input order. */
  function InsertByDue(a: Activity, xs: seq<Activity>): (r: seq<Activity>)
    requires SortedByDue(xs)
    ensures SortedByDue(r)
    ensures multiset(r) == multiset(xs) + multiset{a}
  {
    if xs == [] then [a]
    else if a.dueAt < xs[0].dueAt then [a] + xs
    else
      var rest := InsertByDue(a, xs[1..]);
      assert xs == [xs[0]] + xs[1..];
      InsertedAfterHead(xs[0], a, xs[1..], rest);
      [xs[0]] + rest
  }

  lemma InsertedAfterHead(head: Activity, a: Activity, tail: seq<Activity>, rest: seq<Activity>)
    requires SortedByDue([head] + tail) && head.dueAt <= a.dueAt
    requires SortedByDue(rest) && multiset(rest) == multiset(tail) + multiset{a}
    ensures SortedByDue([head] + rest)
  {
    forall x | x in rest ensures head.dueAt <= x.dueAt {
      assert x in multiset(rest);
      if x != a {
        assert x in multiset(tail);
        var k :| 0 <= k < |tail| && tail[k] == x;
        assert ([head] + tail)[0] == head && ([head] + tail)[k + 1] == x;
      }
    }
    forall i, j | 0 <= i < j < |[head] + rest| ensures ([head] + rest)[i].dueAt <= ([head] + rest)[j].dueAt {
      if i == 0 {
        assert ([head] + rest)[j] in rest;
      } else {
        assert ([head] + rest)[i] == rest[i - 1] && ([head] + rest)[j] == rest[j - 1];
      }
    }
  }

  /** The stable ascending sort by due date of the listing functions: an insertion sort. */
  function SortByDue(xs: seq<Activity>): (r: seq<Activity>)
    ensures SortedByDue(r)
    ensures multiset(r) == multiset(xs)
    decreases |xs|
  {
    if xs == [] then []
    else
      assert xs == xs[..|xs| - 1] + [xs[|xs| - 1]];
      InsertByDue(xs[|xs| - 1], SortByDue(xs[..|xs| - 1]))
  }

  // ---------------------------------------------------------------- UC statistics

  /** `evaluation.grade?.score !== null`: true for a missing grade as well, because
      `undefined !== null`. */
  predicate CountsAsGraded(a: Activity) {
    a.grade.None? || a.grade.value.score.Some?
  }

  function UcEvaluations(uc: UC, activities: seq<Activity>): seq<Activity> {
    Filter(activities, (a: Activity) => a.kind == Evaluation && a.ucId == Some(uc.id))
  }

  function GradedEvaluations(uc: UC, activities: seq<Activity>): seq<Activity> {
    Filter(UcEvaluations(uc, activities), CountsAsGraded)
  }

  /** Sum of `grade?.weight.percentage ?? 0`. */
  function WeightSum(es: seq<Activity>): real
    decreases |es|
  {
    if es == [] then 0.0
    else
      var e := es[|es| - 1];
      WeightSum(es[..|es| - 1]) + (if e.grade.Some? then e.grade.value.weight else 0.0)
  }

  /** Sum of normalized score times weight over the evaluations that have a score. */
  function WeightedScoreSum(es: seq<Activity>): real
    decreases |es|
  {
    if es == [] then 0.0
    else
      var e := es[|es| - 1];
      WeightedScoreSum(es[..|es| - 1])
        + (if e.grade.Some? && e.grade.value.score.Some?
           then NormalizeScoreTo20(e.grade.value.score.value) * e.grade.value.weight
           else 0.0)
  }

  function GradedWeight(uc: UC, activities: seq<Activity>): real {
    WeightSum(GradedEvaluations(uc, activities))
  }

  /** An activity of the UC still open at `now`: not completed, not cancelled, not past. */
  predicate IsOpenFor(a: Activity, ucId: EntityId, now: int) {
    a.ucId == Some(ucId) && a.status != Completed && a.status != Cancelled && a.dueAt >= now
  }

  /** The due date of the first open activity after sorting: the earliest one. */
  function NextDeadline(uc: UC, activities: seq<Activity>, now: int): (r: Option<int>)
    ensures r.None? <==> forall a :: a in activities ==> !IsOpenFor(a, uc.id, now)
    ensures r.Some? ==> exists a :: a in activities && IsOpenFor(a, uc.id, now) && a.dueAt == r.value
    ensures r.Some? ==> forall a :: a in activities && IsOpenFor(a, uc.id, now) ==> r.value <= a.dueAt
  {
    var open := Filter(activities, (a: Activity) => IsOpenFor(a, uc.id, now));
    var sorted := SortByDue(open);
    SortKeepsMembers(open);
    if sorted == [] then
      None
    else
      assert sorted[0] in open;
      assert forall a :: a in open ==> sorted[0].dueAt <= a.dueAt by {
        forall a | a in open ensures sorted[0].dueAt <= a.dueAt {
          var k :| 0 <= k < |sorted| && sorted[k] == a;
          if k > 0 {
            assert sorted[0].dueAt <= sorted[k].dueAt;
          }
        }
      }
      Some(sorted[0].dueAt)
  }

  /** `calculateUcStats` */
  function CalculateUcStats(uc: UC, activities: seq<Activity>, now: int): (r: UcProgressStats)
    ensures r.ucId == uc.id
    ensures 0.0 <= r.gradedWeight <= 100.0 && 0.0 <= r.remainingWeight <= 100.0
    ensures 0.0 <= GradedWeight(uc, activities) <= 100.0 ==>
      r.gradedWeight == Round1(GradedWeight(uc, activities))
      && r.remainingWeight == Round1(100.0 - GradedWeight(uc, activities))
    ensures GradedWeight(uc, activities) >= 100.0 ==> r.gradedWeight == 100.0 && r.remainingWeight == 0.0
    ensures GradedWeight(uc, activities) <= 0.0 ==> r.gradedWeight == 0.0 && r.remainingWeight == 100.0
    ensures r.partialAverage.None? <==> GradedWeight(uc, activities) <= 0.0
    ensures r.partialAverage.Some? ==>
      r.partialAverage.value == Round1(WeightedScoreSum(GradedEvaluations(uc, activities)) / GradedWeight(uc, activities))
    ensures r.totalEvaluations == |UcEvaluations(uc, activities)|
    ensures r.completedEvaluations == |GradedEvaluations(uc, activities)|
    ensures r.completedEvaluations <= r.totalEvaluations
    ensures r.totalEvaluations == 0 ==> r.completionPercent == 0.0
    ensures r.completionPercent == CompletionPercent(r.completedEvaluations, r.totalEvaluations)
    ensures 0.0 <= r.completionPercent <= 100.0
    ensures r.nextDeadlineAt == NextDeadline(uc, activities, now)
  {
    var evaluations := UcEvaluations(uc, activities);
    var graded := GradedEvaluations(uc, activities);
    var gradedWeight := WeightSum(graded);
    var weightedGradeSum := WeightedScoreSum(graded);
    assert |graded| <= |evaluations|;
    UcProgressStats(
      uc.id,
      RoundedMean(weightedGradeSum, gradedWeight),
      WeightShare(gradedWeight),
      WeightShare(100.0 - gradedWeight),
      |graded|,
      |evaluations|,
      CompletionPercent(|graded|, |evaluations|),
      NextDeadline(uc, activities, now))
  }

  /** Only evaluations of the UC itself enter its grading figures: appending any other
      activity changes nothing but, possibly, the next deadline. */
  lemma UcStatsIgnoreOtherActivities(uc: UC, activities: seq<Activity>, a: Activity, now: int)
    requires a.kind != Evaluation || a.ucId != Some(uc.id)
    ensures var before := CalculateUcStats(uc, activities, now);
      CalculateUcStats(uc, activities + [a], now).(nextDeadlineAt := before.nextDeadlineAt) == before
  {
    assert UcEvaluations(uc, activities + [a]) == UcEvaluations(uc, activities) by {
      FilterAppendOne(activities, a, (x: Activity) => x.kind == Evaluation && x.ucId == Some(uc.id));
    }
    assert GradedEvaluations(uc, activities + [a]) == GradedEvaluations(uc, activities);
  }

  /** An activity of another UC (or of none) leaves the UC's statistics untouched. */
  lemma UcStatsIgnoreOtherUcs(uc: UC, activities: seq<Activity>, a: Activity, now: int)
    requires a.ucId != Some(uc.id)
    ensures CalculateUcStats(uc, activities + [a], now) == CalculateUcStats(uc, activities, now)
  {
    UcStatsIgnoreOtherActivities(uc, activities, a, now);
    var before := NextDeadline(uc, activities, now);
    var after := NextDeadline(uc, activities + [a], now);
    assert forall x :: x in activities + [a] && IsOpenFor(x, uc.id, now) <==> x in activities && IsOpenFor(x, uc.id, now);
    if before.Some? && after.Some? {
      var b :| b in activities && IsOpenFor(b, uc.id, now) && b.dueAt == before.value;
      var c :| c in activities + [a] && IsOpenFor(c, uc.id, now) && c.dueAt == after.value;
      assert after.value <= b.dueAt;
      assert before.value <= c.dueAt;
    }
  }

  /** `weight > 0 ? round1(sum / weight) : null` */
  function RoundedMean(sum: real, weight: real): (r: Option<real>)
    ensures r.None? <==> weight <= 0.0
    ensures r.Some? ==> weight != 0.0 && r.value == Round1(sum / weight)
  {
    if weight > 0.0 then Some(Round1(sum / weight)) else None
  }

  /** `round1(clamp(weight, 0, 100))`: a weight as a rounded percentage. */
  function WeightShare(weight: real): (r: real)
    ensures 0.0 <= r <= 100.0
    ensures 0.0 <= weight <= 100.0 ==> r == Round1(weight)
    ensures weight >= 100.0 ==> r == 100.0
    ensures weight <= 0.0 ==> r == 0.0
  {
    Round1Within(Clamp(weight, 0.0, 100.0), 0, 1000);
    Round1OfTenths(0);
    Round1OfTenths(1000);
    Round1(Clamp(weight, 0.0, 100.0))
  }

  /** `total ? round1((done / total) * 100) : 0` */
  function CompletionPercent(done: nat, total: nat): (r: real)
    requires done <= total
    ensures total == 0 ==> r == 0.0
    ensures total > 0 ==> r == Round1((done as real / total as real) * 100.0)
    ensures 0.0 <= r <= 100.0
    ensures 0 < done == total ==> r == 100.0
  {
    if total != 0 then
      var fraction := (done as real / total as real) * 100.0;
      assert done as real / total as real <= 1.0;
      Round1Within(fraction, 0, 1000);
      Round1OfTenths(1000);
      assert done == total ==> fraction == 1000 as real / 10.0;
      Round1(fraction)
    else 0.0
  }

  /** When the graded weight is a whole number of tenths within 0..100, the graded and
      remaining weights are exact and add up to 100. */
  lemma UcWeightsComplement(uc: UC, activities: seq<Activity>, now: int)
    requires 0.0 <= GradedWeight(uc, activities) <= 100.0
    requires (GradedWeight(uc, activities) * 10.0).Floor as real == GradedWeight(uc, activities) * 10.0
    ensures CalculateUcStats(uc, activities, now).gradedWeight == GradedWeight(uc, activities)
    ensures CalculateUcStats(uc, activities, now).gradedWeight + CalculateUcStats(uc, activities, now).remainingWeight == 100.0
  {
    TenthsComplement(GradedWeight(uc, activities));
  }

  /** A whole number of tenths in 0..100 and its complement to 100 are both left
      unchanged by rounding. */
  lemma TenthsComplement(w: real)
    requires 0.0 <= w <= 100.0 && (w * 10.0).Floor as real == w * 10.0
    ensures Round1(w) == w && Round1(100.0 - w) == 100.0 - w
  {
    var k := (w * 10.0).Floor;
    assert w == k as real / 10.0;
    assert 100.0 - w == (1000 - k) as real / 10.0;
    Round1OfTenths(k);
    Round1OfTenths(1000 - k);
  }

  /** An evaluation of the UC with no grade record at all is counted as completed and
      adds no weight: `grade?.score` is `undefined`, which is not `null`. */
  lemma MissingGradeCountsAsGraded(uc: UC, activities: seq<Activity>, a: Activity, now: int)
    requires a.kind == Evaluation && a.ucId == Some(uc.id) && a.grade.None?
    ensures var before, after := CalculateUcStats(uc, activities, now), CalculateUcStats(uc, activities + [a], now);
      && after.completedEvaluations == before.completedEvaluations + 1
      && after.totalEvaluations == before.totalEvaluations + 1
      && after.gradedWeight == before.gradedWeight
      && after.partialAverage == before.partialAverage
  {
    var p := (x: Activity) => x.kind == Evaluation && x.ucId == Some(uc.id);
    FilterAppendOne(activities, a, p);
    FilterAppendOne(UcEvaluations(uc, activities), a, CountsAsGraded);
    var g := GradedEvaluations(uc, activities);
    assert GradedEvaluations(uc, activities + [a]) == g + [a];
    assert (g + [a])[..|g|] == g;
  }

  /** A grade record whose weight is not negative and whose score lies inside its scale. */
  predicate GradeInScale(a: Activity) {
    a.grade.Some? ==>
      && a.grade.value.weight >= 0.0
      && (a.grade.value.score.Some? ==>
            0.0 <= a.grade.value.score.value.value <= ScaleTop(a.grade.value.score.value.scale))
  }

  lemma MulWithinTwenty(n: real, w: real)
    requires 0.0 <= n <= 20.0 && w >= 0.0
    ensures 0.0 <= n * w <= 20.0 * w
  {
    assert 20.0 * w - n * w == (20.0 - n) * w;
  }

  lemma {:induction false} ScoreSumWithin(es: seq<Activity>)
    requires forall e :: e in es ==> GradeInScale(e)
    ensures 0.0 <= WeightSum(es)
    ensures 0.0 <= WeightedScoreSum(es) <= 20.0 * WeightSum(es)
    decreases |es|
  {
    if es != [] {
      var init := es[..|es| - 1];
      assert forall x :: x in init ==> x in es;
      assert es[|es| - 1] in es;
      ScoreSumWithin(init);
      LastStepWithin(es);
      BoundStep(WeightedScoreSum(init), WeightSum(init),
                WeightedScoreSum(es) - WeightedScoreSum(init), WeightSum(es) - WeightSum(init));
    }
  }

  /** The last evaluation adds a non-negative weight and at most 20 times that weight
      to the weighted score sum. */
  lemma LastStepWithin(es: seq<Activity>)
    requires es != [] && GradeInScale(es[|es| - 1])
    ensures var init := es[..|es| - 1];
      && 0.0 <= WeightSum(es) - WeightSum(init)
      && 0.0 <= WeightedScoreSum(es) - WeightedScoreSum(init) <= 20.0 * (WeightSum(es) - WeightSum(init))
  {
    var init, e := es[..|es| - 1], es[|es| - 1];
    var w := if e.grade.Some? then e.grade.value.weight else 0.0;
    assert WeightSum(es) - WeightSum(init) == w;
    if e.grade.Some? && e.grade.value.score.Some? {
      var n := NormalizeScoreTo20(e.grade.value.score.value);
      NormalizeWithinTwenty(e.grade.value.score.value);
      MulWithinTwenty(n, w);
      assert WeightedScoreSum(es) - WeightedScoreSum(init) == n * w;
    } else {
      assert WeightedScoreSum(es) == WeightedScoreSum(init);
    }
  }

  lemma BoundStep(sum: real, weight: real, added: real, w: real)
    requires 0.0 <= sum <= 20.0 * weight && 0.0 <= added <= 20.0 * w
    ensures 0.0 <= sum + added <= 20.0 * (weight + w)
  {
  }

  /** With weights not negative and scores inside their scales, the partial average
      lies inside the 0-20 scale. */
  lemma PartialAverageWithinScale(uc: UC, activities: seq<Activity>, now: int)
    requires forall a :: a in activities ==> GradeInScale(a)
    ensures CalculateUcStats(uc, activities, now).partialAverage.Some? ==>
      0.0 <= CalculateUcStats(uc, activities, now).partialAverage.value <= 20.0
  {
    var g := GradedEvaluations(uc, activities);
    ScoreSumWithin(g);
    var w, s := WeightSum(g), WeightedScoreSum(g);
    if w > 0.0 {
      MeanWithinTwenty(s, w);
      Round1Within(s / w, 0, 200);
    }
  }

  lemma MeanWithinTwenty(s: real, w: real)
    requires w > 0.0 && 0.0 <= s <= 20.0 * w
    ensures 0.0 <= s / w <= 20.0
  {
    assert s / w * w == s;
  }

  function ExampleEvaluation(id: EntityId, score: Option<real>, weight: real): Activity {
    Activity(id, Evaluation, id, 0, Planned, "s1", Some("uc"),
      Some(GradeRecord(if score.Some? then Some(ScoreValueObject(score.value, Scale0To20)) else None, weight, None)))
  }

  function ExampleActivities(): seq<Activity> {
    [ExampleEvaluation("e1", Some(15.0), 20.0), ExampleEvaluation("e2", Some(16.0), 20.0),
     ExampleEvaluation("e3", None, 30.0), ExampleEvaluation("e4", None, 30.0)]
  }

  lemma ExampleEvaluations(uc: UC)
    requires uc.id == "uc"
    ensures UcEvaluations(uc, ExampleActivities()) == ExampleActivities()
  {
    var xs := ExampleActivities();
    FilterAll(xs, (x: Activity) => x.kind == Evaluation && x.ucId == Some(uc.id));
  }

  lemma ExampleGraded()
    ensures Filter(ExampleActivities(), CountsAsGraded) == ExampleActivities()[..2]
  {
    var xs := ExampleActivities();
    FilterConcat(xs[..2], xs[2..], CountsAsGraded);
    assert xs[..2] + xs[2..] == xs;
    FilterAll(xs[..2], CountsAsGraded);
    FilterNone(xs[2..], CountsAsGraded);
  }

  /** Two 20% evaluations graded 15 and 16 and two ungraded 30% ones: average 15.5,
      40% graded, 60% remaining, 2 of 4 completed, 50% completion. */
  lemma ExampleUcStats(now: int)
    ensures var r := CalculateUcStats(UC("uc", "c1", "s1", 6.0), ExampleActivities(), now);
      && r.partialAverage == Some(15.5)
      && r.gradedWeight == 40.0 && r.remainingWeight == 60.0
      && r.completedEvaluations == 2 && r.totalEvaluations == 4
      && r.completionPercent == 50.0
  {
    var uc := UC("uc", "c1", "s1", 6.0);
    ExampleEvaluations(uc);
    ExampleGraded();
    var g := ExampleActivities()[..2];
    assert g[..1] == [g[0]];
    assert WeightSum(g) == 40.0;
    assert WeightedScoreSum(g) == 620.0;
    Round1OfTenths(155);
    Round1OfTenths(400);
    Round1OfTenths(600);
    Round1OfTenths(500);
    assert 620.0 / 40.0 == 155 as real / 10.0;
    assert (2 as real / 4 as real) * 100.0 == 500 as real / 10.0;
  }

  // ---------------------------------------------------------------- semester statistics

  function SemesterUcs(semester: Semester, ucs: seq<UC>): seq<UC> {
    Filter(ucs, (uc: UC) => uc.semesterId == semester.id)
  }

  function SemesterEvaluations(semester: Semester, activities: seq<Activity>): seq<Activity> {
    Filter(activities, (a: Activity) => a.semesterId == semester.id && a.kind == Evaluation)
  }

  datatype UcWithStats = UcWithStats(uc: UC, stats: UcProgressStats)

  /** `semesterUcs.map((uc) => ({ uc, stats: calculateUcStats(uc, activities, now) }))` */
  function UcStatsOf(us: seq<UC>, activities: seq<Activity>, now: int): (r: seq<UcWithStats>)
    ensures |r| == |us|
    ensures forall i :: 0 <= i < |us| ==> r[i] == UcWithStats(us[i], CalculateUcStats(us[i], activities, now))
  {
    seq(|us|, i requires 0 <= i < |us| => UcWithStats(us[i], CalculateUcStats(us[i], activities, now)))
  }

  function EctsSum(us: seq<UC>): real
    decreases |us|
  {
    if us == [] then 0.0 else EctsSum(us[..|us| - 1]) + us[|us| - 1].ects
  }

  /** Sum of partial average times ECTS over the UCs that have a partial average. */
  function AveragedGradeByEcts(items: seq<UcWithStats>): real
    decreases |items|
  {
    if items == [] then 0.0
    else
      var item := items[|items| - 1];
      AveragedGradeByEcts(items[..|items| - 1])
        + (if item.stats.partialAverage.Some? then item.stats.partialAverage.value * item.uc.ects else 0.0)
  }

  /** Sum of ECTS over the UCs that have a partial average. */
  function AveragedEcts(items: seq<UcWithStats>): real
    decreases |items|
  {
    if items == [] then 0.0
    else
      var item := items[|items| - 1];
      AveragedEcts(items[..|items| - 1]) + (if item.stats.partialAverage.Some? then item.uc.ects else 0.0)
  }

  /** A UC counts as completed when it has evaluations and no weight remains. */
  predicate IsCompletedUc(stats: UcProgressStats) {
    stats.totalEvaluations > 0 && stats.remainingWeight == 0.0
  }

  function CompletedEcts(items: seq<UcWithStats>): real
    decreases |items|
  {
    if items == [] then 0.0
    else
      var item := items[|items| - 1];
      CompletedEcts(items[..|items| - 1]) + (if IsCompletedUc(item.stats) then item.uc.ects else 0.0)
  }

  /** `calculateSemesterStats` */
  function CalculateSemesterStats(semester: Semester, ucs: seq<UC>, activities: seq<Activity>, now: int)
    : (r: SemesterProgressStats)
    ensures r.semesterId == semester.id
    ensures var items := UcStatsOf(SemesterUcs(semester, ucs), activities, now);
      && (r.semesterAverage.None? <==> AveragedEcts(items) <= 0.0)
      && (r.semesterAverage.Some? ==> r.semesterAverage.value == Round1(AveragedGradeByEcts(items) / AveragedEcts(items)))
      && r.completedEcts == CompletedEcts(items)
    ensures r.totalEcts == EctsSum(SemesterUcs(semester, ucs))
    ensures r.totalEvaluations == |SemesterEvaluations(semester, activities)|
    ensures r.completedEvaluations == |Filter(SemesterEvaluations(semester, activities), CountsAsGraded)|
    ensures r.completedEvaluations <= r.totalEvaluations
    ensures r.totalEvaluations == 0 ==> r.completionPercent == 0.0
    ensures r.completionPercent == CompletionPercent(r.completedEvaluations, r.totalEvaluations)
    ensures 0.0 <= r.completionPercent <= 100.0
  {
    var semesterUcs := SemesterUcs(semester, ucs);
    var evaluations := SemesterEvaluations(semester, activities);
    var items := UcStatsOf(semesterUcs, activities, now);
    var gradeByEcts := AveragedGradeByEcts(items);
    var ects := AveragedEcts(items);
    var completed := Filter(evaluations, CountsAsGraded);
    SemesterProgressStats(
      semester.id,
      if ects > 0.0 then Some(Round1(gradeByEcts / ects)) else None,
      EctsSum(semesterUcs),
      CompletedEcts(items),
      CompletionPercent(|completed|, |evaluations|),
      |completed|,
      |evaluations|)
  }

  lemma {:induction false} CompletedEctsWithinTotal(items: seq<UcWithStats>, us: seq<UC>)
    requires |items| == |us| && forall i :: 0 <= i < |us| ==> items[i].uc == us[i] && us[i].ects >= 0.0
    ensures 0.0 <= CompletedEcts(items) <= EctsSum(us)
    decreases |us|
  {
    if us != [] {
      CompletedEctsWithinTotal(items[..|items| - 1], us[..|us| - 1]);
    }
  }

  /** With ECTS not negative, the completed ECTS of a semester never exceed its total. */
  lemma SemesterCompletedEctsWithinTotal(semester: Semester, ucs: seq<UC>, activities: seq<Activity>, now: int)
    requires forall uc :: uc in ucs ==> uc.ects >= 0.0
    ensures 0.0 <= CalculateSemesterStats(semester, ucs, activities, now).completedEcts
    ensures CalculateSemesterStats(semester, ucs, activities, now).completedEcts
         <= CalculateSemesterStats(semester, ucs, activities, now).totalEcts
  {
    var us := SemesterUcs(semester, ucs);
    CompletedEctsWithinTotal(UcStatsOf(us, activities, now), us);
  }

  lemma {:induction false} AveragedEctsWithoutAverages(items: seq<UcWithStats>)
    requires forall i :: 0 <= i < |items| ==> items[i].stats.partialAverage.None?
    ensures AveragedEcts(items) == 0.0
    decreases |items|
  {
    if items != [] {
      AveragedEctsWithoutAverages(items[..|items| - 1]);
    }
  }

  /** When no UC of the semester has a partial average, neither has the semester. */
  lemma SemesterAverageNullWithoutUcAverages(semester: Semester, ucs: seq<UC>, activities: seq<Activity>, now: int)
    requires forall uc :: uc in ucs && uc.semesterId == semester.id ==>
      CalculateUcStats(uc, activities, now).partialAverage.None?
    ensures CalculateSemesterStats(semester, ucs, activities, now).semesterAverage.None?
  {
    var us := SemesterUcs(semester, ucs);
    var items := UcStatsOf(us, activities, now);
    forall i | 0 <= i < |items| ensures items[i].stats.partialAverage.None? {
      assert us[i] in us;
    }
    AveragedEctsWithoutAverages(items);
  }

  lemma {:induction false} AveragedWithin(items: seq<UcWithStats>)
    requires forall i :: 0 <= i < |items| ==> items[i].uc.ects >= 0.0
    requires forall i :: 0 <= i < |items| ==>
      items[i].stats.partialAverage.Some? ==> 0.0 <= items[i].stats.partialAverage.value <= 20.0
    ensures 0.0 <= AveragedEcts(items)
    ensures 0.0 <= AveragedGradeByEcts(items) <= 20.0 * AveragedEcts(items)
    decreases |items|
  {
    if items != [] {
      var init := items[..|items| - 1];
      AveragedWithin(init);
      LastAveragedStepWithin(items);
      BoundStep(AveragedGradeByEcts(init), AveragedEcts(init),
                AveragedGradeByEcts(items) - AveragedGradeByEcts(init), AveragedEcts(items) - AveragedEcts(init));
    }
  }

  /** The last UC adds non-negative ECTS and at most 20 times them to the ECTS-weighted sum. */
  lemma LastAveragedStepWithin(items: seq<UcWithStats>)
    requires items != [] && items[|items| - 1].uc.ects >= 0.0
    requires var p := items[|items| - 1].stats.partialAverage; p.Some? ==> 0.0 <= p.value <= 20.0
    ensures var init := items[..|items| - 1];
      && 0.0 <= AveragedEcts(items) - AveragedEcts(init)
      && 0.0 <= AveragedGradeByEcts(items) - AveragedGradeByEcts(init) <= 20.0 * (AveragedEcts(items) - AveragedEcts(init))
  {
    var item, init := items[|items| - 1], items[..|items| - 1];
    var e := if item.stats.partialAverage.Some? then item.uc.ects else 0.0;
    assert AveragedEcts(items) - AveragedEcts(init) == e;
    if item.stats.partialAverage.Some? {
      var a := item.stats.partialAverage.value;
      MulWithinTwenty(a, e);
      assert AveragedGradeByEcts(items) - AveragedGradeByEcts(init) == a * e;
    } else {
      assert AveragedGradeByEcts(items) == AveragedGradeByEcts(init);
    }
  }

  /** A weighted mean of values within 0..20, rounded, stays within 0..20. */
  lemma MeanWithinScale(sum: real, weight: real)
    requires weight > 0.0 && 0.0 <= sum <= 20.0 * weight
    ensures 0.0 <= Round1(sum / weight) <= 20.0
  {
    MeanWithinTwenty(sum, weight);
    Round1Within(sum / weight, 0, 200);
  }

  /** With ECTS and weights not negative and scores inside their scales, the semester
      average lies inside the 0-20 scale. */
  lemma SemesterAverageWithinScale(semester: Semester, ucs: seq<UC>, activities: seq<Activity>, now: int)
    requires forall uc :: uc in ucs ==> uc.ects >= 0.0
    requires forall a :: a in activities ==> GradeInScale(a)
    ensures CalculateSemesterStats(semester, ucs, activities, now).semesterAverage.Some? ==>
      0.0 <= CalculateSemesterStats(semester, ucs, activities, now).semesterAverage.value <= 20.0
  {
    var us := SemesterUcs(semester, ucs);
    var items := UcStatsOf(us, activities, now);
    forall i | 0 <= i < |items|
      ensures items[i].uc.ects >= 0.0
      ensures items[i].stats.partialAverage.Some? ==> 0.0 <= items[i].stats.partialAverage.value <= 20.0
    {
      assert us[i] in us;
      PartialAverageWithinScale(us[i], activities, now);
    }
    AveragedWithin(items);
    if AveragedEcts(items) > 0.0 {
      MeanWithinScale(AveragedGradeByEcts(items), AveragedEcts(items));
    }
  }

  // ---------------------------------------------------------------- course statistics

  function CourseSemesters(course: Course, semesters: seq<Semester>): seq<Semester> {
    Filter(semesters, (s: Semester) => s.courseId == course.id)
  }

  /** `courseSemesters.map((semester) => calculateSemesterStats(semester, ucs, activities, now))` */
  function SemesterStatsOf(ss: seq<Semester>, ucs: seq<UC>, activities: seq<Activity>, now: int)
    : (r: seq<SemesterProgressStats>)
    ensures |r| == |ss|
    ensures forall i :: 0 <= i < |ss| ==> r[i] == CalculateSemesterStats(ss[i], ucs, activities, now)
  {
    seq(|ss|, i requires 0 <= i < |ss| => CalculateSemesterStats(ss[i], ucs, activities, now))
  }

  function TotalEctsOf(stats: seq<SemesterProgressStats>): real
    decreases |stats|
  {
    if stats == [] then 0.0 else TotalEctsOf(stats[..|stats| - 1]) + stats[|stats| - 1].totalEcts
  }

  function CompletedEctsOf(stats: seq<SemesterProgressStats>): real
    decreases |stats|
  {
    if stats == [] then 0.0 else CompletedEctsOf(stats[..|stats| - 1]) + stats[|stats| - 1].completedEcts
  }

  /** Sum of semester average times total ECTS over the semesters that have an average. */
  function CourseGradeByEcts(stats: seq<SemesterProgressStats>): real
    decreases |stats|
  {
    if stats == [] then 0.0
    else
      var last := stats[|stats| - 1];
      CourseGradeByEcts(stats[..|stats| - 1])
        + (if last.semesterAverage.Some? then last.semesterAverage.value * last.totalEcts else 0.0)
  }

  /** Sum of total ECTS over the semesters that have an average. */
  function CourseAveragedEcts(stats: seq<SemesterProgressStats>): real
    decreases |stats|
  {
    if stats == [] then 0.0
    else
      var last := stats[|stats| - 1];
      CourseAveragedEcts(stats[..|stats| - 1]) + (if last.semesterAverage.Some? then last.totalEcts else 0.0)
  }

  /** `totalEcts > 0 ? round1((completedEcts / totalEcts) * 100) : 0` */
  function EctsPercent(completed: real, total: real): (r: real)
    ensures total <= 0.0 ==> r == 0.0
    ensures total > 0.0 ==> r == Round1((completed / total) * 100.0)
    ensures 0.0 <= completed <= total ==> 0.0 <= r <= 100.0
  {
    if total > 0.0 then
      var fraction := (completed / total) * 100.0;
      if 0.0 <= completed <= total then
        assert completed / total <= 1.0;
        Round1Within(fraction, 0, 1000);
        Round1(fraction)
      else Round1(fraction)
    else 0.0
  }

  /** `calculateCourseStats` */
  function CalculateCourseStats(course: Course, semesters: seq<Semester>, ucs: seq<UC>, activities: seq<Activity>, now: int)
    : (r: CourseProgressStats)
    ensures r.courseId == course.id
    ensures var stats := SemesterStatsOf(CourseSemesters(course, semesters), ucs, activities, now);
      && r.totalEcts == TotalEctsOf(stats)
      && r.completedEcts == CompletedEctsOf(stats)
      && (r.courseAverage.None? <==> CourseAveragedEcts(stats) <= 0.0)
      && (r.courseAverage.Some? ==> r.courseAverage.value == Round1(CourseGradeByEcts(stats) / CourseAveragedEcts(stats)))
    ensures r.totalEcts <= 0.0 ==> r.completionPercent == 0.0
    ensures r.completionPercent == EctsPercent(r.completedEcts, r.totalEcts)
  {
    var stats := SemesterStatsOf(CourseSemesters(course, semesters), ucs, activities, now);
    var gradeByEcts := CourseGradeByEcts(stats);
    var ects := CourseAveragedEcts(stats);
    var total := TotalEctsOf(stats);
    var completed := CompletedEctsOf(stats);
    CourseProgressStats(
      course.id,
      if ects > 0.0 then Some(Round1(gradeByEcts / ects)) else None,
      total,
      completed,
      EctsPercent(completed, total))
  }

  lemma {:induction false} SemesterEctsWithinTotal(stats: seq<SemesterProgressStats>)
    requires forall i :: 0 <= i < |stats| ==> 0.0 <= stats[i].completedEcts <= stats[i].totalEcts
    ensures 0.0 <= CompletedEctsOf(stats) <= TotalEctsOf(stats)
    decreases |stats|
  {
    if stats != [] {
      SemesterEctsWithinTotal(stats[..|stats| - 1]);
    }
  }

  /** With ECTS not negative, the course's completed ECTS never exceed its total and
      its completion lies within 0..100. */
  lemma CourseCompletionWithinBounds(course: Course, semesters: seq<Semester>, ucs: seq<UC>, activities: seq<Activity>, now: int)
    requires forall uc :: uc in ucs ==> uc.ects >= 0.0
    ensures var r := CalculateCourseStats(course, semesters, ucs, activities, now);
      0.0 <= r.completedEcts <= r.totalEcts && 0.0 <= r.completionPercent <= 100.0
  {
    var ss := CourseSemesters(course, semesters);
    var stats := SemesterStatsOf(ss, ucs, activities, now);
    forall i | 0 <= i < |stats| ensures 0.0 <= stats[i].completedEcts <= stats[i].totalEcts {
      SemesterCompletedEctsWithinTotal(ss[i], ucs, activities, now);
    }
    SemesterEctsWithinTotal(stats);
  }

  /** A course with no semesters has no ECTS, no average and 0% completion. */
  lemma CourseWithoutSemesters(course: Course, semesters: seq<Semester>, ucs: seq<UC>, activities: seq<Activity>, now: int)
    requires forall s :: s in semesters ==> s.courseId != course.id
    ensures CalculateCourseStats(course, semesters, ucs, activities, now)
         == CourseProgressStats(course.id, None, 0.0, 0.0, 0.0)
  {
    var ss := CourseSemesters(course, semesters);
    FilterNone(semesters, (s: Semester) => s.courseId == course.id);
    assert SemesterStatsOf(ss, ucs, activities, now) == [];
  }

  // ---------------------------------------------------------------- upcoming deadlines

  /** The end of the listing window: at least one day after `now`. */
  function WindowEnd(now: int, rangeDays: real): real {
    now as real + Max(1.0, rangeDays) * DayInMs as real
  }

  /** Not completed, not cancelled and due inside `[from, to]`. */
  predicate IsUpcoming(a: Activity, from: int, to: real) {
    a.status != Completed && a.status != Cancelled && from <= a.dueAt && a.dueAt as real <= to
  }

  function ToUpcomingDeadline(a: Activity): UpcomingDeadline {
    UpcomingDeadline(a.id, a.kind, a.title, a.dueAt, a.semesterId, a.ucId)
  }

  /** The `.map` of the listing: one deadline per activity, in the same order. */
  function ToDeadlines(xs: seq<Activity>): (r: seq<UpcomingDeadline>)
    ensures |r| == |xs|
    ensures forall i :: 0 <= i < |xs| ==> r[i] == ToUpcomingDeadline(xs[i])
  {
    seq(|xs|, i requires 0 <= i < |xs| => ToUpcomingDeadline(xs[i]))
  }

  lemma SortKeepsMembers(xs: seq<Activity>)
    ensures forall x :: x in SortByDue(xs) <==> x in xs
  {
    forall x ensures x in SortByDue(xs) <==> x in xs {
      assert x in SortByDue(xs) <==> x in multiset(SortByDue(xs));
      assert x in xs <==> x in multiset(xs);
    }
  }

  lemma ToDeadlinesMembers(xs: seq<Activity>)
    ensures forall a :: a in xs ==> ToUpcomingDeadline(a) in ToDeadlines(xs)
    ensures forall d :: d in ToDeadlines(xs) ==> exists a :: a in xs && ToUpcomingDeadline(a) == d
  {
    var r := ToDeadlines(xs);
    forall a | a in xs ensures ToUpcomingDeadline(a) in r {
      var k :| 0 <= k < |xs| && xs[k] == a;
      assert r[k] == ToUpcomingDeadline(a);
    }
    forall d | d in r ensures exists a :: a in xs && ToUpcomingDeadline(a) == d {
      var k :| 0 <= k < |r| && r[k] == d;
      assert xs[k] in xs;
    }
  }

  lemma ToDeadlinesConcat(xs: seq<Activity>, ys: seq<Activity>)
    ensures ToDeadlines(xs + ys) == ToDeadlines(xs) + ToDeadlines(ys)
  {
  }

  lemma {:induction false} DeadlinesOfInsert(a: Activity, xs: seq<Activity>)
    requires SortedByDue(xs)
    ensures multiset(ToDeadlines(InsertByDue(a, xs))) == multiset(ToDeadlines(xs)) + multiset{ToUpcomingDeadline(a)}
    decreases |xs|
  {
    if xs == [] {
    } else if a.dueAt < xs[0].dueAt {
      ToDeadlinesConcat([a], xs);
    } else {
      assert xs == [xs[0]] + xs[1..];
      DeadlinesOfInsert(a, xs[1..]);
      ToDeadlinesConcat([xs[0]], InsertByDue(a, xs[1..]));
      ToDeadlinesConcat([xs[0]], xs[1..]);
    }
  }

  lemma DeadlinesOfSortStep(xs: seq<Activity>)
    requires xs != []
    ensures multiset(ToDeadlines(SortByDue(xs)))
         == multiset(ToDeadlines(SortByDue(xs[..|xs| - 1]))) + multiset{ToUpcomingDeadline(xs[|xs| - 1])}
  {
    DeadlinesOfInsert(xs[|xs| - 1], SortByDue(xs[..|xs| - 1]));
  }

  lemma DeadlinesOfSnoc(xs: seq<Activity>)
    requires xs != []
    ensures multiset(ToDeadlines(xs))
         == multiset(ToDeadlines(xs[..|xs| - 1])) + multiset{ToUpcomingDeadline(xs[|xs| - 1])}
  {
    assert xs == xs[..|xs| - 1] + [xs[|xs| - 1]];
    ToDeadlinesConcat(xs[..|xs| - 1], [xs[|xs| - 1]]);
  }

  /** Sorting before the `.map` reorders the deadlines but keeps each as often as it occurs. */
  lemma {:induction false} DeadlinesOfSort(xs: seq<Activity>)
    ensures multiset(ToDeadlines(SortByDue(xs))) == multiset(ToDeadlines(xs))
    decreases |xs|
  {
    if xs != [] {
      DeadlinesOfSort(xs[..|xs| - 1]);
      DeadlinesOfSortStep(xs);
      DeadlinesOfSnoc(xs);
    }
  }

  /** `getUpcomingDeadlines` */
  function GetUpcomingDeadlines(activities: seq<Activity>, rangeDays: real, now: int): (r: seq<UpcomingDeadline>)
    ensures forall i, j :: 0 <= i < j < |r| ==> r[i].dueAt <= r[j].dueAt
    ensures forall d :: d in r ==> now <= d.dueAt && d.dueAt as real <= WindowEnd(now, rangeDays)
    ensures forall d :: d in r ==>
      exists a :: a in activities && IsUpcoming(a, now, WindowEnd(now, rangeDays)) && ToUpcomingDeadline(a) == d
    ensures forall a :: a in activities && IsUpcoming(a, now, WindowEnd(now, rangeDays)) ==> ToUpcomingDeadline(a) in r
    ensures multiset(r) == multiset(ToDeadlines(Filter(activities, (a: Activity) => IsUpcoming(a, now, WindowEnd(now, rangeDays)))))
  {
    var to := WindowEnd(now, rangeDays);
    var upcoming := Filter(activities, (a: Activity) => IsUpcoming(a, now, to));
    var sorted := SortByDue(upcoming);
    SortKeepsMembers(upcoming);
    ToDeadlinesMembers(sorted);
    DeadlinesOfSort(upcoming);
    ToDeadlines(sorted)
  }

  /** The window spans at least one day, and exactly `rangeDays` days when that is at least 1. */
  lemma WindowAtLeastOneDay(now: int, rangeDays: real)
    ensures WindowEnd(now, rangeDays) >= (now + DayInMs) as real
    ensures rangeDays >= 1.0 ==> WindowEnd(now, rangeDays) == now as real + rangeDays * DayInMs as real
  {
  }
}
