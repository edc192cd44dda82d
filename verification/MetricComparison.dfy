/**
 Aggregation of independent runs and classification of a metric, over exact reals: neither
 depends on the unit or on the order of the runs, and a better value is never classed worse.
 */
module MetricComparison {
  import opened Options

  // ---- sorting ----

  predicate NonDecreasing(s: seq<real>) { forall i, j :: 0 <= i <= j < |s| ==> s[i] <= s[j] }

  function Insert(x: real, s: seq<real>): (t: seq<real>)
    ensures |t| == |s| + 1
  {
    if s == [] || x <= s[0] then [x] + s else [s[0]] + Insert(x, s[1..])
  }

  function Ordered(values: seq<real>): (t: seq<real>)
    ensures |t| == |values|
  {
    if values == [] then [] else Insert(values[0], Ordered(values[1..]))
  }

  lemma {:induction false} InsertKeeps(x: real, s: seq<real>)
    ensures multiset(Insert(x, s)) == multiset(s) + multiset{x}
  {
    if s != [] && !(x <= s[0]) {
      InsertKeeps(x, s[1..]);
      assert s == [s[0]] + s[1..];
    }
  }

  lemma InsertMembers(x: real, s: seq<real>)
    ensures forall y :: y in Insert(x, s) ==> y == x || y in s
  {
    InsertKeeps(x, s);
    forall y | y in Insert(x, s) ensures y == x || y in s {
      assert y in multiset(Insert(x, s));
    }
  }

  lemma AscendsCons(x: real, s: seq<real>)
    requires NonDecreasing(s) && forall y :: y in s ==> x <= y
    ensures NonDecreasing([x] + s)
  {
    var t := [x] + s;
    forall i, j | 0 <= i <= j < |t| ensures t[i] <= t[j] {
      if i > 0 {
        assert t[i] == s[i - 1] && t[j] == s[j - 1];
      } else if j > 0 {
        assert t[j] in s;
      }
    }
  }

  lemma {:induction false} InsertAscends(x: real, s: seq<real>)
    requires NonDecreasing(s)
    ensures NonDecreasing(Insert(x, s))
  {
    if s == [] || x <= s[0] {
      AscendsCons(x, s);
    } else {
      InsertAscends(x, s[1..]);
      InsertMembers(x, s[1..]);
      AscendsCons(s[0], Insert(x, s[1..]));
    }
  }

  /** `Ordered` sorts. */
  lemma {:induction false} OrderedSorts(values: seq<real>)
    ensures NonDecreasing(Ordered(values)) && multiset(Ordered(values)) == multiset(values)
  {
    if values != [] {
      OrderedSorts(values[1..]);
      InsertAscends(values[0], Ordered(values[1..]));
      InsertKeeps(values[0], Ordered(values[1..]));
      assert values == [values[0]] + values[1..];
    }
  }

  lemma HeadBelow(s: seq<real>, t: seq<real>)
    requires s != [] && t != [] && NonDecreasing(s) && multiset(s) == multiset(t)
    ensures s[0] <= t[0]
  {
    assert t[0] in multiset(s);
    assert t[0] in s;
  }

  lemma TailsAgree(s: seq<real>, t: seq<real>)
    requires s != [] && t != [] && s[0] == t[0] && multiset(s) == multiset(t)
    ensures multiset(s[1..]) == multiset(t[1..])
  {
    assert s == [s[0]] + s[1..] && t == [t[0]] + t[1..];
    assert multiset(s[1..]) == multiset(s) - multiset{s[0]} && multiset(t[1..]) == multiset(t) - multiset{t[0]};
  }

  lemma {:induction false} NonDecreasingUnique(s: seq<real>, t: seq<real>)
    requires NonDecreasing(s) && NonDecreasing(t) && multiset(s) == multiset(t)
    ensures s == t
  {
    assert |s| == |multiset(s)| == |multiset(t)| == |t|;
    if s != [] {
      HeadBelow(s, t);
      HeadBelow(t, s);
      TailsAgree(s, t);
      assert NonDecreasing(s[1..]) && NonDecreasing(t[1..]);
      hide NonDecreasing;
      NonDecreasingUnique(s[1..], t[1..]);
      assert s == [s[0]] + s[1..] && t == [t[0]] + t[1..];
    }
  }

  // ---- aggregation ----

  function Minimum(values: seq<real>): real
    requires values != []
  {
    if |values| == 1 then values[0]
    else var m := Minimum(values[1..]); if values[0] <= m then values[0] else m
  }

  function Maximum(values: seq<real>): real
    requires values != []
  {
    if |values| == 1 then values[0]
    else var m := Maximum(values[1..]); if values[0] >= m then values[0] else m
  }

  function Median(values: seq<real>): real
    requires values != []
  {
    var s, middle := Ordered(values), |values| / 2;
    if |values| % 2 == 1 then s[middle] else (s[middle - 1] + s[middle]) / 2.0
  }

  function Abs(x: real): real { if x < 0.0 then -x else x }

  /** The spread of the runs relative to their median, unavailable when that is zero. */
  function RelativeRange(values: seq<real>): Option<real>
    requires values != []
  {
    if Median(values) == 0.0 then None
    else Some((Maximum(values) - Minimum(values)) / Abs(Median(values)) * 100.0)
  }

  lemma {:induction false} MinimumIsLeast(values: seq<real>)
    requires values != []
    ensures Minimum(values) in values && forall v :: v in values ==> Minimum(values) <= v
  {
    if |values| > 1 {
      MinimumIsLeast(values[1..]);
      assert values == [values[0]] + values[1..];
    }
  }

  lemma {:induction false} MaximumIsGreatest(values: seq<real>)
    requires values != []
    ensures Maximum(values) in values && forall v :: v in values ==> v <= Maximum(values)
  {
    if |values| > 1 {
      MaximumIsGreatest(values[1..]);
      assert values == [values[0]] + values[1..];
    }
  }

  lemma SameMembers(values: seq<real>, others: seq<real>)
    requires multiset(values) == multiset(others)
    ensures |values| == |others| && forall v :: v in values <==> v in others
  {
    assert |values| == |multiset(values)| == |multiset(others)| == |others|;
    forall v ensures v in values <==> v in others {
      assert v in values <==> v in multiset(values);
      assert v in others <==> v in multiset(others);
    }
  }

  lemma SameExtremes(values: seq<real>, others: seq<real>)
    requires values != [] && others != [] && forall v :: v in values <==> v in others
    ensures Minimum(values) == Minimum(others) && Maximum(values) == Maximum(others)
  {
    MinimumIsLeast(values);
    MinimumIsLeast(others);
    MaximumIsGreatest(values);
    MaximumIsGreatest(others);
  }

  /** The order in which the runs are listed is irrelevant. */
  lemma OrderIrrelevant(values: seq<real>, others: seq<real>)
    requires values != [] && multiset(values) == multiset(others)
    ensures others != [] && Median(values) == Median(others) && RelativeRange(values) == RelativeRange(others)
  {
    OrderedSame(values, others);
    SameMembers(values, others);
    SameExtremes(values, others);
    hide Ordered, Minimum, Maximum, Abs;
  }

  lemma OrderedSame(values: seq<real>, others: seq<real>)
    requires multiset(values) == multiset(others)
    ensures Ordered(values) == Ordered(others)
  {
    OrderedSorts(values);
    OrderedSorts(others);
    hide NonDecreasing, Ordered;
    NonDecreasingUnique(Ordered(values), Ordered(others));
  }

  lemma MedianWithin(values: seq<real>)
    requires values != []
    ensures Minimum(values) <= Median(values) <= Maximum(values)
  {
    OrderedSorts(values);
    SameMembers(Ordered(values), values);
    MinimumIsLeast(values);
    MaximumIsGreatest(values);
    var s, n := Ordered(values), |values| / 2;
    assert s[n] in values;
    if |values| % 2 == 0 {
      assert s[n - 1] in values;
    }
  }

  /** The median of any ascending arrangement `s` of the runs: its middle value, or the midpoint of
      its two middle values. */
  lemma MedianOfArrangement(values: seq<real>, s: seq<real>)
    requires values != [] && multiset(s) == multiset(values)
    requires forall i, j :: 0 <= i <= j < |s| ==> s[i] <= s[j]
    ensures |s| == |values|
    ensures |s| % 2 == 1 ==> Median(values) == s[|s| / 2]
    ensures |s| % 2 == 0 ==> 2.0 * Median(values) == s[|s| / 2 - 1] + s[|s| / 2]
  {
    OrderedSorts(values);
    NonDecreasingUnique(Ordered(values), s);
    hide NonDecreasing, Ordered;
  }

  /** The relative range, by the least run `low`, the greatest run `high` and the median. */
  lemma RelativeRangeOfRuns(values: seq<real>, low: real, high: real)
    requires low in values && high in values && forall v :: v in values ==> low <= v <= high
    ensures var m, r := Median(values), RelativeRange(values);
            (r.None? <==> m == 0.0) && (r.Some? ==> r.value * (if m < 0.0 then -m else m) == 100.0 * (high - low))
  {
    MinimumIsLeast(values);
    MaximumIsGreatest(values);
    var m := Median(values);
    if m != 0.0 {
      QuotientTimes(high - low, if m < 0.0 then -m else m);
    }
    hide Median;
  }

  lemma QuotientTimes(x: real, a: real)
    requires a != 0.0
    ensures x / a * 100.0 * a == 100.0 * x
  {
    var q := x / a;
    assert q * a == x;
    assert q * 100.0 * a == 100.0 * (q * a);
  }

  // ---- units ----

  function Times(k: real, x: real): real { k * x }

  function Scale(k: real, values: seq<real>): (t: seq<real>)
    ensures |t| == |values| && forall i :: 0 <= i < |t| ==> t[i] == Times(k, values[i])
  {
    seq(|values|, i requires 0 <= i < |values| => Times(k, values[i]))
  }

  lemma ScaleTail(k: real, values: seq<real>)
    requires values != []
    ensures Scale(k, values)[1..] == Scale(k, values[1..])
  {
    hide Times;
  }

  lemma ScaleCons(k: real, x: real, values: seq<real>)
    ensures Scale(k, [x] + values) == [Times(k, x)] + Scale(k, values)
  {
    hide Times;
  }

  lemma TimesOrder(k: real, x: real, y: real)
    requires k > 0.0
    ensures x <= y <==> Times(k, x) <= Times(k, y)
  {
    if x <= y {
      assert k * (y - x) >= 0.0;
    } else {
      assert k * (x - y) > 0.0;
    }
  }

  lemma {:induction false} ScaleInsert(k: real, x: real, s: seq<real>)
    requires k > 0.0
    ensures Insert(Times(k, x), Scale(k, s)) == Scale(k, Insert(x, s))
  {
    hide Times;
    if s == [] {
      ScaleCons(k, x, s);
      assert [x] + s == [x];
    } else {
      TimesOrder(k, x, s[0]);
      ScaleTail(k, s);
      if x <= s[0] {
        ScaleCons(k, x, s);
      } else {
        ScaleInsert(k, x, s[1..]);
        ScaleCons(k, s[0], Insert(x, s[1..]));
      }
    }
  }

  lemma {:induction false} ScaleOrdered(k: real, values: seq<real>)
    requires k > 0.0
    ensures Ordered(Scale(k, values)) == Scale(k, Ordered(values))
  {
    hide Times;
    if values == [] {
      assert Scale(k, values) == [] && Scale(k, []) == [];
    } else {
      ScaleTail(k, values);
      ScaleOrdered(k, values[1..]);
      ScaleInsert(k, values[0], Ordered(values[1..]));
    }
  }

  lemma {:induction false} ScaleExtremes(k: real, values: seq<real>)
    requires k > 0.0 && values != []
    ensures Minimum(Scale(k, values)) == Times(k, Minimum(values))
            && Maximum(Scale(k, values)) == Times(k, Maximum(values))
  {
    hide Times;
    if |values| > 1 {
      ScaleTail(k, values);
      ScaleExtremes(k, values[1..]);
      TimesOrder(k, values[0], Minimum(values[1..]));
      TimesOrder(k, Maximum(values[1..]), values[0]);
    }
  }

  lemma TimesMean(k: real, x: real, y: real)
    ensures (Times(k, x) + Times(k, y)) / 2.0 == Times(k, (x + y) / 2.0)
  {
  }

  lemma MedianScales(k: real, values: seq<real>)
    requires k > 0.0 && values != []
    ensures Median(Scale(k, values)) == Times(k, Median(values))
  {
    hide Times;
    ScaleOrdered(k, values);
    var s, n := Ordered(values), |values| / 2;
    if |values| % 2 == 0 {
      TimesMean(k, s[n - 1], s[n]);
    }
  }

  lemma RatioScales(k: real, a: real, b: real)
    requires k > 0.0 && b != 0.0
    ensures Times(k, b) != 0.0 && Times(k, a) / Abs(Times(k, b)) == a / Abs(b)
  {
    var c, q := Abs(b), a / Abs(b);
    assert c > 0.0 && a == q * c;
    TimesOrder(k, 0.0, b);
    TimesOrder(k, b, 0.0);
    assert k * c > 0.0;
    assert Abs(Times(k, b)) == k * c;
    assert k * a == q * (k * c);
  }

  lemma TimesDifference(k: real, x: real, y: real)
    ensures Times(k, x) - Times(k, y) == Times(k, x - y) && Times(k, 0.0) == 0.0
  {
  }

  /** A change of unit changes no relative range. */
  lemma RelativeRangeScales(k: real, values: seq<real>)
    requires k > 0.0 && values != []
    ensures RelativeRange(Scale(k, values)) == RelativeRange(values)
  {
    MedianScales(k, values);
    ScaleExtremes(k, values);
    TimesDifference(k, Maximum(values), Minimum(values));
    if Median(values) != 0.0 {
      RatioScales(k, Maximum(values) - Minimum(values), Median(values));
    }
    hide Median, Minimum, Maximum, Scale, Times, Abs;
  }

  // ---- classification ----

  datatype Direction = Higher | Lower

  datatype Class = PossibleRegression | Warning | Neutral | Improvement | MaterialImprovement

  function Rank(c: Class): int {
    match c
    case PossibleRegression => 0
    case Warning => 1
    case Neutral => 2
    case Improvement => 3
    case MaterialImprovement => 4
  }

  function Max(x: real, y: real): real { if y > x then y else x }

  function Grade(benefit: real, variation: real): Class {
    var neutral, material := Max(5.0, variation), Max(10.0, 2.0 * variation);
    if Abs(benefit) <= neutral then Neutral
    else if benefit > 0.0 then (if benefit >= material then MaterialImprovement else Improvement)
    else if -benefit >= material then PossibleRegression
    else Warning
  }

  function Benefit(d: Direction, baseline: real, candidate: real): real
    requires baseline != 0.0
  {
    var deltaPct := (candidate - baseline) / Abs(baseline) * 100.0;
    if d == Higher then deltaPct else -deltaPct
  }

  /** The class of a continuous metric; none when the baseline is zero or a variation unknown. */
  function Classify(d: Direction, baseline: real, candidate: real, u: Option<real>, v: Option<real>): Option<Class> {
    if baseline == 0.0 || u.None? || v.None? then None
    else Some(Grade(Benefit(d, baseline, candidate), Max(u.value, v.value)))
  }

  lemma PercentBound(delta: real, a: real, limit: real)
    requires a > 0.0
    ensures delta / a * 100.0 <= limit <==> delta * 100.0 <= limit * a
    ensures delta / a * 100.0 < limit <==> delta * 100.0 < limit * a
  {
    var q := delta / a;
    assert delta == q * a;
    assert delta * 100.0 - limit * a == (q * 100.0 - limit) * a;
  }

  function Gain(d: Direction, baseline: real, candidate: real): real {
    100.0 * (if d == Higher then candidate - baseline else baseline - candidate)
  }

  lemma GainBound(d: Direction, baseline: real, candidate: real, limit: real)
    requires baseline != 0.0
    ensures Benefit(d, baseline, candidate) <= limit <==> Gain(d, baseline, candidate) <= Times(limit, Abs(baseline))
    ensures Benefit(d, baseline, candidate) < limit <==> Gain(d, baseline, candidate) < Times(limit, Abs(baseline))
    ensures Benefit(d, baseline, candidate) >= -limit <==> Gain(d, baseline, candidate) >= -Times(limit, Abs(baseline))
    ensures Benefit(d, baseline, candidate) > -limit <==> Gain(d, baseline, candidate) > -Times(limit, Abs(baseline))
  {
    var a, delta := Abs(baseline), candidate - baseline;
    PercentBound(delta, a, limit);
    PercentBound(delta, a, -limit);
    assert (-limit) * a == -(limit * a);
  }

  /** The classes without a quotient: how far the candidate moved, in hundredths of the baseline,
      against at least 5 and at least 10 percent and once and twice the larger variation. */
  lemma ClassByThresholds(d: Direction, baseline: real, candidate: real, u: real, v: real)
    requires baseline != 0.0
    ensures var gain := Gain(d, baseline, candidate);
            var neutral, material := Times(Max(5.0, Max(u, v)), Abs(baseline)),
              Times(Max(10.0, 2.0 * Max(u, v)), Abs(baseline));
            Classify(d, baseline, candidate, Some(u), Some(v)) ==
              Some(if gain >= material then MaterialImprovement
                   else if gain > neutral then Improvement
                   else if gain >= -neutral then Neutral
                   else if gain > -material then Warning
                   else PossibleRegression)
  {
    GainBound(d, baseline, candidate, Max(5.0, Max(u, v)));
    GainBound(d, baseline, candidate, Max(10.0, 2.0 * Max(u, v)));
    GradeByLimits(Benefit(d, baseline, candidate), Max(u, v));
    hide Benefit, Gain, Grade, Max, Abs, Times;
  }

  lemma GradeByLimits(benefit: real, variation: real)
    ensures var neutral, material := Max(5.0, variation), Max(10.0, 2.0 * variation);
            Grade(benefit, variation) ==
              if benefit >= material then MaterialImprovement
              else if benefit > neutral then Improvement
              else if benefit >= -neutral then Neutral
              else if benefit > -material then Warning
              else PossibleRegression
  {
  }

  lemma GradeMonotone(x: real, y: real, variation: real)
    requires x <= y
    ensures Rank(Grade(x, variation)) <= Rank(Grade(y, variation))
  {
  }

  lemma BenefitMonotone(d: Direction, baseline: real, worse: real, better: real)
    requires baseline != 0.0 && (if d == Higher then worse <= better else better <= worse)
    ensures Benefit(d, baseline, worse) <= Benefit(d, baseline, better)
  {
    var c := Abs(baseline);
    if d == Higher {
      DivideOrder(worse - baseline, better - baseline, c);
    } else {
      DivideOrder(better - baseline, worse - baseline, c);
    }
  }

  lemma DivideOrder(x: real, y: real, c: real)
    requires x <= y && c > 0.0
    ensures x / c <= y / c
  {
    assert y / c - x / c == (y - x) / c;
  }

  /** With both variations fixed, a better candidate value never gets a worse class. */
  lemma BetterIsNeverWorse(d: Direction, baseline: real, worse: real, better: real, u: Option<real>, v: Option<real>)
    requires if d == Higher then worse <= better else better <= worse
    ensures var a, b := Classify(d, baseline, worse, u, v), Classify(d, baseline, better, u, v);
            (a.Some? <==> b.Some?) && (a.Some? ==> Rank(a.value) <= Rank(b.value))
  {
    if baseline != 0.0 && u.Some? && v.Some? {
      BenefitMonotone(d, baseline, worse, better);
      GradeMonotone(Benefit(d, baseline, worse), Benefit(d, baseline, better), Max(u.value, v.value));
    }
  }

  lemma BenefitScales(d: Direction, k: real, baseline: real, candidate: real)
    requires k > 0.0 && baseline != 0.0
    ensures Times(k, baseline) != 0.0
    ensures Benefit(d, Times(k, baseline), Times(k, candidate)) == Benefit(d, baseline, candidate)
  {
    TimesDifference(k, candidate, baseline);
    RatioScales(k, candidate - baseline, baseline);
    hide Times, Abs;
  }

  /** The comparison of two sets: medians, classified with both relative ranges. */
  function CompareSets(d: Direction, baseline: seq<real>, candidate: seq<real>): Option<Class>
    requires baseline != [] && candidate != []
  {
    Classify(d, Median(baseline), Median(candidate), RelativeRange(baseline), RelativeRange(candidate))
  }

  /** The comparison of two sets, from ascending arrangements `s` and `t` of their runs alone. With
      `b` and `c` their medians and `u` and `v` their relative ranges in percent, a change counts
      from 5 percent of `b` and from the larger range on, and is material from twice as much. */
  lemma ComparedByArrangement(d: Direction, baseline: seq<real>, candidate: seq<real>, s: seq<real>, t: seq<real>,
      b: real, c: real, u: real, v: real)
    requires baseline != [] && candidate != [] && |s| == |baseline| && |t| == |candidate|
    requires multiset(s) == multiset(baseline) && forall i, j :: 0 <= i <= j < |s| ==> s[i] <= s[j]
    requires multiset(t) == multiset(candidate) && forall i, j :: 0 <= i <= j < |t| ==> t[i] <= t[j]
    requires 2.0 * b == s[(|s| - 1) / 2] + s[|s| / 2] && 2.0 * c == t[(|t| - 1) / 2] + t[|t| / 2]
    requires u * (if b < 0.0 then -b else b) == 100.0 * (s[|s| - 1] - s[0])
    requires v * (if c < 0.0 then -c else c) == 100.0 * (t[|t| - 1] - t[0])
    ensures b == 0.0 || c == 0.0 ==> CompareSets(d, baseline, candidate) == None
    ensures b != 0.0 && c != 0.0 ==>
            var gain := if d == Higher then c - b else b - c;
            var size := if b < 0.0 then -b else b;
            var range := if u < v then v else u;
            var neutral, material := if range < 5.0 then 5.0 else range, if range < 5.0 then 10.0 else 2.0 * range;
            CompareSets(d, baseline, candidate) ==
              Some(if 100.0 * gain >= material * size then MaterialImprovement
                   else if 100.0 * gain > neutral * size then Improvement
                   else if 100.0 * gain >= -(neutral * size) then Neutral
                   else if 100.0 * gain > -(material * size) then Warning
                   else PossibleRegression)
  {
    hide Median, RelativeRange, Classify;
    MedianByArrangement(baseline, s, b);
    MedianByArrangement(candidate, t, c);
    if b == 0.0 || c == 0.0 {
      NoClass(d, baseline, candidate);
    } else {
      RangeByArrangement(baseline, s, b, u);
      RangeByArrangement(candidate, t, c, v);
      ClassWritten(d, b, c, u, v);
    }
  }

  lemma NoClass(d: Direction, baseline: seq<real>, candidate: seq<real>)
    requires baseline != [] && candidate != [] && (Median(baseline) == 0.0 || Median(candidate) == 0.0)
    ensures CompareSets(d, baseline, candidate) == None
  {
    hide Median;
  }

  lemma ClassWritten(d: Direction, b: real, c: real, u: real, v: real)
    requires b != 0.0
    ensures var gain := if d == Higher then c - b else b - c;
            var size := if b < 0.0 then -b else b;
            var range := if u < v then v else u;
            var neutral, material := if range < 5.0 then 5.0 else range, if range < 5.0 then 10.0 else 2.0 * range;
            Classify(d, b, c, Some(u), Some(v)) ==
              Some(if 100.0 * gain >= material * size then MaterialImprovement
                   else if 100.0 * gain > neutral * size then Improvement
                   else if 100.0 * gain >= -(neutral * size) then Neutral
                   else if 100.0 * gain > -(material * size) then Warning
                   else PossibleRegression)
  {
    hide Classify;
    ClassByThresholds(d, b, c, u, v);
  }

  lemma MedianByArrangement(values: seq<real>, s: seq<real>, m: real)
    requires values != [] && |s| == |values| && multiset(s) == multiset(values)
    requires forall i, j :: 0 <= i <= j < |s| ==> s[i] <= s[j]
    requires 2.0 * m == s[(|s| - 1) / 2] + s[|s| / 2]
    ensures Median(values) == m
  {
    MedianOfArrangement(values, s);
    hide Median;
  }

  lemma RangeByArrangement(values: seq<real>, s: seq<real>, m: real, r: real)
    requires values != [] && |s| == |values| && multiset(s) == multiset(values)
    requires forall i, j :: 0 <= i <= j < |s| ==> s[i] <= s[j]
    requires Median(values) == m != 0.0 && r * (if m < 0.0 then -m else m) == 100.0 * (s[|s| - 1] - s[0])
    ensures RelativeRange(values) == Some(r)
  {
    SameMembers(s, values);
    RelativeRangeOfRuns(values, s[0], s[|s| - 1]);
    hide Median, RelativeRange;
    QuotientUnique(RelativeRange(values).value, r, if m < 0.0 then -m else m);
  }

  lemma QuotientUnique(x: real, y: real, a: real)
    requires a != 0.0 && x * a == y * a
    ensures x == y
  {
    assert (x - y) * a == 0.0;
  }

  /** Rescaling all values of both sides by one positive factor changes no class. */
  lemma UnitIrrelevant(d: Direction, k: real, baseline: seq<real>, candidate: seq<real>)
    requires k > 0.0 && baseline != [] && candidate != []
    ensures CompareSets(d, Scale(k, baseline), Scale(k, candidate)) == CompareSets(d, baseline, candidate)
  {
    MedianScales(k, baseline);
    MedianScales(k, candidate);
    RelativeRangeScales(k, baseline);
    RelativeRangeScales(k, candidate);
    TimesDifference(k, 0.0, 0.0);
    if Median(baseline) != 0.0 {
      BenefitScales(d, k, Median(baseline), Median(candidate));
    }
    hide Median, RelativeRange, Scale, Grade, Times, Benefit;
  }

  lemma RunOrderIrrelevant(d: Direction, baseline: seq<real>, candidate: seq<real>, baseline': seq<real>,
      candidate': seq<real>)
    requires baseline != [] && candidate != []
    requires multiset(baseline) == multiset(baseline') && multiset(candidate) == multiset(candidate')
    ensures baseline' != [] && candidate' != []
    ensures CompareSets(d, baseline, candidate) == CompareSets(d, baseline', candidate')
  {
    OrderIrrelevant(baseline, baseline');
    OrderIrrelevant(candidate, candidate');
  }

  // ---- a run-wise better candidate ----

  predicate Below(s: seq<real>, t: seq<real>) { |s| == |t| && forall i :: 0 <= i < |s| ==> s[i] <= t[i] }

  lemma {:induction false} InsertBelow(x: real, s: seq<real>, y: real, t: seq<real>)
    requires x <= y && Below(s, t) && NonDecreasing(s) && NonDecreasing(t)
    ensures Below(Insert(x, s), Insert(y, t))
    decreases |s|
  {
    if s != [] {
      if x <= s[0] && y > t[0] {
        // x moves to the front, y further back: compare through the shifted lists.
        InsertBelow(s[0], s[1..], y, t[1..]);
        InsertFirst(s);
        assert [x] + s == [x] + Insert(s[0], s[1..]);
      } else if x > s[0] && y <= t[0] {
        InsertBelow(x, s[1..], t[0], t[1..]);
        InsertFirst(t);
        assert [y] + t == [y] + Insert(t[0], t[1..]);
      } else if x > s[0] {
        InsertBelow(x, s[1..], y, t[1..]);
      }
    }
  }

  lemma InsertFirst(s: seq<real>)
    requires s != [] && NonDecreasing(s)
    ensures Insert(s[0], s[1..]) == s
  {
    assert s == [s[0]] + s[1..];
  }

  lemma {:induction false} OrderedBelow(values: seq<real>, others: seq<real>)
    requires Below(values, others)
    ensures Below(Ordered(values), Ordered(others))
  {
    if values != [] {
      OrderedBelow(values[1..], others[1..]);
      OrderedSorts(values[1..]);
      OrderedSorts(others[1..]);
      InsertBelow(values[0], Ordered(values[1..]), others[0], Ordered(others[1..]));
    }
  }

  /** When every run got larger, so did the median. */
  lemma MedianMonotone(values: seq<real>, others: seq<real>)
    requires values != [] && Below(values, others)
    ensures others != [] && Median(values) <= Median(others)
  {
    OrderedBelow(values, others);
  }

  // ---- unit conversion ----

  function Convert(value: real, unit: string): (real, string) {
    if unit == "ns/op" then (value / 1_000_000.0, "ms/op")
    else if unit == "us/op" then (value / 1_000.0, "ms/op")
    else (value, unit)
  }

  function ConvertAll(values: seq<real>, unit: string): (t: seq<real>)
    ensures |t| == |values| && forall i :: 0 <= i < |t| ==> t[i] == Convert(values[i], unit).0
  {
    seq(|values|, i requires 0 <= i < |values| => Convert(values[i], unit).0)
  }

  /** Whatever unit both sides report, canonical conversion leaves the class as it is. */
  lemma ConversionIrrelevant(d: Direction, unit: string, baseline: seq<real>, candidate: seq<real>)
    requires baseline != [] && candidate != []
    ensures CompareSets(d, ConvertAll(baseline, unit), ConvertAll(candidate, unit))
            == CompareSets(d, baseline, candidate)
    ensures forall x :: Convert(x, unit).1 == if unit in {"ns/op", "us/op"} then "ms/op" else unit
    ensures forall i :: 0 <= i < |baseline| ==>
            baseline[i] == ConvertAll(baseline, unit)[i]
                           * (if unit == "ns/op" then 1_000_000.0 else if unit == "us/op" then 1_000.0 else 1.0)
  {
    var k := if unit == "ns/op" then 1.0 / 1_000_000.0 else if unit == "us/op" then 1.0 / 1_000.0 else 1.0;
    forall x ensures Convert(x, unit).0 == Times(k, x) {
    }
    hide Times, Convert;
    assert ConvertAll(baseline, unit) == Scale(k, baseline);
    assert ConvertAll(candidate, unit) == Scale(k, candidate);
    UnitIrrelevant(d, k, baseline, candidate);
  }
}
