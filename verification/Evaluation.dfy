/** Chart sampling and error bucketing of the held-out evaluation, in exact arithmetic. */
module Evaluation {
  import opened Common

  const MAX_CHART_POINTS := 200

  // -------------------------------------------------------------- sampling

  /** `linspace(0, size - 1, 200)` cut down to whole numbers, or all indexes. */
  function SampleIndexes(size: nat): seq<int> {
    if size <= MAX_CHART_POINTS then seq(size, i => i)
    else seq(MAX_CHART_POINTS, i => i * (size - 1) / (MAX_CHART_POINTS - 1))
  }

  predicate StrictlyIncreasing(s: seq<int>) {
    forall i, j | 0 <= i < j < |s| :: s[i] < s[j]
  }

  lemma QuotientStep(i: nat, m: nat)
    requires m >= MAX_CHART_POINTS
    ensures i * m / (MAX_CHART_POINTS - 1) < (i + 1) * m / (MAX_CHART_POINTS - 1)
  {
    var a := i * m;
    assert (i + 1) * m == a + m;
  }

  lemma {:induction false} QuotientsIncrease(i: nat, j: nat, m: nat)
    requires m >= MAX_CHART_POINTS && i < j
    ensures i * m / (MAX_CHART_POINTS - 1) < j * m / (MAX_CHART_POINTS - 1)
    decreases j - i
  {
    QuotientStep(j - 1, m);
    if i < j - 1 {
      QuotientsIncrease(i, j - 1, m);
    }
  }

  /** A sample has at most 200 different indexes in order, always reaching from
      the first point to the last. */
  lemma SampleSpansAll(size: nat)
    ensures
      var s := SampleIndexes(size);
      && |s| == (if size <= MAX_CHART_POINTS then size else MAX_CHART_POINTS)
      && StrictlyIncreasing(s)
      && (forall i | 0 <= i < |s| :: 0 <= s[i] < size)
      && (size > 0 ==> s[0] == 0 && s[|s| - 1] == size - 1)
  {
    if size > MAX_CHART_POINTS {
      var s, m := SampleIndexes(size), size - 1;
      forall i, j | 0 <= i < j < |s| ensures s[i] < s[j] {
        QuotientsIncrease(i, j, m);
      }
      assert s[0] == 0;
      assert s[|s| - 1] == 199 * m / 199 == m;
      forall i | 0 <= i < |s| ensures 0 <= s[i] < size {
        assert i == 0 || s[0] < s[i];
        assert i == |s| - 1 || s[i] < s[|s| - 1];
      }
    }
  }

  /** Larger sets are sampled evenly: the `i`-th index is `i` steps of a 199th of
      the way from the first point to the last, cut down to a whole number. */
  lemma SampleSpacing(size: nat, i: nat)
    requires i < |SampleIndexes(size)|
    ensures size <= 200 ==> SampleIndexes(size)[i] == i
    ensures size > 200 ==> 199 * SampleIndexes(size)[i] <= i * (size - 1) < 199 * SampleIndexes(size)[i] + 199
  {
  }

  // --------------------------------------------------------------- bucketing

  datatype Range = Range(start: real, end: real, meanError: real, count: nat)

  function Minimum(v: seq<real>): (m: real)
    requires v != []
    ensures m in v && forall x | x in v :: m <= x
  {
    if |v| == 1 then v[0]
    else
      var rest := Minimum(v[1..]);
      assert v == [v[0]] + v[1..];
      if v[0] <= rest then v[0] else rest
  }

  function Maximum(v: seq<real>): (m: real)
    requires v != []
    ensures m in v && forall x | x in v :: x <= m
  {
    if |v| == 1 then v[0]
    else
      var rest := Maximum(v[1..]);
      assert v == [v[0]] + v[1..];
      if rest <= v[0] then v[0] else rest
  }

  function Sum(v: seq<real>): real {
    if v == [] then 0.0 else v[0] + Sum(v[1..])
  }

  function Times(x: real, y: real): real {
    x * y
  }

  /** The equally spaced edges between the smallest and the largest prediction. */
  datatype Edges = Edges(low: real, high: real, count: nat) {
    function Width(): real
      requires count > 0
    {
      (high - low) / count as real
    }

    function At(k: nat): real
      requires count > 0
    {
      low + Times(Width(), k as real)
    }

    /** `digitize(x, edges[1:k])`: how many inner edges before `k` are at most `x`. */
    function Digitize(x: real, k: nat): (b: nat)
      requires 0 < k <= count
      ensures b < k
    {
      if k == 1 then 0 else Digitize(x, k - 1) + if At(k - 1) <= x then 1 else 0
    }

    function Bucket(x: real): (b: nat)
      requires count > 0
      ensures b < count
    {
      Digitize(x, count)
    }
  }

  function EdgesOf(predictions: seq<real>): (edges: Edges)
    requires predictions != []
    ensures edges.count > 0
  {
    Edges(Minimum(predictions), Maximum(predictions), if |predictions| < 10 then |predictions| else 10)
  }

  /** `count_nonzero(buckets == i)`. */
  function CountIn(buckets: seq<nat>, i: nat): nat {
    if buckets == [] then 0 else (if buckets[0] == i then 1 else 0) + CountIn(buckets[1..], i)
  }

  /** The summed errors of one bucket. */
  function ErrorIn(buckets: seq<nat>, errors: seq<real>, i: nat): real
    requires |buckets| == |errors|
  {
    if buckets == [] then 0.0
    else (if buckets[0] == i then errors[0] else 0.0) + ErrorIn(buckets[1..], errors[1..], i)
  }

  /** The ranges from bucket `i` on, empty ones left out. */
  function Ranges(edges: Edges, buckets: seq<nat>, errors: seq<real>, i: nat): seq<Range>
    requires |buckets| == |errors| && i <= edges.count && edges.count > 0
    decreases edges.count - i
  {
    if i == edges.count then []
    else
      var rest := Ranges(edges, buckets, errors, i + 1);
      if CountIn(buckets, i) == 0 then rest else [RangeOf(edges, buckets, errors, i)] + rest
  }

  function BucketsOf(edges: Edges, predictions: seq<real>): (buckets: seq<nat>)
    requires edges.count > 0
    ensures |buckets| == |predictions| && forall i | 0 <= i < |buckets| :: buckets[i] == edges.Bucket(predictions[i])
  {
    seq(|predictions|, i requires 0 <= i < |predictions| => edges.Bucket(predictions[i]))
  }

  function ErrorByRange(predictions: seq<real>, errors: seq<real>): seq<Range>
    requires predictions != [] && |predictions| == |errors|
  {
    var edges := EdgesOf(predictions);
    if edges.low == edges.high then
      [Range(edges.low, edges.high, Sum(errors) / |errors| as real, |errors|)]
    else
      Ranges(edges, BucketsOf(edges, predictions), errors, 0)
  }

  // ------------------------------------------------- the right bucket, no clip

  lemma EdgeStep(edges: Edges, k: nat)
    requires edges.low < edges.high && edges.count > 0
    ensures edges.At(k) < edges.At(k + 1)
    ensures edges.At(0) == edges.low && edges.At(edges.count) == edges.high
  {
    var w, d := edges.Width(), edges.count as real;
    assert w * d == edges.high - edges.low;
    assert w > 0.0;
    assert w * (k + 1) as real == w * k as real + w;
  }

  lemma {:induction false} EdgesIncrease(edges: Edges, j: nat, k: nat)
    requires edges.low < edges.high && edges.count > 0 && j <= k
    ensures edges.At(j) <= edges.At(k)
    decreases k - j
  {
    if j < k {
      EdgeStep(edges, k - 1);
      EdgesIncrease(edges, j, k - 1);
    }
  }

  /** Counting edges finds the last one that is not above the value. */
  lemma {:induction false} DigitizeMeaning(edges: Edges, x: real, k: nat)
    requires edges.low < edges.high && 0 < k <= edges.count && edges.low <= x
    ensures
      var b := edges.Digitize(x, k);
      edges.At(b) <= x && (b + 1 < k ==> x < edges.At(b + 1))
    decreases k
  {
    EdgeStep(edges, 0);
    if k > 1 {
      DigitizeMeaning(edges, x, k - 1);
      var b := edges.Digitize(x, k - 1);
      if edges.At(k - 1) <= x && b + 1 < k - 1 {
        EdgesIncrease(edges, b + 1, k - 1);
      }
    }
  }

  /** Each prediction lands in the one bucket whose range contains it, the last
      range including its end; the bucket number needs no clipping. */
  lemma BucketContains(edges: Edges, x: real, i: nat)
    requires edges.low < edges.high && edges.count > 0 && edges.low <= x <= edges.high && i < edges.count
    ensures edges.Bucket(x) == i <==>
              edges.At(i) <= x && (x < edges.At(i + 1) || (i + 1 == edges.count && x == edges.At(i + 1)))
  {
    var b := edges.Bucket(x);
    DigitizeMeaning(edges, x, edges.count);
    EdgeStep(edges, i);
    if i < b {
      EdgesIncrease(edges, i + 1, b);
    } else if b < i {
      EdgesIncrease(edges, b + 1, i);
    }
  }

  // ------------------------------------------------------------- conservation

  function TotalCount(ranges: seq<Range>): nat {
    if ranges == [] then 0 else ranges[0].count + TotalCount(ranges[1..])
  }

  function TotalError(ranges: seq<Range>): real {
    if ranges == [] then 0.0 else Weight(ranges[0]) + TotalError(ranges[1..])
  }

  function Weight(range: Range): real {
    range.meanError * range.count as real
  }

  /** The range of one nonempty bucket. */
  function RangeOf(edges: Edges, buckets: seq<nat>, errors: seq<real>, i: nat): Range
    requires |buckets| == |errors| && CountIn(buckets, i) > 0 && edges.count > 0
  {
    Range(edges.At(i), edges.At(i + 1), ErrorIn(buckets, errors, i) / CountIn(buckets, i) as real, CountIn(buckets, i))
  }

  lemma RangeWeight(edges: Edges, buckets: seq<nat>, errors: seq<real>, i: nat)
    requires |buckets| == |errors| && CountIn(buckets, i) > 0 && edges.count > 0
    ensures Weight(RangeOf(edges, buckets, errors, i)) == ErrorIn(buckets, errors, i)
  {
    MeanTimesCount(ErrorIn(buckets, errors, i), CountIn(buckets, i));
  }

  lemma TotalsPrepend(range: Range, rest: seq<Range>)
    ensures TotalCount([range] + rest) == range.count + TotalCount(rest)
    ensures TotalError([range] + rest) == Weight(range) + TotalError(rest)
  {
    assert ([range] + rest)[1..] == rest;
  }

  /** The members and errors of all buckets from `i` on. */
  function CountFrom(buckets: seq<nat>, i: nat): nat {
    if buckets == [] then 0 else (if buckets[0] >= i then 1 else 0) + CountFrom(buckets[1..], i)
  }

  function ErrorFrom(buckets: seq<nat>, errors: seq<real>, i: nat): real
    requires |buckets| == |errors|
  {
    if buckets == [] then 0.0
    else (if buckets[0] >= i then errors[0] else 0.0) + ErrorFrom(buckets[1..], errors[1..], i)
  }

  lemma {:induction false} FromSplits(buckets: seq<nat>, errors: seq<real>, i: nat)
    requires |buckets| == |errors|
    ensures CountFrom(buckets, i) == CountIn(buckets, i) + CountFrom(buckets, i + 1)
    ensures ErrorFrom(buckets, errors, i) == ErrorIn(buckets, errors, i) + ErrorFrom(buckets, errors, i + 1)
    ensures CountIn(buckets, i) == 0 ==> ErrorIn(buckets, errors, i) == 0.0
    decreases |buckets|
  {
    if buckets != [] {
      FromSplits(buckets[1..], errors[1..], i);
    }
  }

  lemma {:induction false} FromEnds(buckets: seq<nat>, errors: seq<real>, count: nat)
    requires |buckets| == |errors| && forall k | 0 <= k < |buckets| :: buckets[k] < count
    ensures CountFrom(buckets, 0) == |buckets| && CountFrom(buckets, count) == 0
    ensures ErrorFrom(buckets, errors, 0) == Sum(errors) && ErrorFrom(buckets, errors, count) == 0.0
    decreases |buckets|
  {
    if buckets != [] {
      FromEnds(buckets[1..], errors[1..], count);
    }
  }

  lemma MeanTimesCount(total: real, count: nat)
    requires count > 0
    ensures (total / count as real) * count as real == total
  {
  }

  lemma {:induction false} RangesConserve(edges: Edges, buckets: seq<nat>, errors: seq<real>, i: nat)
    requires |buckets| == |errors| && i <= edges.count && edges.count > 0
    requires forall k | 0 <= k < |buckets| :: buckets[k] < edges.count
    ensures TotalCount(Ranges(edges, buckets, errors, i)) == CountFrom(buckets, i)
    ensures TotalError(Ranges(edges, buckets, errors, i)) == ErrorFrom(buckets, errors, i)
    decreases edges.count - i
  {
    if i == edges.count {
      FromEnds(buckets, errors, edges.count);
    } else {
      RangesConserve(edges, buckets, errors, i + 1);
      FromSplits(buckets, errors, i);
      if CountIn(buckets, i) > 0 {
        RangeWeight(edges, buckets, errors, i);
        TotalsPrepend(RangeOf(edges, buckets, errors, i), Ranges(edges, buckets, errors, i + 1));
      }
    }
  }

  /** Bucketing conserves everything: the reported counts add up to the number of
      predictions and the count-weighted means to the total error. */
  lemma BucketingConserves(predictions: seq<real>, errors: seq<real>)
    requires predictions != [] && |predictions| == |errors|
    ensures TotalCount(ErrorByRange(predictions, errors)) == |predictions|
    ensures TotalError(ErrorByRange(predictions, errors)) == Sum(errors)
  {
    var edges := EdgesOf(predictions);
    if edges.low == edges.high {
      MeanTimesCount(Sum(errors), |errors|);
      assert [Range(edges.low, edges.high, Sum(errors) / |errors| as real, |errors|)][1..] == [];
    } else {
      var buckets := BucketsOf(edges, predictions);
      RangesConserve(edges, buckets, errors, 0);
      FromEnds(buckets, errors, edges.count);
    }
  }

  // ------------------------------------------------ what each range reports

  /** The value belongs to the range; the one that ends at the largest value
      includes its end. */
  predicate Inside(range: Range, x: real, largest: real) {
    range.start <= x && (x < range.end || x == range.end == largest)
  }

  function CountInside(predictions: seq<real>, range: Range, largest: real): nat {
    if predictions == [] then 0
    else (if Inside(range, predictions[0], largest) then 1 else 0) + CountInside(predictions[1..], range, largest)
  }

  function ErrorInside(predictions: seq<real>, errors: seq<real>, range: Range, largest: real): real
    requires |predictions| == |errors|
  {
    if predictions == [] then 0.0
    else
      (if Inside(range, predictions[0], largest) then errors[0] else 0.0)
      + ErrorInside(predictions[1..], errors[1..], range, largest)
  }

  lemma {:induction false} BucketHoldsInside(edges: Edges, predictions: seq<real>, buckets: seq<nat>, errors: seq<real>,
                                             i: nat, range: Range)
    requires edges.low < edges.high && edges.count > i && |predictions| == |buckets| == |errors|
    requires forall k | 0 <= k < |predictions| ::
               edges.low <= predictions[k] <= edges.high && buckets[k] == edges.Bucket(predictions[k])
    requires range.start == edges.At(i) && range.end == edges.At(i + 1)
    ensures CountIn(buckets, i) == CountInside(predictions, range, edges.high)
    ensures ErrorIn(buckets, errors, i) == ErrorInside(predictions, errors, range, edges.high)
    decreases |predictions|
  {
    if predictions != [] {
      BucketContains(edges, predictions[0], i);
      EdgeStep(edges, i);
      EdgesIncrease(edges, i + 1, edges.count);
      LastEdge(edges, i + 1);
      BucketHoldsInside(edges, predictions[1..], buckets[1..], errors[1..], i, range);
    }
  }

  /** Only the last edge is the largest value. */
  lemma LastEdge(edges: Edges, k: nat)
    requires edges.low < edges.high && 0 < edges.count && k <= edges.count
    ensures edges.At(k) == edges.high <==> k == edges.count
  {
    EdgeStep(edges, k);
    if k < edges.count {
      EdgesIncrease(edges, k + 1, edges.count);
    }
  }

  /** The buckets that get a range, from bucket `i` on. */
  function Reported(buckets: seq<nat>, i: nat, count: nat): (reported: seq<nat>)
    requires i <= count
    ensures forall k | 0 <= k < |reported| :: i <= reported[k] < count && CountIn(buckets, reported[k]) > 0
    ensures forall b: nat :: b in reported <==> i <= b < count && CountIn(buckets, b) > 0
    ensures forall k, l | 0 <= k < l < |reported| :: reported[k] < reported[l]
    decreases count - i
  {
    if i == count then []
    else if CountIn(buckets, i) == 0 then Reported(buckets, i + 1, count)
    else [i] + Reported(buckets, i + 1, count)
  }

  /** The ranges of these buckets, in order. */
  ghost predicate RangesOf(ranges: seq<Range>, edges: Edges, buckets: seq<nat>, errors: seq<real>, reported: seq<nat>)
    requires |buckets| == |errors| && edges.count > 0
  {
    |ranges| == |reported|
    && forall k | 0 <= k < |ranges| ::
         CountIn(buckets, reported[k]) > 0 && ranges[k] == RangeOf(edges, buckets, errors, reported[k])
  }

  lemma PrependRange(ranges: seq<Range>, edges: Edges, buckets: seq<nat>, errors: seq<real>, reported: seq<nat>, b: nat)
    requires |buckets| == |errors| && edges.count > 0 && CountIn(buckets, b) > 0
    requires RangesOf(ranges, edges, buckets, errors, reported)
    ensures RangesOf([RangeOf(edges, buckets, errors, b)] + ranges, edges, buckets, errors, [b] + reported)
  {
  }

  lemma {:induction false} RangesOfReported(edges: Edges, buckets: seq<nat>, errors: seq<real>, i: nat)
    requires |buckets| == |errors| && i <= edges.count && edges.count > 0
    ensures RangesOf(Ranges(edges, buckets, errors, i), edges, buckets, errors, Reported(buckets, i, edges.count))
    decreases edges.count - i
  {
    if i < edges.count {
      RangesOfReported(edges, buckets, errors, i + 1);
      if CountIn(buckets, i) > 0 {
        PrependRange(Ranges(edges, buckets, errors, i + 1), edges, buckets, errors, Reported(buckets, i + 1, edges.count), i);
      }
    }
  }

  /** The range is part number `part` of the span from `low` to `high` cut into
      `count` equal parts. */
  predicate IsPart(range: Range, low: real, high: real, count: nat, part: nat)
    requires count > 0
  {
    && part < count
    && range.start == low + (high - low) / count as real * part as real
    && range.end == low + (high - low) / count as real * (part + 1) as real
  }

  lemma RangeIsPart(edges: Edges, buckets: seq<nat>, errors: seq<real>, b: nat)
    requires |buckets| == |errors| && CountIn(buckets, b) > 0 && b < edges.count
    ensures IsPart(RangeOf(edges, buckets, errors, b), edges.low, edges.high, edges.count, b)
  {
    assert edges.Width() == (edges.high - edges.low) / edges.count as real;
  }

  /** The ranges are tenths of the predictions' span, or as many equal parts as
      there are predictions if these are fewer than ten, reported from low to high;
      predictions of a single value make a single range. */
  lemma RangesAreParts(predictions: seq<real>, errors: seq<real>) returns (parts: seq<nat>)
    requires predictions != [] && |predictions| == |errors|
    ensures
      var ranges, low, high := ErrorByRange(predictions, errors), Minimum(predictions), Maximum(predictions);
      var count: nat := if |predictions| < 10 then |predictions| else 10;
      && |parts| == |ranges| && (forall k, l | 0 <= k < l < |parts| :: parts[k] < parts[l])
      && (low < high ==> forall k | 0 <= k < |parts| :: IsPart(ranges[k], low, high, count, parts[k]))
      && (low == high ==> |ranges| == 1 && ranges[0].start == low == ranges[0].end)
  {
    var edges := EdgesOf(predictions);
    if edges.low == edges.high {
      parts := [0];
    } else {
      var buckets := BucketsOf(edges, predictions);
      RangesOfReported(edges, buckets, errors, 0);
      parts := Reported(buckets, 0, edges.count);
      forall k | 0 <= k < |parts|
        ensures IsPart(Ranges(edges, buckets, errors, 0)[k], edges.low, edges.high, edges.count, parts[k])
      {
        RangeIsPart(edges, buckets, errors, parts[k]);
      }
    }
  }

  lemma {:induction false} OneValue(predictions: seq<real>, errors: seq<real>, range: Range)
    requires |predictions| == |errors| && range.start == range.end
    requires forall k | 0 <= k < |predictions| :: predictions[k] == range.start
    ensures CountInside(predictions, range, range.start) == |predictions|
    ensures ErrorInside(predictions, errors, range, range.start) == Sum(errors)
    decreases |predictions|
  {
    if predictions != [] {
      OneValue(predictions[1..], errors[1..], range);
    }
  }

  ghost predicate ReportsMembers(predictions: seq<real>, errors: seq<real>, range: Range, largest: real)
    requires |predictions| == |errors|
  {
    && range.count == CountInside(predictions, range, largest) > 0
    && Weight(range) == ErrorInside(predictions, errors, range, largest)
  }

  lemma SingleRangeReports(predictions: seq<real>, errors: seq<real>, value: real)
    requires predictions != [] && |predictions| == |errors|
    requires forall k | 0 <= k < |predictions| :: predictions[k] == value
    ensures ReportsMembers(predictions, errors, Range(value, value, Sum(errors) / |errors| as real, |errors|), value)
  {
    OneValue(predictions, errors, Range(value, value, Sum(errors) / |errors| as real, |errors|));
    MeanTimesCount(Sum(errors), |errors|);
  }

  lemma BucketRangeReports(edges: Edges, predictions: seq<real>, errors: seq<real>, b: nat)
    requires edges.low < edges.high && edges.count > b && |predictions| == |errors|
    requires forall k | 0 <= k < |predictions| :: edges.low <= predictions[k] <= edges.high
    requires CountIn(BucketsOf(edges, predictions), b) > 0
    ensures ReportsMembers(predictions, errors, RangeOf(edges, BucketsOf(edges, predictions), errors, b), edges.high)
  {
    var buckets := BucketsOf(edges, predictions);
    BucketHoldsInside(edges, predictions, buckets, errors, b, RangeOf(edges, buckets, errors, b));
    RangeWeight(edges, buckets, errors, b);
  }

  lemma Extremes(predictions: seq<real>)
    requires predictions != []
    ensures forall k | 0 <= k < |predictions| :: Minimum(predictions) <= predictions[k] <= Maximum(predictions)
  {
    forall k | 0 <= k < |predictions| ensures Minimum(predictions) <= predictions[k] <= Maximum(predictions) {
      assert predictions[k] in predictions;
    }
  }

  /** Each reported range counts exactly the predictions inside it, at least one,
      and reports the mean of exactly their errors. */
  lemma RangesReportTheirMembers(predictions: seq<real>, errors: seq<real>, k: nat)
    requires predictions != [] && |predictions| == |errors|
    requires k < |ErrorByRange(predictions, errors)|
    ensures ReportsMembers(predictions, errors, ErrorByRange(predictions, errors)[k], Maximum(predictions))
  {
    var edges := EdgesOf(predictions);
    Extremes(predictions);
    if edges.low == edges.high {
      SingleRangeReports(predictions, errors, edges.low);
    } else {
      RangesOfReported(edges, BucketsOf(edges, predictions), errors, 0);
      BucketRangeReports(edges, predictions, errors, Reported(BucketsOf(edges, predictions), 0, edges.count)[k]);
    }
  }
}
