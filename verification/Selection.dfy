/** Selecting, per requested feed, the packages that are accepted and closest to the median. */
module Selection {
  import opened Wrappers
  import opened Numbers
  import opened Sorting
  import opened Responses

  datatype SelectionError =
    | MissingDataFeed(feedId: string)
    | NoDataPackages(feedId: string)
    | TooFewSigners(feedId: string)
    | DifferentTimestamps
    | TimestampDeviation
    | UndefinedDistance
    | AggregateError(errors: seq<SelectionError>)

  // ----- Medians

  function PointValues(points: seq<PricePoint>, feedId: string): seq<real> {
    if points == [] then []
    else
      PointValues(points[..|points| - 1], feedId) +
      (if points[|points| - 1].feedId == feedId then [points[|points| - 1].value] else [])
  }

  /** All values of a feed, in the order of the packages and of the points in them. */
  function FeedValues(packages: seq<PricePackage>, feedId: string): seq<real> {
    if packages == [] then []
    else FeedValues(packages[..|packages| - 1], feedId) + PointValues(packages[|packages| - 1].points, feedId)
  }

  function Median(values: seq<real>): real
    requires values != []
  {
    if |values| == 1 then values[0]
    else
      var sorted := if |values| == 2 then values else SortBy(values, Identity);
      SortBySorts(values, Identity);
      var middle := |values| / 2;
      if |values| % 2 == 0 then (sorted[middle - 1] + sorted[middle]) / 2.0 else sorted[middle]
  }

  /** Of two values one is on each side of their mean. */
  lemma TwoValuesSplit(values: seq<real>, m: real)
    requires |values| == 2 && m == (values[0] + values[1]) / 2.0
    ensures CountIf(values, AtMost(m)) >= 1 && CountIf(values, AtLeast(m)) >= 1
  {
    var low := if values[0] <= m then 0 else 1;
    var high := if values[0] >= m then 0 else 1;
    CountSlice(values, AtMost(m), low, low + 1);
    CountSlice(values, AtLeast(m), high, high + 1);
  }

  lemma MedianOfSorted(values: seq<real>)
    requires values != [] && |values| != 2
    ensures var sorted := SortBy(values, Identity); var middle := |sorted| / 2;
            && |sorted| == |values|
            && Median(values) ==
               if |sorted| % 2 == 0 then (sorted[middle - 1] + sorted[middle]) / 2.0 else sorted[middle]
  {
    SortBySorts(values, Identity);
    if |values| == 1 {
      SortSorted(values, Identity);
    }
    hide SortBy;
  }

  lemma SortedSplits(values: seq<real>, m: real)
    requires values != [] && |values| != 2 && m == Median(values)
    ensures 2 * CountIf(values, AtMost(m)) >= |values|
    ensures 2 * CountIf(values, AtLeast(m)) >= |values|
  {
    hide SortBy, Median, CountIf;
    MedianOfSorted(values);
    SortBySorts(values, Identity);
    CountSorted(values, Identity, AtMost(m));
    CountSorted(values, Identity, AtLeast(m));
    MiddleSplits(SortBy(values, Identity), m);
  }

  /** At least half of the values are at most the median, and at least half are at least the median. */
  lemma MedianSplits(values: seq<real>)
    requires values != []
    ensures 2 * CountIf(values, AtMost(Median(values))) >= |values|
    ensures 2 * CountIf(values, AtLeast(Median(values))) >= |values|
  {
    if |values| == 2 {
      hide CountIf, SortBy;
      TwoValuesSplit(values, Median(values));
    } else {
      SortedSplits(values, Median(values));
    }
  }

  lemma MiddleSplits(sorted: seq<real>, m: real)
    requires sorted != [] && Sorted(sorted, Identity)
    requires var middle := |sorted| / 2;
             m == if |sorted| % 2 == 0 then (sorted[middle - 1] + sorted[middle]) / 2.0 else sorted[middle]
    ensures 2 * CountIf(sorted, AtMost(m)) >= |sorted|
    ensures 2 * CountIf(sorted, AtLeast(m)) >= |sorted|
  {
    var middle := |sorted| / 2;
    forall i | 0 <= i < |sorted|
      ensures (i < middle || (i == middle && |sorted| % 2 == 1)) ==> sorted[i] <= m
      ensures i >= middle ==> sorted[i] >= m
    {
      if i < middle {
        assert Identity(sorted[i]) <= Identity(sorted[middle]);
        assert i < middle - 1 ==> Identity(sorted[i]) <= Identity(sorted[middle - 1]);
      } else if i > middle {
        assert Identity(sorted[middle]) <= Identity(sorted[i]);
      }
      assert |sorted| % 2 == 0 ==> Identity(sorted[middle - 1]) <= Identity(sorted[middle]);
    }
    CountSlice(sorted, AtMost(m), 0, if |sorted| % 2 == 0 then middle else middle + 1);
    CountSlice(sorted, AtLeast(m), middle, |sorted|);
  }

  function FeedIdsOf(packages: seq<PricePackage>): set<string> {
    set p, point | p in packages && point in p.points :: point.feedId
  }

  function Medians(packages: seq<PricePackage>): map<string, real> {
    map f | f in FeedIdsOf(packages) && FeedValues(packages, f) != [] :: Median(FeedValues(packages, f))
  }

  function ValuesAt(allValues: map<string, seq<real>>, feedId: string): seq<real> {
    if feedId in allValues then allValues[feedId] else []
  }

  lemma PointValuesNext(points: seq<PricePoint>, j: nat, feedId: string)
    requires j < |points|
    ensures PointValues(points[..j + 1], feedId) ==
              PointValues(points[..j], feedId) + (if points[j].feedId == feedId then [points[j].value] else [])
  {
    assert points[..j + 1][..j] == points[..j];
  }

  /** `collected` with the values of one package's points appended to their feeds. */
  ghost predicate Appended(allValues: map<string, seq<real>>, collected: map<string, seq<real>>,
                           points: seq<PricePoint>) {
    && (forall f :: ValuesAt(allValues, f) == ValuesAt(collected, f) + PointValues(points, f))
    && (forall f :: f in allValues ==> allValues[f] != [])
  }

  lemma AppendPoint(before: map<string, seq<real>>, collected: map<string, seq<real>>, points: seq<PricePoint>, j: nat)
    requires j < |points| && Appended(before, collected, points[..j])
    ensures var id := points[j].feedId;
            Appended(before[id := ValuesAt(before, id) + [points[j].value]], collected, points[..j + 1])
  {
    hide PointValues;
    var id := points[j].feedId;
    var after := before[id := ValuesAt(before, id) + [points[j].value]];
    forall f ensures ValuesAt(after, f) == ValuesAt(collected, f) + PointValues(points[..j + 1], f) {
      PointValuesNext(points, j, f);
      assert ValuesAt(before, f) == ValuesAt(collected, f) + PointValues(points[..j], f);
    }
  }

  /** The inner loop of `getAllValues`. */
  method AddPointValues(collected: map<string, seq<real>>, points: seq<PricePoint>)
      returns (allValues: map<string, seq<real>>)
    requires forall f :: f in collected ==> collected[f] != []
    ensures Appended(allValues, collected, points)
  {
    allValues := collected;
    for j := 0 to |points|
      invariant Appended(allValues, collected, points[..j])
    {
      hide Appended;
      AppendPoint(allValues, collected, points, j);
      var id, value := points[j].feedId, points[j].value;
      allValues := allValues[id := ValuesAt(allValues, id) + [value]];
    }
    assert points[..|points|] == points;
  }

  /** The outer loop of `getAllValues`. */
  method GetAllValues(packages: seq<PricePackage>) returns (allValues: map<string, seq<real>>)
    ensures forall f :: ValuesAt(allValues, f) == FeedValues(packages, f)
    ensures forall f :: f in allValues ==> allValues[f] != []
  {
    allValues := map[];
    for i := 0 to |packages|
      invariant forall f :: ValuesAt(allValues, f) == FeedValues(packages[..i], f)
      invariant forall f :: f in allValues ==> allValues[f] != []
    {
      assert packages[..i + 1][..i] == packages[..i];
      allValues := AddPointValues(allValues, packages[i].points);
    }
    assert packages[..|packages|] == packages;
  }

  // ----- Distance from the medians

  /** The largest relative distance of a point from its median; dividing by a zero median throws. */
  function MaxDistance(points: seq<PricePoint>, medians: map<string, real>): Result<real, SelectionError> {
    if points == [] then Success(0.0)
    else
      var n := |points| - 1;
      var max :- MaxDistance(points[..n], medians);
      if points[n].feedId !in medians || medians[points[n].feedId] == 0.0 then Failure(UndefinedDistance)
      else
        var median := medians[points[n].feedId];
        Success(MaxReal(max, Abs(points[n].value - median) / median))
  }

  method GetMaxDistanceFromMedian(p: PricePackage, medians: map<string, real>) returns (r: Result<real, SelectionError>)
    ensures r == MaxDistance(p.points, medians)
  {
    var maxDistanceFromMedian := 0.0;
    for i := 0 to |p.points|
      invariant MaxDistance(p.points[..i], medians) == Success(maxDistanceFromMedian)
    {
      var point := p.points[i];
      assert p.points[..i + 1][..i] == p.points[..i];
      if point.feedId !in medians || medians[point.feedId] == 0.0 {
        FailurePersists(p.points, i + 1, medians);
        return Failure(UndefinedDistance);
      }
      var median := medians[point.feedId];
      maxDistanceFromMedian := MaxReal(maxDistanceFromMedian, Abs(point.value - median) / median);
    }
    assert p.points[..|p.points|] == p.points;
    r := Success(maxDistanceFromMedian);
  }

  lemma {:induction false} FailurePersists(points: seq<PricePoint>, i: nat, medians: map<string, real>)
    requires i <= |points| && MaxDistance(points[..i], medians) == Failure(UndefinedDistance)
    ensures MaxDistance(points, medians) == Failure(UndefinedDistance)
  {
    if i == |points| {
      assert points[..i] == points;
    } else {
      assert points[..|points| - 1][..i] == points[..i];
      FailurePersists(points[..|points| - 1], i, medians);
    }
  }

  function DistanceOf(p: PricePackage, medians: map<string, real>): real {
    match MaxDistance(p.points, medians)
    case Success(d) => d
    case Failure(_) => 0.0
  }

  function DistanceKey(medians: map<string, real>): PricePackage -> real {
    (p: PricePackage) => DistanceOf(p, medians)
  }

  predicate DistancesDefined(packages: seq<PricePackage>) {
    forall p | p in packages :: MaxDistance(p.points, Medians(packages)).Success?
  }

  /** The `count` packages closest to the medians, closest first. */
  function PickClosestToMedian(packages: seq<PricePackage>, count: nat): Result<seq<PricePackage>, SelectionError> {
    if !DistancesDefined(packages) then Failure(UndefinedDistance)
    else Success(SortBy(packages, DistanceKey(Medians(packages)))[..Min(count, SortedLength(packages))])
  }

  function SortedLength(packages: seq<PricePackage>): (n: nat)
    ensures n == |SortBy(packages, DistanceKey(Medians(packages)))| == |packages|
  {
    SortBySorts(packages, DistanceKey(Medians(packages)));
    |packages|
  }

  /**
   * The picked packages are `count` of the given ones (all, if there are fewer), and none that was left
   * out is closer to the medians than one that was kept.
   */
  lemma PickedAreClosest(packages: seq<PricePackage>, count: nat)
    requires PickClosestToMedian(packages, count).Success?
    ensures var picked := PickClosestToMedian(packages, count).value;
            var excluded := multiset(packages) - multiset(picked);
            && |picked| == Min(count, |packages|)
            && multiset(picked) <= multiset(packages)
            && forall x, y :: x in picked && y in excluded ==>
                 DistanceOf(x, Medians(packages)) <= DistanceOf(y, Medians(packages))
  {
    hide MaxDistance, Medians;
    var key := DistanceKey(Medians(packages));
    SortBySorts(packages, key);
    CutSorted(SortBy(packages, key), Min(count, |packages|), key);
    assert forall x :: key(x) == DistanceOf(x, Medians(packages));
  }

  lemma CutSorted<T>(s: seq<T>, k: nat, key: T -> real)
    requires k <= |s| && Sorted(s, key)
    ensures multiset(s[..k]) <= multiset(s)
    ensures forall x, y :: x in s[..k] && y in multiset(s) - multiset(s[..k]) ==> key(x) <= key(y)
  {
    CutMultiset(s, k);
    forall x, y | x in s[..k] && y in multiset(s[k..]) ensures key(x) <= key(y) {
      var i :| 0 <= i < k && s[i] == x;
      assert y in s[k..];
      var j :| k <= j < |s| && s[j] == y;
    }
  }

  lemma CutMultiset<T>(s: seq<T>, k: nat)
    requires k <= |s|
    ensures multiset(s[..k]) <= multiset(s)
    ensures multiset(s) - multiset(s[..k]) == multiset(s[k..])
  {
    assert s == s[..k] + s[k..];
  }

  // ----- When distances are defined, and what they mean

  lemma {:induction false} DistanceDefined(points: seq<PricePoint>, medians: map<string, real>)
    ensures MaxDistance(points, medians).Success? <==>
              forall i :: 0 <= i < |points| ==> points[i].feedId in medians && medians[points[i].feedId] != 0.0
  {
    if points != [] {
      var n := |points| - 1;
      DistanceDefined(points[..n], medians);
      assert forall i :: 0 <= i < n ==> points[..n][i] == points[i];
    }
  }

  lemma {:induction false} HasPointValue(points: seq<PricePoint>, i: nat)
    requires i < |points|
    ensures PointValues(points, points[i].feedId) != []
  {
    var n := |points| - 1;
    if i < n {
      HasPointValue(points[..n], i);
    }
  }

  lemma {:induction false} HasFeedValue(packages: seq<PricePackage>, k: nat, i: nat)
    requires k < |packages| && i < |packages[k].points|
    ensures FeedValues(packages, packages[k].points[i].feedId) != []
  {
    var n := |packages| - 1;
    if k < n {
      HasFeedValue(packages[..n], k, i);
    } else {
      HasPointValue(packages[k].points, i);
    }
  }

  ghost predicate NoZeroMedian(packages: seq<PricePackage>) {
    forall f :: f in Medians(packages) ==> Medians(packages)[f] != 0.0
  }

  lemma PackageDistanceDefined(packages: seq<PricePackage>, k: nat)
    requires k < |packages|
    ensures forall i :: 0 <= i < |packages[k].points| ==> packages[k].points[i].feedId in Medians(packages)
    ensures MaxDistance(packages[k].points, Medians(packages)).Success? <==>
              forall i :: 0 <= i < |packages[k].points| ==> Medians(packages)[packages[k].points[i].feedId] != 0.0
  {
    hide MaxDistance, Median;
    DistanceDefined(packages[k].points, Medians(packages));
    forall i | 0 <= i < |packages[k].points| ensures packages[k].points[i].feedId in Medians(packages) {
      HasFeedValue(packages, k, i);
    }
  }

  /** Selection throws exactly when the median of some feed is zero. */
  lemma DistancesDefinedExactly(packages: seq<PricePackage>)
    ensures DistancesDefined(packages) <==> NoZeroMedian(packages)
  {
    hide MaxDistance, Median;
    var medians := Medians(packages);
    if NoZeroMedian(packages) {
      forall p | p in packages ensures MaxDistance(p.points, medians).Success? {
        var k :| 0 <= k < |packages| && packages[k] == p;
        PackageDistanceDefined(packages, k);
      }
    }
    if DistancesDefined(packages) {
      forall f | f in medians ensures medians[f] != 0.0 {
        var p, point :| p in packages && point in p.points && point.feedId == f;
        var k :| 0 <= k < |packages| && packages[k] == p;
        var i :| 0 <= i < |p.points| && p.points[i] == point;
        PackageDistanceDefined(packages, k);
        assert packages[k].points[i].feedId == f;
      }
    }
  }

  /** With positive medians the distance is the largest relative deviation of a point. */
  lemma {:induction false} DistanceIsRelativeDeviation(points: seq<PricePoint>, medians: map<string, real>)
    requires forall i :: 0 <= i < |points| ==> points[i].feedId in medians && medians[points[i].feedId] > 0.0
    ensures MaxDistance(points, medians).Success?
    ensures var d := MaxDistance(points, medians).value;
            && d >= 0.0
            && (forall i :: 0 <= i < |points| ==> Deviation(points[i], medians[points[i].feedId]) <= d)
            && (d == 0.0 || exists i :: 0 <= i < |points| && Deviation(points[i], medians[points[i].feedId]) == d)
  {
    if points != [] {
      var n := |points| - 1;
      var init := points[..n];
      DistanceIsRelativeDeviation(init, medians);
      var max, last := MaxDistance(init, medians).value, Deviation(points[n], medians[points[n].feedId]);
      assert forall i :: 0 <= i < n ==> init[i] == points[i];
      if last <= max && max != 0.0 {
        var i :| 0 <= i < n && Deviation(init[i], medians[init[i].feedId]) == max;
        assert Deviation(points[i], medians[points[i].feedId]) == max;
      }
    }
  }

  /** How far a point is from its median, in relation to the median. */
  function Deviation(point: PricePoint, median: real): real
    requires median != 0.0
  {
    Abs(point.value - median) / median
  }

  ghost predicate SinglePoint(packages: seq<PricePackage>, feedId: string) {
    forall p :: p in packages ==> |p.points| == 1 && p.points[0].feedId == feedId
  }

  function FirstValue(p: PricePackage): real {
    if p.points == [] then 0.0 else p.points[0].value
  }
}
