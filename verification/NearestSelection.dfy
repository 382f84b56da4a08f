/** Selection keeps the packages nearest to the medians, and throws exactly when a median is zero. */
module NearestSelection {
  import opened Wrappers
  import opened Numbers
  import opened Sorting
  import opened Responses
  import opened Selection

  // ----- Medians are not negative, and when they are zero

  lemma {:induction false} PointValuesNotNegative(points: seq<PricePoint>, feedId: string)
    ensures forall v :: v in PointValues(points, feedId) ==> v >= 0.0
  {
    if points != [] {
      PointValuesNotNegative(points[..|points| - 1], feedId);
    }
  }

  lemma {:induction false} FeedValuesNotNegative(packages: seq<PricePackage>, feedId: string)
    ensures forall v :: v in FeedValues(packages, feedId) ==> v >= 0.0
  {
    if packages != [] {
      FeedValuesNotNegative(packages[..|packages| - 1], feedId);
      PointValuesNotNegative(packages[|packages| - 1].points, feedId);
    }
  }

  function IsZero(): real -> bool {
    (x: real) => x == 0.0
  }

  ghost predicate NotNegative(values: seq<real>) {
    forall v :: v in values ==> v >= 0.0
  }

  lemma {:induction false} ZeroOrMore(values: seq<real>, m: real)
    requires m > 0.0
    ensures CountIf(values, IsZero()) + CountIf(values, AtLeast(m)) <= |values|
  {
    if values != [] {
      ZeroOrMore(values[1..], m);
    }
  }

  lemma SortedNotNegative(values: seq<real>)
    requires NotNegative(values)
    ensures NotNegative(SortBy(values, Identity))
  {
    SortBySorts(values, Identity);
    forall v | v in SortBy(values, Identity) ensures v >= 0.0 {
      assert v in multiset(SortBy(values, Identity)) && v in multiset(values);
      assert v in values;
    }
  }

  /** Where the upper middle is zero, everything up to it is. */
  lemma ZerosBelow(sorted: seq<real>, middle: nat)
    requires middle < |sorted| && Sorted(sorted, Identity) && NotNegative(sorted) && sorted[middle] == 0.0
    ensures CountIf(sorted, IsZero()) >= middle + 1
  {
    forall i | 0 <= i < middle + 1 ensures sorted[i] == 0.0 {
      assert i < middle ==> Identity(sorted[i]) <= Identity(sorted[middle]);
      assert sorted[i] in sorted;
    }
    CountSlice(sorted, IsZero(), 0, middle + 1);
  }

  lemma UpperMiddle(values: seq<real>)
    requires values != [] && |values| != 2 && NotNegative(values) && Median(values) == 0.0
    ensures var sorted := SortBy(values, Identity);
            && |sorted| == |values| && Sorted(sorted, Identity) && NotNegative(sorted)
            && sorted[|values| / 2] == 0.0
  {
    var sorted := SortBy(values, Identity);
    MedianOfSorted(values);
    SortBySorts(values, Identity);
    SortedNotNegative(values);
    hide SortBy, Median;
    var middle := |sorted| / 2;
    assert sorted[middle] in sorted;
    assert |sorted| % 2 == 0 ==> sorted[middle - 1] in sorted;
  }

  /** The median of values that are not negative is zero exactly when more than half of them are zero. */
  lemma ZeroMedianExactly(values: seq<real>)
    requires values != [] && NotNegative(values)
    ensures Median(values) >= 0.0
    ensures Median(values) == 0.0 <==> 2 * CountIf(values, IsZero()) > |values|
  {
    var m := Median(values);
    hide Median, CountIf, SortBy;
    MedianNotNegative(values);
    if m > 0.0 {
      MedianSplits(values);
      ZeroOrMore(values, m);
    } else if |values| == 2 {
      TwoZeros(values);
    } else {
      UpperMiddle(values);
      ZerosBelow(SortBy(values, Identity), |values| / 2);
      CountSorted(values, Identity, IsZero());
    }
  }

  lemma TwoZeros(values: seq<real>)
    requires |values| == 2 && NotNegative(values) && Median(values) == 0.0
    ensures CountIf(values, IsZero()) == 2
  {
    assert values[0] in values && values[1] in values;
    assert values[0] == 0.0 && values[1] == 0.0;
    CountSlice(values, IsZero(), 0, 2);
  }

  lemma MedianNotNegative(values: seq<real>)
    requires values != [] && NotNegative(values)
    ensures Median(values) >= 0.0
  {
    if |values| == 2 {
      assert values[0] in values && values[1] in values;
    } else {
      MedianOfSorted(values);
      SortedNotNegative(values);
      var sorted := SortBy(values, Identity);
      hide SortBy, Median;
      assert sorted[|sorted| / 2] in sorted;
      assert |sorted| % 2 == 0 ==> sorted[|sorted| / 2 - 1] in sorted;
    }
  }

  lemma MediansNotNegative(packages: seq<PricePackage>)
    ensures forall f :: f in Medians(packages) ==> Medians(packages)[f] >= 0.0
  {
    hide Median, FeedValues;
    forall f | f in Medians(packages) ensures Medians(packages)[f] >= 0.0 {
      FeedValuesNotNegative(packages, f);
      MedianNotNegative(FeedValues(packages, f));
    }
  }

  /** The feed has values, and more than half of them are zero. */
  ghost predicate MostlyZero(packages: seq<PricePackage>, feedId: string) {
    2 * CountIf(FeedValues(packages, feedId), IsZero()) > |FeedValues(packages, feedId)|
  }

  lemma {:induction false} NoPointNoValue(points: seq<PricePoint>, feedId: string)
    requires forall point :: point in points ==> point.feedId != feedId
    ensures PointValues(points, feedId) == []
  {
    if points != [] {
      NoPointNoValue(points[..|points| - 1], feedId);
    }
  }

  lemma {:induction false} NoFeedNoValue(packages: seq<PricePackage>, feedId: string)
    requires feedId !in FeedIdsOf(packages)
    ensures FeedValues(packages, feedId) == []
  {
    if packages != [] {
      var n := |packages| - 1;
      assert packages[n] in packages;
      NoFeedNoValue(packages[..n], feedId);
      NoPointNoValue(packages[n].points, feedId);
    }
  }

  /** Selection throws on a zero median exactly when, for some feed, more than half of the values are zero. */
  lemma NoZeroMedianExactly(packages: seq<PricePackage>)
    ensures NoZeroMedian(packages) <==> forall f :: !MostlyZero(packages, f)
  {
    hide Median, FeedValues, CountIf;
    forall f ensures MostlyZero(packages, f) <==> f in Medians(packages) && Medians(packages)[f] == 0.0 {
      if f in Medians(packages) {
        FeedValuesNotNegative(packages, f);
        ZeroMedianExactly(FeedValues(packages, f));
      } else if f !in FeedIdsOf(packages) {
        NoFeedNoValue(packages, f);
      }
    }
  }

  // ----- Nearness

  function DeviationAt(point: PricePoint, medians: map<string, real>): real {
    if point.feedId in medians && medians[point.feedId] > 0.0 then Deviation(point, medians[point.feedId]) else 0.0
  }

  /** Every deviation of x from its median is matched by one of y that is at least as large. */
  ghost predicate NotFarther(x: PricePackage, y: PricePackage, medians: map<string, real>) {
    forall i :: 0 <= i < |x.points| ==>
      DeviationAt(x.points[i], medians) == 0.0 ||
      exists j :: 0 <= j < |y.points| && DeviationAt(x.points[i], medians) <= DeviationAt(y.points[j], medians)
  }

  /** No package left out is nearer to the medians than a kept one. */
  ghost predicate KeepsNearest(packages: seq<PricePackage>, picked: seq<PricePackage>) {
    forall x, y :: x in picked && y in multiset(packages) - multiset(picked) ==> NotFarther(x, y, Medians(packages))
  }

  ghost predicate PicksNearest(packages: seq<PricePackage>, count: nat) {
    PickClosestToMedian(packages, count).Success? && KeepsNearest(packages, PickClosestToMedian(packages, count).value)
  }

  /** Selection succeeds and keeps the nearest packages, whatever number of them is asked for. */
  ghost predicate AlwaysPicksNearest(packages: seq<PricePackage>) {
    forall count: nat :: PicksNearest(packages, count)
  }

  ghost predicate AllPositive(points: seq<PricePoint>, medians: map<string, real>) {
    forall i :: 0 <= i < |points| ==> points[i].feedId in medians && medians[points[i].feedId] > 0.0
  }

  lemma DistanceBounds(points: seq<PricePoint>, medians: map<string, real>)
    requires AllPositive(points, medians)
    ensures MaxDistance(points, medians).Success?
    ensures var d := MaxDistance(points, medians).value;
            && d >= 0.0
            && (forall i :: 0 <= i < |points| ==> 0.0 <= DeviationAt(points[i], medians) <= d)
            && (d == 0.0 || exists i :: 0 <= i < |points| && DeviationAt(points[i], medians) == d)
  {
    DistanceIsRelativeDeviation(points, medians);
    var d := MaxDistance(points, medians).value;
    hide MaxDistance;
    forall i | 0 <= i < |points| ensures 0.0 <= DeviationAt(points[i], medians) <= d {
      DeviationNotNegative(points[i], medians[points[i].feedId]);
    }
    if d != 0.0 {
      var i :| 0 <= i < |points| && Deviation(points[i], medians[points[i].feedId]) == d;
      assert DeviationAt(points[i], medians) == d;
    }
  }

  lemma DeviationNotNegative(point: PricePoint, median: real)
    requires median > 0.0
    ensures Deviation(point, median) >= 0.0
  {
    assert Deviation(point, median) * median == Abs(point.value - median);
  }

  lemma SmallerDistance(x: PricePackage, y: PricePackage, medians: map<string, real>)
    requires AllPositive(x.points, medians) && AllPositive(y.points, medians)
    requires DistanceOf(x, medians) <= DistanceOf(y, medians)
    ensures NotFarther(x, y, medians)
  {
    DistanceBounds(x.points, medians);
    DistanceBounds(y.points, medians);
    hide MaxDistance, DeviationAt, AllPositive;
  }

  lemma AllPointsPositive(packages: seq<PricePackage>, p: PricePackage)
    requires NoZeroMedian(packages) && p in packages
    ensures AllPositive(p.points, Medians(packages))
  {
    hide Medians;
    var k :| 0 <= k < |packages| && packages[k] == p;
    PackageDistanceDefined(packages, k);
    MediansNotNegative(packages);
  }

  /** Whenever selection succeeds, it keeps the nearest packages. */
  lemma PicksNearestWhenItSucceeds(packages: seq<PricePackage>, count: nat)
    requires PickClosestToMedian(packages, count).Success?
    ensures NoZeroMedian(packages)
    ensures PicksNearest(packages, count)
  {
    var picked := PickClosestToMedian(packages, count).value;
    DistancesDefinedExactly(packages);
    PickedAreClosest(packages, count);
    assert NoZeroMedian(packages);
    hide PickClosestToMedian, Medians, NotFarther, NoZeroMedian, DistanceOf;
    forall x, y | x in picked && y in multiset(packages) - multiset(picked)
      ensures NotFarther(x, y, Medians(packages))
    {
      assert x in multiset(picked) && x in multiset(packages) && y in multiset(packages);
      AllPointsPositive(packages, x);
      AllPointsPositive(packages, y);
      SmallerDistance(x, y, Medians(packages));
    }
  }

  /** Selection keeps the nearest packages for every number asked, exactly when no median is zero. */
  lemma AlwaysPicksNearestExactly(packages: seq<PricePackage>)
    ensures AlwaysPicksNearest(packages) <==> NoZeroMedian(packages)
  {
    hide PicksNearest, NoZeroMedian;
    if NoZeroMedian(packages) {
      forall count: nat ensures PicksNearest(packages, count) {
        DistancesDefinedExactly(packages);
        PicksNearestWhenItSucceeds(packages, count);
      }
    } else {
      ZeroMedianNeverPicks(packages);
    }
  }

  lemma ZeroMedianNeverPicks(packages: seq<PricePackage>)
    requires !NoZeroMedian(packages)
    ensures !PicksNearest(packages, 0)
  {
    hide NoZeroMedian, KeepsNearest;
    DistancesDefinedExactly(packages);
  }

  // ----- One feed

  /** Packages of one feed: no value left out is nearer to the median than a kept one. */
  lemma SingleFeedPicksNearest(
    packages: seq<PricePackage>, feedId: string, count: nat, picked: seq<PricePackage>, x: PricePackage,
    y: PricePackage)
    requires SinglePoint(packages, feedId) && PickClosestToMedian(packages, count) == Success(picked)
    requires x in picked && y in multiset(packages) - multiset(picked)
    ensures feedId in Medians(packages)
    ensures Abs(FirstValue(x) - Medians(packages)[feedId]) <= Abs(FirstValue(y) - Medians(packages)[feedId])
  {
    hide Medians, PickClosestToMedian, SinglePoint, NotFarther;
    PicksNearestWhenItSucceeds(packages, count);
    PickedAreClosest(packages, count);
    assert x in multiset(picked) && x in multiset(packages) && y in multiset(packages);
    AllPointsPositive(packages, x);
    AllPointsPositive(packages, y);
    assert NotFarther(x, y, Medians(packages));
    SinglePointNearer(packages, feedId, x, y, Medians(packages));
  }

  lemma SinglePointNearer(
    packages: seq<PricePackage>, feedId: string, x: PricePackage, y: PricePackage, medians: map<string, real>)
    requires SinglePoint(packages, feedId) && x in packages && y in packages
    requires AllPositive(x.points, medians) && AllPositive(y.points, medians) && NotFarther(x, y, medians)
    ensures feedId in medians && Abs(FirstValue(x) - medians[feedId]) <= Abs(FirstValue(y) - medians[feedId])
  {
    assert x.points[0].feedId == feedId && y.points[0].feedId == feedId;
    hide AllPositive, SinglePoint;
    DeviationTimesMedian(x.points[0], medians);
    DeviationTimesMedian(y.points[0], medians);
    var dx, dy := DeviationAt(x.points[0], medians), DeviationAt(y.points[0], medians);
    assert dx <= dy && FirstValue(x) == x.points[0].value && FirstValue(y) == y.points[0].value;
    hide *;
    ScaledUp(dx, dy, medians[feedId], Abs(x.points[0].value - medians[feedId]),
             Abs(y.points[0].value - medians[feedId]));
  }

  lemma DeviationTimesMedian(point: PricePoint, medians: map<string, real>)
    requires point.feedId in medians && medians[point.feedId] > 0.0
    ensures DeviationAt(point, medians) >= 0.0
    ensures DeviationAt(point, medians) * medians[point.feedId] == Abs(point.value - medians[point.feedId])
  {
    DeviationNotNegative(point, medians[point.feedId]);
  }

  lemma ScaledUp(a: real, b: real, m: real, am: real, bm: real)
    requires m > 0.0 && a <= b && a * m == am && b * m == bm
    ensures am <= bm
  {
    assert (b - a) * m >= 0.0;
    assert (b - a) * m == bm - am;
  }
}
