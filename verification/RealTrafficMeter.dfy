/** The meter that bills the measured growth of the consumed-traffic counter. */
module RealTrafficMeter {
  import opened Wrappers
  import opened Sets
  import opened TrafficMeter

  datatype Measurement = Measurement(initial: int, total: int)

  function BaseOf(lastRegistered: Option<int>, initial: int): int {
    if lastRegistered.Some? && initial < lastRegistered.value then lastRegistered.value else initial
  }

  class RealCantonTrafficMeter {
    const meter: CantonTrafficMeter
    var initialConsumedTraffic: Option<int>
    var lastRegisteredConsumed: Option<int>

    constructor (shouldAccumulateTraffic: bool)
      ensures fresh(meter) && meter.shouldAccumulateTraffic == shouldAccumulateTraffic
      ensures meter.accumulatedPaidTrafficCost == None && lastRegisteredConsumed == None &&
              initialConsumedTraffic == None
    {
      meter := new CantonTrafficMeter(shouldAccumulateTraffic);
      initialConsumedTraffic, lastRegisteredConsumed := None, None;
    }

    /** `fetched` is the counter the snapshot resolves to, or nothing when fetching fails. */
    method BeforeUpdate(fetched: Option<int>)
      modifies this`initialConsumedTraffic
      ensures initialConsumedTraffic == fetched
    {
      initialConsumedTraffic := fetched;
    }

    method AfterUpdate(totalConsumed: Option<int>, metadataCost: Option<real>)
      modifies this`lastRegisteredConsumed, meter
      ensures var measured := initialConsumedTraffic.Some? && totalConsumed.Some?;
              var base := if measured then BaseOf(old(lastRegisteredConsumed), initialConsumedTraffic.value) else 0;
              && lastRegisteredConsumed == (if measured then totalConsumed else old(lastRegisteredConsumed))
              && meter.accumulatedPaidTrafficCost ==
                   Added(old(meter.accumulatedPaidTrafficCost), meter.shouldAccumulateTraffic,
                         if measured then Some((totalConsumed.value - base) as real) else metadataCost)
    {
      if initialConsumedTraffic.Some? && totalConsumed.Some? {
        RegisterMeasured(initialConsumedTraffic.value, totalConsumed.value);
      } else {
        meter.AddPaidTrafficCost(metadataCost);
      }
    }

    method RegisterMeasured(initial: int, totalConsumed: int)
      modifies this`lastRegisteredConsumed, meter
      ensures lastRegisteredConsumed == Some(totalConsumed)
      ensures meter.accumulatedPaidTrafficCost ==
                Added(old(meter.accumulatedPaidTrafficCost), meter.shouldAccumulateTraffic,
                      Some((totalConsumed - BaseOf(old(lastRegisteredConsumed), initial)) as real))
    {
      var base := if lastRegisteredConsumed.Some? && initial < lastRegisteredConsumed.value
                  then lastRegisteredConsumed.value else initial;
      var usedTraffic := totalConsumed - base;
      lastRegisteredConsumed := Some(totalConsumed);
      meter.AddPaidTrafficCost(Some(usedTraffic as real));
    }

    /** Registering a sequence of measurements accumulates exactly what `Billed` says. */
    method RegisterAll(measurements: seq<Measurement>)
      requires lastRegisteredConsumed == None && meter.shouldAccumulateTraffic
      modifies this`lastRegisteredConsumed, meter
      ensures OrZero(meter.accumulatedPaidTrafficCost) ==
                OrZero(old(meter.accumulatedPaidTrafficCost)) + Billed(measurements) as real
    {
      for i := 0 to |measurements|
        invariant lastRegisteredConsumed == LastTotal(measurements[..i])
        invariant OrZero(meter.accumulatedPaidTrafficCost) ==
                  OrZero(old(meter.accumulatedPaidTrafficCost)) + Billed(measurements[..i]) as real
      {
        assert measurements[..i + 1][..i] == measurements[..i];
        RegisterMeasured(measurements[i].initial, measurements[i].total);
      }
      assert measurements[..|measurements|] == measurements;
    }
  }

  // ----- What a run bills

  function LastTotal(ms: seq<Measurement>): Option<int> {
    if ms == [] then None else Some(ms[|ms| - 1].total)
  }

  /** A negative amount is not added. */
  function BilledBy(lastRegistered: Option<int>, m: Measurement): nat {
    var used := m.total - BaseOf(lastRegistered, m.initial);
    if used < 0 then 0 else used
  }

  function Billed(ms: seq<Measurement>): nat {
    if ms == [] then 0
    else Billed(ms[..|ms| - 1]) + BilledBy(LastTotal(ms[..|ms| - 1]), ms[|ms| - 1])
  }

  function Span(first: int, end: int): (bytes: set<int>)
    ensures forall b :: b in bytes <==> first <= b < end
    decreases end - first
  {
    if first >= end then {} else Span(first, end - 1) + {end - 1}
  }

  /** The bytes measured by at least one measurement. */
  function Measured(ms: seq<Measurement>): set<int> {
    if ms == [] then {}
    else Measured(ms[..|ms| - 1]) + Span(ms[|ms| - 1].initial, ms[|ms| - 1].total)
  }

  ghost predicate Forward(ms: seq<Measurement>) {
    forall i :: 0 <= i < |ms| ==> ms[i].initial <= ms[i].total
  }

  lemma {:induction false} SpanSize(first: int, end: int)
    requires first <= end
    ensures |Span(first, end)| == end - first
    decreases end - first
  {
    if first < end {
      SpanSize(first, end - 1);
      assert end - 1 !in Span(first, end - 1);
    } else {
      assert Span(first, end) == {};
    }
  }

  lemma {:induction false} MeasuredBelow(ms: seq<Measurement>, bound: int)
    requires forall i :: 0 <= i < |ms| ==> ms[i].total <= bound
    ensures forall b :: b in Measured(ms) ==> b < bound
  {
    if ms != [] {
      MeasuredBelow(ms[..|ms| - 1], bound);
    }
  }

  lemma {:induction false} MeasuredContains(ms: seq<Measurement>, i: nat, b: int)
    requires i < |ms| && ms[i].initial <= b < ms[i].total
    ensures b in Measured(ms)
  {
    var n := |ms| - 1;
    if i < n {
      MeasuredContains(ms[..n], i, b);
    }
  }

  lemma DisjointWithin(a: set<int>, b: set<int>, whole: set<int>)
    requires a !! b && a + b <= whole
    ensures |a| + |b| <= |whole|
    ensures a + b == whole ==> |a| + |b| == |whole|
  {
    assert |a + b| == |a| + |b|;
    SubsetSize(a + b, whole);
  }

  // ----- No byte is billed twice

  /** The total at j has dropped below the one at i, and the next one rises again. */
  ghost predicate DropThenRise(totals: seq<int>, i: nat, j: nat) {
    i < j && j + 1 < |totals| && totals[j] < totals[i] && totals[j] < totals[j + 1]
  }

  ghost predicate RisesAfterDrop(totals: seq<int>) {
    exists i: nat, j: nat :: DropThenRise(totals, i, j)
  }

  function Totals(ms: seq<Measurement>): (r: seq<int>)
    ensures |r| == |ms| && forall i :: 0 <= i < |ms| ==> r[i] == ms[i].total
  {
    seq(|ms|, i requires 0 <= i < |ms| => ms[i].total)
  }

  /** What a measurement adds is disjoint from everything measured before, when the last total is the greatest. */
  lemma NewBytes(ms: seq<Measurement>)
    requires ms != [] && Forward(ms)
    requires forall i :: 0 <= i < |ms| - 1 ==> ms[i].total <= ms[|ms| - 2].total
    ensures var init := ms[..|ms| - 1];
            BilledBy(LastTotal(init), ms[|ms| - 1]) + |Measured(init)| <= |Measured(ms)|
  {
    var n := |ms| - 1;
    var init, m := ms[..n], ms[n];
    if n > 0 {
      MeasuredBelow(init, ms[n - 1].total);
    }
    var base := BaseOf(LastTotal(init), m.initial);
    if base <= m.total {
      SpanSize(base, m.total);
      DisjointWithin(Measured(init), Span(base, m.total), Measured(ms));
    } else {
      SubsetSize(Measured(init), Measured(ms));
    }
  }

  lemma PrefixTotals(ms: seq<Measurement>)
    requires ms != []
    ensures Totals(ms[..|ms| - 1]) == Totals(ms)[..|ms| - 1]
  {
  }

  lemma NoRiseInPrefix(totals: seq<int>, n: nat)
    requires !RisesAfterDrop(totals) && n <= |totals|
    ensures !RisesAfterDrop(totals[..n])
  {
    forall i: nat, j: nat ensures !DropThenRise(totals[..n], i, j) {
      assert !DropThenRise(totals, i, j);
    }
  }

  /** Unless some earlier total exceeds the last one, the last one is the greatest so far. */
  lemma LastIsGreatestOrDropped(ms: seq<Measurement>) returns (i: nat)
    requires ms != []
    ensures (i + 2 < |ms| && ms[i].total > ms[|ms| - 2].total) ||
            (forall j :: 0 <= j < |ms| - 1 ==> ms[j].total <= ms[|ms| - 2].total)
  {
    i := 0;
    while i + 1 < |ms| && ms[i].total <= ms[|ms| - 2].total
      invariant forall j :: 0 <= j < i && j < |ms| - 1 ==> ms[j].total <= ms[|ms| - 2].total
    {
      i := i + 1;
    }
  }

  /** The meter bills at most the measured bytes when no total rises after a drop. */
  lemma {:induction false} BillsAtMostMeasured(ms: seq<Measurement>)
    requires Forward(ms) && !RisesAfterDrop(Totals(ms))
    ensures Billed(ms) <= |Measured(ms)|
  {
    if ms == [] {
      assert Billed(ms) == 0;
    } else {
      hide RisesAfterDrop, Measured, BilledBy, LastTotal;
      var n := |ms| - 1;
      PrefixTotals(ms);
      NoRiseInPrefix(Totals(ms), n);
      BillsAtMostMeasured(ms[..n]);
      var i := LastIsGreatestOrDropped(ms);
      if i + 2 < |ms| && ms[i].total > ms[n - 1].total {
        NothingBilledAfterDrop(ms, i);
      } else {
        NewBytes(ms);
      }
    }
  }

  lemma NothingBilledAfterDrop(ms: seq<Measurement>, i: nat)
    requires Forward(ms) && !RisesAfterDrop(Totals(ms))
    requires i + 2 < |ms| && ms[i].total > ms[|ms| - 2].total
    ensures BilledBy(LastTotal(ms[..|ms| - 1]), ms[|ms| - 1]) == 0
    ensures |Measured(ms[..|ms| - 1])| <= |Measured(ms)|
  {
    hide RisesAfterDrop, Measured;
    var n := |ms| - 1;
    NoRiseAt(Totals(ms), i);
    MeasuredGrows(ms);
    assert ms[n].initial <= ms[n].total <= ms[n - 1].total;
    assert LastTotal(ms[..n]) == Some(ms[n - 1].total);
  }

  lemma MeasuredGrows(ms: seq<Measurement>)
    requires ms != []
    ensures |Measured(ms[..|ms| - 1])| <= |Measured(ms)|
  {
    SubsetSize(Measured(ms[..|ms| - 1]), Measured(ms));
  }

  lemma NoRiseAt(totals: seq<int>, i: nat)
    requires !RisesAfterDrop(totals) && i + 2 < |totals| && totals[|totals| - 2] < totals[i]
    ensures totals[|totals| - 1] <= totals[|totals| - 2]
  {
    assert !DropThenRise(totals, i, |totals| - 2);
  }

  ghost predicate NonDecreasing(s: seq<int>) {
    forall i, j :: 0 <= i < j < |s| ==> s[i] <= s[j]
  }

  /** With nondecreasing totals no byte is billed twice; the bill is at most the growth since the first snapshot. */
  lemma {:induction false} BillsAtMostGrowth(ms: seq<Measurement>)
    requires Forward(ms) && NonDecreasing(Totals(ms)) && ms != []
    ensures Billed(ms) <= |Measured(ms)|
    ensures Billed(ms) <= ms[|ms| - 1].total - ms[0].initial
  {
    var n := |ms| - 1;
    BillsAtMostMeasured(ms);
    assert Totals(ms)[n] == ms[n].total;
    if n > 0 {
      var init := ms[..n];
      assert forall i :: 0 <= i < n ==> Totals(init)[i] == Totals(ms)[i];
      BillsAtMostGrowth(init);
      assert Totals(ms)[n - 1] <= Totals(ms)[n];
    } else {
      assert ms[..n] == [];
    }
  }

  lemma OverlapAlreadyMeasured(ms: seq<Measurement>)
    requires ms != [] && Forward(ms)
    requires |ms| >= 2 ==> ms[|ms| - 2].initial <= ms[|ms| - 1].initial
    ensures var init, m := ms[..|ms| - 1], ms[|ms| - 1];
            Measured(init) + Span(BaseOf(LastTotal(init), m.initial), m.total) == Measured(ms)
  {
    var n := |ms| - 1;
    var init, m := ms[..n], ms[n];
    if n > 0 {
      forall b | m.initial <= b < ms[n - 1].total ensures b in Measured(init) {
        MeasuredContains(init, n - 1, b);
      }
    }
  }

  ghost predicate NonDecreasingSnapshots(ms: seq<Measurement>) {
    forall i, j :: 0 <= i < j < |ms| ==> ms[i].initial <= ms[j].initial
  }

  /** The last measurement adds exactly what it bills. */
  lemma AddsWhatItBills(ms: seq<Measurement>)
    requires ms != [] && Forward(ms) && NonDecreasing(Totals(ms)) && NonDecreasingSnapshots(ms)
    ensures var init, m := ms[..|ms| - 1], ms[|ms| - 1];
            |Measured(ms)| == |Measured(init)| + BilledBy(LastTotal(init), m)
  {
    var n := |ms| - 1;
    var init, m := ms[..n], ms[n];
    OverlapAlreadyMeasured(ms);
    LastTotalIsGreatest(ms);
    hide Measured, Span, NonDecreasing, NonDecreasingSnapshots;
    if n > 0 {
      MeasuredBelow(init, ms[n - 1].total);
    }
    var base := BaseOf(LastTotal(init), m.initial);
    SpanSize(base, m.total);
    MeasuredBeforeSpan(init, base, m.total);
    DisjointWithin(Measured(init), Span(base, m.total), Measured(ms));
  }

  lemma LastTotalIsGreatest(ms: seq<Measurement>)
    requires ms != [] && NonDecreasing(Totals(ms))
    ensures forall i :: 0 <= i < |ms| - 1 ==> ms[i].total <= ms[|ms| - 2].total <= ms[|ms| - 1].total
  {
    assert forall i :: 0 <= i < |ms| ==> Totals(ms)[i] == ms[i].total;
  }

  lemma MeasuredBeforeSpan(ms: seq<Measurement>, first: int, end: int)
    requires forall b :: b in Measured(ms) ==> b < first
    ensures Measured(ms) !! Span(first, end)
  {
    hide Measured;
  }

  /** When the snapshots are nondecreasing too, exactly the measured bytes are billed. */
  lemma {:induction false} BillsExactlyMeasured(ms: seq<Measurement>)
    requires Forward(ms) && NonDecreasing(Totals(ms)) && NonDecreasingSnapshots(ms)
    ensures Billed(ms) == |Measured(ms)|
  {
    if ms == [] {
      assert Billed(ms) == 0 && Measured(ms) == {};
    } else {
      PrefixTotals(ms);
      AddsWhatItBills(ms);
      hide Measured, BilledBy, LastTotal;
      BillsExactlyMeasured(ms[..|ms| - 1]);
    }
  }

  // ----- The order of the totals matters

  /** All snapshots taken at the same counter value. */
  function SameSnapshot(totals: seq<int>, initial: int): (r: seq<Measurement>)
    ensures |r| == |totals| && forall i :: 0 <= i < |r| ==> r[i] == Measurement(initial, totals[i])
  {
    seq(|totals|, i requires 0 <= i < |totals| => Measurement(initial, totals[i]))
  }

  function MaxOf(totals: seq<int>, least: int): (max: int)
    ensures max >= least && forall i :: 0 <= i < |totals| ==> totals[i] <= max
  {
    if totals == [] then least
    else
      var n := |totals| - 1;
      var max := MaxOf(totals[..n], least);
      if totals[n] > max then totals[n] else max
  }

  lemma NewRise(totals: seq<int>, least: int)
    requires RisesAfterDrop(totals) && !RisesAfterDrop(totals[..|totals| - 1])
    ensures var n := |totals| - 1; n >= 1 && totals[n - 1] < totals[n] && totals[n - 1] < MaxOf(totals[..n], least)
  {
    var n := |totals| - 1;
    var i: nat, j: nat :| DropThenRise(totals, i, j);
    if j + 1 < n {
      assert DropThenRise(totals[..n], i, j);
    } else {
      assert totals[..n][i] <= MaxOf(totals[..n], least);
    }
  }

  lemma {:induction false} SameSnapshotBill(totals: seq<int>, initial: int)
    requires forall i :: 0 <= i < |totals| ==> initial <= totals[i]
    ensures Billed(SameSnapshot(totals, initial)) >=
              MaxOf(totals, initial) - initial + (if RisesAfterDrop(totals) then 1 else 0)
  {
    hide RisesAfterDrop;
    if totals == [] {
      NoRiseWhenEmpty();
    } else {
      var n := |totals| - 1;
      var init := totals[..n];
      SameSnapshotBill(init, initial);
      assert SameSnapshot(totals, initial)[..n] == SameSnapshot(init, initial);
      if RisesAfterDrop(totals) && !RisesAfterDrop(init) {
        NewRise(totals, initial);
      }
      if n > 0 {
        assert init[n - 1] <= MaxOf(init, initial);
      }
    }
  }

  lemma NoRiseWhenEmpty()
    ensures !RisesAfterDrop([])
  {
  }

  lemma {:induction false} SameSnapshotMeasured(totals: seq<int>, initial: int)
    ensures Measured(SameSnapshot(totals, initial)) <= Span(initial, MaxOf(totals, initial))
  {
    if totals != [] {
      var n := |totals| - 1;
      SameSnapshotMeasured(totals[..n], initial);
      assert SameSnapshot(totals, initial)[..n] == SameSnapshot(totals[..n], initial);
    }
  }

  lemma {:induction false} LowerBound(totals: seq<int>) returns (least: int)
    ensures forall i :: 0 <= i < |totals| ==> least <= totals[i]
  {
    if totals == [] {
      least := 0;
    } else {
      var n := |totals| - 1;
      least := LowerBound(totals[..n]);
      if totals[n] < least {
        least := totals[n];
      }
    }
  }

  ghost predicate NeverOverbills(totals: seq<int>) {
    forall ms: seq<Measurement> :: Totals(ms) == totals && Forward(ms) ==> Billed(ms) <= |Measured(ms)|
  }

  /**
   * Whatever the snapshots, the bill stays within the measured bytes exactly when no total rises after
   * having dropped below an earlier one: `lastRegisteredConsumed` follows every drop.
   */
  lemma NeverOverbillsExactly(totals: seq<int>)
    ensures NeverOverbills(totals) <==> !RisesAfterDrop(totals)
  {
    if !RisesAfterDrop(totals) {
      forall ms: seq<Measurement> | Totals(ms) == totals && Forward(ms) ensures Billed(ms) <= |Measured(ms)| {
        BillsAtMostMeasured(ms);
      }
    } else {
      var least := LowerBound(totals);
      var ms := SameSnapshot(totals, least);
      var max := MaxOf(totals, least);
      SameSnapshotBill(totals, least);
      SameSnapshotMeasured(totals, least);
      SpanSize(least, max);
      SubsetSize(Measured(ms), Span(least, max));
      assert Totals(ms) == totals && Forward(ms) && Billed(ms) > |Measured(ms)|;
    }
  }

  // ----- Runs with incomplete measurements

  /** One update: the counters fetched before and after it, where fetching succeeds, and its metadata cost. */
  datatype Report = Report(initial: Option<int>, total: Option<int>, metadataCost: Option<real>)

  predicate Complete(r: Report) {
    r.initial.Some? && r.total.Some?
  }

  function MeasurementsOf(reports: seq<Report>): seq<Measurement> {
    if reports == [] then []
    else
      var last := reports[|reports| - 1];
      MeasurementsOf(reports[..|reports| - 1]) +
      (if Complete(last) then [Measurement(last.initial.value, last.total.value)] else [])
  }

  /** The metadata cost that stands in for an incomplete measurement. */
  function FallbackOf(r: Report): (cost: real)
    ensures cost >= 0.0
  {
    if !Complete(r) && r.metadataCost.Some? && r.metadataCost.value >= 0.0 then r.metadataCost.value else 0.0
  }

  function FallbackCost(reports: seq<Report>): (cost: real)
    ensures cost >= 0.0
  {
    if reports == [] then 0.0 else FallbackCost(reports[..|reports| - 1]) + FallbackOf(reports[|reports| - 1])
  }

  function MixedBill(reports: seq<Report>): real {
    Billed(MeasurementsOf(reports)) as real + FallbackCost(reports)
  }

  lemma BilledNext(ms: seq<Measurement>, m: Measurement)
    ensures Billed(ms + [m]) == Billed(ms) + BilledBy(LastTotal(ms), m)
    ensures LastTotal(ms + [m]) == Some(m.total)
  {
    assert (ms + [m])[..|ms|] == ms;
  }

  /** What one update bills. */
  function ReportBill(lastRegistered: Option<int>, r: Report): real {
    if Complete(r) then BilledBy(lastRegistered, Measurement(r.initial.value, r.total.value)) as real
    else FallbackOf(r)
  }

  lemma MixedNext(reports: seq<Report>, i: nat)
    requires i < |reports|
    ensures var before := MeasurementsOf(reports[..i]);
            && MixedBill(reports[..i + 1]) == MixedBill(reports[..i]) + ReportBill(LastTotal(before), reports[i])
            && LastTotal(MeasurementsOf(reports[..i + 1])) ==
               if Complete(reports[i]) then reports[i].total else LastTotal(before)
  {
    var before, r := MeasurementsOf(reports[..i]), reports[i];
    assert reports[..i + 1][..i] == reports[..i];
    if Complete(r) {
      BilledNext(before, Measurement(r.initial.value, r.total.value));
    }
    assert before + [] == before;
  }

  lemma ReportAdded(accumulated: Option<real>, lastRegistered: Option<int>, r: Report)
    ensures var cost :=
              if Complete(r) then Some((r.total.value - BaseOf(lastRegistered, r.initial.value)) as real)
              else r.metadataCost;
            OrZero(Added(accumulated, true, cost)) == OrZero(accumulated) + ReportBill(lastRegistered, r)
  {
  }

  /** A run of updates accumulates exactly `MixedBill`. */
  method UpdateAll(meter: RealCantonTrafficMeter, reports: seq<Report>)
    requires meter.lastRegisteredConsumed == None && meter.meter.shouldAccumulateTraffic
    modifies meter, meter.meter
    ensures meter.lastRegisteredConsumed == LastTotal(MeasurementsOf(reports))
    ensures OrZero(meter.meter.accumulatedPaidTrafficCost) ==
              OrZero(old(meter.meter.accumulatedPaidTrafficCost)) + MixedBill(reports)
  {
    for i := 0 to |reports|
      invariant meter.lastRegisteredConsumed == LastTotal(MeasurementsOf(reports[..i]))
      invariant OrZero(meter.meter.accumulatedPaidTrafficCost) ==
                OrZero(old(meter.meter.accumulatedPaidTrafficCost)) + MixedBill(reports[..i])
    {
      hide MixedBill, MeasurementsOf, LastTotal, ReportBill, Added, OrZero, BaseOf;
      var r := reports[i];
      MixedNext(reports, i);
      ReportAdded(meter.meter.accumulatedPaidTrafficCost, meter.lastRegisteredConsumed, r);
      meter.BeforeUpdate(r.initial);
      meter.AfterUpdate(r.total, r.metadataCost);
    }
    assert reports[..|reports|] == reports;
  }

  /** Unless a total rises after a drop, the fallbacks are all that is billed beyond the measured bytes. */
  lemma MixedBillBound(reports: seq<Report>)
    requires Forward(MeasurementsOf(reports)) && !RisesAfterDrop(Totals(MeasurementsOf(reports)))
    ensures MixedBill(reports) <= |Measured(MeasurementsOf(reports))| as real + FallbackCost(reports)
  {
    BillsAtMostMeasured(MeasurementsOf(reports));
    hide Billed, Measured, RisesAfterDrop;
  }

  /** With nondecreasing totals and snapshots the bill is the measured bytes and the fallbacks. */
  lemma MixedBillExactly(reports: seq<Report>)
    requires var ms := MeasurementsOf(reports);
             Forward(ms) && NonDecreasing(Totals(ms)) && NonDecreasingSnapshots(ms)
    ensures MixedBill(reports) == |Measured(MeasurementsOf(reports))| as real + FallbackCost(reports)
  {
    BillsExactlyMeasured(MeasurementsOf(reports));
  }

  /** The bytes each fallback stands for, as many as it costs. */
  ghost predicate StandFor(reports: seq<Report>, spans: seq<set<int>>) {
    |spans| == |reports| && forall i :: 0 <= i < |reports| ==> |spans[i]| as real == FallbackOf(reports[i])
  }

  lemma {:induction false} FallbackSizes(reports: seq<Report>, spans: seq<set<int>>)
    requires StandFor(reports, spans)
    ensures FallbackCost(reports) == TotalSize(spans) as real
  {
    if reports != [] {
      hide FallbackOf;
      FallbackSizes(reports[..|reports| - 1], spans[..|spans| - 1]);
    }
  }

  /** No byte is billed twice: the bill is at most the bytes that are measured or stand for a fallback. */
  ghost predicate BillsOnce(reports: seq<Report>, spans: seq<set<int>>) {
    MixedBill(reports) <= |Measured(MeasurementsOf(reports)) + Union(spans)| as real
  }

  /**
   * A fallback leaves the last total alone. So, with nondecreasing totals and snapshots, no byte is billed twice
   * exactly when no fallback's bytes are measured too or stand for another fallback.
   */
  lemma BillsOnceExactly(reports: seq<Report>, spans: seq<set<int>>)
    requires var ms := MeasurementsOf(reports);
             Forward(ms) && NonDecreasing(Totals(ms)) && NonDecreasingSnapshots(ms)
    requires StandFor(reports, spans)
    ensures BillsOnce(reports, spans) <==> Separate(Measured(MeasurementsOf(reports)), spans)
  {
    MixedBillExactly(reports);
    FallbackSizes(reports, spans);
    UnionSizeExactly(Measured(MeasurementsOf(reports)), spans);
    hide MixedBill, FallbackCost, Measured, MeasurementsOf, Separate, Union, TotalSize;
  }

  /** A fallback for the first c bytes, then a measurement of them: they are billed twice, unless there are none. */
  lemma FallbackBilledTwice(c: nat)
    ensures var reports := [Report(None, None, Some(c as real)), Report(Some(0), Some(c), None)];
            var spans := [Span(0, c), {}];
            && StandFor(reports, spans)
            && MixedBill(reports) == (2 * c) as real
            && |Measured(MeasurementsOf(reports)) + Union(spans)| == c
            && (BillsOnce(reports, spans) <==> c == 0)
  {
    var reports := [Report(None, None, Some(c as real)), Report(Some(0), Some(c), None)];
    var spans := [] + [Span(0, c)] + [{}];
    assert spans == [Span(0, c), {}];
    SpanSize(0, c);
    FallbackThenMeasured(c);
    BilledNext([], Measurement(0, c));
    MeasuredNext([], Measurement(0, c));
    UnionNext([], Span(0, c));
    UnionNext([] + [Span(0, c)], {});
    FallbackSizes(reports, spans);
    assert [] + [Measurement(0, c)] == [Measurement(0, c)];
    hide Span, Measured, Union, MeasurementsOf, FallbackCost;
    assert Span(0, c) + Span(0, c) == Span(0, c);
  }

  lemma FallbackThenMeasured(c: nat)
    ensures var reports := [Report(None, None, Some(c as real)), Report(Some(0), Some(c), None)];
            MeasurementsOf(reports) == [Measurement(0, c)] && FallbackCost(reports) == c as real
  {
    var none: seq<Report> := [];
    var first, second := Report(None, None, Some(c as real)), Report(Some(0), Some(c), None);
    assert FallbackCost(none) == 0.0 && MeasurementsOf(none) == [];
    ReportNext(none, first);
    ReportNext(none + [first], second);
    hide FallbackCost, MeasurementsOf;
    assert none + [first] + [second] == [first, second];
    assert [] + [Measurement(0, c)] == [Measurement(0, c)];
  }

  lemma ReportNext(reports: seq<Report>, r: Report)
    ensures FallbackCost(reports + [r]) == FallbackCost(reports) + FallbackOf(r)
    ensures MeasurementsOf(reports + [r]) ==
            if Complete(r) then MeasurementsOf(reports) + [Measurement(r.initial.value, r.total.value)]
            else MeasurementsOf(reports)
  {
    assert (reports + [r])[..|reports|] == reports;
    assert MeasurementsOf(reports) + [] == MeasurementsOf(reports);
  }

  lemma MeasuredNext(ms: seq<Measurement>, m: Measurement)
    ensures Measured(ms + [m]) == Measured(ms) + Span(m.initial, m.total)
  {
    assert (ms + [m])[..|ms|] == ms;
  }

  // ----- A concrete overbill

  const FIRST: Measurement := Measurement(0, 2)
  const DROPPED: Measurement := Measurement(0, 1)

  lemma OverbillBill()
    ensures Billed([FIRST, DROPPED, FIRST]) == 3
  {
    var none: seq<Measurement> := [];
    assert Billed(none) == 0 && LastTotal(none) == None;
    BilledNext(none, FIRST);
    BilledNext(none + [FIRST], DROPPED);
    BilledNext(none + [FIRST] + [DROPPED], FIRST);
    hide Billed, LastTotal;
    assert none + [FIRST] + [DROPPED] + [FIRST] == [FIRST, DROPPED, FIRST];
  }

  lemma OverbillMeasured()
    ensures |Measured([FIRST, DROPPED, FIRST])| == 2
  {
    var none: seq<Measurement> := [];
    assert Measured(none) == {};
    MeasuredNext(none, FIRST);
    MeasuredNext(none + [FIRST], DROPPED);
    MeasuredNext(none + [FIRST] + [DROPPED], FIRST);
    SpanSize(0, 2);
    hide Measured, Span;
    assert none + [FIRST] + [DROPPED] + [FIRST] == [FIRST, DROPPED, FIRST];
    assert {} + Span(0, 2) + Span(0, 1) + Span(0, 2) == Span(0, 2);
  }

  /** Totals 2, 1 and 2 from one snapshot bill three bytes for two measured ones. */
  lemma OverbillExample()
    ensures Forward([FIRST, DROPPED, FIRST])
    ensures Billed([FIRST, DROPPED, FIRST]) == 3 && |Measured([FIRST, DROPPED, FIRST])| == 2
    ensures !NeverOverbills([2, 1, 2])
  {
    hide Billed, Measured, RisesAfterDrop, NeverOverbills;
    OverbillBill();
    OverbillMeasured();
    RiseExample();
    NeverOverbillsExactly([2, 1, 2]);
  }

  lemma RiseExample()
    ensures RisesAfterDrop([2, 1, 2])
  {
    assert DropThenRise([2, 1, 2], 0, 1);
  }
}
