/** Accumulating paid traffic costs, consuming them for an update and refunding them. */
module TrafficMeter {
  import opened Wrappers

  /** `Math.round`: halves go up. */
  function Round(x: real): int {
    (x + 0.5).Floor
  }

  function OrZero(accumulated: Option<real>): real {
    if accumulated.Some? then accumulated.value else 0.0
  }

  function Added(accumulated: Option<real>, shouldAccumulate: bool, cost: Option<real>): Option<real> {
    if !shouldAccumulate || cost.None? || cost.value < 0.0 then accumulated
    else Some(OrZero(accumulated) + cost.value)
  }

  class CantonTrafficMeter {
    const shouldAccumulateTraffic: bool
    var accumulatedPaidTrafficCost: Option<real>

    constructor (shouldAccumulateTraffic: bool)
      ensures this.shouldAccumulateTraffic == shouldAccumulateTraffic && accumulatedPaidTrafficCost == None
    {
      this.shouldAccumulateTraffic := shouldAccumulateTraffic;
      accumulatedPaidTrafficCost := None;
    }

    method ConsumeAccumulated() returns (paidTrafficCost: int)
      modifies this
      ensures paidTrafficCost == Round(OrZero(old(accumulatedPaidTrafficCost)))
      ensures accumulatedPaidTrafficCost == Some(0.0)
    {
      paidTrafficCost := Round(OrZero(accumulatedPaidTrafficCost));
      accumulatedPaidTrafficCost := Some(0.0);
    }

    method Refund(paidTrafficCost: int)
      modifies this
      ensures accumulatedPaidTrafficCost ==
                Added(old(accumulatedPaidTrafficCost), shouldAccumulateTraffic, Some(paidTrafficCost as real))
    {
      AddPaidTrafficCost(Some(paidTrafficCost as real));
    }

    method AddPaidTrafficCost(paidTrafficCost: Option<real>)
      modifies this
      ensures accumulatedPaidTrafficCost ==
              Added(old(accumulatedPaidTrafficCost), shouldAccumulateTraffic, paidTrafficCost)
      ensures OrZero(accumulatedPaidTrafficCost) ==
              OrZero(old(accumulatedPaidTrafficCost)) +
              (if shouldAccumulateTraffic && paidTrafficCost.Some? && paidTrafficCost.value > 0.0
               then paidTrafficCost.value else 0.0)
    {
      if !shouldAccumulateTraffic || paidTrafficCost.None? || paidTrafficCost.value < 0.0 {
        return;
      }
      if accumulatedPaidTrafficCost.None? {
        accumulatedPaidTrafficCost := Some(0.0);
      }
      accumulatedPaidTrafficCost := Some(accumulatedPaidTrafficCost.value + paidTrafficCost.value);
    }
  }

  // ----- Updates in flight

  /** How the exercise of the write choice ends: updated, answered without an update, or thrown. */
  datatype ExerciseOutcome = Updated | NoUpdate | Threw

  /** The books of an accumulating meter and the updates it serves. */
  datatype Books = Books(
    accumulated: Option<real>,
    inFlight: seq<int>,
    charged: int,
    lost: int,
    added: real,
    consumes: nat)

  datatype Event = AddCost(cost: Option<real>) | Start | Finish(k: nat, outcome: ExerciseOutcome)

  const OPENED: Books := Books(None, [], 0, 0, 0.0, 0)

  predicate Enabled(b: Books, e: Event) {
    e.Finish? ==> e.k < |b.inFlight|
  }

  function Without(s: seq<int>, k: nat): seq<int>
    requires k < |s|
  {
    s[..k] + s[k + 1..]
  }

  /**
   * `exerciseWritePricesChoice`: consume at the start; refund a non-zero cost when nothing was updated. `refunds`
   * tells whether the meter takes refunds: the constant meter overrides `refund` with nothing.
   */
  function Step(b: Books, refunds: bool, e: Event): Books
    requires Enabled(b, e)
  {
    match e
    case AddCost(cost) =>
      b.(accumulated := Added(b.accumulated, true, cost),
         added := b.added + (if cost.Some? && cost.value >= 0.0 then cost.value else 0.0))
    case Start =>
      b.(accumulated := Some(0.0), inFlight := b.inFlight + [Round(OrZero(b.accumulated))], consumes := b.consumes + 1)
    case Finish(k, outcome) =>
      var cost := b.inFlight[k];
      var rest := b.(inFlight := Without(b.inFlight, k));
      match outcome
      case Updated => rest.(charged := b.charged + cost)
      case Threw => rest.(lost := b.lost + cost)
      case NoUpdate =>
        if refunds then
          rest.(accumulated := if cost != 0 then Added(b.accumulated, true, Some(cost as real)) else b.accumulated)
        else rest.(lost := b.lost + cost)
  }

  /** The adapter that exercises the write choice, cut at its await; the books beside it are ghost. */
  class PricesCantonContractAdapter {
    const meter: CantonTrafficMeter
    const refunds: bool
    var inFlight: seq<int>
    ghost var charged: int
    ghost var lost: int
    ghost var added: real
    ghost var consumes: nat

    ghost function View(): Books
      reads this, meter
    {
      Books(meter.accumulatedPaidTrafficCost, inFlight, charged, lost, added, consumes)
    }

    constructor (refunds: bool)
      ensures fresh(meter) && this.refunds == refunds && Valid() && View() == OPENED
    {
      meter := new CantonTrafficMeter(true);
      this.refunds := refunds;
      inFlight, charged, lost, added, consumes := [], 0, 0, 0.0, 0;
    }

    /** The meter accumulates, and no cost is negative. */
    ghost predicate Valid()
      reads this, meter
    {
      && meter.shouldAccumulateTraffic
      && OrZero(meter.accumulatedPaidTrafficCost) >= 0.0
      && forall i :: 0 <= i < |inFlight| ==> inFlight[i] >= 0
    }

    method Add(cost: Option<real>)
      requires Valid()
      modifies this, meter
      ensures Valid() && View() == Step(old(View()), refunds, AddCost(cost))
    {
      meter.AddPaidTrafficCost(cost);
      added := added + (if cost.Some? && cost.value >= 0.0 then cost.value else 0.0);
    }

    method StartExercise() returns (paidTrafficCost: int)
      requires Valid()
      modifies this, meter
      ensures Valid() && View() == Step(old(View()), refunds, Start)
      ensures inFlight == old(inFlight) + [paidTrafficCost] && charged == old(charged)
      ensures var before := OrZero(old(meter.accumulatedPaidTrafficCost));
              paidTrafficCost as real - 0.5 <= before < paidTrafficCost as real + 0.5
      ensures meter.accumulatedPaidTrafficCost == Some(0.0)
    {
      RoundsHalvesUp(OrZero(meter.accumulatedPaidTrafficCost), Round(OrZero(meter.accumulatedPaidTrafficCost)));
      paidTrafficCost := meter.ConsumeAccumulated();
      inFlight := inFlight + [paidTrafficCost];
      consumes := consumes + 1;
    }

    /** Charged when it updated, given back when it did not and the meter takes refunds, otherwise lost. */
    method FinishExercise(k: nat, outcome: ExerciseOutcome)
      requires k < |inFlight| && Valid()
      modifies this, meter
      ensures Valid() && View() == Step(old(View()), refunds, Finish(k, outcome))
      ensures inFlight == old(inFlight)[..k] + old(inFlight)[k + 1..]
      ensures charged == old(charged) + (if outcome == Updated then old(inFlight)[k] else 0)
      ensures OrZero(meter.accumulatedPaidTrafficCost) ==
              OrZero(old(meter.accumulatedPaidTrafficCost)) +
              (if outcome == NoUpdate && refunds then old(inFlight)[k] as real else 0.0)
      ensures lost == old(lost) +
                      (if outcome == Threw || (outcome == NoUpdate && !refunds) then old(inFlight)[k] else 0)
    {
      var paidTrafficCost := inFlight[k];
      inFlight := Without(inFlight, k);
      match outcome {
        case Updated => charged := charged + paidTrafficCost;
        case Threw => lost := lost + paidTrafficCost;
        case NoUpdate =>
          if !refunds {
            lost := lost + paidTrafficCost;
          } else if paidTrafficCost != 0 {
            meter.Refund(paidTrafficCost);
          }
      }
    }
  }

  /** The books after a run, if every event of it was enabled. */
  function After(refunds: bool, events: seq<Event>): Option<Books> {
    if events == [] then Some(OPENED)
    else
      var n := |events| - 1;
      var before := After(refunds, events[..n]);
      if before.Some? && Enabled(before.value, events[n]) then Some(Step(before.value, refunds, events[n])) else None
  }

  ghost predicate Run(refunds: bool, events: seq<Event>, b: Books) {
    After(refunds, events) == Some(b)
  }

  function Total(costs: seq<int>): int {
    if costs == [] then 0 else Total(costs[..|costs| - 1]) + costs[|costs| - 1]
  }

  lemma {:induction false} TotalConcat(a: seq<int>, b: seq<int>)
    ensures Total(a + b) == Total(a) + Total(b)
  {
    if b == [] {
      assert a + b == a;
    } else {
      assert (a + b)[..|a + b| - 1] == a + b[..|b| - 1];
      TotalConcat(a, b[..|b| - 1]);
    }
  }

  lemma TotalAppend(costs: seq<int>, cost: int)
    ensures Total(costs + [cost]) == Total(costs) + cost
  {
    assert (costs + [cost])[..|costs|] == costs;
  }

  lemma WithoutKeeps(s: seq<int>, k: nat)
    requires k < |s| && forall i :: 0 <= i < |s| ==> s[i] >= 0
    ensures forall i :: 0 <= i < |Without(s, k)| ==> Without(s, k)[i] >= 0
  {
  }

  lemma SplitAround(s: seq<int>, k: nat)
    requires k < |s|
    ensures s == s[..k] + [s[k]] + s[k + 1..]
  {
  }

  lemma TotalWithout(s: seq<int>, k: nat)
    requires k < |s|
    ensures Total(Without(s, k)) == Total(s) - s[k]
  {
    var before, after := s[..k], s[k + 1..];
    SplitAround(s, k);
    TotalAppend(before, s[k]);
    hide Total;
    TotalConcat(before + [s[k]], after);
    TotalConcat(before, after);
  }

  /** Everything ever added, less what is charged, lost, in flight or still accumulated. */
  ghost function Imbalance(b: Books): real {
    b.added - (b.charged + b.lost + Total(b.inFlight)) as real - OrZero(b.accumulated)
  }

  ghost predicate NonNegative(b: Books) {
    OrZero(b.accumulated) >= 0.0 && forall i :: 0 <= i < |b.inFlight| ==> b.inFlight[i] >= 0
  }

  lemma RoundError(x: real)
    ensures -0.5 <= x - Round(x) as real <= 0.5
    ensures x >= 0.0 ==> Round(x) >= 0
  {
  }

  /** The rounded value is the integer at most half away, the upper one of two. */
  lemma RoundsHalvesUp(x: real, n: int)
    ensures Round(x) == n <==> n as real - 0.5 <= x < n as real + 0.5
  {
  }

  lemma StepBalance(b: Books, refunds: bool, e: Event)
    requires Enabled(b, e) && NonNegative(b)
    ensures var b' := Step(b, refunds, e);
            && NonNegative(b')
            && Imbalance(b') - Imbalance(b) ==
                 if e.Start? then OrZero(b.accumulated) - Round(OrZero(b.accumulated)) as real else 0.0
  {
    hide Round, Total;
    match e {
      case AddCost(_) =>
      case Start =>
        RoundError(OrZero(b.accumulated));
        TotalAppend(b.inFlight, Round(OrZero(b.accumulated)));
      case Finish(k, _) =>
        TotalWithout(b.inFlight, k);
        hide Without;
        WithoutKeeps(b.inFlight, k);
    }
  }

  /**
   * Over any interleaving of added costs and overlapping updates, what was added equals what is charged,
   * lost to failed exercises, in flight or accumulated, up to half a unit for every consumption.
   */
  lemma {:induction false} TrafficConserved(refunds: bool, events: seq<Event>, b: Books)
    requires Run(refunds, events, b)
    ensures NonNegative(b)
    ensures -(b.consumes as real) / 2.0 <= Imbalance(b) <= (b.consumes as real) / 2.0
    decreases |events|
  {
    if events != [] {
      var n := |events| - 1;
      var before := After(refunds, events[..n]).value;
      TrafficConserved(refunds, events[..n], before);
      StepBalance(before, refunds, events[n]);
      RoundError(OrZero(before.accumulated));
    }
  }

  // ----- What every exercise does with its cost

  /** The costs that were in flight when the exercises of the given outcome finished, in order. */
  ghost function CostsOf(refunds: bool, events: seq<Event>, outcome: ExerciseOutcome): seq<int> {
    if events == [] then []
    else
      var n := |events| - 1;
      var before := After(refunds, events[..n]);
      CostsOf(refunds, events[..n], outcome) +
      (if before.Some? && events[n].Finish? && events[n].outcome == outcome && events[n].k < |before.value.inFlight|
       then [before.value.inFlight[events[n].k]] else [])
  }

  /** The costs the run adds, none of them negative. */
  function AddedCosts(events: seq<Event>): real {
    if events == [] then 0.0
    else
      var e := events[|events| - 1];
      AddedCosts(events[..|events| - 1]) +
      (if e.AddCost? && e.cost.Some? && e.cost.value > 0.0 then e.cost.value else 0.0)
  }

  function Starts(events: seq<Event>): nat {
    if events == [] then 0 else Starts(events[..|events| - 1]) + (if events[|events| - 1].Start? then 1 else 0)
  }

  /** The books count every added cost and every consumption of the run. */
  lemma {:induction false} BooksCount(refunds: bool, events: seq<Event>, b: Books)
    requires Run(refunds, events, b)
    ensures b.added == AddedCosts(events) && b.consumes == Starts(events)
    decreases |events|
  {
    if events != [] {
      var n := |events| - 1;
      BooksCount(refunds, events[..n], After(refunds, events[..n]).value);
      hide Added, Without, Round;
    }
  }

  /** What finishing an exercise does to the books. */
  lemma FinishExactly(b: Books, refunds: bool, k: nat, outcome: ExerciseOutcome)
    requires k < |b.inFlight| && NonNegative(b)
    ensures var b', cost := Step(b, refunds, Finish(k, outcome)), b.inFlight[k];
            && b'.charged == b.charged + (if outcome == Updated then cost else 0)
            && b'.lost == b.lost + (if outcome == Threw || (outcome == NoUpdate && !refunds) then cost else 0)
            && OrZero(b'.accumulated) ==
               OrZero(b.accumulated) + (if outcome == NoUpdate && refunds then cost as real else 0.0)
  {
    hide Without;
  }

  /**
   * Over every run, what is charged is the cost of exactly the exercises that updated, and what is lost the cost of
   * exactly those that threw or, on a meter without refunds, updated nothing.
   */
  lemma {:induction false} ChargedExactly(refunds: bool, events: seq<Event>, b: Books)
    requires Run(refunds, events, b)
    ensures b.charged == Total(CostsOf(refunds, events, Updated))
    ensures b.lost == Total(CostsOf(refunds, events, Threw)) +
                      (if refunds then 0 else Total(CostsOf(refunds, events, NoUpdate)))
    decreases |events|
  {
    hide Total, CostsOf, Step, NonNegative, Imbalance;
    if events == [] {
      NoCosts(refunds);
    } else {
      var n := |events| - 1;
      var before, e := After(refunds, events[..n]).value, events[n];
      assert b == Step(before, refunds, e);
      ChargedExactly(refunds, events[..n], before);
      TrafficConserved(refunds, events[..n], before);
      CostsNext(refunds, events, Updated);
      CostsNext(refunds, events, NoUpdate);
      CostsNext(refunds, events, Threw);
      hide Run, After;
      if e.Finish? {
        FinishExactly(before, refunds, e.k, e.outcome);
      } else {
        OthersKeep(before, refunds, e);
      }
    }
  }

  lemma NoCosts(refunds: bool)
    ensures forall outcome :: Total(CostsOf(refunds, [], outcome)) == 0
  {
  }

  lemma OthersKeep(b: Books, refunds: bool, e: Event)
    requires !e.Finish?
    ensures Step(b, refunds, e).charged == b.charged && Step(b, refunds, e).lost == b.lost
  {
    hide Round, Added;
  }

  lemma CostsNext(refunds: bool, events: seq<Event>, outcome: ExerciseOutcome)
    requires events != [] && After(refunds, events).Some?
    ensures var n := |events| - 1; var before, e := After(refunds, events[..n]).value, events[n];
            Total(CostsOf(refunds, events, outcome)) ==
            Total(CostsOf(refunds, events[..n], outcome)) +
            (if e.Finish? && e.outcome == outcome then before.inFlight[e.k] else 0)
  {
    hide Total, Step;
    var n := |events| - 1;
    var before, e := After(refunds, events[..n]).value, events[n];
    var costs := CostsOf(refunds, events[..n], outcome);
    if e.Finish? && e.outcome == outcome {
      TotalAppend(costs, before.inFlight[e.k]);
    } else {
      assert costs + [] == costs;
    }
  }

  // ----- Lost costs

  /** The i-th event finishes an exercise whose consumed cost is neither charged nor returned. */
  ghost predicate LosesCost(refunds: bool, events: seq<Event>, i: nat) {
    && i < |events| && events[i].Finish?
    && (events[i].outcome == Threw || (events[i].outcome == NoUpdate && !refunds))
    && var before := After(refunds, events[..i]);
       before.Some? && Enabled(before.value, events[i]) && before.value.inFlight[events[i].k] != 0
  }

  lemma PrefixLoses(refunds: bool, events: seq<Event>, i: nat)
    requires events != [] && i < |events| - 1
    ensures LosesCost(refunds, events[..|events| - 1], i) <==> LosesCost(refunds, events, i)
  {
    hide After;
    assert events[..|events| - 1][..i] == events[..i];
  }

  lemma StepLoses(b: Books, refunds: bool, e: Event)
    requires Enabled(b, e) && NonNegative(b) && b.lost >= 0
    ensures var b' := Step(b, refunds, e);
            var forfeits := e.Finish? && (e.outcome == Threw || (e.outcome == NoUpdate && !refunds)) &&
                            b.inFlight[e.k] != 0;
            b'.lost >= b.lost && (b'.lost > b.lost <==> forfeits)
  {
    hide Added, Round, Without;
  }

  /**
   * Nothing is lost over a run exactly when every exercise that threw, or that updated nothing on a meter
   * without refunds, had consumed nothing.
   */
  lemma {:induction false} NothingLostExactly(refunds: bool, events: seq<Event>, b: Books)
    requires Run(refunds, events, b)
    ensures b.lost >= 0
    ensures b.lost == 0 <==> forall i: nat :: !LosesCost(refunds, events, i)
    decreases |events|
  {
    if events == [] {
      assert b == OPENED;
    } else {
      var n := |events| - 1;
      var before := After(refunds, events[..n]).value;
      NothingLostExactly(refunds, events[..n], before);
      TrafficConserved(refunds, events[..n], before);
      StepLoses(before, refunds, events[n]);
      assert LosesCost(refunds, events, n) <==> b.lost > before.lost;
      hide Step, Run, After, NonNegative, Imbalance, LosesCost;
      forall i: nat | i < n ensures LosesCost(refunds, events[..n], i) <==> LosesCost(refunds, events, i) {
        PrefixLoses(refunds, events, i);
      }
      OnlyWithin(refunds, events);
      OnlyWithin(refunds, events[..n]);
    }
  }

  lemma OnlyWithin(refunds: bool, events: seq<Event>)
    ensures forall i: nat :: LosesCost(refunds, events, i) ==> i < |events|
  {
  }

  /** One exercise that throws after consuming a cost loses the whole cost. */
  lemma ThrownExerciseLoses(refunds: bool, cost: real)
    requires cost >= 0.0
    ensures var b := After(refunds, [AddCost(Some(cost)), Start, Finish(0, Threw)]);
            b.Some? && b.value.lost == Round(cost) && b.value.charged == 0
  {
    var events := [AddCost(Some(cost)), Start, Finish(0, Threw)];
    var added := Step(OPENED, refunds, AddCost(Some(cost)));
    var started := Step(added, refunds, Start);
    assert events[..0] == [] && events[..1][..0] == [] && events[..2][..1] == events[..1] && events[..3] == events;
    assert After(refunds, events[..1]) == Some(added);
    assert started.inFlight == [Round(cost)];
    assert After(refunds, events[..2]) == Some(started);
    assert events[..|events| - 1] == events[..2];
  }

  // ----- Integer costs

  ghost predicate IntegerCosts(events: seq<Event>) {
    forall i :: 0 <= i < |events| && events[i].AddCost? && events[i].cost.Some? ==>
      events[i].cost.value.Floor as real == events[i].cost.value
  }

  ghost predicate IsInteger(x: real) {
    x.Floor as real == x
  }

  lemma IntegerRound(n: int)
    ensures (n as real).Floor == n && (n as real + 0.5).Floor == n
  {
  }

  lemma IntegerSum(x: real, y: real)
    requires IsInteger(x) && IsInteger(y)
    ensures IsInteger(x + y) && Round(x) as real == x
  {
    var m, n := x.Floor, y.Floor;
    IntegerRound(m);
    IntegerRound(m + n);
    assert x + y == (m + n) as real;
  }

  lemma IntegerAdded(accumulated: Option<real>, cost: Option<real>)
    requires IsInteger(OrZero(accumulated)) && (cost.Some? ==> IsInteger(cost.value))
    ensures IsInteger(OrZero(Added(accumulated, true, cost)))
  {
    hide IsInteger;
    if cost.Some? {
      IntegerSum(OrZero(accumulated), cost.value);
    }
  }

  lemma IntegerStep(b: Books, refunds: bool, e: Event)
    requires Enabled(b, e) && NonNegative(b)
    requires e.AddCost? && e.cost.Some? ==> IsInteger(e.cost.value)
    requires Imbalance(b) == 0.0 && IsInteger(OrZero(b.accumulated))
    ensures var b' := Step(b, refunds, e); Imbalance(b') == 0.0 && IsInteger(OrZero(b'.accumulated))
  {
    StepBalance(b, refunds, e);
    IntegerSum(OrZero(b.accumulated), 0.0);
    hide Imbalance, NonNegative, Without, Added, Round;
    match e {
      case AddCost(cost) =>
        IntegerAdded(b.accumulated, cost);
      case Start =>
      case Finish(k, _) =>
        IntegerAdded(b.accumulated, Some(b.inFlight[k] as real));
    }
  }

  /** With integer costs, as the measuring meter adds them, nothing is lost to rounding. */
  lemma {:induction false} IntegerTrafficConserved(refunds: bool, events: seq<Event>, b: Books)
    requires Run(refunds, events, b) && IntegerCosts(events)
    ensures Imbalance(b) == 0.0
    ensures IsInteger(OrZero(b.accumulated))
    decreases |events|
  {
    hide Step, Imbalance, NonNegative;
    if events == [] {
      OpenedBalance();
    } else {
      var n := |events| - 1;
      var before := After(refunds, events[..n]).value;
      assert IntegerCosts(events[..n]);
      IntegerTrafficConserved(refunds, events[..n], before);
      TrafficConserved(refunds, events[..n], before);
      IntegerStep(before, refunds, events[n]);
    }
  }

  lemma OpenedBalance()
    ensures Imbalance(OPENED) == 0.0
  {
  }
}
