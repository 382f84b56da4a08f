/** The meter that bills elapsed time against a daily traffic budget. */
module ConstTrafficMeter {
  import opened Wrappers
  import opened TrafficMeter

  const DAILY_TRAFFIC_BUDGET_BYTES: real := 14_400_000.0
  const ONE_DAY_MS: int := 86_400_000
  const MAX_ELAPSED_MS: int := 3_600_000

  function CappedElapsedMs(lastSendTimeMs: map<string, int>, feedId: string, now: int): int {
    if feedId !in lastSendTimeMs then 0
    else if now - lastSendTimeMs[feedId] < MAX_ELAPSED_MS then now - lastSendTimeMs[feedId] else MAX_ELAPSED_MS
  }

  function ElapsedMsSum(lastSendTimeMs: map<string, int>, feedIds: seq<string>, now: int): int {
    if feedIds == [] then 0
    else CappedElapsedMs(lastSendTimeMs, feedIds[0], now) + ElapsedMsSum(lastSendTimeMs, feedIds[1..], now)
  }

  function Sent(lastSendTimeMs: map<string, int>, feedIds: seq<string>, now: int): map<string, int>
    decreases |feedIds|
  {
    if feedIds == [] then lastSendTimeMs else Sent(lastSendTimeMs[feedIds[0] := now], feedIds[1..], now)
  }

  function Cost(elapsedMsSum: int, totalFeedCount: nat): real
    requires totalFeedCount > 0
  {
    (DAILY_TRAFFIC_BUDGET_BYTES * elapsedMsSum as real) / (ONE_DAY_MS as real * totalFeedCount as real)
  }

  class ConstCantonTrafficMeter {
    const meter: CantonTrafficMeter
    const totalFeedCount: nat
    var lastSendTimeMs: map<string, int>

    constructor (shouldAccumulateTraffic: bool, totalFeedCount: nat)
      requires totalFeedCount > 0
      ensures fresh(meter) && meter.shouldAccumulateTraffic == shouldAccumulateTraffic
      ensures meter.accumulatedPaidTrafficCost == None && lastSendTimeMs == map[]
      ensures this.totalFeedCount == totalFeedCount
    {
      meter := new CantonTrafficMeter(shouldAccumulateTraffic);
      this.totalFeedCount := totalFeedCount;
      lastSendTimeMs := map[];
    }

    method AfterUpdate(feedIds: seq<string>, now: int)
      requires totalFeedCount > 0
      modifies this, meter
      ensures lastSendTimeMs == Sent(old(lastSendTimeMs), feedIds, now)
      ensures meter.accumulatedPaidTrafficCost ==
                Added(old(meter.accumulatedPaidTrafficCost), meter.shouldAccumulateTraffic,
                      Some(Cost(ElapsedMsSum(old(lastSendTimeMs), feedIds, now), totalFeedCount)))
    {
      var elapsedMsSum := ElapsedMsSum(lastSendTimeMs, feedIds, now);
      for i := 0 to |feedIds|
        invariant Sent(lastSendTimeMs, feedIds[i..], now) == Sent(old(lastSendTimeMs), feedIds, now)
        invariant meter.accumulatedPaidTrafficCost == old(meter.accumulatedPaidTrafficCost)
      {
        lastSendTimeMs := lastSendTimeMs[feedIds[i] := now];
      }
      meter.AddPaidTrafficCost(Some(Cost(elapsedMsSum, totalFeedCount)));
    }
  }

  /** A feed never sent costs nothing; after an hour or more exactly an hour is billed, before that the gap. */
  lemma CappedExactly(lastSendTimeMs: map<string, int>, feedId: string, now: int)
    ensures feedId !in lastSendTimeMs ==> CappedElapsedMs(lastSendTimeMs, feedId, now) == 0
    ensures feedId in lastSendTimeMs && now >= lastSendTimeMs[feedId] + 3_600_000 ==>
              CappedElapsedMs(lastSendTimeMs, feedId, now) == 3_600_000
    ensures feedId in lastSendTimeMs && now <= lastSendTimeMs[feedId] + 3_600_000 ==>
              CappedElapsedMs(lastSendTimeMs, feedId, now) == now - lastSendTimeMs[feedId]
  {
  }

  // ----- Runs

  datatype Update = Update(feedIds: seq<string>, now: int)

  function LastSent(updates: seq<Update>): map<string, int> {
    if updates == [] then map[]
    else
      var last := updates[|updates| - 1];
      Sent(LastSent(updates[..|updates| - 1]), last.feedIds, last.now)
  }

  function ElapsedBy(updates: seq<Update>): int
    requires updates != []
  {
    var last := updates[|updates| - 1];
    ElapsedMsSum(LastSent(updates[..|updates| - 1]), last.feedIds, last.now)
  }

  function TotalElapsed(updates: seq<Update>): int {
    if updates == [] then 0 else TotalElapsed(updates[..|updates| - 1]) + ElapsedBy(updates)
  }

  /** The sum of all costs the run adds to the meter; a negative cost is not added. */
  function TotalCost(updates: seq<Update>, totalFeedCount: nat): real
    requires totalFeedCount > 0
  {
    if updates == [] then 0.0
    else
      var cost := Cost(ElapsedBy(updates), totalFeedCount);
      TotalCost(updates[..|updates| - 1], totalFeedCount) + (if cost < 0.0 then 0.0 else cost)
  }

  lemma CostAddsUp(accumulated: Option<real>, cost: real)
    ensures OrZero(Added(accumulated, true, Some(cost))) == OrZero(accumulated) + (if cost < 0.0 then 0.0 else cost)
  {
  }

  /** A fresh meter accumulates over a run of updates exactly what `TotalCost` says. */
  method UpdateAll(meter: ConstCantonTrafficMeter, updates: seq<Update>)
    requires meter.lastSendTimeMs == map[] && meter.meter.shouldAccumulateTraffic && meter.totalFeedCount > 0
    modifies meter, meter.meter
    ensures meter.lastSendTimeMs == LastSent(updates)
    ensures OrZero(meter.meter.accumulatedPaidTrafficCost) ==
              OrZero(old(meter.meter.accumulatedPaidTrafficCost)) + TotalCost(updates, meter.totalFeedCount)
  {
    hide Cost, ElapsedMsSum, Sent, Added;
    for i := 0 to |updates|
      invariant meter.lastSendTimeMs == LastSent(updates[..i])
      invariant OrZero(meter.meter.accumulatedPaidTrafficCost) ==
                OrZero(old(meter.meter.accumulatedPaidTrafficCost)) + TotalCost(updates[..i], meter.totalFeedCount)
    {
      assert updates[..i + 1][..i] == updates[..i];
      CostAddsUp(meter.meter.accumulatedPaidTrafficCost, Cost(ElapsedBy(updates[..i + 1]), meter.totalFeedCount));
      meter.AfterUpdate(updates[i].feedIds, updates[i].now);
    }
    assert updates[..|updates|] == updates;
  }
}
