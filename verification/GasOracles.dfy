/** The two priority-fee oracles: a plain escalation, and one that follows the market and then climbs to the cap. */
module GasOracles {
  import opened Wrappers
  import opened Numbers
  import opened Sorting

  const MICRO_LAMPORTS_PER_LAMPORT: real := 1_000_000.0
  const MARKET_ATTEMPTS_FROM: nat := 2
  const CAP_ATTEMPTS_FROM: nat := 4

  datatype SolanaConfig = SolanaConfig(
    basePricePerComputeUnit: real,
    gasMultiplier: real,
    maxTxAttempts: int,
    maxPriorityFeePerTxInLamports: real,
    percentileOfPriorityFee: real)

  /** Prices that are not negative and a multiplier that does not shrink them. */
  ghost predicate Escalating(c: SolanaConfig) {
    c.gasMultiplier >= 1.0 && c.basePricePerComputeUnit >= 0.0 && c.maxPriorityFeePerTxInLamports >= 0.0
  }

  function Ceil(x: real): int {
    -(-x).Floor
  }

  /** `**` with an integer exponent, negative ones included. */
  function Power(b: real, k: int): (p: real)
    requires b > 0.0
    ensures p > 0.0
    decreases if k < 0 then -k else k
  {
    if k == 0 then 1.0
    else if k > 0 then b * Power(b, k - 1)
    else Quotient(Power(b, k + 1), b)
  }

  function Quotient(x: real, y: real): (q: real)
    requires y > 0.0
    ensures q * y == x
    ensures x > 0.0 ==> q > 0.0
  {
    x / y
  }

  function MaxPricePerComputeUnit(c: SolanaConfig, computeUnits: real): int {
    Quotient(c.maxPriorityFeePerTxInLamports * MICRO_LAMPORTS_PER_LAMPORT, MaxReal(1.0, computeUnits)).Floor
  }

  function EscalateFee(c: SolanaConfig, fee: real, steps: int): int
    requires c.gasMultiplier > 0.0
  {
    Ceil(fee * Power(c.gasMultiplier, steps))
  }

  // ----- The market

  function Share(percentile: real): (share: real)
    ensures 0.0 <= share <= 1.0
    ensures 0.0 <= percentile <= 100.0 ==> share * 100.0 == percentile
    ensures (percentile <= 0.0 ==> share == 0.0) && (percentile >= 100.0 ==> share == 1.0)
  {
    MaxReal(0.0, MinReal(percentile, 100.0)) / 100.0
  }

  function PercentileIndex(size: nat, percentile: real): (index: nat)
    requires size > 0
  {
    var rank := Ceil(Share(percentile) * size as real);
    Max(0, rank - 1)
  }

  lemma IndexInRange(size: nat, percentile: real)
    requires size > 0
    ensures PercentileIndex(size, percentile) < size
  {
    hide Share;
    ProductMonotone(Share(percentile), 1.0, size as real);
    CeilMonotone(Share(percentile) * size as real, size as real);
    CeilOfInt(size);
  }

  function CalculatePercentile(data: seq<real>, percentile: real): Option<real> {
    if data == [] then None
    else
      SortBySorts(data, Identity);
      IndexInRange(|data|, percentile);
      Some(SortBy(data, Identity)[PercentileIndex(|data|, percentile)])
  }

  function NonZero(fees: seq<real>): seq<real> {
    if fees == [] then []
    else (if fees[0] > 0.0 then [fees[0]] else []) + NonZero(fees[1..])
  }

  /** `fees` is what the node reports, or nothing when asking fails or times out. */
  function MarketFee(c: SolanaConfig, fees: Option<seq<real>>): real {
    if fees.None? then 0.0
    else
      var percentile := CalculatePercentile(NonZero(fees.value), c.percentileOfPriorityFee);
      if percentile.None? then 0.0 else percentile.value
  }

  // ----- The oracles

  function RegularFee(c: SolanaConfig, iterationIndex: nat, computeUnits: real): int
    requires c.gasMultiplier > 0.0
  {
    Min(Ceil(c.basePricePerComputeUnit * Power(c.gasMultiplier, iterationIndex)),
        MaxPricePerComputeUnit(c, computeUnits))
  }

  function CapFee(c: SolanaConfig, iterationIndex: nat, maxPricePerUnit: int): int
    requires c.gasMultiplier > 0.0
  {
    var capDivisor := Power(c.gasMultiplier, c.maxTxAttempts - 1 - iterationIndex);
    Max(Ceil(Quotient(maxPricePerUnit as real, capDivisor)), EscalateFee(c, c.basePricePerComputeUnit, iterationIndex))
  }

  function MarketAwareFee(c: SolanaConfig, iterationIndex: nat, fees: Option<seq<real>>): int
    requires c.gasMultiplier > 0.0
  {
    Max(EscalateFee(c, MarketFee(c, fees), iterationIndex - MARKET_ATTEMPTS_FROM),
           EscalateFee(c, c.basePricePerComputeUnit, iterationIndex))
  }

  function RawFee(c: SolanaConfig, iterationIndex: nat, fees: Option<seq<real>>, maxPricePerUnit: int): int
    requires c.gasMultiplier > 0.0
  {
    if iterationIndex >= CAP_ATTEMPTS_FROM then CapFee(c, iterationIndex, maxPricePerUnit)
    else if iterationIndex < MARKET_ATTEMPTS_FROM then EscalateFee(c, c.basePricePerComputeUnit, iterationIndex)
    else MarketAwareFee(c, iterationIndex, fees)
  }

  function AggressiveFee(c: SolanaConfig, iterationIndex: nat, fees: Option<seq<real>>, computeUnits: real): int
    requires c.gasMultiplier > 0.0
  {
    var maxPricePerUnit := MaxPricePerComputeUnit(c, computeUnits);
    Min(RawFee(c, iterationIndex, fees, maxPricePerUnit), maxPricePerUnit)
  }

  // ----- Arithmetic

  lemma CeilMonotone(x: real, y: real)
    requires x <= y
    ensures Ceil(x) <= Ceil(y)
  {
  }

  lemma CeilOfInt(n: int)
    ensures Ceil(n as real) == n
  {
  }

  lemma ProductMonotone(x: real, y: real, z: real)
    requires x <= y && z >= 0.0
    ensures x * z <= y * z && z * x <= z * y
  {
    assert (y - x) * z >= 0.0;
  }

  lemma Cancel(x: real, y: real, z: real)
    requires z > 0.0 && x * z <= y * z
    ensures x <= y
  {
  }

  lemma NotNegative(x: real, z: real)
    requires z > 0.0 && x * z >= 0.0
    ensures x >= 0.0
  {
    Cancel(0.0, x, z);
  }

  lemma SmallDivisor(x: real, d: real, q: real)
    requires 0.0 < d <= 1.0 && x >= 0.0 && q * d == x
    ensures x <= q
  {
    NotNegative(q, d);
    assert (1.0 - d) * q >= 0.0;
  }

  lemma FlooredShare(units: real, divisor: real, q: real, floored: real)
    requires 0.0 <= units <= divisor && floored <= q && q >= 0.0
    ensures units * floored <= q * divisor
  {
    var loss, room := q - floored, divisor - units;
    assert units * loss >= 0.0 && q * room >= 0.0;
    assert q * divisor == units * floored + units * loss + q * room;
  }

  lemma QuotientMonotone(x: real, y: real, z: real)
    requires 0.0 < y && y <= z && x >= 0.0
    ensures Quotient(x, z) <= Quotient(x, y)
  {
    hide Quotient;
    var p, q := Quotient(x, y), Quotient(x, z);
    NotNegative(q, z);
    ProductMonotone(y, z, q);
    Cancel(q, p, y);
  }

  lemma PowerRises(b: real, k: int)
    requires b >= 1.0
    ensures Power(b, k) <= Power(b, k + 1)
  {
    var p, q := Power(b, k), Power(b, k + 1);
    assert q == b * p;
    hide Power;
    assert (b - 1.0) * p >= 0.0;
  }

  lemma {:induction false} PowerMonotone(b: real, j: int, k: int)
    requires b >= 1.0 && j <= k
    ensures Power(b, j) <= Power(b, k)
    decreases k - j
  {
    hide Power;
    if j < k {
      PowerMonotone(b, j, k - 1);
      PowerRises(b, k - 1);
    } else {
      assert j == k;
    }
  }

  lemma EscalationRises(c: SolanaConfig, fee: real, j: int, k: int)
    requires Escalating(c) && fee >= 0.0 && j <= k
    ensures EscalateFee(c, fee, j) <= EscalateFee(c, fee, k)
  {
    hide Power;
    PowerMonotone(c.gasMultiplier, j, k);
    ProductMonotone(Power(c.gasMultiplier, j), Power(c.gasMultiplier, k), fee);
    CeilMonotone(fee * Power(c.gasMultiplier, j), fee * Power(c.gasMultiplier, k));
  }

  lemma CapNotNegative(c: SolanaConfig, computeUnits: real)
    requires Escalating(c)
    ensures MaxPricePerComputeUnit(c, computeUnits) >= 0
  {
    hide Quotient;
    var total, units := c.maxPriorityFeePerTxInLamports * MICRO_LAMPORTS_PER_LAMPORT, MaxReal(1.0, computeUnits);
    NotNegative(Quotient(total, units), units);
  }

  // ----- Bounds

  lemma UnitsTimesCap(total: real, units: real)
    requires total >= 0.0 && units >= 0.0
    ensures units * Quotient(total, MaxReal(1.0, units)).Floor as real <= total
  {
    hide Quotient;
    var divisor := MaxReal(1.0, units);
    var q := Quotient(total, divisor);
    NotNegative(q, divisor);
    FlooredShare(units, divisor, q, q.Floor as real);
  }

  /** Neither oracle ever offers more than the configured lamports for the transaction. */
  lemma FeeWithinCap(c: SolanaConfig, iterationIndex: nat, fees: Option<seq<real>>, computeUnits: real)
    requires c.gasMultiplier > 0.0 && c.maxPriorityFeePerTxInLamports >= 0.0 && computeUnits >= 0.0
    ensures computeUnits * AggressiveFee(c, iterationIndex, fees, computeUnits) as real <=
            c.maxPriorityFeePerTxInLamports * MICRO_LAMPORTS_PER_LAMPORT
    ensures computeUnits * RegularFee(c, iterationIndex, computeUnits) as real <=
            c.maxPriorityFeePerTxInLamports * MICRO_LAMPORTS_PER_LAMPORT
  {
    hide RawFee, Power, Quotient;
    var max := MaxPricePerComputeUnit(c, computeUnits);
    UnitsTimesCap(c.maxPriorityFeePerTxInLamports * MICRO_LAMPORTS_PER_LAMPORT, computeUnits);
    ProductMonotone(AggressiveFee(c, iterationIndex, fees, computeUnits) as real, max as real, computeUnits);
    ProductMonotone(RegularFee(c, iterationIndex, computeUnits) as real, max as real, computeUnits);
  }

  /** In every phase and market the aggressive oracle offers at least what the regular one does. */
  lemma AtLeastRegular(c: SolanaConfig, iterationIndex: nat, fees: Option<seq<real>>, computeUnits: real)
    requires c.gasMultiplier > 0.0
    ensures AggressiveFee(c, iterationIndex, fees, computeUnits) >= RegularFee(c, iterationIndex, computeUnits)
  {
    hide Power, MarketFee, MaxPricePerComputeUnit, RawFee;
    RawAtLeastEscalation(c, iterationIndex, fees, MaxPricePerComputeUnit(c, computeUnits));
  }

  lemma RawAtLeastEscalation(c: SolanaConfig, iterationIndex: nat, fees: Option<seq<real>>, max: int)
    requires c.gasMultiplier > 0.0
    ensures RawFee(c, iterationIndex, fees, max) >= EscalateFee(c, c.basePricePerComputeUnit, iterationIndex)
  {
    hide Power, MarketFee, EscalateFee, Quotient;
  }

  lemma CapFeeRises(c: SolanaConfig, i: nat, j: nat, maxPricePerUnit: int)
    requires Escalating(c) && i <= j && maxPricePerUnit >= 0
    ensures CapFee(c, i, maxPricePerUnit) <= CapFee(c, j, maxPricePerUnit)
  {
    hide Power, Quotient;
    var di, dj := Power(c.gasMultiplier, c.maxTxAttempts - 1 - i), Power(c.gasMultiplier, c.maxTxAttempts - 1 - j);
    PowerMonotone(c.gasMultiplier, c.maxTxAttempts - 1 - j, c.maxTxAttempts - 1 - i);
    QuotientMonotone(maxPricePerUnit as real, dj, di);
    CeilMonotone(Quotient(maxPricePerUnit as real, di), Quotient(maxPricePerUnit as real, dj));
    EscalationRises(c, c.basePricePerComputeUnit, i, j);
  }

  lemma MarketFeeNotNegative(c: SolanaConfig, fees: Option<seq<real>>)
    ensures MarketFee(c, fees) >= 0.0
  {
    if fees.Some? && NonZero(fees.value) != [] {
      var data := NonZero(fees.value);
      NonZeroPositive(fees.value);
      SortBySorts(data, Identity);
      IndexInRange(|data|, c.percentileOfPriorityFee);
      var fee := SortBy(data, Identity)[PercentileIndex(|data|, c.percentileOfPriorityFee)];
      assert fee in multiset(SortBy(data, Identity));
      assert fee in data;
    }
  }

  lemma {:induction false} NonZeroPositive(fees: seq<real>)
    ensures forall fee :: fee in NonZero(fees) <==> fee in fees && fee > 0.0
  {
    if fees != [] {
      NonZeroPositive(fees[1..]);
      assert fees == [fees[0]] + fees[1..];
    }
  }

  lemma RawFeeRises(c: SolanaConfig, i: nat, j: nat, fees: Option<seq<real>>, max: int)
    requires Escalating(c) && i <= j && max >= 0 && (i >= CAP_ATTEMPTS_FROM || j < CAP_ATTEMPTS_FROM)
    ensures RawFee(c, i, fees, max) <= RawFee(c, j, fees, max)
  {
    hide CapFee, EscalateFee, MarketFee;
    if i >= CAP_ATTEMPTS_FROM {
      CapFeeRises(c, i, j, max);
    } else {
      EscalationRises(c, c.basePricePerComputeUnit, i, j);
      if i >= MARKET_ATTEMPTS_FROM {
        MarketFeeNotNegative(c, fees);
        EscalationRises(c, MarketFee(c, fees), i - MARKET_ATTEMPTS_FROM, j - MARKET_ATTEMPTS_FROM);
      }
    }
  }

  /** In one market, on one side of the cap phase, a later attempt offers no less. */
  lemma FeesRise(c: SolanaConfig, i: nat, j: nat, fees: Option<seq<real>>, computeUnits: real)
    requires Escalating(c) && i <= j && (i >= CAP_ATTEMPTS_FROM || j < CAP_ATTEMPTS_FROM)
    ensures AggressiveFee(c, i, fees, computeUnits) <= AggressiveFee(c, j, fees, computeUnits)
  {
    hide RawFee, MaxPricePerComputeUnit;
    CapNotNegative(c, computeUnits);
    RawFeeRises(c, i, j, fees, MaxPricePerComputeUnit(c, computeUnits));
  }

  /** In the cap phase the market plays no part, so the fees rise across changing markets too. */
  lemma CapPhaseRises(c: SolanaConfig, i: nat, j: nat, before: Option<seq<real>>, later: Option<seq<real>>,
                      computeUnits: real)
    requires Escalating(c) && CAP_ATTEMPTS_FROM <= i <= j
    ensures AggressiveFee(c, i, before, computeUnits) <= AggressiveFee(c, j, later, computeUnits)
  {
    hide CapFee, MaxPricePerComputeUnit;
    CapNotNegative(c, computeUnits);
    CapFeeRises(c, i, j, MaxPricePerComputeUnit(c, computeUnits));
  }

  // ----- The last attempt

  lemma CapReached(c: SolanaConfig, i: nat, max: int)
    requires Escalating(c) && max >= 0 && i >= c.maxTxAttempts - 1
    ensures CapFee(c, i, max) >= max
  {
    hide Quotient;
    var divisor := Power(c.gasMultiplier, c.maxTxAttempts - 1 - i);
    PowerMonotone(c.gasMultiplier, c.maxTxAttempts - 1 - i, 0);
    hide Power;
    var q := Quotient(max as real, divisor);
    SmallDivisor(max as real, divisor, q);
    CeilMonotone(max as real, q);
    CeilOfInt(max);
  }

  ghost predicate PaysCap(c: SolanaConfig, i: nat, fees: Option<seq<real>>, computeUnits: real)
    requires Escalating(c)
  {
    AggressiveFee(c, i, fees, computeUnits) == MaxPricePerComputeUnit(c, computeUnits)
  }

  /** The i-th attempt pays the cap whatever the market. */
  ghost predicate AlwaysPaysCap(c: SolanaConfig, i: nat, computeUnits: real)
    requires Escalating(c)
  {
    forall fees :: PaysCap(c, i, fees, computeUnits)
  }

  /** Before the cap phase the lowest market leaves the plain escalation. */
  lemma EmptyMarket(c: SolanaConfig, i: nat, max: int)
    requires Escalating(c) && i < CAP_ATTEMPTS_FROM
    ensures RawFee(c, i, None, max) == EscalateFee(c, c.basePricePerComputeUnit, i)
  {
    BaseNotNegative(c, i);
    assert MarketFee(c, None) == 0.0;
    hide EscalateFee;
  }

  lemma LastInCapPhase(c: SolanaConfig, i: nat, fees: Option<seq<real>>, max: int)
    requires Escalating(c) && max >= 0 && CAP_ATTEMPTS_FROM <= i == c.maxTxAttempts - 1
    ensures RawFee(c, i, fees, max) >= max
  {
    hide CapFee;
    CapReached(c, i, max);
  }

  /**
   * Whatever the market, the last attempt pays exactly the cap if and only if it falls in the cap phase or
   * the plain escalation has reached the cap by itself.
   */
  lemma LastPaysCapExactly(c: SolanaConfig, computeUnits: real)
    requires Escalating(c) && c.maxTxAttempts >= 1
    ensures AlwaysPaysCap(c, c.maxTxAttempts - 1, computeUnits) <==>
              c.maxTxAttempts >= 5 ||
              EscalateFee(c, c.basePricePerComputeUnit, c.maxTxAttempts - 1) >= MaxPricePerComputeUnit(c, computeUnits)
  {
    var last, max := c.maxTxAttempts - 1, MaxPricePerComputeUnit(c, computeUnits);
    CapNotNegative(c, computeUnits);
    hide RawFee, EscalateFee, MaxPricePerComputeUnit, MarketFee;
    if c.maxTxAttempts >= 5 {
      forall fees ensures PaysCap(c, last, fees, computeUnits) {
        LastInCapPhase(c, last, fees, max);
      }
    } else if EscalateFee(c, c.basePricePerComputeUnit, last) >= max {
      forall fees ensures PaysCap(c, last, fees, computeUnits) {
        RawAtLeastEscalation(c, last, fees, max);
      }
    } else {
      EmptyMarket(c, last, max);
      assert !PaysCap(c, last, None, computeUnits);
    }
  }

  lemma BaseNotNegative(c: SolanaConfig, steps: int)
    requires Escalating(c)
    ensures EscalateFee(c, c.basePricePerComputeUnit, steps) >= 0
    ensures EscalateFee(c, 0.0, steps - MARKET_ATTEMPTS_FROM) == 0
  {
    hide Power;
    ProductMonotone(0.0, c.basePricePerComputeUnit, Power(c.gasMultiplier, steps));
    CeilMonotone(0.0, c.basePricePerComputeUnit * Power(c.gasMultiplier, steps));
  }

  // ----- From the market phase into the cap phase

  ghost predicate Rises(c: SolanaConfig, i: nat, j: nat, fees: Option<seq<real>>, computeUnits: real)
    requires Escalating(c)
  {
    AggressiveFee(c, i, fees, computeUnits) <= AggressiveFee(c, j, fees, computeUnits)
  }

  /** Attempt j offers no less than attempt i, whatever the market. */
  ghost predicate AlwaysRises(c: SolanaConfig, i: nat, j: nat, computeUnits: real)
    requires Escalating(c)
  {
    forall fees :: Rises(c, i, j, fees, computeUnits)
  }

  /** A base-phase attempt offers no more than any later one. */
  lemma BaseRises(c: SolanaConfig, i: nat, j: nat, fees: Option<seq<real>>, max: int)
    requires Escalating(c) && i <= j && i < MARKET_ATTEMPTS_FROM
    ensures RawFee(c, i, fees, max) <= RawFee(c, j, fees, max)
  {
    RawAtLeastEscalation(c, j, fees, max);
    EscalationRises(c, c.basePricePerComputeUnit, i, j);
    hide EscalateFee, MarketFee, CapFee;
  }

  /** A single fee as high as the cap makes every market attempt reach the cap. */
  lemma MarketReachesCap(c: SolanaConfig, i: nat, max: int)
    requires Escalating(c) && MARKET_ATTEMPTS_FROM <= i < CAP_ATTEMPTS_FROM && max > 0
    ensures RawFee(c, i, Some([max as real]), max) >= max
  {
    SingleFee(c, max as real);
    EscalationRises(c, max as real, 0, i - MARKET_ATTEMPTS_FROM);
    assert EscalateFee(c, max as real, 0) == max;
    hide EscalateFee, MarketFee;
  }

  /**
   * In every market attempt j offers no less than the earlier attempt i, if and only if the two are on one
   * side of the cap phase, or i is not a market attempt, or the cap share of attempt j is the whole cap.
   */
  lemma AlwaysRisesExactly(c: SolanaConfig, i: nat, j: nat, computeUnits: real)
    requires Escalating(c) && i <= j
    ensures var max := MaxPricePerComputeUnit(c, computeUnits);
            AlwaysRises(c, i, j, computeUnits) <==>
              i >= CAP_ATTEMPTS_FROM || j < CAP_ATTEMPTS_FROM || i < MARKET_ATTEMPTS_FROM || CapFee(c, j, max) >= max
  {
    hide RawFee, CapFee, MaxPricePerComputeUnit, MarketFee;
    var max := MaxPricePerComputeUnit(c, computeUnits);
    CapNotNegative(c, computeUnits);
    if i >= CAP_ATTEMPTS_FROM || j < CAP_ATTEMPTS_FROM || i < MARKET_ATTEMPTS_FROM {
      forall fees ensures Rises(c, i, j, fees, computeUnits) {
        if i < MARKET_ATTEMPTS_FROM {
          BaseRises(c, i, j, fees, max);
        } else {
          FeesRise(c, i, j, fees, computeUnits);
        }
      }
    } else {
      forall fees ensures RawFee(c, j, fees, max) == CapFee(c, j, max) {
        CapPhaseFee(c, j, fees, max);
      }
      if CapFee(c, j, max) < max {
        CapFeeNotNegative(c, j, max);
        MarketReachesCap(c, i, max);
        assert !Rises(c, i, j, Some([max as real]), computeUnits);
      }
    }
  }

  lemma CapPhaseFee(c: SolanaConfig, j: nat, fees: Option<seq<real>>, max: int)
    requires Escalating(c) && j >= CAP_ATTEMPTS_FROM
    ensures RawFee(c, j, fees, max) == CapFee(c, j, max)
  {
    hide CapFee;
  }

  lemma CapFeeNotNegative(c: SolanaConfig, j: nat, max: int)
    requires Escalating(c)
    ensures CapFee(c, j, max) >= 0
  {
    BaseNotNegative(c, j);
    hide Power, Quotient, EscalateFee;
  }

  /** With seven attempts, the fourth cap share may lie below what the market asked one attempt earlier. */
  lemma MarketToCapMayDrop()
    ensures var c := SolanaConfig(1.0, 2.0, 7, 1.0, 80.0);
            Escalating(c) && AggressiveFee(c, 4, Some([900_000.0]), 1.0) < AggressiveFee(c, 3, Some([900_000.0]), 1.0)
  {
    var c := SolanaConfig(1.0, 2.0, 7, 1.0, 80.0);
    var fees := Some([900_000.0]);
    assert MaxPricePerComputeUnit(c, 1.0) == 1_000_000;
    SingleFee(c, 900_000.0);
    assert Power(2.0, 1) == 2.0 * Power(2.0, 0) == 2.0;
    assert Power(2.0, 2) == 2.0 * Power(2.0, 1) == 4.0;
    assert Power(2.0, 3) == 2.0 * Power(2.0, 2) == 8.0;
    assert Power(2.0, 4) == 2.0 * Power(2.0, 3) == 16.0;
    hide Power, MarketFee, MaxPricePerComputeUnit, Quotient;
    assert EscalateFee(c, 900_000.0, 1) == 1_800_000;
    assert EscalateFee(c, 1.0, 3) == 8 && EscalateFee(c, 1.0, 4) == 16;
    assert Quotient(1_000_000.0, 4.0) == 250_000.0;
  }

  lemma SingleFee(c: SolanaConfig, fee: real)
    requires fee > 0.0
    ensures MarketFee(c, Some([fee])) == fee
  {
    assert NonZero([fee]) == [fee] + NonZero([fee][1..]);
    assert NonZero([fee]) == [fee];
    IndexInRange(1, c.percentileOfPriorityFee);
    assert SortBy([fee], Identity) == [fee];
  }

  // ----- The percentile

  /** At least the given share of the data is at most v. */
  predicate Covers(data: seq<real>, percentile: real, v: real) {
    CountIf(data, AtMost(v)) as real >= Share(percentile) * |data| as real
  }

  /** The percentile is the true nearest rank: the least of the data that covers the share. */
  lemma PercentileIsNearestRank(data: seq<real>, percentile: real)
    requires data != []
    ensures var p := CalculatePercentile(data, percentile);
            && p.Some?
            && p.value in data
            && Covers(data, percentile, p.value)
            && forall w :: w in data && Covers(data, percentile, w) ==> p.value <= w
  {
    var sorted, index := SortBy(data, Identity), PercentileIndex(|data|, percentile);
    SortBySorts(data, Identity);
    IndexInRange(|data|, percentile);
    var v := sorted[index];
    assert v in multiset(sorted);
    RankCovers(data, sorted, index, v, percentile);
    forall w | w in data && Covers(data, percentile, w) ensures v <= w {
      if w < v {
        CoversFromRank(data, sorted, index, w, percentile);
      }
    }
  }

  lemma RankCovers(data: seq<real>, sorted: seq<real>, index: nat, v: real, percentile: real)
    requires sorted == SortBy(data, Identity) && Sorted(sorted, Identity) && |sorted| == |data|
    requires data != [] && index == PercentileIndex(|data|, percentile) < |data| && v == sorted[index]
    ensures Covers(data, percentile, v)
  {
    hide Share, PercentileIndex, SortBy, CountIf;
    forall i | 0 <= i < index + 1 ensures AtMost(v)(sorted[i]) {
      assert Identity(sorted[i]) <= Identity(sorted[index]);
    }
    CountSlice(sorted, AtMost(v), 0, index + 1);
    CountSorted(data, Identity, AtMost(v));
    IndexAbove(|data|, percentile);
  }

  lemma IndexAbove(size: nat, percentile: real)
    requires size > 0
    ensures (PercentileIndex(size, percentile) + 1) as real >= Share(percentile) * size as real
    ensures PercentileIndex(size, percentile) > 0 ==>
              PercentileIndex(size, percentile) as real < Share(percentile) * size as real
  {
  }

  lemma CoversFromRank(data: seq<real>, sorted: seq<real>, index: nat, w: real, percentile: real)
    requires sorted == SortBy(data, Identity) && Sorted(sorted, Identity) && |sorted| == |data|
    requires data != [] && index == PercentileIndex(|data|, percentile) < |data| && w < sorted[index] && w in data
    ensures !Covers(data, percentile, w)
  {
    hide Share, PercentileIndex, SortBy, CountIf;
    forall i | index <= i < |sorted| ensures !AtMost(w)(sorted[i]) {
      assert Identity(sorted[index]) <= Identity(sorted[i]);
    }
    CountPrefixOnly(sorted, AtMost(w), index);
    CountSorted(data, Identity, AtMost(w));
    IndexAbove(|data|, percentile);
    var i :| 0 <= i < |data| && data[i] == w;
    CountSlice(data, AtMost(w), i, i + 1);
  }

  /**
   * The market fee is zero without positive fees; otherwise it is the least of the positive fees that covers the
   * configured share of them.
   */
  lemma MarketFeeIsNearestRank(c: SolanaConfig, fees: seq<real>)
    ensures MarketFee(c, None) == 0.0
    ensures (forall fee :: fee in fees ==> fee <= 0.0) ==> MarketFee(c, Some(fees)) == 0.0
    ensures var positive := NonZero(fees);
            (exists fee :: fee in fees && fee > 0.0) ==>
              var m := MarketFee(c, Some(fees));
              && m in fees && m > 0.0
              && Covers(positive, c.percentileOfPriorityFee, m)
              && forall w :: w in fees && w > 0.0 && Covers(positive, c.percentileOfPriorityFee, w) ==> m <= w
  {
    NonZeroPositive(fees);
    var positive := NonZero(fees);
    if positive != [] {
      PercentileIsNearestRank(positive, c.percentileOfPriorityFee);
      assert positive[0] in positive;
    }
    hide NonZero, CalculatePercentile, Covers;
  }

  /** The positive fees, each as often as it is reported. */
  lemma {:induction false} NonZeroCount(fees: seq<real>, fee: real)
    ensures multiset(NonZero(fees))[fee] == if fee > 0.0 then multiset(fees)[fee] else 0
  {
    if fees != [] {
      NonZeroCount(fees[1..], fee);
      assert fees == [fees[0]] + fees[1..];
    }
  }

  // ----- The attempts one by one

  /** The first two attempts offer what the regular oracle offers, whatever the market. */
  lemma FirstAttemptsAreRegular(c: SolanaConfig, iterationIndex: nat, fees: Option<seq<real>>, computeUnits: real)
    requires c.gasMultiplier > 0.0 && iterationIndex < 2
    ensures AggressiveFee(c, iterationIndex, fees, computeUnits) == RegularFee(c, iterationIndex, computeUnits)
  {
    hide Power, MaxPricePerComputeUnit, MarketFee;
  }

  lemma SmallPowers(b: real)
    requires b > 0.0
    ensures Power(b, 0) == 1.0 && Power(b, 1) == b && Power(b, 2) == b * b && Power(b, 3) == b * (b * b)
  {
    assert Power(b, 1) == b * Power(b, 0);
    assert Power(b, 2) == b * Power(b, 1);
    assert Power(b, 3) == b * Power(b, 2);
  }

  lemma SameProducts(x: real, y: real, z: real)
    requires y == z
    ensures x * y == x * z
  {
  }

  lemma SmallEscalations(c: SolanaConfig, fee: real)
    requires c.gasMultiplier > 0.0
    ensures var b := c.gasMultiplier;
            && EscalateFee(c, fee, 0) == Ceil(fee) && EscalateFee(c, fee, 1) == Ceil(fee * b)
            && EscalateFee(c, fee, 2) == Ceil(fee * (b * b)) && EscalateFee(c, fee, 3) == Ceil(fee * (b * (b * b)))
  {
    var b := c.gasMultiplier;
    SmallPowers(b);
    hide Power, Ceil;
    SameProducts(fee, Power(b, 0), 1.0);
    SameProducts(fee, Power(b, 1), b);
    SameProducts(fee, Power(b, 2), b * b);
    SameProducts(fee, Power(b, 3), b * (b * b));
  }

  /** The next two offer the market fee, and then the market fee escalated once, unless the base fee is higher. */
  lemma MarketAttempts(c: SolanaConfig, fees: Option<seq<real>>, computeUnits: real)
    requires c.gasMultiplier > 0.0
    ensures var cap, base := MaxPricePerComputeUnit(c, computeUnits), c.basePricePerComputeUnit;
            var market := MarketFee(c, fees);
            && AggressiveFee(c, 2, fees, computeUnits) == Min(Max(Ceil(market), EscalateFee(c, base, 2)), cap)
            && AggressiveFee(c, 3, fees, computeUnits) ==
               Min(Max(Ceil(market * c.gasMultiplier), EscalateFee(c, base, 3)), cap)
  {
    MarketAttempt(c, 2, fees, MaxPricePerComputeUnit(c, computeUnits));
    MarketAttempt(c, 3, fees, MaxPricePerComputeUnit(c, computeUnits));
    hide EscalateFee, MaxPricePerComputeUnit, MarketFee, Ceil, RawFee;
  }

  lemma MarketAttempt(c: SolanaConfig, i: nat, fees: Option<seq<real>>, max: int)
    requires c.gasMultiplier > 0.0 && 2 <= i < 4
    ensures var market := MarketFee(c, fees);
            RawFee(c, i, fees, max) ==
            Max(if i == 2 then Ceil(market) else Ceil(market * c.gasMultiplier),
                EscalateFee(c, c.basePricePerComputeUnit, i))
  {
    SmallEscalations(c, MarketFee(c, fees));
    hide EscalateFee, MarketFee, Ceil, CapFee;
  }

  /** From the fifth on, the last attempt offers the whole cap and the one before it the cap divided once. */
  lemma CapAttempts(c: SolanaConfig, fees: Option<seq<real>>, computeUnits: real)
    requires Escalating(c) && c.maxTxAttempts >= 6
    ensures var cap := MaxPricePerComputeUnit(c, computeUnits);
            && AggressiveFee(c, c.maxTxAttempts - 1, fees, computeUnits) == cap
            && AggressiveFee(c, c.maxTxAttempts - 2, fees, computeUnits) ==
               Min(cap, Max(Ceil(cap as real / c.gasMultiplier),
                            EscalateFee(c, c.basePricePerComputeUnit, c.maxTxAttempts - 2)))
  {
    var cap, b := MaxPricePerComputeUnit(c, computeUnits), c.gasMultiplier;
    CapNotNegative(c, computeUnits);
    assert Power(b, 1) == b * Power(b, 0) == b;
    hide Power, MaxPricePerComputeUnit, EscalateFee, MarketFee;
    LastInCapPhase(c, c.maxTxAttempts - 1, fees, cap);
  }
}
