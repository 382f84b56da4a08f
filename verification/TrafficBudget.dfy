/** When the constant meter stays within its daily budget: an exact condition on the feed lists alone. */
module TrafficBudget {
  import opened Sets
  import opened ConstTrafficMeter

  // ----- The load of a gap between two updates

  function FeedsOf(lists: seq<seq<string>>): set<string> {
    if lists == [] then {} else FeedsOf(lists[..|lists| - 1]) + ToSet(lists[|lists| - 1])
  }

  function Occurrences(feedIds: seq<string>, waiting: set<string>): nat {
    if feedIds == [] then 0 else (if feedIds[0] in waiting then 1 else 0) + Occurrences(feedIds[1..], waiting)
  }

  /** How often the waiting feeds are listed, each in the next update that lists it. */
  function LoadFrom(waiting: set<string>, rest: seq<seq<string>>): nat
    decreases |rest|
  {
    if rest == [] then 0 else Occurrences(rest[0], waiting) + LoadFrom(waiting - ToSet(rest[0]), rest[1..])
  }

  /** The listings that bill the time between update k and the next one. */
  function Load(lists: seq<seq<string>>, k: nat): nat
    requires k < |lists|
  {
    LoadFrom(FeedsOf(lists[..k + 1]), lists[k + 1..])
  }

  /** No gap is billed more often than there are feeds in the budget. */
  predicate LoadsFit(lists: seq<seq<string>>, totalFeedCount: nat) {
    forall k: nat | k < |lists| - 1 :: Load(lists, k) <= totalFeedCount
  }

  // ----- Runs over given lists

  function Updates(lists: seq<seq<string>>, times: seq<int>): (updates: seq<Update>)
    requires |lists| == |times|
    ensures |updates| == |lists| && forall i :: 0 <= i < |lists| ==> updates[i] == Update(lists[i], times[i])
  {
    seq(|lists|, i requires 0 <= i < |lists| => Update(lists[i], times[i]))
  }

  ghost predicate ClockOf(lists: seq<seq<string>>, times: seq<int>) {
    |times| == |lists| && forall i, j :: 0 <= i <= j < |times| ==> times[i] <= times[j]
  }

  function Budget(elapsedMs: int): real {
    DAILY_TRAFFIC_BUDGET_BYTES * elapsedMs as real / ONE_DAY_MS as real
  }

  /** The costs of the run stay within the budget of the time from the first to the last update. */
  ghost predicate WithinBudget(lists: seq<seq<string>>, times: seq<int>, totalFeedCount: nat)
    requires lists != [] && ClockOf(lists, times) && totalFeedCount > 0
  {
    TotalCost(Updates(lists, times), totalFeedCount) <= Budget(times[|times| - 1] - times[0])
  }

  ghost predicate StaysInBudget(lists: seq<seq<string>>, totalFeedCount: nat)
    requires lists != [] && totalFeedCount > 0
  {
    forall times :: ClockOf(lists, times) ==> WithinBudget(lists, times, totalFeedCount)
  }

  // ----- Ages: the time since the last send, without the cap

  function AgeOf(last: map<string, int>, feedId: string, now: int): int {
    if feedId in last then now - last[feedId] else 0
  }

  function AgeSum(last: map<string, int>, feedIds: seq<string>, now: int): int {
    if feedIds == [] then 0 else AgeOf(last, feedIds[0], now) + AgeSum(last, feedIds[1..], now)
  }

  /** The ages that the updates to come will bill for the time up to now. */
  function Outstanding(last: map<string, int>, rest: seq<seq<string>>, now: int): int
    decreases |rest|
  {
    if rest == [] then 0 else AgeSum(last, rest[0], now) + Outstanding(last - ToSet(rest[0]), rest[1..], now)
  }

  lemma {:induction false} AgeSumGrows(last: map<string, int>, feedIds: seq<string>, now: int, gap: int)
    ensures AgeSum(last, feedIds, now + gap) == AgeSum(last, feedIds, now) + gap * Occurrences(feedIds, last.Keys)
  {
    if feedIds != [] {
      AgeSumGrows(last, feedIds[1..], now, gap);
    }
  }

  lemma Distributes(gap: int, a: int, b: int)
    ensures gap * (a + b) == gap * a + gap * b
  {
  }

  /** Every gap adds its length once for each listing it loads. */
  lemma {:induction false} OutstandingGrows(last: map<string, int>, rest: seq<seq<string>>, now: int, gap: int)
    ensures Outstanding(last, rest, now + gap) == Outstanding(last, rest, now) + gap * LoadFrom(last.Keys, rest)
    decreases |rest|
  {
    if rest != [] {
      var others := last - ToSet(rest[0]);
      AgeSumGrows(last, rest[0], now, gap);
      OutstandingGrows(others, rest[1..], now, gap);
      assert others.Keys == last.Keys - ToSet(rest[0]);
      Distributes(gap, Occurrences(rest[0], last.Keys), LoadFrom(others.Keys, rest[1..]));
    }
  }

  ghost predicate SameAges(a: map<string, int>, b: map<string, int>, now: int) {
    forall f :: AgeOf(a, f, now) == AgeOf(b, f, now)
  }

  lemma {:induction false} SameAgeSum(a: map<string, int>, b: map<string, int>, feedIds: seq<string>, now: int)
    requires SameAges(a, b, now)
    ensures AgeSum(a, feedIds, now) == AgeSum(b, feedIds, now)
  {
    if feedIds != [] {
      SameAgeSum(a, b, feedIds[1..], now);
    }
  }

  lemma {:induction false} SameOutstanding(a: map<string, int>, b: map<string, int>, rest: seq<seq<string>>, now: int)
    requires SameAges(a, b, now)
    ensures Outstanding(a, rest, now) == Outstanding(b, rest, now)
    decreases |rest|
  {
    if rest != [] {
      SameAgeSum(a, b, rest[0], now);
      forall f ensures AgeOf(a - ToSet(rest[0]), f, now) == AgeOf(b - ToSet(rest[0]), f, now) {
        assert AgeOf(a, f, now) == AgeOf(b, f, now);
      }
      SameOutstanding(a - ToSet(rest[0]), b - ToSet(rest[0]), rest[1..], now);
    }
  }

  lemma {:induction false} SentAt(last: map<string, int>, feedIds: seq<string>, now: int, f: string)
    ensures f in Sent(last, feedIds, now) <==> f in last || f in feedIds
    ensures f in Sent(last, feedIds, now) ==> Sent(last, feedIds, now)[f] == if f in feedIds then now else last[f]
    decreases |feedIds|
  {
    if feedIds != [] {
      SentAt(last[feedIds[0] := now], feedIds[1..], now, f);
    }
  }

  lemma {:induction false} CappedAges(last: map<string, int>, feedIds: seq<string>, now: int)
    requires forall f :: f in last ==> last[f] <= now
    ensures 0 <= ElapsedMsSum(last, feedIds, now) <= AgeSum(last, feedIds, now)
    ensures (forall f :: f in last ==> now - last[f] <= MAX_ELAPSED_MS) ==>
              ElapsedMsSum(last, feedIds, now) == AgeSum(last, feedIds, now)
  {
    if feedIds != [] {
      CappedAges(last, feedIds[1..], now);
    }
  }

  // ----- Along a run

  lemma {:induction false} SentFeeds(lists: seq<seq<string>>, times: seq<int>, n: nat)
    requires ClockOf(lists, times) && n <= |lists|
    ensures LastSent(Updates(lists, times)[..n]).Keys == FeedsOf(lists[..n])
    ensures forall f :: f in LastSent(Updates(lists, times)[..n]) ==>
                        times[0] <= LastSent(Updates(lists, times)[..n])[f] <= times[n - 1]
  {
    var updates := Updates(lists, times);
    if n > 0 {
      SentFeeds(lists, times, n - 1);
      assert updates[..n][..n - 1] == updates[..n - 1] && lists[..n][..n - 1] == lists[..n - 1];
      var last := LastSent(updates[..n - 1]);
      assert LastSent(updates[..n]) == Sent(last, lists[n - 1], times[n - 1]);
      assert FeedsOf(lists[..n]) == FeedsOf(lists[..n - 1]) + ToSet(lists[n - 1]);
      hide Sent, FeedsOf, LastSent;
      forall f
        ensures f in Sent(last, lists[n - 1], times[n - 1]) <==> f in last || f in lists[n - 1]
        ensures f in Sent(last, lists[n - 1], times[n - 1]) ==>
                  times[0] <= Sent(last, lists[n - 1], times[n - 1])[f] <= times[n - 1]
      {
        SentAt(last, lists[n - 1], times[n - 1], f);
      }
    }
  }

  /** What is billed after update i and what is due for the time up to it. */
  ghost function Due(lists: seq<seq<string>>, times: seq<int>, i: nat): int
    requires ClockOf(lists, times) && i < |lists|
  {
    TotalElapsed(Updates(lists, times)[..i + 1]) +
    Outstanding(LastSent(Updates(lists, times)[..i + 1]), lists[i + 1..], times[i])
  }

  /** Billing an update moves its ages from the outstanding ones to the billed ones, unless they are capped. */
  lemma BillUpdate(last: map<string, int>, feedIds: seq<string>, rest: seq<seq<string>>, now: int)
    requires forall f :: f in last ==> last[f] <= now
    ensures var billed := ElapsedMsSum(last, feedIds, now) + Outstanding(Sent(last, feedIds, now), rest, now);
            && billed <= Outstanding(last, [feedIds] + rest, now)
            && ((forall f :: f in last ==> now - last[f] <= MAX_ELAPSED_MS) ==>
                billed == Outstanding(last, [feedIds] + rest, now))
  {
    CappedAges(last, feedIds, now);
    var all := [feedIds] + rest;
    assert all[0] == feedIds && all[1..] == rest;
    assert Outstanding(last, all, now) == AgeSum(last, feedIds, now) + Outstanding(last - ToSet(feedIds), rest, now);
    hide Outstanding, Sent, ElapsedMsSum, AgeSum;
    forall f ensures AgeOf(Sent(last, feedIds, now), f, now) == AgeOf(last - ToSet(feedIds), f, now) {
      SentAt(last, feedIds, now, f);
    }
    SameOutstanding(Sent(last, feedIds, now), last - ToSet(feedIds), rest, now);
  }

  lemma NextUpdate(lists: seq<seq<string>>, times: seq<int>, i: nat)
    requires ClockOf(lists, times) && i + 1 < |lists|
    ensures var updates := Updates(lists, times); var last := LastSent(updates[..i + 1]);
            && LastSent(updates[..i + 2]) == Sent(last, lists[i + 1], times[i + 1])
            && TotalElapsed(updates[..i + 2]) ==
               TotalElapsed(updates[..i + 1]) + ElapsedMsSum(last, lists[i + 1], times[i + 1])
            && lists[i + 1..] == [lists[i + 1]] + lists[i + 2..]
  {
    var updates := Updates(lists, times);
    assert updates[..i + 2][..i + 1] == updates[..i + 1];
    hide Sent, ElapsedMsSum;
  }

  lemma DueStep(lists: seq<seq<string>>, times: seq<int>, i: nat)
    requires ClockOf(lists, times) && i + 1 < |lists|
    ensures Due(lists, times, i + 1) <= Due(lists, times, i) + (times[i + 1] - times[i]) * Load(lists, i)
    ensures times[i + 1] - times[0] <= MAX_ELAPSED_MS ==>
              Due(lists, times, i + 1) == Due(lists, times, i) + (times[i + 1] - times[i]) * Load(lists, i)
  {
    hide Sent, ElapsedMsSum, Outstanding, LastSent, TotalElapsed, LoadFrom, FeedsOf;
    var last := LastSent(Updates(lists, times)[..i + 1]);
    SentFeeds(lists, times, i + 1);
    NextUpdate(lists, times, i);
    OutstandingGrows(last, lists[i + 1..], times[i], times[i + 1] - times[i]);
    BillUpdate(last, lists[i + 1], lists[i + 2..], times[i + 1]);
  }

  lemma {:induction false} NothingDue(rest: seq<seq<string>>, last: map<string, int>, now: int)
    requires forall f :: f in last ==> last[f] == now
    ensures Outstanding(last, rest, now) == 0
    decreases |rest|
  {
    if rest != [] {
      NothingAged(last, rest[0], now);
      NothingDue(rest[1..], last - ToSet(rest[0]), now);
    }
  }

  lemma {:induction false} NothingAged(last: map<string, int>, feedIds: seq<string>, now: int)
    requires forall f :: f in last ==> last[f] == now
    ensures AgeSum(last, feedIds, now) == 0
  {
    if feedIds != [] {
      NothingAged(last, feedIds[1..], now);
    }
  }

  /** Nothing is due after the first update. */
  lemma FirstDue(lists: seq<seq<string>>, times: seq<int>)
    requires lists != [] && ClockOf(lists, times)
    ensures Due(lists, times, 0) == 0
  {
    var updates := Updates(lists, times);
    SentFeeds(lists, times, 1);
    NothingDue(lists[1..], LastSent(updates[..1]), times[0]);
    assert updates[..1][..0] == [];
    assert LastSent([]) == map[] && TotalElapsed([]) == 0;
    NothingAged(map[], lists[0], times[0]);
    CappedAges(map[], lists[0], times[0]);
    hide Outstanding, ElapsedMsSum, Sent;
    assert TotalElapsed(updates[..1]) == ElapsedMsSum(map[], lists[0], times[0]);
  }

  lemma LastDue(lists: seq<seq<string>>, times: seq<int>)
    requires lists != [] && ClockOf(lists, times)
    ensures Due(lists, times, |lists| - 1) == TotalElapsed(Updates(lists, times))
  {
    var n := |lists|;
    assert Updates(lists, times)[..n] == Updates(lists, times) && lists[n..] == [];
    hide TotalElapsed, LastSent;
  }

  lemma GapTimes(gap: nat, load: nat, bound: nat)
    requires load <= bound
    ensures gap * load <= bound * gap
  {
  }

  lemma {:induction false} FittingLoads(lists: seq<seq<string>>, times: seq<int>, totalFeedCount: nat, i: nat)
    requires ClockOf(lists, times) && i < |lists| && LoadsFit(lists, totalFeedCount)
    ensures Due(lists, times, i) <= totalFeedCount * (times[i] - times[0])
  {
    hide Due, Load;
    if i == 0 {
      FirstDue(lists, times);
    } else {
      FittingLoads(lists, times, totalFeedCount, i - 1);
      DueStep(lists, times, i - 1);
      GapTimes(times[i] - times[i - 1], Load(lists, i - 1), totalFeedCount);
      Distributes(totalFeedCount, times[i - 1] - times[0], times[i] - times[i - 1]);
    }
  }

  // ----- A single gap

  /** The clock that stands still except for one millisecond after update k. */
  function Pulse(n: nat, k: nat): (times: seq<int>)
    ensures |times| == n && forall i :: 0 <= i < n ==> times[i] == if i <= k then 0 else 1
  {
    seq(n, i => if i <= k then 0 else 1)
  }

  lemma {:induction false} PulseDue(lists: seq<seq<string>>, k: nat, i: nat)
    requires i < |lists| && k + 1 < |lists|
    ensures ClockOf(lists, Pulse(|lists|, k))
    ensures Due(lists, Pulse(|lists|, k), i) == if i <= k then 0 else Load(lists, k)
  {
    hide Due, Load;
    var times := Pulse(|lists|, k);
    if i == 0 {
      FirstDue(lists, times);
    } else {
      PulseDue(lists, k, i - 1);
      DueStep(lists, times, i - 1);
    }
  }

  // ----- Costs

  lemma QuotientAdds(x: real, y: real, d: real)
    requires d > 0.0
    ensures (x + y) / d == x / d + y / d
  {
  }

  lemma CostAdds(a: int, b: int, totalFeedCount: nat)
    requires totalFeedCount > 0
    ensures Cost(a + b, totalFeedCount) == Cost(a, totalFeedCount) + Cost(b, totalFeedCount)
  {
    var d := ONE_DAY_MS as real * totalFeedCount as real;
    assert (a + b) as real == a as real + b as real;
    QuotientAdds(DAILY_TRAFFIC_BUDGET_BYTES * a as real, DAILY_TRAFFIC_BUDGET_BYTES * b as real, d);
  }

  lemma QuotientRises(x: real, y: real, d: real)
    requires d > 0.0
    ensures x <= y <==> x / d <= y / d
  {
    assert (x / d) * d == x && (y / d) * d == y;
  }

  lemma CostRises(a: int, b: int, totalFeedCount: nat)
    requires totalFeedCount > 0
    ensures a <= b <==> Cost(a, totalFeedCount) <= Cost(b, totalFeedCount)
    ensures Cost(0, totalFeedCount) == 0.0
  {
    QuotientRises(DAILY_TRAFFIC_BUDGET_BYTES * a as real, DAILY_TRAFFIC_BUDGET_BYTES * b as real,
                  ONE_DAY_MS as real * totalFeedCount as real);
  }

  lemma CancelFactor(x: real, d: real, n: real)
    requires d > 0.0 && n > 0.0
    ensures (x * n) / (d * n) == x / d
  {
  }

  lemma FullCost(elapsed: int, totalFeedCount: nat)
    requires totalFeedCount > 0
    ensures Cost(totalFeedCount * elapsed, totalFeedCount) == Budget(elapsed)
  {
    var n, t, d := totalFeedCount as real, elapsed as real, ONE_DAY_MS as real;
    assert (totalFeedCount * elapsed) as real == n * t;
    CancelFactor(DAILY_TRAFFIC_BUDGET_BYTES * t, d, n);
  }

  lemma ElapsedNotNegative(lists: seq<seq<string>>, times: seq<int>, i: nat)
    requires ClockOf(lists, times) && i < |lists|
    ensures ElapsedBy(Updates(lists, times)[..i + 1]) >= 0
  {
    var updates := Updates(lists, times);
    SentFeeds(lists, times, i);
    assert updates[..i + 1][..i] == updates[..i] && updates[..i + 1][i] == updates[i];
    hide LastSent;
    CappedAges(LastSent(updates[..i]), lists[i], times[i]);
  }

  lemma {:induction false} CostIsProportional(lists: seq<seq<string>>, times: seq<int>, totalFeedCount: nat, n: nat)
    requires ClockOf(lists, times) && n <= |lists| && totalFeedCount > 0
    ensures TotalCost(Updates(lists, times)[..n], totalFeedCount) ==
            Cost(TotalElapsed(Updates(lists, times)[..n]), totalFeedCount)
  {
    var updates := Updates(lists, times)[..n];
    hide Cost, ElapsedBy;
    if n == 0 {
      CostRises(0, 0, totalFeedCount);
    } else {
      CostIsProportional(lists, times, totalFeedCount, n - 1);
      assert updates[..n - 1] == Updates(lists, times)[..n - 1];
      ElapsedNotNegative(lists, times, n - 1);
      CostAdds(TotalElapsed(updates[..n - 1]), ElapsedBy(updates), totalFeedCount);
      CostRises(0, ElapsedBy(updates), totalFeedCount);
    }
  }

  /** The budget is kept exactly when the billed time is at most the elapsed time of all feeds together. */
  lemma WithinBudgetExactly(lists: seq<seq<string>>, times: seq<int>, totalFeedCount: nat)
    requires lists != [] && ClockOf(lists, times) && totalFeedCount > 0
    ensures WithinBudget(lists, times, totalFeedCount) <==>
              Due(lists, times, |lists| - 1) <= totalFeedCount * (times[|times| - 1] - times[0])
  {
    hide TotalCost, TotalElapsed, Cost, Budget;
    var elapsed := times[|times| - 1] - times[0];
    assert Updates(lists, times)[..|lists|] == Updates(lists, times);
    CostIsProportional(lists, times, totalFeedCount, |lists|);
    LastDue(lists, times);
    CostRises(TotalElapsed(Updates(lists, times)), totalFeedCount * elapsed, totalFeedCount);
    FullCost(elapsed, totalFeedCount);
  }

  /**
   * The lists keep the budget under every clock that does not go back, if and only if no gap between two
   * updates loads more listings than there are feeds in the budget.
   */
  lemma StaysInBudgetExactly(lists: seq<seq<string>>, totalFeedCount: nat)
    requires lists != [] && totalFeedCount > 0
    ensures StaysInBudget(lists, totalFeedCount) <==> LoadsFit(lists, totalFeedCount)
  {
    hide WithinBudget, Due, Load;
    if LoadsFit(lists, totalFeedCount) {
      forall times | ClockOf(lists, times) ensures WithinBudget(lists, times, totalFeedCount) {
        FittingLoads(lists, times, totalFeedCount, |lists| - 1);
        WithinBudgetExactly(lists, times, totalFeedCount);
      }
    } else {
      var k: nat :| k < |lists| - 1 && Load(lists, k) > totalFeedCount;
      var times := Pulse(|lists|, k);
      PulseDue(lists, k, |lists| - 1);
      WithinBudgetExactly(lists, times, totalFeedCount);
      assert ClockOf(lists, times) && !WithinBudget(lists, times, totalFeedCount);
    }
  }

  // ----- Distinct feeds

  ghost predicate DistinctFeedIds(feedIds: seq<string>) {
    forall i, j :: 0 <= i < j < |feedIds| ==> feedIds[i] != feedIds[j]
  }

  /** Every update lists each of its feeds once, all from `feeds`. */
  ghost predicate Regular(lists: seq<seq<string>>, feeds: seq<string>) {
    forall l :: l in lists ==> DistinctFeedIds(l) && forall f :: f in l ==> f in feeds
  }

  lemma {:induction false} OccurrencesOnce(feedIds: seq<string>, waiting: set<string>)
    requires DistinctFeedIds(feedIds)
    ensures Occurrences(feedIds, waiting) + |waiting - ToSet(feedIds)| <= |waiting|
  {
    if feedIds == [] {
      assert waiting - ToSet(feedIds) == waiting;
    } else {
      var f, others := feedIds[0], feedIds[1..];
      OccurrencesOnce(others, waiting);
      var left := waiting - ToSet(others);
      assert waiting - ToSet(feedIds) == left - {f};
      assert f !in others;
    }
  }

  lemma {:induction false} LoadAtMostWaiting(waiting: set<string>, rest: seq<seq<string>>)
    requires forall l :: l in rest ==> DistinctFeedIds(l)
    ensures LoadFrom(waiting, rest) <= |waiting|
    decreases |rest|
  {
    if rest != [] {
      OccurrencesOnce(rest[0], waiting);
      LoadAtMostWaiting(waiting - ToSet(rest[0]), rest[1..]);
    }
  }

  lemma {:induction false} SetAtMostList(feeds: seq<string>)
    ensures |ToSet(feeds)| <= |feeds|
  {
    if feeds == [] {
      assert ToSet(feeds) == {};
    } else {
      SetAtMostList(feeds[1..]);
      assert ToSet(feeds) == {feeds[0]} + ToSet(feeds[1..]);
    }
  }

  lemma {:induction false} FeedsWithin(lists: seq<seq<string>>, feeds: seq<string>)
    requires Regular(lists, feeds)
    ensures FeedsOf(lists) <= ToSet(feeds)
  {
    if lists != [] {
      RegularPrefix(lists, feeds, |lists| - 1);
      FeedsWithin(lists[..|lists| - 1], feeds);
      assert lists[|lists| - 1] in lists;
    }
  }

  lemma RegularPrefix(lists: seq<seq<string>>, feeds: seq<string>, n: nat)
    requires Regular(lists, feeds) && n <= |lists|
    ensures Regular(lists[..n], feeds)
  {
    forall l | l in lists[..n] ensures l in lists {
    }
  }

  /** Updates that list distinct feeds, from no more feeds than budgeted, keep the budget. */
  lemma BudgetBound(lists: seq<seq<string>>, feeds: seq<string>, totalFeedCount: nat)
    requires lists != [] && Regular(lists, feeds) && |feeds| <= totalFeedCount && totalFeedCount > 0
    ensures StaysInBudget(lists, totalFeedCount)
  {
    hide StaysInBudget, LoadFrom, FeedsOf;
    forall k: nat | k < |lists| - 1 ensures Load(lists, k) <= totalFeedCount {
      LoadAtMostWaiting(FeedsOf(lists[..k + 1]), lists[k + 1..]);
      RegularPrefix(lists, feeds, k + 1);
      FeedsWithin(lists[..k + 1], feeds);
      SubsetSize(FeedsOf(lists[..k + 1]), ToSet(feeds));
      SetAtMostList(feeds);
    }
    StaysInBudgetExactly(lists, totalFeedCount);
  }

  /** A feed sent once and then listed n times in one update keeps the budget exactly if n feeds are budgeted. */
  lemma RepeatedFeed(feedId: string, n: nat, totalFeedCount: nat)
    requires totalFeedCount > 0
    ensures StaysInBudget([[feedId], seq(n, _ => feedId)], totalFeedCount) <==> n <= totalFeedCount
  {
    hide StaysInBudget;
    var lists := [[feedId], seq(n, _ => feedId)];
    StaysInBudgetExactly(lists, totalFeedCount);
    assert lists[..1] == [[feedId]] && lists[1..] == [seq(n, _ => feedId)] && [[feedId]][..0] == [];
    assert FeedsOf([[feedId]]) == FeedsOf([]) + ToSet([feedId]) == {feedId};
    RepeatedOccurrences(feedId, n);
    var rest := lists[1..];
    assert LoadFrom({feedId}, rest) == Occurrences(rest[0], {feedId}) + LoadFrom({feedId} - ToSet(rest[0]), rest[1..]);
    assert rest[1..] == [];
    assert Load(lists, 0) == n;
  }

  lemma {:induction false} RepeatedOccurrences(feedId: string, n: nat)
    ensures Occurrences(seq(n, _ => feedId), {feedId}) == n
  {
    if n > 0 {
      assert seq(n, _ => feedId)[1..] == seq(n - 1, _ => feedId);
      RepeatedOccurrences(feedId, n - 1);
    }
  }
}
