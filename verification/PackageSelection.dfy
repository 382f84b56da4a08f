/** Validating and selecting the packages of every requested feed. */
module PackageSelection {
  import opened Wrappers
  import opened Sorting
  import opened Responses
  import opened Selection
  import opened NearestSelection

  // ----- One feed

  predicate AcceptedSigner(p: PricePackage, params: RequestParams) {
    params.skipSignatureVerification ||
    (p.signer.Some? && p.signer.value != "" && p.signer.value in params.authorizedSigners)
  }

  function FilterSigners(packages: seq<PricePackage>, params: RequestParams): seq<PricePackage> {
    if packages == [] then []
    else
      (if AcceptedSigner(packages[0], params) then [packages[0]] else []) + FilterSigners(packages[1..], params)
  }

  predicate SameTimestamps(packages: seq<PricePackage>) {
    forall i | 0 <= i < |packages| :: packages[i].timestamp == packages[0].timestamp
  }

  predicate TooOld(timestamp: int, params: RequestParams, now: int) {
    && params.maxTimestampDeviationMS.Some?
    && params.maxTimestampDeviationMS.value != 0
    && (if now < timestamp then timestamp - now else now - timestamp) > params.maxTimestampDeviationMS.value
  }

  function ValidateDataPackages(packages: Option<seq<PricePackage>>, params: RequestParams, feedId: string, now: int)
      : Result<seq<PricePackage>, SelectionError>
  {
    if packages.None? then Failure(MissingDataFeed(feedId))
    else
      var accepted := FilterSigners(packages.value, params);
      if accepted == [] then Failure(NoDataPackages(feedId))
      else if |accepted| < params.uniqueSignersCount then Failure(TooFewSigners(feedId))
      else if !SameTimestamps(accepted) then Failure(DifferentTimestamps)
      else if TooOld(accepted[0].timestamp, params, now) then Failure(TimestampDeviation)
      else Success(accepted)
  }

  function SelectFeed(packages: Option<seq<PricePackage>>, params: RequestParams, feedId: string, now: int)
      : Result<seq<PricePackage>, SelectionError>
  {
    var valid :- ValidateDataPackages(packages, params, feedId, now);
    if params.disableMedianSelection then Success(valid)
    else PickClosestToMedian(valid, params.uniqueSignersCount)
  }

  // ----- All requested feeds

  function RequestedFeedIds(keys: seq<string>, params: RequestParams): seq<string> {
    if params.returnAllPackages then keys else params.dataPackagesIds
  }

  type ParsedResponse = map<string, seq<PricePackage>>

  /** The remaining turns of the loop, given what has been parsed and the errors collected so far. */
  function SelectFeeds(response: Response, ids: seq<string>, params: RequestParams, now: int,
                       parsed: ParsedResponse, errors: seq<SelectionError>): Result<ParsedResponse, SelectionError>
    decreases |ids|
  {
    if ids == [] then
      if errors != [] then Failure(AggregateError(errors)) else Success(parsed)
    else
      match SelectFeed(Lookup(response, ids[0]), params, ids[0], now)
      case Success(packages) => SelectFeeds(response, ids[1..], params, now, parsed[ids[0] := packages], errors)
      case Failure(e) =>
        if params.ignoreMissingFeed == Some(true) then SelectFeeds(response, ids[1..], params, now, parsed, errors)
        else if params.aggregateErrors then SelectFeeds(response, ids[1..], params, now, parsed, errors + [e])
        else Failure(e)
  }

  function FilterAndSelectDataPackages(response: Response, keys: seq<string>, params: RequestParams, now: int)
      : Result<ParsedResponse, SelectionError>
  {
    SelectFeeds(response, RequestedFeedIds(keys, params), params, now, map[], [])
  }

  method FilterAndSelect(response: Response, keys: seq<string>, params: RequestParams, now: int)
      returns (r: Result<ParsedResponse, SelectionError>)
    ensures r == FilterAndSelectDataPackages(response, keys, params, now)
    ensures r.Success? && !params.skipSignatureVerification ==>
              forall id, k :: id in r.value && 0 <= k < |r.value[id]| ==> ListedSigner(r.value[id][k], params)
  {
    if !params.skipSignatureVerification {
      AllSelectedSigned(response, keys, params, now);
    }
    hide SelectFeed, ListedSigner;
    var parsedResponse: ParsedResponse := map[];
    var requestedDataFeedIds := RequestedFeedIds(keys, params);
    var errors: seq<SelectionError> := [];
    for i := 0 to |requestedDataFeedIds|
      invariant FilterAndSelectDataPackages(response, keys, params, now) ==
                SelectFeeds(response, requestedDataFeedIds[i..], params, now, parsedResponse, errors)
    {
      var id := requestedDataFeedIds[i];
      match SelectFeed(Lookup(response, id), params, id, now) {
        case Success(packages) =>
          parsedResponse := parsedResponse[id := packages];
        case Failure(e) =>
          if params.ignoreMissingFeed == Some(true) {
          } else if params.aggregateErrors {
            errors := errors + [e];
          } else {
            return Failure(e);
          }
      }
    }
    return if errors != [] then Failure(AggregateError(errors)) else Success(parsedResponse);
  }

  // ----- Per-feed contract

  lemma {:induction false} FilteredSigners(packages: seq<PricePackage>, params: RequestParams)
    ensures var accepted := FilterSigners(packages, params);
            && multiset(accepted) <= multiset(packages)
            && (forall p :: p in accepted <==> p in packages && AcceptedSigner(p, params))
            && (forall p :: p in accepted ==> multiset(accepted)[p] == multiset(packages)[p])
  {
    if packages != [] {
      FilteredSigners(packages[1..], params);
      assert packages == [packages[0]] + packages[1..];
    }
  }

  lemma {:induction false} AllSignersKept(packages: seq<PricePackage>, params: RequestParams)
    requires forall i :: 0 <= i < |packages| ==> AcceptedSigner(packages[i], params)
    ensures FilterSigners(packages, params) == packages
  {
    if packages != [] {
      AllSignersKept(packages[1..], params);
      assert packages == [packages[0]] + packages[1..];
    }
  }

  // ----- Validation, condition by condition

  /** The package's signature recovers to one of the listed signers. */
  ghost predicate ListedSigner(p: PricePackage, params: RequestParams) {
    exists j :: 0 <= j < |params.authorizedSigners| && params.authorizedSigners[j] != "" &&
                p.signer == Some(params.authorizedSigners[j])
  }

  /** Positions of the packages of listed signers; of all packages when signatures are not verified. */
  ghost function SignedPositions(packages: seq<PricePackage>, params: RequestParams): (signed: set<nat>)
    ensures forall i :: i in signed ==> i < |packages|
  {
    set i: nat | i < |packages| && (params.skipSignatureVerification || ListedSigner(packages[i], params))
  }

  lemma AcceptedExactly(p: PricePackage, params: RequestParams)
    ensures AcceptedSigner(p, params) <==> params.skipSignatureVerification || ListedSigner(p, params)
  {
  }

  lemma {:induction false} FilterLast(packages: seq<PricePackage>, p: PricePackage, params: RequestParams)
    ensures FilterSigners(packages + [p], params) ==
            FilterSigners(packages, params) + (if AcceptedSigner(p, params) then [p] else [])
  {
    hide AcceptedSigner;
    if packages == [] {
      assert [] + [p] == [p] && [p][1..] == [];
    } else {
      assert (packages + [p])[1..] == packages[1..] + [p];
      FilterLast(packages[1..], p, params);
    }
  }

  lemma PositionsNext(packages: seq<PricePackage>, p: PricePackage, params: RequestParams)
    ensures SignedPositions(packages + [p], params) ==
            SignedPositions(packages, params) + (if AcceptedSigner(p, params) then {|packages|} else {})
    ensures forall i :: i in SignedPositions(packages, params) ==> (packages + [p])[i] == packages[i]
  {
    AcceptedExactly(p, params);
    hide ListedSigner, AcceptedSigner;
    var all := packages + [p];
    assert forall i :: 0 <= i < |packages| ==> all[i] == packages[i];
    assert all[|packages|] == p;
  }

  /** The accepted packages are those at the signed positions. */
  ghost predicate ArePackagesAt(accepted: seq<PricePackage>, packages: seq<PricePackage>, positions: set<nat>)
    requires forall i :: i in positions ==> i < |packages|
  {
    && |accepted| == |positions|
    && forall p :: p in accepted <==> exists i :: i in positions && packages[i] == p
  }

  lemma {:induction false} FilterPositions(packages: seq<PricePackage>, params: RequestParams)
    ensures ArePackagesAt(FilterSigners(packages, params), packages, SignedPositions(packages, params))
  {
    if packages != [] {
      var n := |packages| - 1;
      var init, p := packages[..n], packages[n];
      assert packages == init + [p];
      FilterPositions(init, params);
      FilterLast(init, p, params);
      PositionsNext(init, p, params);
      var accepted, positions := FilterSigners(init, params), SignedPositions(init, params);
      hide SignedPositions, FilterSigners, AcceptedSigner;
      if AcceptedSigner(p, params) {
        OneMorePackage(accepted, init, positions, p);
      } else {
        assert accepted + [] == accepted && positions + {} == positions;
      }
    }
  }

  lemma OneMorePackage(accepted: seq<PricePackage>, packages: seq<PricePackage>, positions: set<nat>, p: PricePackage)
    requires (forall i :: i in positions ==> i < |packages|) && ArePackagesAt(accepted, packages, positions)
    ensures ArePackagesAt(accepted + [p], packages + [p], positions + {|packages|})
  {
    var all := packages + [p];
    assert forall i :: i in positions ==> all[i] == packages[i];
    assert all[|packages|] == p && |packages| in positions + {|packages|};
    forall q ensures q in accepted + [p] <==> exists i :: i in positions + {|packages|} && all[i] == q {
      if q in accepted {
        var i :| i in positions && packages[i] == q;
        assert i in positions + {|packages|} && all[i] == q;
      }
    }
  }

  /** The deviation limit, if there is one, holds for the timestamp on both sides. */
  ghost predicate WithinDeviation(timestamp: int, params: RequestParams, now: int) {
    params.maxTimestampDeviationMS.Some? && params.maxTimestampDeviationMS.value != 0 ==>
      now - params.maxTimestampDeviationMS.value <= timestamp <= now + params.maxTimestampDeviationMS.value
  }

  ghost predicate OneTimestamp(packages: seq<PricePackage>, positions: set<nat>)
    requires forall i :: i in positions ==> i < |packages|
  {
    forall i, j :: i in positions && j in positions ==> packages[i].timestamp == packages[j].timestamp
  }

  /** What each outcome of the validation means for the packages of the feed. */
  lemma ValidationOutcome(packages: seq<PricePackage>, params: RequestParams, feedId: string, now: int)
    ensures ValidateDataPackages(None, params, feedId, now) == Failure(MissingDataFeed(feedId))
    ensures var signed := SignedPositions(packages, params);
            match ValidateDataPackages(Some(packages), params, feedId, now)
            case Success(valid) =>
              && signed != {} && |signed| >= params.uniqueSignersCount
              && ArePackagesAt(valid, packages, signed)
              && OneTimestamp(packages, signed)
              && (forall i :: i in signed ==> WithinDeviation(packages[i].timestamp, params, now))
            case Failure(e) =>
              match e
              case NoDataPackages(f) => f == feedId && signed == {}
              case TooFewSigners(f) => f == feedId && 0 < |signed| < params.uniqueSignersCount
              case DifferentTimestamps =>
                signed != {} && |signed| >= params.uniqueSignersCount && !OneTimestamp(packages, signed)
              case TimestampDeviation =>
                && signed != {} && |signed| >= params.uniqueSignersCount && OneTimestamp(packages, signed)
                && forall i :: i in signed ==> !WithinDeviation(packages[i].timestamp, params, now)
              case _ => false
  {
    var accepted, signed := FilterSigners(packages, params), SignedPositions(packages, params);
    FilterPositions(packages, params);
    hide FilterSigners, SignedPositions;
    assert accepted == [] <==> signed == {};
    AcceptedTimestamps(packages, signed, accepted);
    if accepted != [] {
      TooOldExactly(accepted[0].timestamp, params, now);
    }
    hide WithinDeviation, OneTimestamp, TooOld, SameTimestamps;
  }

  lemma TooOldExactly(timestamp: int, params: RequestParams, now: int)
    ensures TooOld(timestamp, params, now) <==> !WithinDeviation(timestamp, params, now)
  {
  }

  lemma AcceptedTimestamps(packages: seq<PricePackage>, signed: set<nat>, accepted: seq<PricePackage>)
    requires (forall i :: i in signed ==> i < |packages|) && ArePackagesAt(accepted, packages, signed)
    ensures SameTimestamps(accepted) <==> OneTimestamp(packages, signed)
    ensures accepted != [] && SameTimestamps(accepted) ==>
              forall i :: i in signed ==> packages[i].timestamp == accepted[0].timestamp
  {
    forall i | i in signed ensures exists k :: 0 <= k < |accepted| && accepted[k] == packages[i] {
      assert packages[i] in accepted;
    }
    forall k | 0 <= k < |accepted| ensures exists i :: i in signed && packages[i] == accepted[k] {
      assert accepted[k] in accepted;
    }
  }

  /** A feed with no signed package, or with fewer than asked for, cannot be selected. */
  lemma FewSignersFail(packages: seq<PricePackage>, params: RequestParams, feedId: string, now: int)
    requires |SignedPositions(packages, params)| < params.uniqueSignersCount || SignedPositions(packages, params) == {}
    ensures SelectFeed(Some(packages), params, feedId, now) ==
            Failure(if SignedPositions(packages, params) == {} then NoDataPackages(feedId) else TooFewSigners(feedId))
  {
    hide SignedPositions, ValidateDataPackages;
    ValidationOutcome(packages, params, feedId, now);
  }

  /** Every package selected for a feed is one of its packages and is signed by a listed signer. */
  lemma SelectedIsSigned(packages: seq<PricePackage>, params: RequestParams, feedId: string, now: int)
    requires SelectFeed(Some(packages), params, feedId, now).Success?
    ensures forall p :: p in SelectFeed(Some(packages), params, feedId, now).value ==>
              exists i :: i in SignedPositions(packages, params) && packages[i] == p
  {
    hide SignedPositions, ValidateDataPackages, PickClosestToMedian;
    ValidationOutcome(packages, params, feedId, now);
    var valid := ValidateDataPackages(Some(packages), params, feedId, now).value;
    if !params.disableMedianSelection {
      PickedAreClosest(valid, params.uniqueSignersCount);
      var picked := PickClosestToMedian(valid, params.uniqueSignersCount).value;
      forall p | p in picked ensures p in valid {
        assert p in multiset(picked);
      }
    }
  }

  /**
   * Median selection returns exactly `uniqueSignersCount` of the feed's packages, all from accepted
   * signers and with one timestamp, and leaves out no accepted package that is nearer to the medians.
   */
  lemma SelectionContract(packages: seq<PricePackage>, params: RequestParams, feedId: string, now: int,
                          selected: seq<PricePackage>)
    requires !params.disableMedianSelection && params.uniqueSignersCount >= 1
    requires SelectFeed(Some(packages), params, feedId, now) == Success(selected)
    ensures |selected| == params.uniqueSignersCount
    ensures multiset(selected) <= multiset(packages)
    ensures forall p :: p in selected ==>
              params.skipSignatureVerification ||
              (p.signer.Some? && p.signer.value != "" && p.signer.value in params.authorizedSigners)
    ensures forall p :: p in selected ==> p.timestamp == selected[0].timestamp
    ensures WithinDeviation(selected[0].timestamp, params, now)
    ensures var accepted := FilterSigners(packages, params);
            forall x, y :: x in selected && y in multiset(accepted) - multiset(selected) ==>
              DistanceOf(x, Medians(accepted)) <= DistanceOf(y, Medians(accepted))
    ensures KeepsNearest(FilterSigners(packages, params), selected)
  {
    hide PickClosestToMedian, DistanceOf, Medians, FilterSigners, KeepsNearest, NoZeroMedian;
    var accepted := FilterSigners(packages, params);
    PicksNearestWhenItSucceeds(accepted, params.uniqueSignersCount);
    FilteredSigners(packages, params);
    PickedAreClosest(accepted, params.uniqueSignersCount);
    UniformTimestamps(accepted, selected);
    forall p | p in selected ensures p in accepted {
      assert p in multiset(selected);
    }
  }

  lemma UniformTimestamps(all: seq<PricePackage>, some: seq<PricePackage>)
    requires SameTimestamps(all) && multiset(some) <= multiset(all)
    ensures SameTimestamps(some)
    ensures some != [] ==> some[0].timestamp == all[0].timestamp
  {
    forall i | 0 <= i < |some| ensures some[i].timestamp == all[0].timestamp {
      assert some[i] in multiset(some);
    }
  }

  /**
   * Selecting again from what was selected succeeds exactly when no median of the selected packages is
   * zero, and then keeps them all.
   */
  lemma SelectionIsIdempotent(packages: seq<PricePackage>, params: RequestParams, feedId: string, now: int,
                              selected: seq<PricePackage>)
    requires !params.disableMedianSelection && params.uniqueSignersCount >= 1
    requires SelectFeed(Some(packages), params, feedId, now) == Success(selected)
    ensures var again := SelectFeed(Some(selected), params, feedId, now);
            && (again.Success? <==> NoZeroMedian(selected))
            && (again.Success? ==> multiset(again.value) == multiset(selected))
  {
    hide PickClosestToMedian, DistanceOf, Medians, NoZeroMedian;
    SelectionContract(packages, params, feedId, now, selected);
    AllSignersKept(selected, params);
    PickAll(selected, params.uniqueSignersCount);
  }

  lemma PickAll(packages: seq<PricePackage>, count: nat)
    requires count == |packages|
    ensures PickClosestToMedian(packages, count).Success? <==> NoZeroMedian(packages)
    ensures PickClosestToMedian(packages, count).Success? ==>
              multiset(PickClosestToMedian(packages, count).value) == multiset(packages)
  {
    hide MaxDistance, Medians, NoZeroMedian;
    DistancesDefinedExactly(packages);
    var key := DistanceKey(Medians(packages));
    SortBySorts(packages, key);
    assert SortBy(packages, key)[..count] == SortBy(packages, key);
  }

  /** Without median selection a second run returns the same list. */
  lemma ValidationIsIdempotent(packages: seq<PricePackage>, params: RequestParams, feedId: string, now: int)
    requires params.disableMedianSelection
    requires SelectFeed(Some(packages), params, feedId, now).Success?
    ensures var selected := SelectFeed(Some(packages), params, feedId, now).value;
            SelectFeed(Some(selected), params, feedId, now) == Success(selected)
  {
    var selected := FilterSigners(packages, params);
    FilteredSigners(packages, params);
    forall i | 0 <= i < |selected| ensures AcceptedSigner(selected[i], params) {
      assert selected[i] in selected;
    }
    AllSignersKept(selected, params);
  }

  /** Values 0 and 2 have median 1, but the selected zero alone has median 0 and fails a second selection. */
  lemma SelectedZeroFails(zero: PricePackage, two: PricePackage, feedId: string)
    requires zero.points == [PricePoint(feedId, 0.0)] && two.points == [PricePoint(feedId, 2.0)]
    ensures PickClosestToMedian([zero, two], 1) == Success([zero])
    ensures PickClosestToMedian([zero], 1).Failure?
  {
    hide *;
    var all := [zero, two];
    TwoPackages(zero, two, feedId);
    forall i | 0 <= i < |all| ensures MaxDistance(all[i].points, Medians(all)) == Success(1.0) {
      PointDistance(all[i], feedId, if i == 0 then 0.0 else 2.0, Medians(all));
    }
    EqualDistances(all, 1);
    assert all[..1] == [zero];
    ZeroMedianFails([zero], feedId);
  }

  lemma ZeroMedianFails(packages: seq<PricePackage>, feedId: string)
    requires feedId in Medians(packages) && Medians(packages)[feedId] == 0.0
    ensures PickClosestToMedian(packages, |packages|).Failure?
  {
    hide Medians, PickClosestToMedian;
    PickAll(packages, |packages|);
  }

  lemma EqualDistances(packages: seq<PricePackage>, count: nat)
    requires count <= |packages|
    requires forall i :: 0 <= i < |packages| ==> MaxDistance(packages[i].points, Medians(packages)) == Success(1.0)
    ensures PickClosestToMedian(packages, count) == Success(packages[..count])
  {
    var key := DistanceKey(Medians(packages));
    hide Medians, MaxDistance;
    assert forall i :: 0 <= i < |packages| ==> key(packages[i]) == 1.0;
    SortSorted(packages, key);
  }

  lemma PointDistance(p: PricePackage, feedId: string, value: Price, medians: map<string, real>)
    requires p.points == [PricePoint(feedId, value)] && feedId in medians && medians[feedId] == 1.0
    requires value == 0.0 || value == 2.0
    ensures MaxDistance(p.points, medians) == Success(1.0)
  {
    assert MaxDistance(p.points[..0], medians) == Success(0.0);
  }

  lemma OneValue(p: PricePackage, feedId: string, value: Price)
    requires p.points == [PricePoint(feedId, value)]
    ensures PointValues(p.points, feedId) == [value]
  {
    assert PointValues(p.points[..0], feedId) == [];
  }

  lemma TwoPackages(zero: PricePackage, two: PricePackage, feedId: string)
    requires zero.points == [PricePoint(feedId, 0.0)] && two.points == [PricePoint(feedId, 2.0)]
    ensures feedId in Medians([zero]) && Medians([zero])[feedId] == 0.0
    ensures feedId in Medians([zero, two]) && Medians([zero, two])[feedId] == 1.0
  {
    OneValue(zero, feedId, 0.0);
    OneValue(two, feedId, 2.0);
    hide PointValues, SortBy;
    assert [zero][..0] == [] && [zero, two][..1] == [zero];
    assert FeedValues([zero][..0], feedId) == [];
    assert FeedValues([zero], feedId) == [0.0];
    assert FeedValues([zero, two], feedId) == [0.0, 2.0];
    hide FeedValues;
    assert zero in [zero] && zero in [zero, two] && zero.points[0] in zero.points;
  }

  // ----- The whole response

  ghost predicate SelectsFeed(response: Response, params: RequestParams, now: int, id: string) {
    SelectFeed(Lookup(response, id), params, id, now).Success?
  }

  ghost predicate SelectsAll(response: Response, params: RequestParams, now: int, ids: seq<string>) {
    forall id :: id in ids ==> SelectsFeed(response, params, now, id)
  }

  lemma {:induction false} SelectFeedsMeaning(response: Response, ids: seq<string>, params: RequestParams, now: int,
                                              parsed: ParsedResponse, errors: seq<SelectionError>)
    ensures var r := SelectFeeds(response, ids, params, now, parsed, errors);
            r.Success? <==>
              (errors == [] && (params.ignoreMissingFeed == Some(true) || SelectsAll(response, params, now, ids)))
    ensures var r := SelectFeeds(response, ids, params, now, parsed, errors);
            r.Success? ==> forall id :: id in r.value <==>
              (id in parsed || (id in ids && SelectsFeed(response, params, now, id)))
    ensures var r := SelectFeeds(response, ids, params, now, parsed, errors);
            r.Success? ==> forall id :: id in r.value ==>
              if id in ids && SelectsFeed(response, params, now, id)
              then SelectFeed(Lookup(response, id), params, id, now) == Success(r.value[id])
              else r.value[id] == parsed[id]
    decreases |ids|
  {
    hide SelectFeed;
    if ids != [] {
      assert forall id :: id in ids <==> id == ids[0] || id in ids[1..];
      match SelectFeed(Lookup(response, ids[0]), params, ids[0], now) {
        case Success(packages) =>
          SelectFeedsMeaning(response, ids[1..], params, now, parsed[ids[0] := packages], errors);
        case Failure(e) =>
          SelectFeedsMeaning(response, ids[1..], params, now, parsed, errors);
          SelectFeedsMeaning(response, ids[1..], params, now, parsed, errors + [e]);
      }
    }
  }

  /** The request asks for the feed: it is listed, or all keys are returned and it is one. */
  ghost predicate Requested(keys: seq<string>, params: RequestParams, id: string) {
    (params.returnAllPackages ==> id in keys) && (!params.returnAllPackages ==> id in params.dataPackagesIds)
  }

  /**
   * Selection succeeds exactly when every requested feed can be selected or missing feeds are ignored;
   * it then returns each selectable requested feed, with its own selection, and nothing else.
   */
  lemma SelectionIsPerFeed(response: Response, keys: seq<string>, params: RequestParams, now: int)
    ensures var r := FilterAndSelectDataPackages(response, keys, params, now);
            r.Success? <==>
              params.ignoreMissingFeed == Some(true) ||
              forall id :: Requested(keys, params, id) ==> SelectsFeed(response, params, now, id)
    ensures var r := FilterAndSelectDataPackages(response, keys, params, now);
            r.Success? ==> forall id :: id in r.value <==>
              Requested(keys, params, id) && SelectsFeed(response, params, now, id)
    ensures var r := FilterAndSelectDataPackages(response, keys, params, now);
            r.Success? ==> forall id :: id in r.value ==>
              SelectFeed(Lookup(response, id), params, id, now) == Success(r.value[id])
  {
    hide SelectFeed;
    SelectFeedsMeaning(response, RequestedFeedIds(keys, params), params, now, map[], []);
  }

  /** The errors of the feeds that cannot be selected, in the order they are requested. */
  ghost function ErrorsOf(response: Response, ids: seq<string>, params: RequestParams, now: int): seq<SelectionError> {
    if ids == [] then []
    else
      var last := ids[|ids| - 1];
      ErrorsOf(response, ids[..|ids| - 1], params, now) +
      (match SelectFeed(Lookup(response, last), params, last, now)
       case Success(_) => []
       case Failure(e) => [e])
  }

  lemma {:induction false} ErrorsFirst(response: Response, ids: seq<string>, params: RequestParams, now: int)
    requires ids != []
    ensures ErrorsOf(response, ids, params, now) ==
            ErrorsOf(response, ids[..1], params, now) + ErrorsOf(response, ids[1..], params, now)
  {
    hide SelectFeed;
    if |ids| == 1 {
      assert ids[..1] == ids;
    } else {
      var init := ids[..|ids| - 1];
      ErrorsFirst(response, init, params, now);
      assert init[..1] == ids[..1] && init[1..] == ids[1..][..|ids| - 2];
    }
  }

  lemma {:induction false} SelectFeedsErrors(response: Response, ids: seq<string>, params: RequestParams, now: int,
                                             parsed: ParsedResponse, errors: seq<SelectionError>)
    requires params.ignoreMissingFeed != Some(true) && (errors != [] ==> params.aggregateErrors)
    ensures var r, all := SelectFeeds(response, ids, params, now, parsed, errors),
                          errors + ErrorsOf(response, ids, params, now);
            if all == [] then r.Success?
            else r == Failure(if params.aggregateErrors then AggregateError(all) else all[0])
    decreases |ids|
  {
    hide SelectFeed;
    if ids == [] {
      assert errors + [] == errors;
    } else {
      ErrorsFirst(response, ids, params, now);
      assert ids[..1] == [ids[0]] && ErrorsOf(response, ids[..1][..0], params, now) == [];
      match SelectFeed(Lookup(response, ids[0]), params, ids[0], now) {
        case Success(packages) =>
          SelectFeedsErrors(response, ids[1..], params, now, parsed[ids[0] := packages], errors);
          assert ErrorsOf(response, ids, params, now) == ErrorsOf(response, ids[1..], params, now);
        case Failure(e) =>
          assert ErrorsOf(response, ids, params, now) == [e] + ErrorsOf(response, ids[1..], params, now);
          if params.aggregateErrors {
            SelectFeedsErrors(response, ids[1..], params, now, parsed, errors + [e]);
            assert errors + ([e] + ErrorsOf(response, ids[1..], params, now)) ==
                   errors + [e] + ErrorsOf(response, ids[1..], params, now);
          }
      }
    }
  }

  /** When missing feeds are not ignored, all errors are thrown together, or the first one alone. */
  lemma SelectionErrors(response: Response, keys: seq<string>, params: RequestParams, now: int)
    requires params.ignoreMissingFeed != Some(true)
    ensures var r := FilterAndSelectDataPackages(response, keys, params, now);
            var errors :=
              ErrorsOf(response, if params.returnAllPackages then keys else params.dataPackagesIds, params, now);
            && (r.Failure? <==> errors != [])
            && (r.Failure? ==> r.error == if params.aggregateErrors then AggregateError(errors) else errors[0])
  {
    hide SelectFeed, ErrorsOf;
    SelectFeedsErrors(response, RequestedFeedIds(keys, params), params, now, map[], []);
  }

  /** With verification on, every returned package has the signer of some place of the list. */
  lemma AllSelectedSigned(response: Response, keys: seq<string>, params: RequestParams, now: int)
    requires !params.skipSignatureVerification
    ensures var r := FilterAndSelectDataPackages(response, keys, params, now);
            r.Success? ==> forall id, k :: id in r.value && 0 <= k < |r.value[id]| ==>
              ListedSigner(r.value[id][k], params)
  {
    SelectionIsPerFeed(response, keys, params, now);
    var r := FilterAndSelectDataPackages(response, keys, params, now);
    hide FilterAndSelectDataPackages, SelectFeed, ListedSigner;
    if r.Success? {
      forall id, k | id in r.value && 0 <= k < |r.value[id]|
        ensures ListedSigner(r.value[id][k], params)
      {
        MissingFails(params, id, now);
        SelectedIsSigned(Lookup(response, id).value, params, id, now);
        assert r.value[id][k] in r.value[id];
      }
    }
  }

  lemma MissingFails(params: RequestParams, feedId: string, now: int)
    ensures SelectFeed(None, params, feedId, now).Failure?
  {
  }
}
