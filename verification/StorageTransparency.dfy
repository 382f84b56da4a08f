/** Answers from the storage agree with selecting from the gateway responses it was filled with. */
module StorageTransparency {
  import opened Wrappers
  import opened Responses
  import opened Sets
  import opened Selection
  import opened PackageSelection
  import opened ResponseCache
  import opened ResponseStorage

  // ----- Requests

  datatype RequestError = NoDataFeeds | NoAuthorizedSigners | GatewayFailure | SelectionFailure(error: SelectionError)

  /** A fetched response with its keys, or nothing when every gateway failed. */
  type Fetched = Option<(Response, seq<string>)>

  function Selected(response: Response, keys: seq<string>, params: RequestParams, now: int)
      : Result<ParsedResponse, RequestError>
  {
    match FilterAndSelectDataPackages(response, keys, params, now)
    case Success(parsed) => Success(parsed)
    case Failure(e) => Failure(SelectionFailure(e))
  }

  function CheckRequest(params: RequestParams): Outcome<RequestError> {
    if !params.returnAllPackages && params.dataPackagesIds == [] then Fail(NoDataFeeds)
    else if params.authorizedSigners == [] then Fail(NoAuthorizedSigners)
    else Pass
  }

  function FromGateway(fetched: Fetched, params: RequestParams, now: int): Result<ParsedResponse, RequestError> {
    match fetched
    case None => Failure(GatewayFailure)
    case Some((response, keys)) => Selected(response, keys, params, now)
  }

  /** The answer to a request: from the storage when it hits and selection succeeds, else from the gateways. */
  ghost function RequestResult(s: StorageState, params: RequestParams, cachedKeys: seq<string>, fetched: Fetched,
                               config: Config, now: int): Result<ParsedResponse, RequestError>
  {
    match CheckRequest(params)
    case Fail(e) => Failure(e)
    case Pass =>
      match Answer(s, params, config, now)
      case None => FromGateway(fetched, params, now)
      case Some(cached) =>
        if Selected(cached, cachedKeys, params, now).Success? then Selected(cached, cachedKeys, params, now)
        else FromGateway(fetched, params, now)
  }

  /** A fetched response is stored only when the storage had no answer. */
  ghost function AfterRequest(s: StorageState, params: RequestParams, fetched: Fetched, config: Config,
                              now: int): StorageState {
    if CheckRequest(params).Fail? then s
    else if Answer(s, params, config, now).Some? || fetched.None? then Purged(s, config, now)
    else AfterSet(Purged(s, config, now), fetched.value.0, fetched.value.1, params, config, now)
  }

  method RequestDataPackages(params: RequestParams, storage: DataPackagesResponseStorage, cachedKeys: seq<string>,
                             fetched: Fetched, now: int) returns (r: Result<ParsedResponse, RequestError>)
    requires storage.Valid()
    modifies storage, storage.Caches()
    ensures storage.Valid()
    ensures r == RequestResult(old(storage.View()), params, cachedKeys, fetched, storage.config, now)
    ensures storage.View() == AfterRequest(old(storage.View()), params, fetched, storage.config, now)
    ensures fresh(storage.Caches() - old(storage.Caches()))
  {
    hide Answer, FilterAndSelectDataPackages, AfterSet, Purged;
    if !params.returnAllPackages && params.dataPackagesIds == [] {
      return Failure(NoDataFeeds);
    }
    if params.authorizedSigners == [] {
      return Failure(NoAuthorizedSigners);
    }
    var cached := storage.Get(params, now);
    if cached != null {
      var fromCache := FilterAndSelect(cached.entries, cachedKeys, params, now);
      if fromCache.Success? {
        return Success(fromCache.value);
      }
      return FromGateway(fetched, params, now);
    }
    if fetched.None? {
      return Failure(GatewayFailure);
    }
    var (response, keys) := fetched.value;
    ghost var purged := storage.View();
    var stored := new ResponseObject(response);
    assert storage.View() == purged;
    storage.Set(stored, keys, params, now);
    return Selected(response, keys, params, now);
  }

  /** What a request is refused for; otherwise what the gateways sent counts only when the storage has no answer. */
  lemma RequestPaths(s: StorageState, params: RequestParams, cachedKeys: seq<string>, fetched: Fetched, config: Config,
                     now: int)
    ensures var r := RequestResult(s, params, cachedKeys, fetched, config, now);
            && (!params.returnAllPackages && |params.dataPackagesIds| == 0 ==> r == Failure(NoDataFeeds))
            && ((params.returnAllPackages || |params.dataPackagesIds| > 0) && |params.authorizedSigners| == 0 ==>
                  r == Failure(NoAuthorizedSigners))
    ensures (params.returnAllPackages || |params.dataPackagesIds| > 0) && |params.authorizedSigners| > 0 ==>
              var r, hit := RequestResult(s, params, cachedKeys, fetched, config, now), Answer(s, params, config, now);
              if hit.Some? && FilterAndSelectDataPackages(hit.value, cachedKeys, params, now).Success?
              then r == Success(FilterAndSelectDataPackages(hit.value, cachedKeys, params, now).value)
              else if fetched.None? then r == Failure(GatewayFailure)
              else match FilterAndSelectDataPackages(fetched.value.0, fetched.value.1, params, now)
                   case Success(parsed) => r == Success(parsed)
                   case Failure(e) => r == Failure(SelectionFailure(e))
  {
    hide Answer, FilterAndSelectDataPackages;
  }

  /** What a request leaves: nothing changes on a refusal; a fetched response is stored when there was no hit. */
  lemma RequestLeaves(s: StorageState, params: RequestParams, fetched: Fetched, config: Config, now: int)
    ensures var after := AfterRequest(s, params, fetched, config, now);
            var refused :=
              (!params.returnAllPackages && |params.dataPackagesIds| == 0) || |params.authorizedSigners| == 0;
            && (refused ==> after == s)
            && (!refused && (Answer(s, params, config, now).Some? || fetched.None?) ==>
                  after == map t | t in s && now <= t + config.ttlMs :: s[t])
    ensures params.authorizedSigners != [] && (params.returnAllPackages || params.dataPackagesIds != []) &&
            Answer(s, params, config, now).None? && fetched.Some? && !IsResponseEmpty(fetched.value.0) ==>
              var (response, keys) := fetched.value;
              var after, t := AfterRequest(s, params, fetched, config, now), ResponseTimestamp(response, keys);
              && t in after && after[t].response.Some?
              && (forall k :: k in response ==>
                    k in after[t].response.value && after[t].response.value[k] == response[k])
              && (forall u :: u != t ==> (u in after <==> u in s && now <= u + config.ttlMs))
  {
    hide Answer, AfterSet, ResponseTimestamp;
    if fetched.Some? && !IsResponseEmpty(fetched.value.0) {
      SetExactly(Purged(s, config, now), fetched.value.0, fetched.value.1, params, config, now);
    }
  }

  // ----- Runs

  datatype StorageOp =
    | SetOp(response: Response, keys: seq<string>, params: RequestParams, now: int)
    | GetOp(params: RequestParams, now: int)
    | ClearOp

  function ApplyOp(s: StorageState, op: StorageOp, config: Config): StorageState {
    match op
    case SetOp(r, keys, p, now) => AfterSet(s, r, keys, p, config, now)
    case GetOp(_, now) => Purged(s, config, now)
    case ClearOp => map[]
  }

  function RunStorage(ops: seq<StorageOp>, config: Config): StorageState {
    if ops == [] then map[] else ApplyOp(RunStorage(ops[..|ops| - 1], config), ops[|ops| - 1], config)
  }

  predicate SuppliesKey(op: StorageOp, timestamp: int, key: string) {
    && op.SetOp?
    && !IsResponseEmpty(op.response)
    && ResponseTimestamp(op.response, op.keys) == timestamp
    && key in op.response
  }

  /** The last stored gateway response that had `key`, among those filed under `timestamp`. */
  function LastSupplier(ops: seq<StorageOp>, timestamp: int, key: string): Option<StorageOp> {
    if ops == [] then None
    else if SuppliesKey(ops[|ops| - 1], timestamp, key) then Some(ops[|ops| - 1])
    else LastSupplier(ops[..|ops| - 1], timestamp, key)
  }

  /** A cached value is the one supplied last, by a request that the cached parameters cover. */
  ghost predicate Faithful(c: CacheState, ops: seq<StorageOp>, timestamp: int) {
    && c.response.Some? && c.params.Some?
    && forall key :: key in c.response.value ==>
         && LastSupplier(ops, timestamp, key).Some?
         && var op := LastSupplier(ops, timestamp, key).value;
            && SuppliesKey(op, timestamp, key)
            && op.response[key] == c.response.value[key]
            && AreConformingRequestParams(c.params.value, NormalizeRequestParams(op.params))
  }

  lemma FaithfulUnlessSupplied(c: CacheState, ops: seq<StorageOp>, op: StorageOp, timestamp: int)
    requires Faithful(c, ops, timestamp)
    requires forall key :: key in c.response.value ==> !SuppliesKey(op, timestamp, key)
    ensures Faithful(c, ops + [op], timestamp)
  {
    hide ResponseTimestamp, IsResponseEmpty;
    assert (ops + [op])[..|ops|] == ops;
  }

  lemma FaithfulReplacement(ops: seq<StorageOp>, op: StorageOp)
    requires op.SetOp? && !IsResponseEmpty(op.response)
    ensures Faithful(CacheState(Some(op.response), Some(NormalizeRequestParams(op.params))), ops + [op],
                     ResponseTimestamp(op.response, op.keys))
  {
  }

  lemma FaithfulExtension(c: CacheState, ops: seq<StorageOp>, op: StorageOp)
    requires op.SetOp? && !IsResponseEmpty(op.response)
    requires Faithful(c, ops, ResponseTimestamp(op.response, op.keys))
    requires MaybeExtended(c, op.response, NormalizeRequestParams(op.params)).1
    ensures Faithful(MaybeExtended(c, op.response, NormalizeRequestParams(op.params)).0, ops + [op],
                     ResponseTimestamp(op.response, op.keys))
  {
    hide ResponseTimestamp, IsResponseEmpty, ResponseFeedIds;
    assert (ops + [op])[..|ops|] == ops;
  }

  lemma {:induction false} RunIsFaithful(ops: seq<StorageOp>, config: Config, timestamp: int)
    requires timestamp in RunStorage(ops, config)
    ensures Faithful(RunStorage(ops, config)[timestamp], ops, timestamp)
  {
    hide ResponseTimestamp, IsResponseEmpty, MaybeExtended, Faithful;
    var n := |ops| - 1;
    var init, op := ops[..n], ops[n];
    assert ops == init + [op];
    var before := RunStorage(init, config);
    if timestamp in before {
      RunIsFaithful(init, config, timestamp);
    }
    if op.SetOp? && !IsResponseEmpty(op.response) && ResponseTimestamp(op.response, op.keys) == timestamp {
      var normalized := NormalizeRequestParams(op.params);
      FaithfulReplacement(init, op);
      if timestamp in Purged(before, config, op.now) && MaybeExtended(before[timestamp], op.response, normalized).1 {
        FaithfulExtension(before[timestamp], init, op);
      }
    } else {
      CannotSupply(before[timestamp], init, op, timestamp);
    }
  }

  lemma CannotSupply(c: CacheState, ops: seq<StorageOp>, op: StorageOp, timestamp: int)
    requires Faithful(c, ops, timestamp)
    requires !(op.SetOp? && !IsResponseEmpty(op.response) && ResponseTimestamp(op.response, op.keys) == timestamp)
    ensures Faithful(c, ops + [op], timestamp)
  {
    FaithfulUnlessSupplied(c, ops, op, timestamp);
  }

  // ----- Transparency

  lemma FilteredKeys(current: Response, ids: seq<string>)
    ensures var filtered := FilterDataPackages(current, ids);
            && (forall k :: k in filtered ==> k in current && filtered[k] == current[k])
            && (forall k :: k in ids && k in current ==> k in filtered)
  {
  }

  lemma GetIsRestriction(c: CacheState, params: RequestParams)
    requires GetFrom(c, params).Some?
    ensures c.response.Some? && c.params.Some? && AreConformingRequestParams(c.params.value, params)
    ensures var r := GetFrom(c, params).value;
            && (forall k :: k in r ==> k in c.response.value && r[k] == c.response.value[k])
            && (forall k ::
                  (params.returnAllPackages || k in params.dataPackagesIds) && k in c.response.value ==> k in r)
  {
    FilteredKeys(c.response.value, params.dataPackagesIds);
  }

  /** The response that last supplied a key of a hit, as a plain response. */
  ghost function GatewayResponse(ops: seq<StorageOp>, timestamp: int, key: string): Response {
    match LastSupplier(ops, timestamp, key)
    case Some(op) => if op.SetOp? then op.response else map[]
    case None => map[]
  }

  ghost predicate HitFrom(ops: seq<StorageOp>, config: Config, params: RequestParams, now: int, timestamp: int) {
    Consults(RunStorage(ops, config), params, config, now, timestamp)
  }

  /**
   * After any run, a hit comes from an entry that is not older than `ttlMs`, and every key of it holds
   * what the gateway response that last supplied the key for that timestamp held.
   */
  lemma HitsAreLastSupplied(ops: seq<StorageOp>, config: Config, params: RequestParams, now: int, timestamp: int)
    requires Answer(RunStorage(ops, config), params, config, now).Some? && HitFrom(ops, config, params, now, timestamp)
    ensures now - timestamp <= config.ttlMs
    ensures var hit := Answer(RunStorage(ops, config), params, config, now).value;
            forall k :: k in hit ==>
              k in GatewayResponse(ops, timestamp, k) && hit[k] == GatewayResponse(ops, timestamp, k)[k]
  {
    hide ResponseTimestamp, IsResponseEmpty, GetFrom, Answer, RunStorage;
    var s := RunStorage(ops, config);
    AnswerExactly(s, params, config, now);
    RunIsFaithful(ops, config, timestamp);
    GetIsRestriction(s[timestamp], params.(historicalTimestamp := None));
  }

  /**
   * After any run, a request for a timestamp hits exactly when that very timestamp is stored, not stale, and its entry
   * answers; every key of the hit holds what was last supplied for that timestamp.
   */
  lemma HitsForTimestamp(ops: seq<StorageOp>, config: Config, params: RequestParams, now: int, t: int)
    requires params.historicalTimestamp == Some(t) && t != 0
    ensures var s, hit := RunStorage(ops, config), Answer(RunStorage(ops, config), params, config, now);
            hit.Some? <==>
              t in s && now <= t + config.ttlMs && GetFrom(s[t], params.(historicalTimestamp := None)).Some?
    ensures var hit := Answer(RunStorage(ops, config), params, config, now);
            hit.Some? ==> forall k :: k in hit.value ==>
              k in GatewayResponse(ops, t, k) && hit.value[k] == GatewayResponse(ops, t, k)[k]
  {
    hide Answer, RunStorage, GetFrom, GatewayResponse;
    AnswerForTimestamp(RunStorage(ops, config), params, config, now, t);
    if Answer(RunStorage(ops, config), params, config, now).Some? {
      HitsAreLastSupplied(ops, config, params, now, t);
    }
  }

  /** Any other hit comes from the greatest stored timestamp, which is no older than the limit for latest entries. */
  lemma HitsForLatest(ops: seq<StorageOp>, config: Config, params: RequestParams, now: int)
      returns (t: int)
    requires params.historicalTimestamp == None || params.historicalTimestamp == Some(0)
    requires Answer(RunStorage(ops, config), params, config, now).Some?
    ensures t in RunStorage(ops, config) && forall u :: u in RunStorage(ops, config) ==> u <= t
    ensures config.latestTtlMs.Some? && now - config.latestTtlMs.value <= t && now - config.ttlMs <= t
    ensures var hit := Answer(RunStorage(ops, config), params, config, now).value;
            forall k :: k in hit ==> k in GatewayResponse(ops, t, k) && hit[k] == GatewayResponse(ops, t, k)[k]
  {
    hide Answer, RunStorage, GatewayResponse;
    AnswerExactly(RunStorage(ops, config), params, config, now);
    t :| Consults(RunStorage(ops, config), params, config, now, t);
    HitsAreLastSupplied(ops, config, params, now, t);
  }

  /**
   * Storage transparency: selecting a requested feed from a hit gives exactly what selecting it from the
   * gateway response that last supplied it gives.
   */
  lemma StorageIsTransparent(ops: seq<StorageOp>, config: Config, params: RequestParams, keys: seq<string>, now: int,
                             timestamp: int, id: string)
    requires Answer(RunStorage(ops, config), params, config, now).Some? && HitFrom(ops, config, params, now, timestamp)
    ensures var hit := Answer(RunStorage(ops, config), params, config, now).value;
            && (id in hit ==>
                  SelectFeed(Lookup(hit, id), params, id, now) ==
                  SelectFeed(Lookup(GatewayResponse(ops, timestamp, id), id), params, id, now))
            && (Selected(hit, keys, params, now).Success? && id in Selected(hit, keys, params, now).value ==>
                  SelectFeed(Lookup(GatewayResponse(ops, timestamp, id), id), params, id, now) ==
                  Success(Selected(hit, keys, params, now).value[id]))
  {
    hide Answer, HitFrom, GatewayResponse, FilterAndSelectDataPackages, PickClosestToMedian, FilterSigners;
    HitsAreLastSupplied(ops, config, params, now, timestamp);
    SelectionIsPerFeed(Answer(RunStorage(ops, config), params, config, now).value, keys, params, now);
  }

  /** The responses behind a hit were requested with the same comparable parameters. */
  lemma HitsConform(ops: seq<StorageOp>, config: Config, params: RequestParams, now: int, timestamp: int, key: string)
    requires Answer(RunStorage(ops, config), params, config, now).Some? && HitFrom(ops, config, params, now, timestamp)
    requires key in Answer(RunStorage(ops, config), params, config, now).value
    ensures LastSupplier(ops, timestamp, key).Some? && LastSupplier(ops, timestamp, key).value.SetOp?
    ensures var supplied := LastSupplier(ops, timestamp, key).value.params;
            && supplied.dataServiceId == params.dataServiceId
            && multiset(supplied.authorizedSigners) == multiset(params.authorizedSigners)
            && supplied.maxTimestampDeviationMS == params.maxTimestampDeviationMS
            && supplied.ignoreMissingFeed == params.ignoreMissingFeed
            && supplied.returnAllPackages == params.returnAllPackages
  {
    hide ResponseTimestamp, IsResponseEmpty, GetFrom, Answer, RunStorage, AreConformingRequestParams;
    var s := RunStorage(ops, config);
    AnswerExactly(s, params, config, now);
    RunIsFaithful(ops, config, timestamp);
    GetIsRestriction(s[timestamp], params.(historicalTimestamp := None));
    var cached, supplied := s[timestamp].params.value, LastSupplier(ops, timestamp, key).value.params;
    CoversExactly(cached, NormalizeRequestParams(supplied));
    CoversExactly(cached, params.(historicalTimestamp := None));
  }

  // ----- Which hits answer every requested feed

  /** A request for listed feeds, none of which may be missing, that the cache answers is answered on every key. */
  ghost predicate AnswersAll(c: CacheState, params: RequestParams) {
    !params.returnAllPackages && params.ignoreMissingFeed != Some(true) && GetFrom(c, params).Some? ==>
      forall id :: id in params.dataPackagesIds ==> id in GetFrom(c, params).value
  }

  /**
   * Every such request is answered on all its keys exactly when the feed ids of the cached response are
   * all keys of it, as they are in a response of single-feed packages.
   */
  lemma HitsAnswerEveryKey(c: CacheState)
    requires c.response.Some? && c.params.Some?
    requires !c.params.value.returnAllPackages && c.params.value.ignoreMissingFeed != Some(true)
    ensures (forall params: RequestParams :: AnswersAll(c, params)) <==>
              ResponseFeedIds(c.response.value) <= c.response.value.Keys
    ensures SingleFeedKeys(c.response.value) ==> ResponseFeedIds(c.response.value) <= c.response.value.Keys
  {
    hide ResponseFeedIds;
    var current := c.response.value;
    if ResponseFeedIds(current) <= current.Keys {
      forall params: RequestParams ensures AnswersAll(c, params) {
        FilteredKeys(current, params.dataPackagesIds);
        assert forall id :: id in params.dataPackagesIds ==> id in ToSet(params.dataPackagesIds);
      }
    } else {
      var f :| f in ResponseFeedIds(current) && f !in current;
      UnansweredFeed(c, f);
      assert !AnswersAll(c, c.params.value.(dataPackagesIds := [f]));
    }
    SingleFeedIds(current);
  }

  // ----- Runs of single-feed responses

  ghost predicate SingleFeedRun(ops: seq<StorageOp>) {
    forall i :: 0 <= i < |ops| && ops[i].SetOp? ==> SingleFeedKeys(ops[i].response)
  }

  lemma {:induction false} LastSupplierInRun(ops: seq<StorageOp>, timestamp: int, key: string)
    requires LastSupplier(ops, timestamp, key).Some?
    ensures LastSupplier(ops, timestamp, key).value in ops
  {
    var n := |ops| - 1;
    hide SuppliesKey;
    if !SuppliesKey(ops[n], timestamp, key) {
      LastSupplierInRun(ops[..n], timestamp, key);
    }
  }

  /** In a run of single-feed responses every cached response has single-feed keys only. */
  lemma RunStaysSingleFeed(ops: seq<StorageOp>, config: Config, timestamp: int)
    requires SingleFeedRun(ops) && timestamp in RunStorage(ops, config)
    ensures var c := RunStorage(ops, config)[timestamp];
            c.response.Some? && c.params.Some? && SingleFeedKeys(c.response.value)
  {
    hide IsResponseEmpty, ResponseTimestamp, RunStorage, IsMultiPointDataPackageId;
    RunIsFaithful(ops, config, timestamp);
    var c := RunStorage(ops, config)[timestamp];
    forall key | key in c.response.value ensures !IsMultiPointDataPackageId(key) {
      LastSupplierInRun(ops, timestamp, key);
      assert SuppliesKey(LastSupplier(ops, timestamp, key).value, timestamp, key);
    }
  }

  /**
   * After any run of single-feed responses, a request that may not miss feeds and hits is answered on every
   * requested feed.
   */
  lemma RunsAnswerEveryKey(ops: seq<StorageOp>, config: Config, params: RequestParams, now: int)
    requires SingleFeedRun(ops)
    requires !params.returnAllPackages && params.ignoreMissingFeed != Some(true)
    requires Answer(RunStorage(ops, config), params, config, now).Some?
    ensures forall id :: id in params.dataPackagesIds ==>
              id in Answer(RunStorage(ops, config), params, config, now).value
  {
    hide Answer, Consults, RunStorage, GetFrom, ResponseFeedIds, SingleFeedKeys;
    var s := RunStorage(ops, config);
    AnswerExactly(s, params, config, now);
    var timestamp :| Consults(s, params, config, now, timestamp);
    RunStaysSingleFeed(ops, config, timestamp);
    GetAnswersSingleFeeds(s[timestamp], params.(historicalTimestamp := None));
  }

  lemma GetAnswersSingleFeeds(c: CacheState, params: RequestParams)
    requires c.response.Some? && c.params.Some? && SingleFeedKeys(c.response.value)
    requires GetFrom(c, params).Some? && !params.returnAllPackages && params.ignoreMissingFeed != Some(true)
    ensures forall id :: id in params.dataPackagesIds ==> id in GetFrom(c, params).value
  {
    hide ResponseFeedIds;
    SingleFeedIds(c.response.value);
    FilteredKeys(c.response.value, params.dataPackagesIds);
    assert forall id :: id in params.dataPackagesIds ==> id in ToSet(params.dataPackagesIds);
  }

  /** In such a run an extension never overwrites: the extended entry is a disjoint union. */
  lemma RunExtensionsAreDisjoint(ops: seq<StorageOp>, config: Config, op: StorageOp, timestamp: int)
    requires SingleFeedRun(ops + [op]) && op.SetOp? && timestamp in RunStorage(ops, config)
    requires MaybeExtended(RunStorage(ops, config)[timestamp], op.response, NormalizeRequestParams(op.params)).1
    ensures var c := RunStorage(ops, config)[timestamp];
            && c.response.Some?
            && c.response.value.Keys !! op.response.Keys
            && MaybeExtended(c, op.response, NormalizeRequestParams(op.params)).0.response ==
               Some(c.response.value + op.response)
  {
    hide MaybeExtended, RunStorage;
    assert SingleFeedRun(ops) && SingleFeedKeys(op.response) by {
      assert (ops + [op])[|ops|] == op;
      assert forall i :: 0 <= i < |ops| ==> (ops + [op])[i] == ops[i];
    }
    RunStaysSingleFeed(ops, config, timestamp);
    ExtensionIsDisjointUnion(RunStorage(ops, config)[timestamp], op.response, NormalizeRequestParams(op.params));
  }

  lemma SingleFeedIds(r: Response)
    ensures SingleFeedKeys(r) ==> ResponseFeedIds(r) <= r.Keys
  {
  }

  /** A feed that only a multi-point package carries is a hit, but the answer has no key for it. */
  lemma UnansweredFeed(c: CacheState, f: string)
    requires c.response.Some? && c.params.Some? && !c.params.value.returnAllPackages
    requires f in ResponseFeedIds(c.response.value) && f !in c.response.value
    ensures var hit := GetFrom(c, c.params.value.(dataPackagesIds := [f]));
            hit.Some? && f !in hit.value
  {
    hide ResponseFeedIds;
    assert ToSet([f]) == {f};
    FilteredKeys(c.response.value, [f]);
  }

  /** A multi-point package with feed f, cached under its own key: the request for f is a hit without an answer. */
  lemma UnansweredExample(f: string, params: RequestParams)
    requires f != "__X__" && !params.returnAllPackages
    ensures var p := PricePackage([PricePoint(f, 1.0)], 0, None);
            var hit := GetFrom(CacheState(Some(map["__X__" := Some([p])]), Some(params)),
                               params.(dataPackagesIds := [f]));
            hit.Some? && f !in hit.value
  {
    var p := PricePackage([PricePoint(f, 1.0)], 0, None);
    var r := map["__X__" := Some([p])];
    assert IsMultiPointDataPackageId("__X__");
    assert p.points[0] in p.points && f in PackageFeedIds(p);
    assert !SingleFeedKeys(r) && f in KeyFeedIds("__X__", r["__X__"].value);
    UnansweredFeed(CacheState(Some(r), Some(params)), f);
  }
}
