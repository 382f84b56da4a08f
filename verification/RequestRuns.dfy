/** Runs of requests on one storage, including those that fall back to the gateways after a hit. */
module RequestRuns {
  import opened Wrappers
  import opened Responses
  import opened PackageSelection
  import opened ResponseStorage
  import opened StorageTransparency

  /** A request, the order of the keys of a hit, what the gateways answer if asked, and the clock. */
  datatype Request = Request(params: RequestParams, cachedKeys: seq<string>, fetched: Fetched, now: int)

  ghost function ResultOf(s: StorageState, r: Request, config: Config): Result<ParsedResponse, RequestError> {
    RequestResult(s, r.params, r.cachedKeys, r.fetched, config, r.now)
  }

  /** The storage after a run of requests. */
  ghost function After(requests: seq<Request>, config: Config): StorageState {
    if requests == [] then map[]
    else
      var last := requests[|requests| - 1];
      AfterRequest(After(requests[..|requests| - 1], config), last.params, last.fetched, config, last.now)
  }

  lemma AfterNext(requests: seq<Request>, i: nat, config: Config)
    requires i < |requests|
    ensures var r := requests[i];
            After(requests[..i + 1], config) ==
            AfterRequest(After(requests[..i], config), r.params, r.fetched, config, r.now)
  {
    hide AfterRequest;
    assert requests[..i + 1][..i] == requests[..i];
  }

  /** The results of a run of requests. */
  ghost function ResultsOf(requests: seq<Request>, config: Config): (rs: seq<Result<ParsedResponse, RequestError>>)
    ensures |rs| == |requests|
  {
    if requests == [] then []
    else
      var init := requests[..|requests| - 1];
      ResultsOf(init, config) + [ResultOf(After(init, config), requests[|requests| - 1], config)]
  }

  lemma ResultsNext(requests: seq<Request>, i: nat, config: Config)
    requires i < |requests|
    ensures ResultsOf(requests[..i + 1], config) ==
            ResultsOf(requests[..i], config) + [ResultOf(After(requests[..i], config), requests[i], config)]
  {
    hide ResultOf, After;
    assert requests[..i + 1][..i] == requests[..i];
  }

  /** Each request of a run is answered from the storage the requests before it have left. */
  lemma {:induction false} ResultsAt(requests: seq<Request>, i: nat, config: Config)
    requires i < |requests|
    ensures ResultsOf(requests, config)[i] == ResultOf(After(requests[..i], config), requests[i], config)
  {
    hide ResultOf, After;
    var n := |requests| - 1;
    if i < n {
      ResultsAt(requests[..n], i, config);
      assert requests[..n][..i] == requests[..i];
    }
  }

  method Serve(storage: DataPackagesResponseStorage, r: Request) returns (result: Result<ParsedResponse, RequestError>)
    requires storage.Valid()
    modifies storage, storage.Caches()
    ensures storage.Valid() && fresh(storage.Caches() - old(storage.Caches()))
    ensures result == ResultOf(old(storage.View()), r, storage.config)
    ensures storage.View() == AfterRequest(old(storage.View()), r.params, r.fetched, storage.config, r.now)
  {
    hide RequestResult, AfterRequest;
    result := RequestDataPackages(r.params, storage, r.cachedKeys, r.fetched, r.now);
  }

  /** A run of requests on a storage that starts empty. */
  method ServeAll(storage: DataPackagesResponseStorage, requests: seq<Request>)
      returns (results: seq<Result<ParsedResponse, RequestError>>)
    requires storage.entries == map[]
    modifies storage
    ensures storage.Valid() && storage.View() == After(requests, storage.config)
    ensures results == ResultsOf(requests, storage.config)
  {
    results := [];
    ghost var config := storage.config;
    assert requests[..0] == [] && requests[..|requests|] == requests;
    assert storage.Caches() == {} && storage.Valid() && storage.View() == map[] == After([], config);
    assert ResultsOf([], config) == [];
    hide *;
    for i := 0 to |requests|
      invariant storage.Valid() && fresh(storage.Caches())
      invariant storage.View() == After(requests[..i], config)
      invariant results == ResultsOf(requests[..i], config)
    {
      AfterNext(requests, i, config);
      ResultsNext(requests, i, config);
      var result := Serve(storage, requests[i]);
      results := results + [result];
    }
  }

  // ----- Requests as storage operations

  /** What a request does to the storage. */
  ghost function OpsOfRequest(s: StorageState, r: Request, config: Config): seq<StorageOp> {
    if CheckRequest(r.params).Fail? then []
    else if Answer(s, r.params, config, r.now).Some? || r.fetched.None? then [GetOp(r.params, r.now)]
    else [GetOp(r.params, r.now), SetOp(r.fetched.value.0, r.fetched.value.1, r.params, r.now)]
  }

  ghost function OpsOf(requests: seq<Request>, config: Config): seq<StorageOp> {
    if requests == [] then []
    else
      var init := requests[..|requests| - 1];
      OpsOf(init, config) + OpsOfRequest(After(init, config), requests[|requests| - 1], config)
  }

  lemma RunOne(ops: seq<StorageOp>, op: StorageOp, config: Config)
    ensures RunStorage(ops + [op], config) == ApplyOp(RunStorage(ops, config), op, config)
  {
    assert (ops + [op])[..|ops|] == ops;
    hide ApplyOp;
  }

  lemma {:induction false} RequestsRunOps(requests: seq<Request>, config: Config)
    ensures After(requests, config) == RunStorage(OpsOf(requests, config), config)
  {
    if requests != [] {
      var init, r := requests[..|requests| - 1], requests[|requests| - 1];
      RequestsRunOps(init, config);
      var ops, s := OpsOf(init, config), After(init, config);
      hide RunStorage, After, AfterSet, Purged, Answer;
      assert ops + [] == ops;
      RunOne(ops, GetOp(r.params, r.now), config);
      if OpsOfRequest(s, r, config) != [] && !(Answer(s, r.params, config, r.now).Some? || r.fetched.None?) {
        var set' := SetOp(r.fetched.value.0, r.fetched.value.1, r.params, r.now);
        RunOne(ops + [GetOp(r.params, r.now)], set', config);
        assert ops + [GetOp(r.params, r.now)] + [set'] == ops + [GetOp(r.params, r.now), set'];
      }
      AfterUnfolds(requests, config);
    }
  }

  lemma AfterUnfolds(requests: seq<Request>, config: Config)
    requires requests != []
    ensures var last := requests[|requests| - 1];
            After(requests, config) ==
            AfterRequest(After(requests[..|requests| - 1], config), last.params, last.fetched, config, last.now)
  {
    hide AfterRequest;
  }

  /** Some request of the run fetched this response. */
  ghost predicate FetchedInRun(requests: seq<Request>, response: Response, keys: seq<string>) {
    exists i :: 0 <= i < |requests| && requests[i].fetched == Some((response, keys))
  }

  lemma {:induction false} SetsAreFetched(requests: seq<Request>, config: Config, op: StorageOp)
    requires op in OpsOf(requests, config) && op.SetOp?
    ensures FetchedInRun(requests, op.response, op.keys)
  {
    var n := |requests| - 1;
    var init := requests[..n];
    hide Answer, After;
    if op in OpsOf(init, config) {
      SetsAreFetched(init, config, op);
      var i :| 0 <= i < |init| && init[i].fetched == Some((op.response, op.keys));
      assert requests[i].fetched == Some((op.response, op.keys));
    } else {
      assert requests[n].fetched == Some((op.response, op.keys));
    }
  }

  // ----- Transparency

  /** The feed is selected from this response as it stands. */
  ghost predicate SelectedFrom(response: Response, r: Request, id: string, packages: seq<PricePackage>) {
    SelectFeed(Lookup(response, id), r.params, id, r.now) == Success(packages)
  }

  ghost predicate FromOwnFetch(r: Request, id: string, packages: seq<PricePackage>) {
    r.fetched.Some? && SelectedFrom(r.fetched.value.0, r, id, packages)
  }

  /** The timestamp is the one the request names, or else the greatest stored one and young enough. */
  ghost predicate ConsultedFor(requests: seq<Request>, config: Config, r: Request, timestamp: int) {
    if r.params.historicalTimestamp.Some? && r.params.historicalTimestamp.value != 0
    then timestamp == r.params.historicalTimestamp.value
    else
      && (forall u :: u in After(requests, config) ==> u <= timestamp)
      && config.latestTtlMs.Some? && r.now - timestamp <= config.latestTtlMs.value
  }

  /** Selected from the response an earlier request fetched, the last that supplied the feed for this timestamp. */
  ghost predicate FromEarlierFetch(requests: seq<Request>, config: Config, r: Request, timestamp: int, id: string,
                                   packages: seq<PricePackage>)
  {
    var supplier := LastSupplier(OpsOf(requests, config), timestamp, id);
    && supplier.Some? && supplier.value.SetOp?
    && r.now - timestamp <= config.ttlMs
    && ConsultedFor(requests, config, r, timestamp)
    && FetchedInRun(requests, supplier.value.response, supplier.value.keys)
    && SelectedFrom(supplier.value.response, r, id, packages)
  }

  lemma OwnFetch(r: Request, id: string)
    requires FromGateway(r.fetched, r.params, r.now).Success? && id in FromGateway(r.fetched, r.params, r.now).value
    ensures FromOwnFetch(r, id, FromGateway(r.fetched, r.params, r.now).value[id])
  {
    hide SelectFeed, FilterAndSelectDataPackages;
    SelectionIsPerFeed(r.fetched.value.0, r.fetched.value.1, r.params, r.now);
  }

  lemma EarlierFetch(requests: seq<Request>, config: Config, r: Request, id: string) returns (timestamp: int)
    requires var hit := Answer(After(requests, config), r.params, config, r.now);
             && hit.Some? && Selected(hit.value, r.cachedKeys, r.params, r.now).Success?
             && id in Selected(hit.value, r.cachedKeys, r.params, r.now).value
    ensures var hit := Answer(After(requests, config), r.params, config, r.now).value;
            FromEarlierFetch(requests, config, r, timestamp, id, Selected(hit, r.cachedKeys, r.params, r.now).value[id])
  {
    var ops := OpsOf(requests, config);
    RequestsRunOps(requests, config);
    timestamp := HitTimestamp(ops, config, r.params, r.now);
    assert ConsultedFor(requests, config, r, timestamp);
    hide Answer, Selected, HitFrom, After, RunStorage, OpsOf, ConsultedFor;
    StorageIsTransparent(ops, config, r.params, r.cachedKeys, r.now, timestamp, id);
    HitsAreLastSupplied(ops, config, r.params, r.now, timestamp);
    SelectedIsSupplied(ops, timestamp, r, id);
    LastSupplierInRun(ops, timestamp, id);
    SetsAreFetched(requests, config, LastSupplier(ops, timestamp, id).value);
  }

  lemma HitTimestamp(ops: seq<StorageOp>, config: Config, params: RequestParams, now: int) returns (timestamp: int)
    requires Answer(RunStorage(ops, config), params, config, now).Some?
    ensures HitFrom(ops, config, params, now, timestamp)
  {
    hide Answer, Consults, RunStorage;
    AnswerExactly(RunStorage(ops, config), params, config, now);
    timestamp :| Consults(RunStorage(ops, config), params, config, now, timestamp);
  }

  /** A feed that can be selected from a supplier's response has a supplier. */
  lemma SelectedIsSupplied(ops: seq<StorageOp>, timestamp: int, r: Request, id: string)
    requires SelectFeed(Lookup(GatewayResponse(ops, timestamp, id), id), r.params, id, r.now).Success?
    ensures LastSupplier(ops, timestamp, id).Some? && LastSupplier(ops, timestamp, id).value.SetOp?
    ensures GatewayResponse(ops, timestamp, id) == LastSupplier(ops, timestamp, id).value.response
  {
    hide LastSupplier, FilterSigners;
  }

  /**
   * Over every run of requests, each feed of each result is selected from a response that this request or an
   * earlier one fetched; an earlier one is the last that supplied the feed for a timestamp within the time to live.
   */
  lemma RequestsAreTransparent(requests: seq<Request>, config: Config, r: Request, id: string)
    requires ResultOf(After(requests, config), r, config).Success?
    requires id in ResultOf(After(requests, config), r, config).value
    ensures var packages := ResultOf(After(requests, config), r, config).value[id];
            FromOwnFetch(r, id, packages) ||
            exists timestamp :: FromEarlierFetch(requests, config, r, timestamp, id, packages)
  {
    hide FromOwnFetch, FromEarlierFetch, Answer, Selected, FromGateway, After;
    var hit := Answer(After(requests, config), r.params, config, r.now);
    if hit.Some? && Selected(hit.value, r.cachedKeys, r.params, r.now).Success? {
      var timestamp := EarlierFetch(requests, config, r, id);
    } else {
      OwnFetch(r, id);
    }
  }

  /** A hit that selection refuses is answered as if there were no storage. */
  lemma RefusedHitsFallBack(requests: seq<Request>, config: Config, r: Request)
    requires CheckRequest(r.params).Pass?
    requires var hit := Answer(After(requests, config), r.params, config, r.now);
             hit.Some? ==> Selected(hit.value, r.cachedKeys, r.params, r.now).Failure?
    ensures ResultOf(After(requests, config), r, config) == ResultOf(map[], r, config)
  {
    NothingStored(r.params, config, r.now);
    hide Answer, Selected, FromGateway, After;
  }

  lemma NothingStored(params: RequestParams, config: Config, now: int)
    ensures Answer(map[], params, config, now) == None
  {
    var none: StorageState := map[];
    assert Purged(none, config, now) == map[];
  }

  /**
   * What a request fetched is served to later ones: until it is stale, a request for its timestamp with the same
   * parameters is answered from it, and does not need the gateways.
   */
  lemma FetchedIsServed(requests: seq<Request>, config: Config, first: Request, again: Request, response: Response,
                        keys: seq<string>)
    requires first.params.dataPackagesIds != [] && first.params.authorizedSigners != []
    requires Answer(After(requests, config), first.params, config, first.now).None?
    requires first.fetched == Some((response, keys)) && ResponseTimestamp(response, keys) != 0
    requires forall id :: id in first.params.dataPackagesIds ==>
      id in response && response[id].Some? && id != "" && !IsMultiPointDataPackageId(id)
    requires again.params == first.params.(historicalTimestamp := Some(ResponseTimestamp(response, keys)))
    requires again.now <= ResponseTimestamp(response, keys) + config.ttlMs
    ensures var hit := Answer(After(requests + [first], config), again.params, config, again.now);
            hit.Some? && forall id :: id in first.params.dataPackagesIds ==>
              id in hit.value && hit.value[id] == response[id]
  {
    var s := After(requests, config);
    assert (requests + [first])[..|requests|] == requests;
    var after := AfterSet(Purged(s, config, first.now), response, keys, first.params, config, first.now);
    assert After(requests + [first], config) == after;
    hide After, Answer, AfterSet, ResponseTimestamp, IsMultiPointDataPackageId;
    assert first.params.dataPackagesIds[0] in first.params.dataPackagesIds;
    StoredIsFound(Purged(s, config, first.now), response, keys, first.params, config, first.now, again.now);
  }
}
