/**
 * The cache of one gateway response. Responses are heap objects here, because caches share them:
 * `update` and `takeFromOther` store a reference, and only copies are ever changed.
 */
module ResponseCache {
  import opened Wrappers
  import opened Responses
  import opened Sets

  datatype CacheState = CacheState(response: Option<Response>, params: Option<RequestParams>)

  const EMPTY_CACHE: CacheState := CacheState(None, None)

  // ----- Comparing request parameters

  /** The compared parameters; two sorted signer lists are equal when they hold the same signers equally often. */
  datatype ComparableParams = ComparableParams(
    dataServiceId: string,
    authorizedSigners: multiset<string>,
    maxTimestampDeviationMS: Option<nat>,
    historicalTimestamp: Option<int>,
    ignoreMissingFeed: Option<bool>,
    returnAllPackages: bool)

  function MakeComparable(p: RequestParams): ComparableParams {
    ComparableParams(p.dataServiceId, multiset(p.authorizedSigners), p.maxTimestampDeviationMS,
                     p.historicalTimestamp, p.ignoreMissingFeed, p.returnAllPackages)
  }

  predicate AreConformingRequestParams(thisParams: RequestParams, otherParams: RequestParams) {
    MakeComparable(thisParams) == MakeComparable(otherParams) &&
    !(otherParams.uniqueSignersCount > thisParams.uniqueSignersCount)
  }

  predicate IsConforming(thisParams: RequestParams, otherParams: RequestParams, currentFeedIds: set<string>) {
    AreConformingRequestParams(thisParams, otherParams) &&
    (otherParams.ignoreMissingFeed == Some(true) || ToSet(otherParams.dataPackagesIds) <= currentFeedIds)
  }

  // ----- The operations on values

  function FilterDataPackages(current: Response, idsToInclude: seq<string>): Response {
    if ResponseFeedIds(current) <= ToSet(idsToInclude) then current
    else map k | k in current && k in idsToInclude :: current[k]
  }

  function GetFrom(c: CacheState, params: RequestParams): Option<Response> {
    if c.params.None? || c.response.None? then None
    else if !IsConforming(c.params.value, params, ResponseFeedIds(c.response.value)) then None
    else if params.returnAllPackages then c.response
    else Some(FilterDataPackages(c.response.value, params.dataPackagesIds))
  }

  function Uniq(ids: seq<string>): seq<string> {
    if ids == [] then []
    else
      var init := Uniq(ids[..|ids| - 1]);
      if ids[|ids| - 1] in init then init else init + [ids[|ids| - 1]]
  }

  function MaybeExtended(c: CacheState, r: Response, params: RequestParams): (CacheState, bool) {
    if c.params.None? || c.response.None? then (CacheState(Some(r), Some(params)), true)
    else
      var cached := c.params.value;
      if cached.returnAllPackages || params.returnAllPackages then (c, false)
      else if !AreConformingRequestParams(cached, params) ||
              ResponseFeedIds(c.response.value) * ResponseFeedIds(r) != {} then (c, false)
      else (CacheState(Some(c.response.value + r),
                       Some(cached.(dataPackagesIds := Uniq(cached.dataPackagesIds + params.dataPackagesIds)))), true)
  }

  function Deleted(c: CacheState, feedId: string): CacheState {
    if c.response.Some? && Lookup(c.response.value, feedId).Some? then c.(response := Some(c.response.value - {feedId}))
    else c
  }

  function Taken(other: CacheState): CacheState {
    if other.response.Some? && other.params.Some? then other else EMPTY_CACHE
  }

  // ----- The class

  class ResponseObject {
    var entries: Response

    constructor (entries: Response)
      ensures this.entries == entries
    {
      this.entries := entries;
    }
  }

  class DataPackagesResponseCache {
    var response: ResponseObject?
    var requestParams: Option<RequestParams>

    ghost function View(): CacheState
      reads this, response
    {
      CacheState(if response == null then None else Some(response.entries), requestParams)
    }

    constructor (response: ResponseObject?, requestParams: Option<RequestParams>)
      ensures this.response == response && this.requestParams == requestParams
    {
      this.response, this.requestParams := response, requestParams;
    }

    method Update(dataPackagesResponse: ResponseObject, params: RequestParams)
      modifies this
      ensures response == dataPackagesResponse
      ensures View() == CacheState(Some(old(dataPackagesResponse.entries)), Some(params))
    {
      response, requestParams := dataPackagesResponse, Some(params);
    }

    /** Deletes from a copy: the object held before keeps its entries. */
    method DeleteFromResponse(feedId: string) returns (dataPackages: Option<seq<PricePackage>>)
      modifies this
      ensures View() == Deleted(old(View()), feedId)
      ensures dataPackages == if old(View()).response.Some? then Lookup(old(View()).response.value, feedId) else None
      ensures response == old(response) || fresh(response)
      ensures dataPackages.Some? ==>
              && old(response) != null && feedId in old(response.entries)
              && dataPackages == old(response.entries)[feedId]
              && response != null && response.entries == old(response.entries) - {feedId}
      ensures dataPackages.None? ==> response == old(response) && View() == old(View())
    {
      if response == null || Lookup(response.entries, feedId).None? {
        return None;
      }
      dataPackages := response.entries[feedId];
      var copy := new ResponseObject(response.entries);
      copy.entries := copy.entries - {feedId};
      response := copy;
    }

    method Invalidate()
      modifies this
      ensures View() == EMPTY_CACHE
    {
      response, requestParams := null, None;
    }

    /** Takes over the other cache's response object; taking from itself leaves the cache empty. */
    method TakeFromOther(cache: DataPackagesResponseCache)
      modifies this
      ensures View() == if cache == this then EMPTY_CACHE else Taken(old(cache.View()))
      ensures cache != this && old(cache.View().params.Some?) ==> response == old(cache.response)
      ensures cache != this ==> cache.View() == old(cache.View())
      ensures cache != this && old(cache.View().response.Some?) && old(cache.View().params.Some?) ==>
                View() == old(cache.View())
      ensures cache != this && (old(cache.View().response.None?) || old(cache.View().params.None?)) ==>
                response == null && requestParams == None
    {
      Invalidate();
      if cache.response != null && cache.requestParams.Some? {
        Update(cache.response, cache.requestParams.value);
      }
    }

    method MaybeExtend(dataPackagesResponse: ResponseObject, params: RequestParams) returns (extended: bool)
      modifies this
      ensures (View(), extended) == MaybeExtended(old(View()), old(dataPackagesResponse.entries), params)
      ensures response == old(response) || response == dataPackagesResponse || fresh(response)
      ensures old(response) != null ==> response != null
      ensures extended ==> response != null && requestParams.Some?
    {
      if requestParams.None? || response == null {
        Update(dataPackagesResponse, params);
        return true;
      }
      var cached := requestParams.value;
      if cached.returnAllPackages || params.returnAllPackages {
        return false;
      }
      var intersection := ResponseFeedIds(response.entries) * ResponseFeedIds(dataPackagesResponse.entries);
      if !AreConformingRequestParams(cached, params) || intersection != {} {
        return false;
      }
      var spread := new ResponseObject(response.entries + dataPackagesResponse.entries);
      Update(spread, cached.(dataPackagesIds := Uniq(cached.dataPackagesIds + params.dataPackagesIds)));
      return true;
    }

    /** Returns the held object itself when it need not be filtered. */
    method Get(params: RequestParams) returns (r: ResponseObject?)
      ensures (if r == null then None else Some(r.entries)) == GetFrom(View(), params)
      ensures r == null || r == response || fresh(r)
    {
      if requestParams.None? || response == null {
        return null;
      }
      if !IsConforming(requestParams.value, params, ResponseFeedIds(response.entries)) {
        return null;
      }
      if params.returnAllPackages || ResponseFeedIds(response.entries) <= ToSet(params.dataPackagesIds) {
        return response;
      }
      r := new ResponseObject(FilterDataPackages(response.entries, params.dataPackagesIds));
    }
  }

  /** Deleting from a cache changes neither the cache it was copied from nor the shared response object. */
  method DeleteAfterCopy(copy: DataPackagesResponseCache, original: DataPackagesResponseCache, feedId: string)
    requires copy != original
    modifies copy
    ensures original.View() == old(original.View())
    ensures copy.View() == Deleted(Taken(old(original.View())), feedId)
    ensures original.response != null ==> original.response.entries == old(original.response.entries)
  {
    copy.TakeFromOther(original);
    var _ := copy.DeleteFromResponse(feedId);
  }

  /** Which requests a cache answers, parameter by parameter. */
  ghost predicate Covers(cached: RequestParams, params: RequestParams) {
    && params.dataServiceId == cached.dataServiceId
    && multiset(params.authorizedSigners) == multiset(cached.authorizedSigners)
    && params.maxTimestampDeviationMS == cached.maxTimestampDeviationMS
    && params.historicalTimestamp == cached.historicalTimestamp
    && params.ignoreMissingFeed == cached.ignoreMissingFeed
    && params.returnAllPackages == cached.returnAllPackages
    && params.uniqueSignersCount <= cached.uniqueSignersCount
  }

  lemma CoversExactly(cached: RequestParams, params: RequestParams)
    ensures AreConformingRequestParams(cached, params) <==> Covers(cached, params)
  {
  }

  /**
   * A cache answers exactly the requests its parameters cover whose feeds it has, unless missing ones are ignored;
   * with the requested entries as it holds them, or with all when every feed is requested.
   */
  lemma GetExactly(c: CacheState, params: RequestParams)
    ensures GetFrom(c, params).Some? <==>
              && c.response.Some? && c.params.Some? && Covers(c.params.value, params)
              && (params.ignoreMissingFeed == Some(true) ||
                  forall id :: id in params.dataPackagesIds ==> id in ResponseFeedIds(c.response.value))
    ensures GetFrom(c, params).Some? ==>
              var r, all := GetFrom(c, params).value, c.response.value;
              && (forall k :: k in r ==> k in all && r[k] == all[k])
              && (forall k :: k in all ==>
                    (k in r <==> params.returnAllPackages || k in params.dataPackagesIds ||
                                 forall f :: f in ResponseFeedIds(all) ==> f in params.dataPackagesIds))
  {
    hide ResponseFeedIds, AreConformingRequestParams;
    if c.params.Some? {
      CoversExactly(c.params.value, params);
    }
    hide Covers;
    assert forall id :: id in params.dataPackagesIds <==> id in ToSet(params.dataPackagesIds);
  }

  // ----- Extending

  lemma {:induction false} UniqExactly(ids: seq<string>)
    ensures forall id :: id in Uniq(ids) <==> id in ids
    ensures forall i, j :: 0 <= i < j < |Uniq(ids)| ==> Uniq(ids)[i] != Uniq(ids)[j]
  {
    if ids != [] {
      UniqExactly(ids[..|ids| - 1]);
      assert ids == ids[..|ids| - 1] + [ids[|ids| - 1]];
    }
  }

  /** A non-empty cache may be extended by a response to a request it covers that shares no feed with it. */
  ghost predicate MayExtend(c: CacheState, r: Response, params: RequestParams) {
    c.response.Some? && c.params.Some? ==>
      && !c.params.value.returnAllPackages && !params.returnAllPackages
      && Covers(c.params.value, params)
      && forall f :: f in ResponseFeedIds(c.response.value) ==> f !in ResponseFeedIds(r)
  }

  /** Exactly then it is extended: to the union, for the feeds of both requests; otherwise it stays. */
  lemma ExtendExactly(c: CacheState, r: Response, params: RequestParams)
    ensures MaybeExtended(c, r, params).1 <==> MayExtend(c, r, params)
    ensures !MayExtend(c, r, params) ==> MaybeExtended(c, r, params).0 == c
    ensures MayExtend(c, r, params) && (c.response.None? || c.params.None?) ==>
              MaybeExtended(c, r, params).0 == CacheState(Some(r), Some(params))
    ensures MayExtend(c, r, params) && c.response.Some? && c.params.Some? ==>
              var c' := MaybeExtended(c, r, params).0;
              && c'.response == Some(c.response.value + r) && c'.params.Some?
              && c'.params.value.(dataPackagesIds := c.params.value.dataPackagesIds) == c.params.value
              && forall id :: id in c'.params.value.dataPackagesIds <==>
                              id in c.params.value.dataPackagesIds || id in params.dataPackagesIds
  {
    hide ResponseFeedIds, AreConformingRequestParams, Uniq;
    if c.params.Some? && c.response.Some? {
      CoversExactly(c.params.value, params);
      UniqExactly(c.params.value.dataPackagesIds + params.dataPackagesIds);
      var a, b := ResponseFeedIds(c.response.value), ResponseFeedIds(r);
      assert a * b == {} <==> forall f :: f in a ==> f !in b by {
        if a * b != {} {
          var f :| f in a * b;
        }
        assert forall f :: f in a && f in b ==> f in a * b;
      }
    }
    hide Covers;
  }

  lemma DisjointUnion(a: Response, b: Response)
    requires a.Keys * b.Keys == {}
    ensures a.Keys !! b.Keys && |a + b| == |a| + |b|
  {
    DisjointSizes(a.Keys, b.Keys);
    assert (a + b).Keys == a.Keys + b.Keys;
    assert |a| == |a.Keys| && |b| == |b.Keys| && |a + b| == |(a + b).Keys|;
  }

  /** A cache without multi-point keys is extended only by new keys, so nothing cached is overwritten. */
  lemma ExtensionIsDisjointUnion(c: CacheState, r: Response, params: RequestParams)
    requires c.response.Some? && c.params.Some?
    ensures var (c', extended) := MaybeExtended(c, r, params);
            && (!extended ==> c' == c)
            && (extended ==> c'.response.Some? && c'.response.value == c.response.value + r)
            && (extended && SingleFeedKeys(c.response.value) && SingleFeedKeys(r) ==>
                  c.response.value.Keys !! r.Keys && |c'.response.value| == |c.response.value| + |r|)
  {
    hide SingleFeedKeys, AreConformingRequestParams, Uniq;
    var (_, extended) := MaybeExtended(c, r, params);
    if extended && SingleFeedKeys(c.response.value) && SingleFeedKeys(r) {
      DisjointUnion(c.response.value, r);
    }
  }

  // ----- Where cached feeds come from

  datatype CacheOp =
    | UpdateOp(cache: nat, response: Response, params: RequestParams)
    | ExtendOp(cache: nat, response: Response, params: RequestParams)
    | DeleteOp(cache: nat, feedId: string)
    | TakeOp(cache: nat, other: nat)
    | InvalidateOp(cache: nat)

  /** Any number of caches, all empty at first. */
  type Caches = nat -> CacheState

  function NoCaches(): Caches {
    (i: nat) => EMPTY_CACHE
  }

  function With(caches: Caches, cache: nat, c: CacheState): Caches {
    (i: nat) => if i == cache then c else caches(i)
  }

  function Apply(caches: Caches, op: CacheOp): Caches {
    match op
    case UpdateOp(i, r, p) => With(caches, i, CacheState(Some(r), Some(p)))
    case ExtendOp(i, r, p) => With(caches, i, MaybeExtended(caches(i), r, p).0)
    case DeleteOp(i, f) => With(caches, i, Deleted(caches(i), f))
    case TakeOp(i, j) => With(caches, i, if i == j then EMPTY_CACHE else Taken(caches(j)))
    case InvalidateOp(i) => With(caches, i, EMPTY_CACHE)
  }

  function RunOps(ops: seq<CacheOp>): Caches {
    if ops == [] then NoCaches() else Apply(RunOps(ops[..|ops| - 1]), ops[|ops| - 1])
  }

  /** What one operation leaves in each cache. */
  lemma OpExactly(ops: seq<CacheOp>, op: CacheOp, i: nat)
    ensures var before, after := RunOps(ops), RunOps(ops + [op]);
            && (op.cache != i ==> after(i) == before(i))
            && (op.cache == i && op.UpdateOp? ==> after(i) == CacheState(Some(op.response), Some(op.params)))
            && (op.cache == i && op.ExtendOp? ==> after(i) == MaybeExtended(before(i), op.response, op.params).0)
            && (op.cache == i && op.TakeOp? && op.other != i &&
                before(op.other).response.Some? && before(op.other).params.Some? ==>
                  after(i) == before(op.other))
            && (op.cache == i && op.TakeOp? && (op.other == i || before(op.other).response.None?) ==>
                  after(i).response == None)
            && (op.cache == i && op.InvalidateOp? ==> after(i) == CacheState(None, None))
    ensures RunOps([])(i) == CacheState(None, None)
  {
    hide MaybeExtended;
    assert (ops + [op])[..|ops|] == ops;
  }

  /** The operations of a run name caches of the list. */
  ghost predicate OpsWithin(ops: seq<CacheOp>, count: nat) {
    forall i :: 0 <= i < |ops| ==> ops[i].cache < count && (ops[i].TakeOp? ==> ops[i].other < count)
  }

  /** Any number of cache objects, all empty at first, hold after a run of operations what the run says. */
  method RunAll(caches: seq<DataPackagesResponseCache>, ops: seq<CacheOp>)
    requires forall i, j :: 0 <= i < j < |caches| ==> caches[i] != caches[j]
    requires forall i :: 0 <= i < |caches| ==> caches[i].View() == EMPTY_CACHE
    requires OpsWithin(ops, |caches|)
    modifies caches
    ensures forall i :: 0 <= i < |caches| ==> caches[i].View() == RunOps(ops)(i)
  {
    hide Deleted, MaybeExtended;
    for n := 0 to |ops|
      invariant forall i :: 0 <= i < |caches| ==> caches[i].View() == RunOps(ops[..n])(i)
    {
      assert ops[..n + 1][..n] == ops[..n];
      hide RunOps;
      ApplyOne(caches, ops[n], RunOps(ops[..n]));
      RunNext(ops, n);
    }
    assert ops[..|ops|] == ops;
  }

  lemma RunNext(ops: seq<CacheOp>, n: nat)
    requires n < |ops|
    ensures RunOps(ops[..n + 1]) == Apply(RunOps(ops[..n]), ops[n])
  {
    assert ops[..n + 1][..n] == ops[..n];
    hide Apply;
  }

  method ApplyOne(caches: seq<DataPackagesResponseCache>, op: CacheOp, ghost before: Caches)
    requires forall i, j :: 0 <= i < j < |caches| ==> caches[i] != caches[j]
    requires forall i :: 0 <= i < |caches| ==> caches[i].View() == before(i)
    requires op.cache < |caches| && (op.TakeOp? ==> op.other < |caches|)
    modifies caches[op.cache]
    ensures forall i :: 0 <= i < |caches| ==> caches[i].View() == Apply(before, op)(i)
  {
    hide Deleted, MaybeExtended, Taken;
    var cache := caches[op.cache];
    match op {
      case UpdateOp(_, response, params) =>
        var supplied := new ResponseObject(response);
        cache.Update(supplied, params);
      case ExtendOp(_, response, params) =>
        var supplied := new ResponseObject(response);
        var _ := cache.MaybeExtend(supplied, params);
      case DeleteOp(_, feedId) =>
        var _ := cache.DeleteFromResponse(feedId);
      case TakeOp(_, other) =>
        cache.TakeFromOther(caches[other]);
      case InvalidateOp(_) =>
        cache.Invalidate();
    }
  }

  predicate SupplyingOp(op: CacheOp) {
    op.UpdateOp? || op.ExtendOp?
  }

  /** `op` supplied `value` for `key` under parameters that the cached parameters cover. */
  predicate Supplies(op: CacheOp, key: string, value: Option<seq<PricePackage>>, cached: RequestParams) {
    && SupplyingOp(op)
    && key in op.response && op.response[key] == value
    && AreConformingRequestParams(cached, op.params)
  }

  ghost predicate HasProvenance(c: CacheState, ops: seq<CacheOp>) {
    c.response.Some? ==>
      c.params.Some? &&
      forall key :: key in c.response.value ==>
        exists i :: 0 <= i < |ops| && Supplies(ops[i], key, c.response.value[key], c.params.value)
  }

  lemma ProvenanceGrows(c: CacheState, ops: seq<CacheOp>, op: CacheOp)
    requires HasProvenance(c, ops)
    ensures HasProvenance(c, ops + [op])
  {
    if c.response.Some? {
      forall key | key in c.response.value
        ensures exists i ::
                  0 <= i < |ops + [op]| && Supplies((ops + [op])[i], key, c.response.value[key], c.params.value)
      {
        var i :| 0 <= i < |ops| && Supplies(ops[i], key, c.response.value[key], c.params.value);
        assert (ops + [op])[i] == ops[i];
      }
    }
  }

  lemma SuppliedByLast(c: CacheState, ops: seq<CacheOp>, op: CacheOp)
    requires SupplyingOp(op)
    requires c.response.Some? && c.params.Some? && AreConformingRequestParams(c.params.value, op.params)
    requires forall key :: key in c.response.value ==>
      (key in op.response && c.response.value[key] == op.response[key]) ||
      exists i :: 0 <= i < |ops| && Supplies(ops[i], key, c.response.value[key], c.params.value)
    ensures HasProvenance(c, ops + [op])
  {
    forall key | key in c.response.value
      ensures exists i :: 0 <= i < |ops + [op]| && Supplies((ops + [op])[i], key, c.response.value[key], c.params.value)
    {
      if key in op.response && c.response.value[key] == op.response[key] {
        assert Supplies((ops + [op])[|ops|], key, c.response.value[key], c.params.value);
      } else {
        var i :| 0 <= i < |ops| && Supplies(ops[i], key, c.response.value[key], c.params.value);
        assert (ops + [op])[i] == ops[i];
      }
    }
  }

  lemma ExtensionKeepsProvenance(c: CacheState, ops: seq<CacheOp>, op: CacheOp)
    requires HasProvenance(c, ops) && op.ExtendOp?
    ensures HasProvenance(MaybeExtended(c, op.response, op.params).0, ops + [op])
  {
    hide ResponseFeedIds;
    var (c', extended) := MaybeExtended(c, op.response, op.params);
    if c' == c {
      ProvenanceGrows(c, ops, op);
    } else {
      SuppliedByLast(c', ops, op);
    }
  }

  /**
   * After any run over any number of caches, every cached feed was supplied by some update or extension
   * whose comparable parameters equal the cached ones and whose signer count is at most the cached one.
   */
  lemma {:induction false} CacheProvenance(ops: seq<CacheOp>, i: nat)
    ensures HasProvenance(RunOps(ops)(i), ops)
  {
    if ops != [] {
      var n := |ops| - 1;
      var init, op := ops[..n], ops[n];
      assert ops == init + [op];
      CacheProvenance(init, i);
      ProvenanceGrows(RunOps(init)(i), init, op);
      if op.cache == i {
        match op {
          case UpdateOp(_, r, p) => SuppliedByLast(CacheState(Some(r), Some(p)), init, op);
          case ExtendOp(_, _, _) => ExtensionKeepsProvenance(RunOps(init)(i), init, op);
          case DeleteOp(_, f) => DeletionKeepsProvenance(RunOps(init)(i), f, ops);
          case TakeOp(_, j) =>
            CacheProvenance(init, j);
            ProvenanceGrows(RunOps(init)(j), init, op);
          case InvalidateOp(_) =>
        }
      }
    }
  }

  lemma DeletionKeepsProvenance(c: CacheState, feedId: string, ops: seq<CacheOp>)
    requires HasProvenance(c, ops)
    ensures HasProvenance(Deleted(c, feedId), ops)
  {
  }

  // ----- Runs of single-feed responses

  ghost predicate SingleFeedOps(ops: seq<CacheOp>) {
    forall i :: 0 <= i < |ops| && SupplyingOp(ops[i]) ==> SingleFeedKeys(ops[i].response)
  }

  /** After any run of single-feed responses every cache holds single-feed keys only. */
  lemma CachesStaySingleFeed(ops: seq<CacheOp>, i: nat)
    requires SingleFeedOps(ops) && RunOps(ops)(i).response.Some?
    ensures SingleFeedKeys(RunOps(ops)(i).response.value)
  {
    hide RunOps, IsMultiPointDataPackageId, AreConformingRequestParams;
    CacheProvenance(ops, i);
    var c := RunOps(ops)(i);
    forall key | key in c.response.value ensures !IsMultiPointDataPackageId(key) {
      var j :| 0 <= j < |ops| && Supplies(ops[j], key, c.response.value[key], c.params.value);
      assert key in ops[j].response;
    }
  }

  /** So, in such a run, extending any of the caches overwrites nothing. */
  lemma CacheExtensionsAreDisjoint(ops: seq<CacheOp>, i: nat, r: Response, params: RequestParams)
    requires SingleFeedOps(ops) && SingleFeedKeys(r)
    requires RunOps(ops)(i).response.Some? && RunOps(ops)(i).params.Some? && MaybeExtended(RunOps(ops)(i), r, params).1
    ensures var current := RunOps(ops)(i).response.value;
            && current.Keys !! r.Keys
            && MaybeExtended(RunOps(ops)(i), r, params).0.response == Some(current + r)
  {
    hide RunOps, MaybeExtended, SingleFeedKeys;
    CachesStaySingleFeed(ops, i);
    ExtensionIsDisjointUnion(RunOps(ops)(i), r, params);
  }
}
