/** The storage of response caches by timestamp, and why answering from it is transparent. */
module ResponseStorage {
  import opened Wrappers
  import opened Responses
  import opened ResponseCache

  datatype Config = Config(ttlMs: int, latestTtlMs: Option<int>)

  type StorageState = map<int, CacheState>

  // ----- The operations on values

  function NormalizeRequestParams(params: RequestParams): RequestParams {
    params.(historicalTimestamp := None)
  }

  predicate IsStale(timestamp: int, config: Config, now: int) {
    now - timestamp > config.ttlMs
  }

  function Purged(s: StorageState, config: Config, now: int): StorageState {
    map t | t in s && !IsStale(t, config, now) :: s[t]
  }

  ghost function MaxKey(keys: set<int>): (max: int)
    requires keys != {}
    ensures max in keys && forall t :: t in keys ==> t <= max
  {
    NonEmpty(keys);
    var t :| t in keys;
    if keys == {t} then t
    else
      assert keys - {t} == {} ==> keys == {t};
      assert forall u :: u in keys ==> u == t || u in keys - {t};
      var rest := MaxKey(keys - {t});
      if t > rest then t else rest
  }

  lemma NonEmpty(keys: set<int>)
    requires keys != {}
    ensures exists t :: t in keys
  {
    assert (forall t :: t !in keys) ==> keys == {};
  }

  /** The newest entry, when latest entries may be used and it is young enough. */
  ghost function LatestKey(keys: set<int>, config: Config, now: int): Option<int> {
    if config.latestTtlMs.None? || config.latestTtlMs.value == 0 || keys == {} then None
    else if MaxKey(keys) + config.latestTtlMs.value < now then None
    else Some(MaxKey(keys))
  }

  /** The entry consulted for a request; a historical timestamp of 0 is falsy and asks for the latest entry. */
  ghost function EntryKey(keys: set<int>, params: RequestParams, config: Config, now: int): (key: Option<int>)
    ensures key.Some? ==> key.value in keys
  {
    match params.historicalTimestamp
    case Some(t) =>
      if t == 0 then LatestKey(keys, config, now) else if t in keys then Some(t) else None
    case None => LatestKey(keys, config, now)
  }

  /** What `get` answers. */
  ghost function Answer(s: StorageState, params: RequestParams, config: Config, now: int): Option<Response> {
    var purged := Purged(s, config, now);
    match EntryKey(purged.Keys, params, config, now)
    case Some(key) => GetFrom(purged[key], NormalizeRequestParams(params))
    case None => None
  }

  // ----- What a request consults

  /** The greatest stored timestamp, when it is within both times to live. */
  ghost predicate IsLatest(s: StorageState, config: Config, now: int, t: int) {
    && t in s && (forall u :: u in s ==> u <= t)
    && now <= t + config.ttlMs
    && config.latestTtlMs.Some? && config.latestTtlMs.value != 0 && now <= t + config.latestTtlMs.value
  }

  /** The entry for the timestamp the request names, while it is not stale; zero is falsy and names none. */
  ghost predicate Consults(s: StorageState, params: RequestParams, config: Config, now: int, t: int) {
    if params.historicalTimestamp.Some? && params.historicalTimestamp.value != 0
    then t == params.historicalTimestamp.value && t in s && now <= t + config.ttlMs
    else IsLatest(s, config, now, t)
  }

  lemma LatestIsGreatest(s: StorageState, config: Config, now: int)
    ensures var key := LatestKey(Purged(s, config, now).Keys, config, now);
            key.Some? ==> IsLatest(s, config, now, key.value)
    ensures forall t :: IsLatest(s, config, now, t) ==> LatestKey(Purged(s, config, now).Keys, config, now) == Some(t)
  {
    var keys := Purged(s, config, now).Keys;
    var key := LatestKey(keys, config, now);
    if key.Some? {
      forall u | u in s ensures u <= key.value {
        assert !IsStale(u, config, now) ==> u in keys;
      }
    }
    forall t | IsLatest(s, config, now, t) ensures LatestKey(keys, config, now) == Some(t) {
      assert t in keys && keys != {} && MaxKey(keys) == t;
    }
  }

  /** A request is answered from the entry it consults, and only from such an entry. */
  lemma AnswerExactly(s: StorageState, params: RequestParams, config: Config, now: int)
    ensures forall t :: Consults(s, params, config, now, t) ==>
              t in s && Answer(s, params, config, now) == GetFrom(s[t], params.(historicalTimestamp := None))
    ensures Answer(s, params, config, now).Some? ==> exists t :: Consults(s, params, config, now, t)
  {
    LatestIsGreatest(s, config, now);
    hide GetFrom, LatestKey;
    var key := EntryKey(Purged(s, config, now).Keys, params, config, now);
    assert key.Some? ==> Consults(s, params, config, now, key.value);
  }

  /** A request for a timestamp hits exactly when that very entry is stored, not stale, and answers it. */
  lemma AnswerForTimestamp(s: StorageState, params: RequestParams, config: Config, now: int, t: int)
    requires params.historicalTimestamp == Some(t) && t != 0
    ensures Answer(s, params, config, now) ==
            if t in s && now <= t + config.ttlMs then GetFrom(s[t], params.(historicalTimestamp := None)) else None
  {
    hide GetFrom, Answer;
    AnswerExactly(s, params, config, now);
    assert Consults(s, params, config, now, t) <==> t in s && now <= t + config.ttlMs;
  }

  /** Any other request hits only on the entry of the greatest stored timestamp, while it is young enough. */
  lemma AnswerForLatest(s: StorageState, params: RequestParams, config: Config, now: int, t: int)
    requires params.historicalTimestamp == None || params.historicalTimestamp == Some(0)
    requires t in s && forall u :: u in s ==> u <= t
    ensures Answer(s, params, config, now) ==
            if now <= t + config.ttlMs && config.latestTtlMs.Some? && config.latestTtlMs.value != 0 &&
               now <= t + config.latestTtlMs.value
            then GetFrom(s[t], params.(historicalTimestamp := None)) else None
  {
    hide GetFrom, Answer;
    AnswerExactly(s, params, config, now);
    forall u | Consults(s, params, config, now, u) ensures u == t {
      assert u <= t && t <= u;
    }
  }

  function AfterSet(s: StorageState, response: Response, keys: seq<string>, params: RequestParams, config: Config,
                    now: int)
      : StorageState
  {
    var purged := Purged(s, config, now);
    if IsResponseEmpty(response) then purged
    else
      var t := ResponseTimestamp(response, keys);
      var normalized := NormalizeRequestParams(params);
      var replacement := CacheState(Some(response), Some(normalized));
      if t in purged then
        var (c, extended) := MaybeExtended(purged[t], response, normalized);
        purged[t := if extended then c else replacement]
      else purged[t := replacement]
  }

  // ----- What a response leaves

  /** Storing a response: its own entry has it, and all other entries that are not stale stay as they were. */
  lemma SetExactly(s: StorageState, response: Response, keys: seq<string>, params: RequestParams, config: Config,
                   now: int)
    requires exists k :: k in response && response[k].Some?
    ensures var after, t := AfterSet(s, response, keys, params, config, now), ResponseTimestamp(response, keys);
            && (forall u :: u != t ==> (u in after <==> u in s && now <= u + config.ttlMs))
            && (forall u :: u != t && u in after ==> after[u] == s[u])
    ensures var after, t := AfterSet(s, response, keys, params, config, now), ResponseTimestamp(response, keys);
            && t in after && after[t].response.Some? && after[t].params.Some?
            && (forall k :: k in response ==> k in after[t].response.value && after[t].response.value[k] == response[k])
            && Covers(after[t].params.value, params.(historicalTimestamp := None))
    ensures var after, t := AfterSet(s, response, keys, params, config, now), ResponseTimestamp(response, keys);
            var held := if t in s && now <= t + config.ttlMs then s[t] else EMPTY_CACHE;
            after[t].response ==
            Some(if held.response.Some? && MayExtend(held, response, params.(historicalTimestamp := None)) &&
                    held.params.Some?
                 then held.response.value + response else response)
  {
    hide ResponseTimestamp, ResponseFeedIds, MaybeExtended, MayExtend, Covers;
    var normalized := NormalizeRequestParams(params);
    Reflexive(normalized);
    var t := ResponseTimestamp(response, keys);
    if t in s {
      ExtendExactly(s[t], response, normalized);
      if MayExtend(s[t], response, normalized) {
        ExtendedCovers(s[t], response, normalized);
      }
    }
  }

  /** An extended cache still covers the requests that the cache did, and so the extending one. */
  lemma ExtendedCovers(c: CacheState, r: Response, params: RequestParams)
    requires MayExtend(c, r, params)
    ensures var c' := MaybeExtended(c, r, params).0; c'.params.Some? && Covers(c'.params.value, params)
  {
    hide ResponseFeedIds;
    ExtendExactly(c, r, params);
  }

  lemma Reflexive(params: RequestParams)
    ensures Covers(params, params)
  {
  }

  /** Storing nothing but undefined entries only purges. */
  lemma EmptySet(s: StorageState, response: Response, keys: seq<string>, params: RequestParams, config: Config,
                 now: int)
    requires forall k :: k in response ==> response[k].None?
    ensures var after := AfterSet(s, response, keys, params, config, now);
            && (forall u :: u in after <==> u in s && now <= u + config.ttlMs)
            && (forall u :: u in after ==> after[u] == s[u])
  {
  }

  /** A stored single-feed entry is found again, by its timestamp, until it is stale. */
  lemma StoredIsFound(s: StorageState, response: Response, keys: seq<string>, params: RequestParams, config: Config,
                      now: int, later: int)
    requires forall id :: id in params.dataPackagesIds ==>
      id in response && response[id].Some? && id != "" && !IsMultiPointDataPackageId(id)
    requires exists k :: k in response && response[k].Some?
    requires ResponseTimestamp(response, keys) != 0 && later <= ResponseTimestamp(response, keys) + config.ttlMs
    ensures var after, t := AfterSet(s, response, keys, params, config, now), ResponseTimestamp(response, keys);
            var hit := Answer(after, params.(historicalTimestamp := Some(t)), config, later);
            hit.Some? && forall id :: id in params.dataPackagesIds ==> id in hit.value && hit.value[id] == response[id]
  {
    var after, t := AfterSet(s, response, keys, params, config, now), ResponseTimestamp(response, keys);
    var asked := params.(historicalTimestamp := Some(t));
    SetExactly(s, response, keys, params, config, now);
    AnswerForTimestamp(after, asked, config, later, t);
    hide AfterSet, Answer, ResponseTimestamp, Covers, GetFrom, ResponseFeedIds, IsMultiPointDataPackageId;
    var all := after[t].response.value;
    forall id | id in params.dataPackagesIds ensures id in ResponseFeedIds(all) {
      ResponseFeedIdsExactly(all, id);
      assert EntryCarries(id, all[id].value, id);
    }
    GetExactly(after[t], params.(historicalTimestamp := None));
  }

  // ----- The class

  class DataPackagesResponseStorage {
    var entries: map<int, DataPackagesResponseCache>
    const config: Config

    ghost function Caches(): set<object>
      reads this
    {
      entries.Values
    }

    ghost function ResponseObjects(): set<object>
      reads this, Caches()
    {
      set t | t in entries && entries[t].response != null :: entries[t].response as object
    }

    ghost predicate Valid()
      reads this, Caches()
    {
      forall t, u :: t in entries && u in entries && t != u ==> entries[t] != entries[u]
    }

    ghost function View(): StorageState
      reads this, Caches(), ResponseObjects()
    {
      map t | t in entries :: entries[t].View()
    }

    constructor (config: Config)
      ensures Valid() && View() == map[] && this.config == config
    {
      this.config := config;
      entries := map[];
    }

    method Clear()
      modifies this
      ensures Valid() && View() == map[]
    {
      entries := map[];
    }

    method PurgeStale(now: int)
      requires Valid()
      modifies this
      ensures Valid()
      ensures entries == map t | t in old(entries) && now <= t + config.ttlMs :: old(entries)[t]
      ensures View() == Purged(old(View()), config, now) && Caches() <= old(Caches())
    {
      var timestamps := entries.Keys;
      while timestamps != {}
        invariant timestamps <= old(entries).Keys
        invariant entries ==
                  map t | t in old(entries) && (t in timestamps || !IsStale(t, config, now)) :: old(entries)[t]
        decreases timestamps
      {
        NonEmpty(timestamps);
        var timestamp :| timestamp in timestamps;
        if IsStale(timestamp, config, now) {
          entries := entries - {timestamp};
        }
        timestamps := timestamps - {timestamp};
      }
    }

    method GetLatestEntry(now: int) returns (cache: DataPackagesResponseCache?)
      requires Valid()
      ensures var key := LatestKey(entries.Keys, config, now);
              if key.Some? && key.value in entries then cache == entries[key.value] else cache == null
    {
      if config.latestTtlMs.None? || config.latestTtlMs.value == 0 || entries.Keys == {} {
        return null;
      }
      var timestamps := entries.Keys;
      NonEmpty(timestamps);
      var maxKey :| maxKey in timestamps;
      while timestamps != {}
        invariant timestamps <= entries.Keys && maxKey in entries
        invariant forall t :: t in entries && t !in timestamps ==> t <= maxKey
        decreases timestamps
      {
        NonEmpty(timestamps);
        var t :| t in timestamps;
        maxKey := if t > maxKey then t else maxKey;
        timestamps := timestamps - {t};
      }
      assert maxKey == MaxKey(entries.Keys);
      return if maxKey + config.latestTtlMs.value < now then null else entries[maxKey];
    }

    method FindEntry(params: RequestParams, now: int) returns (cache: DataPackagesResponseCache?)
      requires Valid()
      ensures var key := EntryKey(entries.Keys, params, config, now);
              if key.Some? then cache == entries[key.value] else cache == null
    {
      if params.historicalTimestamp.Some? && params.historicalTimestamp.value != 0 {
        var t := params.historicalTimestamp.value;
        cache := if t in entries then entries[t] else null;
      } else {
        cache := GetLatestEntry(now);
      }
    }

    method Get(params: RequestParams, now: int) returns (r: ResponseObject?)
      requires Valid()
      modifies this
      ensures Valid() && View() == Purged(old(View()), config, now) && Caches() <= old(Caches())
      ensures (if r == null then None else Some(r.entries)) == Answer(old(View()), params, config, now)
    {
      hide GetFrom, EntryKey, Purged, IsStale, NormalizeRequestParams;
      PurgeStale(now);
      assert View().Keys == entries.Keys;
      var cache := FindEntry(params, now);
      if cache == null {
        return null;
      }
      r := cache.Get(NormalizeRequestParams(params));
    }

    method ExtendEntry(timestamp: int, dataPackagesResponse: ResponseObject, params: RequestParams)
        returns (extended: bool)
      requires Valid() && timestamp in entries
      modifies entries[timestamp]
      ensures Valid() && View().Keys == old(View()).Keys && Caches() == old(Caches())
      ensures var c := MaybeExtended(old(View())[timestamp], old(dataPackagesResponse.entries), params);
              extended == c.1 && View() == old(View())[timestamp := c.0]
    {
      hide MaybeExtended;
      ghost var before := View();
      extended := entries[timestamp].MaybeExtend(dataPackagesResponse, params);
      assert forall t :: t in entries && t != timestamp ==> entries[t].View() == before[t];
    }

    method PutEntry(timestamp: int, dataPackagesResponse: ResponseObject, params: RequestParams)
      requires Valid()
      modifies this
      ensures Valid()
      ensures View() == old(View())[timestamp := CacheState(Some(dataPackagesResponse.entries), Some(params))]
      ensures fresh(Caches() - old(Caches()))
    {
      var added := new DataPackagesResponseCache(dataPackagesResponse, Some(params));
      entries := entries[timestamp := added];
    }

    method Set(dataPackagesResponse: ResponseObject, keys: seq<string>, params: RequestParams, now: int)
      requires Valid()
      modifies this, Caches()
      ensures Valid()
      ensures View() == AfterSet(old(View()), old(dataPackagesResponse.entries), keys, params, config, now)
      ensures fresh(Caches() - old(Caches()))
    {
      hide MaybeExtended, ResponseTimestamp, IsResponseEmpty, Purged;
      PurgeStale(now);
      if IsResponseEmpty(dataPackagesResponse.entries) {
        return;
      }
      var timestamp := ResponseTimestamp(dataPackagesResponse.entries, keys);
      var normalized := NormalizeRequestParams(params);
      ghost var purged := View();
      assert purged.Keys == entries.Keys;
      if timestamp in entries {
        var extended := ExtendEntry(timestamp, dataPackagesResponse, normalized);
        if extended {
          return;
        }
        assert View() == purged by {
          RefusedExtension(purged[timestamp], dataPackagesResponse.entries, normalized);
        }
      }
      PutEntry(timestamp, dataPackagesResponse, normalized);
    }
  }

  lemma RefusedExtension(c: CacheState, r: Response, params: RequestParams)
    ensures !MaybeExtended(c, r, params).1 ==> MaybeExtended(c, r, params).0 == c
  {
  }
}
