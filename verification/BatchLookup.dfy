/** Looking up many contract entries at once: cached values first, one request for the rest, realigned by key. */
module BatchLookups {
  import opened Wrappers
  import opened CacheWithTtls

  /** How inputs are keyed in the cache and in the contract, what the contract stores, and how it is parsed. */
  datatype Lookup<!K, !V> = Lookup(
    cacheKey: K -> string,
    contractKey: K -> string,
    ledger: map<string, string>,
    parse: string -> V)

  datatype LedgerEntry = LedgerEntry(key: string, data: string)

  /** The specification: looking one input up in the contract. */
  function Direct<K, V>(l: Lookup<K, V>, input: K): Option<V> {
    var key := l.contractKey(input);
    if key in l.ledger then Some(l.parse(l.ledger[key])) else None
  }

  // ----- The server's answer

  /** `new Map(entries...)`: the last entry of a key wins. */
  function ByKey(entries: seq<LedgerEntry>): map<string, LedgerEntry> {
    if entries == [] then map[]
    else
      var n := |entries| - 1;
      ByKey(entries[..n])[entries[n].key := entries[n]]
  }

  function Realigned(keys: seq<string>, entries: seq<LedgerEntry>): (r: seq<Option<LedgerEntry>>)
    ensures |r| == |keys|
  {
    if keys == [] then []
    else
      var byKey := ByKey(entries);
      seq(|keys|, i requires 0 <= i < |keys| => if keys[i] in byKey then Some(byKey[keys[i]]) else None)
  }

  /** Any order, any repetition, as long as entries are the ledger's. */
  ghost predicate Honest(ledger: map<string, string>, entries: seq<LedgerEntry>) {
    forall e :: e in entries ==> e.key in ledger && e.data == ledger[e.key]
  }

  ghost predicate Answers(entries: seq<LedgerEntry>, key: string) {
    exists e :: e in entries && e.key == key
  }

  lemma {:induction false} ByKeyHolds(entries: seq<LedgerEntry>)
    ensures forall k :: k in ByKey(entries) ==> ByKey(entries)[k] in entries && ByKey(entries)[k].key == k
    ensures forall e :: e in entries ==> e.key in ByKey(entries)
  {
    if entries != [] {
      ByKeyHolds(entries[..|entries| - 1]);
    }
  }

  /** Whatever the order of an honest answer, each requested key gets its own entry, or none if it was not answered. */
  lemma RealignedIsLedger(ledger: map<string, string>, keys: seq<string>, entries: seq<LedgerEntry>, i: nat)
    requires Honest(ledger, entries) && i < |keys|
    ensures var r := Realigned(keys, entries)[i];
            && (r.Some? <==> Answers(entries, keys[i]))
            && (r.Some? ==> keys[i] in ledger && r.value.data == ledger[keys[i]])
  {
    ByKeyHolds(entries);
  }

  // ----- What a batch answers and stores

  /** A batch whose request is awaited: its inputs and what the cache held for them. */
  datatype Pending<K, V> = Pending(inputs: seq<K>, cached: seq<Option<V>>, missing: seq<K>)

  function Keys<K, V>(l: Lookup<K, V>, inputs: seq<K>): seq<string> {
    seq(|inputs|, i requires 0 <= i < |inputs| => l.contractKey(inputs[i]))
  }

  function ParsedEntry<K, V>(l: Lookup<K, V>, entry: Option<LedgerEntry>): Option<V> {
    if entry.Some? then Some(l.parse(entry.value.data)) else None
  }

  /** The entry the answer holds for one input. */
  function Served<K, V>(l: Lookup<K, V>, entries: seq<LedgerEntry>, input: K): Option<V> {
    var byKey := ByKey(entries);
    if l.contractKey(input) in byKey then Some(l.parse(byKey[l.contractKey(input)].data)) else None
  }

  function Missing<K, V>(l: Lookup<K, V>, cache: map<string, CacheEntry<V>>, ttlMs: int, now: int, inputs: seq<K>)
      : seq<K>
  {
    if inputs == [] then []
    else
      var n := |inputs| - 1;
      Missing(l, cache, ttlMs, now, inputs[..n]) +
      (if Cached(cache, ttlMs, l.cacheKey(inputs[n]), now).None? then [inputs[n]] else [])
  }

  function Stored<K, V>(l: Lookup<K, V>, cache: map<string, CacheEntry<V>>, entries: seq<LedgerEntry>,
                        missing: seq<K>, now: int): map<string, CacheEntry<V>> {
    if missing == [] then cache
    else
      var n := |missing| - 1;
      var before := Stored(l, cache, entries, missing[..n], now);
      var served := Served(l, entries, missing[n]);
      if served.Some? then before[l.cacheKey(missing[n]) := CacheEntry(served.value, now)] else before
  }

  function CachedAll<K, V>(l: Lookup<K, V>, cache: map<string, CacheEntry<V>>, ttlMs: int, now: int, inputs: seq<K>)
      : (r: seq<Option<V>>)
    ensures |r| == |inputs| && forall i :: 0 <= i < |r| ==> r[i] == Cached(cache, ttlMs, l.cacheKey(inputs[i]), now)
  {
    seq(|inputs|, i requires 0 <= i < |inputs| => Cached(cache, ttlMs, l.cacheKey(inputs[i]), now))
  }

  /** The batch once it has read the cache. */
  function Begun<K, V>(l: Lookup<K, V>, cache: map<string, CacheEntry<V>>, ttlMs: int, now: int, inputs: seq<K>)
      : Pending<K, V>
  {
    Pending(inputs, CachedAll(l, cache, ttlMs, now, inputs), Missing(l, cache, ttlMs, now, inputs))
  }

  /** What a finished batch answers: the cached value if there was one, otherwise the server's. */
  function Answered<K, V>(l: Lookup<K, V>, p: Pending<K, V>, entries: seq<LedgerEntry>, i: nat): Option<V>
    requires i < |p.cached| && i < |p.inputs|
  {
    if p.cached[i].Some? then p.cached[i] else Served(l, entries, p.inputs[i])
  }

  /** The server returns the ledger's entries of the requested keys, in any order. */
  ghost predicate ServerCorrect<K, V>(l: Lookup<K, V>, requested: seq<K>, entries: seq<LedgerEntry>) {
    && Honest(l.ledger, entries)
    && forall x :: x in requested && l.contractKey(x) in l.ledger ==> Answers(entries, l.contractKey(x))
  }

  /** Every cached value is the contract's answer for each input with its key. */
  ghost predicate Coherent<K(!new), V(!new)>(l: Lookup<K, V>, cache: map<string, CacheEntry<V>>) {
    forall x :: l.cacheKey(x) in cache ==> Direct(l, x) == Some(cache[l.cacheKey(x)].value)
  }

  lemma ServedIsDirect<K(!new), V(!new)>(l: Lookup<K, V>, entries: seq<LedgerEntry>, input: K)
    requires Honest(l.ledger, entries)
    ensures Served(l, entries, input).Some? ==> Served(l, entries, input) == Direct(l, input)
    ensures (l.contractKey(input) in l.ledger ==> Answers(entries, l.contractKey(input))) ==>
              Served(l, entries, input) == Direct(l, input)
  {
    ByKeyHolds(entries);
  }

  lemma {:induction false} MissingInputs<K(!new), V(!new)>(
    l: Lookup<K, V>, cache: map<string, CacheEntry<V>>, ttlMs: int, now: int, inputs: seq<K>)
    ensures forall i :: 0 <= i < |inputs| && Cached(cache, ttlMs, l.cacheKey(inputs[i]), now).None? ==>
              inputs[i] in Missing(l, cache, ttlMs, now, inputs)
  {
    if inputs != [] {
      MissingInputs(l, cache, ttlMs, now, inputs[..|inputs| - 1]);
    }
  }

  /** What an awaited batch already holds is right, and everything else is requested. */
  ghost predicate Sound<K(!new), V(!new)>(l: Lookup<K, V>, p: Pending<K, V>) {
    && |p.cached| == |p.inputs|
    && forall i :: 0 <= i < |p.inputs| ==>
         (if p.cached[i].Some? then p.cached[i] == Direct(l, p.inputs[i]) else p.inputs[i] in p.missing)
  }

  lemma BegunIsSound<K(!new), V(!new)>(
    l: Lookup<K, V>, cache: map<string, CacheEntry<V>>, ttlMs: int, now: int, inputs: seq<K>)
    requires Coherent(l, cache)
    ensures Sound(l, Begun(l, cache, ttlMs, now, inputs))
  {
    MissingInputs(l, cache, ttlMs, now, inputs);
    hide Direct, Missing;
  }

  /** A sound batch whose server answers correctly is the pointwise lookup of its inputs. */
  lemma SoundAnswers<K(!new), V(!new)>(l: Lookup<K, V>, p: Pending<K, V>, entries: seq<LedgerEntry>)
    requires Sound(l, p) && ServerCorrect(l, p.missing, entries)
    ensures forall i :: 0 <= i < |p.inputs| ==> Answered(l, p, entries, i) == Direct(l, p.inputs[i])
  {
    hide Served, Direct;
    forall i | 0 <= i < |p.inputs| ensures Answered(l, p, entries, i) == Direct(l, p.inputs[i]) {
      ServedIsDirect(l, entries, p.inputs[i]);
    }
  }

  /** The batch answers what was cached and otherwise what is served. */
  lemma BegunAnswers<K, V>(l: Lookup<K, V>, cache: map<string, CacheEntry<V>>, ttlMs: int, now: int, inputs: seq<K>,
                           entries: seq<LedgerEntry>)
    ensures var p := Begun(l, cache, ttlMs, now, inputs);
            && |p.cached| == |p.inputs| == |inputs|
            && forall i :: 0 <= i < |inputs| ==>
                 var cached := Cached(cache, ttlMs, l.cacheKey(inputs[i]), now);
                 Answered(l, p, entries, i) == if cached.Some? then cached else Served(l, entries, inputs[i])
  {
    hide Cached, Missing, Served;
  }

  /** From a coherent cache, with a correct server, a batch answers the pointwise lookup. */
  lemma DirectAnswers<K(!new), V(!new)>(l: Lookup<K, V>, cache: map<string, CacheEntry<V>>, ttlMs: int, now: int,
                                        inputs: seq<K>, entries: seq<LedgerEntry>)
    ensures Coherent(l, cache) && ServerCorrect(l, Missing(l, cache, ttlMs, now, inputs), entries) ==>
              forall i :: 0 <= i < |inputs| ==>
                Answered(l, Begun(l, cache, ttlMs, now, inputs), entries, i) == Direct(l, inputs[i])
  {
    hide Coherent, ServerCorrect, Direct, Served, Missing, Cached, Sound, Answered;
    if Coherent(l, cache) && ServerCorrect(l, Missing(l, cache, ttlMs, now, inputs), entries) {
      BegunIsSound(l, cache, ttlMs, now, inputs);
      SoundAnswers(l, Begun(l, cache, ttlMs, now, inputs), entries);
    }
  }

  /** The server has an answer for a missing input with the key. */
  ghost predicate ServesKey<K(!new), V(!new)>(l: Lookup<K, V>, entries: seq<LedgerEntry>, missing: seq<K>, key: string)
  {
    exists j :: 0 <= j < |missing| && l.cacheKey(missing[j]) == key && Served(l, entries, missing[j]).Some?
  }

  ghost predicate ServedFor<K(!new), V(!new)>(l: Lookup<K, V>, entries: seq<LedgerEntry>, missing: seq<K>, key: string,
                                              value: V)
  {
    exists j :: 0 <= j < |missing| && l.cacheKey(missing[j]) == key && Served(l, entries, missing[j]) == Some(value)
  }

  lemma ServesNext<K(!new), V(!new)>(l: Lookup<K, V>, entries: seq<LedgerEntry>, missing: seq<K>, key: string)
    requires missing != []
    ensures var n := |missing| - 1;
            && (ServesKey(l, entries, missing, key) <==>
                ServesKey(l, entries, missing[..n], key) ||
                (l.cacheKey(missing[n]) == key && Served(l, entries, missing[n]).Some?))
            && (forall value :: ServedFor(l, entries, missing[..n], key, value) ==>
                  ServedFor(l, entries, missing, key, value))
            && (l.cacheKey(missing[n]) == key && Served(l, entries, missing[n]).Some? ==>
                  ServedFor(l, entries, missing, key, Served(l, entries, missing[n]).value))
  {
    hide Served;
    var n := |missing| - 1;
    assert forall j :: 0 <= j < n ==> missing[..n][j] == missing[j];
  }

  /** What is stored: with the time, a served value of a missing input that has the key; every other key stays. */
  lemma {:induction false} StoredExactly<K(!new), V(!new)>(
    l: Lookup<K, V>, cache: map<string, CacheEntry<V>>, entries: seq<LedgerEntry>, missing: seq<K>, now: int,
    key: string)
    ensures var stored := Stored(l, cache, entries, missing, now);
            if ServesKey(l, entries, missing, key)
            then key in stored && stored[key].setOn == now && ServedFor(l, entries, missing, key, stored[key].value)
            else (key in stored <==> key in cache) && (key in cache ==> stored[key] == cache[key])
  {
    hide Served, ServedFor;
    if missing != [] {
      StoredExactly(l, cache, entries, missing[..|missing| - 1], now, key);
      ServesNext(l, entries, missing, key);
      hide ServesKey;
    }
  }

  lemma ServedIsRealigned<K, V>(l: Lookup<K, V>, inputs: seq<K>, entries: seq<LedgerEntry>, i: nat)
    requires i < |inputs|
    ensures ParsedEntry(l, Realigned(Keys(l, inputs), entries)[i]) == Served(l, entries, inputs[i])
  {
  }

  /** Where each missing input came from. */
  ghost predicate Scattered<K>(inputs: seq<K>, indices: seq<nat>, missing: seq<K>, upTo: nat) {
    && |indices| == |missing| && upTo <= |inputs|
    && (forall j :: 0 <= j < |indices| ==> indices[j] < upTo && missing[j] == inputs[indices[j]])
    && (forall j, k :: 0 <= j < k < |indices| ==> indices[j] < indices[k])
  }

  /** What both loops leave in the results is what the batch answers. */
  lemma AnswersOfBatch<K(!new), V(!new)>(
    l: Lookup<K, V>, cache: map<string, CacheEntry<V>>, ttlMs: int, now: int, inputs: seq<K>,
    entries: seq<LedgerEntry>, found: seq<Option<V>>, missingIndices: seq<nat>, answers: seq<Option<V>>)
    requires |found| == |answers| == |inputs| && forall i :: i in missingIndices ==> i < |inputs|
    requires forall i :: 0 <= i < |inputs| ==> found[i] == Cached(cache, ttlMs, l.cacheKey(inputs[i]), now)
    requires forall i :: 0 <= i < |inputs| ==> (i in missingIndices <==> found[i].None?)
    requires forall i :: i in missingIndices ==> answers[i] == Served(l, entries, inputs[i])
    requires forall i :: 0 <= i < |inputs| && i !in missingIndices ==> answers[i] == found[i]
    ensures var p := Begun(l, cache, ttlMs, now, inputs);
            && |p.cached| == |p.inputs| == |inputs|
            && forall i :: 0 <= i < |inputs| ==> answers[i] == Answered(l, p, entries, i)
    ensures Coherent(l, cache) && ServerCorrect(l, Missing(l, cache, ttlMs, now, inputs), entries) ==>
              forall i :: 0 <= i < |inputs| ==> answers[i] == Direct(l, inputs[i])
  {
    DirectAnswers(l, cache, ttlMs, now, inputs, entries);
    BegunAnswers(l, cache, ttlMs, now, inputs, entries);
    hide *;
  }

  /**
   * The batch. `entries` is what the server answers, `meanwhile` the cache as the other users leave it while
   * the request is awaited, `now` and `later` the clock before and after.
   */
  method BatchLookup<K(!new), V(!new)>(l: Lookup<K, V>, inputs: seq<K>, cache: CacheWithTtl<V>, now: int,
                                       entries: seq<LedgerEntry>, meanwhile: map<string, CacheEntry<V>>, later: int)
      returns (answers: seq<Option<V>>)
    modifies cache
    ensures |answers| == |inputs|
    ensures var p := Begun(l, old(cache.cache), cache.ttlMs, now, inputs);
            forall i :: 0 <= i < |inputs| ==> answers[i] == Answered(l, p, entries, i)
    ensures Coherent(l, old(cache.cache)) &&
            ServerCorrect(l, Missing(l, old(cache.cache), cache.ttlMs, now, inputs), entries) ==>
              forall i :: 0 <= i < |inputs| ==> answers[i] == Direct(l, inputs[i])
    ensures var missing := Missing(l, old(cache.cache), cache.ttlMs, now, inputs);
            cache.cache == if missing == [] then old(cache.cache) else Stored(l, meanwhile, entries, missing, later)
  {
    hide *;
    var results := new Option<V>[|inputs|](_ => None);
    ghost var before := cache.cache;
    var missingIndices, missingInputs := ReadCached(l, inputs, cache, now, results);
    ghost var found := results[..];
    if missingInputs == [] {
      AnswersOfBatch(l, before, cache.ttlMs, now, inputs, entries, found, missingIndices, found);
      return results[..];
    }
    cache.cache := meanwhile;
    StoreAnswers(l, inputs, cache, meanwhile, entries, later, missingIndices, missingInputs, results);
    answers := results[..];
    AnswersOfBatch(l, before, cache.ttlMs, now, inputs, entries, found, missingIndices, answers);
  }

  /** The first loop: fill in what is cached, and note the indices and inputs that are missing. */
  method ReadCached<K, V>(l: Lookup<K, V>, inputs: seq<K>, cache: CacheWithTtl<V>, now: int, results: array<Option<V>>)
      returns (missingIndices: seq<nat>, missingInputs: seq<K>)
    requires results.Length == |inputs|
    modifies cache, results
    ensures Scattered(inputs, missingIndices, missingInputs, |inputs|)
    ensures |missingIndices| == |missingInputs| && forall i :: i in missingIndices ==> i < |inputs|
    ensures missingInputs == Missing(l, old(cache.cache), cache.ttlMs, now, inputs)
    ensures missingInputs == [] ==> cache.cache == old(cache.cache)
    ensures forall i :: 0 <= i < |inputs| ==>
              results[i] == Cached(old(cache.cache), cache.ttlMs, l.cacheKey(inputs[i]), now)
    ensures forall i :: 0 <= i < |inputs| ==> (i in missingIndices <==> results[i].None?)
  {
    ghost var before := cache.cache;
    missingIndices, missingInputs := [], [];
    assert Missing(l, before, cache.ttlMs, now, inputs[..0]) == [];
    assert Scattered(inputs, missingIndices, missingInputs, 0);
    hide Cached, Missing, Scattered;
    for i := 0 to |inputs|
      invariant Scattered(inputs, missingIndices, missingInputs, i)
      invariant missingInputs == Missing(l, before, cache.ttlMs, now, inputs[..i])
      invariant forall k :: Cached(cache.cache, cache.ttlMs, k, now) == Cached(before, cache.ttlMs, k, now)
      invariant forall k :: 0 <= k < i ==> results[k] == Cached(before, cache.ttlMs, l.cacheKey(inputs[k]), now)
      invariant forall k :: 0 <= k < i ==> (k in missingIndices <==> results[k].None?)
      invariant missingInputs == [] ==> cache.cache == before
    {
      ScatteredNext(inputs, missingIndices, missingInputs, i);
      var cached := cache.Get(l.cacheKey(inputs[i]), now);
      MissingStep(l, before, cache.ttlMs, now, inputs, i);
      results[i] := cached;
      if cached.None? {
        missingIndices := missingIndices + [i];
        missingInputs := missingInputs + [inputs[i]];
      }
    }
    assert inputs[..|inputs|] == inputs;
    ScatteredWithin(inputs, missingIndices, missingInputs);
  }

  lemma ScatteredWithin<K>(inputs: seq<K>, indices: seq<nat>, missing: seq<K>)
    requires Scattered(inputs, indices, missing, |inputs|)
    ensures |indices| == |missing| && forall i :: i in indices ==> i < |inputs|
  {
  }

  lemma ScatteredNext<K>(inputs: seq<K>, indices: seq<nat>, missing: seq<K>, i: nat)
    requires i < |inputs| && Scattered(inputs, indices, missing, i)
    ensures Scattered(inputs, indices, missing, i + 1)
    ensures Scattered(inputs, indices + [i], missing + [inputs[i]], i + 1)
    ensures i !in indices
  {
  }

  lemma MissingStep<K, V>(l: Lookup<K, V>, cache: map<string, CacheEntry<V>>, ttlMs: int, now: int, inputs: seq<K>,
                          i: nat)
    requires i < |inputs|
    ensures Missing(l, cache, ttlMs, now, inputs[..i + 1]) ==
            Missing(l, cache, ttlMs, now, inputs[..i]) +
            (if Cached(cache, ttlMs, l.cacheKey(inputs[i]), now).None? then [inputs[i]] else [])
  {
    assert inputs[..i + 1][..i] == inputs[..i];
  }

  /** The second loop: write each realigned answer to its index and store it in the cache. */
  method StoreAnswers<K, V>(l: Lookup<K, V>, inputs: seq<K>, cache: CacheWithTtl<V>,
                            ghost meanwhile: map<string, CacheEntry<V>>, serverEntries: seq<LedgerEntry>, later: int,
                            missingIndices: seq<nat>, missingInputs: seq<K>, results: array<Option<V>>)
    requires results.Length == |inputs| && Scattered(inputs, missingIndices, missingInputs, |inputs|)
    requires cache.cache == meanwhile
    modifies cache, results
    ensures cache.cache == Stored(l, meanwhile, serverEntries, missingInputs, later)
    ensures forall j :: 0 <= j < |missingIndices| ==>
              results[missingIndices[j]] == Served(l, serverEntries, inputs[missingIndices[j]])
    ensures forall k :: 0 <= k < |inputs| && k !in missingIndices ==> results[k] == old(results[k])
  {
    var entries := Realigned(Keys(l, missingInputs), serverEntries);
    for j := 0 to |entries|
      invariant cache.cache == Stored(l, meanwhile, serverEntries, missingInputs[..j], later)
      invariant forall k :: 0 <= k < j ==> results[missingIndices[k]] == Served(l, serverEntries, missingInputs[k])
      invariant forall k :: 0 <= k < |inputs| && k !in missingIndices ==> results[k] == old(results[k])
    {
      var targetIndex := missingIndices[j];
      ServedIsRealigned(l, missingInputs, serverEntries, j);
      hide Served, Realigned, Keys;
      assert missingInputs[..j + 1][..j] == missingInputs[..j];
      if entries[j].None? {
        results[targetIndex] := None;
        continue;
      }
      var value := l.parse(entries[j].value.data);
      cache.Set(l.cacheKey(missingInputs[j]), value, later);
      results[targetIndex] := Some(value);
    }
    assert missingInputs[..|entries|] == missingInputs;
  }
}
