/** Overlapping batch lookups on one cache: every batch is the pointwise lookup of its inputs. */
module BatchRuns {
  import opened Wrappers
  import opened CacheWithTtls
  import opened BatchLookups

  datatype State<K, V> = State(cache: map<string, CacheEntry<V>>, pending: seq<Pending<K, V>>)

  /** A batch reads the cache; its answer arrives and is stored; entries are dropped, at any time. */
  datatype Event<K> =
    | Begin(inputs: seq<K>, now: int)
    | Finish(k: nat, entries: seq<LedgerEntry>, later: int)
    | Drop(keys: set<string>)

  ghost predicate Enabled<K, V>(l: Lookup<K, V>, s: State<K, V>, e: Event<K>) {
    e.Finish? ==> e.k < |s.pending| && ServerCorrect(l, s.pending[e.k].missing, e.entries)
  }

  /** `BatchLookup` cut at its await. */
  function Step<K, V>(l: Lookup<K, V>, ttlMs: int, s: State<K, V>, e: Event<K>): State<K, V>
    requires e.Finish? ==> e.k < |s.pending|
  {
    match e
    case Begin(inputs, now) =>
      s.(pending := s.pending + [Begun(l, s.cache, ttlMs, now, inputs)])
    case Finish(k, entries, later) =>
      State(Stored(l, s.cache, entries, s.pending[k].missing, later), s.pending[..k] + s.pending[k + 1..])
    case Drop(keys) => s.(cache := s.cache - keys)
  }

  ghost predicate Run<K(!new), V(!new)>(l: Lookup<K, V>, ttlMs: int, events: seq<Event<K>>, s: State<K, V>)
    decreases |events|
  {
    if events == [] then s == State(map[], [])
    else
      var n := |events| - 1;
      exists before :: Run(l, ttlMs, events[..n], before) && Enabled(l, before, events[n]) &&
                       s == Step(l, ttlMs, before, events[n])
  }

  // ----- Coherence

  /** Equal cache keys never stand for different answers of the contract. */
  ghost predicate KeysIdentify<K(!new), V(!new)>(l: Lookup<K, V>) {
    forall x, y :: l.cacheKey(x) == l.cacheKey(y) ==> Direct(l, x) == Direct(l, y)
  }

  lemma {:induction false} StoredCoherent<K(!new), V(!new)>(
    l: Lookup<K, V>, cache: map<string, CacheEntry<V>>, entries: seq<LedgerEntry>, missing: seq<K>, now: int)
    requires KeysIdentify(l) && Coherent(l, cache) && Honest(l.ledger, entries)
    ensures Coherent(l, Stored(l, cache, entries, missing, now))
  {
    if missing != [] {
      var n := |missing| - 1;
      StoredCoherent(l, cache, entries, missing[..n], now);
      ServedIsDirect(l, entries, missing[n]);
      hide Served, Direct, Honest;
    }
  }

  ghost predicate Invariant<K(!new), V(!new)>(l: Lookup<K, V>, s: State<K, V>) {
    Coherent(l, s.cache) && forall k :: 0 <= k < |s.pending| ==> Sound(l, s.pending[k])
  }

  lemma StepKeeps<K(!new), V(!new)>(l: Lookup<K, V>, ttlMs: int, s: State<K, V>, e: Event<K>)
    requires KeysIdentify(l) && Invariant(l, s) && Enabled(l, s, e)
    ensures Invariant(l, Step(l, ttlMs, s, e))
  {
    hide Sound, KeysIdentify;
    match e {
      case Begin(inputs, now) =>
        BegunIsSound(l, s.cache, ttlMs, now, inputs);
        hide Coherent;
      case Finish(k, entries, later) =>
        StoredCoherent(l, s.cache, entries, s.pending[k].missing, later);
        hide Coherent, Stored;
      case Drop(keys) =>
    }
  }

  lemma {:induction false} RunKeeps<K(!new), V(!new)>(l: Lookup<K, V>, ttlMs: int, events: seq<Event<K>>,
                                                      s: State<K, V>)
    requires KeysIdentify(l) && Run(l, ttlMs, events, s)
    ensures Invariant(l, s)
    decreases |events|
  {
    hide Invariant, KeysIdentify, Step, ServerCorrect;
    if events == [] {
      InitialHolds(l);
    } else {
      var n := |events| - 1;
      var before :| Run(l, ttlMs, events[..n], before) && Enabled(l, before, events[n]) &&
                    s == Step(l, ttlMs, before, events[n]);
      RunKeeps(l, ttlMs, events[..n], before);
      StepKeeps(l, ttlMs, before, events[n]);
    }
  }

  lemma InitialHolds<K(!new), V(!new)>(l: Lookup<K, V>)
    ensures Invariant(l, State(map[], []))
  {
  }

  /** A batch stays awaited through every step but its own end, in the order the batches began. */
  lemma OthersStay<K(!new), V(!new)>(l: Lookup<K, V>, ttlMs: int, s: State<K, V>, e: Event<K>, j: nat)
    requires j < |s.pending| && Enabled(l, s, e) && (e.Finish? ==> j != e.k)
    ensures var after := Step(l, ttlMs, s, e).pending; var at := if e.Finish? && j > e.k then j - 1 else j;
            at < |after| && after[at] == s.pending[j]
    ensures e.Begin? ==> |Step(l, ttlMs, s, e).pending| == |s.pending| + 1
    ensures e.Finish? ==> |Step(l, ttlMs, s, e).pending| == |s.pending| - 1
  {
    hide Stored, Missing, Served, ServerCorrect;
  }

  /** Every batch of the run is the pointwise lookup of its inputs, duplicates included. */
  ghost predicate FinishesRight<K(!new), V(!new)>(l: Lookup<K, V>, s: State<K, V>, e: Event<K>)
    requires e.Finish? && e.k < |s.pending|
  {
    var p := s.pending[e.k];
    forall i :: 0 <= i < |p.inputs| && i < |p.cached| ==> Answered(l, p, e.entries, i) == Direct(l, p.inputs[i])
  }

  ghost predicate AlwaysPointwise<K(!new), V(!new)>(l: Lookup<K, V>, ttlMs: int) {
    forall events: seq<Event<K>>, s: State<K, V>, e: Event<K> ::
      Run(l, ttlMs, events, s) && e.Finish? && Enabled(l, s, e) ==> FinishesRight(l, s, e)
  }

  lemma BatchIsPointwise<K(!new), V(!new)>(l: Lookup<K, V>, ttlMs: int, events: seq<Event<K>>, s: State<K, V>,
                                           e: Event<K>)
    requires KeysIdentify(l) && Run(l, ttlMs, events, s) && e.Finish? && Enabled(l, s, e)
    ensures FinishesRight(l, s, e)
  {
    RunKeeps(l, ttlMs, events, s);
    var p := s.pending[e.k];
    assert Sound(l, p);
    hide Served, Direct, Run, KeysIdentify, Sound, ServerCorrect;
    SoundAnswers(l, p, e.entries);
  }

  // ----- Exactly when

  lemma RunStep<K(!new), V(!new)>(l: Lookup<K, V>, ttlMs: int, events: seq<Event<K>>, s: State<K, V>, e: Event<K>)
    requires Run(l, ttlMs, events, s) && Enabled(l, s, e)
    ensures Run(l, ttlMs, events + [e], Step(l, ttlMs, s, e))
  {
    assert (events + [e])[..|events|] == events;
    hide Step, Enabled;
  }

  /** After x is looked up and stored, y is answered with x's value. */
  lemma CollisionShows<K(!new), V(!new)>(l: Lookup<K, V>, ttlMs: int, x: K, y: K)
    requires ttlMs > 0 && l.cacheKey(x) == l.cacheKey(y) && Direct(l, x).Some? && Direct(l, x) != Direct(l, y)
    ensures !AlwaysPointwise(l, ttlMs)
  {
    var entry := LedgerEntry(l.contractKey(x), l.ledger[l.contractKey(x)]);
    var value := l.parse(entry.data);
    var events := SecondBatch(l, ttlMs, x, y, entry);
    HitAnswers(l, map[l.cacheKey(x) := CacheEntry(value, 0)], y, Some(value));
    var hit := State(map[l.cacheKey(x) := CacheEntry(value, 0)], [Pending([y], [Some(value)], [])]);
    hide Run, Enabled, FinishesRight;
    assert Run(l, ttlMs, events, hit) && Enabled(l, hit, Finish(0, [], 0)) && !FinishesRight(l, hit, Finish(0, [], 0));
  }

  /** The run that looks x up, stores it, and begins to look y up. */
  lemma SecondBatch<K(!new), V(!new)>(l: Lookup<K, V>, ttlMs: int, x: K, y: K, entry: LedgerEntry)
      returns (events: seq<Event<K>>)
    requires ttlMs > 0 && l.cacheKey(x) == l.cacheKey(y)
    requires entry.key == l.contractKey(x) && entry.key in l.ledger && entry.data == l.ledger[entry.key]
    ensures var value := l.parse(entry.data);
            Run(l, ttlMs, events, State(map[l.cacheKey(x) := CacheEntry(value, 0)], [Pending([y], [Some(value)], [])]))
  {
    var value := l.parse(entry.data);
    var asked := State<K, V>.State(map[], [Pending([x], [None], [x])]);
    var stored := State<K, V>.State(map[l.cacheKey(x) := CacheEntry(value, 0)], []);
    FirstAsks(l, ttlMs, x);
    FirstStores(l, ttlMs, x, entry);
    SecondHits(l, ttlMs, stored.cache, y, Some(value));
    RunStep(l, ttlMs, [], State(map[], []), Begin([x], 0));
    hide Step, Run;
    events := [] + [Begin([x], 0)];
    RunStep(l, ttlMs, events, asked, Finish(0, [entry], 0));
    events := events + [Finish(0, [entry], 0)];
    RunStep(l, ttlMs, events, stored, Begin([y], 0));
    events := events + [Begin([y], 0)];
  }

  lemma HitAnswers<K(!new), V(!new)>(l: Lookup<K, V>, cache: map<string, CacheEntry<V>>, y: K, value: Option<V>)
    requires value.Some? && value != Direct(l, y)
    ensures var hit := State(cache, [Pending([y], [value], [])]);
            Enabled(l, hit, Finish(0, [], 0)) && !FinishesRight(l, hit, Finish(0, [], 0))
  {
    assert Answered(l, Pending([y], [value], []), [], 0) == value;
  }

  lemma FirstAsks<K(!new), V(!new)>(l: Lookup<K, V>, ttlMs: int, x: K)
    ensures Step(l, ttlMs, State<K, V>.State(map[], []), Begin([x], 0)) == State(map[], [Pending([x], [None], [x])])
  {
    var empty: map<string, CacheEntry<V>> := map[];
    assert CachedAll(l, empty, ttlMs, 0, [x]) == [None];
    assert Missing(l, empty, ttlMs, 0, [x]) == Missing(l, empty, ttlMs, 0, [x][..0]) + [x] == [x];
  }

  lemma FirstStores<K(!new), V(!new)>(l: Lookup<K, V>, ttlMs: int, x: K, entry: LedgerEntry)
    requires entry.key == l.contractKey(x) && entry.key in l.ledger && entry.data == l.ledger[entry.key]
    ensures var asked := State<K, V>.State(map[], [Pending([x], [None], [x])]);
            && Enabled(l, asked, Finish(0, [entry], 0))
            && Step(l, ttlMs, asked, Finish(0, [entry], 0)) ==
                 State(map[l.cacheKey(x) := CacheEntry(l.parse(entry.data), 0)], [])
  {
    var none: map<string, CacheEntry<V>> := map[];
    assert ByKey([entry]) == ByKey([entry][..0])[entry.key := entry];
    assert Stored(l, none, [entry], [x], 0) ==
           Stored(l, none, [entry], [x][..0], 0)[l.cacheKey(x) := CacheEntry(l.parse(entry.data), 0)];
    assert entry in [entry];
  }

  lemma SecondHits<K(!new), V(!new)>(
    l: Lookup<K, V>, ttlMs: int, cache: map<string, CacheEntry<V>>, y: K, value: Option<V>)
    requires Cached(cache, ttlMs, l.cacheKey(y), 0) == value && value.Some?
    ensures Step(l, ttlMs, State(cache, []), Begin([y], 0)) == State(cache, [Pending([y], [value], [])])
  {
    assert CachedAll(l, cache, ttlMs, 0, [y]) == [value];
    assert Missing(l, cache, ttlMs, 0, [y]) == Missing(l, cache, ttlMs, 0, [y][..0]) + [] == [];
  }

  lemma SomeCollisionShows<K(!new), V(!new)>(l: Lookup<K, V>, ttlMs: int)
    requires exists x, y :: l.cacheKey(x) == l.cacheKey(y) && Direct(l, x) != Direct(l, y)
    requires ttlMs > 0
    ensures !AlwaysPointwise(l, ttlMs)
  {
    var x, y :| l.cacheKey(x) == l.cacheKey(y) && Direct(l, x) != Direct(l, y);
    if Direct(l, x).Some? {
      CollisionShows(l, ttlMs, x, y);
    } else {
      CollisionShows(l, ttlMs, y, x);
    }
  }

  lemma IdentifyingKeysSuffice<K(!new), V(!new)>(l: Lookup<K, V>, ttlMs: int)
    requires KeysIdentify(l)
    ensures AlwaysPointwise(l, ttlMs)
  {
    hide KeysIdentify, FinishesRight;
    forall events: seq<Event<K>>, s: State<K, V>, e: Event<K> |
      Run(l, ttlMs, events, s) && e.Finish? && Enabled(l, s, e)
      ensures FinishesRight(l, s, e)
    {
      BatchIsPointwise(l, ttlMs, events, s, e);
    }
  }

  /**
   * Over every interleaving of batches on a cache that keeps entries, each batch is the pointwise lookup
   * exactly when equal cache keys never stand for different answers.
   */
  lemma PointwiseExactly<K(!new), V(!new)>(l: Lookup<K, V>, ttlMs: int)
    requires ttlMs > 0
    ensures AlwaysPointwise(l, ttlMs) <==> KeysIdentify(l)
  {
    if KeysIdentify(l) {
      IdentifyingKeysSuffice(l, ttlMs);
    } else {
      SomeCollisionShows(l, ttlMs);
    }
  }

  /**
   * The method is a batch of such a run: it begins on the cache it finds, others take steps while its request is
   * awaited, and it finishes on the cache they leave. Without missing inputs it does not wait and changes nothing.
   */
  method LookupInRun<K(!new), V(!new)>(l: Lookup<K, V>, inputs: seq<K>, cache: CacheWithTtl<V>, now: int,
                                       entries: seq<LedgerEntry>, ghost s: State<K, V>, ghost resumed: State<K, V>,
                                       ghost k: nat, meanwhile: map<string, CacheEntry<V>>, later: int)
      returns (answers: seq<Option<V>>)
    requires s.cache == cache.cache && resumed.cache == meanwhile
    requires var begun := Step(l, cache.ttlMs, s, Begin(inputs, now));
             k < |resumed.pending| && resumed.pending[k] == begun.pending[|s.pending|]
    modifies cache
    ensures var p := resumed.pending[k];
            && |answers| == |p.cached| == |p.inputs| == |inputs|
            && forall i :: 0 <= i < |inputs| ==> answers[i] == Answered(l, p, entries, i)
    ensures cache.cache == if resumed.pending[k].missing == [] then s.cache
                           else Step(l, cache.ttlMs, resumed, Finish(k, entries, later)).cache
  {
    hide Missing, Stored, Served;
    answers := BatchLookup(l, inputs, cache, now, entries, meanwhile, later);
  }

  // ----- The two lookups of the reader

  const MAX_SYMBOL_LENGTH: nat := 32
  const MIN_ADDRESS_LENGTH: nat := 56

  /** A contract symbol: an XDR `ScSymbol`. */
  type Symbol = s: string | |s| <= MAX_SYMBOL_LENGTH

  /** An address in its printed form, a strkey. */
  type Address = s: string | |s| >= MIN_ADDRESS_LENGTH witness seq(MIN_ADDRESS_LENGTH, _ => 'A')

  datatype Sep40Asset = Stellar(address: Address) | Other(symbol: Symbol)

  function AssetLabelFor(asset: Sep40Asset): string {
    if asset.Stellar? then asset.address else asset.symbol
  }

  /** No symbol spells an address, so a label stands for one asset. */
  lemma LabelsIdentifyAssets(x: Sep40Asset, y: Sep40Asset)
    ensures AssetLabelFor(x) == AssetLabelFor(y) <==> x == y
  {
  }

  /** Feed lookups cache by the feed itself: every batch is pointwise, over every interleaving. */
  lemma FeedLookupsArePointwise<V(!new)>(l: Lookup<string, V>, ttlMs: int)
    requires forall feed :: l.cacheKey(feed) == feed
    ensures AlwaysPointwise(l, ttlMs)
  {
    IdentifyingKeysSuffice(l, ttlMs);
  }

  /** Asset lookups cache by label: every batch is pointwise too, whatever the contract key and the ledger. */
  lemma AssetLookupsArePointwise<V(!new)>(l: Lookup<Sep40Asset, V>, ttlMs: int)
    requires forall asset :: l.cacheKey(asset) == AssetLabelFor(asset)
    ensures AlwaysPointwise(l, ttlMs)
  {
    hide AlwaysPointwise;
    forall x, y | l.cacheKey(x) == l.cacheKey(y) ensures Direct(l, x) == Direct(l, y) {
      LabelsIdentifyAssets(x, y);
    }
    IdentifyingKeysSuffice(l, ttlMs);
  }
}
