/** Choosing packages that cover the requested feeds: multi-point packages first, then single-feed ones. */
module PackageCover {
  import opened Wrappers
  import opened Sorting
  import opened Responses

  /** A defined entry of a response with the feeds that all its packages carry. */
  datatype Carrier = Carrier(key: string, feedIds: set<string>, packages: seq<PricePackage>)

  function Carriers(r: Response, keys: seq<string>): seq<Carrier> {
    if keys == [] then []
    else
      match Lookup(r, keys[0])
      case Some(packages) => [Carrier(keys[0], KeyFeedIds(keys[0], packages), packages)] + Carriers(r, keys[1..])
      case None => Carriers(r, keys[1..])
  }

  function MultiPointFirst(c: Carrier): real {
    if IsMultiPointDataPackageId(c.key) then 0.0 else 1.0
  }

  /** The greedy pass: an entry is kept when it carries a feed that is still missing. */
  function Retain(carriers: seq<Carrier>, remaining: set<string>): seq<Carrier> {
    if carriers == [] then []
    else if carriers[0].feedIds * remaining != {} then
      [carriers[0]] + Retain(carriers[1..], remaining - carriers[0].feedIds)
    else Retain(carriers[1..], remaining)
  }

  function FromEntries(carriers: seq<Carrier>): Response {
    if carriers == [] then map[]
    else
      var last := carriers[|carriers| - 1];
      FromEntries(carriers[..|carriers| - 1])[last.key := Some(last.packages)]
  }

  function FilterRetaining(r: Response, keys: seq<string>, requestedFeedIds: set<string>): Response {
    FromEntries(Retain(SortBy(Carriers(r, keys), MultiPointFirst), requestedFeedIds))
  }

  // ----- The greedy pass in closed form

  function CarriedBy(carriers: seq<Carrier>): set<string> {
    set i, f | 0 <= i < |carriers| && f in carriers[i].feedIds :: f
  }

  /** The entry carries a requested feed that no earlier entry carries, kept or not. */
  ghost predicate AddsFeed(carriers: seq<Carrier>, i: nat, requested: set<string>)
    requires i < |carriers|
  {
    exists f :: f in requested && f in carriers[i].feedIds && f !in CarriedBy(carriers[..i])
  }

  ghost function Adding(carriers: seq<Carrier>, from: nat, requested: set<string>): seq<Carrier>
    requires from <= |carriers|
    decreases |carriers| - from
  {
    if from == |carriers| then []
    else (if AddsFeed(carriers, from, requested) then [carriers[from]] else []) + Adding(carriers, from + 1, requested)
  }

  lemma {:induction false} RetainFrom(carriers: seq<Carrier>, from: nat, requested: set<string>)
    requires from <= |carriers|
    ensures Retain(carriers[from..], requested - CarriedBy(carriers[..from])) == Adding(carriers, from, requested)
    decreases |carriers| - from
  {
    if from < |carriers| {
      var remaining := requested - CarriedBy(carriers[..from]);
      var next := requested - CarriedBy(carriers[..from + 1]);
      CarriedNext(carriers, from);
      assert next == remaining - carriers[from].feedIds;
      assert carriers[from..][1..] == carriers[from + 1..];
      if AddsFeed(carriers, from, requested) {
        var f :| f in requested && f in carriers[from].feedIds && f !in CarriedBy(carriers[..from]);
        assert f in carriers[from].feedIds * remaining;
      } else {
        assert carriers[from].feedIds * remaining == {};
        assert next == remaining;
      }
      RetainFrom(carriers, from + 1, requested);
    }
  }

  lemma CarriedNext(carriers: seq<Carrier>, i: nat)
    requires i < |carriers|
    ensures CarriedBy(carriers[..i + 1]) == CarriedBy(carriers[..i]) + carriers[i].feedIds
  {
    var a, b := carriers[..i], carriers[..i + 1];
    assert forall k :: 0 <= k < i ==> a[k] == b[k];
    assert b[i] == carriers[i];
  }

  /** The pass keeps exactly the entries that add a requested feed to all entries before them. */
  lemma RetainKeepsAdding(carriers: seq<Carrier>, requested: set<string>)
    ensures Retain(carriers, requested) == Adding(carriers, 0, requested)
  {
    RetainFrom(carriers, 0, requested);
    assert carriers[0..] == carriers && requested - CarriedBy(carriers[..0]) == requested;
  }

  lemma {:induction false} AddingMember(carriers: seq<Carrier>, from: nat, requested: set<string>, c: Carrier)
    requires from <= |carriers|
    ensures c in Adding(carriers, from, requested) <==>
              exists i :: from <= i < |carriers| && carriers[i] == c && AddsFeed(carriers, i, requested)
    decreases |carriers| - from
  {
    hide AddsFeed;
    if from < |carriers| {
      AddingMember(carriers, from + 1, requested, c);
    }
  }

  // ----- Entries and keys

  ghost predicate DistinctKeys(carriers: seq<Carrier>) {
    forall c, d :: c in carriers && d in carriers && c.key == d.key ==> c == d
  }

  lemma {:induction false} CarriersOfResponse(r: Response, keys: seq<string>, c: Carrier)
    ensures c in Carriers(r, keys) <==>
              c.key in keys && Lookup(r, c.key) == Some(c.packages) && c.feedIds == KeyFeedIds(c.key, c.packages)
  {
    if keys != [] {
      CarriersOfResponse(r, keys[1..], c);
    }
  }

  lemma {:induction false} EntriesOfCarriers(carriers: seq<Carrier>, key: string)
    requires DistinctKeys(carriers)
    ensures key in FromEntries(carriers) <==> exists c :: c in carriers && c.key == key
    ensures forall c :: c in carriers && c.key == key ==> FromEntries(carriers)[key] == Some(c.packages)
  {
    if carriers != [] {
      var n := |carriers| - 1;
      assert carriers == carriers[..n] + [carriers[n]];
      EntriesOfCarriers(carriers[..n], key);
    }
  }

  lemma SortedCarriers(r: Response, keys: seq<string>, c: Carrier)
    ensures c in SortBy(Carriers(r, keys), MultiPointFirst) <==> c in Carriers(r, keys)
  {
    SortBySorts(Carriers(r, keys), MultiPointFirst);
    assert c in multiset(SortBy(Carriers(r, keys), MultiPointFirst)) <==> c in multiset(Carriers(r, keys));
  }

  lemma KeptMember(r: Response, keys: seq<string>, requested: set<string>, c: Carrier)
    ensures var sorted := SortBy(Carriers(r, keys), MultiPointFirst);
            c in Retain(sorted, requested) <==>
              exists i :: 0 <= i < |sorted| && sorted[i] == c && AddsFeed(sorted, i, requested)
    ensures c in Retain(SortBy(Carriers(r, keys), MultiPointFirst), requested) ==>
              c.key in keys && Lookup(r, c.key) == Some(c.packages) && c.feedIds == KeyFeedIds(c.key, c.packages)
  {
    hide SortBy, Retain, Carriers, AddsFeed;
    var sorted := SortBy(Carriers(r, keys), MultiPointFirst);
    RetainKeepsAdding(sorted, requested);
    AddingMember(sorted, 0, requested, c);
    if c in Retain(sorted, requested) {
      assert c in sorted;
      SortedCarriers(r, keys, c);
      CarriersOfResponse(r, keys, c);
    }
  }

  /** An entry is returned exactly when it adds a feed, in the order multi-point packages first. */
  lemma RetainedExactly(r: Response, keys: seq<string>, requested: set<string>, key: string)
    requires ListsKeys(r, keys)
    ensures var sorted := SortBy(Carriers(r, keys), MultiPointFirst);
            key in FilterRetaining(r, keys, requested) <==>
              exists i :: 0 <= i < |sorted| && sorted[i].key == key && AddsFeed(sorted, i, requested)
    ensures key in FilterRetaining(r, keys, requested) ==>
              key in r && FilterRetaining(r, keys, requested)[key] == r[key]
  {
    hide SortBy, Retain, Carriers, AddsFeed, FromEntries;
    var sorted := SortBy(Carriers(r, keys), MultiPointFirst);
    var kept := Retain(sorted, requested);
    forall c ensures c in kept ==> Lookup(r, c.key) == Some(c.packages) && c.feedIds == KeyFeedIds(c.key, c.packages) {
      KeptMember(r, keys, requested, c);
    }
    EntriesOfCarriers(kept, key);
    if key in FilterRetaining(r, keys, requested) {
      var c :| c in kept && c.key == key;
      KeptMember(r, keys, requested, c);
    }
    forall i | 0 <= i < |sorted| && sorted[i].key == key && AddsFeed(sorted, i, requested) ensures sorted[i] in kept {
      KeptMember(r, keys, requested, sorted[i]);
    }
  }

  /** The key has an entry and the entry carries the feed. */
  ghost predicate Carries(r: Response, key: string, feedId: string) {
    key in r && r[key].Some? && EntryCarries(key, r[key].value, feedId)
  }

  lemma CarriesExactly(r: Response, key: string, feedId: string)
    ensures Carries(r, key, feedId) <==> Lookup(r, key).Some? && feedId in KeyFeedIds(key, Lookup(r, key).value)
  {
    hide EntryCarries, KeyFeedIds;
    if key in r && r[key].Some? {
      KeyFeedIdsExactly(key, r[key].value, feedId);
    }
  }

  lemma CarrierAt(r: Response, keys: seq<string>, key: string) returns (i: nat)
    requires ListsKeys(r, keys) && Lookup(r, key).Some?
    ensures var sorted := SortBy(Carriers(r, keys), MultiPointFirst);
            i < |sorted| && sorted[i] == Carrier(key, KeyFeedIds(key, Lookup(r, key).value), Lookup(r, key).value)
  {
    var c := Carrier(key, KeyFeedIds(key, Lookup(r, key).value), Lookup(r, key).value);
    CarriersOfResponse(r, keys, c);
    SortedCarriers(r, keys, c);
    i :| 0 <= i < |SortBy(Carriers(r, keys), MultiPointFirst)| && SortBy(Carriers(r, keys), MultiPointFirst)[i] == c;
  }

  lemma CarrierCarries(r: Response, keys: seq<string>, i: nat)
    requires ListsKeys(r, keys) && i < |SortBy(Carriers(r, keys), MultiPointFirst)|
    ensures var c := SortBy(Carriers(r, keys), MultiPointFirst)[i];
            c.key in r && Lookup(r, c.key) == Some(c.packages) && c.feedIds == KeyFeedIds(c.key, c.packages)
  {
    var c := SortBy(Carriers(r, keys), MultiPointFirst)[i];
    SortedCarriers(r, keys, c);
    CarriersOfResponse(r, keys, c);
  }

  /** The first entry that carries a feed is the one that adds it. */
  lemma {:induction false} FirstCarrier(carriers: seq<Carrier>, i: nat, f: string) returns (first: nat)
    requires i < |carriers| && f in carriers[i].feedIds
    ensures first <= i && f in carriers[first].feedIds && f !in CarriedBy(carriers[..first])
  {
    if f in CarriedBy(carriers[..i]) {
      var j :| 0 <= j < i && f in carriers[..i][j].feedIds;
      first := FirstCarrier(carriers, j, f);
    } else {
      first := i;
    }
  }

  /** Every requested feed that some entry carries is carried by a returned one, which is the entry it was. */
  lemma RequestedFeedsCovered(r: Response, keys: seq<string>, requested: set<string>, feedId: string, key: string)
    requires ListsKeys(r, keys) && feedId in requested && Carries(r, key, feedId)
    ensures exists k :: k in r && Carries(FilterRetaining(r, keys, requested), k, feedId) &&
                        FilterRetaining(r, keys, requested)[k] == r[k]
  {
    hide SortBy, Carriers, FilterRetaining, EntryCarries, KeyFeedIds, CarriedBy;
    var sorted := SortBy(Carriers(r, keys), MultiPointFirst);
    CarriesExactly(r, key, feedId);
    var i := CarrierAt(r, keys, key);
    var first := FirstCarrier(sorted, i, feedId);
    assert AddsFeed(sorted, first, requested);
    CarrierCarries(r, keys, first);
    RetainedExactly(r, keys, requested, sorted[first].key);
    CarriesExactly(r, sorted[first].key, feedId);
    assert Carries(FilterRetaining(r, keys, requested), sorted[first].key, feedId);
  }

  lemma SupersededByMultiPoint(r: Response, keys: seq<string>, requested: set<string>, key: string, multi: string)
    requires ListsKeys(r, keys) && key != ""
    requires !IsMultiPointDataPackageId(key) && IsMultiPointDataPackageId(multi) && Carries(r, multi, key)
    ensures key !in FilterRetaining(r, keys, requested)
  {
    hide Carriers, SortBy, FilterRetaining, IsMultiPointDataPackageId;
    var sorted := SortBy(Carriers(r, keys), MultiPointFirst);
    SortBySorts(Carriers(r, keys), MultiPointFirst);
    CarriesExactly(r, multi, key);
    var j := CarrierAt(r, keys, multi);
    hide Carries;
    RetainedExactly(r, keys, requested, key);
    forall n | 0 <= n < |sorted| && sorted[n].key == key ensures !AddsFeed(sorted, n, requested) {
      CarrierCarries(r, keys, n);
      assert MultiPointFirst(sorted[j]) < MultiPointFirst(sorted[n]);
      assert sorted[..n][j] == sorted[j];
    }
  }

  // ----- The entry with the empty key, which is read like a multi-point one but not put first

  lemma {:induction false} CarriersInKeyOrder(r: Response, keys: seq<string>, c: Carrier, d: Carrier)
    requires Before(Carriers(r, keys), c, d)
    ensures Before(keys, c.key, d.key)
  {
    if keys != [] {
      var rest := keys[1..];
      assert keys == [keys[0]] + rest;
      BeforeCons(keys[0], rest, c.key, d.key);
      CarriersOfResponse(r, rest, d);
      match Lookup(r, keys[0]) {
        case Some(packages) =>
          BeforeCons(Carrier(keys[0], KeyFeedIds(keys[0], packages), packages), Carriers(r, rest), c, d);
        case None =>
      }
      hide Before;
      if Before(Carriers(r, rest), c, d) {
        CarriersInKeyOrder(r, rest, c, d);
      }
    }
  }

  lemma OneOrder(r: Response, keys: seq<string>, a: string, b: string)
    requires ListsKeys(r, keys) && a != b && Before(keys, a, b)
    ensures !Before(keys, b, a)
  {
  }

  /** Of two entries that are not multi-point, the sorted ones follow the order of the keys. */
  lemma SortedInKeyOrder(r: Response, keys: seq<string>, i: nat, j: nat)
    requires i < j < |SortBy(Carriers(r, keys), MultiPointFirst)|
    requires !IsMultiPointDataPackageId(SortBy(Carriers(r, keys), MultiPointFirst)[i].key)
    ensures Before(keys, SortBy(Carriers(r, keys), MultiPointFirst)[i].key,
                   SortBy(Carriers(r, keys), MultiPointFirst)[j].key)
  {
    hide SortBy, Carriers, IsMultiPointDataPackageId;
    var sorted := SortBy(Carriers(r, keys), MultiPointFirst);
    assert Before(sorted, sorted[i], sorted[j]);
    SortKeepsOrder(Carriers(r, keys), MultiPointFirst, sorted[i], sorted[j]);
    CarriersInKeyOrder(r, keys, sorted[i], sorted[j]);
  }

  /** The entry with the empty key carries the feed and its key comes first. */
  ghost predicate EmptyKeyFirst(r: Response, keys: seq<string>, key: string) {
    Carries(r, "", key) && Before(keys, "", key)
  }

  lemma SupersededByEmptyKey(r: Response, keys: seq<string>, requested: set<string>, key: string)
    requires ListsKeys(r, keys) && key != "" && !IsMultiPointDataPackageId(key) && EmptyKeyFirst(r, keys, key)
    ensures key !in FilterRetaining(r, keys, requested)
  {
    hide Carriers, SortBy, FilterRetaining, Before;
    var sorted := SortBy(Carriers(r, keys), MultiPointFirst);
    CarriesExactly(r, "", key);
    var j := CarrierAt(r, keys, "");
    RetainedExactly(r, keys, requested, key);
    OneOrder(r, keys, "", key);
    forall n | 0 <= n < |sorted| && sorted[n].key == key ensures !AddsFeed(sorted, n, requested) {
      CarrierCarries(r, keys, n);
      if n < j {
        SortedInKeyOrder(r, keys, n, j);
      } else {
        assert sorted[..n][j] == sorted[j];
      }
    }
  }

  ghost predicate MultiPointCarries(r: Response, key: string) {
    exists k :: IsMultiPointDataPackageId(k) && Carries(r, k, key)
  }

  /** Otherwise the entry is the first that carries its feed. */
  lemma FirstToCarry(r: Response, keys: seq<string>, key: string) returns (first: nat)
    requires ListsKeys(r, keys) && key != "" && Lookup(r, key).Some? && !IsMultiPointDataPackageId(key)
    requires !MultiPointCarries(r, key) && !EmptyKeyFirst(r, keys, key)
    ensures var sorted := SortBy(Carriers(r, keys), MultiPointFirst);
            first < |sorted| && sorted[first].key == key && key in sorted[first].feedIds &&
            key !in CarriedBy(sorted[..first])
  {
    hide Carriers, SortBy, IsMultiPointDataPackageId, Before;
    var sorted := SortBy(Carriers(r, keys), MultiPointFirst);
    var i := CarrierAt(r, keys, key);
    first := FirstCarrier(sorted, i, key);
    CarrierCarries(r, keys, first);
    CarriesExactly(r, sorted[first].key, key);
    if sorted[first].key == "" {
      assert !IsMultiPointDataPackageId("") by { EmptyIsNotMultiPoint(); }
      SortedInKeyOrder(r, keys, first, i);
    }
  }

  lemma EmptyIsNotMultiPoint()
    ensures !IsMultiPointDataPackageId("")
  {
  }

  /**
   * A single-feed entry is returned exactly when its feed is requested and no multi-point entry carries it, nor
   * an entry with the empty key that comes before it.
   */
  lemma SingleFeedRetained(r: Response, keys: seq<string>, requested: set<string>, key: string)
    requires ListsKeys(r, keys) && key != "" && Lookup(r, key).Some? && !IsMultiPointDataPackageId(key)
    ensures key in FilterRetaining(r, keys, requested) <==>
              key in requested && !MultiPointCarries(r, key) && !EmptyKeyFirst(r, keys, key)
  {
    hide Carriers, SortBy, FilterRetaining, IsMultiPointDataPackageId, EmptyKeyFirst, CarriedBy;
    if MultiPointCarries(r, key) {
      var k :| IsMultiPointDataPackageId(k) && Carries(r, k, key);
      SupersededByMultiPoint(r, keys, requested, key, k);
    } else if EmptyKeyFirst(r, keys, key) {
      SupersededByEmptyKey(r, keys, requested, key);
    } else {
      var sorted := SortBy(Carriers(r, keys), MultiPointFirst);
      RetainedExactly(r, keys, requested, key);
      var first := FirstToCarry(r, keys, key);
      assert key in requested ==> AddsFeed(sorted, first, requested);
      forall n | 0 <= n < |sorted| && sorted[n].key == key && AddsFeed(sorted, n, requested) ensures key in requested {
        CarrierCarries(r, keys, n);
      }
    }
  }
}
