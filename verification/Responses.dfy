/**
 * Responses of the data-package gateways. A response is a JavaScript object: a map from package ids to
 * package lists, where a key may be present with an undefined value. Where the order of the keys matters
 * it is passed along as `keys`.
 */
module Responses {
  import opened Wrappers

  /**
   * The number a data point carries. Building a point from a negative number throws, so none has one: neither a
   * point of a response nor one restored from its plain form.
   */
  type Price = value: real | value >= 0.0

  datatype PricePoint = PricePoint(feedId: string, value: Price)

  /** A signed package; `signer` is the address its signature recovers to, if recovery succeeds. */
  datatype PricePackage = PricePackage(points: seq<PricePoint>, timestamp: int, signer: Option<string>)

  type Response = map<string, Option<seq<PricePackage>>>

  datatype RequestParams = RequestParams(
    dataServiceId: string,
    dataPackagesIds: seq<string>,
    returnAllPackages: bool,
    uniqueSignersCount: nat,
    maxTimestampDeviationMS: Option<nat>,
    authorizedSigners: seq<string>,
    skipSignatureVerification: bool,
    historicalTimestamp: Option<int>,
    ignoreMissingFeed: Option<bool>,
    disableMedianSelection: bool,
    aggregateErrors: bool)

  /** `response[key]`: undefined for an absent key and for a key with an undefined value. */
  function Lookup(r: Response, key: string): Option<seq<PricePackage>> {
    if key in r then r[key] else None
  }

  /** `keys` lists the keys of the response, each once. */
  ghost predicate ListsKeys(r: Response, keys: seq<string>) {
    && (forall k :: k in keys <==> k in r)
    && (forall i, j :: 0 <= i < j < |keys| ==> keys[i] != keys[j])
  }

  predicate IsMultiPointDataPackageId(id: string) {
    |id| >= 2 && id[..2] == "__" && id[|id| - 2..] == "__"
  }

  /** The timestamp of the first package of the first defined entry, or 0. */
  function ResponseTimestamp(r: Response, keys: seq<string>): int {
    if keys == [] then 0
    else
      match Lookup(r, keys[0])
      case Some(packages) => if packages == [] then 0 else packages[0].timestamp
      case None => ResponseTimestamp(r, keys[1..])
  }

  /** Keys before the first with a defined entry play no part; that entry's first package has the timestamp. */
  lemma {:induction false} ResponseTimestampExactly(r: Response, keys: seq<string>, i: nat)
    requires i <= |keys| && forall j :: 0 <= j < i ==> keys[j] !in r || r[keys[j]] == None
    ensures i == |keys| ==> ResponseTimestamp(r, keys) == 0
    ensures i < |keys| && keys[i] in r && r[keys[i]] == Some([]) ==> ResponseTimestamp(r, keys) == 0
    ensures forall packages: seq<PricePackage> ::
              i < |keys| && keys[i] in r && r[keys[i]] == Some(packages) && packages != [] ==>
                ResponseTimestamp(r, keys) == packages[0].timestamp
  {
    if i > 0 {
      ResponseTimestampExactly(r, keys[1..], i - 1);
    }
  }

  /** A multi-point id is any text between two pairs of underscores; the shortest two overlap them. */
  lemma MultiPointExactly(id: string)
    ensures IsMultiPointDataPackageId(id) <==>
              id == "__" || id == "___" || exists inner :: id == "__" + inner + "__"
    ensures IsMultiPointDataPackageId("__MULTI_POINT__")
    ensures id != "" && id[0] != '_' ==> !IsMultiPointDataPackageId(id)
  {
    if IsMultiPointDataPackageId(id) && |id| >= 4 {
      assert id == id[..2] + id[2..|id| - 2] + id[|id| - 2..];
    }
    forall inner | id == "__" + inner + "__" ensures IsMultiPointDataPackageId(id) {
      assert id[..2] == "__" && id[|id| - 2..] == "__";
    }
    var multi := "__MULTI_POINT__";
    assert multi[..2] == "__" && multi[13..] == "__";
  }

  predicate IsResponseEmpty(r: Response) {
    forall k | k in r :: r[k].None?
  }

  // ----- Feed ids

  function PackageFeedIds(p: PricePackage): set<string> {
    set point | point in p.points :: point.feedId
  }

  /** The feed ids that every package of the list carries; none for an empty list. */
  function ConsistentFeedIds(packages: seq<PricePackage>): (feedIds: set<string>)
    ensures forall f :: f in feedIds <==> packages != [] && forall p :: p in packages ==> f in PackageFeedIds(p)
  {
    if packages == [] then {}
    else if |packages| == 1 then PackageFeedIds(packages[0])
    else
      assert forall p :: p in packages <==> p == packages[0] || p in packages[1..];
      PackageFeedIds(packages[0]) * ConsistentFeedIds(packages[1..])
  }

  function KeyFeedIds(key: string, packages: seq<PricePackage>): set<string> {
    if key == "" || IsMultiPointDataPackageId(key) then ConsistentFeedIds(packages) else {key}
  }

  ghost predicate HasPoint(p: PricePackage, feedId: string) {
    exists j :: 0 <= j < |p.points| && p.points[j].feedId == feedId
  }

  /** Every package of the list, which is not empty, has a point of the feed. */
  ghost predicate AllHaveFeed(packages: seq<PricePackage>, feedId: string) {
    packages != [] && forall i :: 0 <= i < |packages| ==> HasPoint(packages[i], feedId)
  }

  /** A multi-point entry, or one with an empty key, carries what all its packages have; any other its own key. */
  ghost predicate EntryCarries(key: string, packages: seq<PricePackage>, feedId: string) {
    if key == "" || IsMultiPointDataPackageId(key) then AllHaveFeed(packages, feedId) else feedId == key
  }

  lemma KeyFeedIdsExactly(key: string, packages: seq<PricePackage>, feedId: string)
    ensures feedId in KeyFeedIds(key, packages) <==> EntryCarries(key, packages, feedId)
  {
    hide IsMultiPointDataPackageId, AllHaveFeed, ConsistentFeedIds;
    ConsistentExactly(packages, feedId);
  }

  lemma ConsistentExactly(packages: seq<PricePackage>, feedId: string)
    ensures feedId in ConsistentFeedIds(packages) <==> AllHaveFeed(packages, feedId)
  {
    forall i | 0 <= i < |packages|
      ensures packages[i] in packages && (feedId in PackageFeedIds(packages[i]) <==> HasPoint(packages[i], feedId))
    {
      HasFeed(packages[i], feedId);
    }
    hide PackageFeedIds, HasPoint;
    assert forall p :: p in packages ==> exists i :: 0 <= i < |packages| && packages[i] == p;
  }

  lemma HasFeed(p: PricePackage, feedId: string)
    ensures feedId in PackageFeedIds(p) <==> HasPoint(p, feedId)
  {
    if feedId in PackageFeedIds(p) {
      var point :| point in p.points && point.feedId == feedId;
    }
    forall j | 0 <= j < |p.points| && p.points[j].feedId == feedId ensures feedId in PackageFeedIds(p) {
      assert p.points[j] in p.points;
    }
  }

  predicate SingleFeedKeys(r: Response) {
    forall k | k in r :: !IsMultiPointDataPackageId(k)
  }

  function ResponseFeedIds(r: Response): set<string> {
    if SingleFeedKeys(r) then r.Keys
    else set k, f | k in r && r[k].Some? && f in KeyFeedIds(k, r[k].value) :: f
  }

  /** Without multi-point keys the keys are the feeds; with one, the feeds are those the defined entries carry. */
  lemma ResponseFeedIdsExactly(r: Response, feedId: string)
    ensures (forall k :: k in r ==> !IsMultiPointDataPackageId(k)) ==> (feedId in ResponseFeedIds(r) <==> feedId in r)
    ensures (exists k :: k in r && IsMultiPointDataPackageId(k)) ==>
              (feedId in ResponseFeedIds(r) <==>
               exists k :: k in r && r[k].Some? && EntryCarries(k, r[k].value, feedId))
  {
    hide IsMultiPointDataPackageId, KeyFeedIds, EntryCarries;
    forall k | k in r && r[k].Some?
      ensures feedId in KeyFeedIds(k, r[k].value) <==> EntryCarries(k, r[k].value, feedId)
    {
      KeyFeedIdsExactly(k, r[k].value, feedId);
    }
  }
}
