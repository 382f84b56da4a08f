/** The cursor-map protocol: every page asks each unfinished manifest for its own next page. */
module PerManifestTxLookup {
  import opened Wrappers

  datatype Manifest = Manifest(adapterContract: string, adapterContractPackageId: Option<string>)

  datatype ContractTx = ContractTx(hash: string, blockNumber: nat, blockTimestamp: nat, data: string)

  datatype TopUp = TopUp(account: string, amount: int)

  datatype LookupError = MissingPackageId | BadCursor(cursor: string)

  datatype Items = Items(data: seq<ContractTx>, topUps: seq<TopUp>)

  const NOTHING: Items := Items([], [])

  function Plus(a: Items, b: Items): Items {
    Items(a.data + b.data, a.topUps + b.topUps)
  }

  /** What `fetchForManifest` answers; `next` is the cursor when there is a next page. */
  datatype ManifestPage = ManifestPage(items: Items, next: Option<string>)

  type Fetch = (Manifest, Option<string>) -> Result<ManifestPage, LookupError>

  type CursorMap = map<string, string>

  datatype Page = Page(data: seq<ContractTx>, topUps: Option<seq<TopUp>>, nextCursor: Option<CursorMap>)

  // ----- One page

  function Active(manifests: seq<Manifest>, cursor: Option<CursorMap>): seq<Manifest> {
    if manifests == [] then []
    else
      var n := |manifests| - 1;
      Active(manifests[..n], cursor) +
      (if cursor.None? || manifests[n].adapterContract in cursor.value then [manifests[n]] else [])
  }

  function InnerCursor(cursor: Option<CursorMap>, m: Manifest): Option<string> {
    if cursor.Some? && m.adapterContract in cursor.value then Some(cursor.value[m.adapterContract]) else None
  }

  /** Every fetch answers. */
  ghost predicate AllAnswer(fetch: Fetch, cursor: Option<CursorMap>, active: seq<Manifest>) {
    forall m :: m in active ==> fetch(m, InnerCursor(cursor, m)).Success?
  }

  ghost function Gathered(fetch: Fetch, cursor: Option<CursorMap>, active: seq<Manifest>): Items
    requires AllAnswer(fetch, cursor, active)
  {
    if active == [] then NOTHING
    else
      var n := |active| - 1;
      Plus(Gathered(fetch, cursor, active[..n]), fetch(active[n], InnerCursor(cursor, active[n])).value.items)
  }

  ghost function NextCursors(fetch: Fetch, cursor: Option<CursorMap>, active: seq<Manifest>): CursorMap
    requires AllAnswer(fetch, cursor, active)
  {
    if active == [] then map[]
    else
      var n := |active| - 1;
      var before := NextCursors(fetch, cursor, active[..n]);
      var next := fetch(active[n], InnerCursor(cursor, active[n])).value.next;
      if next.Some? then before[active[n].adapterContract := next.value] else before
  }

  method FetchPage(fetch: Fetch, manifests: seq<Manifest>, cursor: Option<CursorMap>)
      returns (page: Result<Page, LookupError>)
    ensures page.Success? <==> AllAnswer(fetch, cursor, Active(manifests, cursor))
    ensures page.Failure? ==>
              exists m :: m in Active(manifests, cursor) && fetch(m, InnerCursor(cursor, m)) == Failure(page.error)
    ensures page.Success? ==>
              var items := Gathered(fetch, cursor, Active(manifests, cursor));
              var next := NextCursors(fetch, cursor, Active(manifests, cursor));
              page.value == Page(items.data, if items.topUps == [] then None else Some(items.topUps),
                                 if next == map[] then None else Some(next))
  {
    var active := Active(manifests, cursor);
    var data, topUps: seq<TopUp>, nextCursorMap: CursorMap := [], [], map[];
    hide Active;
    for i := 0 to |active|
      invariant AllAnswer(fetch, cursor, active[..i])
      invariant Items(data, topUps) == Gathered(fetch, cursor, active[..i])
      invariant nextCursorMap == NextCursors(fetch, cursor, active[..i])
    {
      var result := fetch(active[i], InnerCursor(cursor, active[i]));
      if result.Failure? {
        return Failure(result.error);
      }
      assert active[..i + 1][..i] == active[..i] && active[..i + 1][i] == active[i];
      assert forall m :: m in active[..i + 1] ==> m in active[..i] || m == active[i];
      data, topUps := data + result.value.items.data, topUps + result.value.items.topUps;
      if result.value.next.Some? {
        nextCursorMap := nextCursorMap[active[i].adapterContract := result.value.next.value];
      }
    }
    assert active[..|active|] == active;
    page := Success(Page(data, if topUps == [] then None else Some(topUps),
                         if |nextCursorMap| > 0 then Some(nextCursorMap) else None));
  }

  // ----- Each manifest on its own

  /** Following a manifest's own cursors comes to an end: `rank` falls from page to page. */
  ghost predicate Ends(fetch: Fetch, rank: (Manifest, Option<string>) -> nat) {
    forall m, c {:trigger fetch(m, c)} :: fetch(m, c).Success? && fetch(m, c).value.next.Some? ==>
      rank(m, fetch(m, c).value.next) < rank(m, c)
  }

  /** The specification: everything one manifest's cursors lead to. */
  ghost function Stream(fetch: Fetch, rank: (Manifest, Option<string>) -> nat, m: Manifest,
                        cursor: Option<string>): Items
    requires Ends(fetch, rank)
    decreases rank(m, cursor)
  {
    var page := fetch(m, cursor);
    if page.Failure? then NOTHING
    else if page.value.next.Some? then Plus(page.value.items, Stream(fetch, rank, m, page.value.next))
    else page.value.items
  }

  /** The cursor a manifest's r-th page is asked with, if it has an r-th page. */
  ghost function CursorAt(fetch: Fetch, m: Manifest, r: nat): Option<Option<string>> {
    if r == 0 then Some(None)
    else
      var previous := CursorAt(fetch, m, r - 1);
      if previous.None? || fetch(m, previous.value).Failure? then None
      else
        var next := fetch(m, previous.value).value.next;
        if next.Some? then Some(next) else None
  }

  /** The manifest's r-th page, if it has one, is answered. */
  ghost predicate AnswersAt(fetch: Fetch, m: Manifest, r: nat) {
    CursorAt(fetch, m, r).Some? ==> fetch(m, CursorAt(fetch, m, r).value).Success?
  }

  ghost function PieceAt(fetch: Fetch, m: Manifest, r: nat): Items {
    var cursor := CursorAt(fetch, m, r);
    if cursor.Some? && fetch(m, cursor.value).Success? then fetch(m, cursor.value).value.items else NOTHING
  }

  ghost function Pieces(fetch: Fetch, m: Manifest, r: nat): Items {
    if r == 0 then NOTHING else Plus(Pieces(fetch, m, r - 1), PieceAt(fetch, m, r - 1))
  }

  lemma PlusAssociates(a: Items, b: Items, c: Items)
    ensures Plus(Plus(a, b), c) == Plus(a, Plus(b, c))
    ensures Plus(a, NOTHING) == a && Plus(NOTHING, a) == a
  {
  }

  /** What is still to come after r pages, together with them, is the whole stream. */
  lemma {:induction false} PiecesAndRest(fetch: Fetch, rank: (Manifest, Option<string>) -> nat, m: Manifest, r: nat)
    requires Ends(fetch, rank)
    ensures var cursor := CursorAt(fetch, m, r);
            Stream(fetch, rank, m, None) ==
            Plus(Pieces(fetch, m, r), if cursor.Some? then Stream(fetch, rank, m, cursor.value) else NOTHING)
  {
    var cursor := CursorAt(fetch, m, r);
    hide Ends, Plus;
    if r == 0 {
      PlusAssociates(Stream(fetch, rank, m, None), NOTHING, NOTHING);
    } else {
      PiecesAndRest(fetch, rank, m, r - 1);
      var previous := CursorAt(fetch, m, r - 1);
      var rest := if cursor.Some? then Stream(fetch, rank, m, cursor.value) else NOTHING;
      PlusAssociates(Pieces(fetch, m, r - 1), PieceAt(fetch, m, r - 1), rest);
      PlusAssociates(PieceAt(fetch, m, r - 1), NOTHING, NOTHING);
    }
  }

  lemma {:induction false} RankFalls(fetch: Fetch, rank: (Manifest, Option<string>) -> nat, m: Manifest, r: nat)
    requires Ends(fetch, rank) && CursorAt(fetch, m, r).Some?
    ensures rank(m, CursorAt(fetch, m, r).value) + r <= rank(m, None)
  {
    if r > 0 {
      RankFalls(fetch, rank, m, r - 1);
    }
  }

  // ----- All manifests in step

  ghost predicate DistinctContracts(manifests: seq<Manifest>) {
    forall i, j :: 0 <= i < j < |manifests| ==> manifests[i].adapterContract != manifests[j].adapterContract
  }

  /** No page of any manifest fails. */
  ghost predicate AllServed(fetch: Fetch, manifests: seq<Manifest>) {
    forall m, r: nat :: m in manifests ==> AnswersAt(fetch, m, r)
  }

  /** The cursor map before page r names exactly the manifests that have an r-th page, with their cursors. */
  ghost predicate RoundCursor(fetch: Fetch, manifests: seq<Manifest>, r: nat, cursor: Option<CursorMap>) {
    if r == 0 then cursor == None
    else
      && cursor.Some?
      && (forall m :: m in manifests ==>
            CursorAt(fetch, m, r) ==
              if m.adapterContract in cursor.value then Some(Some(cursor.value[m.adapterContract])) else None)
      && (forall key :: key in cursor.value ==> exists m :: m in manifests && m.adapterContract == key)
  }

  /** The r-th pages of all manifests, in the order of the manifests. */
  ghost function RoundItems(fetch: Fetch, manifests: seq<Manifest>, r: nat): Items {
    if manifests == [] then NOTHING
    else
      var n := |manifests| - 1;
      Plus(RoundItems(fetch, manifests[..n], r), PieceAt(fetch, manifests[n], r))
  }

  lemma CursorOfRound(fetch: Fetch, manifests: seq<Manifest>, r: nat, cursor: Option<CursorMap>, m: Manifest)
    requires RoundCursor(fetch, manifests, r, cursor) && m in manifests
    ensures CursorAt(fetch, m, r) ==
              if cursor.None? || m.adapterContract in cursor.value then Some(InnerCursor(cursor, m)) else None
  {
  }

  lemma {:induction false} ActiveAreManifests(manifests: seq<Manifest>, cursor: Option<CursorMap>)
    ensures forall m :: m in Active(manifests, cursor) <==>
                        m in manifests && (cursor.None? || m.adapterContract in cursor.value)
  {
    if manifests != [] {
      ActiveAreManifests(manifests[..|manifests| - 1], cursor);
    }
  }

  /** A page gathers the r-th page of every manifest. */
  lemma {:induction false} GatheredRound(
    fetch: Fetch, manifests: seq<Manifest>, r: nat, cursor: Option<CursorMap>, k: nat)
    requires RoundCursor(fetch, manifests, r, cursor) && k <= |manifests|
    requires AllAnswer(fetch, cursor, Active(manifests[..k], cursor))
    ensures Gathered(fetch, cursor, Active(manifests[..k], cursor)) == RoundItems(fetch, manifests[..k], r)
  {
    if k > 0 {
      var m, before := manifests[k - 1], manifests[..k - 1];
      assert manifests[..k][..k - 1] == before;
      ActiveStep(manifests, cursor, k);
      GatheredRound(fetch, manifests, r, cursor, k - 1);
      CursorOfRound(fetch, manifests, r, cursor, m);
      hide RoundCursor, Active;
      PlusAssociates(RoundItems(fetch, before, r), NOTHING, NOTHING);
      if cursor.None? || m.adapterContract in cursor.value {
        assert (Active(before, cursor) + [m])[..|Active(before, cursor)|] == Active(before, cursor);
      } else {
        assert Active(before, cursor) + [] == Active(before, cursor);
      }
    }
  }

  lemma ActiveStep(manifests: seq<Manifest>, cursor: Option<CursorMap>, k: nat)
    requires 0 < k <= |manifests|
    ensures var m := manifests[k - 1];
            Active(manifests[..k], cursor) == Active(manifests[..k - 1], cursor) +
              (if cursor.None? || m.adapterContract in cursor.value then [m] else [])
  {
    assert manifests[..k][..k - 1] == manifests[..k - 1];
  }

  /** The collected next cursors name exactly the manifests with another page. */
  lemma {:induction false} NextOf(fetch: Fetch, cursor: Option<CursorMap>, active: seq<Manifest>)
    requires DistinctContracts(active) && AllAnswer(fetch, cursor, active)
    ensures var next := NextCursors(fetch, cursor, active);
            && (forall m :: m in active ==>
                  fetch(m, InnerCursor(cursor, m)).value.next ==
                    if m.adapterContract in next then Some(next[m.adapterContract]) else None)
            && (forall key :: key in next ==> exists m :: m in active && m.adapterContract == key)
  {
    if active != [] {
      var n := |active| - 1;
      NextOf(fetch, cursor, active[..n]);
      forall m | m in active[..n] ensures m.adapterContract != active[n].adapterContract {
        var i :| 0 <= i < n && active[i] == m;
      }
      forall m | m in active ensures m in active[..n] || m == active[n] {
      }
    }
  }

  lemma {:induction false} ActiveDistinct(manifests: seq<Manifest>, cursor: Option<CursorMap>)
    requires DistinctContracts(manifests)
    ensures DistinctContracts(Active(manifests, cursor))
  {
    if manifests != [] {
      var n := |manifests| - 1;
      ActiveDistinct(manifests[..n], cursor);
      ActiveAreManifests(manifests[..n], cursor);
    }
  }

  /** The next cursor map is the one of the next round. */
  lemma NextRound(fetch: Fetch, manifests: seq<Manifest>, r: nat, cursor: Option<CursorMap>)
    requires DistinctContracts(manifests) && RoundCursor(fetch, manifests, r, cursor)
    requires AllAnswer(fetch, cursor, Active(manifests, cursor))
    ensures RoundCursor(fetch, manifests, r + 1, Some(NextCursors(fetch, cursor, Active(manifests, cursor))))
  {
    var active := Active(manifests, cursor);
    var next := NextCursors(fetch, cursor, active);
    ActiveAreManifests(manifests, cursor);
    ActiveDistinct(manifests, cursor);
    NextOf(fetch, cursor, active);
    forall m | m in manifests
      ensures CursorAt(fetch, m, r + 1) ==
                if m.adapterContract in next then Some(Some(next[m.adapterContract])) else None
    {
      CursorOfRound(fetch, manifests, r, cursor, m);
    }
  }

  // ----- Following the next cursors

  ghost function Rounds(fetch: Fetch, manifests: seq<Manifest>, r: nat): Items {
    if r == 0 then NOTHING else Plus(Rounds(fetch, manifests, r - 1), RoundItems(fetch, manifests, r - 1))
  }

  /** After r pages, each manifest's pieces are its whole stream. */
  ghost predicate AllComplete(fetch: Fetch, rank: (Manifest, Option<string>) -> nat, manifests: seq<Manifest>, r: nat)
    requires Ends(fetch, rank)
  {
    forall m :: m in manifests ==> Pieces(fetch, m, r) == Stream(fetch, rank, m, None)
  }

  lemma FinishedIsComplete(fetch: Fetch, rank: (Manifest, Option<string>) -> nat, manifests: seq<Manifest>, r: nat)
    requires Ends(fetch, rank)
    requires r > 0 && RoundCursor(fetch, manifests, r, Some(map[]))
    ensures AllComplete(fetch, rank, manifests, r)
  {
    forall m | m in manifests ensures Pieces(fetch, m, r) == Stream(fetch, rank, m, None) {
      PiecesAndRest(fetch, rank, m, r);
      assert CursorAt(fetch, m, r).None?;
      PlusAssociates(Pieces(fetch, m, r), NOTHING, NOTHING);
    }
  }

  ghost function MaxRank(rank: (Manifest, Option<string>) -> nat, manifests: seq<Manifest>): (max: nat)
    ensures forall m :: m in manifests ==> rank(m, None) <= max
  {
    if manifests == [] then 0
    else
      var n := |manifests| - 1;
      var max := MaxRank(rank, manifests[..n]);
      if rank(manifests[n], None) > max then rank(manifests[n], None) else max
  }

  lemma RoundsAreBounded(fetch: Fetch, rank: (Manifest, Option<string>) -> nat, manifests: seq<Manifest>, r: nat,
                         cursor: CursorMap)
    requires Ends(fetch, rank)
    requires r > 0 && RoundCursor(fetch, manifests, r, Some(cursor)) && cursor != map[]
    ensures r <= MaxRank(rank, manifests)
  {
    var key :| key in cursor;
    var m :| m in manifests && m.adapterContract == key;
    RankFalls(fetch, rank, m, r);
  }

  ghost predicate AnsweredBefore(fetch: Fetch, manifests: seq<Manifest>, r: nat) {
    forall m, k: nat :: m in manifests && k < r ==> AnswersAt(fetch, m, k)
  }

  /**
   * Following `nextCursor` until there is no next page terminates, and fails exactly when some page of some
   * manifest fails. The pages are the rounds, and every manifest's pieces of the rounds are its whole stream,
   * though manifests finish on different pages.
   */
  method FetchAllPages(fetch: Fetch, ghost rank: (Manifest, Option<string>) -> nat, manifests: seq<Manifest>)
      returns (result: Result<Items, LookupError>, pages: nat)
    requires DistinctContracts(manifests) && Ends(fetch, rank)
    ensures result.Success? <==> AllServed(fetch, manifests)
    ensures result.Success? ==> result.value == Rounds(fetch, manifests, pages)
    ensures result.Success? ==> AllComplete(fetch, rank, manifests, pages)
  {
    hide Rounds, RoundItems, RoundCursor, Gathered, NextCursors, Active, AllAnswer, DistinctContracts, Ends,
         AllComplete;
    var items := NOTHING;
    pages := 0;
    var cursor: Option<CursorMap> := None;
    StartRound(fetch, manifests);
    while true
      invariant RoundCursor(fetch, manifests, pages, cursor) && AnsweredBefore(fetch, manifests, pages)
      invariant pages <= MaxRank(rank, manifests)
      invariant items == Rounds(fetch, manifests, pages)
      decreases MaxRank(rank, manifests) - pages
    {
      var page := FetchPage(fetch, manifests, cursor);
      RoundAnswers(fetch, manifests, pages, cursor);
      if page.Failure? {
        return Failure(page.error), pages;
      }
      ghost var next := NextCursors(fetch, cursor, Active(manifests, cursor));
      NextRound(fetch, manifests, pages, cursor);
      WholeRound(fetch, manifests, pages, cursor);
      items := Plus(items, Items(page.value.data, if page.value.topUps.Some? then page.value.topUps.value else []));
      pages := pages + 1;
      cursor := page.value.nextCursor;
      if cursor.None? {
        FinishedIsComplete(fetch, rank, manifests, pages);
        FinishedIsServed(fetch, manifests, pages);
        return Success(items), pages;
      }
      RoundsAreBounded(fetch, rank, manifests, pages, next);
    }
  }

  lemma StartRound(fetch: Fetch, manifests: seq<Manifest>)
    ensures RoundCursor(fetch, manifests, 0, None) && Rounds(fetch, manifests, 0) == NOTHING
  {
  }

  lemma RoundAnswers(fetch: Fetch, manifests: seq<Manifest>, r: nat, cursor: Option<CursorMap>)
    requires RoundCursor(fetch, manifests, r, cursor) && AnsweredBefore(fetch, manifests, r)
    ensures AllAnswer(fetch, cursor, Active(manifests, cursor)) <==> AnsweredBefore(fetch, manifests, r + 1)
    ensures AllServed(fetch, manifests) ==> AnsweredBefore(fetch, manifests, r + 1)
  {
    ActiveAreManifests(manifests, cursor);
    hide Active;
    forall m | m in manifests
      ensures AnswersAt(fetch, m, r) <==>
              ((cursor.None? || m.adapterContract in cursor.value) ==> fetch(m, InnerCursor(cursor, m)).Success?)
    {
      CursorOfRound(fetch, manifests, r, cursor, m);
    }
  }

  lemma {:induction false} StaysFinished(fetch: Fetch, m: Manifest, r: nat, k: nat)
    requires CursorAt(fetch, m, r).None? && r <= k
    ensures CursorAt(fetch, m, k).None?
  {
    if r < k {
      StaysFinished(fetch, m, r, k - 1);
    }
  }

  lemma FinishedIsServed(fetch: Fetch, manifests: seq<Manifest>, r: nat)
    requires r > 0 && RoundCursor(fetch, manifests, r, Some(map[])) && AnsweredBefore(fetch, manifests, r)
    ensures AllServed(fetch, manifests)
  {
    forall m, k: nat | m in manifests ensures AnswersAt(fetch, m, k) {
      if k >= r {
        assert CursorAt(fetch, m, r).None?;
        StaysFinished(fetch, m, r, k);
      } else {
        assert AnswersAt(fetch, m, k);
      }
    }
  }

  lemma WholeRound(fetch: Fetch, manifests: seq<Manifest>, r: nat, cursor: Option<CursorMap>)
    requires RoundCursor(fetch, manifests, r, cursor)
    requires AllAnswer(fetch, cursor, Active(manifests, cursor))
    ensures Rounds(fetch, manifests, r + 1) ==
            Plus(Rounds(fetch, manifests, r), Gathered(fetch, cursor, Active(manifests, cursor)))
  {
    assert manifests[..|manifests|] == manifests;
    GatheredRound(fetch, manifests, r, cursor, |manifests|);
  }
}
