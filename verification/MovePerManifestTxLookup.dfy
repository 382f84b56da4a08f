/** Offset paging over an indexer, as one manifest's part of the cursor-map protocol. */
module MovePerManifestTxLookup {
  import opened Wrappers
  import opened Numbers
  import opened Decimals
  import opened PerManifestTxLookup

  const INDEXER_PAGE_SIZE: nat := 100
  const MICROSECS_PER_SEC: nat := 1_000_000

  datatype Row = Row(contractAddress: string, blockHeight: nat, version: nat)

  datatype TransactionResponse = TransactionResponse(version: nat, isUser: bool, timestampMicros: nat)

  /** The indexer's rows, what fetching a version answers, and the parser of fetched transactions. */
  datatype Chain = Chain(
    rows: seq<Row>,
    lookup: nat -> Option<TransactionResponse>,
    parse: (TransactionResponse, string, nat, nat) -> Option<ContractTx>)

  datatype Range = Range(startBlock: nat, endBlock: nat)

  /** The rows the query selects: its `where` clause, before `limit` and `offset`. */
  function Selected(rows: seq<Row>, range: Range, packageId: string): seq<Row> {
    if rows == [] then []
    else
      var n := |rows| - 1;
      Selected(rows[..n], range, packageId) +
      (if range.startBlock <= rows[n].blockHeight <= range.endBlock && rows[n].contractAddress == packageId
       then [rows[n]] else [])
  }

  function QueryUserTransactions(chain: Chain, range: Range, packageId: string, offset: nat): seq<Row> {
    var all := Selected(chain.rows, range, packageId);
    if offset >= |all| then [] else all[offset..Min(offset + INDEXER_PAGE_SIZE, |all|)]
  }

  function BlockTimestamp(tx: TransactionResponse): nat {
    if tx.isUser then tx.timestampMicros / MICROSECS_PER_SEC else 0
  }

  function ParsedRow(chain: Chain, packageId: string, row: Row): Option<ContractTx> {
    var tx := chain.lookup(row.version);
    if tx.None? then None else chain.parse(tx.value, packageId, row.blockHeight, BlockTimestamp(tx.value))
  }

  /** The transactions of the rows that are fetched and parsed, in order. */
  function Parsed(chain: Chain, packageId: string, rows: seq<Row>): seq<ContractTx> {
    if rows == [] then []
    else
      var n := |rows| - 1;
      var parsed := ParsedRow(chain, packageId, rows[n]);
      Parsed(chain, packageId, rows[..n]) + (if parsed.Some? then [parsed.value] else [])
  }

  /** An absent or empty cursor is offset 0. */
  function Offset(cursor: Option<string>): Option<nat> {
    if cursor.None? || cursor.value == "" then Some(0)
    else if AllDigits(cursor.value) then Some(Value(cursor.value))
    else None
  }

  function HasPackage(m: Manifest): bool {
    m.adapterContractPackageId.Some? && m.adapterContractPackageId.value != ""
  }

  /** What one page holds and where the next one starts. */
  function PageOf(chain: Chain, range: Range, m: Manifest, cursor: Option<string>): Result<ManifestPage, LookupError> {
    if !HasPackage(m) then Failure(MissingPackageId)
    else if Offset(cursor).None? then Failure(BadCursor(cursor.value))
    else
      var offset := Offset(cursor).value;
      var refs := QueryUserTransactions(chain, range, m.adapterContractPackageId.value, offset);
      var data := Parsed(chain, m.adapterContractPackageId.value, refs);
      Success(ManifestPage(Items(data, []),
                           if |refs| == INDEXER_PAGE_SIZE then Some(Digits(offset + INDEXER_PAGE_SIZE)) else None))
  }

  method FetchForManifest(chain: Chain, range: Range, manifest: Manifest, cursor: Option<string>)
      returns (page: Result<ManifestPage, LookupError>)
    ensures page == PageOf(chain, range, manifest, cursor)
  {
    if !HasPackage(manifest) {
      return Failure(MissingPackageId);
    }
    var packageId := manifest.adapterContractPackageId.value;
    var offset := Offset(cursor);
    if offset.None? {
      return Failure(BadCursor(cursor.value));
    }
    var refs := QueryUserTransactions(chain, range, packageId, offset.value);
    var txs := seq(|refs|, i requires 0 <= i < |refs| => chain.lookup(refs[i].version));
    var data := [];
    for i := 0 to |txs|
      invariant data == Parsed(chain, packageId, refs[..i])
    {
      assert refs[..i + 1][..i] == refs[..i];
      if txs[i].Some? {
        var parsed := chain.parse(txs[i].value, packageId, refs[i].blockHeight, BlockTimestamp(txs[i].value));
        if parsed.Some? {
          data := data + [parsed.value];
        }
      }
    }
    assert refs[..|refs|] == refs;
    if |refs| == INDEXER_PAGE_SIZE {
      return Success(ManifestPage(Items(data, []), Some(Digits(offset.value + INDEXER_PAGE_SIZE))));
    }
    return Success(ManifestPage(Items(data, []), None));
  }

  // ----- The protocol on this pager

  function Fetcher(chain: Chain, range: Range): Fetch {
    (m, cursor) => PageOf(chain, range, m, cursor)
  }

  /** Rows still to come at a cursor. */
  function RowsLeft(chain: Chain, range: Range): (Manifest, Option<string>) -> nat {
    (m, cursor) =>
      if !HasPackage(m) || Offset(cursor).None? then 0
      else
        var total := |Selected(chain.rows, range, m.adapterContractPackageId.value)|;
        if Offset(cursor).value >= total then 0 else total - Offset(cursor).value
  }

  lemma NextOffset(offset: nat)
    ensures Digits(offset) != "" && Offset(Some(Digits(offset))) == Some(offset)
  {
    ValueOfDigits(offset);
  }

  lemma PagingEnds(chain: Chain, range: Range)
    ensures Ends(Fetcher(chain, range), RowsLeft(chain, range))
  {
    var fetch, rank := Fetcher(chain, range), RowsLeft(chain, range);
    forall m, c | fetch(m, c).Success? && fetch(m, c).value.next.Some?
      ensures rank(m, fetch(m, c).value.next) < rank(m, c)
    {
      NextOffset(Offset(c).value + INDEXER_PAGE_SIZE);
      hide Digits, Selected, Parsed, Value;
    }
  }

  lemma {:induction false} ParsedConcat(chain: Chain, packageId: string, a: seq<Row>, b: seq<Row>)
    ensures Parsed(chain, packageId, a + b) == Parsed(chain, packageId, a) + Parsed(chain, packageId, b)
  {
    if b == [] {
      assert a + b == a;
    } else {
      var n := |b| - 1;
      assert (a + b)[..|a + b| - 1] == a + b[..n] && (a + b)[|a + b| - 1] == b[n];
      ParsedConcat(chain, packageId, a, b[..n]);
    }
  }

  function From<T>(s: seq<T>, offset: nat): seq<T> {
    if offset >= |s| then [] else s[offset..]
  }

  lemma PageThenRest<T>(s: seq<T>, offset: nat, size: nat)
    requires size > 0
    ensures From(s, offset) ==
            (if offset >= |s| then [] else s[offset..Min(offset + size, |s|)]) + From(s, offset + size)
  {
  }

  /** The parsed rows after the cursor are those of its page and those after the next cursor. */
  lemma PageStep(chain: Chain, range: Range, m: Manifest, cursor: Option<string>)
    requires HasPackage(m) && Offset(cursor).Some?
    ensures var packageId := m.adapterContractPackageId.value;
            var page := PageOf(chain, range, m, cursor);
            var offset := Offset(cursor).value;
            && page.Success?
            && page.value.items.topUps == []
            && ParsedFrom(chain, range, packageId, offset) ==
                 page.value.items.data + ParsedFrom(chain, range, packageId, offset + INDEXER_PAGE_SIZE)
            && (if page.value.next.Some? then Offset(page.value.next) == Some(offset + INDEXER_PAGE_SIZE)
                else ParsedFrom(chain, range, packageId, offset + INDEXER_PAGE_SIZE) == [])
  {
    var packageId, offset := m.adapterContractPackageId.value, Offset(cursor).value;
    var all := Selected(chain.rows, range, packageId);
    var refs := QueryUserTransactions(chain, range, packageId, offset);
    PageThenRest(all, offset, INDEXER_PAGE_SIZE);
    ParsedConcat(chain, packageId, refs, From(all, offset + INDEXER_PAGE_SIZE));
    NextOffset(offset + INDEXER_PAGE_SIZE);
    NothingParsed(chain, packageId);
    hide Selected, Parsed, Digits, Value;
  }

  function ParsedFrom(chain: Chain, range: Range, packageId: string, offset: nat): seq<ContractTx> {
    Parsed(chain, packageId, From(Selected(chain.rows, range, packageId), offset))
  }

  /** Following a manifest's cursors from an offset yields every selected row after it, parsed. */
  lemma {:induction false} StreamFrom(chain: Chain, range: Range, m: Manifest, cursor: Option<string>)
    requires HasPackage(m) && Offset(cursor).Some? && Ends(Fetcher(chain, range), RowsLeft(chain, range))
    ensures Stream(Fetcher(chain, range), RowsLeft(chain, range), m, cursor) ==
            Items(ParsedFrom(chain, range, m.adapterContractPackageId.value, Offset(cursor).value), [])
    decreases RowsLeft(chain, range)(m, cursor)
  {
    var page := PageOf(chain, range, m, cursor);
    PageStep(chain, range, m, cursor);
    assert Fetcher(chain, range)(m, cursor) == page;
    hide PageOf, Offset, HasPackage, ParsedFrom, RowsLeft;
    if page.value.next.Some? {
      StreamFrom(chain, range, m, page.value.next);
    }
  }

  lemma NothingParsed(chain: Chain, packageId: string)
    ensures Parsed(chain, packageId, []) == []
  {
  }

  /** One manifest's pages are its selected rows, parsed, in order. */
  lemma WholeStream(chain: Chain, range: Range, m: Manifest)
    requires HasPackage(m) && Ends(Fetcher(chain, range), RowsLeft(chain, range))
    ensures var packageId := m.adapterContractPackageId.value;
            Stream(Fetcher(chain, range), RowsLeft(chain, range), m, None) ==
            Items(Parsed(chain, packageId, Selected(chain.rows, range, packageId)), [])
  {
    var all := Selected(chain.rows, range, m.adapterContractPackageId.value);
    assert From(all, 0) == all;
    hide Stream, Parsed, Selected, Ends;
    StreamFrom(chain, range, m, None);
  }

  /** Only cursors that the lookup made itself are ever asked. */
  lemma {:induction false} CursorsAreOffsets(chain: Chain, range: Range, m: Manifest, r: nat)
    ensures var cursor := CursorAt(Fetcher(chain, range), m, r);
            cursor.Some? ==> Offset(cursor.value).Some?
  {
    if r > 0 {
      CursorsAreOffsets(chain, range, m, r - 1);
      var previous := CursorAt(Fetcher(chain, range), m, r - 1);
      if previous.Some? && Offset(previous.value).Some? {
        NextOffset(Offset(previous.value).value + INDEXER_PAGE_SIZE);
        hide Digits, Value;
      }
    }
  }

  /** The lookup serves every page exactly when every manifest names its package. */
  lemma ServedWithPackages(chain: Chain, range: Range, manifests: seq<Manifest>)
    ensures AllServed(Fetcher(chain, range), manifests) <==> forall m :: m in manifests ==> HasPackage(m)
  {
    var fetch := Fetcher(chain, range);
    forall m, r: nat | m in manifests && HasPackage(m) ensures AnswersAt(fetch, m, r) {
      CursorsAreOffsets(chain, range, m, r);
    }
    if AllServed(fetch, manifests) {
      forall m | m in manifests ensures HasPackage(m) {
        assert AnswersAt(fetch, m, 0);
      }
    }
  }

  /**
   * Following the next cursors of any manifests, distinct by adapter contract, terminates. It fails exactly
   * when some manifest names no package, and otherwise each manifest's pieces are all its selected rows that
   * are fetched and parsed, in the order of the rows, nothing missed or repeated.
   */
  method LookupAll(chain: Chain, range: Range, manifests: seq<Manifest>)
      returns (result: Result<Items, LookupError>, pages: nat)
    requires DistinctContracts(manifests)
    ensures result.Success? <==> forall m :: m in manifests ==>
              m.adapterContractPackageId.Some? && m.adapterContractPackageId.value != ""
    ensures result.Success? ==> result.value == Rounds(Fetcher(chain, range), manifests, pages)
    ensures result.Success? ==>
              forall m :: m in manifests ==>
                Pieces(Fetcher(chain, range), m, pages) ==
                Items(Parsed(chain, m.adapterContractPackageId.value,
                             Selected(chain.rows, range, m.adapterContractPackageId.value)), [])
  {
    PagingEnds(chain, range);
    ServedWithPackages(chain, range, manifests);
    hide Ends, DistinctContracts, AllServed, Fetcher, RowsLeft, Pieces, Rounds;
    result, pages := FetchAllPages(Fetcher(chain, range), RowsLeft(chain, range), manifests);
    if result.Success? {
      forall m | m in manifests
        ensures Pieces(Fetcher(chain, range), m, pages) ==
                Items(Parsed(chain, m.adapterContractPackageId.value,
                             Selected(chain.rows, range, m.adapterContractPackageId.value)), [])
      {
        WholeStream(chain, range, m);
      }
    }
  }

  // ----- What is looked up

  /** The transaction comes from the row: fetched by its version, and parsed with the time of a user transaction. */
  ghost predicate ComesFrom(chain: Chain, packageId: string, row: Row, tx: ContractTx) {
    var response := chain.lookup(row.version);
    && response.Some?
    && var seconds := if response.value.isUser then response.value.timestampMicros / 1_000_000 else 0;
       chain.parse(response.value, packageId, row.blockHeight, seconds) == Some(tx)
  }

  lemma {:induction false} ParsedMembers(chain: Chain, packageId: string, rows: seq<Row>, tx: ContractTx)
    ensures tx in Parsed(chain, packageId, rows) <==>
              exists i :: 0 <= i < |rows| && ComesFrom(chain, packageId, rows[i], tx)
  {
    if rows != [] {
      var n := |rows| - 1;
      ParsedMembers(chain, packageId, rows[..n], tx);
      assert ComesFrom(chain, packageId, rows[n], tx) <==> ParsedRow(chain, packageId, rows[n]) == Some(tx);
      hide ComesFrom, ParsedRow;
    }
  }

  /** The selected rows are those of the package in the block range, each as often as the indexer has it. */
  lemma {:induction false} SelectedExactly(rows: seq<Row>, range: Range, packageId: string, row: Row)
    ensures multiset(Selected(rows, range, packageId))[row] ==
            if row.contractAddress == packageId && range.startBlock <= row.blockHeight <= range.endBlock
            then multiset(rows)[row] else 0
  {
    if rows != [] {
      var n := |rows| - 1;
      SelectedExactly(rows[..n], range, packageId, row);
      assert rows == rows[..n] + [rows[n]];
    }
  }

  /** A transaction is looked up exactly when it comes from one of the indexer's rows for the package in the range. */
  lemma LookedUpExactly(chain: Chain, range: Range, packageId: string, tx: ContractTx)
    ensures tx in Parsed(chain, packageId, Selected(chain.rows, range, packageId)) <==>
              exists row :: row in chain.rows && row.contractAddress == packageId &&
                            range.startBlock <= row.blockHeight <= range.endBlock &&
                            ComesFrom(chain, packageId, row, tx)
  {
    hide Parsed, Selected, ComesFrom;
    var all := Selected(chain.rows, range, packageId);
    ParsedMembers(chain, packageId, all, tx);
    forall row ensures row in all <==>
      row in chain.rows && row.contractAddress == packageId && range.startBlock <= row.blockHeight <= range.endBlock
    {
      SelectedExactly(chain.rows, range, packageId, row);
      assert row in all <==> row in multiset(all);
      assert row in chain.rows <==> row in multiset(chain.rows);
    }
    assert forall i :: 0 <= i < |all| ==> all[i] in all;
  }

  // ----- Version order

  /** The indexer orders by version, and versions are unique. */
  ghost predicate InVersionOrder(rows: seq<Row>) {
    forall i, j :: 0 <= i < j < |rows| ==> rows[i].version < rows[j].version
  }

  /** The selected rows whose transaction is fetched and parsed. */
  function KeptRows(chain: Chain, packageId: string, rows: seq<Row>): seq<Row> {
    if rows == [] then []
    else
      var n := |rows| - 1;
      KeptRows(chain, packageId, rows[..n]) + (if ParsedRow(chain, packageId, rows[n]).Some? then [rows[n]] else [])
  }

  lemma {:induction false} ParsedAreKept(chain: Chain, packageId: string, rows: seq<Row>)
    ensures var kept := KeptRows(chain, packageId, rows);
            && |Parsed(chain, packageId, rows)| == |kept|
            && forall i :: 0 <= i < |kept| ==>
                 ParsedRow(chain, packageId, kept[i]) == Some(Parsed(chain, packageId, rows)[i])
  {
    hide ParsedRow;
    if rows != [] {
      ParsedAreKept(chain, packageId, rows[..|rows| - 1]);
    }
  }

  lemma AppendInOrder(kept: seq<Row>, row: Row)
    requires InVersionOrder(kept) && forall r :: r in kept ==> r.version < row.version
    ensures InVersionOrder(kept + [row])
  {
  }

  lemma {:induction false} SelectedInOrder(rows: seq<Row>, range: Range, packageId: string)
    requires InVersionOrder(rows)
    ensures InVersionOrder(Selected(rows, range, packageId))
    ensures forall r :: r in Selected(rows, range, packageId) ==> r in rows
  {
    if rows != [] {
      var n := |rows| - 1;
      SelectedInOrder(rows[..n], range, packageId);
      var before := Selected(rows[..n], range, packageId);
      forall r | r in before ensures r in rows && r.version < rows[n].version {
        var i :| 0 <= i < n && rows[..n][i] == r;
        assert rows[i] == r;
      }
      hide InVersionOrder;
      AppendInOrder(before, rows[n]);
      assert before + [] == before;
    }
  }

  lemma {:induction false} KeptInOrder(chain: Chain, packageId: string, rows: seq<Row>)
    requires InVersionOrder(rows)
    ensures InVersionOrder(KeptRows(chain, packageId, rows))
    ensures forall r :: r in KeptRows(chain, packageId, rows) ==> r in rows
  {
    hide ParsedRow;
    if rows != [] {
      var n := |rows| - 1;
      KeptInOrder(chain, packageId, rows[..n]);
      var before := KeptRows(chain, packageId, rows[..n]);
      forall r | r in before ensures r in rows && r.version < rows[n].version {
        var i :| 0 <= i < n && rows[..n][i] == r;
        assert rows[i] == r;
      }
      hide InVersionOrder;
      AppendInOrder(before, rows[n]);
      assert before + [] == before;
    }
  }

  /** The looked-up transactions are those of strictly increasing versions, one for each kept row. */
  lemma ParsedInVersionOrder(chain: Chain, range: Range, packageId: string)
    requires InVersionOrder(chain.rows)
    ensures var all := Selected(chain.rows, range, packageId);
            var kept := KeptRows(chain, packageId, all);
            && InVersionOrder(kept)
            && |Parsed(chain, packageId, all)| == |kept|
            && forall i :: 0 <= i < |kept| ==>
                 ParsedRow(chain, packageId, kept[i]) == Some(Parsed(chain, packageId, all)[i])
  {
    hide InVersionOrder, Selected, KeptRows, Parsed, ParsedRow;
    SelectedInOrder(chain.rows, range, packageId);
    KeptInOrder(chain, packageId, Selected(chain.rows, range, packageId));
    ParsedAreKept(chain, packageId, Selected(chain.rows, range, packageId));
  }
}
