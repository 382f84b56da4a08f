/** Scanning a slot range of a growing ledger, newest first, between two anchor transactions. */
module SolanaTxScanner {
  import opened Wrappers
  import opened Numbers

  const BOUNDARY_SLOT_WALK_LIMIT: nat := 8
  const TX_FETCHING_BATCH_SIZE: nat := 1000

  type Signature = nat

  datatype Tx = Tx(signature: Signature, slot: int, accounts: set<string>)

  datatype SignatureInfo = SignatureInfo(signature: Signature, slot: int)

  datatype ScanError = NoBlockFound(below: int) | CouldNotFetch(info: SignatureInfo)

  // ----- The ledger and what its server answers

  ghost predicate Ledger(chain: seq<Tx>) {
    && (forall i, j :: 0 <= i < j < |chain| ==> chain[i].slot <= chain[j].slot)
    && (forall i, j :: 0 <= i < j < |chain| ==> chain[i].signature != chain[j].signature)
  }

  predicate Has(chain: seq<Tx>, signature: Signature) {
    exists i :: 0 <= i < |chain| && chain[i].signature == signature
  }

  function IndexOf(chain: seq<Tx>, signature: Signature): (p: nat)
    requires Has(chain, signature)
    ensures p < |chain| && chain[p].signature == signature
  {
    var n := |chain| - 1;
    if chain[n].signature == signature then n else IndexOf(chain[..n], signature)
  }

  function InfoOf(tx: Tx): SignatureInfo {
    SignatureInfo(tx.signature, tx.slot)
  }

  /** The address's transactions at positions lo to hi, newest first. */
  function Between(chain: seq<Tx>, address: string, lo: nat, hi: nat): seq<SignatureInfo>
    requires hi <= |chain|
    decreases hi
  {
    if hi <= lo then []
    else (if address in chain[hi - 1].accounts then [InfoOf(chain[hi - 1])] else []) +
         Between(chain, address, lo, hi - 1)
  }

  predicate Knows(chain: seq<Tx>, signature: Option<Signature>) {
    signature.Some? ==> Has(chain, signature.value)
  }

  function First(chain: seq<Tx>, until: Option<Signature>): (lo: nat)
    requires Knows(chain, until)
    ensures if until.Some? then 0 < lo <= |chain| && chain[lo - 1].signature == until.value else lo == 0
  {
    if until.Some? then IndexOf(chain, until.value) + 1 else 0
  }

  function End(chain: seq<Tx>, before: Option<Signature>): (hi: nat)
    requires Knows(chain, before)
    ensures if before.Some? then hi < |chain| && chain[hi].signature == before.value else hi == |chain|
  {
    if before.Some? then IndexOf(chain, before.value) else |chain|
  }

  function Take<T>(s: seq<T>, limit: nat): (r: seq<T>)
    ensures r <= s && (|r| == limit || (r == s && |s| < limit))
  {
    if |s| <= limit then s else s[..limit]
  }

  /** `getSignaturesForAddress`: newest first, both bounds excluded, at most `limit`. */
  function SignaturesForAddress(
    chain: seq<Tx>, address: string, limit: nat, before: Option<Signature>,
    until: Option<Signature>): seq<SignatureInfo>
    requires Knows(chain, before) && Knows(chain, until)
  {
    Take(Between(chain, address, First(chain, until), End(chain, before)), limit)
  }

  function BlockSignatures(chain: seq<Tx>, slot: int): seq<Signature> {
    if chain == [] then []
    else
      var n := |chain| - 1;
      BlockSignatures(chain[..n], slot) + (if chain[n].slot == slot then [chain[n].signature] else [])
  }

  /** A skipped slot, or a block the server cannot serve, reads as no signatures. */
  function Served(chain: seq<Tx>, available: set<int>, slot: int): seq<Signature> {
    if slot in available then BlockSignatures(chain, slot) else []
  }

  // ----- Anchors

  function StepLimit(latestSlot: int, slot: int, direction: int): int {
    if direction < 0 then BOUNDARY_SLOT_WALK_LIMIT
    else if latestSlot - slot + 1 < BOUNDARY_SLOT_WALK_LIMIT then latestSlot - slot + 1
    else BOUNDARY_SLOT_WALK_LIMIT
  }

  /** The first `steps` slots of the walk serve no signature. */
  ghost predicate NothingServed(chain: seq<Tx>, available: set<int>, slot: int, direction: int, steps: int) {
    forall step :: 0 <= step < steps ==> Served(chain, available, slot + step * direction) == []
  }

  ghost predicate AnchorAt(
    chain: seq<Tx>, available: set<int>, slot: int, direction: int, step: int, anchor: Signature) {
    var block := Served(chain, available, slot + step * direction);
    && NothingServed(chain, available, slot, direction, step)
    && block != []
    && anchor == (if direction < 0 then block[|block| - 1] else block[0])
  }

  /** The anchor of the first served slot of the walk. */
  ghost predicate AnchorFound(
    chain: seq<Tx>, available: set<int>, slot: int, direction: int, limit: int, anchor: Signature) {
    exists step :: 0 <= step < limit && AnchorAt(chain, available, slot, direction, step, anchor)
  }

  method FindBoundaryAnchor(chain: seq<Tx>, available: set<int>, latestSlot: int, slot: int, direction: int)
      returns (anchor: Result<Option<Signature>, ScanError>)
    requires direction == -1 || direction == 1
    ensures var limit := StepLimit(latestSlot, slot, direction);
            match anchor
            case Failure(e) =>
              direction < 0 && e == NoBlockFound(slot) && NothingServed(chain, available, slot, direction, limit)
            case Success(None) => direction > 0 && NothingServed(chain, available, slot, direction, limit)
            case Success(Some(a)) => AnchorFound(chain, available, slot, direction, limit, a)
  {
    hide Served;
    var stepLimit := StepLimit(latestSlot, slot, direction);
    var step := 0;
    while step < stepLimit
      invariant 0 <= step && (step <= stepLimit || step == 0)
      invariant NothingServed(chain, available, slot, direction, step)
    {
      var signatures := Served(chain, available, slot + step * direction);
      if signatures != [] {
        var a := if direction < 0 then signatures[|signatures| - 1] else signatures[0];
        assert AnchorAt(chain, available, slot, direction, step, a);
        return Success(Some(a));
      }
      step := step + 1;
    }
    if direction < 0 {
      return Failure(NoBlockFound(slot));
    }
    return Success(None);
  }

  lemma {:induction false} BlockIsInSlot(chain: seq<Tx>, slot: int, k: nat)
    requires k < |BlockSignatures(chain, slot)|
    ensures exists i ::
              0 <= i < |chain| && chain[i].signature == BlockSignatures(chain, slot)[k] && chain[i].slot == slot
  {
    var n := |chain| - 1;
    var before := BlockSignatures(chain[..n], slot);
    if k < |before| {
      BlockIsInSlot(chain[..n], slot, k);
      var i :| 0 <= i < n && chain[..n][i].signature == before[k] && chain[..n][i].slot == slot;
      assert chain[i].signature == BlockSignatures(chain, slot)[k];
    } else {
      assert chain[n].signature == BlockSignatures(chain, slot)[k];
    }
  }

  /** An anchor is a transaction of the slot the walk stopped at. */
  lemma AnchorSlot(chain: seq<Tx>, available: set<int>, slot: int, direction: int, step: int, anchor: Signature)
    requires Ledger(chain) && AnchorAt(chain, available, slot, direction, step, anchor)
    ensures Has(chain, anchor) && chain[IndexOf(chain, anchor)].slot == slot + step * direction
  {
    var at := slot + step * direction;
    var block := BlockSignatures(chain, at);
    var k := if direction < 0 then |block| - 1 else 0;
    BlockIsInSlot(chain, at, k);
    var i :| 0 <= i < |chain| && chain[i].signature == block[k] && chain[i].slot == at;
    hide IndexOf;
    assert i == IndexOf(chain, anchor);
  }

  // ----- Paging

  /** The ledgers seen by the successive page requests of every address: each extends the one before. */
  ghost predicate Growing(base: seq<Tx>, views: (nat, nat) -> seq<Tx>) {
    && (forall a: nat, k: nat {:trigger views(a, k)} :: Ledger(views(a, k)) && base <= views(a, k))
    && (forall a: nat, j: nat, k: nat {:trigger views(a, j), views(a, k)} :: j <= k ==> views(a, j) <= views(a, k))
  }

  lemma SameIndex(chain: seq<Tx>, grown: seq<Tx>, signature: Signature)
    requires Ledger(grown) && chain <= grown && Has(chain, signature)
    ensures Has(grown, signature) && IndexOf(grown, signature) == IndexOf(chain, signature)
  {
    hide IndexOf;
    var p := IndexOf(chain, signature);
    assert grown[p].signature == signature;
    assert grown[IndexOf(grown, signature)].signature == signature;
  }

  lemma {:induction false} SameBetween(chain: seq<Tx>, grown: seq<Tx>, address: string, lo: nat, hi: nat)
    requires chain <= grown && hi <= |chain|
    ensures Between(grown, address, lo, hi) == Between(chain, address, lo, hi)
    decreases hi
  {
    hide Between;
    if lo < hi {
      assert grown[hi - 1] == chain[hi - 1];
      SameBetween(chain, grown, address, lo, hi - 1);
    }
    BetweenStep(chain, grown, address, lo, hi);
  }

  lemma BetweenStep(chain: seq<Tx>, grown: seq<Tx>, address: string, lo: nat, hi: nat)
    requires hi <= |chain| && hi <= |grown|
    requires lo < hi ==> grown[hi - 1] == chain[hi - 1]
    requires lo < hi ==> Between(grown, address, lo, hi - 1) == Between(chain, address, lo, hi - 1)
    ensures Between(grown, address, lo, hi) == Between(chain, address, lo, hi)
  {
  }

  /** A page is followed exactly by what lies before its oldest transaction. */
  lemma {:induction false} PageSplit(chain: seq<Tx>, address: string, lo: nat, hi: nat, k: nat)
    requires Ledger(chain) && hi <= |chain| && 0 < k <= |Between(chain, address, lo, hi)|
    ensures var all := Between(chain, address, lo, hi); var oldest := all[k - 1].signature;
            && Has(chain, oldest)
            && lo <= IndexOf(chain, oldest) < hi
            && all == all[..k] + Between(chain, address, lo, IndexOf(chain, oldest))
    decreases hi
  {
    hide IndexOf, Ledger;
    var all := Between(chain, address, lo, hi);
    var rest := Between(chain, address, lo, hi - 1);
    if address !in chain[hi - 1].accounts {
      assert all == rest;
      PageSplit(chain, address, lo, hi - 1, k);
    } else {
      assert all == [InfoOf(chain[hi - 1])] + rest;
      if k == 1 {
        IndexAt(chain, hi - 1);
        assert all[..1] == [InfoOf(chain[hi - 1])];
      } else {
        PageSplit(chain, address, lo, hi - 1, k - 1);
        SplitAfterHead(InfoOf(chain[hi - 1]), rest, k - 1, all);
      }
    }
  }

  lemma IndexAt(chain: seq<Tx>, i: nat)
    requires Ledger(chain) && i < |chain|
    ensures Has(chain, chain[i].signature) && IndexOf(chain, chain[i].signature) == i
  {
    hide IndexOf;
    assert chain[IndexOf(chain, chain[i].signature)].signature == chain[i].signature;
  }

  lemma SplitAfterHead<T>(x: T, rest: seq<T>, k: nat, all: seq<T>)
    requires k <= |rest| && all == [x] + rest
    ensures all[..k + 1] == [x] + rest[..k] && (k > 0 ==> all[k] == rest[k - 1])
    ensures forall tail :: rest == rest[..k] + tail ==> all == all[..k + 1] + tail
  {
    assert all[..k + 1] == [x] + rest[..k];
    forall tail | rest == rest[..k] + tail ensures all == all[..k + 1] + tail {
      assert [x] + (rest[..k] + tail) == ([x] + rest[..k]) + tail;
    }
  }

  lemma ViewGrows(base: seq<Tx>, views: (nat, nat) -> seq<Tx>, a: nat, k: nat)
    requires Growing(base, views)
    ensures Ledger(views(a, k)) && Ledger(views(a, k + 1)) && views(a, k) <= views(a, k + 1)
  {
  }

  /** What a later request before the oldest transaction of a page adds to it. */
  lemma NextPage(chain: seq<Tx>, later: seq<Tx>, address: string, until: Signature, before: Option<Signature>, k: nat)
    requires Ledger(chain) && Ledger(later) && chain <= later && Has(chain, until) && Knows(chain, before)
    requires 0 < k <= |Between(chain, address, First(chain, Some(until)), End(chain, before))|
    ensures var all := Between(chain, address, First(chain, Some(until)), End(chain, before));
            var oldest := Some(all[k - 1].signature);
            && Knows(later, Some(until)) && Knows(later, oldest)
            && End(later, oldest) < End(chain, before)
            && all == all[..k] + Between(later, address, First(later, Some(until)), End(later, oldest))
  {
    hide Between, IndexOf, Ledger;
    var lo, hi := First(chain, Some(until)), End(chain, before);
    var oldest := Between(chain, address, lo, hi)[k - 1].signature;
    PageSplit(chain, address, lo, hi, k);
    SameIndex(chain, later, oldest);
    SameIndex(chain, later, until);
    SameBetween(chain, later, address, lo, IndexOf(chain, oldest));
  }

  /**
   * Following full pages collects everything between the two anchors as the first request saw it, whatever
   * the ledger gains meanwhile.
   */
  method GetAllSignatureInfos(ghost base: seq<Tx>, views: (nat, nat) -> seq<Tx>, a: nat, k: nat, address: string,
                              minTxSig: Option<Signature>, maxTxSig: Option<Signature>)
      returns (result: seq<SignatureInfo>)
    requires Growing(base, views) && Knows(views(a, k), minTxSig) && Knows(views(a, k), maxTxSig)
    ensures var all := Between(views(a, k), address, First(views(a, k), minTxSig), End(views(a, k), maxTxSig));
            result == if minTxSig.Some? then all else Take(all, TX_FETCHING_BATCH_SIZE)
    decreases End(views(a, k), maxTxSig)
  {
    var chain := views(a, k);
    result := SignaturesForAddress(chain, address, TX_FETCHING_BATCH_SIZE, maxTxSig, minTxSig);
    ghost var lo, hi := First(chain, minTxSig), End(chain, maxTxSig);
    ghost var all := Between(chain, address, lo, hi);
    hide Between, IndexOf, Ledger;
    if |result| == TX_FETCHING_BATCH_SIZE && minTxSig.Some? {
      var oldest := result[|result| - 1];
      assert result == all[..TX_FETCHING_BATCH_SIZE];
      ViewGrows(base, views, a, k);
      hide Growing, First, End;
      NextPage(chain, views(a, k + 1), address, minTxSig.value, maxTxSig, TX_FETCHING_BATCH_SIZE);
      var previous := GetAllSignatureInfos(base, views, a, k + 1, address, minTxSig, Some(oldest.signature));
      result := result + previous;
    }
  }

  // ----- The range scan

  function Filtered(infos: seq<SignatureInfo>, fromSlot: int, toSlot: int): seq<SignatureInfo> {
    if infos == [] then []
    else
      (if infos[0].slot >= fromSlot && infos[0].slot <= toSlot then [infos[0]] else []) +
      Filtered(infos[1..], fromSlot, toSlot)
  }

  /** The specification: the address's transactions of the slot range among the first n, newest first. */
  function InRange(chain: seq<Tx>, address: string, fromSlot: int, toSlot: int, n: nat): seq<SignatureInfo>
    requires n <= |chain|
  {
    if n == 0 then []
    else
      var tx := chain[n - 1];
      (if address in tx.accounts && fromSlot <= tx.slot <= toSlot then [InfoOf(tx)] else []) +
      InRange(chain, address, fromSlot, toSlot, n - 1)
  }

  lemma {:induction false} FilteredConcat(s: seq<SignatureInfo>, t: seq<SignatureInfo>, fromSlot: int, toSlot: int)
    ensures Filtered(s + t, fromSlot, toSlot) == Filtered(s, fromSlot, toSlot) + Filtered(t, fromSlot, toSlot)
  {
    if s == [] {
      assert s + t == t;
    } else {
      assert (s + t)[1..] == s[1..] + t;
      FilteredConcat(s[1..], t, fromSlot, toSlot);
    }
  }

  /** Any two bounds that leave out nothing of the slot range filter to the range. */
  lemma {:induction false} BoundsSuffice(
    chain: seq<Tx>, address: string, fromSlot: int, toSlot: int, lo: nat, hi: nat, n: nat)
    requires n <= |chain|
    requires forall i :: 0 <= i < n && i < lo ==> chain[i].slot < fromSlot
    requires forall i :: hi <= i < n ==> chain[i].slot > toSlot
    ensures Filtered(Between(chain, address, lo, Min(hi, n)), fromSlot, toSlot) ==
            InRange(chain, address, fromSlot, toSlot, n)
    decreases n
  {
    if n > 0 {
      BoundsSuffice(chain, address, fromSlot, toSlot, lo, hi, n - 1);
      if lo < n <= hi {
        var head := if address in chain[n - 1].accounts then [InfoOf(chain[n - 1])] else [];
        FilteredConcat(head, Between(chain, address, lo, n - 1), fromSlot, toSlot);
      }
    }
  }

  ghost predicate Occurs(chain: seq<Tx>, address: string, fromSlot: int, toSlot: int, n: nat, x: SignatureInfo)
    requires n <= |chain|
  {
    exists i ::
      0 <= i < n && address in chain[i].accounts && fromSlot <= chain[i].slot <= toSlot && x == InfoOf(chain[i])
  }

  lemma {:induction false} RangeMembers(chain: seq<Tx>, address: string, fromSlot: int, toSlot: int, n: nat,
                                        x: SignatureInfo)
    requires n <= |chain|
    ensures x in InRange(chain, address, fromSlot, toSlot, n) <==> Occurs(chain, address, fromSlot, toSlot, n, x)
  {
    if n > 0 {
      RangeMembers(chain, address, fromSlot, toSlot, n - 1, x);
    }
  }

  lemma LaterIsNewer(chain: seq<Tx>, address: string, fromSlot: int, toSlot: int, n: nat, x: SignatureInfo)
    requires Ledger(chain) && n < |chain| && x in InRange(chain, address, fromSlot, toSlot, n)
    ensures x.signature != chain[n].signature && x.slot <= chain[n].slot
  {
    RangeMembers(chain, address, fromSlot, toSlot, n, x);
  }

  ghost predicate NewestFirstOnce(infos: seq<SignatureInfo>) {
    forall j, k :: 0 <= j < k < |infos| ==> infos[j].signature != infos[k].signature && infos[j].slot >= infos[k].slot
  }

  lemma OneNewer(x: SignatureInfo, rest: seq<SignatureInfo>)
    requires NewestFirstOnce(rest) && forall y :: y in rest ==> y.signature != x.signature && y.slot <= x.slot
    ensures NewestFirstOnce([x] + rest)
  {
  }

  lemma {:induction false} RangeOnce(chain: seq<Tx>, address: string, fromSlot: int, toSlot: int, n: nat)
    requires Ledger(chain) && n <= |chain|
    ensures NewestFirstOnce(InRange(chain, address, fromSlot, toSlot, n))
  {
    if n > 0 {
      RangeOnce(chain, address, fromSlot, toSlot, n - 1);
      var rest := InRange(chain, address, fromSlot, toSlot, n - 1);
      forall y | y in rest ensures y.signature != chain[n - 1].signature && y.slot <= chain[n - 1].slot {
        LaterIsNewer(chain, address, fromSlot, toSlot, n - 1, y);
      }
      hide NewestFirstOnce, Ledger;
      OneNewer(InfoOf(chain[n - 1]), rest);
      assert [] + rest == rest;
    }
  }

  /** The range lists exactly the address's transactions with a slot in it, each once, newest first. */
  lemma RangeIsExact(chain: seq<Tx>, address: string, fromSlot: int, toSlot: int)
    requires Ledger(chain)
    ensures NewestFirstOnce(InRange(chain, address, fromSlot, toSlot, |chain|))
    ensures forall x :: x in InRange(chain, address, fromSlot, toSlot, |chain|) <==>
                        Occurs(chain, address, fromSlot, toSlot, |chain|, x)
  {
    RangeOnce(chain, address, fromSlot, toSlot, |chain|);
    forall x ensures x in InRange(chain, address, fromSlot, toSlot, |chain|) <==>
                     Occurs(chain, address, fromSlot, toSlot, |chain|, x)
    {
      RangeMembers(chain, address, fromSlot, toSlot, |chain|, x);
    }
  }

  /** Once a later slot holds a transaction, growth of the ledger no longer changes the range. */
  lemma {:induction false} PassedRangeIsFixed(
    chain: seq<Tx>, grown: seq<Tx>, address: string, fromSlot: int, toSlot: int, i: nat, n: nat)
    requires Ledger(grown) && chain <= grown
    requires i < |chain| && chain[i].slot > toSlot && |chain| <= n <= |grown|
    ensures InRange(grown, address, fromSlot, toSlot, n) == InRange(chain, address, fromSlot, toSlot, |chain|)
    decreases n
  {
    assert n > |chain| ==> grown[i].slot <= grown[n - 1].slot && chain[i] == grown[i];
    if n > |chain| {
      hide Ledger;
      PassedRangeIsFixed(chain, grown, address, fromSlot, toSlot, i, n - 1);
    } else {
      SameRange(chain, grown, address, fromSlot, toSlot, n);
    }
  }

  lemma {:induction false} SameRange(chain: seq<Tx>, grown: seq<Tx>, address: string, fromSlot: int, toSlot: int,
                                     n: nat)
    requires chain <= grown && n <= |chain|
    ensures InRange(grown, address, fromSlot, toSlot, n) == InRange(chain, address, fromSlot, toSlot, n)
  {
    if n > 0 {
      SameRange(chain, grown, address, fromSlot, toSlot, n - 1);
      assert grown[n - 1] == chain[n - 1];
    }
  }

  /** What both anchors promise about the positions they cut off. */
  lemma AnchorsBound(
    base: seq<Tx>, chain: seq<Tx>, fromSlot: int, toSlot: int, lower: Signature, upper: Option<Signature>)
    requires Ledger(chain) && base <= chain && Has(base, lower) && base[IndexOf(base, lower)].slot < fromSlot
    requires upper.Some? ==> Has(base, upper.value) && base[IndexOf(base, upper.value)].slot > toSlot
    ensures Knows(chain, Some(lower)) && Knows(chain, upper)
    ensures forall i :: 0 <= i < |chain| && i < First(chain, Some(lower)) ==> chain[i].slot < fromSlot
    ensures forall i :: End(chain, upper) <= i < |chain| ==> chain[i].slot > toSlot
  {
    hide IndexOf;
    SameIndex(base, chain, lower);
    if upper.Some? {
      SameIndex(base, chain, upper.value);
    }
  }

  lemma AnchoredScan(base: seq<Tx>, chain: seq<Tx>, address: string, fromSlot: int, toSlot: int,
                     lower: Signature, upper: Option<Signature>)
    requires Ledger(chain) && base <= chain && Has(base, lower) && base[IndexOf(base, lower)].slot < fromSlot
    requires upper.Some? ==> Has(base, upper.value) && base[IndexOf(base, upper.value)].slot > toSlot
    ensures Knows(chain, Some(lower)) && Knows(chain, upper)
    ensures Filtered(Between(chain, address, First(chain, Some(lower)), End(chain, upper)), fromSlot, toSlot) ==
            InRange(chain, address, fromSlot, toSlot, |chain|)
  {
    hide IndexOf, Between, InRange, Filtered, Ledger, First, End;
    AnchorsBound(base, chain, fromSlot, toSlot, lower, upper);
    BoundsSuffice(chain, address, fromSlot, toSlot, First(chain, Some(lower)), End(chain, upper), |chain|);
  }

  lemma ViewExtends(base: seq<Tx>, views: (nat, nat) -> seq<Tx>, a: nat, k: nat)
    requires Growing(base, views)
    ensures Ledger(views(a, k)) && base <= views(a, k)
  {
  }

  /** The ranges of all addresses, each as its first page request saw the ledger. */
  function AllInRange(views: (nat, nat) -> seq<Tx>, addresses: seq<string>, fromSlot: int, toSlot: int,
                      count: nat): seq<SignatureInfo>
    requires count <= |addresses|
  {
    if count == 0 then []
    else
      var a := count - 1;
      AllInRange(views, addresses, fromSlot, toSlot, a) +
      InRange(views(a, 0), addresses[a], fromSlot, toSlot, |views(a, 0)|)
  }

  /** They hold exactly the transactions of some address that lie in the slots. */
  lemma {:induction false} AllInRangeMembers(views: (nat, nat) -> seq<Tx>, addresses: seq<string>, fromSlot: int,
                                             toSlot: int, count: nat, x: SignatureInfo)
    requires count <= |addresses|
    ensures x in AllInRange(views, addresses, fromSlot, toSlot, count) <==>
              exists a: nat :: a < count && Occurs(views(a, 0), addresses[a], fromSlot, toSlot, |views(a, 0)|, x)
  {
    if count > 0 {
      var a := count - 1;
      AllInRangeMembers(views, addresses, fromSlot, toSlot, a, x);
      RangeMembers(views(a, 0), addresses[a], fromSlot, toSlot, |views(a, 0)|, x);
    }
  }

  /** The range of the a-th address comes whole, after those before it. */
  lemma {:induction false} AllInRangeAt(views: (nat, nat) -> seq<Tx>, addresses: seq<string>, fromSlot: int,
                                        toSlot: int, count: nat, a: nat)
    requires a < count <= |addresses|
    ensures var start := |AllInRange(views, addresses, fromSlot, toSlot, a)|;
            var range := InRange(views(a, 0), addresses[a], fromSlot, toSlot, |views(a, 0)|);
            var all := AllInRange(views, addresses, fromSlot, toSlot, count);
            start + |range| <= |all| && all[start..start + |range|] == range
  {
    hide InRange;
    var start := |AllInRange(views, addresses, fromSlot, toSlot, a)|;
    var last := InRange(views(count - 1, 0), addresses[count - 1], fromSlot, toSlot, |views(count - 1, 0)|);
    var others := AllInRange(views, addresses, fromSlot, toSlot, count - 1);
    assert AllInRange(views, addresses, fromSlot, toSlot, count) == others + last;
    if a < count - 1 {
      AllInRangeAt(views, addresses, fromSlot, toSlot, count - 1, a);
      hide AllInRange;
      SliceOfPrefix(others, last, start, start + |InRange(views(a, 0), addresses[a], fromSlot, toSlot, |views(a, 0)|)|);
    }
  }

  lemma SliceOfPrefix<T>(a: seq<T>, b: seq<T>, from: nat, to: nat)
    requires from <= to <= |a|
    ensures (a + b)[from..to] == a[from..to]
  {
  }

  function Fetched(infos: seq<SignatureInfo>, served: map<Signature, Tx>): Result<seq<Tx>, ScanError> {
    if infos == [] then Success([])
    else if infos[0].signature !in served then Failure(CouldNotFetch(infos[0]))
    else
      var rest :- Fetched(infos[1..], served);
      Success([served[infos[0].signature]] + rest)
  }

  /** The first of the infos whose transaction is not served. */
  ghost predicate FirstMissing(infos: seq<SignatureInfo>, served: map<Signature, Tx>, i: nat) {
    && i < |infos| && infos[i].signature !in served
    && forall j :: 0 <= j < i ==> infos[j].signature in served
  }

  /** Each transaction at the place of its info, or the error of the first that is not served. */
  lemma {:induction false} FetchedExactly(infos: seq<SignatureInfo>, served: map<Signature, Tx>)
    ensures Fetched(infos, served).Success? <==> forall i :: 0 <= i < |infos| ==> infos[i].signature in served
    ensures var r := Fetched(infos, served);
            match r
            case Success(txs) =>
              |txs| == |infos| && forall i :: 0 <= i < |infos| ==>
                infos[i].signature in served && txs[i] == served[infos[i].signature]
            case Failure(e) => exists i: nat :: FirstMissing(infos, served, i) && e == CouldNotFetch(infos[i])
  {
    if infos != [] {
      FetchedExactly(infos[1..], served);
      assert forall i :: 1 <= i < |infos| ==> infos[i] == infos[1..][i - 1];
      if infos[0].signature !in served {
        assert FirstMissing(infos, served, 0);
      } else if Fetched(infos[1..], served).Failure? {
        var i: nat :| FirstMissing(infos[1..], served, i) &&
                      Fetched(infos[1..], served).error == CouldNotFetch(infos[1..][i]);
        assert infos[i + 1] == infos[1..][i];
        assert FirstMissing(infos, served, i + 1);
      }
    }
  }

  /** Of the eight slots below the range one holds a transaction and its block is served. */
  ghost predicate ServedBelow(base: seq<Tx>, available: set<int>, fromSlot: int) {
    exists i :: 0 <= i < |base| && fromSlot - 8 <= base[i].slot < fromSlot && base[i].slot in available
  }

  /** A block holds exactly the transactions of its slot. */
  lemma {:induction false} BlockExactly(chain: seq<Tx>, slot: int, signature: Signature)
    ensures signature in BlockSignatures(chain, slot) <==>
              exists i :: 0 <= i < |chain| && chain[i].slot == slot && chain[i].signature == signature
  {
    if chain != [] {
      BlockExactly(chain[..|chain| - 1], slot, signature);
    }
  }

  lemma ServesSomething(chain: seq<Tx>, available: set<int>, slot: int)
    ensures Served(chain, available, slot) != [] <==>
              slot in available && exists i :: 0 <= i < |chain| && chain[i].slot == slot
  {
    hide BlockSignatures;
    var block := BlockSignatures(chain, slot);
    if block != [] {
      BlockExactly(chain, slot, block[0]);
    }
    if i :| 0 <= i < |chain| && chain[i].slot == slot {
      BlockExactly(chain, slot, chain[i].signature);
    }
  }

  /** Downwards the walk takes eight slots; upwards as many, but not past the latest slot. */
  lemma WalkLength(latestSlot: int, slot: int)
    ensures StepLimit(latestSlot, slot, -1) == 8
    ensures latestSlot >= slot + 7 ==> StepLimit(latestSlot, slot, 1) == 8
    ensures latestSlot <= slot + 7 ==> slot + StepLimit(latestSlot, slot, 1) == latestSlot + 1
  {
  }

  lemma WalkBelow(base: seq<Tx>, available: set<int>, fromSlot: int)
    ensures NothingServed(base, available, fromSlot - 1, -1, BOUNDARY_SLOT_WALK_LIMIT) <==>
            !ServedBelow(base, available, fromSlot)
  {
    hide Served;
    if i :| 0 <= i < |base| && fromSlot - 8 <= base[i].slot < fromSlot && base[i].slot in available {
      var step := fromSlot - 1 - base[i].slot;
      ServesSomething(base, available, base[i].slot);
      assert base[i].slot == fromSlot - 1 + step * -1;
    }
    if !NothingServed(base, available, fromSlot - 1, -1, BOUNDARY_SLOT_WALK_LIMIT) {
      var step :| 0 <= step < 8 && Served(base, available, fromSlot - 1 + step * -1) != [];
      ServesSomething(base, available, fromSlot - 1 - step);
    }
  }

  /**
   * What a scan must give for the infos of the range: the transaction of each info in its place, exactly when a slot
   * below the range is served and so are all of them; otherwise the error of what is missing first.
   */
  ghost predicate ScanOutcome(base: seq<Tx>, availableBelow: set<int>, fromSlot: int, infos: seq<SignatureInfo>,
                              served: map<Signature, Tx>, txs: Result<seq<Tx>, ScanError>)
  {
    match txs
    case Success(found) =>
      && ServedBelow(base, availableBelow, fromSlot)
      && |found| == |infos|
      && forall i :: 0 <= i < |infos| ==> infos[i].signature in served && found[i] == served[infos[i].signature]
    case Failure(NoBlockFound(below)) => below == fromSlot - 1 && !ServedBelow(base, availableBelow, fromSlot)
    case Failure(CouldNotFetch(info)) =>
      && ServedBelow(base, availableBelow, fromSlot)
      && exists i: nat :: FirstMissing(infos, served, i) && info == infos[i]
  }

  lemma NoBlockOutcome(base: seq<Tx>, availableBelow: set<int>, latestSlot: int, fromSlot: int,
                       infos: seq<SignatureInfo>, served: map<Signature, Tx>)
    requires NothingServed(base, availableBelow, fromSlot - 1, -1, StepLimit(latestSlot, fromSlot - 1, -1))
    ensures ScanOutcome(base, availableBelow, fromSlot, infos, served, Failure(NoBlockFound(fromSlot - 1)))
  {
    WalkBelow(base, availableBelow, fromSlot);
    hide ServedBelow, NothingServed;
  }

  lemma FetchOutcome(base: seq<Tx>, availableBelow: set<int>, latestSlot: int, fromSlot: int,
                     infos: seq<SignatureInfo>, served: map<Signature, Tx>, step: int, anchor: Signature)
    requires 0 <= step < StepLimit(latestSlot, fromSlot - 1, -1)
    requires AnchorAt(base, availableBelow, fromSlot - 1, -1, step, anchor)
    ensures ScanOutcome(base, availableBelow, fromSlot, infos, served, Fetched(infos, served))
  {
    WalkBelow(base, availableBelow, fromSlot);
    assert Served(base, availableBelow, fromSlot - 1 + step * -1) != [];
    FetchedExactly(infos, served);
    hide ServedBelow, Fetched, FirstMissing, Served;
  }

  lemma LowerAnchor(base: seq<Tx>, available: set<int>, latestSlot: int, fromSlot: int, anchor: Signature,
                    infos: seq<SignatureInfo>, served: map<Signature, Tx>)
    requires Ledger(base)
    requires AnchorFound(base, available, fromSlot - 1, -1, StepLimit(latestSlot, fromSlot - 1, -1), anchor)
    ensures Has(base, anchor) && base[IndexOf(base, anchor)].slot < fromSlot
    ensures ScanOutcome(base, available, fromSlot, infos, served, Fetched(infos, served))
  {
    hide AnchorAt, StepLimit, ScanOutcome, IndexOf, Fetched, Ledger;
    var step :| 0 <= step < StepLimit(latestSlot, fromSlot - 1, -1) &&
                AnchorAt(base, available, fromSlot - 1, -1, step, anchor);
    AnchorSlot(base, available, fromSlot - 1, -1, step, anchor);
    FetchOutcome(base, available, latestSlot, fromSlot, infos, served, step, anchor);
  }

  lemma UpperAnchor(base: seq<Tx>, available: set<int>, latestSlot: int, toSlot: int, anchor: Signature)
    requires Ledger(base)
    requires AnchorFound(base, available, toSlot + 1, 1, StepLimit(latestSlot, toSlot + 1, 1), anchor)
    ensures Has(base, anchor) && base[IndexOf(base, anchor)].slot > toSlot
  {
    hide AnchorAt, StepLimit, IndexOf, Ledger;
    var step :| 0 <= step < StepLimit(latestSlot, toSlot + 1, 1) &&
                AnchorAt(base, available, toSlot + 1, 1, step, anchor);
    AnchorSlot(base, available, toSlot + 1, 1, step, anchor);
  }

  /**
   * The whole scan. `views(a, k)` is the ledger the k-th page request of the a-th address sees, `served` what
   * `getTransaction` answers. It fails only when no slot below the range is served or a transaction is missing.
   */
  method FetchTransactionsInRange(base: seq<Tx>, availableBelow: set<int>, availableAbove: set<int>, latestSlot: int,
                                  views: (nat, nat) -> seq<Tx>, served: map<Signature, Tx>,
                                  fromSlot: int, toSlot: int, addresses: seq<string>)
      returns (txs: Result<seq<Tx>, ScanError>)
    requires Ledger(base) && Growing(base, views)
    ensures ScanOutcome(base, availableBelow, fromSlot, AllInRange(views, addresses, fromSlot, toSlot, |addresses|),
                        served, txs)
  {
    ghost var infos := AllInRange(views, addresses, fromSlot, toSlot, |addresses|);
    hide *;
    var lower := FindBoundaryAnchor(base, availableBelow, latestSlot, fromSlot - 1, -1);
    if lower.Failure? {
      NoBlockOutcome(base, availableBelow, latestSlot, fromSlot, infos, served);
      return Failure(lower.error);
    }
    LowerAnchor(base, availableBelow, latestSlot, fromSlot, lower.value.value, infos, served);
    var upper := FindBoundaryAnchor(base, availableAbove, latestSlot, toSlot + 1, 1);
    if upper.value.Some? {
      UpperAnchor(base, availableAbove, latestSlot, toSlot, upper.value.value);
    }
    var filtered := FilterAll(base, views, addresses, fromSlot, toSlot, lower.value, upper.value);
    txs := Fetched(filtered, served);
  }

  /** Collecting every address and filtering by slot is the exact range of every address. */
  method FilterAll(ghost base: seq<Tx>, views: (nat, nat) -> seq<Tx>, addresses: seq<string>, fromSlot: int,
                   toSlot: int, minTxSig: Option<Signature>, maxTxSig: Option<Signature>)
      returns (filtered: seq<SignatureInfo>)
    requires Growing(base, views) && minTxSig.Some? && Has(base, minTxSig.value)
    requires base[IndexOf(base, minTxSig.value)].slot < fromSlot
    requires maxTxSig.Some? ==> Has(base, maxTxSig.value) && base[IndexOf(base, maxTxSig.value)].slot > toSlot
    ensures filtered == AllInRange(views, addresses, fromSlot, toSlot, |addresses|)
  {
    var all: seq<SignatureInfo> := [];
    assert Filtered(all, fromSlot, toSlot) == [];
    hide IndexOf, Between, InRange, Filtered, Ledger, First, End, Growing;
    for a := 0 to |addresses|
      invariant Filtered(all, fromSlot, toSlot) == AllInRange(views, addresses, fromSlot, toSlot, a)
    {
      ghost var chain := views(a, 0);
      ViewExtends(base, views, a, 0);
      AnchoredScan(base, chain, addresses[a], fromSlot, toSlot, minTxSig.value, maxTxSig);
      var infos := GetAllSignatureInfos(base, views, a, 0, addresses[a], minTxSig, maxTxSig);
      FilteredConcat(all, infos, fromSlot, toSlot);
      all := all + infos;
    }
    filtered := Filtered(all, fromSlot, toSlot);
  }
}
