# RedStone: a verified model

RedStone signs price packages off chain, delivers them through gateways, appends them to transactions, and
reads and pays for their delivery on many chains. This project models the parts of it whose correctness spans
whole runs, loops over variable layouts or several interacting functions, and proves their properties in Dafny.
`dafny verify dfyconfig.toml` checks everything.

The code that changes state step by step is modelled by methods and classes, each tied by its contract to a
function of the inputs or of the old state; the laws are lemmas about those functions.

| files | subject |
|---|---|
| `Bytes`, `BackwardsReading`, `DataPackage`, `SignedBytes`, `RedstonePayload`, `PayloadRoundTrip`, `VerbatimPayload` | the payload codec: a printer, and a parser that reads from the end of the data |
| `SplitPayloadHex` | the TON splitter, a second reader of the same layout |
| `Responses`, `Selection`, `NearestSelection`, `PackageSelection` | selecting accepted packages closest to the median |
| `ResponseCache`, `ResponseStorage`, `StorageTransparency`, `RequestRuns` | the response cache and the storage in front of the gateways |
| `PackageCover` | the greedy choice of multi-point and single-feed packages |
| `GatewayRace` | the race between gateways and a timer |
| `TrafficMeter`, `RealTrafficMeter`, `ConstTrafficMeter`, `TrafficBudget` | Canton traffic metering |
| `SolanaTxScanner` | the signature scan between anchors on a growing ledger |
| `PerManifestTxLookup`, `MovePerManifestTxLookup` | the cursor-map paging protocol and its offset-paging instance |
| `CacheWithTtl`, `BatchLookup`, `BatchRuns` | the Stellar batch lookup behind a cache |
| `GasOracles` | the two Solana priority-fee oracles |
| `Decimals`, `FixedPoint` | printing fixed-point values |
| `Wrappers`, `Numbers`, `Sets`, `Sorting` | shared types and helpers; the stable sort |

## What the proofs found

- A feed id with a NUL byte does not survive the payload round trip: the parser strips every NUL. All other
  writable payloads do (`PayloadRoundTrip.RoundTripExactly`). For the same reason ids that differ only in
  trailing NUL bytes are signed over the same bytes (`SignedBytes.SignedBytesIdentifyPackage`).
- The TON splitter cuts correctly exactly when every package is 142 bytes long. It only checks the total, so
  one-point packages with values of 31 and 33 bytes are accepted and cut at the wrong place
  (`SplitPayloadHex.MisalignedPackages`).
- The parser accepts more than the printer writes. Printing what it read, after the remainder, gives the data back
  exactly when everything was read within the data, every package has its points in canonical order, and no id in
  the data has a NUL byte but trailing ones (`VerbatimPayload.ReprintsExactly`).
- Selection throws exactly when for some feed more than half of the accepted values are zero, so that the median is.
  Otherwise it keeps the packages nearest to the medians, for packages of any number of points
  (`NearestSelection.AlwaysPicksNearestExactly`).
- A selection whose own median is zero cannot be selected again.
- A hit on a cache that holds multi-point packages may answer without a requested key
  (`StorageTransparency.UnansweredExample`). In runs of single-feed responses a hit answers every listed feed of a
  request that may not miss feeds, that is, one without `ignoreMissingFeed`
  (`StorageTransparency.RunsAnswerEveryKey`).
- The race resolves to the empty response when no collected response has a positive timestamp.
- The measuring meter can overbill exactly when a total rises after having dropped below an earlier one, because
  the last total is overwritten by every measurement (`RealTrafficMeter.NeverOverbillsExactly`, and
  `RealTrafficMeter.OverbillExample` with the totals 2, 1, 2). A fallback to the metadata cost is not remembered
  either: with nondecreasing totals and snapshots a byte is billed twice exactly when the bytes of some fallback
  are measured too or stand for another fallback (`RealTrafficMeter.BillsOnceExactly`).
- The constant meter can exceed its daily budget exactly when, after some update, the next listings of the feeds
  sent so far are more than the feeds it budgets for (`TrafficBudget.StaysInBudgetExactly`). That takes feeds listed
  repeatedly in one update, or more feeds than budgeted.
- A consumed cost is lost exactly when an exercise throws, or updates nothing on the constant meter, whose refund does
  nothing, after having consumed a cost (`TrafficMeter.NothingLostExactly`).
- The aggressive fee can drop from a market attempt to a cap attempt exactly when the cap share of that attempt is
  less than the whole cap (`GasOracles.AlwaysRisesExactly`).

## Model

| member | source | states |
|---|---|---|
| Bytes.NumberFieldRoundTrip | packages/protocol/src/common/utils.ts:33-49 | a number is written exactly when it is non-negative and fits the field, and the field reads back as it |
| Bytes.ShortFieldsAreSafe | packages/protocol/src/common/utils.ts:84 | every field of up to six bytes is read, never refused as unsafe |
| Bytes.ReadsSafeNumbers | packages/protocol/src/common/utils.ts:84 | a field reads as its value below 2^53, and is refused when empty or above |
| Bytes.LexLessIsNumeric | packages/protocol/src/data-package/DataPackage.ts:98-115 | comparing ids as hexadecimal strings is comparing their big-endian values, which is the sorting key |
| BackwardsReading.SliceTooEarly | packages/protocol/src/redstone-payload/RedstonePayloadParser.ts:180-186 | a slice that would start before the data starts at the negative index counted from the end, or at the first byte |
| BackwardsReading.ReadsConcat | packages/protocol/src/redstone-payload/RedstonePayloadParser.ts:34-70 | items written front to back come back in order when each is read where it ends, whatever their sizes |
| DataPackages.DataPackage.Create | packages/protocol/src/data-package/DataPackage.ts:28-46 | succeeds exactly on a non-empty list of equally long values; the error is the first failed assertion |
| DataPackages.DataPackage.SerializeDataPoints | packages/protocol/src/data-package/DataPackage.ts:98-115 | writes the sorted points and leaves them sorted; on duplicated ids fails and leaves them as they were |
| DataPackages.DataPackage.ToBytes | packages/protocol/src/data-package/DataPackage.ts:58-65 | writes the bytes of the package as it was before its points were sorted in place |
| SignedBytes.CanonicalOrder | packages/protocol/src/data-package/DataPackage.ts:98-115 | written points are strictly increasing in their 32-byte ids |
| SignedBytes.SignedBytesIgnoreOrder | packages/protocol/src/data-package/DataPackage.ts:58-65 | permuting the points changes neither the signed bytes nor the error |
| SignedBytes.SerializingTwice | packages/protocol/src/data-package/DataPackage.ts:98-115 | the sort in place changes no later serialization |
| SignedBytes.PackageWrites | packages/protocol/src/data-package/DataPackage.ts:58-65 | a package serializes if and only if its ids are distinct and its timestamp, value size and count fit their widths |
| SignedBytes.Bytes32IdentifiesTrimmed | packages/protocol/src/common/utils.ts:22-31 | two ids pad to the same 32 bytes if and only if they agree up to trailing NUL bytes |
| SignedBytes.SignedBytesIdentifyPackage | packages/protocol/src/data-package/DataPackage.ts:58-65 | two packages are signed over the same bytes if and only if timestamp and the multiset of points agree, ids up to trailing NUL bytes |
| RedstonePayloads.RedstonePayloadParser.ExtractDataPoints | packages/protocol/src/redstone-payload/RedstonePayloadParser.ts:128-152 | the loop reads the points from the last to the first, returns them in written order, and derives the package id from all of them |
| RedstonePayloads.RedstonePayloadParser.ExtractSignedDataPackage | packages/protocol/src/redstone-payload/RedstonePayloadParser.ts:96-168 | one package at an offset from the end, with every error of its fields, points and constructor |
| RedstonePayloads.RedstonePayloadParser.ExtractPackages | packages/protocol/src/redstone-payload/RedstonePayloadParser.ts:49-63 | the packages in written order and the offset reached by advancing over re-serialized lengths |
| RedstonePayloads.RedstonePayloadParser.Parse | packages/protocol/src/redstone-payload/RedstonePayloadParser.ts:34-70 | the whole parser refines the backwards-reading specification, errors included |
| PayloadRoundTrip.PackageAt | packages/protocol/src/redstone-payload/RedstonePayloadParser.ts:96-168 | wherever a printed package ends in the data, it is read with points in canonical order and the derived id |
| PayloadRoundTrip.ReserializedLength | packages/protocol/src/redstone-payload/RedstonePayloadParser.ts:49-55 | the re-serialized package has the bytes that were read, so the advance is exact |
| PayloadRoundTrip.PayloadWrites | packages/protocol/src/redstone-payload/RedstonePayload.ts:37-62 | a payload can be written if and only if its packages can and its counts fit |
| PayloadRoundTrip.PackageExample | packages/protocol/src/data-package/DataPackage.ts:58-115 | the bytes of one concrete package, field by field |
| PayloadRoundTrip.TailExample | packages/protocol/src/redstone-payload/RedstonePayload.ts:37-62 | the bytes after the packages of one concrete payload, field by field |
| PayloadRoundTrip.RoundTripWithPrefix | packages/protocol/src/redstone-payload/RedstonePayloadParser.ts:34-70 | parsing any prefix followed by a printed payload returns the packages in order, the metadata, and the prefix as remainder |
| PayloadRoundTrip.RoundTripExactly | packages/protocol/src/redstone-payload/RedstonePayloadParser.ts:34-172 | for every writable payload the round trip holds if and only if no feed id has a NUL byte |
| PayloadRoundTrip.NulExample | packages/protocol/src/redstone-payload/RedstonePayloadParser.ts:170-172 | a concrete writable payload with feed id 0x4100 that does not survive |
| PayloadRoundTrip.PrintsLikeParsed | packages/protocol/src/redstone-payload/RedstonePayload.ts:37-62 | a payload of parsed packages prints like the packages they were parsed from |
| PayloadRoundTrip.ReprintedPayload | packages/protocol/src/redstone-payload/RedstonePayload.ts:37-62 | printing what was parsed gives the same bytes |
| PayloadRoundTrip.DerivedPackageId | packages/protocol/src/redstone-payload/RedstonePayloadParser.ts:128-168 | the derived package id is the common feed id, or the multi-point id when the feeds differ; empty ids at the end do not count |
| PayloadRoundTrip.EmptyPackageId | packages/protocol/src/redstone-payload/RedstonePayloadParser.ts:128-168 | without any feed id the derived id is the empty-package id |
| VerbatimPayload.AdvanceExactly | packages/protocol/src/redstone-payload/RedstonePayloadParser.ts:49-55 | for any data, the advance is the length the package states if and only if its values are as long as it states |
| VerbatimPayload.PackageEndsExactly | packages/protocol/src/redstone-payload/RedstonePayloadParser.ts:96-168 | a package read anywhere prints as the bytes it was read from if and only if it lies within the data, its points are in canonical order, and its ids have only trailing NUL bytes |
| VerbatimPayload.ReprintsExactly | packages/protocol/src/redstone-payload/RedstonePayloadParser.ts:34-70 | for all accepted data, remainder and printed result join to the data if and only if tail and packages were read that way |
| VerbatimPayload.ReprintsPrinted | packages/protocol/src/redstone-payload/RedstonePayloadParser.ts:34-70 | these are exactly the data ended by a printed payload without NUL bytes in its ids |
| SplitPayloadHex.SplitPayload | packages/ton-connector/src/split-payload-hex.ts:5-50 | the splitting loop refines the chunk specification, errors included |
| SplitPayloadHex.HexNumbers | packages/ton-connector/src/split-payload-hex.ts:16-24 | a field of the text is refused when it is empty, not hexadecimal, or 2^53 and above |
| SplitPayloadHex.HexDigits | packages/ton-connector/src/split-payload-hex.ts:16-24 | digits of either case read as their value, nothing else does |
| SplitPayloadHex.SubstringExactly | packages/ton-connector/src/split-payload-hex.ts:16-32 | indices outside the text stop at its ends, in either order |
| SplitPayloadHex.SplitterAccepts | packages/ton-connector/src/split-payload-hex.ts:5-50 | a printed payload is accepted if and only if the total size of its packages is 142 bytes times their count |
| SplitPayloadHex.SplitterAgreesWithSerializer | packages/ton-connector/src/split-payload-hex.ts:5-50 | chunk i is package i and the metadata the printed tail if and only if every package is 142 bytes long |
| SplitPayloadHex.AssumedSize | packages/ton-connector/src/split-payload-hex.ts:8-14 | 142 bytes mean one point with a 32-byte value, or two points with empty values |
| SplitPayloadHex.SplitIsLossless | packages/ton-connector/src/split-payload-hex.ts:5-50 | chunks and metadata of anything accepted join to the input |
| SplitPayloadHex.MisalignedPackages | packages/ton-connector/src/split-payload-hex.ts:5-50 | values of 31 and 33 bytes are accepted and the first chunk is not the first package |
| SplitPayloadHex.MisalignedExample | packages/ton-connector/src/split-payload-hex.ts:5-50 | a concrete payload of that kind |
| Responses.ConsistentFeedIds | packages/sdk/src/request-data-packages-common.ts:19-25 | exactly the feed ids every package of the list carries |
| Responses.ResponseTimestampExactly | packages/sdk/src/request-data-packages-common.ts:12-14 | the timestamp of the first package of the first defined entry, otherwise 0 |
| Responses.MultiPointExactly | packages/utils/src/common/misc.ts:138-139 | multi-point ids are the texts between double underscores, among them the id the parser derives |
| Responses.ResponseFeedIdsExactly | packages/sdk/src/request-data-packages-common.ts:95-110 | the keys, unless one is multi-point; then the feeds that defined entries carry, by their packages' points or their own key |
| Selection.GetAllValues | packages/sdk/src/pick-closest-to-median.ts:48-58 | the nested loops collect every value of every feed, in order |
| Selection.GetMaxDistanceFromMedian | packages/sdk/src/pick-closest-to-median.ts:36-46 | the loop computes the largest distance or the division error of any point |
| Selection.MedianSplits | packages/utils/src/ISafeNumber/ISafeNumberMath.ts:31-53 | at least half the values are at most the median and at least half are at least it |
| Selection.PickedAreClosest | packages/sdk/src/pick-closest-to-median.ts:5-34 | the picked packages are as many as asked or all, of the given ones, and none left out is closer |
| Selection.DistancesDefinedExactly | packages/sdk/src/pick-closest-to-median.ts:36-46 | selection throws if and only if the median of some feed is zero |
| Selection.DistanceIsRelativeDeviation | packages/sdk/src/pick-closest-to-median.ts:36-46 | with positive medians the distance bounds every point's relative deviation and is attained |
| NearestSelection.ZeroMedianExactly | packages/utils/src/ISafeNumber/ISafeNumberMath.ts:31-53 | the median of values that are not negative is zero if and only if more than half of them are zero |
| NearestSelection.NoZeroMedianExactly | packages/sdk/src/pick-closest-to-median.ts:5-34 | no median is zero if and only if for no feed more than half of the values are zero |
| NearestSelection.DistanceBounds | packages/sdk/src/pick-closest-to-median.ts:36-46 | the computed distance is the largest relative deviation of the points, so it orders the packages by their true distance |
| NearestSelection.PicksNearestWhenItSucceeds | packages/sdk/src/pick-closest-to-median.ts:5-46 | whenever selection does not throw, no package left out is nearer to the medians than a kept one |
| NearestSelection.AlwaysPicksNearestExactly | packages/sdk/src/pick-closest-to-median.ts:5-46 | the nearest packages are kept for every number asked if and only if no median is zero |
| NearestSelection.SingleFeedPicksNearest | packages/sdk/src/pick-closest-to-median.ts:5-46 | for packages of one feed, no value left out is nearer to the median than one that is kept |
| PackageSelection.FilterAndSelect | packages/sdk/src/filter-and-select-data-packages.ts:42-84 | the loop with its three error modes refines the selection specification; with verification on, every returned package has a listed signer |
| PackageSelection.SelectionContract | packages/sdk/src/filter-and-select-data-packages.ts:42-133 | exactly the asked number of packages, a sub-multiset of the response, all of listed signers, one timestamp no further from the clock than allowed, before or after; no excluded accepted package is nearer to the medians |
| PackageSelection.ValidationOutcome | packages/sdk/src/filter-and-select-data-packages.ts:86-133 | each outcome of the validation in terms of the packages of listed signers: too few, none, different timestamps, outside the deviation, or exactly they |
| PackageSelection.FewSignersFail | packages/sdk/src/filter-and-select-data-packages.ts:98-122 | a feed with no package of a listed signer, or fewer than asked for, fails, each with its own error |
| PackageSelection.SelectionErrors | packages/sdk/src/filter-and-select-data-packages.ts:53-82 | when missing feeds are not ignored, all errors are thrown together in order, or the first alone |
| PackageSelection.SelectionIsIdempotent | packages/sdk/src/filter-and-select-data-packages.ts:42-84 | selecting again keeps the same multiset if and only if no median of the selection is zero; otherwise it throws |
| PackageSelection.ValidationIsIdempotent | packages/sdk/src/filter-and-select-data-packages.ts:86-133 | without median selection a second run returns the same list |
| PackageSelection.SelectedZeroFails | packages/sdk/src/pick-closest-to-median.ts:36-46 | a concrete selection that cannot be selected again |
| PackageSelection.SelectionIsPerFeed | packages/sdk/src/filter-and-select-data-packages.ts:42-84 | succeeds if and only if every requested feed can be selected or missing ones are ignored; returns exactly the selectable requested feeds, each with its own selection |
| ResponseCache.DataPackagesResponseCache.Update | packages/sdk/src/DataPackagesResponseCache.ts:21-26 | holds the given object itself with the given parameters |
| ResponseCache.DataPackagesResponseCache.DeleteFromResponse | packages/sdk/src/DataPackagesResponseCache.ts:28-40 | returns a defined entry and removes it alone; the held object is replaced by a copy, never changed |
| ResponseCache.DataPackagesResponseCache.TakeFromOther | packages/sdk/src/DataPackagesResponseCache.ts:42-50 | shares the other cache's object and parameters if it has both, else empties; leaves the other as it was; taking from itself empties |
| ResponseCache.DataPackagesResponseCache.MaybeExtend | packages/sdk/src/DataPackagesResponseCache.ts:52-108 | the new state and result for every refusal and for the extension by a fresh object |
| ResponseCache.DataPackagesResponseCache.Get | packages/sdk/src/DataPackagesResponseCache.ts:121-152 | answers exactly the conforming requests, with the held object itself when nothing is filtered out |
| ResponseCache.GetExactly | packages/sdk/src/DataPackagesResponseCache.ts:121-217 | answers exactly the requests with equal parameters, no more signers and only known feeds unless missing ones are ignored; which entries it then returns |
| ResponseCache.ExtendExactly | packages/sdk/src/DataPackagesResponseCache.ts:52-108 | extends exactly when neither side returns all packages, the parameters are covered and no feed is shared; to the union of responses and of feeds |
| ResponseCache.DeleteAfterCopy | packages/sdk/src/DataPackagesResponseCache.ts:28-50 | deleting from a copy changes neither the original cache nor the shared object |
| ResponseCache.ExtensionIsDisjointUnion | packages/sdk/src/DataPackagesResponseCache.ts:52-108 | a refused extension changes nothing; an extension of single-feed responses is a disjoint union |
| ResponseCache.CacheProvenance | packages/sdk/src/DataPackagesResponseCache.ts:21-119 | after any run over any number of caches, every cached feed was supplied with comparable parameters equal to the cached ones and at most their signer count |
| ResponseCache.RunAll | packages/sdk/src/DataPackagesResponseCache.ts:21-119 | cache objects that share responses hold after a run of operations what the lemmas say |
| ResponseCache.OpExactly | packages/sdk/src/DataPackagesResponseCache.ts:21-119 | what each operation of a run leaves in its own cache; all others keep theirs |
| ResponseCache.CachesStaySingleFeed | packages/sdk/src/DataPackagesResponseCache.ts:21-119 | over any run of updates, extensions, deletions and copies with single-feed responses, every cache holds single-feed keys only |
| ResponseCache.CacheExtensionsAreDisjoint | packages/sdk/src/DataPackagesResponseCache.ts:52-108 | in such a run an extension that is not refused is a disjoint union |
| ResponseStorage.DataPackagesResponseStorage.PurgeStale | packages/sdk/src/DataPackagesResponseStorage.ts:112-119 | exactly the entries within the time to live stay |
| ResponseStorage.DataPackagesResponseStorage.GetLatestEntry | packages/sdk/src/DataPackagesResponseStorage.ts:91-110 | the entry of the greatest timestamp, if latest entries are allowed and it is young enough |
| ResponseStorage.DataPackagesResponseStorage.Get | packages/sdk/src/DataPackagesResponseStorage.ts:31-57 | answers from the consulted entry after purging, and changes nothing else |
| ResponseStorage.DataPackagesResponseStorage.Set | packages/sdk/src/DataPackagesResponseStorage.ts:59-85 | extends or replaces the entry of the response's timestamp; an empty response only purges |
| ResponseStorage.AnswerForTimestamp | packages/sdk/src/DataPackagesResponseStorage.ts:31-57 | a request for a timestamp is answered by the cache of that very timestamp while it is not stale, else not at all |
| ResponseStorage.AnswerForLatest | packages/sdk/src/DataPackagesResponseStorage.ts:31-110 | any other request is answered by the cache of the greatest stored timestamp while that is within both times to live, else not at all |
| ResponseStorage.SetExactly | packages/sdk/src/DataPackagesResponseStorage.ts:59-85 | a stored response is in the cache of its timestamp, united with what that held exactly when it may be extended; all other entries that are not stale stay |
| ResponseStorage.StoredIsFound | packages/sdk/src/DataPackagesResponseStorage.ts:31-85 | a stored single-feed response is found again by its timestamp until it is stale |
| StorageTransparency.RequestDataPackages | packages/sdk/src/request-data-packages.ts:131-155 | the result and the new storage for every path: refusals, hits, hits that fail selection, misses |
| StorageTransparency.RequestPaths | packages/sdk/src/request-data-packages.ts:131-155 | the refusals, and that a fetched response counts exactly when there is no hit that selection accepts |
| StorageTransparency.RequestLeaves | packages/sdk/src/request-data-packages.ts:131-155 | a refusal changes nothing, a hit only purges, and a fetched response is stored |
| StorageTransparency.RunIsFaithful | packages/sdk/src/DataPackagesResponseStorage.ts:59-85 | after any run every stored value is the one supplied last for its key and timestamp |
| StorageTransparency.HitsAreLastSupplied | packages/sdk/src/DataPackagesResponseStorage.ts:31-57 | no hit is older than the time to live, and every key of it holds what was supplied last |
| StorageTransparency.HitsForTimestamp | packages/sdk/src/DataPackagesResponseStorage.ts:31-57 | after any run a request for a timestamp hits if and only if that timestamp is stored, not stale and its cache answers, with what was last supplied for it |
| StorageTransparency.HitsForLatest | packages/sdk/src/DataPackagesResponseStorage.ts:31-110 | any other hit comes from the greatest stored timestamp, no older than the limits, with what was last supplied for it |
| StorageTransparency.StorageIsTransparent | packages/sdk/src/request-data-packages.ts:141-154 | selecting a feed from a hit gives exactly what selecting it from the gateway response that last supplied it gives |
| StorageTransparency.HitsConform | packages/sdk/src/DataPackagesResponseCache.ts:155-217 | the responses behind a hit were requested for the same service, signers, deviation, missing-feed and all-packages settings |
| StorageTransparency.HitsAnswerEveryKey | packages/sdk/src/DataPackagesResponseCache.ts:121-152 | one cache answers every hit on all requested keys if and only if its feed ids are keys |
| StorageTransparency.RunStaysSingleFeed | packages/sdk/src/DataPackagesResponseStorage.ts:59-85 | in a run of single-feed responses every cached response has single-feed keys only |
| StorageTransparency.RunsAnswerEveryKey | packages/sdk/src/DataPackagesResponseStorage.ts:31-85 | after any run of single-feed responses, a hit that may not miss feeds answers every requested feed |
| StorageTransparency.RunExtensionsAreDisjoint | packages/sdk/src/DataPackagesResponseStorage.ts:59-85 | in such a run an extension is a disjoint union and overwrites nothing |
| StorageTransparency.UnansweredFeed | packages/sdk/src/DataPackagesResponseCache.ts:219-228 | a feed that only a multi-point package carries is a hit without its key |
| StorageTransparency.UnansweredExample | packages/sdk/src/DataPackagesResponseCache.ts:219-228 | a concrete cache with one multi-point package that answers its feed without the feed's key |
| RequestRuns.ServeAll | packages/sdk/src/request-data-packages.ts:131-155 | a run of requests on one storage gives the results and the storage the lemmas speak of |
| RequestRuns.ResultsAt | packages/sdk/src/request-data-packages.ts:131-155 | each request of a run is answered from the storage the requests before it have left |
| RequestRuns.RequestsAreTransparent | packages/sdk/src/request-data-packages.ts:131-155 | over every run of requests, each feed of each result is selected from what the request itself fetched, or from what the last earlier request supplied for it, under the timestamp it names or else the greatest stored one, within the times to live |
| RequestRuns.FetchedIsServed | packages/sdk/src/request-data-packages.ts:131-155 | what a request fetched answers the later requests for its timestamp until it is stale |
| RequestRuns.RefusedHitsFallBack | packages/sdk/src/request-data-packages.ts:141-154 | a hit that selection refuses is answered as if nothing were stored |
| PackageCover.RetainKeepsAdding | packages/sdk/src/request-data-packages-common.ts:55-93 | the pass keeps exactly the entries that add a requested feed to all entries before them |
| PackageCover.RetainedExactly | packages/sdk/src/request-data-packages-common.ts:55-93 | an entry is returned, unchanged, if and only if it adds a feed in the order multi-point first |
| PackageCover.RequestedFeedsCovered | packages/sdk/src/request-data-packages-common.ts:55-93 | every requested feed that the packages of some entry carry is carried by a returned entry, returned as it was |
| PackageCover.SingleFeedRetained | packages/sdk/src/request-data-packages-common.ts:27-93 | a single-feed entry is returned if and only if its feed is requested and no multi-point entry carries it, nor an entry with an empty key that comes before it |
| Sorting.SortKeepsOrder | packages/sdk/src/request-data-packages-common.ts:60-64 | sorting never moves an element before an earlier one of the same key |
| GatewayRace.Race.CheckResults | packages/sdk/src/fetch-data-packages.ts:149-175 | settles at most once, with the newest collected response or a rejection, exactly in the cases of the source |
| GatewayRace.Race.OnTimer | packages/sdk/src/fetch-data-packages.ts:140-147 | marks the timeout and checks |
| GatewayRace.Race.OnFulfilled | packages/sdk/src/fetch-data-packages.ts:177-193 | collects a response that selection accepts, otherwise an error |
| GatewayRace.EveryInterleaving | packages/sdk/src/fetch-data-packages.ts:126-195 | after any interleaving: settled at most once, settled once all were checked, settled after the timeout once a success was checked, rejected if and only if every gateway failed |
| GatewayRace.ResolvingStep | packages/sdk/src/fetch-data-packages.ts:149-175 | it resolves with at least one success, after all reported or the timeout, to a response no older than any collected |
| GatewayRace.SettlesInTime | packages/sdk/src/fetch-data-packages.ts:126-195 | waiting ends when the timer fires or if there is none; from then on the first checked success settles, before only when all have reported |
| GatewayRace.ResolvedIsSelectable | packages/sdk/src/fetch-data-packages.ts:177-193 | over every interleaving, what is collected, and so a resolved response of positive timestamp, passed selection |
| GatewayRace.NewestIsMax | packages/sdk/src/fetch-data-packages.ts:165-168 | none collected is newer; the result is a collected one if some timestamp is positive, otherwise the empty response |
| GatewayRace.FirstNewestWins | packages/sdk/src/fetch-data-packages.ts:165-168 | of the newest responses the first collected wins |
| GatewayRace.QuiescentSettledExactly | packages/sdk/src/fetch-data-packages.ts:126-195 | a run with all chains checked and no timer running has settled if and only if there were gateways or a timer |
| TrafficMeter.CantonTrafficMeter.ConsumeAccumulated | packages/canton-connector/src/tx/CantonTrafficMeter.ts:31-42 | returns the rounded accumulated cost and leaves zero |
| TrafficMeter.CantonTrafficMeter.AddPaidTrafficCost | packages/canton-connector/src/tx/CantonTrafficMeter.ts:48-64 | an accumulating meter grows by a defined positive cost and by nothing else |
| TrafficMeter.PricesCantonContractAdapter.StartExercise | packages/canton-connector/src/adapters/PricesCantonContractAdapter.ts:49-50 | takes the accumulated cost, rounded to the nearest integer, for one more update in flight and leaves zero |
| TrafficMeter.PricesCantonContractAdapter.FinishExercise | packages/canton-connector/src/adapters/PricesCantonContractAdapter.ts:59-81 | the cost in flight is charged when the exercise updated, given back to the meter when it did not and the meter takes refunds, and lost otherwise |
| TrafficMeter.ChargedExactly | packages/canton-connector/src/adapters/PricesCantonContractAdapter.ts:49-81 | over every run, charged is the sum of the costs in flight at exactly the exercises that updated, lost the sum at those that threw or, without refunds, updated nothing |
| TrafficMeter.BooksCount | packages/canton-connector/src/tx/CantonTrafficMeter.ts:48-64 | over every run, added is the sum of the non-negative costs of its events |
| TrafficMeter.RoundsHalvesUp | packages/canton-connector/src/tx/CantonTrafficMeter.ts:32 | the consumed cost is the nearest integer, the upper one of two |
| TrafficMeter.TrafficConserved | packages/canton-connector/src/tx/CantonTrafficMeter.ts:31-64 | over any interleaving, what was added equals what is charged, lost, in flight or accumulated, within half a unit for every consumption |
| TrafficMeter.IntegerTrafficConserved | packages/canton-connector/src/tx/CantonTrafficMeter.ts:31-64 | with integer costs the balance is exact |
| TrafficMeter.NothingLostExactly | packages/canton-connector/src/adapters/PricesCantonContractAdapter.ts:49-81 | over any run nothing is lost if and only if every exercise that threw, or updated nothing without refunds, had consumed nothing |
| TrafficMeter.ThrownExerciseLoses | packages/canton-connector/src/adapters/PricesCantonContractAdapter.ts:59-73 | a run in which an exercise throws and its whole consumed cost is lost |
| RealTrafficMeter.RealCantonTrafficMeter.RegisterMeasured | packages/canton-connector/src/tx/RealCantonTrafficMeter.ts:41-56 | bills the total less the later of snapshot and last total, and remembers the total |
| RealTrafficMeter.RealCantonTrafficMeter.AfterUpdate | packages/canton-connector/src/tx/RealCantonTrafficMeter.ts:22-39 | registers a complete measurement, otherwise falls back to the metadata cost |
| RealTrafficMeter.RealCantonTrafficMeter.RegisterAll | packages/canton-connector/src/tx/RealCantonTrafficMeter.ts:41-56 | a run of measurements accumulates exactly the bill the lemmas speak of |
| RealTrafficMeter.BillsAtMostMeasured | packages/canton-connector/src/tx/RealCantonTrafficMeter.ts:41-56 | the bill is at most the number of bytes measured at least once, if no total rises after a drop |
| RealTrafficMeter.BillsAtMostGrowth | packages/canton-connector/src/tx/RealCantonTrafficMeter.ts:41-56 | with nondecreasing totals the bill is at most the measured bytes, and at most the growth since the first snapshot |
| RealTrafficMeter.BillsExactlyMeasured | packages/canton-connector/src/tx/RealCantonTrafficMeter.ts:41-56 | with nondecreasing snapshots too, the bill is exactly the measured bytes |
| RealTrafficMeter.NeverOverbillsExactly | packages/canton-connector/src/tx/RealCantonTrafficMeter.ts:54 | for given totals, no snapshots lead to an overbill if and only if no total rises after having dropped below an earlier one |
| RealTrafficMeter.OverbillExample | packages/canton-connector/src/tx/RealCantonTrafficMeter.ts:54 | totals 2, 1, 2, each after a snapshot of zero, bill three bytes where two are measured |
| RealTrafficMeter.UpdateAll | packages/canton-connector/src/tx/RealCantonTrafficMeter.ts:18-56 | a run of complete and incomplete measurements accumulates exactly the mixed bill |
| RealTrafficMeter.MixedBillBound | packages/canton-connector/src/tx/RealCantonTrafficMeter.ts:22-56 | without a rise after a drop, the mixed bill is at most the measured bytes and the fallback costs |
| RealTrafficMeter.MixedBillExactly | packages/canton-connector/src/tx/RealCantonTrafficMeter.ts:22-56 | with nondecreasing totals and snapshots the mixed bill is the measured bytes and the fallback costs |
| RealTrafficMeter.BillsOnceExactly | packages/canton-connector/src/tx/RealCantonTrafficMeter.ts:22-56 | given the bytes each fallback stands for, no byte is billed twice if and only if those bytes are disjoint from the measured ones and from each other |
| RealTrafficMeter.FallbackBilledTwice | packages/canton-connector/src/tx/RealCantonTrafficMeter.ts:22-56 | a fallback followed by a measurement of the same bytes bills each of them twice |
| ConstTrafficMeter.ConstCantonTrafficMeter.AfterUpdate | packages/canton-connector/src/tx/ConstCantonTrafficMeter.ts:25-50 | adds the cost of the capped elapsed times and restarts the clock of every sent feed |
| ConstTrafficMeter.CappedExactly | packages/canton-connector/src/tx/ConstCantonTrafficMeter.ts:42-50 | a gap of an hour or more bills exactly an hour, a shorter one itself, a feed never sent nothing |
| ConstTrafficMeter.UpdateAll | packages/canton-connector/src/tx/ConstCantonTrafficMeter.ts:25-50 | a run of updates accumulates exactly the cost the lemmas speak of |
| TrafficBudget.StaysInBudgetExactly | packages/canton-connector/src/tx/ConstCantonTrafficMeter.ts:25-50 | given feed lists keep the daily budget under every clock that does not go back if and only if no gap loads more listings than there are budgeted feeds |
| TrafficBudget.BudgetBound | packages/canton-connector/src/tx/ConstCantonTrafficMeter.ts:25-50 | distinct feeds per update, from no more feeds than budgeted, keep the budget |
| TrafficBudget.RepeatedFeed | packages/canton-connector/src/tx/ConstCantonTrafficMeter.ts:25-50 | a feed sent once and then listed n times keeps the budget if and only if n feeds are budgeted |
| SolanaTxScanner.FindBoundaryAnchor | packages/solana-connector/src/client/SolanaTxScanner.ts:41-74 | the anchor of the first served slot of the walk, nothing above, an error below when no slot of the walk is served |
| SolanaTxScanner.AnchorSlot | packages/solana-connector/src/client/SolanaTxScanner.ts:41-60 | an anchor is a transaction of the slot where the walk stopped |
| SolanaTxScanner.PageSplit | packages/solana-connector/src/client/SolanaTxScanner.ts:76-94 | what lies before a page's oldest transaction is exactly the rest, with nothing missed or repeated |
| SolanaTxScanner.GetAllSignatureInfos | packages/solana-connector/src/client/SolanaTxScanner.ts:76-94 | the recursion terminates with everything between the anchors as first seen, whatever the ledger gains meanwhile |
| SolanaTxScanner.FetchTransactionsInRange | packages/solana-connector/src/client/SolanaTxScanner.ts:13-39 | gives the served transaction of every signature of the range in its place, if and only if one of the eight slots below holds a served block and no transaction is missing; otherwise the error of what is missing first |
| SolanaTxScanner.FetchedExactly | packages/solana-connector/src/client/SolanaTxScanner.ts:25-39 | each transaction at the place of its signature, or the error of the first that is not served |
| SolanaTxScanner.AllInRangeMembers | packages/solana-connector/src/client/SolanaTxScanner.ts:19-23 | the filtered signatures are exactly those of some address in the slots |
| SolanaTxScanner.AllInRangeAt | packages/solana-connector/src/client/SolanaTxScanner.ts:19-23 | the range of every address comes whole, in the order of the addresses |
| SolanaTxScanner.WalkLength | packages/solana-connector/src/client/SolanaTxScanner.ts:41-46 | eight slots downwards; upwards as many, but not past the latest slot |
| SolanaTxScanner.RangeIsExact | packages/solana-connector/src/client/SolanaTxScanner.ts:13-28 | the range holds a signature if and only if the ledger has it for that address in those slots, each once, newest first |
| SolanaTxScanner.PassedRangeIsFixed | packages/solana-connector/src/client/SolanaTxScanner.ts:13-28 | once a later slot holds a transaction, growth of the ledger no longer changes the range |
| PerManifestTxLookup.FetchPage | packages/multichain-kit/src/tx-lookup/PerManifestTxLookup.ts:17-55 | one page fails if and only if a fetch of an active manifest fails; otherwise it gathers their items in order and names exactly those with another page |
| PerManifestTxLookup.PiecesAndRest | packages/multichain-kit/src/tx-lookup/PerManifestTxLookup.ts:17-55 | a manifest's pieces so far and what its cursor still leads to are its whole stream |
| PerManifestTxLookup.NextRound | packages/multichain-kit/src/tx-lookup/PerManifestTxLookup.ts:34-52 | the next cursor map holds exactly the unfinished manifests with their own cursors |
| PerManifestTxLookup.FetchAllPages | packages/multichain-kit/src/tx-lookup/PerManifestTxLookup.ts:17-55 | for any pager whose cursors end, following the cursor map terminates, fails if and only if some page fails, and completes every manifest's stream |
| MovePerManifestTxLookup.FetchForManifest | packages/move-connector/src/MovePerManifestTxLookup.ts:29-71 | one page of offset paging: the fetched and parsed rows of the window, the next offset after a full page |
| MovePerManifestTxLookup.PageStep | packages/move-connector/src/MovePerManifestTxLookup.ts:40-70 | a page and the rows after its next cursor are all rows after the cursor; without a next cursor none are left |
| MovePerManifestTxLookup.LookupAll | packages/move-connector/src/MovePerManifestTxLookup.ts:29-99 | terminates, fails if and only if a manifest names no package, and per manifest returns all selected rows that are fetched and parsed, in the indexer's order |
| MovePerManifestTxLookup.LookedUpExactly | packages/move-connector/src/MovePerManifestTxLookup.ts:29-109 | a transaction is looked up if and only if it comes from one of the indexer's rows for the package in the block range, fetched by its version and parsed with its own time |
| MovePerManifestTxLookup.ParsedInVersionOrder | packages/move-connector/src/MovePerManifestTxLookup.ts:73-99 | when the indexer orders by version, the looked-up transactions are those of strictly increasing versions, one for each kept row |
| CacheWithTtls.CacheWithTtl.Get | packages/utils/src/common/CacheWithTtl.ts:13-30 | finds an entry exactly while it is younger than the time to live; dropping an expired one changes no later lookup |
| CacheWithTtls.CacheWithTtl.Set | packages/utils/src/common/CacheWithTtl.ts:32-36 | stores the value with its time and changes no other key |
| CacheWithTtls.CacheWithTtl.ClearStale | packages/utils/src/common/CacheWithTtl.ts:47-56 | exactly the fresh entries stay |
| BatchLookups.RealignedIsLedger | packages/stellar-connector/src/client/StellarClient.ts:270-281 | whatever the order of an honest answer, each requested key gets the ledger's entry, or none if it was not answered |
| BatchLookups.ReadCached | packages/stellar-connector/src/adapters/Sep40ContractReader.ts:218-230 | the first loop fills in exactly the cached inputs and notes every other index |
| BatchLookups.StoreAnswers | packages/stellar-connector/src/adapters/Sep40ContractReader.ts:240-251 | the second loop writes each answer to its own index, stores it, and leaves the cached results alone |
| BatchLookups.BatchLookup | packages/stellar-connector/src/adapters/Sep40ContractReader.ts:211-254 | on a coherent cache with a correct server, result i is the contract's answer for input i, duplicates included, whatever others do to the cache meanwhile |
| BatchLookups.StoredExactly | packages/stellar-connector/src/adapters/Sep40ContractReader.ts:240-251 | a key is stored with the time and a served value of a missing input that has it; every other key stays as it was |
| BatchRuns.LookupInRun | packages/stellar-connector/src/adapters/Sep40ContractReader.ts:211-254 | the method is a batch of a run: its answers and its cache are those of beginning on the cache it finds and finishing on the one others leave |
| BatchRuns.OthersStay | packages/stellar-connector/src/adapters/Sep40ContractReader.ts:211-254 | a batch stays awaited through every step but its own end |
| BatchRuns.StepKeeps | packages/stellar-connector/src/adapters/Sep40ContractReader.ts:211-254 | beginning, finishing and dropping keep the cache coherent with the contract, in any overlap of batches |
| BatchRuns.PointwiseExactly | packages/stellar-connector/src/adapters/Sep40ContractReader.ts:211-254 | over every interleaving each batch is the pointwise lookup if and only if equal cache keys never stand for different answers |
| BatchRuns.FeedLookupsArePointwise | packages/stellar-connector/src/adapters/Sep40ContractReader.ts:191-199 | over every interleaving the feed lookups are pointwise |
| BatchRuns.LabelsIdentifyAssets | packages/stellar-connector/src/sep-40-types.ts:68-70 | two assets have the same label if and only if they are the same asset |
| BatchRuns.AssetLookupsArePointwise | packages/stellar-connector/src/adapters/Sep40ContractReader.ts:201-209 | over every interleaving the asset lookups, cached by label, are pointwise too |
| GasOracles.FeeWithinCap | packages/solana-connector/src/config.ts:68-75 | compute units times the fee of either oracle never exceed the configured lamports |
| GasOracles.AtLeastRegular | packages/solana-connector/src/gas-oracles/RegularSolanaGasOracle.ts:11-27 | in every phase and market the aggressive fee is at least the regular one |
| GasOracles.FeesRise | packages/solana-connector/src/gas-oracles/AggressiveSolanaGasOracle.ts:20-85 | in one market, on one side of the cap phase, fees never fall |
| GasOracles.CapPhaseRises | packages/solana-connector/src/gas-oracles/AggressiveSolanaGasOracle.ts:56-64 | in the cap phase fees never fall, whatever the market |
| GasOracles.AlwaysRisesExactly | packages/solana-connector/src/gas-oracles/AggressiveSolanaGasOracle.ts:20-85 | in every market a later attempt offers no less if and only if both are on one side of the cap phase, the earlier is a base attempt, or the later one's cap share is the whole cap |
| GasOracles.LastPaysCapExactly | packages/solana-connector/src/gas-oracles/AggressiveSolanaGasOracle.ts:56-64 | the last attempt pays the cap in every market if and only if there are at least five attempts or plain escalation reaches the cap |
| GasOracles.MarketToCapMayDrop | packages/solana-connector/src/gas-oracles/AggressiveSolanaGasOracle.ts:45-53 | a concrete market in which the fee drops from the market phase to the cap phase |
| GasOracles.PercentileIsNearestRank | packages/solana-connector/src/gas-oracles/AggressiveSolanaGasOracle.ts:108-120 | the percentile is the least of the data that covers the share |
| GasOracles.MarketFeeIsNearestRank | packages/solana-connector/src/gas-oracles/AggressiveSolanaGasOracle.ts:86-106 | zero without a positive fee; otherwise the least positive fee that covers the configured share of the positive ones |
| GasOracles.NonZeroCount | packages/solana-connector/src/gas-oracles/AggressiveSolanaGasOracle.ts:93-95 | every positive fee counts as often as it is reported, no other at all |
| GasOracles.FirstAttemptsAreRegular | packages/solana-connector/src/gas-oracles/AggressiveSolanaGasOracle.ts:40-54 | the first two attempts are those of the regular oracle |
| GasOracles.MarketAttempts | packages/solana-connector/src/gas-oracles/AggressiveSolanaGasOracle.ts:70-84 | the next two offer the market fee, then that escalated once, or the escalated base fee if higher, up to the cap |
| GasOracles.CapAttempts | packages/solana-connector/src/gas-oracles/AggressiveSolanaGasOracle.ts:56-64 | in the cap phase the last attempt offers the cap, the one before it the cap divided once |
| FixedPoint.ConvertValueDec | packages/multichain-kit/src/sample-run.ts:113-124 | fails exactly on negative decimals; otherwise the text reads back to the value and is canonical |
| FixedPoint.PrintsExactly | packages/multichain-kit/src/sample-run.ts:113-124 | the printed text denotes exactly the value divided by the power of ten |
| FixedPoint.PrintsCanonically | packages/multichain-kit/src/sample-run.ts:113-124 | no leading zero, bare dot or trailing fraction zero; a sign exactly for negative values, even below one |
| FixedPoint.SameTextSameNumber | packages/multichain-kit/src/sample-run.ts:113-124 | two values print alike if and only if they are the same number, whatever their decimals |
| FixedPoint.DistinctPrints | packages/multichain-kit/src/sample-run.ts:113-124 | with the same decimals distinct values print differently |

## Left out

- Hashing, signing and address recovery: a signature is 65 opaque bytes, and a gateway package carries the signer its signature recovers to, if any. Compact signatures and the normalisation of their last byte are not modelled.
- Feed ids longer than 31 bytes: the serializer hashes them; the parser's refusal of a 32-byte id without NUL stands for them. UTF-8 decoding and validation of ids and metadata are not modelled; they are byte strings.
- The package id is not serialized, so the round trip compares it with the id the parser derives.
- The numeric data points and the decimal rounding of their values: a data point of the codec holds its value bytes.
- Selection works on the numbers of points that have been built. Building one refuses a negative number (packages/protocol/src/data-point/NumericDataPoint.ts:42, packages/protocol/src/common/utils.ts:33-49), so `Price` has none. Values given as base64 text, whose numeric reading is not a number, and overflow when the picked points are built again are not modelled.
- The environment flags that allow empty packages or duplicated feeds.
- The buffer that `concat` fills at a running offset: concatenation is on values.
- Floating point: values, medians, distances, costs and fees are exact reals, so rounding in their arithmetic is not captured.
- The order of an object's keys is passed in beside the object where it matters; the ordering rule for integer-like keys is not modelled.
- ResponseCache.DataPackagesResponseCache.Get: two sorted signer lists are compared as multisets.
- StorageTransparency.RequestDataPackages: one clock value per request; the fetch is an input, so deduplicated and staged fetching and the rounding of historical timestamps are not part of this model.
- GatewayRace.QuiescentSettledExactly: the caller refuses an empty list of gateways (packages/sdk/src/fetch-data-packages.ts:80-82), so the case without gateways does not arise through it.
- GatewayRace.EveryInterleaving: that each promise chain is checked after it has reported is an assumption of the step model; the logger is left out.
- RealTrafficMeter.RealCantonTrafficMeter.AfterUpdate: both fetched counters are inputs, so awaiting them is not modelled beyond their values.
- TrafficBudget.StaysInBudgetExactly: a feed count of zero, which divides by zero, is excluded.
- The static instance check in the constructor of the traffic meter.
- SolanaTxScanner.FetchTransactionsInRange: addresses are served one after another on ledgers of their own choosing, and transactions are fetched in order, which stands for their concurrent requests; failures of the server other than unavailable blocks are left out.
- MovePerManifestTxLookup.FetchForManifest: cursors are those the lookup makes; other strings that `Number` accepts are refused here. A fetch that fails is an absent transaction, and promise batching is left out.
- BatchRuns.PointwiseExactly: the contract's entries stay the same over the run; a cached answer outliving a change of the contract, until it expires, is not modelled.
- BatchRuns.LabelsIdentifyAssets: symbols are at most 32 characters and printed addresses at least 56, as their encodings make them; their alphabets are left out.
- BatchLookups.BatchLookup: collecting the requests of several callers into shared batches is left out; the answer to a batch's own keys is an input.
- Telemetry, logging, deployment scripts, ledger and multisig flows, client builders, wrappers around chain libraries, and transaction delivery with its retries.
