/**
 * Data points, data packages and signed data packages, and the bytes that signers sign.
 * Feed ids are byte strings of at most 31 bytes; a signature is 65 opaque bytes.
 */
module DataPackages {
  import opened Wrappers
  import opened Bytes
  import opened Sorting
  import opened BackwardsReading

  const TIMESTAMP_BS: nat := 6
  const DATA_POINTS_COUNT_BS: nat := 3
  const DATA_POINT_VALUE_BYTE_SIZE_BS: nat := 4
  const SIGNATURE_BS: nat := 65
  const DATA_FEED_ID_BS: nat := 32

  type FeedId = id: seq<byte> | |id| <= 31

  type Signature = s: seq<byte> | |s| == SIGNATURE_BS witness seq(SIGNATURE_BS, _ => 0)

  datatype CodecError =
    | EmptyPackage
    | ValueSizeMismatch
    | DuplicatedFeedId
    | InvalidMarker
    | InvalidSignature
    | HashedFeedId
    | BadNumber(cause: ByteError)

  datatype DataPoint = DataPoint(feedId: FeedId, value: seq<byte>)

  datatype Package = Package(points: seq<DataPoint>, timestamp: int, packageId: seq<byte>)

  datatype SignedPackage = SignedPackage(package: Package, signature: Signature)

  // ----- Data points

  /** `formatBytes32String`: the id padded with zero bytes to 32 bytes. */
  function Bytes32(id: FeedId): (b: seq<byte>)
    ensures |b| == DATA_FEED_ID_BS
  {
    id + Zeros(DATA_FEED_ID_BS - |id|)
  }

  function PointBytes(p: DataPoint): seq<byte> {
    Bytes32(p.feedId) + p.value
  }

  /** Strings of 32 bytes compare lexicographically as their big-endian values do. */
  function FeedKey(p: DataPoint): real {
    FromBytes(Bytes32(p.feedId)) as real
  }

  function PointsBytes(points: seq<DataPoint>): seq<byte> {
    ConcatMap(PointBytes, points)
  }

  // ----- Data packages

  /** The assertions of the `DataPackage` constructor. */
  function CheckPoints(points: seq<DataPoint>): Outcome<CodecError> {
    if points == [] then Fail(EmptyPackage)
    else if exists i :: 0 <= i < |points| && |points[i].value| != |points[0].value| then Fail(ValueSizeMismatch)
    else Pass
  }

  predicate DistinctFeeds(points: seq<DataPoint>) {
    forall i, j :: 0 <= i < j < |points| ==> Bytes32(points[i].feedId) != Bytes32(points[j].feedId)
  }

  function CanonicalPoints(points: seq<DataPoint>): seq<DataPoint> {
    SortBy(points, FeedKey)
  }

  function Canonical(sp: SignedPackage): SignedPackage {
    sp.(package := sp.package.(points := CanonicalPoints(sp.package.points)))
  }

  /** The sorting comparator throws when it meets equal ids; otherwise the sorted points are written. */
  function SortedPointsBytes(points: seq<DataPoint>): Result<seq<byte>, CodecError> {
    if DistinctFeeds(points) then Success(PointsBytes(CanonicalPoints(points))) else Failure(DuplicatedFeedId)
  }

  function NumberField(value: int, size: nat): Result<seq<byte>, CodecError> {
    match ConvertIntegerNumberToBytes(value, size)
    case Success(b) => Success(b)
    case Failure(e) => Failure(BadNumber(e))
  }

  function EachDataPointByteSize(points: seq<DataPoint>): Result<nat, CodecError> {
    if points == [] then Failure(EmptyPackage) else Success(|points[0].value|)
  }

  function PackageBytes(p: Package): Result<seq<byte>, CodecError> {
    var points :- SortedPointsBytes(p.points);
    var timestamp :- NumberField(p.timestamp, TIMESTAMP_BS);
    var byteSize :- EachDataPointByteSize(CanonicalPoints(p.points));
    var size :- NumberField(byteSize, DATA_POINT_VALUE_BYTE_SIZE_BS);
    var count :- NumberField(|p.points|, DATA_POINTS_COUNT_BS);
    Success(points + timestamp + size + count)
  }

  function SignedPackageBytes(sp: SignedPackage): Result<seq<byte>, CodecError> {
    var b :- PackageBytes(sp.package);
    Success(b + sp.signature)
  }

  /** The object whose `toBytes` sorts its own points in place. */
  class DataPackage {
    var dataPoints: seq<DataPoint>
    const timestampMilliseconds: int
    const dataPackageId: seq<byte>

    ghost function View(): Package
      reads this
    {
      Package(dataPoints, timestampMilliseconds, dataPackageId)
    }

    constructor (points: seq<DataPoint>, timestamp: int, id: seq<byte>)
      requires CheckPoints(points).Pass?
      ensures View() == Package(points, timestamp, id)
    {
      dataPoints, timestampMilliseconds, dataPackageId := points, timestamp, id;
    }

    /** The constructor's checking loop; a failed assertion is the error. */
    static method Create(points: seq<DataPoint>, timestamp: int, id: seq<byte>)
        returns (r: Result<DataPackage, CodecError>)
      ensures r.Success? <==> CheckPoints(points).Pass?
      ensures r.Success? ==> fresh(r.value) && r.value.View() == Package(points, timestamp, id)
      ensures r.Failure? ==> CheckPoints(points) == Fail(r.error)
    {
      if |points| == 0 {
        return Failure(EmptyPackage);
      }
      var expected := |points[0].value|;
      for i := 0 to |points|
        invariant forall j :: 0 <= j < i ==> |points[j].value| == expected
      {
        if |points[i].value| != expected {
          return Failure(ValueSizeMismatch);
        }
      }
      var p := new DataPackage(points, timestamp, id);
      return Success(p);
    }

    /** Sorts `dataPoints` in place; when the comparator throws, the points stay as they were. */
    method SerializeDataPoints() returns (r: Result<seq<byte>, CodecError>)
      modifies this
      ensures r == SortedPointsBytes(old(dataPoints))
      ensures dataPoints == if r.Success? then CanonicalPoints(old(dataPoints)) else old(dataPoints)
    {
      if !DistinctFeeds(dataPoints) {
        return Failure(DuplicatedFeedId);
      }
      dataPoints := SortBy(dataPoints, FeedKey);
      return Success(PointsBytes(dataPoints));
    }

    method ToBytes() returns (r: Result<seq<byte>, CodecError>)
      modifies this
      ensures r == PackageBytes(old(View()))
      ensures DistinctFeeds(old(dataPoints)) ==> dataPoints == CanonicalPoints(old(dataPoints))
      ensures !DistinctFeeds(old(dataPoints)) ==> dataPoints == old(dataPoints)
    {
      SortBySorts(dataPoints, FeedKey);
      var points :- SerializeDataPoints();
      var timestamp :- NumberField(timestampMilliseconds, TIMESTAMP_BS);
      var byteSize :- EachDataPointByteSize(dataPoints);
      var size :- NumberField(byteSize, DATA_POINT_VALUE_BYTE_SIZE_BS);
      var count :- NumberField(|dataPoints|, DATA_POINTS_COUNT_BS);
      return Success(points + timestamp + size + count);
    }
  }
}
