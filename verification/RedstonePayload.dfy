/** The payload appended to transactions, and the parser that reads it backwards from the end of the data. */
module RedstonePayloads {
  import opened Wrappers
  import opened Bytes
  import opened BackwardsReading
  import opened DataPackages

  const DATA_PACKAGES_COUNT_BS: nat := 2
  const UNSIGNED_METADATA_BYTE_SIZE_BS: nat := 3
  const REDSTONE_MARKER: seq<byte> := [0x00, 0x00, 0x02, 0xed, 0x57, 0x01, 0x1e, 0x00, 0x00]
  const REDSTONE_MARKER_BS: nat := 9

  // "__MULTI_POINT__" and "__EMPTY__" as bytes.
  const MULTI_POINT_ID: seq<byte> :=
    [0x5f, 0x5f, 0x4d, 0x55, 0x4c, 0x54, 0x49, 0x5f, 0x50, 0x4f, 0x49, 0x4e, 0x54, 0x5f, 0x5f]
  const EMPTY_ID: seq<byte> := [0x5f, 0x5f, 0x45, 0x4d, 0x50, 0x54, 0x59, 0x5f, 0x5f]

  datatype Payload = Payload(packages: seq<SignedPackage>, metadata: seq<byte>)

  datatype Parsed = Parsed(packages: seq<SignedPackage>, metadata: seq<byte>, remainderPrefix: seq<byte>)

  // ----- Writing

  /** The error of the first package that cannot be serialized. */
  function FirstError(packages: seq<SignedPackage>): Option<CodecError> {
    if packages == [] then None
    else
      match SignedPackageBytes(packages[0])
      case Failure(e) => Some(e)
      case Success(_) => FirstError(packages[1..])
  }

  function WrittenBytes(sp: SignedPackage): seq<byte> {
    match SignedPackageBytes(sp)
    case Success(b) => b
    case Failure(_) => []
  }

  function PackagesBytes(packages: seq<SignedPackage>): Result<seq<byte>, CodecError> {
    match FirstError(packages)
    case Some(e) => Failure(e)
    case None => Success(ConcatMap(WrittenBytes, packages))
  }

  /** The part after the packages: their count, the metadata, its size and the marker. */
  function PayloadTail(p: Payload): Result<seq<byte>, CodecError> {
    var count :- NumberField(|p.packages|, DATA_PACKAGES_COUNT_BS);
    var size :- NumberField(|p.metadata|, UNSIGNED_METADATA_BYTE_SIZE_BS);
    Success(count + (p.metadata + size) + REDSTONE_MARKER)
  }

  function PayloadBytes(p: Payload): Result<seq<byte>, CodecError> {
    var packages :- PackagesBytes(p.packages);
    var tail :- PayloadTail(p);
    Success(packages + tail)
  }

  // ----- Reading

  function ExtractNumber(data: seq<byte>, negativeOffset: nat, length: nat): Result<nat, CodecError> {
    match ConvertBytesToNumber(SliceFromEnd(data, negativeOffset, length))
    case Success(n) => Success(n)
    case Failure(e) => Failure(BadNumber(e))
  }

  function ExtractUnsignedMetadata(data: seq<byte>): Result<seq<byte>, CodecError> {
    var size :- ExtractNumber(data, REDSTONE_MARKER_BS, UNSIGNED_METADATA_BYTE_SIZE_BS);
    Success(SliceFromEnd(data, REDSTONE_MARKER_BS + UNSIGNED_METADATA_BYTE_SIZE_BS, size))
  }

  function StripNul(b: seq<byte>): (r: seq<byte>)
    ensures 0 !in r
  {
    if b == [] then [] else (if b[0] == 0 then [] else [b[0]]) + StripNul(b[1..])
  }

  function CreateDataPoint(feedId: seq<byte>, value: seq<byte>): Result<DataPoint, CodecError> {
    var id := StripNul(feedId);
    if |id| > 31 then Failure(HashedFeedId) else Success(DataPoint(id, value))
  }

  /** The package id after one more feed id has been read; the empty id is falsy. */
  function NextPackageId(packageId: seq<byte>, feedId: FeedId): seq<byte> {
    if packageId == [] then feedId
    else if packageId != feedId then MULTI_POINT_ID
    else packageId
  }

  /** The id collected over the points, which are read from the last to the first. */
  function CollectedPackageId(points: seq<DataPoint>): seq<byte> {
    if points == [] then [] else NextPackageId(CollectedPackageId(points[1..]), points[0].feedId)
  }

  function OrEmptyId(packageId: seq<byte>): seq<byte> {
    if packageId == [] then EMPTY_ID else packageId
  }

  /** One turn of the loop over the points: the point and the offset advance. */
  function ReadPoint(data: seq<byte>, valueSize: nat, negativeOffset: nat): Result<(DataPoint, nat), CodecError> {
    var point :- CreateDataPoint(SliceFromEnd(data, negativeOffset + valueSize, DATA_FEED_ID_BS),
                                 SliceFromEnd(data, negativeOffset, valueSize));
    Success((point, valueSize + DATA_FEED_ID_BS))
  }

  function PointReader(data: seq<byte>, valueSize: nat): nat -> Result<(DataPoint, nat), CodecError> {
    (negativeOffset: nat) => ReadPoint(data, valueSize, negativeOffset)
  }

  ghost predicate ReadsPoints(read: nat -> Result<(DataPoint, nat), CodecError>, data: seq<byte>, valueSize: nat) {
    forall o: nat {:trigger ReadPoint(data, valueSize, o)} :: read(o) == ReadPoint(data, valueSize, o)
  }

  function BuildSignedPackage(points: seq<DataPoint>, timestamp: int, packageId: seq<byte>, signature: seq<byte>)
      : Result<SignedPackage, CodecError>
  {
    match CheckPoints(points)
    case Fail(e) => Failure(e)
    case Pass =>
      if |signature| != SIGNATURE_BS then Failure(InvalidSignature)
      else Success(SignedPackage(Package(points, timestamp, OrEmptyId(packageId)), signature))
  }

  function ReadSignedPackage(data: seq<byte>, negativeOffset: nat): Result<SignedPackage, CodecError> {
    var signature := SliceFromEnd(data, negativeOffset, SIGNATURE_BS);
    var countOffset := negativeOffset + SIGNATURE_BS;
    var count :- ExtractNumber(data, countOffset, DATA_POINTS_COUNT_BS);
    var sizeOffset := countOffset + DATA_POINTS_COUNT_BS;
    var valueSize :- ExtractNumber(data, sizeOffset, DATA_POINT_VALUE_BYTE_SIZE_BS);
    var timestampOffset := sizeOffset + DATA_POINT_VALUE_BYTE_SIZE_BS;
    var timestamp :- ExtractNumber(data, timestampOffset, TIMESTAMP_BS);
    var points :- ReadBackwards(PointReader(data, valueSize), timestampOffset + TIMESTAMP_BS, count, []);
    BuildSignedPackage(points.0, timestamp, CollectedPackageId(points.0), signature)
  }

  /** One package of the parsing loop, sorted by its own serialization, and the offset advance. */
  function ReadPackage(data: seq<byte>, negativeOffset: nat): Result<(SignedPackage, nat), CodecError> {
    var package :- ReadSignedPackage(data, negativeOffset);
    var bytes :- SignedPackageBytes(package);
    Success((Canonical(package), |bytes|))
  }

  function PackageReader(data: seq<byte>): nat -> Result<(SignedPackage, nat), CodecError> {
    (negativeOffset: nat) => ReadPackage(data, negativeOffset)
  }

  ghost predicate ReadsPackages(read: nat -> Result<(SignedPackage, nat), CodecError>, data: seq<byte>) {
    forall o: nat {:trigger ReadPackage(data, o)} :: read(o) == ReadPackage(data, o)
  }

  function ParsePayload(data: seq<byte>): Result<Parsed, CodecError> {
    if SliceFromEnd(data, 0, REDSTONE_MARKER_BS) != REDSTONE_MARKER then Failure(InvalidMarker)
    else
      var metadata :- ExtractUnsignedMetadata(data);
      var offset := |metadata| + UNSIGNED_METADATA_BYTE_SIZE_BS + REDSTONE_MARKER_BS;
      var count :- ExtractNumber(data, offset, DATA_PACKAGES_COUNT_BS);
      var read :- ReadBackwards(PackageReader(data), offset + DATA_PACKAGES_COUNT_BS, count, []);
      Success(Parsed(read.0, metadata, SliceFromEnd(data, read.1, |data| - read.1)))
  }

  function FirstOf<T>(read: Result<(T, nat), CodecError>): Result<T, CodecError> {
    match read
    case Success(pair) => Success(pair.0)
    case Failure(e) => Failure(e)
  }

  function Reversed<T>(s: seq<T>): (r: seq<T>)
    ensures |r| == |s|
  {
    if s == [] then [] else Reversed(s[1..]) + [s[0]]
  }

  class RedstonePayloadParser {
    const bytesData: seq<byte>

    constructor (bytesData: seq<byte>)
      ensures this.bytesData == bytesData
    {
      this.bytesData := bytesData;
    }

    method ExtractDataPoint(negativeOffset: nat, valueSize: nat,
                            ghost read: nat -> Result<(DataPoint, nat), CodecError>)
        returns (r: Result<(DataPoint, nat), CodecError>)
      requires ReadsPoints(read, bytesData, valueSize)
      ensures r == read(negativeOffset)
    {
      assert read(negativeOffset) == ReadPoint(bytesData, valueSize, negativeOffset);
      var dataPointValue := SliceFromEnd(bytesData, negativeOffset, valueSize);
      var dataFeedId := SliceFromEnd(bytesData, negativeOffset + valueSize, DATA_FEED_ID_BS);
      var dataPoint :- CreateDataPoint(dataFeedId, dataPointValue);
      return Success((dataPoint, valueSize + DATA_FEED_ID_BS));
    }

    /** The loop over the data points, which also collects the package id. */
    method ExtractDataPoints(initialNegativeOffset: nat, valueSize: nat, dataPointsCount: nat,
                             ghost read: nat -> Result<(DataPoint, nat), CodecError>)
        returns (r: Result<seq<DataPoint>, CodecError>, dataPackageId: seq<byte>)
      requires ReadsPoints(read, bytesData, valueSize)
      ensures r == FirstOf(ReadBackwards(read, initialNegativeOffset, dataPointsCount, []))
      ensures r.Success? ==> dataPackageId == CollectedPackageId(r.value)
    {
      var negativeOffset: nat := initialNegativeOffset;
      var dataPoints: seq<DataPoint> := [];
      dataPackageId := [];
      for i := 0 to dataPointsCount
        invariant dataPackageId == CollectedPackageId(dataPoints)
        invariant ReadBackwards(read, initialNegativeOffset, dataPointsCount, []) ==
                  ReadBackwards(read, negativeOffset, dataPointsCount - i, dataPoints)
      {
        var dataPoint := ExtractDataPoint(negativeOffset, valueSize, read);
        if dataPoint.Failure? {
          return Failure(dataPoint.error), dataPackageId;
        }
        negativeOffset := negativeOffset + dataPoint.value.1;
        dataPackageId := NextPackageId(dataPackageId, dataPoint.value.0.feedId);
        dataPoints := [dataPoint.value.0] + dataPoints;
      }
      r := Success(dataPoints);
    }

    method ExtractSignedDataPackage(initialNegativeOffset: nat) returns (r: Result<SignedPackage, CodecError>)
      ensures r == ReadSignedPackage(bytesData, initialNegativeOffset)
    {
      hide SliceFromEnd, ConvertBytesToNumber, CheckPoints;
      var negativeOffset: nat := initialNegativeOffset;
      var signature := SliceFromEnd(bytesData, negativeOffset, SIGNATURE_BS);

      negativeOffset := negativeOffset + SIGNATURE_BS;
      var dataPointsCount :- ExtractNumber(bytesData, negativeOffset, DATA_POINTS_COUNT_BS);

      negativeOffset := negativeOffset + DATA_POINTS_COUNT_BS;
      var valueSize :- ExtractNumber(bytesData, negativeOffset, DATA_POINT_VALUE_BYTE_SIZE_BS);

      negativeOffset := negativeOffset + DATA_POINT_VALUE_BYTE_SIZE_BS;
      var timestamp :- ExtractNumber(bytesData, negativeOffset, TIMESTAMP_BS);

      negativeOffset := negativeOffset + TIMESTAMP_BS;
      var dataPoints, dataPackageId := ExtractDataPoints(negativeOffset, valueSize, dataPointsCount,
                                                         PointReader(bytesData, valueSize));
      if dataPoints.Failure? {
        return Failure(dataPoints.error);
      }
      return BuildSignedPackage(dataPoints.value, timestamp, dataPackageId, signature);
    }

    /** One turn of the loop over the packages; `toBytes` sorts the points of the package that was pushed. */
    method ExtractPackage(negativeOffset: nat, ghost read: nat -> Result<(SignedPackage, nat), CodecError>)
        returns (r: Result<(SignedPackage, nat), CodecError>)
      requires ReadsPackages(read, bytesData)
      ensures r == read(negativeOffset)
    {
      assert read(negativeOffset) == ReadPackage(bytesData, negativeOffset);
      var package := ExtractSignedDataPackage(negativeOffset);
      if package.Failure? {
        return Failure(package.error);
      }
      var bytes := SignedPackageBytes(package.value);
      if bytes.Failure? {
        return Failure(bytes.error);
      }
      return Success((Canonical(package.value), |bytes.value|));
    }

    method ExtractPackages(initialNegativeOffset: nat, numberOfDataPackages: nat,
                           ghost read: nat -> Result<(SignedPackage, nat), CodecError>)
        returns (r: Result<(seq<SignedPackage>, nat), CodecError>)
      requires ReadsPackages(read, bytesData)
      ensures r == ReadBackwards(read, initialNegativeOffset, numberOfDataPackages, [])
    {
      var negativeOffset: nat := initialNegativeOffset;
      var signedDataPackages: seq<SignedPackage> := [];
      for i := 0 to numberOfDataPackages
        invariant ReadBackwards(read, initialNegativeOffset, numberOfDataPackages, []) ==
                  ReadBackwards(read, negativeOffset, numberOfDataPackages - i, Reversed(signedDataPackages))
      {
        var package := ExtractPackage(negativeOffset, read);
        if package.Failure? {
          return Failure(package.error);
        }
        ReversedSnoc(signedDataPackages, package.value.0);
        signedDataPackages := signedDataPackages + [package.value.0];
        negativeOffset := negativeOffset + package.value.1;
      }
      return Success((Reversed(signedDataPackages), negativeOffset));
    }

    method Parse() returns (r: Result<Parsed, CodecError>)
      ensures r == ParsePayload(bytesData)
    {
      hide SliceFromEnd, ConvertBytesToNumber;
      if SliceFromEnd(bytesData, 0, REDSTONE_MARKER_BS) != REDSTONE_MARKER {
        return Failure(InvalidMarker);
      }
      var unsignedMetadata :- ExtractUnsignedMetadata(bytesData);
      var negativeOffset: nat := |unsignedMetadata| + UNSIGNED_METADATA_BYTE_SIZE_BS + REDSTONE_MARKER_BS;
      var numberOfDataPackages :- ExtractNumber(bytesData, negativeOffset, DATA_PACKAGES_COUNT_BS);
      negativeOffset := negativeOffset + DATA_PACKAGES_COUNT_BS;
      var read := ExtractPackages(negativeOffset, numberOfDataPackages, PackageReader(bytesData));
      if read.Failure? {
        return Failure(read.error);
      }
      negativeOffset := read.value.1;
      var remainderPrefix := SliceFromEnd(bytesData, negativeOffset, |bytesData| - negativeOffset);
      return Success(Parsed(read.value.0, unsignedMetadata, remainderPrefix));
    }
  }

  lemma {:induction false} ReversedSnoc<T>(s: seq<T>, x: T)
    ensures Reversed(s + [x]) == [x] + Reversed(s)
  {
    if s == [] {
      assert s + [x] == [x];
      assert Reversed([x]) == Reversed<T>([]) + [x];
    } else {
      assert (s + [x])[1..] == s[1..] + [x];
      ReversedSnoc(s[1..], x);
    }
  }
}
