/** Parsing undoes printing, for any bytes in front of the payload. */
module PayloadRoundTrip {
  import opened Wrappers
  import opened Bytes
  import opened Sorting
  import opened BackwardsReading
  import opened DataPackages
  import opened SignedBytes
  import opened RedstonePayloads

  // ----- Reading at a known place

  lemma NumberAt(data: seq<byte>, offset: nat, value: int, size: nat)
    requires 1 <= size <= 6 && NumberField(value, size).Success?
    requires EndsAt(data, offset, NumberField(value, size).value)
    ensures value >= 0 && ExtractNumber(data, offset, size) == Success(value)
  {
    NumberFieldRoundTrip(value, size);
    SliceAt(data, offset, NumberField(value, size).value);
    ShortFieldsAreSafe(NumberField(value, size).value);
  }

  // ----- Data points

  ghost predicate NulFree(points: seq<DataPoint>) {
    forall i :: 0 <= i < |points| ==> 0 !in points[i].feedId
  }

  lemma {:induction false} StripPadding(id: seq<byte>, n: nat)
    requires 0 !in id
    ensures StripNul(id + Zeros(n)) == id
  {
    if id == [] {
      assert id + Zeros(n) == Zeros(n);
      if n > 0 {
        assert Zeros(n)[1..] == [] + Zeros(n - 1);
        StripPadding([], n - 1);
      }
    } else {
      assert (id + Zeros(n))[1..] == id[1..] + Zeros(n);
      StripPadding(id[1..], n);
      assert id == [id[0]] + id[1..];
    }
  }

  lemma StripBytes32(id: FeedId)
    requires 0 !in id
    ensures StripNul(Bytes32(id)) == id
  {
    StripPadding(id, DATA_FEED_ID_BS - |id|);
  }

  function Itself(p: DataPoint): DataPoint {
    p
  }

  lemma PointAt(data: seq<byte>, read: nat -> Result<(DataPoint, nat), CodecError>, offset: nat, point: DataPoint,
                size: nat)
    requires ReadsPoints(read, data, size)
    requires |point.value| == size && 0 !in point.feedId
    requires EndsAt(data, offset, PointBytes(point))
    ensures read(offset) == Success((point, |PointBytes(point)|))
  {
    var id := Bytes32(point.feedId);
    assert read(offset) == ReadPoint(data, size, offset);
    StripBytes32(point.feedId);
    hide EndsAt, SliceFromEnd, Bytes32, StripNul, ReadsPoints;
    SplitAt(data, offset, id, point.value);
    SliceAt(data, offset, point.value);
    SliceAt(data, offset + size, id);
  }

  lemma PointsAt(data: seq<byte>, read: nat -> Result<(DataPoint, nat), CodecError>, offset: nat,
                 points: seq<DataPoint>, size: nat)
    requires ReadsPoints(read, data, size)
    requires UniformValues(points, size) && NulFree(points)
    requires EndsAt(data, offset, PointsBytes(points))
    ensures ReadBackwards(read, offset, |points|, []) == Success((points, offset + |PointsBytes(points)|))
  {
    forall i | 0 <= i < |points| ensures ReadsItem(data, read, PointBytes, Itself, points[i]) {
      forall o: nat | EndsAt(data, o, PointBytes(points[i]))
        ensures read(o) == Success((points[i], |PointBytes(points[i])|))
      {
        PointAt(data, read, o, points[i], size);
      }
    }
    ReadsConcat(data, read, PointBytes, Itself, offset, points, []);
    assert Map(Itself, points) + [] == points;
  }

  // ----- Packages

  /** What the parser returns for a printed package: points in canonical order, the id derived from them. */
  function AsParsed(sp: SignedPackage): SignedPackage {
    var points := CanonicalPoints(sp.package.points);
    SignedPackage(Package(points, sp.package.timestamp, OrEmptyId(CollectedPackageId(points))), sp.signature)
  }

  lemma SortedNulFree(points: seq<DataPoint>)
    ensures NulFree(points) <==> NulFree(CanonicalPoints(points))
  {
    var c := CanonicalPoints(points);
    SortBySorts(points, FeedKey);
    if NulFree(points) {
      forall i | 0 <= i < |c| ensures 0 !in c[i].feedId {
        assert c[i] in multiset(points);
      }
    }
    if NulFree(c) {
      forall i | 0 <= i < |points| ensures 0 !in points[i].feedId {
        assert points[i] in multiset(c);
      }
    }
  }

  /** A printed package is its points, its three fields of fixed widths and its signature. */
  lemma PackageParts(sp: SignedPackage)
    requires WellFormed(sp.package) && SignedPackageBytes(sp).Success?
    ensures var p := sp.package;
            var t, s := NumberField(p.timestamp, TIMESTAMP_BS),
                        NumberField(ValueSize(p), DATA_POINT_VALUE_BYTE_SIZE_BS);
            var c := NumberField(|p.points|, DATA_POINTS_COUNT_BS);
            && t.Success? && s.Success? && c.Success?
            && |t.value| == TIMESTAMP_BS && |s.value| == DATA_POINT_VALUE_BYTE_SIZE_BS &&
               |c.value| == DATA_POINTS_COUNT_BS
            && SignedPackageBytes(sp).value ==
                 PointsBytes(CanonicalPoints(p.points)) + t.value + s.value + c.value + sp.signature
  {
    var p := sp.package;
    SortedCheck(p);
    SortedUniform(p);
    hide NumberField, PointsBytes, CanonicalPoints, CheckPoints;
    NumberFieldLength(p.timestamp, TIMESTAMP_BS);
    NumberFieldLength(ValueSize(p), DATA_POINT_VALUE_BYTE_SIZE_BS);
    NumberFieldLength(|p.points|, DATA_POINTS_COUNT_BS);
  }

  lemma FiveParts(data: seq<byte>, offset: nat, a: seq<byte>, b: seq<byte>, c: seq<byte>, d: seq<byte>, e: seq<byte>)
    requires EndsAt(data, offset, a + b + c + d + e)
    ensures EndsAt(data, offset, e)
    ensures EndsAt(data, offset + |e|, d)
    ensures EndsAt(data, offset + |e| + |d|, c)
    ensures EndsAt(data, offset + |e| + |d| + |c|, b)
    ensures EndsAt(data, offset + |e| + |d| + |c| + |b|, a)
  {
    hide EndsAt;
    SplitAt(data, offset, a + b + c + d, e);
    SplitAt(data, offset + |e|, a + b + c, d);
    SplitAt(data, offset + |e| + |d|, a + b, c);
    SplitAt(data, offset + |e| + |d| + |c|, a, b);
  }

  /** Where the fields of a printed package lie. */
  lemma FieldsAt(data: seq<byte>, offset: nat, sp: SignedPackage)
    requires WellFormed(sp.package) && SignedPackageBytes(sp).Success?
    requires EndsAt(data, offset, SignedPackageBytes(sp).value)
    ensures SliceFromEnd(data, offset, SIGNATURE_BS) == sp.signature
    ensures ExtractNumber(data, offset + 65, DATA_POINTS_COUNT_BS) == Success(|sp.package.points|)
    ensures ExtractNumber(data, offset + 68, DATA_POINT_VALUE_BYTE_SIZE_BS) == Success(ValueSize(sp.package))
    ensures sp.package.timestamp >= 0
    ensures ExtractNumber(data, offset + 72, TIMESTAMP_BS) == Success(sp.package.timestamp)
    ensures EndsAt(data, offset + 78, PointsBytes(CanonicalPoints(sp.package.points)))
  {
    var p := sp.package;
    PackageParts(sp);
    hide NumberField, PointsBytes, CanonicalPoints, CheckPoints, SignedPackageBytes, EndsAt, SliceFromEnd,
         ExtractNumber;
    var pb := PointsBytes(CanonicalPoints(p.points));
    var t := NumberField(p.timestamp, TIMESTAMP_BS).value;
    var s := NumberField(ValueSize(p), DATA_POINT_VALUE_BYTE_SIZE_BS).value;
    var c := NumberField(|p.points|, DATA_POINTS_COUNT_BS).value;
    FiveParts(data, offset, pb, t, s, c, sp.signature);
    SliceAt(data, offset, sp.signature);
    NumberAt(data, offset + 65, |p.points|, DATA_POINTS_COUNT_BS);
    NumberAt(data, offset + 68, ValueSize(p), DATA_POINT_VALUE_BYTE_SIZE_BS);
    NumberAt(data, offset + 72, p.timestamp, TIMESTAMP_BS);
  }

  lemma PackageAt(data: seq<byte>, offset: nat, sp: SignedPackage)
    requires WellFormed(sp.package) && SignedPackageBytes(sp).Success? && NulFree(sp.package.points)
    requires EndsAt(data, offset, SignedPackageBytes(sp).value)
    ensures ReadSignedPackage(data, offset) == Success(AsParsed(sp))
  {
    var p := sp.package;
    var points := CanonicalPoints(p.points);
    FieldsAt(data, offset, sp);
    SortedUniform(p);
    SortedNulFree(p.points);
    SortedCheck(p);
    PointsAt(data, PointReader(data, ValueSize(p)), offset + 78, points, ValueSize(p));
  }

  lemma SortedCheck(p: Package)
    requires WellFormed(p)
    ensures CheckPoints(CanonicalPoints(p.points)).Pass?
    ensures |CanonicalPoints(p.points)[0].value| == ValueSize(p)
  {
    SortBySorts(p.points, FeedKey);
    UniformPermutation(p.points, CanonicalPoints(p.points));
  }

  /** The parser advances by the length of the re-serialized package, which is the length of what it read. */
  lemma ReserializedLength(sp: SignedPackage)
    requires WellFormed(sp.package) && SignedPackageBytes(sp).Success?
    ensures SignedPackageBytes(AsParsed(sp)) == SignedPackageBytes(sp)
    ensures Canonical(AsParsed(sp)) == AsParsed(sp)
  {
    PackageWrites(sp.package);
    SerializingTwice(sp.package);
  }

  ghost predicate AllWellFormed(packages: seq<SignedPackage>) {
    forall i :: 0 <= i < |packages| ==> WellFormed(packages[i].package)
  }

  ghost predicate AllNulFree(packages: seq<SignedPackage>) {
    forall i :: 0 <= i < |packages| ==> NulFree(packages[i].package.points)
  }

  function AllAsParsed(packages: seq<SignedPackage>): seq<SignedPackage> {
    Map(AsParsed, packages)
  }

  lemma PackageReadAt(data: seq<byte>, read: nat -> Result<(SignedPackage, nat), CodecError>, offset: nat,
                      sp: SignedPackage)
    requires ReadsPackages(read, data)
    requires WellFormed(sp.package) && SignedPackageBytes(sp).Success? && NulFree(sp.package.points)
    requires EndsAt(data, offset, WrittenBytes(sp))
    ensures read(offset) == Success((AsParsed(sp), |WrittenBytes(sp)|))
  {
    hide PackageBytes, CheckPoints, CanonicalPoints;
    PackageAt(data, offset, sp);
    ReserializedLength(sp);
    assert read(offset) == ReadPackage(data, offset);
  }

  lemma {:induction false} NoErrors(packages: seq<SignedPackage>)
    ensures PackagesBytes(packages).Success? <==>
              forall i :: 0 <= i < |packages| ==> SignedPackageBytes(packages[i]).Success?
  {
    hide SignedPackageBytes;
    if packages != [] {
      NoErrors(packages[1..]);
      assert forall i :: 1 <= i < |packages| ==> packages[i] == packages[1..][i - 1];
    }
  }

  lemma PackageReadsItem(data: seq<byte>, read: nat -> Result<(SignedPackage, nat), CodecError>, sp: SignedPackage)
    requires ReadsPackages(read, data)
    requires WellFormed(sp.package) && SignedPackageBytes(sp).Success? && NulFree(sp.package.points)
    ensures ReadsItem(data, read, WrittenBytes, AsParsed, sp)
  {
    forall o: nat | EndsAt(data, o, WrittenBytes(sp)) ensures read(o) == Success((AsParsed(sp), |WrittenBytes(sp)|)) {
      PackageReadAt(data, read, o, sp);
    }
  }

  lemma PackagesAt(data: seq<byte>, read: nat -> Result<(SignedPackage, nat), CodecError>, offset: nat,
                   packages: seq<SignedPackage>)
    requires ReadsPackages(read, data)
    requires AllWellFormed(packages) && AllNulFree(packages)
    requires forall i :: 0 <= i < |packages| ==> SignedPackageBytes(packages[i]).Success?
    requires EndsAt(data, offset, ConcatMap(WrittenBytes, packages))
    ensures ReadBackwards(read, offset, |packages|, []) ==
              Success((AllAsParsed(packages), offset + |ConcatMap(WrittenBytes, packages)|))
  {
    hide SignedPackageBytes, CheckPoints, CanonicalPoints;
    forall i | 0 <= i < |packages| ensures ReadsItem(data, read, WrittenBytes, AsParsed, packages[i]) {
      PackageReadsItem(data, read, packages[i]);
    }
    ReadsConcat(data, read, WrittenBytes, AsParsed, offset, packages, []);
    assert Map(AsParsed, packages) + [] == AllAsParsed(packages);
  }

  // ----- Payloads

  /** Exactly these payloads can be written. */
  lemma PayloadWrites(p: Payload)
    ensures PayloadBytes(p).Success? <==>
              PackagesBytes(p.packages).Success? && |p.packages| < Pow256(2) && |p.metadata| < Pow256(3)
  {
    NumberFieldRoundTrip(|p.packages|, DATA_PACKAGES_COUNT_BS);
    NumberFieldRoundTrip(|p.metadata|, UNSIGNED_METADATA_BYTE_SIZE_BS);
  }

  lemma TailAt(data: seq<byte>, p: Payload)
    requires PayloadTail(p).Success? && EndsAt(data, 0, PayloadTail(p).value)
    ensures SliceFromEnd(data, 0, REDSTONE_MARKER_BS) == REDSTONE_MARKER
    ensures ExtractUnsignedMetadata(data) == Success(p.metadata)
    ensures ExtractNumber(data, 12 + |p.metadata|, DATA_PACKAGES_COUNT_BS) == Success(|p.packages|)
    ensures |PayloadTail(p).value| == 14 + |p.metadata|
  {
    var m := p.metadata;
    var c := NumberField(|p.packages|, DATA_PACKAGES_COUNT_BS).value;
    var s := NumberField(|m|, UNSIGNED_METADATA_BYTE_SIZE_BS).value;
    NumberFieldLength(|p.packages|, DATA_PACKAGES_COUNT_BS);
    NumberFieldLength(|m|, UNSIGNED_METADATA_BYTE_SIZE_BS);
    SplitAt(data, 0, c + (m + s), REDSTONE_MARKER);
    SliceAt(data, 0, REDSTONE_MARKER);
    SplitAt(data, 9, c, m + s);
    SplitAt(data, 9, m, s);
    NumberAt(data, 9, |m|, UNSIGNED_METADATA_BYTE_SIZE_BS);
    SliceAt(data, 12, m);
    NumberAt(data, 12 + |m|, |p.packages|, DATA_PACKAGES_COUNT_BS);
  }

  lemma RoundTripWithPrefix(prefix: seq<byte>, p: Payload)
    requires AllWellFormed(p.packages) && AllNulFree(p.packages) && PayloadBytes(p).Success?
    ensures ParsePayload(prefix + PayloadBytes(p).value) ==
              Success(Parsed(AllAsParsed(p.packages), p.metadata, prefix))
  {
    hide SignedPackageBytes, CheckPoints, CanonicalPoints;
    var bytes := PayloadBytes(p).value;
    var data := prefix + bytes;
    SplitAt(data, 0, PackagesBytes(p.packages).value, PayloadTail(p).value);
    TailAt(data, p);
    NoErrors(p.packages);
    PackagesAt(data, PackageReader(data), 14 + |p.metadata|, p.packages);
    assert EndsAt(data, |bytes|, prefix);
    SliceAt(data, |bytes|, prefix);
  }

  // ----- Ids with NUL bytes do not come back

  ghost function PointNulFree(): DataPoint -> bool {
    (p: DataPoint) => 0 !in p.feedId
  }

  lemma ReadPointsNulFree(data: seq<byte>, offset: nat, size: nat, count: nat)
    ensures var r := ReadBackwards(PointReader(data, size), offset, count, []);
            r.Success? ==> NulFree(r.value.0)
  {
    var read, p := PointReader(data, size), PointNulFree();
    forall o: nat | read(o).Success? ensures p(read(o).value.0) {
    }
    ReadItemsSatisfy(read, p, offset, count, []);
    var r := ReadBackwards(read, offset, count, []);
    if r.Success? {
      forall i | 0 <= i < |r.value.0| ensures 0 !in r.value.0[i].feedId {
        assert p(r.value.0[i]);
      }
    }
  }

  lemma ReadPackageNulFree(data: seq<byte>, offset: nat)
    ensures var r := ReadSignedPackage(data, offset); r.Success? ==> NulFree(Canonical(r.value).package.points)
  {
    var r := ReadSignedPackage(data, offset);
    if r.Success? {
      var n := ExtractNumber(data, offset + 65, DATA_POINTS_COUNT_BS).value;
      var size := ExtractNumber(data, offset + 68, DATA_POINT_VALUE_BYTE_SIZE_BS).value;
      ReadPointsNulFree(data, offset + 78, size, n);
      SortedNulFree(r.value.package.points);
    }
  }

  ghost function PackageNulFree(): SignedPackage -> bool {
    (sp: SignedPackage) => NulFree(sp.package.points)
  }

  lemma ReadPackagesNulFree(data: seq<byte>, offset: nat, count: nat)
    ensures var r := ReadBackwards(PackageReader(data), offset, count, []);
            r.Success? ==> AllNulFree(r.value.0)
  {
    var read, p := PackageReader(data), PackageNulFree();
    forall o: nat | read(o).Success? ensures p(read(o).value.0) {
      ReadPackageNulFree(data, o);
    }
    ReadItemsSatisfy(read, p, offset, count, []);
    var r := ReadBackwards(read, offset, count, []);
    if r.Success? {
      forall i | 0 <= i < |r.value.0| ensures NulFree(r.value.0[i].package.points) {
        assert p(r.value.0[i]);
      }
    }
  }

  /**
   * Every payload that can be written is read back as the same packages in order, points in canonical
   * order, with the same metadata and the prefix as remainder, exactly when no feed id has a NUL byte.
   */
  lemma RoundTripExactly(prefix: seq<byte>, p: Payload)
    requires AllWellFormed(p.packages) && PayloadBytes(p).Success?
    ensures ParsePayload(prefix + PayloadBytes(p).value) ==
              Success(Parsed(AllAsParsed(p.packages), p.metadata, prefix))
            <==> AllNulFree(p.packages)
  {
    hide SignedPackageBytes, CheckPoints, CanonicalPoints;
    var data := prefix + PayloadBytes(p).value;
    if AllNulFree(p.packages) {
      RoundTripWithPrefix(prefix, p);
    } else if ParsePayload(data) == Success(Parsed(AllAsParsed(p.packages), p.metadata, prefix)) {
      var metadata := ExtractUnsignedMetadata(data).value;
      var offset := |metadata| + UNSIGNED_METADATA_BYTE_SIZE_BS + REDSTONE_MARKER_BS;
      var count := ExtractNumber(data, offset, DATA_PACKAGES_COUNT_BS).value;
      ReadPackagesNulFree(data, offset + DATA_PACKAGES_COUNT_BS, count);
      forall i | 0 <= i < |p.packages| ensures NulFree(p.packages[i].package.points) {
        assert NulFree(AllAsParsed(p.packages)[i].package.points);
        SortedNulFree(p.packages[i].package.points);
      }
      assert false;
    }
  }

  /** One package with one point, of feed `feedId`, whose value is one zero byte. */
  function OneByteOf(feedId: FeedId): SignedPackage {
    SignedPackage(Package([DataPoint(feedId, [0])], 0, []), seq(SIGNATURE_BS, _ => 0))
  }

  /** The id "A" followed by a NUL byte is writable, and does not come back. */
  lemma NulExample()
    ensures var p := Payload([OneByteOf([0x41, 0])], []);
            && AllWellFormed(p.packages)
            && PayloadBytes(p).Success?
            && ParsePayload(PayloadBytes(p).value) != Success(Parsed(AllAsParsed(p.packages), p.metadata, []))
  {
    var sp := OneByteOf([0x41, 0]);
    var p := Payload([sp], []);
    OneByteWrites([0x41, 0]);
    assert 0 in sp.package.points[0].feedId && !NulFree(p.packages[0].package.points);
    FewBytes();
    hide SignedPackageBytes, PackagesBytes, PayloadBytes, CheckPoints, Pow256, AllAsParsed, ParsePayload;
    NoErrors(p.packages);
    PayloadWrites(p);
    RoundTripExactly([], p);
    assert [] + PayloadBytes(p).value == PayloadBytes(p).value;
  }

  lemma FewBytes()
    ensures Pow256(2) >= 256 && Pow256(3) >= 256 && Pow256(4) >= 256 && Pow256(6) >= 256
  {
    assert Pow256(1) == 256 * Pow256(0);
    Pow256Monotone(1, 2);
    Pow256Monotone(1, 3);
    Pow256Monotone(1, 4);
    Pow256Monotone(1, 6);
  }

  lemma OneByteWrites(feedId: FeedId)
    ensures WellFormed(OneByteOf(feedId).package) && SignedPackageBytes(OneByteOf(feedId)).Success?
  {
    FewBytes();
    hide PackageBytes, Pow256;
    PackageWrites(OneByteOf(feedId).package);
  }

  lemma FieldOfByte(value: byte, size: nat)
    requires size > 0
    ensures NumberField(value as int, size) == Success(Zeros(size - 1) + [value])
  {
    assert MinimalBytes(value as int) == [value];
  }

  lemma TwoByteField()
    ensures NumberField(258, 6) == Success([0, 0, 0, 0, 1, 2])
  {
    assert MinimalBytes(258) == MinimalBytes(1) + [2] == [1, 2];
    assert Zeros(4) + [1, 2] == [0, 0, 0, 0, 1, 2];
  }

  lemma OnePoint(id: FeedId, value: seq<byte>)
    ensures SortedPointsBytes([DataPoint(id, value)]) == Success(id + Zeros(32 - |id|) + value)
    ensures CanonicalPoints([DataPoint(id, value)]) == [DataPoint(id, value)]
  {
    var points := [DataPoint(id, value)];
    SortSorted(points, FeedKey);
    assert points[..0] == [];
    assert PointsBytes(points) == PointsBytes([]) + PointBytes(points[0]) == PointBytes(points[0]);
  }

  /** The bytes of one package: padded id, value, timestamp, value size, number of points, signature. */
  lemma PackageExample(signature: Signature)
    ensures SignedPackageBytes(SignedPackage(Package([DataPoint([0x41], [7])], 258, []), signature)) ==
            Success([0x41] + Zeros(31) + [7] + [0, 0, 0, 0, 1, 2] + [0, 0, 0, 1] + [0, 0, 1] + signature)
  {
    OnePoint([0x41], [7]);
    TwoByteField();
    FieldOfByte(1, 4);
    FieldOfByte(1, 3);
    hide SortedPointsBytes, NumberField, CanonicalPoints;
    assert Zeros(3) + [1] == [0, 0, 0, 1] && Zeros(2) + [1] == [0, 0, 1];
  }

  /** After the packages: their number, the metadata, its size and the marker. */
  lemma TailExample(signature: Signature)
    ensures PayloadTail(Payload([SignedPackage(Package([DataPoint([0x41], [7])], 258, []), signature)], [9, 8])) ==
            Success([0, 1] + [9, 8] + [0, 0, 2] + [0x00, 0x00, 0x02, 0xed, 0x57, 0x01, 0x1e, 0x00, 0x00])
  {
    FieldOfByte(1, 2);
    FieldOfByte(2, 3);
    hide NumberField;
    assert Zeros(1) + [1] == [0, 1] && Zeros(2) + [2] == [0, 0, 2];
    assert [0, 1] + ([9, 8] + [0, 0, 2]) == [0, 1] + [9, 8] + [0, 0, 2];
  }

  lemma {:induction false} ReprintedPackages(packages: seq<SignedPackage>)
    requires AllWellFormed(packages)
    requires forall i :: 0 <= i < |packages| ==> SignedPackageBytes(packages[i]).Success?
    ensures ConcatMap(WrittenBytes, AllAsParsed(packages)) == ConcatMap(WrittenBytes, packages)
  {
    if packages != [] {
      var n := |packages| - 1;
      ReprintedPackages(packages[..n]);
      ReserializedLength(packages[n]);
      assert AllAsParsed(packages)[..n] == AllAsParsed(packages[..n]);
    }
  }

  lemma {:induction false} ReprintedErrors(packages: seq<SignedPackage>)
    requires AllWellFormed(packages)
    requires forall i :: 0 <= i < |packages| ==> SignedPackageBytes(packages[i]).Success?
    ensures PackagesBytes(AllAsParsed(packages)) == PackagesBytes(packages)
  {
    hide SignedPackageBytes, AsParsed, WellFormed, WrittenBytes, FirstError;
    forall i | 0 <= i < |packages| ensures SignedPackageBytes(AllAsParsed(packages)[i]).Success? {
      ReserializedLength(packages[i]);
    }
    NoErrors(packages);
    NoErrors(AllAsParsed(packages));
    ReprintedPackages(packages);
  }

  /** A payload of parsed packages prints like the packages they were parsed from. */
  lemma PrintsLikeParsed(packages: seq<SignedPackage>, metadata: seq<byte>)
    requires AllWellFormed(packages) && PackagesBytes(packages).Success?
    ensures PayloadBytes(Payload(AllAsParsed(packages), metadata)) == PayloadBytes(Payload(packages, metadata))
  {
    hide SignedPackageBytes, PackagesBytes, NumberField;
    NoErrors(packages);
    ReprintedErrors(packages);
  }

  /** Re-printing what was parsed gives the same payload bytes. */
  lemma ReprintedPayload(prefix: seq<byte>, p: Payload)
    requires AllWellFormed(p.packages) && AllNulFree(p.packages) && PayloadBytes(p).Success?
    ensures var parsed := ParsePayload(prefix + PayloadBytes(p).value);
            parsed.Success? && PayloadBytes(Payload(parsed.value.packages, parsed.value.metadata)) == PayloadBytes(p)
  {
    PackagesWritten(p);
    hide *;
    RoundTripWithPrefix(prefix, p);
    PrintsLikeParsed(p.packages, p.metadata);
  }

  lemma PackagesWritten(p: Payload)
    requires PayloadBytes(p).Success?
    ensures PackagesBytes(p.packages).Success?
  {
  }

  // ----- The derived package id

  ghost predicate SameFeed(points: seq<DataPoint>) {
    forall i :: 0 <= i < |points| ==> points[i].feedId == points[0].feedId
  }

  /** Points after the last with an id play no part; the others agree, or the id is the multi-point one. */
  lemma {:induction false} CollectedExactly(points: seq<DataPoint>, k: nat)
    requires k < |points| && points[k].feedId != []
    requires forall i :: k < i < |points| ==> points[i].feedId == []
    ensures CollectedPackageId(points) ==
            if SameFeed(points[..k + 1]) then points[k].feedId else MULTI_POINT_ID
  {
    var rest := points[1..];
    if k > 0 {
      CollectedExactly(rest, k - 1);
      assert rest[..k] == points[..k + 1][1..];
      SameFeedNext(points[..k + 1]);
    } else {
      NoneCollected(rest);
      assert points[..1] == [points[0]];
    }
  }

  lemma SameFeedNext(points: seq<DataPoint>)
    requires |points| > 1
    ensures SameFeed(points) <==> SameFeed(points[1..]) && points[0].feedId == points[|points| - 1].feedId
  {
    var rest := points[1..];
    assert forall i :: 0 <= i < |rest| ==> rest[i] == points[i + 1];
    if SameFeed(rest) && points[0].feedId == points[|points| - 1].feedId {
      forall i | 0 <= i < |points| ensures points[i].feedId == points[0].feedId {
        assert rest[|rest| - 1].feedId == rest[0].feedId;
        assert i > 0 ==> points[i] == rest[i - 1];
      }
    }
    if SameFeed(points) {
      forall i | 0 <= i < |rest| ensures rest[i].feedId == rest[0].feedId {
        assert points[i + 1].feedId == points[0].feedId == points[1].feedId;
      }
    }
  }

  lemma {:induction false} NoneCollected(points: seq<DataPoint>)
    requires forall i :: 0 <= i < |points| ==> points[i].feedId == []
    ensures CollectedPackageId(points) == []
  {
    if points != [] {
      NoneCollected(points[1..]);
    }
  }

  /** Without any feed id the package id is "__EMPTY__". */
  lemma EmptyPackageId(points: seq<DataPoint>)
    requires forall i :: 0 <= i < |points| ==> points[i].feedId == []
    ensures OrEmptyId(CollectedPackageId(points)) == [0x5f, 0x5f, 0x45, 0x4d, 0x50, 0x54, 0x59, 0x5f, 0x5f]
  {
    NoneCollected(points);
  }

  /**
   * Otherwise it is the common feed id, or "__MULTI_POINT__" when the feeds differ, where empty ids after the last
   * other one, that of point k, do not count.
   */
  lemma DerivedPackageId(points: seq<DataPoint>, k: nat)
    requires k < |points| && points[k].feedId != []
    requires forall i :: k < i < |points| ==> points[i].feedId == []
    ensures OrEmptyId(CollectedPackageId(points)) ==
            if forall i :: 0 <= i <= k ==> points[i].feedId == points[k].feedId then points[k].feedId
            else [0x5f, 0x5f, 0x4d, 0x55, 0x4c, 0x54, 0x49, 0x5f, 0x50, 0x4f, 0x49, 0x4e, 0x54, 0x5f, 0x5f]
  {
    CollectedExactly(points, k);
    hide CollectedPackageId;
    assert forall i :: 0 <= i <= k ==> points[..k + 1][i] == points[i];
    assert SameFeed(points[..k + 1]) <==> forall i :: 0 <= i <= k ==> points[i].feedId == points[k].feedId;
  }
}
