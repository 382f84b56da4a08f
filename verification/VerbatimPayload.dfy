/**
 * Parsing data of any origin. The parser accepts more than the printer writes: this says exactly when the
 * data it accepts is what printing the result, after the remainder, gives back.
 */
module VerbatimPayload {
  import opened Wrappers
  import opened Bytes
  import opened BackwardsReading
  import opened DataPackages
  import opened SignedBytes
  import opened RedstonePayloads
  import opened PayloadRoundTrip

  // ----- Slices and fields in place

  lemma JoinAt(data: seq<byte>, offset: nat, a: seq<byte>, b: seq<byte>)
    requires EndsAt(data, offset, b) && EndsAt(data, offset + |b|, a)
    ensures EndsAt(data, offset, a + b)
  {
    var end := |data| - offset;
    assert data[end - |b| - |a|..end] == data[end - |b| - |a|..end - |b|] + data[end - |b|..end];
  }

  /** A slice that starts within the data ends where it was taken. */
  lemma SliceInRange(data: seq<byte>, offset: nat, length: nat)
    requires offset + length <= |data|
    ensures |SliceFromEnd(data, offset, length)| == length
    ensures EndsAt(data, offset, SliceFromEnd(data, offset, length))
  {
  }

  /** A slice is never longer than asked for, even where negative indices wrap around. */
  lemma SliceAtMost(data: seq<byte>, offset: nat, length: nat)
    ensures |SliceFromEnd(data, offset, length)| <= length
  {
  }

  lemma NumberBound(data: seq<byte>, offset: nat, size: nat)
    requires size >= 1 && ExtractNumber(data, offset, size).Success?
    ensures ExtractNumber(data, offset, size).value < Pow256(size)
    ensures NumberField(ExtractNumber(data, offset, size).value, size).Success?
  {
    var slice := SliceFromEnd(data, offset, size);
    SliceAtMost(data, offset, size);
    FromBytesBound(slice);
    Pow256Monotone(|slice|, size);
    NumberFieldRoundTrip(FromBytes(slice), size);
  }

  /** A number read within the data is written back as the bytes it was read from. */
  lemma NumberInRange(data: seq<byte>, offset: nat, size: nat)
    requires size >= 1 && offset + size <= |data| && ExtractNumber(data, offset, size).Success?
    ensures NumberField(ExtractNumber(data, offset, size).value, size).Success?
    ensures EndsAt(data, offset, NumberField(ExtractNumber(data, offset, size).value, size).value)
  {
    var slice := SliceFromEnd(data, offset, size);
    NumberBound(data, offset, size);
    SliceInRange(data, offset, size);
    NumberFieldRoundTrip(FromBytes(slice), size);
    FromBytesInjective(slice, NumberField(FromBytes(slice), size).value);
  }

  // ----- Points at fixed distances

  /** Where the i-th of count items of one width lies, counted from the end. */
  function ItemOffset(offset: nat, count: nat, width: nat, i: nat): nat
    requires i < count
  {
    offset + (count - 1 - i) * width
  }

  lemma FirstRead<T, E>(read: nat -> Result<(T, nat), E>, offset: nat, count: nat, later: seq<T>)
    requires count > 0 && ReadBackwards(read, offset, count, later).Success?
    ensures read(offset).Success?
    ensures ReadBackwards(read, offset, count, later) ==
            ReadBackwards(read, offset + read(offset).value.1, count - 1, [read(offset).value.0] + later)
  {
  }

  lemma SuffixTail<T>(s: seq<T>, k: nat, x: T, later: seq<T>)
    requires k <= |s| && s[k..] == [x] + later
    ensures k < |s| && s[k] == x && s[k + 1..] == later
  {
    assert s[k] == s[k..][0];
    assert s[k + 1..] == s[k..][1..];
  }

  /** The items read come before those read earlier. */
  lemma {:induction false} ReadsBefore<T, E>(
    read: nat -> Result<(T, nat), E>, offset: nat, count: nat, later: seq<T>)
    requires ReadBackwards(read, offset, count, later).Success?
    ensures var r := ReadBackwards(read, offset, count, later).value; count <= |r.0| && r.0[count..] == later
    decreases count
  {
    if count == 0 {
      assert later[0..] == later;
    } else {
      FirstRead(read, offset, count, later);
      var item := read(offset).value;
      hide ReadBackwards;
      ReadsBefore(read, offset + item.1, count - 1, [item.0] + later);
      SuffixTail(ReadBackwards(read, offset, count, later).value.0, count - 1, item.0, later);
    }
  }

  lemma NextOffset(offset: nat, count: nat, width: nat, i: nat)
    requires i < count
    ensures i < count - 1 ==> ItemOffset(offset + width, count - 1, width, i) == ItemOffset(offset, count, width, i)
    ensures i == count - 1 ==> ItemOffset(offset, count, width, i) == offset
  {
    if i < count - 1 {
      OneMore(count - 2 - i, width);
    } else {
      assert (count - 1 - i) * width == 0 * width == 0;
    }
  }

  /** Reading items of one width reads the i-th of them at its own offset. */
  lemma {:induction false} ReadAt<T, E>(
    read: nat -> Result<(T, nat), E>, offset: nat, count: nat, later: seq<T>, width: nat, i: nat)
    requires forall o: nat :: read(o).Success? ==> read(o).value.1 == width
    requires i < count && ReadBackwards(read, offset, count, later).Success?
    ensures var r, item := ReadBackwards(read, offset, count, later).value, read(ItemOffset(offset, count, width, i));
            count <= |r.0| && item.Success? && r.0[i] == item.value.0
    decreases count
  {
    hide ReadBackwards, ItemOffset;
    FirstRead(read, offset, count, later);
    NextOffset(offset, count, width, i);
    var item := read(offset).value;
    if i < count - 1 {
      ReadsBefore(read, offset, count, later);
      ReadAt(read, offset + width, count - 1, [item.0] + later, width, i);
    } else {
      ReadsBefore(read, offset, count, later);
      ReadsBefore(read, offset + width, count - 1, [item.0] + later);
      SuffixTail(ReadBackwards(read, offset, count, later).value.0, count - 1, item.0, later);
    }
  }

  ghost predicate PointsEnd(data: seq<byte>, offset: nat, points: seq<DataPoint>, width: nat) {
    forall i :: 0 <= i < |points| ==> EndsAt(data, ItemOffset(offset, |points|, width, i), PointBytes(points[i]))
  }

  /** Points written one after another end at multiples of their width, and conversely. */
  lemma {:induction false} PointsEndExactly(data: seq<byte>, offset: nat, points: seq<DataPoint>, size: nat)
    requires UniformValues(points, size) && offset <= |data|
    ensures EndsAt(data, offset, PointsBytes(points)) <==> PointsEnd(data, offset, points, DATA_FEED_ID_BS + size)
    decreases |points|
  {
    var width := DATA_FEED_ID_BS + size;
    if points != [] {
      var n := |points| - 1;
      var init, last := points[..n], points[n];
      var before, b := PointsBytes(init), PointBytes(last);
      assert |b| == width && PointsBytes(points) == before + b;
      assert 0 * width == 0;
      hide EndsAt, PointsBytes, PointBytes;
      if EndsAt(data, offset, before + b) {
        SplitAt(data, offset, before, b);
        InRange(data, offset, b);
        PointsEndExactly(data, offset + width, init, size);
        OneMorePoint(data, offset, points, width);
      }
      if PointsEnd(data, offset, points, width) {
        assert ItemOffset(offset, |points|, width, n) == offset;
        InRange(data, offset, b);
        OneMorePoint(data, offset, points, width);
        PointsEndExactly(data, offset + width, init, size);
        JoinAt(data, offset, before, b);
      }
    }
  }

  lemma InRange(data: seq<byte>, offset: nat, b: seq<byte>)
    requires EndsAt(data, offset, b)
    ensures offset + |b| <= |data|
  {
  }

  lemma OneMorePoint(data: seq<byte>, offset: nat, points: seq<DataPoint>, width: nat)
    requires points != [] && EndsAt(data, offset, PointBytes(points[|points| - 1]))
    ensures PointsEnd(data, offset, points, width) <==> PointsEnd(data, offset + width, points[..|points| - 1], width)
  {
    var n := |points| - 1;
    hide EndsAt, PointBytes;
    forall i: nat | i < n
      ensures EndsAt(data, ItemOffset(offset + width, n, width, i), PointBytes(points[..n][i])) <==>
              EndsAt(data, ItemOffset(offset, n + 1, width, i), PointBytes(points[i]))
    {
      OneMore(n - 1 - i, width);
    }
    assert ItemOffset(offset, n + 1, width, n) == offset + 0 * width == offset;
    hide ItemOffset;
  }

  lemma OneMore(k: nat, width: nat)
    ensures width + k * width == (k + 1) * width
  {
  }

  // ----- One package

  /** The value size field of the package that ends here. */
  function ValueSizeAt(data: seq<byte>, offset: nat): Result<nat, CodecError> {
    ExtractNumber(data, offset + 68, DATA_POINT_VALUE_BYTE_SIZE_BS)
  }

  /** The length of the package as its own fields state it. */
  function StatedLength(count: nat, valueSize: nat): nat {
    78 + count * (DATA_FEED_ID_BS + valueSize)
  }

  lemma ReadPackageFacts(data: seq<byte>, offset: nat)
    requires ReadSignedPackage(data, offset).Success?
    ensures var sp := ReadSignedPackage(data, offset).value; var points := sp.package.points;
            && WellFormed(sp.package) && NulFree(points)
            && ValueSizeAt(data, offset).Success?
            && ExtractNumber(data, offset + 65, DATA_POINTS_COUNT_BS) == Success(|points|)
            && ExtractNumber(data, offset + 72, TIMESTAMP_BS).Success?
            && sp.package.timestamp == ExtractNumber(data, offset + 72, TIMESTAMP_BS).value
            && sp.signature == SliceFromEnd(data, offset, SIGNATURE_BS)
            && sp.package.packageId == OrEmptyId(CollectedPackageId(points))
            && ReadBackwards(PointReader(data, ValueSizeAt(data, offset).value), offset + 78, |points|, []).Success?
            && points ==
               ReadBackwards(PointReader(data, ValueSizeAt(data, offset).value), offset + 78, |points|, []).value.0
  {
    hide ExtractNumber, SliceFromEnd, CheckPoints, ReadBackwards;
    var count := ExtractNumber(data, offset + 65, DATA_POINTS_COUNT_BS).value;
    var size := ValueSizeAt(data, offset).value;
    ReadPointsNulFree(data, offset + 78, size, count);
    ReadsBefore(PointReader(data, size), offset + 78, count, []);
    hide ReadPoint;
  }

  lemma PointWidths(data: seq<byte>, size: nat)
    ensures forall o: nat :: PointReader(data, size)(o).Success? ==>
              PointReader(data, size)(o).value.1 == DATA_FEED_ID_BS + size
  {
  }

  /** Where the i-th of the read points lies. */
  function PointOffset(offset: nat, count: nat, valueSize: nat, i: nat): nat
    requires i < count
  {
    ItemOffset(offset + 78, count, DATA_FEED_ID_BS + valueSize, i)
  }

  lemma PointReadAt(data: seq<byte>, offset: nat, i: nat)
    requires ReadSignedPackage(data, offset).Success? && i < |ReadSignedPackage(data, offset).value.package.points|
    ensures ValueSizeAt(data, offset).Success?
    ensures var points := ReadSignedPackage(data, offset).value.package.points;
            var size := ValueSizeAt(data, offset).value; var o := PointOffset(offset, |points|, size, i);
            && points[i].feedId == StripNul(SliceFromEnd(data, o + size, DATA_FEED_ID_BS))
            && points[i].value == SliceFromEnd(data, o, size)
  {
    ReadPackageFacts(data, offset);
    var points, size := ReadSignedPackage(data, offset).value.package.points, ValueSizeAt(data, offset).value;
    hide ReadSignedPackage, ExtractNumber, SliceFromEnd, StripNul;
    PointWidths(data, size);
    hide ReadBackwards, ReadPoint;
    ReadAt(PointReader(data, size), offset + 78, |points|, [], DATA_FEED_ID_BS + size, i);
    PointRead(data, size, PointOffset(offset, |points|, size, i));
  }

  lemma PointRead(data: seq<byte>, size: nat, o: nat)
    ensures PointReader(data, size)(o) == ReadPoint(data, size, o)
    ensures ReadPoint(data, size, o).Success? ==>
              && ReadPoint(data, size, o).value.0.feedId == StripNul(SliceFromEnd(data, o + size, DATA_FEED_ID_BS))
              && ReadPoint(data, size, o).value.0.value == SliceFromEnd(data, o, size)
  {
    hide SliceFromEnd, StripNul;
  }

  /** The id in the data is the point's id and trailing NUL bytes only. */
  ghost predicate PaddedId(data: seq<byte>, offset: nat, points: seq<DataPoint>, valueSize: nat, i: nat)
    requires i < |points|
  {
    SliceFromEnd(data, PointOffset(offset, |points|, valueSize, i) + valueSize, DATA_FEED_ID_BS) ==
    Bytes32(points[i].feedId)
  }

  /**
   * The package read here lies within the data, has its points in canonical order, and its ids have no NUL byte
   * but trailing ones.
   */
  ghost predicate PackageVerbatim(data: seq<byte>, offset: nat) {
    var sp, size := ReadSignedPackage(data, offset), ValueSizeAt(data, offset);
    && sp.Success? && size.Success?
    && var points := sp.value.package.points;
       && offset + StatedLength(|points|, size.value) <= |data|
       && CanonicalPoints(points) == points
       && forall i: nat | i < |points| :: PaddedId(data, offset, points, size.value, i)
  }

  /** Printed points lie within the data, with padded ids. */
  lemma WrittenIds(data: seq<byte>, offset: nat, points: seq<DataPoint>, size: nat)
    requires UniformValues(points, size) && EndsAt(data, offset + 78, PointsBytes(points))
    ensures offset + StatedLength(|points|, size) <= |data|
    ensures forall i: nat | i < |points| :: PaddedId(data, offset, points, size, i)
  {
    PointsBytesLength(points, size);
    InRange(data, offset + 78, PointsBytes(points));
    PointsEndExactly(data, offset + 78, points, size);
    hide EndsAt, PointsBytes, SliceFromEnd, Bytes32, ItemOffset, UniformValues;
    forall i: nat | i < |points| ensures PaddedId(data, offset, points, size, i) {
      PaddedByWriting(data, offset, points, size, i);
    }
  }

  lemma PaddedByWriting(data: seq<byte>, offset: nat, points: seq<DataPoint>, size: nat, i: nat)
    requires i < |points| && UniformValues(points, size)
    requires PointsEnd(data, offset + 78, points, DATA_FEED_ID_BS + size)
    ensures PaddedId(data, offset, points, size, i)
  {
    var o := PointOffset(offset, |points|, size, i);
    assert EndsAt(data, o, PointBytes(points[i]));
    hide EndsAt, SliceFromEnd, ItemOffset;
    SplitAt(data, o, Bytes32(points[i].feedId), points[i].value);
    SliceAt(data, o + size, Bytes32(points[i].feedId));
  }

  /** If the printed package ends here, it was read from exactly these bytes. */
  lemma WrittenIsVerbatim(data: seq<byte>, offset: nat)
    requires ReadSignedPackage(data, offset).Success?
    requires SignedPackageBytes(ReadSignedPackage(data, offset).value).Success?
    requires EndsAt(data, offset, SignedPackageBytes(ReadSignedPackage(data, offset).value).value)
    ensures PackageVerbatim(data, offset)
  {
    var sp := ReadSignedPackage(data, offset).value;
    ReadPackageFacts(data, offset);
    PackageAt(data, offset, sp);
    FieldsAt(data, offset, sp);
    SortedUniform(sp.package);
    assert CanonicalPoints(sp.package.points) == sp.package.points;
    hide ReadSignedPackage, SignedPackageBytes, CanonicalPoints, CheckPoints, ExtractNumber, EndsAt, PointsBytes,
      UniformValues, PaddedId, ReadBackwards;
    WrittenIds(data, offset, sp.package.points, ValueSizeAt(data, offset).value);
  }

  /** A point read within the data, with a padded id, ends where it was read. */
  lemma PaddedPointEnds(data: seq<byte>, offset: nat, points: seq<DataPoint>, size: nat, i: nat)
    requires i < |points| && PaddedId(data, offset, points, size, i)
    requires points[i].value == SliceFromEnd(data, PointOffset(offset, |points|, size, i), size)
    requires offset + StatedLength(|points|, size) <= |data|
    ensures |points[i].value| == size
    ensures EndsAt(data, PointOffset(offset, |points|, size, i), PointBytes(points[i]))
  {
    var o := PointOffset(offset, |points|, size, i);
    LastPointInRange(|points| - 1 - i, |points|, DATA_FEED_ID_BS + size);
    assert o + size + DATA_FEED_ID_BS <= |data|;
    hide SliceFromEnd, EndsAt, Bytes32, ItemOffset;
    SliceInRange(data, o, size);
    SliceInRange(data, o + size, DATA_FEED_ID_BS);
    JoinAt(data, o, Bytes32(points[i].feedId), points[i].value);
  }

  lemma VerbatimPoint(data: seq<byte>, offset: nat, i: nat)
    requires PackageVerbatim(data, offset) && i < |ReadSignedPackage(data, offset).value.package.points|
    ensures var points, size := ReadSignedPackage(data, offset).value.package.points, ValueSizeAt(data, offset).value;
            && |points[i].value| == size
            && EndsAt(data, PointOffset(offset, |points|, size, i), PointBytes(points[i]))
  {
    var points, size := ReadSignedPackage(data, offset).value.package.points, ValueSizeAt(data, offset).value;
    assert PaddedId(data, offset, points, size, i);
    hide ReadSignedPackage, ExtractNumber, CanonicalPoints, StripNul, Bytes32, PaddedId, SliceFromEnd, PointOffset;
    PointReadAt(data, offset, i);
    PaddedPointEnds(data, offset, points, size, i);
  }

  lemma LastPointInRange(k: nat, count: nat, width: nat)
    requires k < count
    ensures k * width + width <= count * width
  {
    OneMore(k, width);
    LargerProduct(width, k + 1, count);
  }

  lemma LargerProduct(width: nat, j: nat, k: nat)
    requires j <= k
    ensures j * width <= k * width
    ensures j < k && width > 0 ==> j * width < k * width
  {
    assert k * width == j * width + (k - j) * width;
    if j < k && width > 0 {
      assert (k - j) * width > 0;
    }
  }

  lemma PointsByEach(data: seq<byte>, offset: nat, points: seq<DataPoint>, size: nat)
    requires offset + 78 <= |data|
    requires forall i: nat | i < |points| ::
               |points[i].value| == size && EndsAt(data, PointOffset(offset, |points|, size, i), PointBytes(points[i]))
    ensures UniformValues(points, size) && EndsAt(data, offset + 78, PointsBytes(points))
  {
    hide EndsAt, PointBytes, PointsBytes, ItemOffset;
    PointsEndExactly(data, offset + 78, points, size);
  }

  lemma VerbatimBounds(data: seq<byte>, offset: nat)
    requires PackageVerbatim(data, offset)
    ensures ReadSignedPackage(data, offset).Success? && ValueSizeAt(data, offset).Success?
    ensures var points := ReadSignedPackage(data, offset).value.package.points;
            offset + 78 <= |data| && CanonicalPoints(points) == points
  {
    hide ReadSignedPackage, ExtractNumber, CanonicalPoints, PaddedId;
  }

  /** The points of a verbatim package have the stated size and end where they were read. */
  lemma VerbatimPoints(data: seq<byte>, offset: nat)
    requires PackageVerbatim(data, offset)
    ensures var points, size := ReadSignedPackage(data, offset).value.package.points, ValueSizeAt(data, offset).value;
            UniformValues(points, size) && EndsAt(data, offset + 78, PointsBytes(points))
  {
    hide *;
    VerbatimBounds(data, offset);
    var points, size := ReadSignedPackage(data, offset).value.package.points, ValueSizeAt(data, offset).value;
    forall i: nat | i < |points|
      ensures |points[i].value| == size && EndsAt(data, PointOffset(offset, |points|, size, i), PointBytes(points[i]))
    {
      VerbatimPoint(data, offset, i);
    }
    PointsByEach(data, offset, points, size);
  }

  /** Where a verbatim package is read, its printed form ends. */
  lemma VerbatimIsWritten(data: seq<byte>, offset: nat)
    requires PackageVerbatim(data, offset) && SignedPackageBytes(ReadSignedPackage(data, offset).value).Success?
    ensures EndsAt(data, offset, SignedPackageBytes(ReadSignedPackage(data, offset).value).value)
  {
    hide PackageVerbatim, ReadSignedPackage, SignedPackageBytes, ExtractNumber, SliceFromEnd, EndsAt,
      NumberField, PointsBytes, CanonicalPoints, NulFree, ReadBackwards;
    VerbatimBounds(data, offset);
    var sp := ReadSignedPackage(data, offset).value;
    var points, size := sp.package.points, ValueSizeAt(data, offset).value;
    VerbatimPoints(data, offset);
    ReadPackageFacts(data, offset);
    PackageParts(sp);
    assert ValueSize(sp.package) == size;
    VerbatimFields(data, offset, sp.signature);
    JoinParts(data, offset, PointsBytes(points), NumberField(sp.package.timestamp, TIMESTAMP_BS).value,
              NumberField(size, DATA_POINT_VALUE_BYTE_SIZE_BS).value,
              NumberField(|points|, DATA_POINTS_COUNT_BS).value, sp.signature);
  }

  lemma VerbatimFields(data: seq<byte>, offset: nat, signature: seq<byte>)
    requires offset + 78 <= |data| && signature == SliceFromEnd(data, offset, SIGNATURE_BS)
    requires ExtractNumber(data, offset + 65, DATA_POINTS_COUNT_BS).Success? && ValueSizeAt(data, offset).Success?
    requires ExtractNumber(data, offset + 72, TIMESTAMP_BS).Success?
    ensures EndsAt(data, offset, signature)
    ensures var n := NumberField(ExtractNumber(data, offset + 65, DATA_POINTS_COUNT_BS).value, DATA_POINTS_COUNT_BS);
            n.Success? && EndsAt(data, offset + 65, n.value)
    ensures var n := NumberField(ValueSizeAt(data, offset).value, DATA_POINT_VALUE_BYTE_SIZE_BS);
            n.Success? && EndsAt(data, offset + 68, n.value)
    ensures var n := NumberField(ExtractNumber(data, offset + 72, TIMESTAMP_BS).value, TIMESTAMP_BS);
            n.Success? && EndsAt(data, offset + 72, n.value)
  {
    hide ExtractNumber, NumberField, SliceFromEnd, EndsAt;
    SliceInRange(data, offset, SIGNATURE_BS);
    NumberInRange(data, offset + 65, DATA_POINTS_COUNT_BS);
    NumberInRange(data, offset + 68, DATA_POINT_VALUE_BYTE_SIZE_BS);
    NumberInRange(data, offset + 72, TIMESTAMP_BS);
  }

  lemma JoinParts(data: seq<byte>, offset: nat, a: seq<byte>, b: seq<byte>, c: seq<byte>, d: seq<byte>, e: seq<byte>)
    requires EndsAt(data, offset, e)
    requires EndsAt(data, offset + |e|, d)
    requires EndsAt(data, offset + |e| + |d|, c)
    requires EndsAt(data, offset + |e| + |d| + |c|, b)
    requires EndsAt(data, offset + |e| + |d| + |c| + |b|, a)
    ensures EndsAt(data, offset, a + b + c + d + e)
  {
    hide EndsAt;
    JoinAt(data, offset + |e| + |d| + |c|, a, b);
    JoinAt(data, offset + |e| + |d|, a + b, c);
    JoinAt(data, offset + |e|, a + b + c, d);
    JoinAt(data, offset, a + b + c + d, e);
  }

  lemma WrittenLength(sp: SignedPackage)
    requires WellFormed(sp.package) && SignedPackageBytes(sp).Success?
    ensures |SignedPackageBytes(sp).value| == StatedLength(|sp.package.points|, ValueSize(sp.package))
  {
    PackageParts(sp);
    SortedUniform(sp.package);
    hide SignedPackageBytes, PointsBytes, CanonicalPoints, NumberField;
    PointsBytesLength(CanonicalPoints(sp.package.points), ValueSize(sp.package));
  }

  /** The parser advances by what the package states exactly when its values are as long as it states. */
  lemma AdvanceExactly(data: seq<byte>, offset: nat)
    requires ReadPackage(data, offset).Success?
    ensures ReadSignedPackage(data, offset).Success? && ValueSizeAt(data, offset).Success?
    ensures var points, size := ReadSignedPackage(data, offset).value.package.points, ValueSizeAt(data, offset).value;
            && points != []
            && (ReadPackage(data, offset).value.1 == StatedLength(|points|, size) <==> |points[0].value| == size)
  {
    hide ReadSignedPackage, SignedPackageBytes, ExtractNumber;
    var sp := ReadSignedPackage(data, offset).value;
    ReadPackageFacts(data, offset);
    hide ReadBackwards, NulFree;
    WrittenLength(sp);
    SameProduct(|sp.package.points|, ValueSize(sp.package), ValueSizeAt(data, offset).value);
  }

  lemma SameProduct(count: nat, a: nat, b: nat)
    requires count > 0
    ensures count * (DATA_FEED_ID_BS + a) == count * (DATA_FEED_ID_BS + b) <==> a == b
  {
    if a < b {
      LargerProduct(count, DATA_FEED_ID_BS + a, DATA_FEED_ID_BS + b);
    } else if b < a {
      LargerProduct(count, DATA_FEED_ID_BS + b, DATA_FEED_ID_BS + a);
    }
  }

  // ----- All packages

  /** Every package of the parsing loop is read verbatim, and nothing before the data. */
  ghost predicate AllVerbatim(data: seq<byte>, offset: nat, count: nat)
    decreases count
  {
    if count == 0 then offset <= |data|
    else
      && ReadPackage(data, offset).Success?
      && PackageVerbatim(data, offset)
      && AllVerbatim(data, offset + ReadPackage(data, offset).value.1, count - 1)
  }

  /** What every package has that the parsing loop keeps. */
  ghost predicate Printable(sp: SignedPackage) {
    WellFormed(sp.package) && NulFree(sp.package.points) && SignedPackageBytes(sp).Success?
  }

  /** What the loop keeps of a package is written like what it read. */
  lemma KeptIsWritten(data: seq<byte>, offset: nat)
    requires ReadPackage(data, offset).Success?
    ensures var sp := ReadPackage(data, offset).value.0;
            && Printable(sp)
            && WrittenBytes(sp) == SignedPackageBytes(ReadSignedPackage(data, offset).value).value
            && ReadPackage(data, offset).value.1 == |WrittenBytes(sp)|
  {
    hide ReadSignedPackage, PackageBytes;
    var read := ReadSignedPackage(data, offset).value;
    ReadPackageFacts(data, offset);
    hide ReadBackwards, ExtractNumber;
    PackageWrites(read.package);
    SerializingTwice(read.package);
    SortedNulFree(read.package.points);
    SortedCheck(read.package);
  }

  lemma PackageEndsExactly(data: seq<byte>, offset: nat)
    requires ReadPackage(data, offset).Success?
    ensures EndsAt(data, offset, WrittenBytes(ReadPackage(data, offset).value.0)) <==> PackageVerbatim(data, offset)
  {
    KeptIsWritten(data, offset);
    hide ReadSignedPackage, SignedPackageBytes, EndsAt, WrittenBytes, PackageVerbatim;
    if EndsAt(data, offset, WrittenBytes(ReadPackage(data, offset).value.0)) {
      WrittenIsVerbatim(data, offset);
    }
    if PackageVerbatim(data, offset) {
      VerbatimIsWritten(data, offset);
    }
  }

  lemma {:induction false} ConcatNext<S>(write: S -> seq<byte>, items: seq<S>, item: S)
    ensures ConcatMap(write, items + [item]) == ConcatMap(write, items) + write(item)
  {
    assert (items + [item])[..|items|] == items;
  }

  lemma JoinsExactly(data: seq<byte>, offset: nat, a: seq<byte>, b: seq<byte>)
    ensures EndsAt(data, offset, a + b) <==> EndsAt(data, offset, b) && EndsAt(data, offset + |b|, a)
  {
    if EndsAt(data, offset, a + b) {
      SplitAt(data, offset, a, b);
    }
    if EndsAt(data, offset, b) && EndsAt(data, offset + |b|, a) {
      JoinAt(data, offset, a, b);
    }
  }

  /** One turn of the loop, and the packages before it. */
  lemma LoopTurn(data: seq<byte>, offset: nat, count: nat, later: seq<SignedPackage>)
    requires count > 0 && ReadBackwards(PackageReader(data), offset, count, later).Success?
    ensures ReadPackage(data, offset).Success?
    ensures var item := ReadPackage(data, offset).value;
            ReadBackwards(PackageReader(data), offset, count, later) ==
            ReadBackwards(PackageReader(data), offset + item.1, count - 1, [item.0] + later)
  {
    hide ReadPackage, ReadBackwards;
    FirstRead(PackageReader(data), offset, count, later);
  }

  lemma NoPackages(data: seq<byte>, offset: nat, later: seq<SignedPackage>)
    ensures ReadBackwards(PackageReader(data), offset, 0, later) ==
            Success(([] + later, offset + |ConcatMap(WrittenBytes, [])|))
    ensures EndsAt(data, offset, ConcatMap(WrittenBytes, [])) <==> AllVerbatim(data, offset, 0)
  {
    hide PackageReader;
    assert [] + later == later;
  }

  lemma AllVerbatimStep(data: seq<byte>, offset: nat, count: nat)
    requires count > 0 && ReadPackage(data, offset).Success?
    ensures AllVerbatim(data, offset, count) <==>
            PackageVerbatim(data, offset) && AllVerbatim(data, offset + ReadPackage(data, offset).value.1, count - 1)
  {
    hide ReadPackage, PackageVerbatim;
  }

  lemma AllPrintable(packages: seq<SignedPackage>)
    requires forall i :: 0 <= i < |packages| ==> Printable(packages[i])
    ensures AllWellFormed(packages) && AllNulFree(packages)
    ensures forall i :: 0 <= i < |packages| ==> SignedPackageBytes(packages[i]).Success?
  {
    hide WellFormed, NulFree, SignedPackageBytes;
  }

  /** The packages the loop reads end where it starts exactly when each of them is verbatim. */
  lemma {:induction false} PackagesEndExactly(data: seq<byte>, offset: nat, count: nat, later: seq<SignedPackage>)
      returns (read: seq<SignedPackage>)
    requires ReadBackwards(PackageReader(data), offset, count, later).Success?
    ensures ReadBackwards(PackageReader(data), offset, count, later) ==
            Success((read + later, offset + |ConcatMap(WrittenBytes, read)|))
    ensures |read| == count && forall i :: 0 <= i < |read| ==> Printable(read[i])
    ensures EndsAt(data, offset, ConcatMap(WrittenBytes, read)) <==> AllVerbatim(data, offset, count)
    decreases count
  {
    hide *;
    if count == 0 {
      read := [];
      NoPackages(data, offset, later);
    } else {
      LoopTurn(data, offset, count, later);
      KeptIsWritten(data, offset);
      PackageEndsExactly(data, offset);
      AllVerbatimStep(data, offset, count);
      var item := ReadPackage(data, offset).value;
      var before := PackagesEndExactly(data, offset + item.1, count - 1, [item.0] + later);
      read := before + [item.0];
      ConcatNext(WrittenBytes, before, item.0);
      JoinsExactly(data, offset, ConcatMap(WrittenBytes, before), WrittenBytes(item.0));
      Regroup(before, item.0, later);
    }
  }

  // ----- The tail

  /** The metadata, its size and the package count lie within the data. */
  ghost predicate TailVerbatim(data: seq<byte>) {
    var size := ExtractNumber(data, REDSTONE_MARKER_BS, UNSIGNED_METADATA_BYTE_SIZE_BS);
    size.Success? && 14 + size.value <= |data|
  }

  lemma MarkerAtEnd(data: seq<byte>)
    requires SliceFromEnd(data, 0, REDSTONE_MARKER_BS) == REDSTONE_MARKER
    ensures EndsAt(data, 0, REDSTONE_MARKER)
  {
  }

  lemma TailEndsExactly(data: seq<byte>, p: Payload)
    requires SliceFromEnd(data, 0, REDSTONE_MARKER_BS) == REDSTONE_MARKER
    requires ExtractUnsignedMetadata(data) == Success(p.metadata)
    requires ExtractNumber(data, 12 + |p.metadata|, DATA_PACKAGES_COUNT_BS) == Success(|p.packages|)
    ensures PayloadTail(p).Success? && |PayloadTail(p).value| == 14 + |p.metadata|
    ensures EndsAt(data, 0, PayloadTail(p).value) <==> TailVerbatim(data)
  {
    var m := p.metadata;
    var size := ExtractNumber(data, REDSTONE_MARKER_BS, UNSIGNED_METADATA_BYTE_SIZE_BS).value;
    NumberBound(data, 12 + |m|, DATA_PACKAGES_COUNT_BS);
    NumberBound(data, REDSTONE_MARKER_BS, UNSIGNED_METADATA_BYTE_SIZE_BS);
    SliceAtMost(data, 12, size);
    NumberFieldRoundTrip(|m|, UNSIGNED_METADATA_BYTE_SIZE_BS);
    NumberFieldLength(|p.packages|, DATA_PACKAGES_COUNT_BS);
    hide EndsAt, NumberField, ExtractNumber, SliceFromEnd, ConvertIntegerNumberToBytes;
    if TailVerbatim(data) {
      SliceInRange(data, 12, size);
      TailWritten(data, p);
    }
    if EndsAt(data, 0, PayloadTail(p).value) {
      TailSize(data, p);
    }
  }

  lemma TailWritten(data: seq<byte>, p: Payload)
    requires SliceFromEnd(data, 0, REDSTONE_MARKER_BS) == REDSTONE_MARKER
    requires EndsAt(data, 12, p.metadata) && 14 + |p.metadata| <= |data|
    requires ExtractNumber(data, REDSTONE_MARKER_BS, UNSIGNED_METADATA_BYTE_SIZE_BS) == Success(|p.metadata|)
    requires ExtractNumber(data, 12 + |p.metadata|, DATA_PACKAGES_COUNT_BS) == Success(|p.packages|)
    ensures PayloadTail(p).Success? && EndsAt(data, 0, PayloadTail(p).value)
  {
    var m := p.metadata;
    MarkerAtEnd(data);
    hide EndsAt, NumberField, ExtractNumber, SliceFromEnd;
    NumberInRange(data, REDSTONE_MARKER_BS, UNSIGNED_METADATA_BYTE_SIZE_BS);
    NumberInRange(data, 12 + |m|, DATA_PACKAGES_COUNT_BS);
    NumberFieldLength(|m|, UNSIGNED_METADATA_BYTE_SIZE_BS);
    var c := NumberField(|p.packages|, DATA_PACKAGES_COUNT_BS).value;
    var s := NumberField(|m|, UNSIGNED_METADATA_BYTE_SIZE_BS).value;
    JoinAt(data, 9, m, s);
    JoinAt(data, 9, c, m + s);
    JoinAt(data, 0, c + (m + s), REDSTONE_MARKER);
  }

  lemma TailSize(data: seq<byte>, p: Payload)
    requires PayloadTail(p).Success? && EndsAt(data, 0, PayloadTail(p).value)
    ensures TailVerbatim(data)
  {
    var m := p.metadata;
    var c := NumberField(|p.packages|, DATA_PACKAGES_COUNT_BS).value;
    var s := NumberField(|m|, UNSIGNED_METADATA_BYTE_SIZE_BS).value;
    NumberFieldLength(|p.packages|, DATA_PACKAGES_COUNT_BS);
    NumberFieldLength(|m|, UNSIGNED_METADATA_BYTE_SIZE_BS);
    InRange(data, 0, PayloadTail(p).value);
    hide EndsAt, NumberField, ExtractNumber;
    SplitAt(data, 0, c + (m + s), REDSTONE_MARKER);
    SplitAt(data, 9, c, m + s);
    SplitAt(data, 9, m, s);
    NumberAt(data, 9, |m|, UNSIGNED_METADATA_BYTE_SIZE_BS);
  }

  // ----- The whole payload

  /** Everything the parser read lies within the data, in the form the printer gives it. */
  ghost predicate Verbatim(data: seq<byte>) {
    && TailVerbatim(data)
    && ParsePayload(data).Success?
    && var r := ParsePayload(data).value;
       AllVerbatim(data, 14 + |r.metadata|, |r.packages|)
  }

  function PayloadOf(r: Parsed): Payload {
    Payload(r.packages, r.metadata)
  }

  /** Printing what was parsed, after the remainder, gives the data back. */
  ghost predicate Reprints(data: seq<byte>) {
    && ParsePayload(data).Success?
    && PayloadBytes(PayloadOf(ParsePayload(data).value)).Success?
    && ParsePayload(data).value.remainderPrefix + PayloadBytes(PayloadOf(ParsePayload(data).value)).value == data
  }

  /** What the parser has checked and read when it succeeds. */
  lemma ParseFacts(data: seq<byte>)
    requires ParsePayload(data).Success?
    ensures var r := ParsePayload(data).value; var offset := 14 + |r.metadata|;
            && SliceFromEnd(data, 0, REDSTONE_MARKER_BS) == REDSTONE_MARKER
            && ExtractUnsignedMetadata(data) == Success(r.metadata)
            && ExtractNumber(data, 12 + |r.metadata|, DATA_PACKAGES_COUNT_BS).Success?
            && var count := ExtractNumber(data, 12 + |r.metadata|, DATA_PACKAGES_COUNT_BS).value;
               var read := ReadBackwards(PackageReader(data), offset, count, []);
               && read.Success? && r.packages == read.value.0
               && r.remainderPrefix == SliceFromEnd(data, read.value.1, |data| - read.value.1)
  {
    hide ExtractNumber, ExtractUnsignedMetadata, PackageReader, ReadBackwards, SliceFromEnd;
  }

  lemma PayloadParts(p: Payload)
    requires PayloadTail(p).Success?
    requires forall i :: 0 <= i < |p.packages| ==> SignedPackageBytes(p.packages[i]).Success?
    ensures PayloadBytes(p) == Success(ConcatMap(WrittenBytes, p.packages) + PayloadTail(p).value)
  {
    NoErrors(p.packages);
    hide PayloadTail, ConcatMap, SignedPackageBytes;
  }

  /** Every accepted payload can be printed; the remainder is what the printed length leaves. */
  lemma ParsedIsPrintable(data: seq<byte>)
    requires ParsePayload(data).Success?
    ensures var r := ParsePayload(data).value;
            && AllWellFormed(r.packages) && AllNulFree(r.packages)
            && PayloadBytes(PayloadOf(r)).Success?
            && var n := |PayloadBytes(PayloadOf(r)).value|; r.remainderPrefix == SliceFromEnd(data, n, |data| - n)
    ensures EndsAt(data, 0, PayloadBytes(PayloadOf(ParsePayload(data).value)).value) <==> Verbatim(data)
  {
    hide ParsePayload, ExtractNumber, ExtractUnsignedMetadata, PackageReader, ReadBackwards, PayloadTail, TailVerbatim,
      AllVerbatim, EndsAt, SliceFromEnd, ConcatMap, Printable, PayloadBytes, AllWellFormed, AllNulFree;
    var r := ParsePayload(data).value;
    var p := PayloadOf(r);
    ParseFacts(data);
    var count := ExtractNumber(data, 12 + |r.metadata|, DATA_PACKAGES_COUNT_BS).value;
    var read := PackagesEndExactly(data, 14 + |r.metadata|, count, []);
    assert read + [] == read == r.packages;
    AllPrintable(read);
    TailEndsExactly(data, p);
    PayloadParts(p);
    JoinsExactly(data, 0, ConcatMap(WrittenBytes, read), PayloadTail(p).value);
  }

  /**
   * For all data the parser accepts: printing the result after the remainder gives the data back exactly when
   * everything was read within the data, every package has its points in canonical order, and no id in it has
   * a NUL byte but trailing ones.
   */
  lemma ReprintsExactly(data: seq<byte>)
    requires ParsePayload(data).Success?
    ensures Reprints(data) <==> Verbatim(data)
  {
    ParsedIsPrintable(data);
    var r := ParsePayload(data).value;
    var bytes := PayloadBytes(PayloadOf(r)).value;
    hide ParsePayload, PayloadBytes, Verbatim;
    if r.remainderPrefix + bytes == data {
      assert data[|r.remainderPrefix|..] == bytes;
    }
    if EndsAt(data, 0, bytes) {
      assert r.remainderPrefix == data[..|data| - |bytes|];
      assert data == data[..|data| - |bytes|] + data[|data| - |bytes|..];
    }
  }

  ghost predicate Printed(data: seq<byte>, prefix: seq<byte>, p: Payload) {
    && AllWellFormed(p.packages) && AllNulFree(p.packages) && PayloadBytes(p).Success?
    && data == prefix + PayloadBytes(p).value
  }

  /** These are exactly the data that some printed payload without NUL bytes in its ids ends. */
  lemma ReprintsPrinted(data: seq<byte>)
    ensures Reprints(data) <==> exists prefix, p :: Printed(data, prefix, p)
  {
    if Reprints(data) {
      ParsedIsPrintable(data);
      hide ParsePayload, PayloadBytes, Verbatim, AllWellFormed, AllNulFree;
      var r := ParsePayload(data).value;
      assert Printed(data, r.remainderPrefix, PayloadOf(r));
    }
    if prefix, p :| Printed(data, prefix, p) {
      hide ParsePayload, PayloadBytes, AllWellFormed, AllNulFree;
      RoundTripWithPrefix(prefix, p);
      ReprintedPayload(prefix, p);
    }
  }
}
