/** The TON splitter: a second reader of the payload layout, working on the hexadecimal string. */
module SplitPayloadHex {
  import opened Wrappers
  import opened Bytes
  import opened BackwardsReading
  import opened DataPackages
  import opened SignedBytes
  import opened RedstonePayloads
  import opened PayloadRoundTrip

  /** The size of a package with one point and a 32-byte value: 32 + 32 + 6 + 3 + 4 + 65. */
  const DATA_PACKAGE_BS: nat := 142

  datatype SplitError = InvalidNumber | UnsafeSize | MultiPointPackages

  datatype Split = Split(dataPackageChunks: seq<string>, metadata: string)

  // ----- Hexadecimal strings

  const HEX_DIGITS: string := "0123456789abcdef"

  function ByteHex(b: byte): (s: string)
    ensures |s| == 2
  {
    [HEX_DIGITS[b / 16], HEX_DIGITS[b % 16]]
  }

  function ToHex(b: seq<byte>): (s: string)
    ensures |s| == 2 * |b|
  {
    if b == [] then ""
    else
      ToHex(b[..|b| - 1]) + ByteHex(b[|b| - 1])
  }

  function DigitValue(c: char): Option<nat> {
    if '0' <= c <= '9' then Some((c - '0') as nat)
    else if 'a' <= c <= 'f' then Some((c - 'a') as nat + 10)
    else if 'A' <= c <= 'F' then Some((c - 'A') as nat + 10)
    else None
  }

  function HexValue(s: string): Option<nat> {
    if s == "" then Some(0)
    else
      match (HexValue(s[..|s| - 1]), DigitValue(s[|s| - 1]))
      case (Some(high), Some(digit)) => Some(16 * high + digit)
      case _ => None
  }

  /** `BigNumber.from("0x" + s).toNumber()`. */
  function HexToNumber(s: string): Result<nat, SplitError> {
    match (if s == "" then None else HexValue(s))
    case None => Failure(InvalidNumber)
    case Some(n) => if n > MAX_SAFE_INTEGER then Failure(UnsafeSize) else Success(n)
  }

  function Clamp(i: int, length: nat): nat {
    if i < 0 then 0 else if i > length then length else i
  }

  /** `String.prototype.substring`: indices are clamped, and swapped when out of order. */
  function Substring(s: string, start: int, end: int): string {
    var a, b := Clamp(start, |s|), Clamp(end, |s|);
    if a <= b then s[a..b] else s[b..a]
  }

  /** Digits of either case read as their value, and nothing else does. */
  lemma HexDigits(c: char, n: nat)
    requires n < 16
    ensures DigitValue(c) == Some(n) <==> c == "0123456789abcdef"[n] || c == "0123456789ABCDEF"[n]
    ensures DigitValue(c).Some? ==> DigitValue(c).value < 16
  {
  }

  /** Nothing, text that is not hexadecimal and numbers from 2^53 on are refused. */
  lemma HexNumbers(s: string)
    ensures match HexToNumber(s)
            case Success(n) => s != "" && HexValue(s) == Some(n) && n < 9_007_199_254_740_992
            case Failure(InvalidNumber) => s == "" || HexValue(s) == None
            case Failure(UnsafeSize) => s != "" && HexValue(s).Some? && HexValue(s).value >= 9_007_199_254_740_992
            case Failure(_) => false
  {
    hide HexValue;
  }

  /** Indices outside the text stop at its ends, and the smaller index is the first. */
  lemma SubstringExactly(s: string, start: int, end: int)
    ensures 0 <= start <= end <= |s| ==> Substring(s, start, end) == s[start..end]
    ensures Substring(s, start, end) == Substring(s, end, start)
    ensures start < 0 ==> Substring(s, start, end) == Substring(s, 0, end)
    ensures start > |s| ==> Substring(s, start, end) == Substring(s, |s|, end)
  {
  }

  // ----- The splitter

  function Chunk(payloadHex: string, i: nat): string {
    Substring(payloadHex, i * 2 * DATA_PACKAGE_BS, (i + 1) * 2 * DATA_PACKAGE_BS)
  }

  function Chunks(payloadHex: string, count: nat): (r: seq<string>)
    ensures |r| == count
    ensures forall i :: 0 <= i < count ==> r[i] == Chunk(payloadHex, i)
  {
    if count == 0 then [] else Chunks(payloadHex, count - 1) + [Chunk(payloadHex, count - 1)]
  }

  /** The hexadecimal tail from the package count on, and that count. */
  function MetadataAndCount(payloadHex: string): Result<(string, nat), SplitError> {
    var n := |payloadHex|;
    var unsignedMetadataBS :-
      HexToNumber(Substring(payloadHex, n - 2 * (REDSTONE_MARKER_BS + UNSIGNED_METADATA_BYTE_SIZE_BS),
                            n - 2 * REDSTONE_MARKER_BS));
    var metadataBS := REDSTONE_MARKER_BS + UNSIGNED_METADATA_BYTE_SIZE_BS + unsignedMetadataBS + DATA_PACKAGES_COUNT_BS;
    var metadata := Substring(payloadHex, n - 2 * metadataBS, n);
    var count :- HexToNumber(Substring(metadata, 0, DATA_PACKAGES_COUNT_BS * 2));
    if n - 2 * metadataBS != 2 * DATA_PACKAGE_BS * count then Failure(MultiPointPackages)
    else Success((metadata, count))
  }

  function SplitHex(payloadHex: string): Result<Split, SplitError> {
    var tail :- MetadataAndCount(payloadHex);
    Success(Split(Chunks(payloadHex, tail.1), tail.0))
  }

  method SplitPayload(payloadHex: string) returns (r: Result<Split, SplitError>)
    ensures r == SplitHex(payloadHex)
  {
    var tail :- MetadataAndCount(payloadHex);
    var dataPackageChunks: seq<string> := [];
    for i := 0 to tail.1
      invariant dataPackageChunks == Chunks(payloadHex, i)
    {
      dataPackageChunks := dataPackageChunks + [Chunk(payloadHex, i)];
    }
    return Success(Split(dataPackageChunks, tail.0));
  }

  // ----- Hexadecimal facts

  lemma Associative<T>(a: seq<T>, b: seq<T>, c: seq<T>)
    ensures a + (b + c) == (a + b) + c
  {
  }

  lemma {:induction false} ToHexConcat(a: seq<byte>, b: seq<byte>)
    ensures ToHex(a + b) == ToHex(a) + ToHex(b)
  {
    hide ByteHex;
    if b == [] {
      assert a + b == a;
    } else {
      var n := |b| - 1;
      assert (a + b)[..|a| + n] == a + b[..n];
      ToHexConcat(a, b[..n]);
      Associative(ToHex(a), ToHex(b[..n]), ByteHex(b[n]));
    }
  }

  lemma HexDigitValue(d: nat)
    requires d < 16
    ensures DigitValue(HEX_DIGITS[d]) == Some(d)
  {
    if d < 8 {
      assert HEX_DIGITS[d] == "01234567"[d];
    } else {
      assert HEX_DIGITS[d] == "89abcdef"[d - 8];
    }
  }

  lemma ByteHexValue(b: byte)
    ensures DigitValue(ByteHex(b)[0]) == Some(b / 16)
    ensures DigitValue(ByteHex(b)[1]) == Some(b % 16)
  {
    hide DigitValue;
    HexDigitValue(b / 16);
    HexDigitValue(b % 16);
  }

  lemma HexValueSnoc(s: string, c: char)
    requires HexValue(s).Some? && DigitValue(c).Some?
    ensures HexValue(s + [c]) == Some(16 * HexValue(s).value + DigitValue(c).value)
  {
    assert (s + [c])[..|s|] == s;
  }

  lemma {:induction false} HexValueOfBytes(b: seq<byte>)
    ensures HexValue(ToHex(b)) == Some(FromBytes(b))
  {
    hide ByteHex, DigitValue;
    if b != [] {
      var n := |b| - 1;
      var s, h := ToHex(b[..n]), ByteHex(b[n]);
      HexValueOfBytes(b[..n]);
      ByteHexValue(b[n]);
      HexValueSnoc(s, h[0]);
      HexValueSnoc(s + [h[0]], h[1]);
      assert s + h == (s + [h[0]]) + [h[1]];
    }
  }

  lemma HexField(value: int, size: nat)
    requires 1 <= size <= 6 && NumberField(value, size).Success?
    ensures value >= 0 && HexToNumber(ToHex(NumberField(value, size).value)) == Success(value)
  {
    var b := NumberField(value, size).value;
    NumberFieldRoundTrip(value, size);
    HexValueOfBytes(b);
    ShortFieldsAreSafe(b);
  }

  // ----- Agreement with the serializer

  lemma HexParts(packages: string, c: string, m: string, s: string, marker: string)
    requires |c| == 4 && |s| == 6 && |marker| == 18
    ensures var tail := c + (m + s) + marker;
            var hex := packages + tail; var n := |hex|;
            Substring(hex, n - 24, n - 18) == s &&
            Substring(hex, n - |tail|, n) == tail &&
            Substring(tail, 0, 4) == c
  {
    var hex := packages + (c + (m + s) + marker);
    var n := |hex|;
    assert hex == (packages + c + m) + s + marker;
    assert hex[n - 24..n - 18] == s;
  }

  lemma MetadataOfParts(packages: string, c: string, m: string, s: string, marker: string, metadataBS: nat, count: nat)
    requires |c| == 4 && |s| == 6 && |marker| == 18 && |m| == 2 * metadataBS
    requires HexToNumber(s) == Success(metadataBS) && HexToNumber(c) == Success(count)
    ensures var tail := c + (m + s) + marker;
            MetadataAndCount(packages + tail) ==
              if |packages| == 2 * DATA_PACKAGE_BS * count then Success((tail, count)) else Failure(MultiPointPackages)
  {
    hide HexToNumber, Substring;
    HexParts(packages, c, m, s, marker);
  }

  /** The tail the splitter finds in a printed payload is the printed tail, and its count is the package count. */
  lemma TailOfPayload(packages: seq<byte>, p: Payload)
    requires PayloadTail(p).Success?
    ensures var tail := ToHex(PayloadTail(p).value);
            MetadataAndCount(ToHex(packages + PayloadTail(p).value)) ==
              if |packages| == DATA_PACKAGE_BS * |p.packages| then Success((tail, |p.packages|))
              else Failure(MultiPointPackages)
  {
    hide NumberField, HexToNumber, MetadataAndCount, ToHex;
    var m := p.metadata;
    var c := NumberField(|p.packages|, DATA_PACKAGES_COUNT_BS).value;
    var s := NumberField(|m|, UNSIGNED_METADATA_BYTE_SIZE_BS).value;
    HexField(|p.packages|, DATA_PACKAGES_COUNT_BS);
    HexField(|m|, UNSIGNED_METADATA_BYTE_SIZE_BS);
    NumberFieldLength(|p.packages|, DATA_PACKAGES_COUNT_BS);
    NumberFieldLength(|m|, UNSIGNED_METADATA_BYTE_SIZE_BS);
    ToHexConcat(packages, PayloadTail(p).value);
    ToHexConcat(c + (m + s), REDSTONE_MARKER);
    ToHexConcat(c, m + s);
    ToHexConcat(m, s);
    MetadataOfParts(ToHex(packages), ToHex(c), ToHex(m), ToHex(s), ToHex(REDSTONE_MARKER), |m|, |p.packages|);
  }

  function PackageHex(sp: SignedPackage): string {
    ToHex(WrittenBytes(sp))
  }

  lemma {:induction false} FixedSizeItems<S>(write: S -> seq<byte>, items: seq<S>, i: nat)
    requires i < |items| && forall k :: 0 <= k < |items| ==> |write(items[k])| == DATA_PACKAGE_BS
    ensures |ConcatMap(write, items)| == DATA_PACKAGE_BS * |items|
    ensures ConcatMap(write, items)[DATA_PACKAGE_BS * i..DATA_PACKAGE_BS * (i + 1)] == write(items[i])
  {
    var n := |items| - 1;
    if n == 0 {
      assert items[..n] == [];
      assert ConcatMap(write, items) == [] + write(items[0]) == write(items[0]);
    } else {
      var before, last := ConcatMap(write, items[..n]), write(items[n]);
      assert ConcatMap(write, items) == before + last;
      FixedSizeItems(write, items[..n], if i < n then i else n - 1);
      assert |before| == DATA_PACKAGE_BS * n;
      hide ConcatMap;
      if i < n {
        assert (before + last)[DATA_PACKAGE_BS * i..DATA_PACKAGE_BS * (i + 1)] ==
               before[DATA_PACKAGE_BS * i..DATA_PACKAGE_BS * (i + 1)];
      } else {
        assert (before + last)[|before|..|before| + |last|] == last;
      }
    }
  }

  lemma ChunkOfBytes(b: seq<byte>, tail: seq<byte>, i: nat)
    requires DATA_PACKAGE_BS * (i + 1) <= |b|
    ensures Chunk(ToHex(b + tail), i) == ToHex(b[DATA_PACKAGE_BS * i..DATA_PACKAGE_BS * (i + 1)])
  {
    hide ToHex;
    var from, to := DATA_PACKAGE_BS * i, DATA_PACKAGE_BS * (i + 1);
    HexSlice(b + tail, from, to);
    assert (b + tail)[from..to] == b[from..to];
  }

  lemma HexSlice(b: seq<byte>, from: nat, to: nat)
    requires from <= to <= |b|
    ensures ToHex(b)[2 * from..2 * to] == ToHex(b[from..to])
  {
    hide ToHex;
    var x, y, z := b[..from], b[from..to], b[to..];
    ThreeParts(b, from, to);
    ToHexConcat(x, y + z);
    ToHexConcat(y, z);
    MiddlePart(ToHex(x), ToHex(y), ToHex(z));
  }

  lemma ThreeParts<T>(b: seq<T>, from: nat, to: nat)
    requires from <= to <= |b|
    ensures b == b[..from] + (b[from..to] + b[to..])
  {
  }

  lemma MiddlePart<T>(x: seq<T>, y: seq<T>, z: seq<T>)
    ensures (x + (y + z))[|x|..|x| + |y|] == y
  {
  }

  ghost predicate AllFixedSize(packages: seq<SignedPackage>) {
    forall i :: 0 <= i < |packages| ==> |WrittenBytes(packages[i])| == DATA_PACKAGE_BS
  }

  lemma {:induction false} FixedSizeTotal(packages: seq<SignedPackage>)
    requires AllFixedSize(packages)
    ensures |ConcatMap(WrittenBytes, packages)| == DATA_PACKAGE_BS * |packages|
  {
    if packages != [] {
      FixedSizeItems(WrittenBytes, packages, 0);
    }
  }

  lemma FixedSizeChunks(packages: seq<SignedPackage>, tail: seq<byte>)
    requires AllFixedSize(packages)
    ensures Chunks(ToHex(ConcatMap(WrittenBytes, packages) + tail), |packages|) == Map(PackageHex, packages)
  {
    hide SignedPackageBytes;
    var b := ConcatMap(WrittenBytes, packages);
    forall i | 0 <= i < |packages| ensures Chunk(ToHex(b + tail), i) == PackageHex(packages[i]) {
      FixedSizeItems(WrittenBytes, packages, i);
      ChunkOfBytes(b, tail, i);
    }
  }

  /** On printed payloads the splitter succeeds exactly when the total size is right for its fixed chunks. */
  lemma SplitterAccepts(p: Payload)
    requires PayloadBytes(p).Success?
    ensures SplitHex(ToHex(PayloadBytes(p).value)).Success? <==>
              |ConcatMap(WrittenBytes, p.packages)| == DATA_PACKAGE_BS * |p.packages|
  {
    hide SignedPackageBytes;
    TailOfPayload(ConcatMap(WrittenBytes, p.packages), p);
  }

  /**
   * The splitter's chunks are the packages of a printed payload, and its metadata the printed tail,
   * exactly when every package has the assumed size.
   */
  lemma SplitterAgreesWithSerializer(p: Payload)
    requires PayloadBytes(p).Success?
    ensures SplitHex(ToHex(PayloadBytes(p).value)) ==
              Success(Split(Map(PackageHex, p.packages), ToHex(PayloadTail(p).value)))
            <==> AllFixedSize(p.packages)
  {
    hide SignedPackageBytes;
    var b, tail := ConcatMap(WrittenBytes, p.packages), PayloadTail(p).value;
    TailOfPayload(b, p);
    if AllFixedSize(p.packages) {
      FixedSizeTotal(p.packages);
      FixedSizeChunks(p.packages, tail);
    } else if |b| == DATA_PACKAGE_BS * |p.packages| {
      var i :| 0 <= i < |p.packages| && |WrittenBytes(p.packages[i])| != DATA_PACKAGE_BS;
      ChunkLength(b, tail, |p.packages|, i);
      assert |Map(PackageHex, p.packages)[i]| != |Chunks(ToHex(b + tail), |p.packages|)[i]|;
    }
  }

  lemma ChunkLength(b: seq<byte>, tail: seq<byte>, count: nat, i: nat)
    requires |b| == DATA_PACKAGE_BS * count && i < count
    ensures |Chunk(ToHex(b + tail), i)| == 2 * DATA_PACKAGE_BS
  {
    assert DATA_PACKAGE_BS * (i + 1) <= DATA_PACKAGE_BS * count;
    ChunkOfBytes(b, tail, i);
  }

  /** The assumed size means one point with a 32-byte value, or two points with empty values. */
  lemma AssumedSize(sp: SignedPackage)
    requires WellFormed(sp.package) && SignedPackageBytes(sp).Success?
    ensures |WrittenBytes(sp)| == DATA_PACKAGE_BS <==>
              (|sp.package.points| == 1 && ValueSize(sp.package) == 32) ||
              (|sp.package.points| == 2 && ValueSize(sp.package) == 0)
  {
    var p := sp.package;
    PackageWrites(p);
    SortedUniform(p);
    PointsBytesLength(CanonicalPoints(p.points), ValueSize(p));
    hide PackageBytes, CheckPoints, CanonicalPoints;
    RecordsOf64(|p.points|, ValueSize(p));
  }

  lemma RecordsOf64(count: nat, valueSize: nat)
    ensures count * (32 + valueSize) == 64 <==> (count == 1 && valueSize == 32) || (count == 2 && valueSize == 0)
  {
    if count >= 3 {
      assert count * (32 + valueSize) >= 3 * (32 + valueSize);
    }
  }

  lemma ExtendPrefix<T>(s: seq<T>, from: nat, to: nat)
    requires from <= to <= |s|
    ensures s[..from] + s[from..to] == s[..to]
  {
  }

  lemma ChunkSlice(s: string, i: nat)
    requires 2 * DATA_PACKAGE_BS * (i + 1) <= |s|
    ensures Chunk(s, i) == s[2 * DATA_PACKAGE_BS * i..2 * DATA_PACKAGE_BS * (i + 1)]
  {
  }

  lemma {:induction false} ChunksCover(s: string, count: nat)
    requires 2 * DATA_PACKAGE_BS * count <= |s|
    ensures Joined(Chunks(s, count)) == s[..2 * DATA_PACKAGE_BS * count]
  {
    hide Chunk;
    if count > 0 {
      ChunksCover(s, count - 1);
      assert Chunks(s, count)[..count - 1] == Chunks(s, count - 1);
      ChunkSlice(s, count - 1);
      ExtendPrefix(s, 2 * DATA_PACKAGE_BS * (count - 1), 2 * DATA_PACKAGE_BS * count);
    }
  }

  function Joined(chunks: seq<string>): string {
    if chunks == [] then "" else Joined(chunks[..|chunks| - 1]) + chunks[|chunks| - 1]
  }

  lemma MetadataIsSuffix(payloadHex: string)
    requires MetadataAndCount(payloadHex).Success?
    ensures var tail := MetadataAndCount(payloadHex).value; var k := 2 * DATA_PACKAGE_BS * tail.1;
            k <= |payloadHex| && tail.0 == payloadHex[k..]
  {
    hide HexToNumber;
  }

  /** Whatever is accepted, from anywhere, is cut without loss: chunks and metadata join to the input. */
  lemma SplitIsLossless(payloadHex: string)
    ensures SplitHex(payloadHex).Success? ==>
              var split := SplitHex(payloadHex).value;
              Joined(split.dataPackageChunks) + split.metadata == payloadHex
  {
    hide MetadataAndCount, Chunks, Joined;
    if SplitHex(payloadHex).Success? {
      MetadataIsSuffix(payloadHex);
      ChunksCover(payloadHex, MetadataAndCount(payloadHex).value.1);
    }
  }

  /** Two one-point packages with values of 31 and 33 bytes are accepted and cut at the wrong place. */
  lemma MisalignedPackages(p: Payload)
    requires PayloadBytes(p).Success? && AllWellFormed(p.packages)
    requires |p.packages| == 2 && |p.packages[0].package.points| == 1 && |p.packages[1].package.points| == 1
    requires ValueSize(p.packages[0].package) == 31 && ValueSize(p.packages[1].package) == 33
    ensures var split := SplitHex(ToHex(PayloadBytes(p).value));
            split.Success? && |split.value.dataPackageChunks| == 2 &&
            split.value.dataPackageChunks[0] != PackageHex(p.packages[0])
  {
    hide SignedPackageBytes, CheckPoints;
    NoErrors(p.packages);
    var b := ConcatMap(WrittenBytes, p.packages);
    OnePointSize(p.packages[0]);
    OnePointSize(p.packages[1]);
    assert p.packages[..1] == [p.packages[0]] && p.packages[..1][..0] == [];
    assert ConcatMap(WrittenBytes, p.packages[..1]) == ConcatMap(WrittenBytes, []) + WrittenBytes(p.packages[0]);
    SplitterAccepts(p);
    TailOfPayload(b, p);
    ChunkLength(b, PayloadTail(p).value, 2, 0);
  }

  lemma OnePointSize(sp: SignedPackage)
    requires WellFormed(sp.package) && SignedPackageBytes(sp).Success? && |sp.package.points| == 1
    ensures |WrittenBytes(sp)| == 110 + ValueSize(sp.package)
  {
    PackageWrites(sp.package);
    SortedUniform(sp.package);
    PointsBytesLength(CanonicalPoints(sp.package.points), ValueSize(sp.package));
  }

  /** A package with one point, for feed "A", whose value is `size` zero bytes. */
  function ZeroPackage(size: nat): SignedPackage {
    SignedPackage(Package([DataPoint([0x41], Zeros(size))], 0, []), seq(SIGNATURE_BS, _ => 0))
  }

  lemma ZeroPackageWrites(size: nat)
    requires size < 256
    ensures WellFormed(ZeroPackage(size).package) && ValueSize(ZeroPackage(size).package) == size
    ensures SignedPackageBytes(ZeroPackage(size)).Success?
  {
    FewBytes();
    hide PackageBytes, Pow256;
    PackageWrites(ZeroPackage(size).package);
  }

  /** Such packages of 31 and 33 bytes make a payload that is accepted and cut at the wrong place. */
  lemma MisalignedExample()
    ensures var p := Payload([ZeroPackage(31), ZeroPackage(33)], []);
            && PayloadBytes(p).Success?
            && SplitHex(ToHex(PayloadBytes(p).value)).Success?
            && SplitHex(ToHex(PayloadBytes(p).value)) !=
                 Success(Split(Map(PackageHex, p.packages), ToHex(PayloadTail(p).value)))
  {
    var p := Payload([ZeroPackage(31), ZeroPackage(33)], []);
    ZeroPackageWrites(31);
    ZeroPackageWrites(33);
    FewBytes();
    hide SignedPackageBytes, PackagesBytes, SplitHex, ToHex, PayloadTail, PayloadBytes, CheckPoints, Pow256;
    NoErrors(p.packages);
    PayloadWrites(p);
    MisalignedPackages(p);
  }
}
