/**
 * What the signed bytes of a package depend on: the timestamp and the collection of its points, not
 * their order; and that they determine both.
 */
module SignedBytes {
  import opened Wrappers
  import opened Bytes
  import opened Sorting
  import opened DataPackages

  /** A package the constructor accepts. */
  ghost predicate WellFormed(p: Package) {
    CheckPoints(p.points).Pass?
  }

  function ValueSize(p: Package): nat
    requires CheckPoints(p.points).Pass?
  {
    |p.points[0].value|
  }

  // ----- The sorting key

  lemma FeedKeyIdentifiesBytes32(p: DataPoint, q: DataPoint)
    ensures FeedKey(p) == FeedKey(q) <==> Bytes32(p.feedId) == Bytes32(q.feedId)
  {
    if FeedKey(p) == FeedKey(q) {
      FromBytesInjective(Bytes32(p.feedId), Bytes32(q.feedId));
    }
  }

  lemma FeedKeysIdentify(points: seq<DataPoint>)
    requires DistinctFeeds(points)
    ensures KeyIdentifies(points, FeedKey)
  {
    forall i, j | 0 <= i < |points| && 0 <= j < |points| && FeedKey(points[i]) == FeedKey(points[j])
      ensures points[i] == points[j]
    {
      FeedKeyIdentifiesBytes32(points[i], points[j]);
    }
  }

  /** Written points are in strictly increasing lexicographic order of their 32-byte ids. */
  lemma CanonicalOrder(points: seq<DataPoint>, i: nat, j: nat)
    requires DistinctFeeds(points) && i < j < |points|
    ensures |CanonicalPoints(points)| == |points|
    ensures LexLess(Bytes32(CanonicalPoints(points)[i].feedId), Bytes32(CanonicalPoints(points)[j].feedId))
  {
    var c := CanonicalPoints(points);
    SortBySorts(points, FeedKey);
    DistinctPermutation(points, c);
    assert FeedKey(c[i]) <= FeedKey(c[j]);
    FeedKeyIdentifiesBytes32(c[i], c[j]);
    LexLessIsNumeric(Bytes32(c[i].feedId), Bytes32(c[j].feedId));
  }

  // ----- Permutations

  lemma {:induction false} DistinctCount(points: seq<DataPoint>, x: DataPoint)
    requires DistinctFeeds(points)
    ensures multiset(points)[x] <= 1
  {
    if points != [] {
      DistinctCount(points[1..], x);
      assert points == [points[0]] + points[1..];
      if x == points[0] {
        assert x !in points[1..];
        assert x !in multiset(points[1..]);
      }
    }
  }

  lemma RepeatedCount(points: seq<DataPoint>, i: nat, j: nat)
    requires i < j < |points| && points[i] == points[j]
    ensures multiset(points)[points[i]] >= 2
  {
    assert points == points[..j] + points[j..];
    assert points[i] in points[..j] && points[j] in points[j..];
  }

  lemma DistinctPermutation(a: seq<DataPoint>, b: seq<DataPoint>)
    requires multiset(a) == multiset(b) && DistinctFeeds(a)
    ensures DistinctFeeds(b)
  {
    forall i, j | 0 <= i < j < |b| ensures Bytes32(b[i].feedId) != Bytes32(b[j].feedId) {
      if b[i] == b[j] {
        RepeatedCount(b, i, j);
        DistinctCount(a, b[i]);
      } else {
        assert b[i] in multiset(a) && b[j] in multiset(a);
      }
    }
  }

  lemma UniformPermutation(a: seq<DataPoint>, b: seq<DataPoint>)
    requires multiset(a) == multiset(b) && CheckPoints(a).Pass?
    ensures CheckPoints(b).Pass? && |a| == |b| && |b[0].value| == |a[0].value|
  {
    SameLength(a, b);
    forall i | 0 <= i < |b| ensures |b[i].value| == |a[0].value| {
      assert b[i] in multiset(a);
    }
  }

  /** The signed bytes, and the errors, are the same for every order of the points. */
  lemma SignedBytesIgnoreOrder(p: Package, q: Package)
    requires WellFormed(p)
    requires multiset(p.points) == multiset(q.points) && p.timestamp == q.timestamp
    ensures PackageBytes(p) == PackageBytes(q)
  {
    var a, b := p.points, q.points;
    UniformPermutation(a, b);
    if DistinctFeeds(a) {
      DistinctPermutation(a, b);
      FeedKeysIdentify(a);
      SortPermutation(a, b, FeedKey);
    } else if DistinctFeeds(b) {
      DistinctPermutation(b, a);
      assert false;
    }
  }

  /** Serializing sorts the points in place, which changes no later serialization. */
  lemma SerializingTwice(p: Package)
    requires DistinctFeeds(p.points)
    ensures CanonicalPoints(CanonicalPoints(p.points)) == CanonicalPoints(p.points)
    ensures PackageBytes(p.(points := CanonicalPoints(p.points))) == PackageBytes(p)
  {
    SortBySorts(p.points, FeedKey);
    SortSorted(CanonicalPoints(p.points), FeedKey);
    DistinctPermutation(p.points, CanonicalPoints(p.points));
  }

  // ----- When a package can be written

  /** Exactly these packages serialize; none of the field widths is exceeded. */
  lemma PackageWrites(p: Package)
    requires WellFormed(p)
    ensures PackageBytes(p).Success? <==>
              DistinctFeeds(p.points) && 0 <= p.timestamp < Pow256(6) &&
              ValueSize(p) < Pow256(4) && |p.points| < Pow256(3)
    ensures PackageBytes(p).Success? ==>
              var tail := FieldsTail(p);
              tail.Success? && |tail.value| == 13 &&
              PackageBytes(p).value == PointsBytes(CanonicalPoints(p.points)) + tail.value
  {
    hide ConvertIntegerNumberToBytes;
    SortBySorts(p.points, FeedKey);
    UniformPermutation(p.points, CanonicalPoints(p.points));
    NumberFieldRoundTrip(p.timestamp, TIMESTAMP_BS);
    NumberFieldRoundTrip(ValueSize(p), DATA_POINT_VALUE_BYTE_SIZE_BS);
    NumberFieldRoundTrip(|p.points|, DATA_POINTS_COUNT_BS);
    if PackageBytes(p).Success? {
      var t := NumberField(p.timestamp, 6).value;
      var s := NumberField(ValueSize(p), 4).value;
      var c := NumberField(|p.points|, 3).value;
      var pb := PointsBytes(CanonicalPoints(p.points));
      assert pb + t + s + c == pb + (t + s + c);
    }
  }

  /** The three number fields that follow the points. */
  function FieldsTail(p: Package): Result<seq<byte>, CodecError>
    requires CheckPoints(p.points).Pass?
  {
    var t :- NumberField(p.timestamp, TIMESTAMP_BS);
    var s :- NumberField(ValueSize(p), DATA_POINT_VALUE_BYTE_SIZE_BS);
    var c :- NumberField(|p.points|, DATA_POINTS_COUNT_BS);
    Success(t + s + c)
  }

  ghost predicate UniformValues(points: seq<DataPoint>, size: nat) {
    forall i :: 0 <= i < |points| ==> |points[i].value| == size
  }

  lemma {:induction false} PointsBytesLength(points: seq<DataPoint>, size: nat)
    requires UniformValues(points, size)
    ensures |PointsBytes(points)| == |points| * (DATA_FEED_ID_BS + size)
  {
    if points != [] {
      var n := |points| - 1;
      PointsBytesLength(points[..n], size);
      assert |PointBytes(points[n])| == DATA_FEED_ID_BS + size;
      assert (n + 1) * (DATA_FEED_ID_BS + size) == n * (DATA_FEED_ID_BS + size) + (DATA_FEED_ID_BS + size);
    }
  }

  // ----- Feed ids up to trailing NUL bytes

  function TrimTrailingNul(id: FeedId): FeedId {
    if id != [] && id[|id| - 1] == 0 then TrimTrailingNul(id[..|id| - 1]) else id
  }

  lemma {:induction false} TrimKeepsBytes32(id: FeedId)
    ensures Bytes32(TrimTrailingNul(id)) == Bytes32(id)
    ensures TrimTrailingNul(id) == [] || TrimTrailingNul(id)[|TrimTrailingNul(id)| - 1] != 0
  {
    if id != [] && id[|id| - 1] == 0 {
      TrimKeepsBytes32(id[..|id| - 1]);
      assert Bytes32(id[..|id| - 1]) == Bytes32(id);
    }
  }

  lemma ShorterTrimmedDiffers(a: FeedId, b: FeedId)
    requires |a| < |b| && b[|b| - 1] != 0
    ensures Bytes32(a) != Bytes32(b)
  {
    assert Bytes32(a)[|b| - 1] == 0;
    assert Bytes32(b)[|b| - 1] == b[|b| - 1];
  }

  lemma Bytes32IdentifiesTrimmed(a: FeedId, b: FeedId)
    ensures Bytes32(a) == Bytes32(b) <==> TrimTrailingNul(a) == TrimTrailingNul(b)
  {
    TrimKeepsBytes32(a);
    TrimKeepsBytes32(b);
    var s, t := TrimTrailingNul(a), TrimTrailingNul(b);
    if Bytes32(a) == Bytes32(b) {
      if |s| < |t| {
        ShorterTrimmedDiffers(s, t);
      } else if |t| < |s| {
        ShorterTrimmedDiffers(t, s);
      } else {
        assert s == Bytes32(s)[..|s|] && t == Bytes32(t)[..|s|];
      }
    }
  }

  function TrimPoint(p: DataPoint): DataPoint {
    p.(feedId := TrimTrailingNul(p.feedId))
  }

  function TrimPoints(points: seq<DataPoint>): (r: seq<DataPoint>)
    ensures |r| == |points|
    ensures forall i :: 0 <= i < |r| ==> r[i] == TrimPoint(points[i])
  {
    seq(|points|, i requires 0 <= i < |points| => TrimPoint(points[i]))
  }

  lemma TrimPointsCons(x: DataPoint, s: seq<DataPoint>)
    ensures TrimPoints([x] + s) == [TrimPoint(x)] + TrimPoints(s)
  {
  }

  lemma TrimKeepsKey(x: DataPoint)
    ensures FeedKey(TrimPoint(x)) == FeedKey(x)
  {
    TrimKeepsBytes32(x.feedId);
  }

  lemma {:induction false} InsertTrimmed(x: DataPoint, s: seq<DataPoint>)
    ensures Insert(TrimPoint(x), TrimPoints(s), FeedKey) == TrimPoints(Insert(x, s, FeedKey))
  {
    TrimPointsCons(x, s);
    if s != [] {
      TrimKeepsKey(x);
      TrimKeepsKey(s[0]);
      if FeedKey(x) > FeedKey(s[0]) {
        InsertTrimmed(x, s[1..]);
        TrimPointsCons(s[0], Insert(x, s[1..], FeedKey));
        assert TrimPoints(s)[1..] == TrimPoints(s[1..]);
      }
    }
  }

  lemma {:induction false} SortTrimmed(s: seq<DataPoint>)
    ensures CanonicalPoints(TrimPoints(s)) == TrimPoints(CanonicalPoints(s))
  {
    if s != [] {
      SortTrimmed(s[1..]);
      assert TrimPoints(s)[1..] == TrimPoints(s[1..]);
      InsertTrimmed(s[0], CanonicalPoints(s[1..]));
    }
  }

  lemma {:induction false} PointsBytesTrimmed(s: seq<DataPoint>)
    ensures PointsBytes(TrimPoints(s)) == PointsBytes(s)
  {
    if s != [] {
      var n := |s| - 1;
      PointsBytesTrimmed(s[..n]);
      assert TrimPoints(s)[..n] == TrimPoints(s[..n]);
      TrimKeepsBytes32(s[n].feedId);
    }
  }

  // ----- The signed bytes determine the package

  lemma SplitLast(a: seq<byte>, b: seq<byte>, c: seq<byte>, d: seq<byte>)
    requires a + b == c + d && |b| == |d|
    ensures a == c && b == d
  {
    assert a == (a + b)[..|a|] && c == (c + d)[..|c|];
    assert b == (a + b)[|a|..] && d == (c + d)[|c|..];
  }

  lemma {:induction false} RecordsDetermined(a: seq<DataPoint>, b: seq<DataPoint>, size: nat)
    requires |a| == |b| && UniformValues(a, size) && UniformValues(b, size)
    requires PointsBytes(a) == PointsBytes(b)
    ensures TrimPoints(a) == TrimPoints(b)
  {
    if a != [] {
      var n := |a| - 1;
      SplitLast(PointsBytes(a[..n]), PointBytes(a[n]), PointsBytes(b[..n]), PointBytes(b[n]));
      SplitLast(Bytes32(a[n].feedId), a[n].value, Bytes32(b[n].feedId), b[n].value);
      Bytes32IdentifiesTrimmed(a[n].feedId, b[n].feedId);
      RecordsDetermined(a[..n], b[..n], size);
      assert TrimPoints(a) == TrimPoints(a[..n]) + [TrimPoint(a[n])];
      assert TrimPoints(b) == TrimPoints(b[..n]) + [TrimPoint(b[n])];
    }
  }

  lemma NumberFieldDetermined(a: int, b: int, size: nat)
    requires size >= 1
    requires NumberField(a, size).Success? && NumberField(a, size) == NumberField(b, size)
    ensures a == b
  {
    NumberFieldRoundTrip(a, size);
    NumberFieldRoundTrip(b, size);
  }

  lemma NumberFieldLength(a: int, size: nat)
    requires size >= 1 && NumberField(a, size).Success?
    ensures |NumberField(a, size).value| == size
  {
    NumberFieldRoundTrip(a, size);
  }

  lemma FieldsDetermined(p: Package, q: Package)
    requires WellFormed(p) && WellFormed(q)
    requires FieldsTail(p).Success? && FieldsTail(p) == FieldsTail(q)
    ensures p.timestamp == q.timestamp && ValueSize(p) == ValueSize(q) && |p.points| == |q.points|
  {
    var pt, ps, pc := NumberField(p.timestamp, 6).value, NumberField(ValueSize(p), 4).value,
                      NumberField(|p.points|, 3).value;
    var qt, qs, qc := NumberField(q.timestamp, 6).value, NumberField(ValueSize(q), 4).value,
                      NumberField(|q.points|, 3).value;
    NumberFieldLength(p.timestamp, 6);
    NumberFieldLength(q.timestamp, 6);
    NumberFieldLength(ValueSize(p), 4);
    NumberFieldLength(ValueSize(q), 4);
    NumberFieldLength(|p.points|, 3);
    NumberFieldLength(|q.points|, 3);
    SplitLast(pt + ps, pc, qt + qs, qc);
    SplitLast(pt, ps, qt, qs);
    NumberFieldDetermined(p.timestamp, q.timestamp, 6);
    NumberFieldDetermined(ValueSize(p), ValueSize(q), 4);
    NumberFieldDetermined(|p.points|, |q.points|, 3);
  }

  lemma SortedUniform(p: Package)
    requires WellFormed(p)
    ensures UniformValues(CanonicalPoints(p.points), ValueSize(p))
    ensures |CanonicalPoints(p.points)| == |p.points|
  {
    SortBySorts(p.points, FeedKey);
    UniformPermutation(p.points, CanonicalPoints(p.points));
  }

  lemma EqualBytesEqualPoints(p: Package, q: Package)
    requires WellFormed(p) && WellFormed(q)
    requires PackageBytes(p).Success? && PackageBytes(p) == PackageBytes(q)
    ensures p.timestamp == q.timestamp
    ensures multiset(TrimPoints(p.points)) == multiset(TrimPoints(q.points))
  {
    PackageWrites(p);
    PackageWrites(q);
    SplitLast(PointsBytes(CanonicalPoints(p.points)), FieldsTail(p).value,
              PointsBytes(CanonicalPoints(q.points)), FieldsTail(q).value);
    FieldsDetermined(p, q);
    SortedUniform(p);
    SortedUniform(q);
    RecordsDetermined(CanonicalPoints(p.points), CanonicalPoints(q.points), ValueSize(p));
    SortTrimmed(p.points);
    SortTrimmed(q.points);
    SortBySorts(TrimPoints(p.points), FeedKey);
    SortBySorts(TrimPoints(q.points), FeedKey);
  }

  lemma TrimmedDistinct(points: seq<DataPoint>)
    requires DistinctFeeds(points)
    ensures DistinctFeeds(TrimPoints(points))
  {
    forall i | 0 <= i < |points| ensures Bytes32(TrimPoint(points[i]).feedId) == Bytes32(points[i].feedId) {
      TrimKeepsBytes32(points[i].feedId);
    }
  }

  lemma EqualPointsEqualBytes(p: Package, q: Package)
    requires WellFormed(p) && WellFormed(q)
    requires DistinctFeeds(p.points) && DistinctFeeds(q.points)
    requires p.timestamp == q.timestamp
    requires multiset(TrimPoints(p.points)) == multiset(TrimPoints(q.points))
    ensures PackageBytes(p) == PackageBytes(q)
  {
    SamePointsBytes(p.points, q.points);
    SameShape(p, q);
    SortedUniform(p);
    SortedUniform(q);
    hide PointsBytes, NumberField, Bytes32, CanonicalPoints;
    assert EachDataPointByteSize(CanonicalPoints(p.points)) == EachDataPointByteSize(CanonicalPoints(q.points));
  }

  lemma SamePointsBytes(a: seq<DataPoint>, b: seq<DataPoint>)
    requires DistinctFeeds(a) && multiset(TrimPoints(a)) == multiset(TrimPoints(b))
    ensures PointsBytes(CanonicalPoints(a)) == PointsBytes(CanonicalPoints(b))
  {
    TrimmedDistinct(a);
    FeedKeysIdentify(TrimPoints(a));
    SortPermutation(TrimPoints(a), TrimPoints(b), FeedKey);
    hide PointsBytes, TrimPoints, DistinctFeeds;
    SortTrimmed(a);
    SortTrimmed(b);
    PointsBytesTrimmed(CanonicalPoints(a));
    PointsBytesTrimmed(CanonicalPoints(b));
  }

  lemma SameShape(p: Package, q: Package)
    requires WellFormed(p) && WellFormed(q) && multiset(TrimPoints(p.points)) == multiset(TrimPoints(q.points))
    ensures |p.points| == |q.points| && ValueSize(p) == ValueSize(q)
  {
    assert TrimPoints(p.points)[0] == TrimPoint(p.points[0]) && TrimPoints(q.points)[0] == TrimPoint(q.points[0]);
    UniformPermutation(TrimPoints(p.points), TrimPoints(q.points));
  }

  /**
   * Two packages are signed over the same bytes exactly when they have the same timestamp and the
   * same points, where ids count up to trailing NUL bytes.
   */
  lemma SignedBytesIdentifyPackage(p: Package, q: Package)
    requires WellFormed(p) && WellFormed(q)
    requires PackageBytes(p).Success? && PackageBytes(q).Success?
    ensures PackageBytes(p) == PackageBytes(q) <==>
              p.timestamp == q.timestamp && multiset(TrimPoints(p.points)) == multiset(TrimPoints(q.points))
  {
    PackageWrites(p);
    PackageWrites(q);
    if PackageBytes(p) == PackageBytes(q) {
      EqualBytesEqualPoints(p, q);
    } else if p.timestamp == q.timestamp && multiset(TrimPoints(p.points)) == multiset(TrimPoints(q.points)) {
      EqualPointsEqualBytes(p, q);
    }
  }
}
