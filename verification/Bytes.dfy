/** Byte strings: big-endian numbers and the JavaScript slicing rules. */
module Bytes {
  import opened Wrappers

  type byte = x: int | 0 <= x < 256

  const MAX_SAFE_INTEGER: nat := 0x1f_ffff_ffff_ffff

  datatype ByteError = NegativeNumber | Overflow | EmptyNumber | UnsafeNumber

  function Zeros(n: nat): (z: seq<byte>)
    ensures |z| == n && forall i :: 0 <= i < n ==> z[i] == 0
  {
    seq(n, _ => 0)
  }

  function Pow256(n: nat): (p: nat)
    ensures p >= 1
  {
    if n == 0 then 1 else 256 * Pow256(n - 1)
  }

  /** The big-endian value of a byte string. */
  function FromBytes(b: seq<byte>): nat {
    if b == [] then 0 else 256 * FromBytes(b[..|b| - 1]) + b[|b| - 1]
  }

  /** `BigNumber.toHexString` as bytes: no leading zero byte, but at least one byte. */
  function MinimalBytes(n: nat): (b: seq<byte>)
    ensures |b| >= 1
  {
    if n < 256 then [n] else MinimalBytes(n / 256) + [n % 256]
  }

  function ConvertIntegerNumberToBytes(value: int, byteSize: nat): Result<seq<byte>, ByteError> {
    if value < 0 then Failure(NegativeNumber)
    else
      var bytes := MinimalBytes(value);
      if byteSize < |bytes| then Failure(Overflow)
      else Success(Zeros(byteSize - |bytes|) + bytes)
  }

  function ConvertBytesToNumber(bytes: seq<byte>): Result<nat, ByteError> {
    if bytes == [] then Failure(EmptyNumber)
    else
      var n := FromBytes(bytes);
      if n > MAX_SAFE_INTEGER then Failure(UnsafeNumber) else Success(n)
  }

  /** Nothing and unsafe numbers are refused; 2^53 - 1 is the last safe one. */
  lemma ReadsSafeNumbers(bytes: seq<byte>)
    ensures match ConvertBytesToNumber(bytes)
            case Success(n) => |bytes| > 0 && n == FromBytes(bytes) < 9_007_199_254_740_992
            case Failure(EmptyNumber) => |bytes| == 0
            case Failure(UnsafeNumber) => |bytes| > 0 && FromBytes(bytes) >= 9_007_199_254_740_992
            case Failure(_) => false
  {
  }

  // ----- Properties of the conversions

  lemma {:induction false} FromBytesBound(b: seq<byte>)
    ensures FromBytes(b) < Pow256(|b|)
  {
    if b != [] {
      FromBytesBound(b[..|b| - 1]);
    }
  }

  lemma {:induction false} FromBytesInjective(a: seq<byte>, b: seq<byte>)
    requires |a| == |b| && FromBytes(a) == FromBytes(b)
    ensures a == b
  {
    if a != [] {
      FromBytesInjective(a[..|a| - 1], b[..|b| - 1]);
      assert a == a[..|a| - 1] + [a[|a| - 1]] && b == b[..|b| - 1] + [b[|b| - 1]];
    }
  }

  lemma {:induction false} LeadingZeros(n: nat, b: seq<byte>)
    ensures FromBytes(Zeros(n) + b) == FromBytes(b)
  {
    if b == [] {
      assert Zeros(n) + b == Zeros(n);
      if n > 0 {
        assert Zeros(n)[..n - 1] == Zeros(n - 1) + [];
        LeadingZeros(n - 1, b);
      }
    } else {
      assert (Zeros(n) + b)[..n + |b| - 1] == Zeros(n) + b[..|b| - 1];
      LeadingZeros(n, b[..|b| - 1]);
    }
  }

  lemma {:induction false} MinimalBytesValue(n: nat)
    ensures FromBytes(MinimalBytes(n)) == n
  {
    if n < 256 {
      assert FromBytes([n]) == 256 * FromBytes([n][..0]) + n;
    } else {
      MinimalBytesValue(n / 256);
      assert MinimalBytes(n)[..|MinimalBytes(n)| - 1] == MinimalBytes(n / 256);
    }
  }

  lemma {:induction false} MinimalBytesSize(n: nat, size: nat)
    requires size >= 1
    ensures |MinimalBytes(n)| <= size <==> n < Pow256(size)
  {
    if n < 256 {
      assert Pow256(size) >= 256 * Pow256(size - 1) >= 256;
    } else if size == 1 {
      assert Pow256(1) == 256 * Pow256(0) == 256;
      assert |MinimalBytes(n)| == |MinimalBytes(n / 256)| + 1;
    } else {
      MinimalBytesSize(n / 256, size - 1);
    }
  }

  /** A number is written exactly when it fits the field, and the field then reads back as that number. */
  lemma NumberFieldRoundTrip(value: int, size: nat)
    requires size >= 1
    ensures ConvertIntegerNumberToBytes(value, size).Success? <==> 0 <= value < Pow256(size)
    ensures ConvertIntegerNumberToBytes(value, size).Success? ==>
              var bytes := ConvertIntegerNumberToBytes(value, size).value;
              |bytes| == size && FromBytes(bytes) == value
  {
    if value >= 0 {
      MinimalBytesSize(value, size);
      MinimalBytesValue(value);
      var m := MinimalBytes(value);
      if |m| <= size {
        LeadingZeros(size - |m|, m);
      }
    }
  }

  lemma {:induction false} Pow256Monotone(m: nat, n: nat)
    requires m <= n
    ensures Pow256(m) <= Pow256(n)
  {
    if m < n {
      Pow256Monotone(m, n - 1);
    }
  }

  /** Fields of at most six bytes always read as a safe integer. */
  lemma ShortFieldsAreSafe(bytes: seq<byte>)
    requires 1 <= |bytes| <= 6
    ensures ConvertBytesToNumber(bytes) == Success(FromBytes(bytes))
  {
    FromBytesBound(bytes);
    Pow256Monotone(|bytes|, 6);
    assert Pow256(6) == 0x1_0000_0000_0000 by {
      assert Pow256(1) == 256 && Pow256(2) == 0x1_0000 && Pow256(3) == 0x100_0000;
      assert Pow256(4) == 0x1_0000_0000 && Pow256(5) == 0x100_0000_0000;
    }
  }

  // ----- Lexicographic order

  /** The first byte at which the strings differ is smaller in `a`. */
  ghost predicate LexLess(a: seq<byte>, b: seq<byte>)
    requires |a| == |b|
  {
    exists k :: 0 <= k < |a| && a[..k] == b[..k] && a[k] < b[k]
  }

  lemma LexLessLast(a: seq<byte>, b: seq<byte>)
    requires |a| == |b| > 0
    ensures var n := |a| - 1;
            LexLess(a, b) <==> LexLess(a[..n], b[..n]) || (a[..n] == b[..n] && a[n] < b[n])
  {
    var n := |a| - 1;
    assert forall k :: 0 <= k < n ==> a[..n][..k] == a[..k] && b[..n][..k] == b[..k];
  }

  lemma LastDigit(high: nat, low: byte, otherHigh: nat, otherLow: byte)
    ensures 256 * high + low < 256 * otherHigh + otherLow <==>
              high < otherHigh || (high == otherHigh && low < otherLow)
  {
  }

  lemma {:induction false} LexLessIsNumeric(a: seq<byte>, b: seq<byte>)
    requires |a| == |b|
    ensures LexLess(a, b) <==> FromBytes(a) < FromBytes(b)
  {
    if a != [] {
      var n := |a| - 1;
      LexLessLast(a, b);
      hide LexLess;
      LexLessIsNumeric(a[..n], b[..n]);
      LastDigit(FromBytes(a[..n]), a[n], FromBytes(b[..n]), b[n]);
      if FromBytes(a[..n]) == FromBytes(b[..n]) {
        FromBytesInjective(a[..n], b[..n]);
      }
    }
  }

  // ----- JavaScript slices

  function ClampIndex(i: int, length: nat): nat {
    if i < 0 then (if length + i < 0 then 0 else length + i)
    else if i > length then length else i
  }

  /** `Uint8Array.prototype.slice(start, end)`: a negative index counts from the end. */
  function JsSlice(data: seq<byte>, start: int, end: int): seq<byte> {
    var from, to := ClampIndex(start, |data|), ClampIndex(end, |data|);
    if from < to then data[from..to] else []
  }
}
