/** Printing an integer as a decimal with a fixed number of decimals. */
module FixedPoint {
  import opened Wrappers
  import opened Decimals

  datatype RangeError = NegativeExponent(decimals: int)

  function PadStart(s: string, width: nat): string {
    if |s| >= width then s else ZeroDigits(width - |s|) + s
  }

  function StripZeros(s: string): string {
    if s == [] || s[|s| - 1] != '0' then s else StripZeros(s[..|s| - 1])
  }

  function Magnitude(v: int): nat {
    if v < 0 then -v else v
  }

  function Fraction(rest: nat, decimals: nat): string {
    StripZeros(PadStart(Digits(rest), decimals))
  }

  function WholePart(a: nat, b: nat): nat
    requires b > 0
  {
    a / b
  }

  function RestPart(a: nat, b: nat): (r: nat)
    requires b > 0
    ensures r < b
  {
    a % b
  }

  function Print(v: int, decimals: nat): string {
    var divisor := Pow10(decimals);
    var whole := (if v < 0 then "-" else "") + Digits(WholePart(Magnitude(v), divisor));
    var fraction := Fraction(RestPart(Magnitude(v), divisor), decimals);
    if fraction != "" then whole + "." + fraction else whole
  }

  // ----- Reading a decimal

  function DotIndex(s: string): (i: nat)
    ensures i <= |s| && (i < |s| ==> s[i] == '.') && forall j :: 0 <= j < i ==> s[j] != '.'
  {
    if s == [] || s[0] == '.' then 0 else 1 + DotIndex(s[1..])
  }

  /** The number with the given whole part and k decimals. */
  function Scaled(whole: nat, fraction: nat, k: nat): real {
    whole as real + fraction as real / Pow10(k) as real
  }

  function ReadUnsigned(s: string): Option<real> {
    var i := DotIndex(s);
    if i == 0 || !AllDigits(s[..i]) then None
    else if i == |s| then Some(Value(s[..i]) as real)
    else
      var fraction := s[i + 1..];
      if fraction == [] || !AllDigits(fraction) then None
      else Some(Scaled(Value(s[..i]), Value(fraction), |fraction|))
  }

  /** An optional sign, digits, and optionally a dot followed by digits; anything else reads as nothing. */
  function Read(s: string): Option<real> {
    if s != [] && s[0] == '-' then
      var magnitude := ReadUnsigned(s[1..]);
      if magnitude.Some? then Some(-magnitude.value) else None
    else ReadUnsigned(s)
  }

  // ----- The fraction

  lemma {:induction false} StripValue(s: string)
    requires AllDigits(s)
    ensures var t := StripZeros(s);
            && |t| <= |s| && AllDigits(t)
            && Value(s) == Value(t) * Pow10(|s| - |t|)
            && (t != [] ==> t[|t| - 1] != '0')
  {
    if s != [] && s[|s| - 1] == '0' {
      var init := s[..|s| - 1];
      StripValue(init);
      hide Pow10;
      assert Value(s) == 10 * Value(init);
      TenTimes(Value(StripZeros(init)), |init| - |StripZeros(init)|);
    } else {
      assert Pow10(0) == 1;
    }
  }

  lemma PadValue(s: string, width: nat)
    requires AllDigits(s)
    ensures AllDigits(PadStart(s, width)) && Value(PadStart(s, width)) == Value(s)
    ensures |PadStart(s, width)| == if |s| >= width then |s| else width
  {
    if |s| < width {
      ValueConcat(ZeroDigits(width - |s|), s);
      ValueOfZeros(width - |s|);
    }
  }

  /** The fraction denotes the rest, and it is empty or ends in a digit other than zero. */
  lemma FractionDenotes(rest: nat, decimals: nat)
    requires rest < Pow10(decimals)
    ensures var f := Fraction(rest, decimals);
            && AllDigits(f) && |f| <= decimals
            && Value(f) * Pow10(decimals - |f|) == rest
            && (f != [] ==> f[|f| - 1] != '0')
            && (f == [] <==> rest == 0)
  {
    var padded := PadStart(Digits(rest), decimals);
    var f := Fraction(rest, decimals);
    PadValue(Digits(rest), decimals);
    ValueOfDigits(rest);
    StripValue(padded);
    if decimals == 0 {
      assert padded == "0";
      assert StripZeros("0") == StripZeros("0"[..0]) == [];
    } else {
      DigitsFit(rest, decimals);
      if f != [] {
        assert Value(f) >= 1;
        PositiveProduct(Value(f), Pow10(decimals - |f|));
      }
    }
  }

  lemma PositiveProduct(x: nat, y: nat)
    requires x > 0 && y > 0
    ensures x * y > 0
  {
  }

  // ----- Exactness

  lemma {:induction false} FindDot(whole: string, rest: string)
    requires AllDigits(whole) && (rest == "" || rest[0] == '.')
    ensures DotIndex(whole + rest) == |whole|
  {
    if whole == [] {
      assert whole + rest == rest;
    } else {
      assert IsDigit(whole[0]);
      assert (whole + rest)[1..] == whole[1..] + rest;
      FindDot(whole[1..], rest);
    }
  }

  /** The text after the whole part. */
  function Suffix(fraction: string): string {
    if fraction == "" then "" else "." + fraction
  }

  lemma SplitAtDot(whole: string, fraction: string)
    requires AllDigits(whole) && fraction != []
    ensures var s := whole + Suffix(fraction);
            DotIndex(s) == |whole| && |s| == |whole| + 1 + |fraction| && s[..|whole|] == whole &&
            s[|whole| + 1..] == fraction
  {
    FindDot(whole, Suffix(fraction));
  }

  lemma ReadPrinted(whole: string, fraction: string)
    requires AllDigits(whole) && whole != [] && AllDigits(fraction)
    ensures ReadUnsigned(whole + Suffix(fraction)) ==
            Some(Scaled(Value(whole), Value(fraction), |fraction|))
  {
    hide DotIndex, Value, AllDigits, Scaled;
    var s := whole + Suffix(fraction);
    if fraction == [] {
      FindDot(whole, "");
      assert s == whole == s[..|whole|];
      EmptyFraction(Value(whole));
    } else {
      SplitAtDot(whole, fraction);
      hide Suffix;
    }
  }

  lemma EmptyFraction(whole: nat)
    ensures Scaled(whole, Value(""), 0) == whole as real
  {
  }

  lemma ScaledFraction(whole: nat, digits: nat, scale: nat, shift: nat, divisor: nat, v: nat)
    requires scale > 0 && shift > 0 && divisor == scale * shift && v == whole * divisor + digits * shift
    ensures whole as real + digits as real / scale as real == v as real / divisor as real
  {
    var x := digits as real / scale as real;
    var p := divisor as real;
    RealProduct(scale, shift);
    RealProduct(whole, divisor);
    RealProduct(digits, shift);
    assert x * scale as real == digits as real;
    assert (whole as real + x) * p == whole as real * p + x * scale as real * shift as real;
    QuotientOfProduct(whole as real + x, p);
  }

  lemma RealProduct(m: nat, n: nat)
    ensures (m * n) as real == m as real * n as real
  {
  }

  lemma QuotientOfProduct(y: real, z: real)
    requires z > 0.0
    ensures y * z / z == y
  {
  }

  lemma Divided(a: nat, b: nat)
    requires b > 0
    ensures a == WholePart(a, b) * b + RestPart(a, b)
  {
  }

  /** The printed magnitude, without the sign. */
  function Unsigned(abs: nat, decimals: nat): string {
    Digits(WholePart(abs, Pow10(decimals))) + Suffix(Fraction(RestPart(abs, Pow10(decimals)), decimals))
  }

  lemma SignAndMagnitude(v: int, decimals: nat)
    ensures Print(v, decimals) == (if v < 0 then "-" else "") + Unsigned(Magnitude(v), decimals)
  {
    hide Digits, Fraction, Pow10, WholePart, RestPart;
    var sign := if v < 0 then "-" else "";
    var whole := Digits(WholePart(Magnitude(v), Pow10(decimals)));
    var fraction := Fraction(RestPart(Magnitude(v), Pow10(decimals)), decimals);
    assert sign + (whole + ("." + fraction)) == sign + whole + "." + fraction;
    assert whole + "" == whole;
  }

  /** The magnitude is digits without a needless leading zero, then nothing or a fraction not ending in zero. */
  lemma UnsignedParts(abs: nat, decimals: nat) returns (whole: string, fraction: string)
    ensures AllDigits(whole) && whole != [] && AllDigits(fraction)
    ensures Unsigned(abs, decimals) == whole + Suffix(fraction)
    ensures |whole| > 1 ==> whole[0] != '0'
    ensures fraction != [] ==> fraction[|fraction| - 1] != '0'
    ensures Scaled(Value(whole), Value(fraction), |fraction|) == abs as real / Pow10(decimals) as real
  {
    hide WholePart, RestPart, Fraction, Digits, Value, Pow10, AllDigits;
    var divisor := Pow10(decimals);
    var q, rest := WholePart(abs, divisor), RestPart(abs, divisor);
    whole, fraction := Digits(q), Fraction(rest, decimals);
    ValueOfDigits(q);
    FractionDenotes(rest, decimals);
    Pow10Sum(|fraction|, decimals - |fraction|);
    Divided(abs, divisor);
    ScaledFraction(q, Value(fraction), Pow10(|fraction|), Pow10(decimals - |fraction|), divisor, abs);
  }

  lemma Negated(abs: nat, divisor: nat, v: int)
    requires divisor > 0 && v + abs == 0
    ensures -(abs as real / divisor as real) == v as real / divisor as real
  {
  }

  /** What is printed denotes exactly v / 10^decimals. */
  lemma PrintsExactly(v: int, decimals: nat)
    ensures Read(Print(v, decimals)) == Some(v as real / Pow10(decimals) as real)
  {
    hide Print, Unsigned, ReadUnsigned, Pow10, Value;
    SignAndMagnitude(v, decimals);
    var whole, fraction := UnsignedParts(Magnitude(v), decimals);
    ReadPrinted(whole, fraction);
    var unsigned := Unsigned(Magnitude(v), decimals);
    assert IsDigit(whole[0]) && unsigned[0] == whole[0];
    if v < 0 {
      assert ("-" + unsigned)[1..] == unsigned;
      Negated(Magnitude(v), Pow10(decimals), v);
    } else {
      assert "" + unsigned == unsigned;
    }
  }

  // ----- Canonical form

  ghost predicate CanonicalMagnitude(s: string) {
    var i := DotIndex(s);
    && i > 0 && AllDigits(s[..i]) && (i > 1 ==> s[0] != '0')
    && (i < |s| ==> i + 1 < |s| && AllDigits(s[i + 1..]) && s[|s| - 1] != '0')
  }

  /** No leading zero, no bare dot, no trailing zero after the dot. */
  ghost predicate Canonical(s: string) {
    CanonicalMagnitude(if s != [] && s[0] == '-' then s[1..] else s)
  }

  lemma CanonicalParts(whole: string, fraction: string)
    requires AllDigits(whole) && whole != [] && AllDigits(fraction) && (|whole| > 1 ==> whole[0] != '0')
    requires fraction != [] ==> fraction[|fraction| - 1] != '0'
    ensures CanonicalMagnitude(whole + Suffix(fraction))
  {
    hide DotIndex, AllDigits;
    var s := whole + Suffix(fraction);
    FindDot(whole, Suffix(fraction));
    assert s[..|whole|] == whole;
    if fraction != [] {
      assert s[|whole| + 1..] == fraction;
    }
  }

  /** The printed form is canonical, and has a sign exactly when v is negative, even if the whole part is zero. */
  lemma PrintsCanonically(v: int, decimals: nat)
    ensures Canonical(Print(v, decimals))
    ensures Print(v, decimals) != [] && (Print(v, decimals)[0] == '-' <==> v < 0)
  {
    hide Print, Unsigned, CanonicalMagnitude, Value, Pow10;
    SignAndMagnitude(v, decimals);
    var whole, fraction := UnsignedParts(Magnitude(v), decimals);
    CanonicalParts(whole, fraction);
    var unsigned := Unsigned(Magnitude(v), decimals);
    assert IsDigit(whole[0]) && unsigned[0] == whole[0];
    assert ("-" + unsigned)[1..] == unsigned;
    assert "" + unsigned == unsigned;
  }

  lemma StripAppended(s: string)
    ensures StripZeros(s + "0") == StripZeros(s)
  {
    assert (s + "0")[..|s|] == s;
  }

  lemma LargerQuotient(d: nat, q: nat, q': nat)
    requires q < q'
    ensures q' * d >= q * d + d
  {
    assert q' * d == q * d + (q' - q) * d;
    assert (q' - q) * d == d + (q' - q - 1) * d;
  }

  lemma UniqueQuotient(d: nat, q: nat, r: nat, q': nat, r': nat)
    requires q * d + r == q' * d + r' && r < d && r' < d
    ensures q == q' && r == r'
  {
    if q < q' {
      LargerQuotient(d, q, q');
    } else if q' < q {
      LargerQuotient(d, q', q);
    }
  }

  lemma DivideTenfold(abs: nat, divisor: nat)
    requires divisor > 0
    ensures WholePart(10 * abs, 10 * divisor) == WholePart(abs, divisor)
    ensures RestPart(10 * abs, 10 * divisor) == 10 * RestPart(abs, divisor)
  {
    hide WholePart, RestPart;
    var q, r := WholePart(abs, divisor), RestPart(abs, divisor);
    Divided(abs, divisor);
    Divided(10 * abs, 10 * divisor);
    assert 10 * (q * divisor) == q * (10 * divisor);
    UniqueQuotient(10 * divisor, q, 10 * r, WholePart(10 * abs, 10 * divisor), RestPart(10 * abs, 10 * divisor));
  }

  lemma TenfoldFraction(rest: nat, decimals: nat)
    requires rest < Pow10(decimals)
    ensures Fraction(10 * rest, decimals + 1) == Fraction(rest, decimals)
  {
    if rest == 0 {
      FractionDenotes(0, decimals);
      FractionDenotes(0, decimals + 1);
    } else {
      hide Pow10, StripZeros;
      assert (10 * rest) / 10 == rest && (10 * rest) % 10 == 0;
      assert Digits(10 * rest) == Digits(rest) + "0";
      hide Digits;
      var n := |Digits(rest)|;
      if n < decimals {
        assert ZeroDigits(decimals - n) + (Digits(rest) + "0") == ZeroDigits(decimals - n) + Digits(rest) + "0";
      }
      StripAppended(PadStart(Digits(rest), decimals));
    }
  }

  lemma PrintTenfold(v: int, decimals: nat)
    ensures Print(10 * v, decimals + 1) == Print(v, decimals)
  {
    hide WholePart, RestPart, Fraction, Digits;
    DivideTenfold(Magnitude(v), Pow10(decimals));
    TenfoldFraction(RestPart(Magnitude(v), Pow10(decimals)), decimals);
    assert Pow10(decimals + 1) == 10 * Pow10(decimals) && Magnitude(10 * v) == 10 * Magnitude(v);
  }

  lemma {:induction false} PrintScaled(v: int, decimals: nat, k: nat)
    ensures Print(v * Pow10(k), decimals + k) == Print(v, decimals)
  {
    hide Print;
    if k == 0 {
      assert v * Pow10(0) == v;
    } else {
      PrintScaled(v, decimals, k - 1);
      hide Pow10;
      PrintTenfold(v * Pow10(k - 1), decimals + k - 1);
      TenTimes(v, k - 1);
    }
  }

  /** Two printed values are the same text exactly when they are the same number, whatever the decimals. */
  lemma SameTextSameNumber(v: int, d: nat, w: int, e: nat)
    ensures Print(v, d) == Print(w, e) <==> v as real / Pow10(d) as real == w as real / Pow10(e) as real
  {
    hide Print, Read, Pow10;
    PrintsExactly(v, d);
    PrintsExactly(w, e);
    if v as real / Pow10(d) as real == w as real / Pow10(e) as real {
      CrossMultiply(v, Pow10(d), w, Pow10(e));
      PrintScaled(v, d, e);
      PrintScaled(w, e, d);
    }
  }

  lemma CrossMultiply(v: int, p: nat, w: int, q: nat)
    requires p > 0 && q > 0 && v as real / p as real == w as real / q as real
    ensures v * q == w * p
  {
    var x := v as real / p as real;
    assert v as real == x * p as real && w as real == x * q as real;
    assert (v * q) as real == x * p as real * q as real == (w * p) as real;
  }

  lemma SameNumerator(v: int, w: int, p: nat)
    requires p > 0 && v as real / p as real == w as real / p as real
    ensures v == w
  {
    var x := v as real / p as real;
    assert v as real == x * p as real && w as real == x * p as real;
  }

  /** With the same decimals, distinct values print differently. */
  lemma DistinctPrints(v: int, w: int, decimals: nat)
    requires Print(v, decimals) == Print(w, decimals)
    ensures v == w
  {
    hide Print, Pow10;
    SameTextSameNumber(v, decimals, w, decimals);
    SameNumerator(v, w, Pow10(decimals));
  }

  /** The conversion fails exactly on a negative exponent; otherwise the text reads back to the value. */
  function ConvertValueDec(v: int, decimals: int): (text: Result<string, RangeError>)
    ensures text.Failure? <==> decimals < 0
    ensures text.Success? ==>
              Read(text.value) == Some(v as real / Pow10(decimals) as real) && Canonical(text.value)
  {
    if decimals < 0 then Failure(NegativeExponent(decimals))
    else
      PrintsExactly(v, decimals);
      PrintsCanonically(v, decimals);
      Success(Print(v, decimals))
  }
}
