/** Fixed-point decimal formatting of unbounded integers
    (`bigIntToDecimalString` in backend/src/utils/numbers.ts), together with the
    JavaScript BigInt operations it relies on: truncating division, the
    remainder that takes the dividend's sign, `toString`, `padStart` and the
    trailing-zero trim. `DecimalValue` reads such a numeral back exactly; the
    round-trip lemma connects the two. */
module Numbers {
  import opened Common

  function Pow10(n: nat): (r: nat)
    ensures r >= 1
  {
    if n == 0 then 1 else 10 * Pow10(n - 1)
  }

  lemma {:induction false} Pow10Add(a: nat, b: nat)
    ensures Pow10(a + b) == Pow10(a) * Pow10(b)
  {
    if a > 0 {
      Pow10Add(a - 1, b);
      assert Pow10(a + b) == 10 * Pow10(a - 1 + b);
    }
  }

  // ---------------------------------------------------------------------------
  // Digits and numerals

  predicate IsDigit(c: char) {
    '0' <= c <= '9'
  }

  predicate AllDigits(s: string) {
    forall i | 0 <= i < |s| :: IsDigit(s[i])
  }

  function DigitValue(c: char): nat
    requires IsDigit(c)
  {
    c as int - '0' as int
  }

  function DigitChar(d: nat): (c: char)
    requires d < 10
    ensures IsDigit(c) && DigitValue(c) == d
  {
    (('0' as int) + d) as char
  }

  /** `n.toString()` for a non-negative integer: its shortest base-10 numeral. */
  function NatToString(n: nat): (s: string)
    ensures 1 <= |s| && AllDigits(s)
    ensures n > 0 ==> s[0] != '0'
    decreases n
  {
    if n < 10 then [DigitChar(n)] else NatToString(n / 10) + [DigitChar(n % 10)]
  }

  /** The number a string of decimal digits denotes (most significant first). */
  function DigitsValue(s: string): nat
    requires AllDigits(s)
  {
    if s == [] then 0 else DigitsValue(s[..|s| - 1]) * 10 + DigitValue(s[|s| - 1])
  }

  lemma {:induction false} NatToStringValue(n: nat)
    ensures DigitsValue(NatToString(n)) == n
  {
    if n >= 10 {
      NatToStringValue(n / 10);
      var s := NatToString(n);
      assert s[..|s| - 1] == NatToString(n / 10);
    }
  }

  lemma {:induction false} NatToStringLength(n: nat, d: nat)
    requires 1 <= d && n < Pow10(d)
    ensures |NatToString(n)| <= d
  {
    if n >= 10 {
      assert Pow10(d) == 10 * Pow10(d - 1);
      NatToStringLength(n / 10, d - 1);
    }
  }

  lemma {:induction false} Pow10StringLength(d: nat)
    ensures |NatToString(Pow10(d))| == d + 1
  {
    if d > 0 {
      Pow10StringLength(d - 1);
      assert Pow10(d) / 10 == Pow10(d - 1) && Pow10(d) >= 10;
    }
  }

  function Repeat(c: char, k: nat): (r: string)
    ensures |r| == k && forall i | 0 <= i < k :: r[i] == c
  {
    seq(k, _ => c)
  }

  lemma {:induction false} ZerosValue(k: nat)
    ensures AllDigits(Repeat('0', k)) && DigitsValue(Repeat('0', k)) == 0
  {
    if k > 0 {
      ZerosValue(k - 1);
      assert Repeat('0', k)[..k - 1] == Repeat('0', k - 1);
    }
  }

  /** Leading zeros do not change the value of a numeral. */
  lemma {:induction false} LeadingZerosValue(k: nat, s: string)
    requires AllDigits(s)
    ensures AllDigits(Repeat('0', k) + s)
    ensures DigitsValue(Repeat('0', k) + s) == DigitsValue(s)
    decreases |s|
  {
    var z := Repeat('0', k);
    if s == [] {
      assert z + s == z;
      ZerosValue(k);
    } else {
      LeadingZerosValue(k, s[..|s| - 1]);
      assert (z + s)[..|z + s| - 1] == z + s[..|s| - 1];
    }
  }

  lemma {:induction false} MulTen(v: int, p: int)
    ensures (v * p) * 10 == v * (p * 10)
  {
  }

  /** Each trailing zero multiplies the value of a numeral by ten. */
  lemma {:induction false} TrailingZerosValue(t: string, z: nat)
    requires AllDigits(t)
    ensures AllDigits(t + Repeat('0', z))
    ensures DigitsValue(t + Repeat('0', z)) == DigitsValue(t) * Pow10(z)
  {
    if z > 0 {
      TrailingZerosValue(t, z - 1);
      var u := t + Repeat('0', z);
      assert u[..|u| - 1] == t + Repeat('0', z - 1);
      var v, p := DigitsValue(t), Pow10(z - 1);
      assert DigitsValue(u) == (v * p) * 10;
      assert Pow10(z) == p * 10;
      MulTen(v, p);
    } else {
      assert t + Repeat('0', 0) == t;
    }
  }

  // ---------------------------------------------------------------------------
  // JavaScript BigInt operations

  function Abs(x: int): nat {
    if x < 0 then -x else x
  }

  /** BigInt `a / b`: the quotient rounded toward zero. */
  function Quot(a: int, b: int): int
    requires b != 0
  {
    if (a < 0) == (b < 0) then Abs(a) / Abs(b) else -(Abs(a) / Abs(b))
  }

  /** BigInt `a % b`: the remainder, which carries the sign of `a`. */
  function Rem(a: int, b: int): int
    requires b != 0
  {
    a - b * Quot(a, b)
  }

  /** On non-negative operands, BigInt division agrees with Euclidean division. */
  lemma {:induction false} QuotRemNonNegative(a: nat, b: nat)
    requires b > 0
    ensures Quot(a, b) == a / b && Rem(a, b) == a % b
  {
  }

  /** The magnitude and sign of a BigInt quotient. */
  lemma {:induction false} QuotAbs(a: int, b: int)
    requires b != 0
    ensures Abs(Quot(a, b)) == Abs(a) / Abs(b)
    ensures Quot(a, b) > 0 ==> (a > 0) == (b > 0)
    ensures Quot(a, b) < 0 ==> (a > 0) != (b > 0)
  {
    var n := Abs(a) / Abs(b);
    if (a < 0) == (b < 0) {
      assert Quot(a, b) == n;
    } else {
      assert Quot(a, b) == -n;
    }
    if a == 0 {
      assert n == 0;
    }
  }

  /** A BigInt remainder is the remainder of the magnitudes, with the sign
      of `a`. */
  lemma {:induction false} RemAbs(a: int, b: int)
    requires b != 0
    ensures Rem(a, b) == if a < 0 then -(Abs(a) % Abs(b)) else Abs(a) % Abs(b)
  {
    var x: int, y: int := Abs(a), Abs(b);
    var q, r := x / y, x % y;
    assert x == q * y + r;
    if (a < 0) == (b < 0) {
      assert Quot(a, b) == q;
      if b < 0 {
        assert b * q == -(y * q);
      }
    } else {
      assert Quot(a, b) == -q;
      if b < 0 {
        assert b * -q == y * q;
      } else {
        assert b * -q == -(y * q);
      }
    }
  }

  /** BigInt division on operands of any sign truncates toward zero: the
      quotient's magnitude is the floor of |a| / |b| and its sign is the
      product of the signs; the remainder is smaller than |b| in magnitude
      and never has the opposite sign of `a`. */
  lemma {:induction false} QuotRemTruncate(a: int, b: int)
    requires b != 0
    ensures Abs(Quot(a, b)) * Abs(b) <= Abs(a) < (Abs(Quot(a, b)) + 1) * Abs(b)
    ensures Quot(a, b) > 0 ==> (a > 0) == (b > 0)
    ensures Quot(a, b) < 0 ==> (a > 0) != (b > 0)
    ensures Abs(Rem(a, b)) < Abs(b)
    ensures Rem(a, b) > 0 ==> a > 0
    ensures Rem(a, b) < 0 ==> a < 0
  {
    QuotAbs(a, b);
    RemAbs(a, b);
    var x: int, y: int := Abs(a), Abs(b);
    var q := x / y;
    assert x == q * y + x % y && 0 <= x % y < y;
    assert (q + 1) * y == q * y + y;
  }

  /** BigInt `i.toString()`. */
  function IntToString(i: int): string {
    if i < 0 then "-" + NatToString(-i) else NatToString(i)
  }

  /** `toString` of any integer is a '-' exactly for a negative one, followed
      by the digits of its magnitude. */
  lemma {:induction false} IntToStringValue(i: int)
    ensures var s := IntToString(i);
            var digits := if i < 0 then s[1..] else s;
            && s != []
            && (s[0] == '-' <==> i < 0)
            && AllDigits(digits) && DigitsValue(digits) == Abs(i)
  {
    NatToStringValue(Abs(i));
    if i < 0 {
      assert IntToString(i)[1..] == NatToString(-i);
    }
  }

  /** `s.padStart(n, c)`. */
  function PadStart(s: string, n: int, c: char): (r: string)
    ensures |r| == if |s| >= n then |s| else n
  {
    if |s| >= n then s else Repeat(c, n - |s|) + s
  }

  /** `s.replace(/0+$/, '')`: the longest prefix of `s` not ending in '0'
      whose removed suffix is all '0'. */
  function TrimTrailingZeros(s: string): (t: string)
    ensures |t| <= |s| && t == s[..|t|]
    ensures t == [] || t[|t| - 1] != '0'
    ensures forall i | |t| <= i < |s| :: s[i] == '0'
  {
    if s != [] && s[|s| - 1] == '0' then TrimTrailingZeros(s[..|s| - 1]) else s
  }

  // ---------------------------------------------------------------------------
  // bigIntToDecimalString

  /** `bigIntToDecimalString(value, scalar)`: `value / scalar` printed with the
      remainder as a fraction of `|scalar.toString()| - 1` digits, trailing zeros
      trimmed, and no point when nothing is left. Division by a zero scalar
      throws. */
  function BigIntToDecimalString(value: int, scalar: int): (r: Result<string>)
    ensures r.Err? <==> scalar == 0
    ensures r.Err? ==> r.error == DivisionByZero
  {
    if scalar == 0 then Err(DivisionByZero)
    else
      var integer := Quot(value, scalar);
      var fractional := Rem(value, scalar);
      var scalarDigits := |IntToString(scalar)| - 1;
      var fractionalStr := PadStart(IntToString(fractional), scalarDigits, '0');
      var trimmedFractional := TrimTrailingZeros(fractionalStr);
      if trimmedFractional == "" then Ok(IntToString(integer))
      else Ok(IntToString(integer) + "." + trimmedFractional)
  }

  /** The fraction digits printed for remainder `rem` under scalar 10^d. */
  function FractionDigits(rem: int, d: nat): string {
    TrimTrailingZeros(PadStart(IntToString(rem), d, '0'))
  }

  lemma {:induction false} AllZerosTrimmed(s: string)
    requires forall i | 0 <= i < |s| :: s[i] == '0'
    ensures TrimTrailingZeros(s) == []
  {
  }

  /** A string is its trimmed prefix followed by the zeros removed. */
  lemma {:induction false} TrimSplit(s: string)
    ensures s == TrimTrailingZeros(s) + Repeat('0', |s| - |TrimTrailingZeros(s)|)
  {
    var t := TrimTrailingZeros(s);
    var z := Repeat('0', |s| - |t|);
    assert forall i | 0 <= i < |s| :: s[i] == (t + z)[i];
  }

  /** Padding the numeral of `rem < 10^d` to `d` digits keeps its value. */
  lemma {:induction false} PaddedValue(rem: nat, d: nat)
    requires 1 <= d && rem < Pow10(d)
    ensures var p := PadStart(NatToString(rem), d, '0');
      && |p| == d && AllDigits(p) && DigitsValue(p) == rem
      && (rem == 0 ==> forall i | 0 <= i < |p| :: p[i] == '0')
  {
    var n := NatToString(rem);
    NatToStringLength(rem, d);
    NatToStringValue(rem);
    LeadingZerosValue(d - |n|, n);
    assert PadStart(n, d, '0') == Repeat('0', d - |n|) + n;
  }

  /** Trimming trailing zeros divides the value by a power of ten. */
  lemma {:induction false} TrimmedValue(p: string)
    requires AllDigits(p)
    ensures var f := TrimTrailingZeros(p);
      AllDigits(f) && DigitsValue(f) * Pow10(|p| - |f|) == DigitsValue(p)
  {
    var f := TrimTrailingZeros(p);
    TrimSplit(p);
    TrailingZerosValue(f, |p| - |f|);
  }

  /** The fraction printed for remainder `rem < 10^d` has at most `d` digits,
      is empty exactly when `rem` is zero, never ends in '0', and padded back
      to `d` digits denotes `rem`. */
  lemma {:induction false} FractionDigitsFacts(rem: int, d: nat)
    requires 0 <= rem < Pow10(d)
    ensures var f := FractionDigits(rem, d);
      && AllDigits(f) && |f| <= d
      && (f == [] <==> rem == 0)
      && (f != [] ==> f[|f| - 1] != '0')
      && DigitsValue(f) * Pow10(d - |f|) == rem
  {
    var p := PadStart(NatToString(rem), d, '0');
    var f := TrimTrailingZeros(p);
    assert FractionDigits(rem, d) == f;
    if d == 0 {
      assert rem == 0 && p == "0";
      AllZerosTrimmed(p);
    } else {
      PaddedValue(rem, d);
      TrimmedValue(p);
      if rem == 0 {
        AllZerosTrimmed(p);
      }
      if f == [] {
        assert DigitsValue(f) == 0;
      }
    }
  }

  lemma {:induction false} MulNegative(q: int, s: int)
    requires s >= 1
    ensures q < 0 ==> q * s <= -s
    decreases s
  {
    if q < 0 && s > 1 {
      MulNegative(q, s - 1);
      assert q * s == q * (s - 1) + q;
    }
  }

  /** Quotient and remainder of a non-negative value by a positive scalar. */
  lemma {:induction false} QuotRemFacts(value: nat, scalar: nat)
    requires scalar >= 1
    ensures Quot(value, scalar) == value / scalar >= 0
    ensures Rem(value, scalar) == value % scalar
    ensures 0 <= Rem(value, scalar) < scalar
    ensures value == Quot(value, scalar) * scalar + Rem(value, scalar)
  {
    var q, m := value / scalar, value % scalar;
    assert value == q * scalar + m && 0 <= m < scalar;
    MulNegative(q, scalar);
    assert Quot(value, scalar) == q by { assert Abs(value) == value && Abs(scalar) == scalar; }
  }

  /** For a non-negative value and scalar 10^d the output is the quotient's
      numeral, followed by '.' and the fraction digits when there are any. */
  lemma {:induction false} DecimalStringOfPow10(value: nat, scalar: nat, d: nat)
    requires scalar == Pow10(d)
    ensures BigIntToDecimalString(value, scalar) == Ok(
              var f := FractionDigits(Rem(value, scalar), d);
              if f == "" then IntToString(Quot(value, scalar))
              else IntToString(Quot(value, scalar)) + "." + f)
  {
    Pow10StringLength(d);
    assert |IntToString(scalar)| - 1 == d;
  }

  /** An exact division prints the bare quotient, whatever positive scalar. */
  lemma {:induction false} DecimalStringWhole(value: nat, scalar: nat)
    requires scalar > 0 && value % scalar == 0
    ensures BigIntToDecimalString(value, scalar) == Ok(NatToString(value / scalar))
  {
    QuotRemNonNegative(value, scalar);
    var p := PadStart(IntToString(0), |IntToString(scalar)| - 1, '0');
    assert IntToString(0) == "0";
    assert forall i | 0 <= i < |p| :: p[i] == '0';
    AllZerosTrimmed(p);
  }

  /** The first example of the function's documentation. */
  lemma {:induction false} DecimalStringExample()
    ensures BigIntToDecimalString(123456789, 1000000) == Ok("123.456789")
  {
    ExampleNumerals();
    assert Quot(123456789, 1000000) == 123 && Rem(123456789, 1000000) == 456789;
    assert PadStart("456789", 6, '0') == "456789";
    assert TrimTrailingZeros("456789") == "456789";
    assert "123" + "." + "456789" == "123.456789";
  }

  /** The numerals the examples print. */
  lemma {:induction false} ExampleNumerals()
    ensures IntToString(1000000) == "1000000"
    ensures IntToString(123) == "123"
    ensures IntToString(456789) == "456789"
  {
    MillionNumeral();
    assert NatToString(456) == "456";
    assert NatToString(4567) == "4567";
    assert NatToString(45678) == "45678";
  }

  lemma {:induction false} MillionNumeral()
    ensures IntToString(1000000) == "1000000"
  {
    assert NatToString(1000) == "1000";
    assert NatToString(10000) == "10000";
    assert NatToString(100000) == "100000";
  }

  /** The second example: an exact division prints no point. */
  lemma {:induction false} DecimalStringWholeExample()
    ensures BigIntToDecimalString(1000000, 1000000) == Ok("1")
    ensures BigIntToDecimalString(0, 1000000) == Ok("0")
  {
    MillionNumeral();
    assert Quot(1000000, 1000000) == 1 && Rem(1000000, 1000000) == 0;
    assert Quot(0, 1000000) == 0 && Rem(0, 1000000) == 0;
    AllZerosTrimmed(PadStart("0", 6, '0'));
  }

  /** `r` is the numeral `q` alone when there is no fraction; otherwise `q`,
      a '.', then 1 to d digits the last of which is not '0'. A '.' occurs
      iff there is a fraction, and every other character is a digit. */
  predicate NumeralShape(r: string, q: string, hasFraction: bool, d: nat) {
    && |q| <= |r| && r[..|q|] == q
    && (!hasFraction <==> r == q)
    && (hasFraction ==>
          && |q| < |r| && r[|q|] == '.'
          && AllDigits(r[|q| + 1..]) && 1 <= |r| - |q| - 1 <= d
          && r[|r| - 1] != '0')
    && ('.' in r <==> hasFraction)
    && (forall i | 0 <= i < |r| && r[i] != '.' :: IsDigit(r[i]))
  }

  lemma {:induction false} ShapeOfParts(q: string, f: string, d: nat)
    requires AllDigits(q) && AllDigits(f) && |f| <= d
    requires f != [] ==> f[|f| - 1] != '0'
    ensures NumeralShape(if f == "" then q else q + "." + f, q, f != "", d)
  {
    if f != "" {
      var r := q + "." + f;
      assert r[|q| + 1..] == f;
      assert r[..|q|] == q;
      assert '.' in r by { assert r[|q|] == '.'; }
    } else {
      assert '.' !in q by {
        forall i | 0 <= i < |q| ensures q[i] != '.' { assert IsDigit(q[i]); }
      }
    }
  }

  /** Shape of the output for value >= 0 and scalar 10^d: the digits of the
      quotient `value / scalar`, followed, exactly when the remainder is not
      zero, by '.' and 1 to d fraction digits that do not end in '0'. */
  lemma {:induction false} DecimalStringShape(value: nat, scalar: nat, d: nat)
    requires scalar == Pow10(d)
    ensures BigIntToDecimalString(value, scalar).Ok?
    ensures NumeralShape(BigIntToDecimalString(value, scalar).value,
                         IntToString(Quot(value, scalar)), Rem(value, scalar) != 0, d)
  {
    DecimalStringOfPow10(value, scalar, d);
    var rem := Rem(value, scalar);
    assert 0 <= rem < Pow10(d) by { QuotRemFacts(value, scalar); }
    FractionDigitsFacts(rem, d);
    var q := IntToString(Quot(value, scalar));
    assert AllDigits(q) by { QuotRemFacts(value, scalar); }
    ShapeOfParts(q, FractionDigits(rem, d), d);
  }

  // ---------------------------------------------------------------------------
  // Reading a decimal numeral back

  function IndexOf(s: string, c: char): (k: nat)
    requires c in s
    ensures k < |s| && s[k] == c && c !in s[..k]
  {
    if s[0] == c then 0
    else
      var k := 1 + IndexOf(s[1..], c);
      assert s[..k] == [s[0]] + s[1..][..k - 1];
      k
  }

  /** The exact value of a numeral `digits` or `digits.digits` (what
      `parseFloat` reads from such a string, before rounding to a double);
      None for any other string. */
  function DecimalValue(s: string): (v: Option<real>)
    ensures v.Some? ==> v.value >= 0.0
  {
    if '.' in s then
      var k := IndexOf(s, '.');
      PointValue(s[..k], s[k + 1..])
    else if s != [] && AllDigits(s) then Some(DigitsValue(s) as real)
    else None
  }

  /** The value of `ip.fp`: a non-empty integer part and a fraction part, both
      all digits. */
  function PointValue(ip: string, fp: string): (v: Option<real>)
    ensures v.Some? ==> v.value >= 0.0
  {
    if ip != [] && AllDigits(ip) && AllDigits(fp)
    then Some(DigitsValue(ip) as real + DigitsValue(fp) as real / Pow10(|fp|) as real)
    else None
  }

  /** Round trip: reading the formatted value of `value >= 0` under scalar
      10^d gives back exactly `value / 10^d`. */
  lemma {:induction false} DecimalStringRoundTrip(value: nat, scalar: nat, d: nat)
    requires scalar == Pow10(d)
    ensures BigIntToDecimalString(value, scalar).Ok?
    ensures DecimalValue(BigIntToDecimalString(value, scalar).value)
            == Some(value as real / scalar as real)
  {
    if Rem(value, scalar) == 0 {
      ExactRoundTrip(value, scalar, d);
    } else {
      InexactRoundTrip(value, scalar, d);
    }
  }

  lemma {:induction false} ExactRoundTrip(value: nat, scalar: nat, d: nat)
    requires scalar == Pow10(d) && Rem(value, scalar) == 0
    ensures BigIntToDecimalString(value, scalar)
            == Ok(IntToString(Quot(value, scalar)))
    ensures DecimalValue(IntToString(Quot(value, scalar))) == Some(value as real / scalar as real)
  {
    QuotRemFacts(value, scalar);
    FractionDigitsFacts(0, d);
    DecimalStringOfPow10(value, scalar, d);
    WholeRoundTrip(value / scalar, scalar);
  }

  lemma {:induction false} InexactRoundTrip(value: nat, scalar: nat, d: nat)
    requires scalar == Pow10(d) && Rem(value, scalar) != 0
    ensures BigIntToDecimalString(value, scalar)
            == Ok(IntToString(Quot(value, scalar)) + "." + FractionDigits(Rem(value, scalar), d))
    ensures DecimalValue(IntToString(Quot(value, scalar)) + "." + FractionDigits(Rem(value, scalar), d))
            == Some(value as real / scalar as real)
  {
    QuotRemFacts(value, scalar);
    FractionDigitsFacts(Rem(value, scalar), d);
    DecimalStringOfPow10(value, scalar, d);
    FractionRoundTrip(value / scalar, value % scalar, d);
  }

  /** Reading back a bare quotient numeral. */
  lemma {:induction false} WholeRoundTrip(Q: nat, scalar: nat)
    requires scalar >= 1
    ensures DecimalValue(NatToString(Q)) == Some((Q * scalar) as real / scalar as real)
  {
    var q := NatToString(Q);
    NatToStringValue(Q);
    assert '.' !in q by {
      forall i | 0 <= i < |q| ensures q[i] != '.' { assert IsDigit(q[i]); }
    }
    RealWhole(Q, scalar);
  }

  /** Reading back `Q.f` where `f` is the fraction printed for `rem`. */
  lemma {:induction false} FractionRoundTrip(Q: nat, rem: nat, d: nat)
    requires rem < Pow10(d) && FractionDigits(rem, d) != ""
    ensures DecimalValue(NatToString(Q) + "." + FractionDigits(rem, d))
            == Some((Q * Pow10(d) + rem) as real / Pow10(d) as real)
  {
    FractionScale(rem, d);
    NatToStringValue(Q);
    ReadDecimal(Q, NatToString(Q), rem, FractionDigits(rem, d), d);
  }

  /** Reading `q.f`, where `q` denotes `Q` and `f` scaled to `d` places
      denotes `rem`, gives `(Q * 10^d + rem) / 10^d`. */
  lemma {:induction false} ReadDecimal(Q: nat, q: string, rem: nat, f: string, d: nat)
    requires AllDigits(q) && q != [] && DigitsValue(q) == Q
    requires AllDigits(f) && |f| <= d && rem == DigitsValue(f) * Pow10(d - |f|)
    ensures DecimalValue(q + "." + f) == Some((Q * Pow10(d) + rem) as real / Pow10(d) as real)
  {
    Pow10Add(|f|, d - |f|);
    assert |f| + (d - |f|) == d;
    ReadBack(Q, q, f);
    SameFraction(DecimalValue(q + "." + f), Q, DigitsValue(f), Pow10(|f|), Pow10(d - |f|),
                 Pow10(d), rem);
  }

  /** The fraction digits of `rem` scaled back to `d` places give `rem`. */
  lemma {:induction false} FractionScale(rem: nat, d: nat)
    requires rem < Pow10(d)
    ensures var f := FractionDigits(rem, d);
      && AllDigits(f) && |f| <= d
      && rem == DigitsValue(f) * Pow10(d - |f|)
  {
    FractionDigitsFacts(rem, d);
  }

  /** Reading `q.f`, where the digits `q` denote `Q`, gives `Q` plus the
      fraction `f` denotes. */
  lemma {:induction false} ReadBack(Q: nat, q: string, f: string)
    requires AllDigits(q) && q != [] && DigitsValue(q) == Q && AllDigits(f)
    ensures DecimalValue(q + "." + f)
            == Some(Q as real + DigitsValue(f) as real / Pow10(|f|) as real)
  {
    ReadFraction(q, f);
  }

  lemma {:induction false} SameFraction(x: Option<real>, Q: nat, F: nat, P1: nat, P2: nat, S: nat, R: nat)
    requires P1 >= 1 && P2 >= 1 && S == P1 * P2 && R == F * P2
    requires x == Some(Q as real + F as real / P1 as real)
    ensures x == Some((Q * S + R) as real / S as real)
  {
    RealFraction(Q, F, P1, P2, S, R);
  }

  /** The value read from `q.f`. */
  lemma {:induction false} ReadFraction(q: string, f: string)
    requires AllDigits(q) && q != [] && AllDigits(f)
    ensures DecimalValue(q + "." + f)
            == Some(DigitsValue(q) as real + DigitsValue(f) as real / Pow10(|f|) as real)
  {
    DotSplit(q, f);
  }

  /** `q.f` with `q` all digits reads as the point value of its two parts. */
  lemma {:induction false} DotSplit(q: string, f: string)
    requires AllDigits(q)
    ensures DecimalValue(q + "." + f) == PointValue(q, f)
  {
    DotAfterDigits(q, f);
  }

  /** In `q + "." + f` with `q` all digits, the first '.' is the one after `q`. */
  lemma {:induction false} DotAfterDigits(q: string, f: string)
    requires AllDigits(q)
    ensures '.' in q + "." + f
    ensures IndexOf(q + "." + f, '.') == |q|
    ensures (q + "." + f)[..|q|] == q && (q + "." + f)[|q| + 1..] == f
  {
    var r := q + "." + f;
    assert r[|q|] == '.';
  }

  lemma {:induction false} RealWhole(Q: nat, P: nat)
    requires P >= 1
    ensures (Q * P) as real / P as real == Q as real
  {
    assert (Q * P) as real == Q as real * P as real;
  }

  lemma {:induction false} RealFraction(Q: nat, F: nat, P1: nat, P2: nat, S: nat, R: nat)
    requires P1 >= 1 && P2 >= 1 && S == P1 * P2 && R == F * P2
    ensures (Q * S + R) as real / S as real == Q as real + F as real / P1 as real
  {
    var p1, p2 := P1 as real, P2 as real;
    assert (Q * S + R) as real == Q as real * p1 * p2 + F as real * p2;
    assert S as real == p1 * p2;
    calc {
      (Q as real * p1 * p2 + F as real * p2) / (p1 * p2);
      == Q as real * (p1 * p2) / (p1 * p2) + F as real * p2 / (p1 * p2);
      == Q as real + F as real * p2 / (p1 * p2);
      == Q as real + F as real / p1;
    }
  }
}
