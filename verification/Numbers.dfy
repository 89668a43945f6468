/** std::to_string and std::from_chars on decimal integers, and byte-string order. */
module Numbers {
  import opened Prelude

  const ZERO: byte := 48
  const MINUS: byte := 45

  function Bytes(s: string): Text
    requires forall i :: 0 <= i < |s| ==> s[i] as int < 0x100
  {
    seq(|s|, i requires 0 <= i < |s| => s[i] as int as byte)
  }

  predicate IsDigit(b: byte) {
    ZERO <= b <= ZERO + 9
  }

  predicate AllDigits(s: Text) {
    forall i :: 0 <= i < |s| ==> IsDigit(s[i])
  }

  function DigitsValue(s: Text): nat
    requires AllDigits(s)
  {
    if s == [] then 0 else 10 * DigitsValue(s[..|s| - 1]) + (s[|s| - 1] - ZERO) as int
  }

  function FormatNat(n: nat): (s: Text)
    ensures s != [] && AllDigits(s)
  {
    if n < 10 then [ZERO + n as byte] else FormatNat(n / 10) + [ZERO + (n % 10) as byte]
  }

  function FormatInt(n: int): (s: Text)
    ensures s != []
  {
    if n < 0 then [MINUS] + FormatNat(-n) else FormatNat(n)
  }

  /** from_chars on a uint32_t that must use up the whole string: no sign is accepted. */
  function ParseUint32(s: Text): Option<uint32> {
    if s != [] && AllDigits(s) && DigitsValue(s) < 0x1_0000_0000 then Some(DigitsValue(s)) else None
  }

  /** from_chars on an int32_t that must use up the whole string: a minus sign is accepted. */
  function ParseInt32(s: Text): Option<int32> {
    if s != [] && s[0] == MINUS then
      var digits := s[1..];
      if digits != [] && AllDigits(digits) && DigitsValue(digits) <= 0x8000_0000
      then Some(0 - DigitsValue(digits)) else None
    else if s != [] && AllDigits(s) && DigitsValue(s) < 0x8000_0000 then Some(DigitsValue(s))
    else None
  }

  /** The digits the text begins with. */
  function LeadingDigits(s: Text): (d: Text)
    ensures AllDigits(d) && |d| <= |s|
  {
    if s == [] || !IsDigit(s[0]) then [] else [s[0]] + LeadingDigits(s[1..])
  }

  /** from_chars on a uint32_t where what follows the digits does not matter; 0 when it fails. */
  function LeadingUint32(s: Text): uint32 {
    var d := LeadingDigits(s);
    if d != [] && DigitsValue(d) < 0x1_0000_0000 then DigitsValue(d) else 0
  }

  function LeadingUint64(s: Text): uint64 {
    var d := LeadingDigits(s);
    if d != [] && DigitsValue(d) < 0x1_0000_0000_0000_0000 then DigitsValue(d) else 0
  }

  /** from_chars on an int32_t: a minus sign may come first. */
  function LeadingInt32(s: Text): int32 {
    var negative := s != [] && s[0] == MINUS;
    var d := LeadingDigits(if negative then s[1..] else s);
    if d == [] then 0
    else if negative then if DigitsValue(d) <= 0x8000_0000 then 0 - DigitsValue(d) else 0
    else if DigitsValue(d) < 0x8000_0000 then DigitsValue(d) else 0
  }

  /** The one decimal text of a uint32: no leading zero, nothing after the digits. */
  predicate IsCanonical(s: Text) {
    s != [] && AllDigits(s) && (|s| > 1 ==> s[0] != ZERO) && DigitsValue(s) < 0x1_0000_0000
  }

  lemma {:induction false} AllAreLeading(s: Text)
    requires AllDigits(s)
    ensures LeadingDigits(s) == s
  {
    if s != [] {
      assert IsDigit(s[0]);
      AllAreLeading(s[1..]);
    }
  }

  lemma {:induction false} ValueIsPositive(s: Text)
    requires s != [] && AllDigits(s) && s[0] != ZERO
    ensures DigitsValue(s) > 0
  {
    if |s| > 1 {
      ValueIsPositive(s[..|s| - 1]);
    } else {
      assert s[..0] == [] && IsDigit(s[0]);
    }
  }

  lemma {:induction false} FormatValue(s: Text)
    requires s != [] && AllDigits(s) && (|s| > 1 ==> s[0] != ZERO)
    ensures FormatNat(DigitsValue(s)) == s
  {
    var n := |s| - 1;
    assert IsDigit(s[n]);
    assert s == s[..n] + [s[n]];
    if n > 0 {
      ValueIsPositive(s[..n]);
      FormatValue(s[..n]);
    } else {
      assert s[..0] == [];
    }
  }

  lemma {:induction false} FormatIsCanonical(n: nat)
    ensures |FormatNat(n)| > 1 ==> FormatNat(n)[0] != ZERO
    ensures n > 0 ==> FormatNat(n)[0] != ZERO
  {
    if n >= 10 {
      FormatIsCanonical(n / 10);
    }
  }

  /** A text is what its number is printed as exactly when it is canonical. */
  lemma CanonicalMeaning(s: Text)
    ensures FormatInt(LeadingUint32(s)) == s <==> IsCanonical(s)
  {
    if IsCanonical(s) {
      AllAreLeading(s);
      FormatValue(s);
    }
    FormatIsCanonical(LeadingUint32(s));
    FormatNatValue(LeadingUint32(s));
  }

  lemma LeadingFormat(n: uint32)
    ensures LeadingUint32(FormatInt(n)) == n
  {
    AllAreLeading(FormatInt(n));
    FormatNatValue(n);
  }

  lemma LeadingFormat64(n: uint64)
    ensures LeadingUint64(FormatInt(n)) == n
  {
    AllAreLeading(FormatInt(n));
    FormatNatValue(n);
  }

  lemma LeadingFormatInt32(n: int32)
    ensures LeadingInt32(FormatInt(n)) == n
  {
    var magnitude: nat := if n < 0 then 0 - n as int else n;
    AllAreLeading(FormatNat(magnitude));
    FormatNatValue(magnitude);
    if n < 0 {
      assert FormatInt(n)[1..] == FormatNat(magnitude);
    } else {
      assert IsDigit(FormatNat(n)[0]);
    }
  }

  /** Different numbers are printed differently. */
  lemma FormatIsInjective(a: nat, b: nat)
    ensures FormatInt(a) == FormatInt(b) ==> a == b
  {
    FormatNatValue(a);
    FormatNatValue(b);
  }

  // ----------------------------------------------------------- six decimals

  const DOT: byte := 46
  const MILLION := 1_000_000

  /** The nearest integer, the even one when two are as near. */
  function Rounded(x: real): int {
    var f, half := x.Floor, x - x.Floor as real;
    if half < 0.5 || (half == 0.5 && f % 2 == 0) then f else f + 1
  }

  function Magnitude(x: real): real {
    if x < 0.0 then -x else x
  }

  /** The last `width` digits of a number. */
  function Digits(n: nat, width: nat): (s: Text)
    ensures |s| == width && AllDigits(s)
  {
    if width == 0 then [] else Digits(n / 10, width - 1) + [ZERO + (n % 10) as byte]
  }

  function Pow10(n: nat): (r: nat)
    ensures r > 0
  {
    if n == 0 then 1 else 10 * Pow10(n - 1)
  }

  /** How many millionths a number has. */
  function Millionths(x: real): nat
    ensures x >= 0.0 ==> Millionths(x) as real - 0.5 <= x * 1_000_000.0 <= Millionths(x) as real + 0.5
  {
    Rounded(Magnitude(x) * 1_000_000.0)
  }

  /** std::to_string of a float, as a real number: six decimals. */
  function FormatFixed(x: real): (s: Text)
    ensures s != []
  {
    (if x < 0.0 then [MINUS] else []) + FormatNat(Millionths(x) / MILLION) + [DOT] + Digits(Millionths(x) % MILLION, 6)
  }

  /** from_chars on a float in plain notation, as a real number; 0 when there is no digit. */
  function LeadingReal(s: Text): real {
    if s != [] && s[0] == MINUS then -LeadingUnsigned(s[1..]) else LeadingUnsigned(s)
  }

  function LeadingUnsigned(s: Text): real {
    var whole := LeadingDigits(s);
    var rest := s[|whole|..];
    if rest != [] && rest[0] == DOT then
      var decimals := LeadingDigits(rest[1..]);
      DigitsValue(whole) as real + DigitsValue(decimals) as real / Pow10(|decimals|) as real
    else DigitsValue(whole) as real
  }

  /** What is left of a number after it has been printed. */
  function SixDecimals(x: real): real {
    var r := Millionths(x) as real / 1_000_000.0;
    if x < 0.0 then -r else r
  }

  lemma {:induction false} DigitsAreValue(n: nat, width: nat)
    requires n < Pow10(width)
    ensures DigitsValue(Digits(n, width)) == n
  {
    if width > 0 {
      DigitsAreValue(n / 10, width - 1);
      assert Digits(n, width)[..width - 1] == Digits(n / 10, width - 1);
    }
  }

  lemma {:induction false} LeadingBefore(s: Text, rest: Text)
    requires AllDigits(s) && (rest == [] || !IsDigit(rest[0]))
    ensures LeadingDigits(s + rest) == s
  {
    if s == [] {
      assert s + rest == rest;
    } else {
      assert IsDigit(s[0]) && (s + rest)[1..] == s[1..] + rest;
      LeadingBefore(s[1..], rest);
    }
  }

  lemma SixZeros()
    ensures Pow10(6) == MILLION
  {
    assert Pow10(3) == 1000;
  }

  lemma UnsignedReadsBack(n: nat)
    ensures LeadingUnsigned(FormatNat(n / MILLION) + [DOT] + Digits(n % MILLION, 6)) == n as real / 1_000_000.0
  {
    hide Digits, FormatNat, DigitsValue, Pow10;
    var whole, decimals := FormatNat(n / MILLION), Digits(n % MILLION, 6);
    var s := whole + [DOT] + decimals;
    assert s == whole + ([DOT] + decimals);
    LeadingBefore(whole, [DOT] + decimals);
    assert s[|whole|..] == [DOT] + decimals && ([DOT] + decimals)[1..] == decimals;
    AllAreLeading(decimals);
    SixZeros();
    DigitsAreValue(n % MILLION, 6);
    FormatNatValue(n / MILLION);
    assert n == MILLION * (n / MILLION) + n % MILLION;
  }

  /** A printed float reads as the number rounded to six decimals. */
  lemma FixedReadsBack(x: real)
    ensures LeadingReal(FormatFixed(x)) == SixDecimals(x)
  {
    hide Digits, FormatNat, LeadingUnsigned, Millionths;
    var n := Millionths(x);
    var s := FormatNat(n / MILLION) + [DOT] + Digits(n % MILLION, 6);
    UnsignedReadsBack(n);
    if x < 0.0 {
      assert FormatFixed(x) == [MINUS] + s && FormatFixed(x)[1..] == s;
    } else {
      assert FormatFixed(x) == s;
      assert IsDigit(FormatNat(n / MILLION)[0]) && s[0] == FormatNat(n / MILLION)[0];
    }
  }

  predicate Integral(x: real) {
    x.Floor as real == x
  }

  lemma RoundedMeaning(y: real)
    requires y >= 0.0
    ensures -0.5 <= Rounded(y) as real - y <= 0.5 && Rounded(y) >= 0
    ensures Rounded(y) as real == y <==> Integral(y)
  {
  }

  lemma NegatedIsIntegral(y: real)
    ensures Integral(-y) <==> Integral(y)
  {
    if Integral(y) {
      assert (-(y.Floor)) as real == -y;
    }
    if Integral(-y) {
      assert (-((-y).Floor)) as real == y;
    }
  }

  /** That is within half a millionth of it, and the number itself exactly if it has no further decimals. */
  lemma SixDecimalsMeaning(x: real)
    ensures -0.0000005 <= SixDecimals(x) - x <= 0.0000005
    ensures SixDecimals(x) == x <==> Integral(x * 1_000_000.0)
    ensures SixDecimals(SixDecimals(x)) == SixDecimals(x)
  {
    NearAndWhole(x);
    NearAndWhole(SixDecimals(x));
  }

  lemma NearAndWhole(x: real)
    ensures -0.0000005 <= SixDecimals(x) - x <= 0.0000005
    ensures SixDecimals(x) == x <==> Integral(x * 1_000_000.0)
    ensures Integral(SixDecimals(x) * 1_000_000.0)
  {
    hide Rounded, Integral;
    var y := Magnitude(x) * 1_000_000.0;
    RoundedMeaning(y);
    NegatedIsIntegral(x * 1_000_000.0);
    NegatedIsIntegral(SixDecimals(x) * 1_000_000.0);
    var n := Millionths(x);
    WholeIsIntegral(n);
    if x < 0.0 {
      assert y == -(x * 1_000_000.0) && SixDecimals(x) * 1_000_000.0 == -(n as real);
    } else {
      assert y == x * 1_000_000.0 && SixDecimals(x) * 1_000_000.0 == n as real;
    }
  }

  lemma WholeIsIntegral(n: nat)
    ensures Integral(n as real)
  {
  }

  lemma {:induction false} FormatNatValue(n: nat)
    ensures DigitsValue(FormatNat(n)) == n
  {
    if n < 10 {
      assert FormatNat(n)[..0] == [];
    } else {
      FormatNatValue(n / 10);
      assert FormatNat(n)[..|FormatNat(n)| - 1] == FormatNat(n / 10);
    }
  }

  lemma ParseFormatUint32(n: uint32)
    ensures ParseUint32(FormatInt(n)) == Some(n)
  {
    FormatNatValue(n);
  }

  lemma ParseFormatInt32(n: int32)
    ensures ParseInt32(FormatInt(n)) == Some(n)
  {
    if n < 0 {
      var magnitude: nat := 0 - n as int;
      FormatNatValue(magnitude);
      assert FormatInt(n)[1..] == FormatNat(magnitude);
    } else {
      FormatNatValue(n);
      assert IsDigit(FormatNat(n)[0]);
    }
  }

  /** std::string's `<=`, which compares bytes as unsigned. */
  predicate LexLeq(a: Text, b: Text) {
    a == [] || (b != [] && (a[0] < b[0] || (a[0] == b[0] && LexLeq(a[1..], b[1..]))))
  }

  lemma {:induction false} LexTotal(a: Text, b: Text)
    ensures LexLeq(a, b) || LexLeq(b, a)
  {
    if a != [] && b != [] {
      LexTotal(a[1..], b[1..]);
    }
  }

  lemma {:induction false} LexAntisymmetric(a: Text, b: Text)
    requires LexLeq(a, b) && LexLeq(b, a)
    ensures a == b
  {
    if a != [] && b != [] {
      LexAntisymmetric(a[1..], b[1..]);
      assert a == [a[0]] + a[1..] && b == [b[0]] + b[1..];
    }
  }

  lemma {:induction false} LexTransitive(a: Text, b: Text, c: Text)
    requires LexLeq(a, b) && LexLeq(b, c)
    ensures LexLeq(a, c)
  {
    if a != [] && a[0] == b[0] == c[0] {
      LexTransitive(a[1..], b[1..], c[1..]);
    }
  }

  predicate IsLeast(m: Text, names: set<Text>) {
    m in names && forall n <- names :: LexLeq(m, n)
  }

  lemma {:induction false} LeastExists(names: set<Text>) returns (m: Text)
    requires names != {}
    ensures IsLeast(m, names)
  {
    var x :| x in names;
    m := x;
    LexTotal(x, x);
    if names != {x} {
      assert names - {x} < names;
      var y := LeastExists(names - {x});
      LexTotal(x, y);
      if !LexLeq(x, y) {
        m := y;
      }
      forall n | n in names
        ensures LexLeq(m, n)
      {
        if n != x {
          if m == x {
            LexTransitive(x, y, n);
          }
        }
      }
    }
  }

  predicate Sorted(names: seq<Text>) {
    forall i, j :: 0 <= i < j < |names| ==> LexLeq(names[i], names[j]) && names[i] != names[j]
  }

  /** The names in increasing order. */
  ghost function SortedNames(names: set<Text>): seq<Text> {
    if names == {} then []
    else
      assert exists m :: IsLeast(m, names) by {
        var m := LeastExists(names);
      }
      var m :| IsLeast(m, names);
      assert names - {m} < names;
      [m] + SortedNames(names - {m})
  }

  lemma {:induction false} SortedNamesMeaning(names: set<Text>)
    ensures Sorted(SortedNames(names))
    ensures forall n :: n in SortedNames(names) <==> n in names
  {
    if names != {} {
      var m := SortedNames(names)[0];
      assert IsLeast(m, names) && SortedNames(names) == [m] + SortedNames(names - {m});
      SortedNamesMeaning(names - {m});
    }
  }

  method FindLeast(names: set<Text>) returns (m: Text)
    requires names != {}
    ensures IsLeast(m, names)
  {
    ghost var least := LeastExists(names);
    m :| m in names && IsLeast(m, names);
  }

  method SortNames(names: set<Text>) returns (r: seq<Text>)
    ensures r == SortedNames(names)
  {
    hide IsLeast;
    r := [];
    var rest := names;
    while rest != {}
      invariant r + SortedNames(rest) == SortedNames(names)
      decreases rest
    {
      var m := FindLeast(rest);
      LeastIsFirst(rest, m);
      assert r + ([m] + SortedNames(rest - {m})) == (r + [m]) + SortedNames(rest - {m});
      r := r + [m];
      rest := rest - {m};
    }
  }

  lemma LeastIsFirst(names: set<Text>, m: Text)
    requires IsLeast(m, names)
    ensures SortedNames(names) == [m] + SortedNames(names - {m})
  {
    var first := SortedNames(names)[0];
    assert IsLeast(first, names) && SortedNames(names) == [first] + SortedNames(names - {first});
    LexAntisymmetric(m, first);
  }
}
