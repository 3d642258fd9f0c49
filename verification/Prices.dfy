/** Decimal price text: the pattern the adapter matches in full, and the number it denotes. */
module Prices {
  import opened Texts
  import opened Numerals

  // ----- the pattern (?:0|[1-9][0-9]*)(?:\.[0-9]+)? as a regular expression

  datatype Regex = Range(lo: Code, hi: Code) | Cat(first: Regex, second: Regex)
                 | Alt(left: Regex, right: Regex) | Star(body: Regex) | Nothing

  ghost predicate Matches(r: Regex, t: Text)
    decreases r, |t|
  {
    match r
    case Nothing => t == []
    case Range(lo, hi) => |t| == 1 && lo <= t[0] <= hi
    case Cat(a, b) => exists i :: 0 <= i <= |t| && Matches(a, t[..i]) && Matches(b, t[i..])
    case Alt(a, b) => Matches(a, t) || Matches(b, t)
    case Star(a) => t == [] || exists i :: 0 < i <= |t| && Matches(a, t[..i]) && Matches(r, t[i..])
  }

  const DIGIT: Regex := Range(ZERO, 0x39)
  const WHOLE: Regex := Alt(Range(ZERO, ZERO), Cat(Range(0x31, 0x39), Star(DIGIT)))
  const FRACTION: Regex := Cat(Range(DOT, DOT), Cat(DIGIT, Star(DIGIT)))
  const DECIMAL: Regex := Cat(WHOLE, Alt(FRACTION, Nothing))

  /** Length of the integer part of a decimal text, or 0. */
  function WholeLength(t: Text): (n: nat)
    ensures n <= |t|
  {
    if t == [] || !Digit(t[0]) then 0
    else if t[0] == ZERO then 1
    else DigitRun(t)
  }

  predicate Decimal(t: Text) {
    var n := WholeLength(t);
    n > 0 && (n == |t| || (t[n] == DOT && n + 1 < |t| && DigitRun(t[n + 1..]) == |t| - n - 1))
  }

  lemma {:induction false} DigitStar(t: Text)
    ensures Matches(Star(DIGIT), t) <==> AllDigits(t)
    decreases |t|
  {
    if t != [] {
      DigitStar(t[1..]);
      assert t == [t[0]] + t[1..];
      if AllDigits(t) {
        assert Matches(DIGIT, t[..1]);
      }
      if Matches(Star(DIGIT), t) {
        var i :| 0 < i <= |t| && Matches(DIGIT, t[..i]) && Matches(Star(DIGIT), t[i..]);
        assert i == 1 && t[..i][0] == t[0];
      }
    }
  }

  ghost predicate FractionText(t: Text) {
    |t| > 1 && t[0] == DOT && AllDigits(t[1..])
  }

  lemma WholeMatches(t: Text)
    ensures Matches(WHOLE, t) <==> WholeText(t)
  {
    var more := Cat(Range(0x31, 0x39), Star(DIGIT));
    assert Matches(WHOLE, t) <==> Matches(Range(ZERO, ZERO), t) || Matches(more, t);
    assert Matches(Range(ZERO, ZERO), t) <==> t == [ZERO];
    if Matches(more, t) {
      var i :| 0 <= i <= |t| && Matches(Range(0x31, 0x39), t[..i]) && Matches(Star(DIGIT), t[i..]);
      DigitStar(t[1..]);
      assert i == 1 && t[..i][0] == t[0];
      assert t == [t[0]] + t[1..];
    }
    if t != [] && 0x31 <= t[0] <= 0x39 && AllDigits(t) {
      DigitStar(t[1..]);
      assert Matches(Range(0x31, 0x39), t[..1]);
    }
  }

  lemma FractionMatches(t: Text)
    ensures Matches(FRACTION, t) <==> FractionText(t)
  {
    if Matches(FRACTION, t) {
      var i :| 0 <= i <= |t| && Matches(Range(DOT, DOT), t[..i]) && Matches(Cat(DIGIT, Star(DIGIT)), t[i..]);
      assert i == 1 && t[..i][0] == t[0];
      DigitPlus(t[1..]);
    }
    if FractionText(t) {
      DigitPlus(t[1..]);
      assert Matches(Range(DOT, DOT), t[..1]);
    }
  }

  lemma DigitPlus(t: Text)
    ensures Matches(Cat(DIGIT, Star(DIGIT)), t) <==> t != [] && AllDigits(t)
  {
    if Matches(Cat(DIGIT, Star(DIGIT)), t) {
      var i :| 0 <= i <= |t| && Matches(DIGIT, t[..i]) && Matches(Star(DIGIT), t[i..]);
      assert i == 1 && t[..i][0] == t[0];
      DigitStar(t[1..]);
      assert t == [t[0]] + t[1..];
    }
    if t != [] && AllDigits(t) {
      DigitStar(t[1..]);
      assert Matches(DIGIT, t[..1]);
    }
  }

  /** Splits of a decimal text into its two parts. */
  ghost predicate SplitsAt(t: Text, i: nat) {
    i <= |t| && WholeText(t[..i]) && (FractionText(t[i..]) || i == |t|)
  }

  lemma DecimalMatches(t: Text)
    ensures Matches(DECIMAL, t) <==> exists i: nat :: SplitsAt(t, i)
  {
    hide Matches, WholeText, FractionText;
    forall i | 0 <= i <= |t|
      ensures Matches(WHOLE, t[..i]) && Matches(Alt(FRACTION, Nothing), t[i..]) <==> SplitsAt(t, i)
    {
      WholeMatches(t[..i]);
      FractionMatches(t[i..]);
      AltNothing(FRACTION, t[i..]);
    }
    CatMatches(WHOLE, Alt(FRACTION, Nothing), t);
    if i: nat :| SplitsAt(t, i) {
      assert i <= |t|;
      assert Matches(WHOLE, t[..i]);
    }
    if i :| 0 <= i <= |t| && Matches(WHOLE, t[..i]) && Matches(Alt(FRACTION, Nothing), t[i..]) {
      assert SplitsAt(t, i);
    }
  }

  lemma AltNothing(r: Regex, t: Text)
    ensures Matches(Alt(r, Nothing), t) <==> Matches(r, t) || t == []
  {
  }

  lemma CatMatches(a: Regex, b: Regex, t: Text)
    ensures Matches(Cat(a, b), t) <==> exists i :: 0 <= i <= |t| && Matches(a, t[..i]) && Matches(b, t[i..])
  {
  }

  /** The scan accepts exactly the language of the pattern. */
  lemma DecimalIsPattern(t: Text)
    ensures Decimal(t) <==> Matches(DECIMAL, t)
  {
    hide Matches;
    DecimalMatches(t);
    if Decimal(t) {
      DecimalSplits(t);
    }
    if i: nat :| SplitsAt(t, i) {
      SplitIsDecimal(t, i);
    }
  }

  lemma DecimalSplits(t: Text)
    requires Decimal(t)
    ensures SplitsAt(t, WholeLength(t))
  {
    var n := WholeLength(t);
    assert t[..n][0] == t[0];
    if n < |t| {
      assert t[n..][1..] == t[n + 1..];
    }
  }

  lemma SplitIsDecimal(t: Text, i: nat)
    requires SplitsAt(t, i)
    ensures Decimal(t) && WholeLength(t) == i
  {
    assert t[..i][0] == t[0];
    if t[0] != ZERO {
      DigitsRun(t[..i]);
      DigitRunConcat(t[..i], t[i..]);
      assert t == t[..i] + t[i..];
      assert i < |t| ==> t[i..][0] == t[i] == DOT;
    }
    if i < |t| {
      assert t[i..][1..] == t[i + 1..];
      DigitsRun(t[i + 1..]);
    }
  }

  /** The match as one scan from left to right. */
  method FullMatch(t: Text) returns (ok: bool)
    ensures ok <==> Matches(DECIMAL, t)
  {
    hide Matches;
    DecimalIsPattern(t);
    if t == [] || !Digit(t[0]) {
      return false;
    }
    var i := 1;
    if t[0] != ZERO {
      while i < |t| && Digit(t[i])
        invariant 1 <= i <= |t| && forall k :: 0 <= k < i ==> Digit(t[k])
      {
        i := i + 1;
      }
      RunEnds(t, i);
    }
    if i == |t| {
      return true;
    }
    if t[i] != DOT || i + 1 == |t| {
      return false;
    }
    var start := i + 1;
    i := start;
    while i < |t| && Digit(t[i])
      invariant start <= i <= |t| && forall k :: start <= k < i ==> Digit(t[k])
    {
      i := i + 1;
    }
    RunEnds(t[start..], i - start);
    ok := i == |t|;
  }

  lemma RunEnds(t: Text, n: nat)
    requires n <= |t| && (forall k :: 0 <= k < n ==> Digit(t[k])) && (n < |t| ==> !Digit(t[n]))
    ensures DigitRun(t) == n
  {
  }

  // ----- the number a decimal text denotes

  function Whole(t: Text): Text
    requires Decimal(t)
  {
    t[..WholeLength(t)]
  }

  function Fraction(t: Text): Text
    requires Decimal(t)
  {
    if WholeLength(t) == |t| then [] else t[WholeLength(t) + 1..]
  }

  lemma Parts(t: Text)
    requires Decimal(t)
    ensures WholeText(Whole(t)) && AllDigits(Whole(t)) && AllDigits(Fraction(t))
    ensures t == Whole(t) + (if Fraction(t) == [] then [] else [DOT] + Fraction(t))
  {
    DecimalSplits(t);
    var n := WholeLength(t);
    if n < |t| {
      assert t[n..][1..] == t[n + 1..];
      assert t == t[..n] + [t[n]] + t[n + 1..];
    }
  }

  /** The value times ten to the number of its fraction digits. */
  function Scaled(t: Text): nat
    requires Decimal(t)
  {
    Parts(t);
    NatValue(Whole(t) + Fraction(t))
  }

  /** Equality of the two rationals Scaled / 10^digits. */
  ghost predicate SameNumber(t: Text, u: Text)
    requires Decimal(t) && Decimal(u)
  {
    Scaled(t) * Pow10(|Fraction(u)|) == Scaled(u) * Pow10(|Fraction(t)|)
  }

  function DropZeros(f: Text): Text {
    if f != [] && f[|f| - 1] == ZERO then DropZeros(f[..|f| - 1]) else f
  }

  function Zeros(n: nat): (z: Text)
    ensures |z| == n && AllDigits(z) && forall i :: 0 <= i < n ==> z[i] == ZERO
  {
    seq(n, _ => ZERO)
  }

  lemma {:induction false} PowSum(a: nat, b: nat)
    ensures Pow10(a + b) == Pow10(a) * Pow10(b)
  {
    if a > 0 {
      PowSum(a - 1, b);
      assert 10 * (Pow10(a - 1) * Pow10(b)) == (10 * Pow10(a - 1)) * Pow10(b);
    }
  }

  lemma NatValueLast(a: Text, d: Code)
    requires AllDigits(a) && Digit(d)
    ensures AllDigits(a + [d]) && NatValue(a + [d]) == 10 * NatValue(a) + DigitValue(d)
  {
    assert (a + [d])[..|a|] == a;
  }

  lemma Shift(a: int, p: int, v: int, d: int)
    ensures 10 * (a * p + v) + d == a * (10 * p) + (10 * v + d)
  {
    assert 10 * (a * p) == a * (10 * p);
  }

  lemma {:induction false} NatValueConcat(a: Text, b: Text)
    requires AllDigits(a) && AllDigits(b)
    ensures AllDigits(a + b) && NatValue(a + b) == NatValue(a) * Pow10(|b|) + NatValue(b)
    decreases |b|
  {
    if b == [] {
      assert a + b == a;
    } else {
      var n := |b| - 1;
      var c, d := b[..n], b[n];
      assert Pow10(n + 1) == 10 * Pow10(n);
      assert b == c + [d] && a + b == (a + c) + [d];
      hide Pow10, NatValue;
      NatValueConcat(a, c);
      NatValueLast(a + c, d);
      NatValueLast(c, d);
      Shift(NatValue(a), Pow10(n), NatValue(c), DigitValue(d));
    }
  }

  lemma {:induction false} NatValueBelow(a: Text)
    requires AllDigits(a)
    ensures NatValue(a) < Pow10(|a|)
  {
    if a != [] { NatValueBelow(a[..|a| - 1]); }
  }

  lemma {:induction false} NatValueZeros(n: nat)
    ensures NatValue(Zeros(n)) == 0
  {
    if n > 0 {
      assert Zeros(n)[..n - 1] == Zeros(n - 1);
      NatValueZeros(n - 1);
    }
  }

  lemma {:induction false} NatValueInjective(a: Text, b: Text)
    requires AllDigits(a) && AllDigits(b) && |a| == |b| && NatValue(a) == NatValue(b)
    ensures a == b
  {
    if a != [] {
      var n := |a| - 1;
      NatValueInjective(a[..n], b[..n]);
      assert a == a[..n] + [a[n]] && b == b[..n] + [b[n]];
    }
  }

  lemma {:induction false} ZerosDropped(f: Text)
    ensures |DropZeros(f)| <= |f| && f == DropZeros(f) + Zeros(|f| - |DropZeros(f)|)
  {
    if f != [] && f[|f| - 1] == ZERO {
      var g := f[..|f| - 1];
      ZerosDropped(g);
      var k := |g| - |DropZeros(g)|;
      assert f == g + [ZERO];
      assert Zeros(k) + [ZERO] == Zeros(k + 1);
    }
  }

  lemma {:induction false} DropPadded(f: Text, n: nat)
    ensures DropZeros(f + Zeros(n)) == DropZeros(f)
  {
    if n == 0 {
      assert f + Zeros(0) == f;
    } else {
      DropPadded(f, n - 1);
      assert (f + Zeros(n))[..|f| + n - 1] == f + Zeros(n - 1);
    }
  }

  lemma DropZerosLossless(f: Text, g: Text)
    requires |f| == |g| && DropZeros(f) == DropZeros(g)
    ensures f == g
  {
    hide *;
    ZerosDropped(f);
    ZerosDropped(g);
  }

  /** Padded to one length, fractions are equal exactly when they agree after dropping trailing zeros. */
  lemma PaddedEqual(f: Text, g: Text)
    ensures f + Zeros(|g|) == g + Zeros(|f|) <==> DropZeros(f) == DropZeros(g)
  {
    hide *;
    DropPadded(f, |g|);
    DropPadded(g, |f|);
    var a, b := f + Zeros(|g|), g + Zeros(|f|);
    if DropZeros(a) == DropZeros(b) {
      DropZerosLossless(a, b);
    }
  }

  lemma PaddedValue(t: Text, k: nat)
    requires Decimal(t)
    ensures AllDigits(Whole(t)) && AllDigits(Fraction(t) + Zeros(k))
    ensures Scaled(t) * Pow10(k) == NatValue(Whole(t)) * Pow10(|Fraction(t)| + k) + NatValue(Fraction(t) + Zeros(k))
    ensures NatValue(Fraction(t) + Zeros(k)) < Pow10(|Fraction(t)| + k)
  {
    Parts(t);
    var w, f := Whole(t), Fraction(t);
    hide Whole, Fraction, Decimal;
    NatValueConcat(w, f);
    NatValueConcat(f, Zeros(k));
    NatValueZeros(k);
    PowSum(|f|, k);
    Distribute(NatValue(w), Pow10(|f|), NatValue(f), Pow10(k));
    NatValueBelow(f + Zeros(k));
  }

  lemma Distribute(w: int, a: int, f: int, b: int)
    ensures (w * a + f) * b == w * (a * b) + f * b
  {
    assert (w * a + f) * b == (w * a) * b + f * b;
    assert (w * a) * b == w * (a * b);
  }

  /** A quotient and a remainder are determined by the number they make. */
  lemma Quotients(m: nat, a: nat, r: nat, b: nat, s: nat)
    requires m > 0 && r < m && s < m && a * m + r == b * m + s
    ensures a == b && r == s
  {
    if a < b {
      MulGrows(a, b, m);
    } else if b < a {
      MulGrows(b, a, m);
    }
  }

  lemma MulGrows(a: nat, b: nat, m: nat)
    requires a < b
    ensures a * m + m <= b * m
  {
    assert b * m == (a + 1) * m + (b - a - 1) * m;
  }

  /**
    Two accepted prices denote the same number exactly when their integer parts are the
    same text and their fractions agree after dropping trailing zeros.
   */
  lemma PricesEqual(t: Text, u: Text)
    requires Decimal(t) && Decimal(u)
    ensures SameNumber(t, u) <==> Whole(t) == Whole(u) && DropZeros(Fraction(t)) == DropZeros(Fraction(u))
  {
    Parts(t);
    Parts(u);
    var f, g := Fraction(t), Fraction(u);
    PaddedValue(t, |g|);
    PaddedValue(u, |f|);
    PaddedEqual(f, g);
    var a, b := f + Zeros(|g|), g + Zeros(|f|);
    DigitsNatValue(Whole(t));
    DigitsNatValue(Whole(u));
    hide *;
    if SameNumber(t, u) {
      SameScaled(t, u);
      Quotients(Pow10(|f| + |g|), NatValue(Whole(t)), NatValue(a), NatValue(Whole(u)), NatValue(b));
      NatValueInjective(a, b);
    }
    if Whole(t) == Whole(u) && DropZeros(f) == DropZeros(g) {
      ScaledSame(t, u);
    }
  }

  lemma SameScaled(t: Text, u: Text)
    requires Decimal(t) && Decimal(u) && SameNumber(t, u)
    ensures Scaled(t) * Pow10(|Fraction(u)|) == Scaled(u) * Pow10(|Fraction(t)|)
  {
  }

  lemma ScaledSame(t: Text, u: Text)
    requires Decimal(t) && Decimal(u) && Scaled(t) * Pow10(|Fraction(u)|) == Scaled(u) * Pow10(|Fraction(t)|)
    ensures SameNumber(t, u)
  {
  }

  /** An accepted price of at most 64 characters is below 10^64. */
  lemma PriceBelow(t: Text)
    requires Decimal(t) && |t| <= 64
    ensures Scaled(t) < Pow10(64) * Pow10(|Fraction(t)|)
  {
    PartsLength(t);
    var w, f := Whole(t), Fraction(t);
    hide *;
    JoinedBelow(w, f);
    PowGrows(|w|, 64);
    MulKeeps(Pow10(|w|), Pow10(64), Pow10(|f|));
  }

  lemma JoinedBelow(w: Text, f: Text)
    requires AllDigits(w + f)
    ensures NatValue(w + f) < Pow10(|w|) * Pow10(|f|)
  {
    hide Pow10, NatValue;
    NatValueBelow(w + f);
    PowSum(|w|, |f|);
  }

  lemma PartsLength(t: Text)
    requires Decimal(t)
    ensures |Whole(t)| + |Fraction(t)| <= |t| && AllDigits(Whole(t) + Fraction(t))
    ensures Scaled(t) == NatValue(Whole(t) + Fraction(t))
  {
    Parts(t);
    hide NatValue, DigitRun;
  }

  lemma MulKeeps(a: nat, b: nat, m: nat)
    requires a <= b
    ensures a * m <= b * m
  {
    if a < b { MulGrows(a, b, m); }
  }

  lemma {:induction false} PowGrows(a: nat, b: nat)
    requires a <= b
    ensures Pow10(a) <= Pow10(b)
  {
    if a < b { PowGrows(a, b - 1); }
  }

  /** The number of a price: its whole part, and its fraction digits as so many parts of a power of ten. */
  lemma PriceNumber(t: Text, whole: Text, fraction: Text)
    requires Decimal(t) && t == whole + (if fraction == [] then [] else [Mark('.')] + fraction)
    requires whole != [] && AllDigits(whole) && AllDigits(fraction)
    ensures Whole(t) == whole && Fraction(t) == fraction
    ensures Scaled(t) == Positional(whole) * Pow10(|fraction|) + Positional(fraction)
  {
    Parts(t);
    SameWhole(t, whole, fraction);
    NatValueConcat(whole, fraction);
    NatValuePositional(whole);
    NatValuePositional(fraction);
    hide NatValue, Positional, Pow10, Decimal;
  }

  lemma SameWhole(t: Text, whole: Text, fraction: Text)
    requires Decimal(t) && t == whole + (if fraction == [] then [] else [Mark('.')] + fraction)
    requires whole != [] && AllDigits(whole) && AllDigits(fraction)
    ensures Whole(t) == whole && Fraction(t) == fraction
  {
    var n := WholeLength(t);
    assert forall i :: 0 <= i < n ==> Digit(t[i]) by { Parts(t); assert forall i :: 0 <= i < n ==> t[i] == Whole(t)[i]; }
    assert fraction != [] ==> t[|whole|] == DOT;
    assert forall i :: 0 <= i < |whole| ==> Digit(t[i]) by { assert forall i :: 0 <= i < |whole| ==> t[i] == whole[i]; }
    assert n < |t| ==> t[n] == DOT;
    assert n == |whole|;
  }
}
