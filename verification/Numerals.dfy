/** Number tokens of the JSON grammar (section 6 of RFC 8259) and decimal integers. */
module Numerals {
  import opened Texts

  const ZERO: Code := 0x30
  const MINUS: Code := 0x2D
  const PLUS: Code := 0x2B
  const DOT: Code := 0x2E
  const LOWER_E: Code := 0x65
  const UPPER_E: Code := 0x45

  function DigitCode(d: nat): (c: Code)
    requires d < 10
    ensures Digit(c)
  {
    (0x30 + d) as Code
  }

  function DigitValue(c: Code): (d: nat)
    requires Digit(c)
    ensures d < 10 && DigitCode(d) == c
  {
    c as int - 0x30
  }

  function Digits(n: nat): (t: Text)
    ensures t != [] && forall i :: 0 <= i < |t| ==> Digit(t[i])
    ensures t[0] == ZERO ==> n == 0 && |t| == 1
  {
    if n < 10 then [DigitCode(n)] else Digits(n / 10) + [DigitCode(n % 10)]
  }

  function NatValue(t: Text): nat
    requires forall i :: 0 <= i < |t| ==> Digit(t[i])
  {
    if t == [] then 0 else
    10 * NatValue(t[..|t| - 1]) + DigitValue(t[|t| - 1])
  }

  lemma {:induction false} NatValueDigits(n: nat)
    ensures NatValue(Digits(n)) == n
  {
    if n < 10 {
      assert NatValue(Digits(n)[..0]) == 0;
    } else {
      NatValueDigits(n / 10);
      assert Digits(n)[..|Digits(n)| - 1] == Digits(n / 10);
    }
  }

  function IntText(n: int): Text {
    if n < 0 then [MINUS] + Digits(-n) else Digits(n)
  }

  /** Length of the longest prefix of digits. */
  function DigitRun(t: Text): (n: nat)
    ensures n <= |t| && forall i :: 0 <= i < n ==> Digit(t[i])
    ensures n < |t| ==> !Digit(t[n])
  {
    if t != [] && Digit(t[0]) then 1 + DigitRun(t[1..]) else 0
  }

  /** The three parts of a number token; an absent part has length zero. */
  function IntLength(t: Text): (n: nat)
    ensures n <= |t|
    ensures n > 0 && t[0] == MINUS ==> n > 1
  {
    var sign := if t != [] && t[0] == MINUS then 1 else 0;
    var u := t[sign..];
    if u != [] && u[0] == ZERO then sign + 1
    else if DigitRun(u) > 0 then sign + DigitRun(u)
    else 0
  }

  function FracLength(t: Text): (n: nat)
    ensures n <= |t|
  {
    if t != [] && t[0] == DOT && DigitRun(t[1..]) > 0 then 1 + DigitRun(t[1..]) else 0
  }

  function ExpLength(t: Text): (n: nat)
    ensures n <= |t|
  {
    if t != [] && (t[0] == LOWER_E || t[0] == UPPER_E) then
      var mark := if |t| > 1 && (t[1] == PLUS || t[1] == MINUS) then 2 else 1;
      if DigitRun(t[mark..]) > 0 then mark + DigitRun(t[mark..]) else 0
    else 0
  }

  function NumberLength(t: Text): (n: nat)
    ensures IntLength(t) <= n <= |t|
    ensures n > 0 ==> IntLength(t) > 0
  {
    var i := IntLength(t);
    if i == 0 then 0 else
    var f := FracLength(t[i..]);
    i + f + ExpLength(t[i + f..])
  }

  /** Every character of a number token is a digit, sign, point or exponent mark. */
  predicate NumberChar(c: Code) {
    Digit(c) || c == MINUS || c == PLUS || c == DOT || c == LOWER_E || c == UPPER_E
  }

  lemma IntChars(t: Text)
    ensures forall k :: 0 <= k < IntLength(t) ==> NumberChar(t[k])
  {
    var sign := if t != [] && t[0] == MINUS then 1 else 0;
    forall k | 0 <= k < IntLength(t) ensures NumberChar(t[k]) {
      assert k >= sign ==> t[k] == t[sign..][k - sign];
    }
  }

  lemma FracChars(t: Text)
    ensures forall k :: 0 <= k < FracLength(t) ==> NumberChar(t[k])
  {
    forall k | 0 <= k < FracLength(t) ensures NumberChar(t[k]) {
      assert k > 0 ==> t[k] == t[1..][k - 1];
    }
  }

  lemma ExpChars(t: Text)
    ensures forall k :: 0 <= k < ExpLength(t) ==> NumberChar(t[k])
  {
    var mark := if |t| > 1 && (t[1] == PLUS || t[1] == MINUS) then 2 else 1;
    forall k | 0 <= k < ExpLength(t) ensures NumberChar(t[k]) {
      assert k >= mark ==> t[k] == t[mark..][k - mark];
    }
  }

  lemma NumberChars(t: Text)
    ensures forall k :: 0 <= k < NumberLength(t) ==> NumberChar(t[k])
  {
    hide IntLength, FracLength, ExpLength, NumberChar, DigitRun;
    if NumberLength(t) > 0 {
      var i := IntLength(t);
      var f := FracLength(t[i..]);
      IntChars(t);
      FracChars(t[i..]);
      ExpChars(t[i + f..]);
      forall k | 0 <= k < NumberLength(t) ensures NumberChar(t[k]) {
        if i <= k < i + f {
          assert t[k] == t[i..][k - i];
        } else if i + f <= k {
          assert t[k] == t[i + f..][k - i - f];
        }
      }
    }
  }

  function IntValue(t: Text): int
    requires IntLength(t) == |t| > 0
  {
    if t[0] == MINUS then
      assert t[1..][0] == ZERO || DigitRun(t[1..]) > 0;
      var magnitude: int := NatValue(t[1..]);
      -magnitude
    else NatValue(t)
  }

  lemma {:induction false} DigitRunConcat(a: Text, b: Text)
    ensures DigitRun(a + b) == if DigitRun(a) == |a| then |a| + DigitRun(b) else DigitRun(a)
  {
    if a == [] {
      assert a + b == b;
    } else {
      assert (a + b)[1..] == a[1..] + b;
      DigitRunConcat(a[1..], b);
    }
  }

  /** Text that cannot prolong a number token written before it. */
  predicate Bounded(rest: Text) {
    rest != [] ==> !(Digit(rest[0]) || rest[0] == DOT || rest[0] == LOWER_E || rest[0] == UPPER_E)
  }

  lemma DropConcat(a: Text, b: Text, k: nat)
    requires k <= |a|
    ensures (a + b)[k..] == a[k..] + b
  {
  }

  lemma IntLengthConcat(a: Text, rest: Text)
    requires IntLength(a) > 0 && Bounded(rest)
    ensures IntLength(a + rest) == IntLength(a)
  {
    DigitRunConcat(a, rest);
    if a[0] == MINUS {
      assert (a + rest)[1..] == a[1..] + rest;
      DigitRunConcat(a[1..], rest);
    }
  }

  lemma FracLengthConcat(a: Text, rest: Text)
    requires Bounded(rest)
    ensures FracLength(a + rest) == FracLength(a)
  {
    if a != [] {
      assert (a + rest)[1..] == a[1..] + rest;
      DigitRunConcat(a[1..], rest);
    } else {
      assert a + rest == rest;
    }
  }

  lemma ExpLengthConcat(a: Text, rest: Text)
    requires ExpLength(a) == |a| && Bounded(rest)
    ensures ExpLength(a + rest) == |a|
  {
    if a != [] {
      var mark := if |a| > 1 && (a[1] == PLUS || a[1] == MINUS) then 2 else 1;
      assert (a + rest)[mark..] == a[mark..] + rest;
      DigitRunConcat(a[mark..], rest);
    } else {
      assert a + rest == rest;
    }
  }

  lemma NumberLengthConcat(a: Text, rest: Text)
    requires NumberLength(a) == |a| > 0 && Bounded(rest)
    ensures NumberLength(a + rest) == |a| && IntLength(a + rest) == IntLength(a)
  {
    hide IntLength, FracLength, ExpLength, DigitRun, Bounded;
    var i := IntLength(a);
    var f := FracLength(a[i..]);
    IntLengthConcat(a, rest);
    DropConcat(a, rest, i);
    FracLengthConcat(a[i..], rest);
    DropConcat(a, rest, i + f);
    ExpLengthConcat(a[i + f..], rest);
  }

  lemma DigitsRun(t: Text)
    requires forall i :: 0 <= i < |t| ==> Digit(t[i])
    ensures DigitRun(t) == |t|
  {
  }

  /** A rendered integer is one maximal token and has the value it was rendered from. */
  lemma IntTextToken(n: int)
    ensures NumberLength(IntText(n)) == IntLength(IntText(n)) == |IntText(n)| > 0
    ensures IntValue(IntText(n)) == n
  {
    var d := Digits(if n < 0 then -n else n);
    DigitsRun(d);
    NatValueDigits(if n < 0 then -n else n);
    assert n < 0 ==> IntText(n)[1..] == d;
    var t := IntText(n);
    assert IntLength(t) == |t|;
    assert t[|t|..] == [];
  }

  predicate AllDigits(t: Text) {
    forall i :: 0 <= i < |t| ==> Digit(t[i])
  }

  /** Digits without a leading zero. */
  ghost predicate WholeText(t: Text) {
    t == [ZERO] || (t != [] && 0x31 <= t[0] <= 0x39 && AllDigits(t))
  }

  lemma {:induction false} DigitsNatValue(a: Text)
    requires WholeText(a) && AllDigits(a)
    ensures Digits(NatValue(a)) == a
    ensures a != [ZERO] ==> NatValue(a) > 0
    decreases |a|
  {
    var n := |a| - 1;
    assert a == a[..n] + [a[n]];
    if n == 0 {
      assert NatValue(a[..0]) == 0;
    } else {
      assert a[..n][0] == a[0];
      DigitsNatValue(a[..n]);
    }
  }

  // ----- decimal places

  function Pow10(n: nat): (p: nat)
    ensures p > 0
  {
    if n == 0 then 1 else 10 * Pow10(n - 1)
  }

  /** The sum of the digits, each times the power of ten of its place. */
  function Positional(t: Text): nat
    requires forall i :: 0 <= i < |t| ==> 0x30 <= t[i] <= 0x39
  {
    if t == [] then 0 else (t[0] as int - 0x30) * Pow10(|t| - 1) + Positional(t[1..])
  }

  lemma TenTimes(d: nat, n: nat)
    ensures d * Pow10(n + 1) == 10 * (d * Pow10(n))
  {
  }

  lemma {:induction false} PositionalLast(t: Text)
    requires t != [] && forall i :: 0 <= i < |t| ==> 0x30 <= t[i] <= 0x39
    ensures Positional(t) == 10 * Positional(t[..|t| - 1]) + (t[|t| - 1] as int - 0x30)
  {
    var n := |t| - 1;
    if n == 0 {
      assert t[1..] == [];
    } else {
      PositionalLast(t[1..]);
      assert t[1..][..n - 1] == t[..n][1..];
      TenTimes(t[0] as int - 0x30, n - 1);
      hide Pow10;
    }
  }

  /** Reading digits one after the other is summing them by place. */
  lemma {:induction false} NatValuePositional(t: Text)
    requires AllDigits(t)
    ensures NatValue(t) == Positional(t)
  {
    if t != [] {
      PositionalLast(t);
      NatValuePositional(t[..|t| - 1]);
    }
  }

  /** A rendered integer: a hyphen where negative, and the digits of its magnitude without a leading zero. */
  lemma IntTextSpelled(n: int)
    ensures var d := if n < 0 then IntText(n)[1..] else IntText(n);
            && (n < 0 ==> IntText(n) != [] && IntText(n)[0] == 0x2D)
            && (forall i :: 0 <= i < |d| ==> 0x30 <= d[i] <= 0x39)
            && Positional(d) == (if n < 0 then -n else n)
            && d != [] && (d[0] == 0x30 ==> n == 0 && d == [0x30])
  {
    var m := if n < 0 then -n else n;
    NatValueDigits(m);
    NatValuePositional(Digits(m));
    assert n < 0 ==> IntText(n)[1..] == Digits(m);
  }
}
