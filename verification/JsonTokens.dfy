/** String literals and numbers: the decoder reads exactly those of the concrete syntax, as what they mean. */
module JsonTokens {
  import opened Options
  import opened Texts
  import opened Numerals
  import opened JsonValues
  import opened JsonPrinter
  import opened JsonDecoder
  import opened JsonRoundTrip
  import opened JsonSyntax

  // ----- string literals

  lemma HexLetters(t: Text)
    requires |t| >= 4
    ensures HasHex4(t) <==> FourHex(t[..4])
    ensures HasHex4(t) ==> Hex4Value(t) as int == HexNumber(t[..4])
  {
    if HasHex4(t) {
      assert forall c: Code :: IsHex(c) ==> HexLetter(c) && HexValue(c) as int == HexPlace(c);
    } else {
      assert forall c: Code :: HexLetter(c) ==> IsHex(c);
    }
  }

  /** What an escape of four hexadecimal digits looks like to the decoder. */
  lemma HexAt(digits: Text, tail: Text)
    requires FourHex(digits)
    ensures var t := [Mark('\\'), Mark('u')] + digits + tail;
            StartsEscapeU(t) && HasHex4(t[2..]) && Hex4Value(t[2..]) as int == HexNumber(digits) && t[6..] == tail
  {
    var t := [Mark('\\'), Mark('u')] + digits + tail;
    assert t[2..][..4] == digits;
    HexLetters(t[2..]);
  }

  /** The decoder reads one unit, whatever does not complete a pair with it. */
  lemma UnitReads(u: Unit, tail: Text)
    requires UnitOk(u)
    requires u.Hex? && High(HexNumber(u.digits) as Code) && StartsEscapeU(tail) ==>
               HasHex4(tail[2..]) && !Low(Hex4Value(tail[2..]))
    ensures ReadChar(UnitText(u) + tail) == Some((UnitCode(u), |UnitText(u)|))
    ensures (UnitText(u) + tail)[|UnitText(u)|..] == tail && UnitText(u) != [] && UnitText(u)[0] != QUOTE
  {
    match u
    case Plain(c) =>
    case Short(letter) => assert (UnitText(u) + tail)[1] == Mark(letter);
    case Hex(digits) => HexReads(digits, tail);
    case Pair(high, low) => PairReads(high, low, tail);
  }

  lemma HexReads(digits: Text, tail: Text)
    requires FourHex(digits)
    requires High(HexNumber(digits) as Code) && StartsEscapeU(tail) ==> HasHex4(tail[2..]) && !Low(Hex4Value(tail[2..]))
    ensures ReadChar([Mark('\\'), Mark('u')] + digits + tail) == Some((HexNumber(digits) as Code, 6))
  {
    var t := [Mark('\\'), Mark('u')] + digits + tail;
    HexAt(digits, tail);
    if |tail| >= 2 {
      assert t[8..] == tail[2..];
    }
    hide HexNumber, FourHex, HasHex4, Hex4Value, ReadChar;
    UnitHex(t, HexNumber(digits) as Code);
  }

  lemma PairReads(high: Text, low: Text, tail: Text)
    requires UnitOk(Pair(high, low))
    ensures ReadChar([Mark('\\'), Mark('u')] + high + [Mark('\\'), Mark('u')] + low + tail)
            == Some((UnitCode(Pair(high, low)), 12))
  {
    PairCode(high, low);
    hide HexNumber, FourHex, HasHex4, Hex4Value, ReadChar, StartsEscapeU, UnitCode, Join, Low, High;
    var t := [Mark('\\'), Mark('u')] + high + [Mark('\\'), Mark('u')] + low + tail;
    var rest := [Mark('\\'), Mark('u')] + low + tail;
    assert t == [Mark('\\'), Mark('u')] + high + rest;
    HexAt(high, rest);
    HexAt(low, tail);
    DropTwice(t, rest);
    UnitPair(t, HexNumber(high) as Code, HexNumber(low) as Code);
  }

  lemma DropTwice(t: Text, rest: Text)
    requires |t| >= 8 && t[6..] == rest
    ensures t[8..] == rest[2..]
  {
  }

  lemma PairCode(high: Text, low: Text)
    requires UnitOk(Pair(high, low))
    ensures High(HexNumber(high) as Code) && Low(HexNumber(low) as Code)
    ensures UnitCode(Pair(high, low)) == Join(HexNumber(high) as Code, HexNumber(low) as Code)
  {
    hide HexNumber, FourHex;
  }

  lemma UnitHex(t: Text, u: Code)
    requires StartsEscapeU(t) && HasHex4(t[2..]) && Hex4Value(t[2..]) == u && |t| >= 6
    requires High(u) && StartsEscapeU(t[6..]) ==> HasHex4(t[8..]) && !Low(Hex4Value(t[8..]))
    ensures ReadChar(t) == Some((u, 6))
  {
    hide HasHex4, Hex4Value;
    assert LETTER_U != QUOTE && BACKSLASH >= 0x20 && BACKSLASH != QUOTE;
  }

  lemma UnitPair(t: Text, h: Code, l: Code)
    requires StartsEscapeU(t) && HasHex4(t[2..]) && Hex4Value(t[2..]) == h && |t| >= 12
    requires StartsEscapeU(t[6..]) && HasHex4(t[8..]) && Hex4Value(t[8..]) == l && High(h) && Low(l)
    ensures ReadChar(t) == Some((Join(h, l), 12))
  {
    hide HasHex4, Hex4Value;
    assert BACKSLASH >= 0x20 && BACKSLASH != QUOTE;
  }

  lemma UnitsTail(us: seq<Unit>, rest: Text)
    requires us != []
    ensures UnitsText(us) + rest == UnitText(us[0]) + (UnitsText(us[1..]) + rest)
  {
  }

  /** Where a unit looks like an escape of four digits it is one, or begins with one. */
  lemma EscapeAhead(v: Unit, more: Text)
    requires UnitOk(v) && StartsEscapeU(UnitText(v) + more)
    ensures var t := UnitText(v) + more;
            HasHex4(t[2..]) && (Low(Hex4Value(t[2..])) ==> v.Hex? && Low(HexNumber(v.digits) as Code))
  {
    var t := UnitText(v) + more;
    match v
    case Plain(c) =>
    case Short(letter) =>
    case Hex(digits) =>
      hide HexNumber, FourHex, HasHex4, Hex4Value;
      HexAt(digits, more);
    case Pair(high, low) =>
      var again := [Mark('\\'), Mark('u')] + low + more;
      assert t == [Mark('\\'), Mark('u')] + high + again;
      hide HexNumber, FourHex, HasHex4, Hex4Value;
      HexAt(high, again);
  }

  /** What follows an escaped high surrogate in a well-formed literal completes no pair with it. */
  lemma NoPairAhead(us: seq<Unit>, rest: Text)
    requires UnitsOk(us) && us != [] && us[0].Hex? && High(HexNumber(us[0].digits) as Code)
    ensures var tail := UnitsText(us[1..]) + ([Mark('"')] + rest);
            StartsEscapeU(tail) ==> HasHex4(tail[2..]) && !Low(Hex4Value(tail[2..]))
  {
    var after := [Mark('"')] + rest;
    var tail := UnitsText(us[1..]) + after;
    if |us| > 1 {
      UnitsTail(us[1..], after);
      assert UnitsOk(us[1..]) && UnitOk(us[1]);
      hide HexNumber, HasHex4, Hex4Value, UnitsText;
      if StartsEscapeU(tail) {
        EscapeAhead(us[1], UnitsText(us[1..][1..]) + after);
      }
    } else {
      assert UnitsText(us[1..]) == [];
      assert tail == after;
    }
  }

  lemma {:induction false} CharsRead(us: seq<Unit>, rest: Text)
    requires UnitsOk(us)
    ensures ParseChars(UnitsText(us) + ([Mark('"')] + rest)) == JsonDecoder.Ok(UnitsCodes(us), rest)
  {
    var after := [Mark('"')] + rest;
    if us == [] {
      assert UnitsText(us) + after == after && after[1..] == rest;
    } else {
      var tail := UnitsText(us[1..]) + after;
      CharsRead(us[1..], rest);
      UnitsTail(us, after);
      if us[0].Hex? && High(HexNumber(us[0].digits) as Code) {
        NoPairAhead(us, rest);
      }
      UnitReads(us[0], tail);
      hide ReadChar, UnitText;
      var t := UnitText(us[0]) + tail;
      assert t[0] == UnitText(us[0])[0];
      CharsStep(t, UnitCode(us[0]), |UnitText(us[0])|, tail, UnitsCodes(us[1..]), rest);
    }
  }

  /** The unit the decoder read. */
  lemma UnitRead(t: Text) returns (u: Unit)
    requires ReadChar(t).Some?
    ensures UnitOk(u) && ReadChar(t) == Some((UnitCode(u), |UnitText(u)|)) && t == UnitText(u) + t[|UnitText(u)|..]
    ensures u.Hex? && High(HexNumber(u.digits) as Code) && StartsEscapeU(t[6..]) ==>
              HasHex4(t[8..]) && !Low(Hex4Value(t[8..]))
  {
    if t[0] != BACKSLASH {
      u := Plain(t[0]);
    } else if t[1] != LETTER_U {
      u := ShortRead(t);
    } else if High(Hex4Value(t[2..])) && StartsEscapeU(t[6..]) && Low(Hex4Value(t[8..])) {
      u := PairRead(t);
    } else {
      HexLetters(t[2..]);
      hide HexNumber, FourHex, HasHex4, Hex4Value;
      u := Hex(t[2..][..4]);
      assert t == UnitText(u) + t[6..];
    }
  }

  lemma PairRead(t: Text) returns (u: Unit)
    requires StartsEscapeU(t) && HasHex4(t[2..]) && StartsEscapeU(t[6..]) && HasHex4(t[8..])
    requires High(Hex4Value(t[2..])) && Low(Hex4Value(t[8..]))
    ensures UnitOk(u) && u.Pair? && ReadChar(t) == Some((UnitCode(u), 12)) && |UnitText(u)| == 12 && t == UnitText(u) + t[12..]
  {
    HexLetters(t[2..]);
    HexLetters(t[8..]);
    u := Pair(t[2..][..4], t[8..][..4]);
    PairText(t);
    hide HexNumber, HasHex4, Hex4Value, ReadChar, UnitText, StartsEscapeU, Join, UnitCode;
    UnitPair(t, Hex4Value(t[2..]), Hex4Value(t[8..]));
    PairCode(u.high, u.low);
  }

  lemma PairText(t: Text)
    requires |t| >= 12 && StartsEscapeU(t) && StartsEscapeU(t[6..])
    ensures UnitText(Pair(t[2..][..4], t[8..][..4])) == t[..12]
  {
    assert t[6..][0] == t[6] && t[6..][1] == t[7];
  }

  lemma ShortRead(t: Text) returns (u: Unit)
    requires ReadChar(t).Some? && t[0] == BACKSLASH && t[1] != LETTER_U
    ensures UnitOk(u) && u.Short? && ReadChar(t) == Some((UnitCode(u), 2)) && |UnitText(u)| == 2 && t == UnitText(u) + t[2..]
  {
    u := Short(t[1] as int as char);
  }

  lemma {:induction false} CharsReadBack(t: Text) returns (us: seq<Unit>)
    requires ParseChars(t).Ok?
    ensures UnitsOk(us) && UnitsCodes(us) == ParseChars(t).value
    ensures t == UnitsText(us) + ([Mark('"')] + ParseChars(t).rest)
    decreases |t|
  {
    if t[0] == QUOTE {
      us := [];
      assert UnitsText(us) == [];
    } else {
      var u := UnitRead(t);
      var tail := t[|UnitText(u)|..];
      var more := CharsReadBack(tail);
      us := [u] + more;
      if more != [] && Torn(u, more[0]) {
        UnitsTail(more, [Mark('"')] + ParseChars(tail).rest);
        HexAt(more[0].digits, UnitsText(more[1..]) + ([Mark('"')] + ParseChars(tail).rest));
        assert false;
      }
      assert us[1..] == more;
      UnitsTail(us, [Mark('"')] + ParseChars(t).rest);
    }
  }

  // ----- numbers

  /** Text that does not begin with a decimal digit. */
  predicate NoDigit(t: Text) {
    t == [] || !Digit(t[0])
  }

  lemma RunReach(a: Text, b: Text)
    requires Decimals(a)
    ensures |a| <= DigitRun(a + b) && (NoDigit(b) ==> DigitRun(a + b) == |a|)
  {
    DigitsRun(a);
    DigitRunConcat(a, b);
  }

  lemma IntReach(negative: bool, whole: Text, tail: Text)
    requires WholePart(whole)
    ensures var sign: Text := if negative then [Mark('-')] else [];
            var n := IntLength(sign + whole + tail);
            |sign| + |whole| <= n && (NoDigit(tail) ==> n == |sign| + |whole|)
  {
    var sign: Text := if negative then [Mark('-')] else [];
    var t := sign + whole + tail;
    RunReach(whole, tail);
    assert t[|sign|..] == whole + tail;
    assert (whole + tail)[0] == whole[0];
    hide DigitRun;
    assert negative <==> t[0] == MINUS;
    assert negative ==> t[1..] == whole + tail;
  }

  lemma FractionReach(fraction: Text, tail: Text)
    requires FractionPart(fraction)
    ensures |fraction| <= FracLength(fraction + tail)
    ensures fraction != [] && NoDigit(tail) ==> FracLength(fraction + tail) == |fraction|
    ensures fraction == [] && (tail == [] || tail[0] != DOT) ==> FracLength(fraction + tail) == 0
  {
    if fraction != [] {
      RunReach(fraction[1..], tail);
      assert (fraction + tail)[1..] == fraction[1..] + tail;
    }
  }

  lemma ExponentReach(exponent: Text, tail: Text)
    requires ExponentPart(exponent)
    ensures |exponent| <= ExpLength(exponent + tail)
  {
    var t := exponent + tail;
    if exponent != [] {
      if exponent[1] == Mark('+') || exponent[1] == Mark('-') {
        RunReach(exponent[2..], tail);
        assert t[2..] == exponent[2..] + tail;
      } else {
        RunReach(exponent[1..], tail);
        assert t[1..] == exponent[1..] + tail;
      }
    }
  }

  lemma NumberPieces(negative: bool, whole: Text, fraction: Text, exponent: Text, rest: Text)
    ensures var sign: Text := if negative then [Mark('-')] else [];
            var t := NumberText(negative, whole, fraction, exponent) + rest;
            var i := |sign| + |whole|;
            && |NumberText(negative, whole, fraction, exponent)| == i + |fraction| + |exponent|
            && t == sign + whole + (fraction + (exponent + rest))
            && t[i..] == fraction + (exponent + rest) && t[i + |fraction|..] == exponent + rest
  {
  }

  lemma TailReach(fraction: Text, exponent: Text, rest: Text)
    requires FractionPart(fraction) && ExponentPart(exponent)
    ensures var t := fraction + (exponent + rest);
            && (fraction + exponent != [] ==> NoDigit(t))
            && (exponent != [] ==> FracLength(t) == |fraction| && |exponent| <= ExpLength(exponent + rest))
            && |fraction| <= FracLength(t)
  {
    FractionReach(fraction, exponent + rest);
    ExponentReach(exponent, rest);
    hide FracLength, ExpLength;
    assert exponent != [] ==> NoDigit(exponent + rest) && exponent[0] != DOT && (exponent + rest)[0] == exponent[0];
    assert fraction == [] ==> fraction + (exponent + rest) == exponent + rest;
  }

  /** The decoder's number reaches at least as far as any number of the syntax that stands there. */
  lemma NumberReach(negative: bool, whole: Text, fraction: Text, exponent: Text, rest: Text)
    requires WholePart(whole) && FractionPart(fraction) && ExponentPart(exponent)
    ensures var text := NumberText(negative, whole, fraction, exponent);
            var i := (if negative then 1 else 0) + |whole|;
            && |text| == i + |fraction| + |exponent| <= NumberLength(text + rest) && i <= IntLength(text + rest)
            && (fraction + exponent != [] ==> IntLength(text + rest) == i)
  {
    hide *;
    NumberPieces(negative, whole, fraction, exponent, rest);
    IntReach(negative, whole, fraction + (exponent + rest));
    TailReach(fraction, exponent, rest);
    var t := NumberText(negative, whole, fraction, exponent) + rest;
    var i := IntLength(t);
    WholeNotEmpty(whole);
    PartsLength(t, i, FracLength(t[i..]), ExpLength(t[i + FracLength(t[i..])..]));
  }

  lemma WholeNotEmpty(whole: Text)
    requires WholePart(whole)
    ensures |whole| > 0
  {
  }

  lemma WholeRead(t: Text)
    requires IntLength(t) > 0
    ensures var sign := if t[0] == MINUS then 1 else 0;
            sign < IntLength(t) && WholePart(t[sign..IntLength(t)])
  {
    var sign := if t[0] == MINUS then 1 else 0;
    var u := t[sign..];
    assert t[sign..IntLength(t)] == u[..IntLength(t) - sign];
  }

  lemma FractionRead(t: Text)
    ensures FractionPart(t[..FracLength(t)])
  {
    var n := FracLength(t);
    if n > 0 {
      assert t[..n][1..] == t[1..][..n - 1];
    }
  }

  lemma ExponentRead(t: Text)
    ensures ExponentPart(t[..ExpLength(t)])
  {
    var n := ExpLength(t);
    if n > 0 {
      var mark := if |t| > 1 && (t[1] == PLUS || t[1] == MINUS) then 2 else 1;
      SlicePrefix(t, mark, n);
    }
  }

  lemma WholeValue(t: Text, n: nat)
    requires 0 < IntLength(t) == n <= |t| && IntLength(t[..n]) == n
    ensures var whole := t[(if t[0] == MINUS then 1 else 0)..n];
            Decimals(whole) && IntValue(t[..n]) == if t[0] == MINUS then -(Positional(whole) as int) else Positional(whole)
  {
    WholeRead(t);
    var whole := t[(if t[0] == MINUS then 1 else 0)..n];
    NatValuePositional(whole);
    assert t[0] == MINUS ==> t[..n][1..] == whole;
    assert t[0] != MINUS ==> t[..n] == whole;
    hide NatValue, Positional, IntLength;
  }

  lemma NumberIs(t: Text)
    requires NumberLength(t) > 0
    ensures IntLength(t[..NumberLength(t)]) == IntLength(t)
    ensures var n := NumberLength(t);
            ParseNumber(t) == JsonDecoder.Ok(if n == IntLength(t) then Int(IntValue(t[..n])) else Real(t[..n]), t[n..])
  {
    NumberLengthPrefix(t);
    hide IntLength, NumberLength, IntValue;
  }

  lemma Slices(t: Text, sign: nat, i: nat, f: nat, e: nat)
    requires sign <= i && i + f + e <= |t|
    ensures t[..i + f + e] == t[..sign] + t[sign..i] + t[i..][..f] + t[i + f..][..e]
  {
  }

  lemma PartsOf(t: Text) returns (f: nat, e: nat)
    requires NumberLength(t) > 0
    ensures var i := IntLength(t);
            && NumberLength(t) == i + f + e <= |t| && 0 < i && FractionPart(t[i..][..f]) && ExponentPart(t[i + f..][..e])
  {
    var i := IntLength(t);
    f := FracLength(t[i..]);
    e := ExpLength(t[i + f..]);
    FractionRead(t[i..]);
    ExponentRead(t[i + f..]);
    hide IntLength, FracLength, ExpLength, FractionPart, ExponentPart;
  }

  /** The number the decoder read. */
  lemma NumberRead(t: Text) returns (s: Syntax)
    requires NumberLength(t) > 0
    ensures s.Number? && Wellformed(s) && TextOf(s) == t[..NumberLength(t)]
    ensures ParseNumber(t) == JsonDecoder.Ok(Meaning(s), t[NumberLength(t)..])
  {
    hide *;
    var f, e := PartsOf(t);
    var n, i := NumberLength(t), IntLength(t);
    var sign := if t[0] == MINUS then 1 else 0;
    NumberIs(t);
    WholeRead(t);
    if n == i { WholeValue(t, n); }
    Slices(t, sign, i, f, e);
    var negative, whole, fraction, exponent := t[0] == MINUS, t[sign..i], t[i..][..f], t[i + f..][..e];
    NumberSyntax(negative, whole, fraction, exponent, t[..n], t[..sign]);
    s := Number(negative, whole, fraction, exponent);
  }

  lemma NumberSyntax(negative: bool, whole: Text, fraction: Text, exponent: Text, t: Text, sign: Text)
    requires WholePart(whole) && FractionPart(fraction) && ExponentPart(exponent)
    requires t == sign + whole + fraction + exponent && |sign| == (if negative then 1 else 0) && (negative ==> t[0] == MINUS)
    ensures var s := Number(negative, whole, fraction, exponent);
            && Wellformed(s) && TextOf(s) == t
            && Meaning(s) == if |t| > |sign| + |whole| then Real(t)
                             else Int(if negative then -(Positional(whole) as int) else Positional(whole))
  {
    NumberView(negative, whole, fraction, exponent);
    SignText(negative, t, sign);
    hide *;
  }

  lemma SignText(negative: bool, t: Text, sign: Text)
    requires sign <= t && |sign| == (if negative then 1 else 0) && (negative ==> t[0] == MINUS)
    ensures sign == if negative then [Mark('-')] else []
  {
  }

  lemma NumberView(negative: bool, whole: Text, fraction: Text, exponent: Text)
    ensures var s := Number(negative, whole, fraction, exponent);
            && TextOf(s) == (if negative then [Mark('-')] else []) + whole + fraction + exponent
            && (Wellformed(s) <==> WholePart(whole) && FractionPart(fraction) && ExponentPart(exponent))
            && (Wellformed(s) ==> Decimals(whole))
            && (Wellformed(s) ==> Meaning(s) == if fraction + exponent != [] then Real(TextOf(s))
                                                else Int(if negative then -(Positional(whole) as int) else Positional(whole)))
  {
    hide Positional, FractionPart, ExponentPart;
  }

  /** What the decoder takes is the longest number standing there. */
  lemma NumberLongest(t: Text, s: Syntax)
    requires s.Number? && Wellformed(s) && TextOf(s) == t[..NumberLength(t)]
    ensures Longest(s, t)
  {
    hide NumberLength, TextOf, Wellformed;
    forall n: Syntax | n.Number? && Wellformed(n) && TextOf(n) <= t ensures |TextOf(n)| <= |TextOf(s)| {
      ReachesOver(t, n);
    }
  }

  lemma ReachesOver(t: Text, n: Syntax)
    requires n.Number? && Wellformed(n) && TextOf(n) <= t
    ensures |TextOf(n)| <= NumberLength(t)
  {
    var rest := t[|TextOf(n)|..];
    assert t == TextOf(n) + rest;
    NumberReach(n.negative, n.whole, n.fraction, n.exponent, rest);
    hide NumberLength, IntLength;
  }

  lemma SameLength(s: Syntax, m: Syntax, rest: Text, n: nat)
    requires s.Number? && Wellformed(s) && Longest(s, TextOf(s) + rest)
    requires m.Number? && Wellformed(m) && |TextOf(s)| <= n <= |TextOf(s) + rest| && TextOf(m) == (TextOf(s) + rest)[..n]
    ensures n == |TextOf(s)| && (TextOf(s) + rest)[..n] == TextOf(s) && (TextOf(s) + rest)[n..] == rest
  {
    hide TextOf, Wellformed;
  }

  /** The decoder reads a number that no other one prolongs as what it means. */
  lemma NumberReads(s: Syntax, rest: Text)
    requires s.Number? && Wellformed(s) && Longest(s, TextOf(s) + rest)
    ensures ParseNumber(TextOf(s) + rest) == JsonDecoder.Ok(Meaning(s), rest)
  {
    hide *;
    var t := TextOf(s) + rest;
    NumberView(s.negative, s.whole, s.fraction, s.exponent);
    assert s == Number(s.negative, s.whole, s.fraction, s.exponent);
    NumberTextIs(s.negative, s.whole, s.fraction, s.exponent);
    NumberReach(s.negative, s.whole, s.fraction, s.exponent, rest);
    WholeNotEmpty(s.whole);
    var n := NumberLength(t);
    var m := NumberRead(t);
    SameLength(s, m, rest, n);
    NumberIs(t);
    if s.fraction + s.exponent == [] {
      WholeOnly(s.negative, s.whole, rest, t);
      WholeValue(t, n);
    }
  }

  lemma NumberTextIs(negative: bool, whole: Text, fraction: Text, exponent: Text)
    ensures NumberText(negative, whole, fraction, exponent)
            == (if negative then [Mark('-')] else []) + whole + fraction + exponent
  {
  }

  lemma WholeOnly(negative: bool, whole: Text, rest: Text, t: Text)
    requires WholePart(whole) && t == (if negative then [Mark('-')] else []) + whole + rest
    ensures (t[0] == MINUS <==> negative)
    ensures t[(if t[0] == MINUS then 1 else 0)..(if negative then 1 else 0) + |whole|] == whole
  {
    assert !negative ==> t[0] == whole[0];
  }
}
