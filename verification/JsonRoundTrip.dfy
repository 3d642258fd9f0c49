/** Decoding undoes rendering, in either layout and before any text that cannot prolong a number. */
module JsonRoundTrip {
  import opened Options
  import opened Texts
  import opened Numerals
  import opened JsonValues
  import opened JsonPrinter
  import opened JsonDecoder

  lemma {:induction false} SkipGap(gap: Text, t: Text)
    requires forall i :: 0 <= i < |gap| ==> Blank(gap[i])
    ensures Skip(gap + t) == Skip(t)
  {
    if gap == [] {
      assert gap + t == t;
    } else {
      assert (gap + t)[1..] == gap[1..] + t;
      SkipGap(gap[1..], t);
    }
  }

  lemma HexDigitRoundTrip(d: Code)
    requires d < 16
    ensures IsHex(HexDigit(d)) && HexValue(HexDigit(d)) == d
  {
  }

  lemma HexSum(u: Code)
    requires u < 0x1_0000
    ensures ((u / 0x1000 * 16 + u / 0x100 % 16) * 16 + u / 16 % 16) * 16 + u % 16 == u
  {
    assert u / 0x100 / 16 == u / 0x1000;
    assert u / 16 / 16 == u / 0x100;
  }

  lemma HexRoundTrip(u: Code, rest: Text)
    requires u < 0x1_0000
    ensures HasHex4(Hex4(u) + rest) && Hex4Value(Hex4(u) + rest) == u
  {
    HexDigitRoundTrip(u / 0x1000);
    HexDigitRoundTrip(u / 0x100 % 16);
    HexDigitRoundTrip(u / 16 % 16);
    HexDigitRoundTrip(u % 16);
    HexSum(u);
  }

  lemma EscapeUnitReads(u: Code, rest: Text)
    requires u < 0x1_0000
    ensures var t := EscapeUnit(u) + rest;
            StartsEscapeU(t) && HasHex4(t[2..]) && Hex4Value(t[2..]) == u && t[6..] == rest
  {
    HexRoundTrip(u, rest);
    assert (EscapeUnit(u) + rest)[2..] == Hex4(u) + rest;
  }

  /** After a lone high surrogate, no low one may follow for it to be read back alone. */
  predicate Separate(c: Code, tail: Text) {
    High(c) && StartsEscapeU(tail) ==> HasHex4(tail[2..]) && !Low(Hex4Value(tail[2..]))
  }

  lemma ReadPair(h: Code, l: Code, tail: Text)
    requires High(h) && Low(l)
    ensures ReadChar(EscapeUnit(h) + (EscapeUnit(l) + tail)) == Some((Join(h, l), 12))
  {
    EscapeUnitReads(h, EscapeUnit(l) + tail);
    EscapeUnitReads(l, tail);
    var t := EscapeUnit(h) + (EscapeUnit(l) + tail);
    assert t[6..] == EscapeUnit(l) + tail;
    assert t[8..] == t[6..][2..];
  }

  lemma ReadUnit(u: Code, tail: Text)
    requires u < 0x1_0000 && Separate(u, tail)
    ensures ReadChar(EscapeUnit(u) + tail) == Some((u, 6))
  {
    EscapeUnitReads(u, tail);
    var t := EscapeUnit(u) + tail;
    hide EscapeUnit, Hex4Value, HasHex4;
    assert |tail| >= 2 ==> t[8..] == t[6..][2..];
  }

  lemma ReadShort(c: Code, tail: Text)
    requires ShortEscape(c) != 0
    ensures ReadChar([BACKSLASH, ShortEscape(c)] + tail) == Some((c, 2))
  {
    hide HasHex4, Hex4Value;
    var t := [BACKSLASH, ShortEscape(c)] + tail;
    assert t[0] == BACKSLASH && t[1] == ShortEscape(c) != LETTER_U;
    assert ShortUnescape(t[1]) == Some(c);
  }

  lemma ReadEscape(c: Code, tail: Text)
    requires Separate(c, tail)
    ensures ReadChar(Escape(c) + tail) == Some((c, |Escape(c)|))
  {
    hide ReadChar, EscapeUnit;
    if ShortEscape(c) != 0 {
      ReadShort(c, tail);
    } else if Printable(c) {
      ReadPlain(c, tail);
    } else if c < 0x1_0000 {
      ReadUnit(c, tail);
    } else {
      ReadPair(HighHalf(c), LowHalf(c), tail);
      assert Escape(c) + tail == EscapeUnit(HighHalf(c)) + (EscapeUnit(LowHalf(c)) + tail);
    }
  }

  lemma ReadPlain(c: Code, tail: Text)
    requires ShortEscape(c) == 0 && Printable(c)
    ensures ReadChar([c] + tail) == Some((c, 1))
  {
  }

  /** How an escaped code point begins: a unicode escape shows its first unit. */
  lemma EscapeHead(c: Code, tail: Text)
    ensures var t := Escape(c) + tail;
            t[0] != QUOTE && (StartsEscapeU(t) ==> HasHex4(t[2..]) && (Low(Hex4Value(t[2..])) ==> Low(c)))
  {
    hide EscapeUnit, HasHex4, Hex4Value;
    var t := Escape(c) + tail;
    if ShortEscape(c) != 0 {
      assert t[1] == ShortEscape(c);
    } else if Printable(c) {
      assert t[0] == c;
    } else if c < 0x1_0000 {
      EscapeUnitReads(c, tail);
    } else {
      EscapeUnitReads(HighHalf(c), EscapeUnit(LowHalf(c)) + tail);
      assert t == EscapeUnit(HighHalf(c)) + (EscapeUnit(LowHalf(c)) + tail);
    }
  }

  lemma RenderCharsHead(s: Text, rest: Text)
    ensures var t := RenderChars(s) + [QUOTE] + rest;
            StartsEscapeU(t) ==> HasHex4(t[2..]) && (Low(Hex4Value(t[2..])) ==> s != [] && Low(s[0]))
  {
    hide EscapeUnit, HasHex4, Hex4Value, Escape;
    if s != [] {
      var tail := RenderChars(s[1..]) + [QUOTE] + rest;
      assert RenderChars(s) + [QUOTE] + rest == Escape(s[0]) + tail;
      EscapeHead(s[0], tail);
    }
  }

  lemma CharsStep(t: Text, c: Code, n: nat, tail: Text, s: Text, rest: Text)
    requires t != [] && t[0] != QUOTE && ReadChar(t) == Some((c, n))
    requires t[n..] == tail && ParseChars(tail) == Ok(s, rest)
    ensures ParseChars(t) == Ok([c] + s, rest)
  {
  }

  lemma {:induction false} CharsRoundTrip(s: Text, rest: Text)
    ensures ParseChars(RenderChars(s) + [QUOTE] + rest) == Ok(Fuse(s), rest)
  {
    var t := RenderChars(s) + [QUOTE] + rest;
    if s == [] {
      assert t[0] == QUOTE && t[1..] == rest;
    } else if |s| > 1 && High(s[0]) && Low(s[1]) {
      CharsRoundTrip(s[2..], rest);
      PairStep(s, rest, RenderChars(s[2..]) + [QUOTE] + rest);
    } else {
      var tail := RenderChars(s[1..]) + [QUOTE] + rest;
      assert t == Escape(s[0]) + tail;
      EscapeHead(s[0], tail);
      RenderCharsHead(s[1..], rest);
      ReadEscape(s[0], tail);
      CharsRoundTrip(s[1..], rest);
      CharsStep(t, s[0], |Escape(s[0])|, tail, Fuse(s[1..]), rest);
    }
  }

  lemma PairStep(s: Text, rest: Text, tail: Text)
    requires |s| > 1 && High(s[0]) && Low(s[1])
    requires tail == RenderChars(s[2..]) + [QUOTE] + rest && ParseChars(tail) == Ok(Fuse(s[2..]), rest)
    ensures ParseChars(RenderChars(s) + [QUOTE] + rest) == Ok(Fuse(s), rest)
  {
    assert s[0] < 0x1_0000 && s[1] < 0x1_0000;
    hide *;
    RenderPair(s);
    Regroup(EscapeUnit(s[0]), EscapeUnit(s[1]), RenderChars(s[2..]), [QUOTE], rest);
    ReadPairStep(s[0], s[1], tail, Fuse(s[2..]), rest);
    FusePair(s);
  }

  lemma Regroup(a: Text, b: Text, c: Text, q: Text, rest: Text)
    ensures (a + (b + c)) + q + rest == a + (b + (c + q + rest))
  {
  }

  lemma RenderPair(s: Text)
    requires |s| > 1 && High(s[0]) && Low(s[1])
    ensures RenderChars(s) == EscapeUnit(s[0]) + (EscapeUnit(s[1]) + RenderChars(s[2..]))
  {
    hide EscapeUnit;
    assert s[1..][1..] == s[2..];
    assert RenderChars(s[1..]) == EscapeUnit(s[1]) + RenderChars(s[2..]);
  }

  lemma FusePair(s: Text)
    requires |s| > 1 && High(s[0]) && Low(s[1])
    ensures Fuse(s) == [Join(s[0], s[1])] + Fuse(s[2..])
  {
  }

  lemma EscapeUnitHead(u: Code, tail: Text)
    requires u < 0x1_0000
    ensures (EscapeUnit(u) + tail)[0] == BACKSLASH != QUOTE
  {
  }

  lemma ReadPairStep(h: Code, l: Code, tail: Text, s: Text, rest: Text)
    requires High(h) && Low(l) && ParseChars(tail) == Ok(s, rest)
    ensures ParseChars(EscapeUnit(h) + (EscapeUnit(l) + tail)) == Ok([Join(h, l)] + s, rest)
  {
    assert h < 0x1_0000 && l < 0x1_0000;
    hide *;
    var t := EscapeUnit(h) + (EscapeUnit(l) + tail);
    EscapeUnitHead(h, EscapeUnit(l) + tail);
    ReadPair(h, l, tail);
    assert t[12..] == tail;
    CharsStep(t, Join(h, l), 12, tail, s, rest);
  }

  lemma DigitsHead(n: nat)
    ensures Digit(Digits(n)[0])
  {
  }

  /** A rendered value starts with a character that is neither blank nor a closing bracket. */
  lemma RenderHead(v: Json, style: Style, level: nat)
    requires Tokens(v)
    ensures var t := Render(v, style, level); t != [] && !Blank(t[0]) && t[0] != RBRACE && t[0] != RBRACKET
  {
    hide RenderItems, RenderFields, Gap, RealToken, Digits;
    match v
    case Int(n) => DigitsHead(if n < 0 then -n else n);
    case Real(token) => RealHead(token);
    case _ =>
  }

  lemma RealHead(token: Text)
    requires RealToken(token)
    ensures token != [] && (token[0] == MINUS || Digit(token[0]) || token[0] == 0x4E || token[0] == 0x49)
  {
    if NumberLength(token) == 0 {
    } else if token[0] != MINUS {
      assert token[0..] == token;
    }
  }

  lemma ConstantRoundTrip(word: Text, rest: Text)
    ensures StartsWith(word + rest, word) && (word + rest)[|word|..] == rest
  {
  }

  /** Only the number branch of the decoder applies to a digit, a sign or a capital. */
  lemma NumberBranch(t: Text)
    requires t != [] && (t[0] == MINUS || Digit(t[0]) || t[0] == 0x4E || t[0] == 0x49)
    ensures ParseValue(t) == ParseNumber(t)
  {
    assert t[0] != QUOTE && t[0] != LBRACE && t[0] != LBRACKET;
    assert NULL[0] != t[0] && TRUE[0] != t[0] && FALSE[0] != t[0];
    WordDiffers(t, NULL);
    WordDiffers(t, TRUE);
    WordDiffers(t, FALSE);
  }

  lemma WordDiffers(t: Text, word: Text)
    requires t != [] && word != [] && t[0] != word[0]
    ensures !StartsWith(t, word)
  {
    assert |word| <= |t| ==> t[..|word|][0] == t[0];
  }

  lemma NumberRoundTrip(token: Text, rest: Text)
    requires NumberLength(token) == |token| > 0 && Bounded(rest)
    ensures IntLength(token) == |token| ==> ParseNumber(token + rest) == Ok(Int(IntValue(token)), rest)
    ensures IntLength(token) < |token| ==> ParseNumber(token + rest) == Ok(Real(token), rest)
  {
    NumberLengthConcat(token, rest);
    ConstantRoundTrip(token, rest);
    assert (token + rest)[..|token|] == token;
  }

  lemma NamedRoundTrip(token: Text, rest: Text)
    requires token in {NAN, INFINITY, NEG_INFINITY}
    ensures ParseNumber(token + rest) == Ok(Real(token), rest)
  {
    ConstantRoundTrip(token, rest);
    NoNumber(token + rest);
    assert (token + rest)[..|token|] == token;
  }

  lemma RealRoundTrip(token: Text, rest: Text)
    requires RealToken(token) && Bounded(rest)
    ensures ParseValue(token + rest) == Ok(Real(token), rest)
  {
    RealHead(token);
    NumberBranch(token + rest);
    if token in {NAN, INFINITY, NEG_INFINITY} {
      NamedRoundTrip(token, rest);
    } else {
      NumberRoundTrip(token, rest);
    }
  }

  lemma NoNumber(t: Text)
    requires t != [] && !Digit(t[0]) && (t[0] == MINUS ==> |t| > 1 && !Digit(t[1]))
    ensures NumberLength(t) == 0
  {
    assert t[0] == MINUS ==> t[1..][0] == t[1];
    assert t[0..] == t;
  }

  lemma IntRoundTrip(n: int, rest: Text)
    requires Bounded(rest)
    ensures ParseValue(IntText(n) + rest) == Ok(Int(n), rest)
  {
    IntTextToken(n);
    DigitsHead(if n < 0 then -n else n);
    assert (IntText(n) + rest)[0] == IntText(n)[0];
    NumberBranch(IntText(n) + rest);
    NumberRoundTrip(IntText(n), rest);
  }

  /** Decoding a rendered value, whatever follows it, gives the value back with surrogate pairs joined. */
  lemma {:induction false} ValueRoundTrip(v: Json, style: Style, level: nat, rest: Text)
    requires Tokens(v) && Bounded(rest)
    ensures ParseValue(Render(v, style, level) + rest) == Ok(FuseAll(v), rest)
    decreases v, 0
  {
    hide ParseValue, ParseItems, ParseFields, RenderItems, RenderFields, Skip;
    match v
    case Null => ConstantRoundTrip(NULL, rest); WordValue(NULL, rest, v);
    case Bool(b) => ConstantRoundTrip(if b then TRUE else FALSE, rest); WordValue(if b then TRUE else FALSE, rest, v);
    case Int(n) => IntRoundTrip(n, rest);
    case Real(token) => RealRoundTrip(token, rest);
    case Str(s) =>
      CharsRoundTrip(s, rest);
      StringValue(s, rest);
    case Arr(items) =>
      if items == [] {
        EmptyValue(LBRACKET, rest);
        assert FuseItems(items) == [];
      } else {
        ItemsRoundTrip(items, style, level + 1, Gap(style, level), rest);
        ItemsHead(items, style, level + 1, Gap(style, level) + ([RBRACKET] + rest));
        ArrayValue(items, style, level, rest);
      }
    case Obj(fields) =>
      if fields == [] {
        EmptyValue(LBRACE, rest);
        assert FuseFields(fields) == [];
      } else {
        FieldsRoundTrip(fields, style, level + 1, Gap(style, level), rest);
        FieldsHead(fields, style, level + 1, Gap(style, level) + ([RBRACE] + rest));
        ObjectValue(fields, style, level, rest);
      }
  }

  lemma WordValue(word: Text, rest: Text, v: Json)
    requires (word, v) in {(NULL, Null), (TRUE, Bool(true)), (FALSE, Bool(false))}
    requires StartsWith(word + rest, word) && (word + rest)[|word|..] == rest
    ensures ParseValue(word + rest) == Ok(v, rest)
  {
    var t := word + rest;
    assert t[0] == word[0];
    if word == TRUE { WordDiffers(t, NULL); }
    if word == FALSE { WordDiffers(t, NULL); WordDiffers(t, TRUE); }
  }

  lemma StringBranch(t: Text)
    requires t != [] && t[0] == QUOTE && ParseChars(t[1..]).Ok?
    ensures ParseValue(t) == Ok(Str(ParseChars(t[1..]).value), ParseChars(t[1..]).rest)
  {
  }

  lemma StringValue(s: Text, rest: Text)
    requires ParseChars(RenderChars(s) + [QUOTE] + rest) == Ok(Fuse(s), rest)
    ensures ParseValue(RenderString(s) + rest) == Ok(Str(Fuse(s)), rest)
  {
    hide ParseValue, ParseChars, RenderChars, Fuse;
    assert (RenderString(s) + rest)[1..] == RenderChars(s) + [QUOTE] + rest;
    StringBranch(RenderString(s) + rest);
  }

  lemma EmptyValue(open: Code, rest: Text)
    requires open == LBRACE || open == LBRACKET
    ensures open == LBRACE ==> ParseValue([LBRACE, RBRACE] + rest) == Ok(Obj([]), rest)
    ensures open == LBRACKET ==> ParseValue([LBRACKET, RBRACKET] + rest) == Ok(Arr([]), rest)
  {
    assert ([LBRACE, RBRACE] + rest)[1..] == [RBRACE] + rest;
    assert ([LBRACKET, RBRACKET] + rest)[1..] == [RBRACKET] + rest;
    assert Skip([RBRACE] + rest) == [RBRACE] + rest && Skip([RBRACKET] + rest) == [RBRACKET] + rest;
    assert ([RBRACE] + rest)[1..] == rest && ([RBRACKET] + rest)[1..] == rest;
  }

  lemma OpenBracket(t: Text, u: Text)
    requires t != [] && u != [] && Skip(t[1..]) == u
    ensures t[0] == LBRACE && u[0] == QUOTE && ParseFields(u).Ok? ==>
              ParseValue(t) == Ok(Obj(ParseFields(u).value), ParseFields(u).rest)
    ensures t[0] == LBRACKET && u[0] != RBRACKET && ParseItems(u).Ok? ==>
              ParseValue(t) == Ok(Arr(ParseItems(u).value), ParseItems(u).rest)
  {
  }

  lemma RenderArr(items: seq<Json>, style: Style, level: nat)
    requires items != []
    ensures Render(Arr(items), style, level) ==
            [LBRACKET] + Gap(style, level + 1) + RenderItems(items, style, level + 1) + Gap(style, level) + [RBRACKET]
  {
    hide RenderItems, Gap;
  }

  lemma ArrayValue(items: seq<Json>, style: Style, level: nat, rest: Text)
    requires items != []
    requires var u := RenderItems(items, style, level + 1) + (Gap(style, level) + ([RBRACKET] + rest));
             Skip(u) == u && u != [] && u[0] != RBRACKET && ParseItems(u) == Ok(FuseItems(items), rest)
    ensures ParseValue(Render(Arr(items), style, level) + rest) == Ok(Arr(FuseItems(items)), rest)
  {
    hide *;
    RenderArr(items, style, level);
    var t := Render(Arr(items), style, level) + rest;
    var u := RenderItems(items, style, level + 1) + (Gap(style, level) + ([RBRACKET] + rest));
    assert t[0] == LBRACKET && t[1..] == Gap(style, level + 1) + u;
    SkipGap(Gap(style, level + 1), u);
    OpenBracket(t, u);
  }

  lemma RenderObj(fields: Fields, style: Style, level: nat)
    requires fields != []
    ensures Render(Obj(fields), style, level) ==
            [LBRACE] + Gap(style, level + 1) + RenderFields(fields, style, level + 1) + Gap(style, level) + [RBRACE]
  {
    hide RenderFields, Gap;
  }

  lemma ObjectValue(fields: Fields, style: Style, level: nat, rest: Text)
    requires fields != []
    requires var u := RenderFields(fields, style, level + 1) + (Gap(style, level) + ([RBRACE] + rest));
             Skip(u) == u && u != [] && u[0] == QUOTE && ParseFields(u) == Ok(FuseFields(fields), rest)
    ensures ParseValue(Render(Obj(fields), style, level) + rest) == Ok(Obj(FuseFields(fields)), rest)
  {
    hide *;
    RenderObj(fields, style, level);
    var t := Render(Obj(fields), style, level) + rest;
    var u := RenderFields(fields, style, level + 1) + (Gap(style, level) + ([RBRACE] + rest));
    assert t[0] == LBRACE && t[1..] == Gap(style, level + 1) + u;
    SkipGap(Gap(style, level + 1), u);
    OpenBracket(t, u);
  }

  /** How the item and member loops of the decoder end and go on. */
  lemma ItemsEnd(t: Text, v: Json, after: Text, rest: Text)
    requires ParseValue(t) == Ok(v, after) && Skip(after) == [RBRACKET] + rest
    ensures ParseItems(t) == Ok([v], rest)
  {
  }

  lemma ItemsGoOn(t: Text, v: Json, after: Text, more: Text, items: seq<Json>, rest: Text)
    requires ParseValue(t) == Ok(v, after) && Skip(after) == [COMMA] + more
    requires ParseItems(Skip(more)) == Ok(items, rest)
    ensures ParseItems(t) == Ok([v] + items, rest)
  {
    assert ([COMMA] + more)[1..] == more;
  }

  /** The decoder reads one member at t and stops before after. */
  ghost predicate ReadsMember(t: Text, key: Text, v: Json, after: Text) {
    t != [] && t[0] == QUOTE &&
    var k := ParseChars(t[1..]);
    k.Ok? && k.value == key &&
    var colon := Skip(k.rest);
    colon != [] && colon[0] == COLON && ParseValue(Skip(colon[1..])) == Ok(v, after)
  }

  lemma FieldsEnd(t: Text, key: Text, v: Json, after: Text, rest: Text)
    requires ReadsMember(t, key, v, after) && Skip(after) == [RBRACE] + rest
    ensures ParseFields(t) == Ok([Field(key, v)], rest)
  {
  }

  lemma FieldsGoOn(t: Text, key: Text, v: Json, after: Text, more: Text, fields: Fields, rest: Text)
    requires ReadsMember(t, key, v, after) && Skip(after) == [COMMA] + more
    requires ParseFields(Skip(more)) == Ok(fields, rest)
    ensures ParseFields(t) == Ok([Field(key, v)] + fields, rest)
  {
    assert ([COMMA] + more)[1..] == more;
  }

  lemma SkipSolid(c: Code, rest: Text)
    requires !Blank(c)
    ensures Skip([c] + rest) == [c] + rest
  {
  }

  lemma SkipComma(more: Text)
    ensures Skip([COMMA] + more) == [COMMA] + more
  {
    SkipSolid(COMMA, more);
  }

  lemma BoundedTail(gap: Text, c: Code, rest: Text)
    requires forall i :: 0 <= i < |gap| ==> Blank(gap[i])
    requires c == RBRACE || c == RBRACKET || c == COMMA
    ensures Bounded(gap + ([c] + rest)) && Skip(gap + ([c] + rest)) == [c] + rest
  {
    SkipGap(gap, [c] + rest);
    SkipSolid(c, rest);
  }

  lemma RenderItemsCons(items: seq<Json>, style: Style, level: nat, tail: Text)
    requires |items| > 1
    ensures RenderItems(items, style, level) + tail ==
            Render(items[0], style, level) +
            ([COMMA] + (Gap(style, level) + (RenderItems(items[1..], style, level) + tail)))
  {
    hide Render, Gap;
  }

  lemma FuseItemsCons(items: seq<Json>)
    requires items != []
    ensures FuseItems(items) == [FuseAll(items[0])] + FuseItems(items[1..])
  {
    hide FuseItems, FuseAll;
  }

  lemma LastItem(v: Json, style: Style, level: nat, gap: Text, rest: Text)
    requires forall i :: 0 <= i < |gap| ==> Blank(gap[i])
    requires ParseValue(Render(v, style, level) + (gap + ([RBRACKET] + rest))) == Ok(FuseAll(v), gap + ([RBRACKET] + rest))
    ensures ParseItems(RenderItems([v], style, level) + (gap + ([RBRACKET] + rest))) == Ok(FuseItems([v]), rest)
  {
    var tail := gap + ([RBRACKET] + rest);
    assert RenderItems([v], style, level) == Render(v, style, level);
    assert FuseItems([v]) == [FuseAll(v)];
    hide *;
    BoundedTail(gap, RBRACKET, rest);
    ItemsEnd(Render(v, style, level) + tail, FuseAll(v), tail, rest);
  }

  lemma NextItem(items: seq<Json>, style: Style, level: nat, tail: Text, rest: Text)
    requires |items| > 1 && Tokens(items[1])
    requires var others := RenderItems(items[1..], style, level) + tail;
             && ParseItems(others) == Ok(FuseItems(items[1..]), rest)
             && var more := [COMMA] + (Gap(style, level) + others);
             ParseValue(Render(items[0], style, level) + more) == Ok(FuseAll(items[0]), more)
    ensures ParseItems(RenderItems(items, style, level) + tail) == Ok(FuseItems(items), rest)
  {
    hide *;
    var others := RenderItems(items[1..], style, level) + tail;
    var more := Gap(style, level) + others;
    RenderItemsCons(items, style, level, tail);
    FuseItemsCons(items);
    SkipComma(more);
    SkipGap(Gap(style, level), others);
    ItemsHead(items[1..], style, level, tail);
    ItemsGoOn(RenderItems(items, style, level) + tail, FuseAll(items[0]), [COMMA] + more, more, FuseItems(items[1..]), rest);
  }

  lemma {:induction false} ItemsRoundTrip(items: seq<Json>, style: Style, level: nat, gap: Text, rest: Text)
    requires items != [] && forall i :: 0 <= i < |items| ==> Tokens(items[i])
    requires forall i :: 0 <= i < |gap| ==> Blank(gap[i])
    ensures ParseItems(RenderItems(items, style, level) + (gap + ([RBRACKET] + rest))) == Ok(FuseItems(items), rest)
    decreases items, 1
  {
    hide *;
    var tail := gap + ([RBRACKET] + rest);
    BoundedTail(gap, RBRACKET, rest);
    if |items| == 1 {
      ValueRoundTrip(items[0], style, level, tail);
      LastItem(items[0], style, level, gap, rest);
      assert items == [items[0]];
    } else {
      BoundedComma(Gap(style, level) + (RenderItems(items[1..], style, level) + tail));
      ValueRoundTrip(items[0], style, level, [COMMA] + (Gap(style, level) + (RenderItems(items[1..], style, level) + tail)));
      ItemsRoundTrip(items[1..], style, level, gap, rest);
      NextItem(items, style, level, tail, rest);
    }
  }

  lemma BoundedComma(more: Text)
    ensures Bounded([COMMA] + more)
  {
  }

  lemma ItemsHead(items: seq<Json>, style: Style, level: nat, tail: Text)
    requires items != [] && Tokens(items[0])
    ensures var t := RenderItems(items, style, level) + tail; Skip(t) == t && t != [] && t[0] != RBRACKET
  {
    RenderHead(items[0], style, level);
    assert RenderItems(items, style, level)[0] == Render(items[0], style, level)[0];
  }

  lemma LastField(f: Field, style: Style, level: nat, gap: Text, rest: Text)
    requires forall i :: 0 <= i < |gap| ==> Blank(gap[i])
    requires Tokens(f.value)
    requires ParseValue(Render(f.value, style, level) + (gap + ([RBRACE] + rest))) == Ok(FuseAll(f.value), gap + ([RBRACE] + rest))
    ensures ParseFields(RenderFields([f], style, level) + (gap + ([RBRACE] + rest))) == Ok(FuseFields([f]), rest)
  {
    var tail := gap + ([RBRACE] + rest);
    assert RenderFields([f], style, level) == RenderString(f.key) + ColonText(style) + Render(f.value, style, level);
    assert FuseFields([f]) == [Field(Fuse(f.key), FuseAll(f.value))];
    hide *;
    BoundedTail(gap, RBRACE, rest);
    MemberRoundTrip(f, style, level, tail);
    FieldsEnd(RenderFields([f], style, level) + tail, Fuse(f.key), FuseAll(f.value), tail, rest);
  }

  lemma NextField(fields: Fields, style: Style, level: nat, tail: Text, rest: Text)
    requires |fields| > 1 && Tokens(fields[0].value)
    requires var others := RenderFields(fields[1..], style, level) + tail;
             && ParseFields(others) == Ok(FuseFields(fields[1..]), rest)
             && var more := [COMMA] + (Gap(style, level) + others);
             ParseValue(Render(fields[0].value, style, level) + more) == Ok(FuseAll(fields[0].value), more)
    ensures ParseFields(RenderFields(fields, style, level) + tail) == Ok(FuseFields(fields), rest)
  {
    hide *;
    var f := fields[0];
    var others := RenderFields(fields[1..], style, level) + tail;
    var more := Gap(style, level) + others;
    RenderFieldsCons(fields, style, level, tail);
    FuseFieldsCons(fields);
    SkipComma(more);
    SkipGap(Gap(style, level), others);
    FieldsHead(fields[1..], style, level, tail);
    MemberRoundTrip(f, style, level, [COMMA] + more);
    FieldsGoOn(RenderFields(fields, style, level) + tail, Fuse(f.key), FuseAll(f.value), [COMMA] + more, more, FuseFields(fields[1..]), rest);
  }

  lemma {:induction false} FieldsRoundTrip(fields: Fields, style: Style, level: nat, gap: Text, rest: Text)
    requires fields != [] && forall i :: 0 <= i < |fields| ==> Tokens(fields[i].value)
    requires forall i :: 0 <= i < |gap| ==> Blank(gap[i])
    ensures ParseFields(RenderFields(fields, style, level) + (gap + ([RBRACE] + rest))) == Ok(FuseFields(fields), rest)
    decreases fields, 1
  {
    hide *;
    var tail := gap + ([RBRACE] + rest);
    BoundedTail(gap, RBRACE, rest);
    if |fields| == 1 {
      ValueRoundTrip(fields[0].value, style, level, tail);
      LastField(fields[0], style, level, gap, rest);
      assert fields == [fields[0]];
    } else {
      BoundedComma(Gap(style, level) + (RenderFields(fields[1..], style, level) + tail));
      ValueRoundTrip(fields[0].value, style, level, [COMMA] + (Gap(style, level) + (RenderFields(fields[1..], style, level) + tail)));
      FieldsRoundTrip(fields[1..], style, level, gap, rest);
      NextField(fields, style, level, tail, rest);
    }
  }

  lemma RenderFieldsCons(fields: Fields, style: Style, level: nat, tail: Text)
    requires |fields| > 1
    ensures RenderFields(fields, style, level) + tail ==
            RenderString(fields[0].key) + ColonText(style) + Render(fields[0].value, style, level) +
            ([COMMA] + (Gap(style, level) + (RenderFields(fields[1..], style, level) + tail)))
  {
    hide Render, RenderString, Gap, ColonText;
  }

  lemma FuseFieldsCons(fields: Fields)
    requires fields != []
    ensures FuseFields(fields) == [Field(Fuse(fields[0].key), FuseAll(fields[0].value))] + FuseFields(fields[1..])
  {
    hide FuseFields, FuseAll, Fuse;
  }

  lemma FieldsHead(fields: Fields, style: Style, level: nat, tail: Text)
    requires fields != []
    ensures var t := RenderFields(fields, style, level) + tail; Skip(t) == t && t != [] && t[0] == QUOTE
  {
    assert RenderFields(fields, style, level)[0] == QUOTE;
  }

  lemma MemberRoundTrip(f: Field, style: Style, level: nat, more: Text)
    requires Tokens(f.value)
    requires ParseValue(Render(f.value, style, level) + more) == Ok(FuseAll(f.value), more)
    ensures ReadsMember(RenderString(f.key) + ColonText(style) + Render(f.value, style, level) + more,
                        Fuse(f.key), FuseAll(f.value), more)
  {
    hide ParseValue, ParseChars, Render, RenderChars, FuseAll, Fuse, Tokens;
    var value := Render(f.value, style, level) + more;
    var after := ColonText(style) + value;
    var t := RenderString(f.key) + ColonText(style) + Render(f.value, style, level) + more;
    assert t[1..] == RenderChars(f.key) + [QUOTE] + after;
    CharsRoundTrip(f.key, after);
    RenderHead(f.value, style, level);
    ColonSkips(style, value);
  }

  lemma ColonSkips(style: Style, value: Text)
    requires value != [] && !Blank(value[0])
    ensures var t := ColonText(style) + value; Skip(t) == t && t[0] == COLON && Skip(t[1..]) == value
  {
    var space := if style == Compact then [] else [SPACE];
    assert (ColonText(style) + value)[1..] == space + value;
    SkipGap(space, value);
  }
}
