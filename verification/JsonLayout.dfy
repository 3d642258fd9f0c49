/** What json.dumps prints, character by character, in its compact and its indented layout. */
module JsonLayout {
  import opened Texts
  import opened Numerals
  import opened Sorting
  import opened JsonValues
  import opened JsonPrinter
  import opened JsonRoundTrip
  import opened JsonSyntax

  // ----- strings

  /** Hexadecimal digits without capitals. */
  predicate Lowercase(t: Text) {
    forall i :: 0 <= i < |t| ==> Mark('0') <= t[i] <= Mark('9') || Mark('a') <= t[i] <= Mark('f')
  }

  /** The code points printed as two characters. */
  predicate HasLetter(c: Code) {
    c == 8 || c == 9 || c == 10 || c == 12 || c == 13 || c == Mark('"') || c == Mark('\\')
  }

  /** The unit a code point is printed as: itself only where it is printable ASCII. */
  ghost predicate PrintedAs(u: Unit, c: Code) {
    && UnitOk(u) && UnitCode(u) == c
    && (u.Short? <==> HasLetter(c))
    && (u.Plain? <==> Mark(' ') <= c <= Mark('~') && !HasLetter(c))
    && (u.Pair? <==> c as int >= 0x1_0000)
    && (u.Hex? ==> Lowercase(u.digits)) && (u.Pair? ==> Lowercase(u.high) && Lowercase(u.low))
  }

  lemma DigitPlace(d: Code)
    requires d < 16
    ensures var c := JsonPrinter.HexDigit(d);
            && HexLetter(c) && HexPlace(c) == d as int
            && (Mark('0') <= c <= Mark('9') || Mark('a') <= c <= Mark('f'))
  {
  }

  lemma HexPlaces(u: int)
    requires 0 <= u < 0x1_0000
    ensures 0x1000 * (u / 0x1000) + 0x100 * (u / 0x100 % 16) + 0x10 * (u / 16 % 16) + u % 16 == u
  {
    assert u / 0x100 / 16 == u / 0x1000;
    assert u / 16 / 16 == u / 0x100;
  }

  lemma Hex4Spelled(u: Code)
    requires u < 0x1_0000
    ensures FourHex(Hex4(u)) && HexNumber(Hex4(u)) == u as int && Lowercase(Hex4(u))
  {
    DigitPlace(u / 0x1000);
    DigitPlace(u / 0x100 % 16);
    DigitPlace(u / 16 % 16);
    DigitPlace(u % 16);
    HexPlaces(u as int);
    hide HexPlace, HexLetter;
  }

  /** Every code point is printed as its unit. */
  lemma EscapeSpelled(c: Code) returns (u: Unit)
    ensures PrintedAs(u, c) && UnitText(u) == Escape(c)
  {
    if HasLetter(c) {
      u := Short(if c == 8 then 'b' else if c == 9 then 't' else if c == 10 then 'n' else if c == 12 then 'f'
                 else if c == 13 then 'r' else if c == Mark('"') then '"' else '\\');
    } else if Mark(' ') <= c <= Mark('~') {
      u := Plain(c);
    } else if c < 0x1_0000 {
      Hex4Spelled(c);
      hide FourHex, HexNumber, Hex4;
      u := Hex(Hex4(c));
    } else {
      u := PairSpelled(c);
    }
  }

  lemma HalvesNumber(c: Code)
    requires c >= 0x1_0000
    ensures 0x1_0000 + (HighHalf(c) as int - 0xD800) * 1024 + (LowHalf(c) as int - 0xDC00) == c as int
  {
  }

  lemma EscapePair(c: Code)
    requires c >= 0x1_0000
    ensures Escape(c) == EscapeUnit(HighHalf(c)) + EscapeUnit(LowHalf(c))
  {
    hide EscapeUnit, HighHalf, LowHalf;
  }

  lemma PairText(h: Code, l: Code)
    requires h < 0x1_0000 && l < 0x1_0000
    ensures UnitText(Pair(Hex4(h), Hex4(l))) == EscapeUnit(h) + EscapeUnit(l)
  {
    assert BACKSLASH == Mark('\\') && LETTER_U == Mark('u');
    hide Hex4;
  }

  lemma PairSpelled(c: Code) returns (u: Unit)
    requires c >= 0x1_0000
    ensures u.Pair? && UnitOk(u) && UnitCode(u) == c && UnitText(u) == Escape(c) && Lowercase(u.high) && Lowercase(u.low)
  {
    var h, l := HighHalf(c), LowHalf(c);
    u := Pair(Hex4(h), Hex4(l));
    Hex4Spelled(h);
    Hex4Spelled(l);
    HalvesNumber(c);
    EscapePair(c);
    PairText(h, l);
    hide FourHex, HexNumber, Hex4, Lowercase, UnitText, Escape, EscapeUnit, HighHalf, LowHalf;
  }

  /** A string is printed in quotes, one unit for each code point. */
  lemma {:induction false} CharsSpelled(s: Text) returns (us: seq<Unit>)
    ensures UnitsText(us) == RenderChars(s) && |us| == |s| && forall i :: 0 <= i < |s| ==> PrintedAs(us[i], s[i])
  {
    us := [];
    if s != [] {
      var u := EscapeSpelled(s[0]);
      var more := CharsSpelled(s[1..]);
      us := [u] + more;
      hide PrintedAs, Escape, UnitText;
      assert us[1..] == more;
    }
  }

  lemma StringSpelled(s: Text) returns (us: seq<Unit>)
    ensures RenderString(s) == [Mark('"')] + UnitsText(us) + [Mark('"')]
    ensures |us| == |s| && forall i :: 0 <= i < |s| ==> PrintedAs(us[i], s[i])
  {
    us := CharsSpelled(s);
    hide PrintedAs, UnitsText, RenderChars;
  }

  // ----- layouts

  function ItemParts(items: seq<Json>, style: Style, level: nat): (p: seq<Text>)
    ensures |p| == |items| && forall i :: 0 <= i < |p| ==> p[i] == Render(items[i], style, level)
  {
    seq(|items|, i requires 0 <= i < |items| => Render(items[i], style, level))
  }

  function FieldParts(fields: Fields, style: Style, level: nat): (p: seq<Text>)
    ensures |p| == |fields|
    ensures forall i :: 0 <= i < |p| ==> p[i] == RenderString(fields[i].key)
                                                 + Ascii(if style == Compact then ":" else ": ")
                                                 + Render(fields[i].value, style, level)
  {
    seq(|fields|, i requires 0 <= i < |fields| =>
      RenderString(fields[i].key) + Ascii(if style == Compact then ":" else ": ") + Render(fields[i].value, style, level))
  }

  /** A line break and two spaces for each level. */
  function Margin(level: nat): (t: Text)
    ensures |t| == 1 + 2 * level && t[0] == Mark('\n') && forall i :: 1 <= i < |t| ==> t[i] == Mark(' ')
  {
    [Mark('\n')] + seq(2 * level, i requires 0 <= i => Mark(' '))
  }

  lemma MarginIs(level: nat)
    ensures Gap(Indented, level) == Margin(level) && Gap(Compact, level) == []
  {
  }

  lemma ScalarsPrinted(v: Json, style: Style, level: nat)
    ensures v == Null ==> Render(v, style, level) == Ascii("null")
    ensures v == Bool(true) ==> Render(v, style, level) == Ascii("true")
    ensures v == Bool(false) ==> Render(v, style, level) == Ascii("false")
    ensures v.Int? ==> Render(v, style, level) == IntText(v.n)
    ensures v.Real? ==> Render(v, style, level) == v.token
    ensures v.Str? ==> Render(v, style, level) == RenderString(v.s)
  {
    hide RenderString, IntText;
    assert Ascii("null") == [Mark('n'), Mark('u'), Mark('l'), Mark('l')];
    assert Ascii("true") == [Mark('t'), Mark('r'), Mark('u'), Mark('e')];
    assert Ascii("false") == [Mark('f'), Mark('a'), Mark('l'), Mark('s'), Mark('e')];
  }

  lemma {:induction false} ItemsJoined(items: seq<Json>, style: Style, level: nat)
    requires items != []
    ensures RenderItems(items, style, level) == JoinedBy([Mark(',')] + Gap(style, level), ItemParts(items, style, level))
  {
    hide Render, Gap;
    if |items| > 1 {
      ItemsJoined(items[1..], style, level);
      assert ItemParts(items, style, level)[1..] == ItemParts(items[1..], style, level);
    }
  }

  lemma ColonIs(style: Style)
    ensures ColonText(style) == Ascii(if style == Compact then ":" else ": ")
  {
    assert Ascii(":") == [Mark(':')] && Ascii(": ") == [Mark(':'), Mark(' ')];
  }

  lemma {:induction false} FieldsJoined(fields: Fields, style: Style, level: nat)
    requires fields != []
    ensures RenderFields(fields, style, level) == JoinedBy([Mark(',')] + Gap(style, level), FieldParts(fields, style, level))
  {
    ColonIs(style);
    hide Render, Gap, RenderString, ColonText, Ascii;
    if |fields| > 1 {
      FieldsJoined(fields[1..], style, level);
      assert FieldParts(fields, style, level)[1..] == FieldParts(fields[1..], style, level);
    }
  }

  /** A list: its items between brackets, separated by commas, in the indented layout each on its own line. */
  lemma ListPrinted(items: seq<Json>, level: nat)
    ensures Render(Arr(items), Compact, level)
            == [Mark('[')] + JoinedBy([Mark(',')], ItemParts(items, Compact, level + 1)) + [Mark(']')]
    ensures Render(Arr(items), Indented, level)
            == if items == [] then [Mark('['), Mark(']')]
               else [Mark('[')] + Margin(level + 1)
                    + JoinedBy([Mark(',')] + Margin(level + 1), ItemParts(items, Indented, level + 1))
                    + Margin(level) + [Mark(']')]
  {
    hide *;
    MarginIs(level);
    MarginIs(level + 1);
    MarksAre();
    EmptyPrinted(level);
    if items != [] {
      RenderArr(items, Compact, level);
      RenderArr(items, Indented, level);
      ItemsJoined(items, Compact, level + 1);
      ItemsJoined(items, Indented, level + 1);
      Unmargined(RenderItems(items, Compact, level + 1));
    } else {
      JoinedNothing([Mark(',')], ItemParts(items, Compact, level + 1));
    }
  }

  lemma EmptyPrinted(level: nat)
    ensures forall style :: Render(Arr([]), style, level) == [Mark('['), Mark(']')]
    ensures forall style :: Render(Obj([]), style, level) == [Mark('{'), Mark('}')]
  {
  }

  lemma Unmargined(inner: Text)
    ensures forall open: Code, close: Code :: [open] + [] + inner + [] + [close] == [open] + inner + [close]
    ensures [Mark(',')] + [] == [Mark(',')]
  {
    assert forall open: Code :: [open] + [] == [open];
    assert forall t: Text :: t + [] == t;
  }

  lemma JoinedNothing(separator: Text, parts: seq<Text>)
    requires parts == []
    ensures JoinedBy(separator, parts) == []
  {
  }

  /** A dict: key, colon and value of its members in order, between braces, separated in the same way. */
  lemma DictPrinted(fields: Fields, level: nat)
    ensures Render(Obj(fields), Compact, level)
            == [Mark('{')] + JoinedBy([Mark(',')], FieldParts(fields, Compact, level + 1)) + [Mark('}')]
    ensures Render(Obj(fields), Indented, level)
            == if fields == [] then [Mark('{'), Mark('}')]
               else [Mark('{')] + Margin(level + 1)
                    + JoinedBy([Mark(',')] + Margin(level + 1), FieldParts(fields, Indented, level + 1))
                    + Margin(level) + [Mark('}')]
  {
    hide *;
    MarginIs(level);
    MarginIs(level + 1);
    MarksAre();
    EmptyPrinted(level);
    if fields != [] {
      RenderObj(fields, Compact, level);
      RenderObj(fields, Indented, level);
      FieldsJoined(fields, Compact, level + 1);
      FieldsJoined(fields, Indented, level + 1);
      Unmargined(RenderFields(fields, Compact, level + 1));
    } else {
      JoinedNothing([Mark(',')], FieldParts(fields, Compact, level + 1));
    }
  }

  /** The text that is hashed has its keys sorted and nothing between its marks; a file's text is indented and ends in a line break. */
  lemma LayoutsOf(v: Json)
    ensures Canonical(v) == Render(SortKeys(v), Compact, 0)
    ensures Document(v) == Render(SortKeys(v), Indented, 0) + [Mark('\n')]
  {
    hide Render, SortKeys;
  }

  // ----- the order of keys

  /** A text is before another where it is a beginning of it, or smaller at the first code point that differs. */
  ghost predicate Before(a: Text, b: Text) {
    exists k :: 0 <= k <= |a| && k < |b| && a[..k] == b[..k] && (k == |a| || a[k] < b[k])
  }

  lemma {:induction false} LessExactly(a: Text, b: Text)
    ensures Less(a, b) <==> Before(a, b)
  {
    if a != [] && b != [] && a[0] == b[0] {
      LessExactly(a[1..], b[1..]);
      assert a == [a[0]] + a[1..] && b == [b[0]] + b[1..];
      hide Less;
      BeforeTail(a, b);
    } else if b != [] {
      assert a[..0] == b[..0];
      forall k | 0 < k <= |a| && k < |b| ensures a[..k] != b[..k] {
        assert a[..k][0] == a[0] && b[..k][0] == b[0];
      }
    }
  }

  lemma BeforeTail(a: Text, b: Text)
    requires a != [] && b != [] && a[0] == b[0]
    ensures Before(a, b) <==> Before(a[1..], b[1..])
  {
    if Before(a, b) {
      var k :| 0 <= k <= |a| && k < |b| && a[..k] == b[..k] && (k == |a| || a[k] < b[k]);
      assert k > 0 && a[1..][..k - 1] == a[..k][1..] && b[1..][..k - 1] == b[..k][1..];
    }
    if Before(a[1..], b[1..]) {
      var k :| 0 <= k <= |a[1..]| && k < |b[1..]| && a[1..][..k] == b[1..][..k] && (k == |a[1..]| || a[1..][k] < b[1..][k]);
      assert a[..k + 1] == [a[0]] + a[1..][..k] && b[..k + 1] == [b[0]] + b[1..][..k];
    }
  }

  /** Sorting a dict's keys keeps its members, their values sorted in turn, and puts them in that order. */
  lemma KeysSorted(fields: Fields)
    requires DistinctKeys(KeyOf, fields)
    ensures SortKeys(Obj(fields)).Obj?
    ensures var sorted := SortKeys(Obj(fields)).fields;
            && |sorted| == |fields|
            && (forall i, j :: 0 <= i < j < |sorted| ==> Before(sorted[i].key, sorted[j].key))
            && forall f :: f in sorted <==> exists i :: 0 <= i < |fields| && f == Field(fields[i].key, SortKeys(fields[i].value))
  {
    var sorted := SortKeys(Obj(fields)).fields;
    DistinctSortValues(fields);
    SortIncreasing(KeyOf, SortValues(fields));
    SortPermutes(KeyOf, SortValues(fields));
    hide Sort, Before, Less;
    forall f ensures f in sorted <==> exists i :: 0 <= i < |fields| && f == Field(fields[i].key, SortKeys(fields[i].value)) {
      SortedMember(fields, f);
    }
    forall i, j | 0 <= i < j < |sorted| ensures Before(sorted[i].key, sorted[j].key) {
      assert Less(KeyOf(sorted[i]), KeyOf(sorted[j]));
      LessExactly(sorted[i].key, sorted[j].key);
    }
  }

  lemma ItemsSorted(items: seq<Json>)
    ensures SortKeys(Arr(items)).Arr? && |SortKeys(Arr(items)).items| == |items|
    ensures forall i :: 0 <= i < |items| ==> SortKeys(Arr(items)).items[i] == SortKeys(items[i])
    ensures forall v: Json :: !v.Arr? && !v.Obj? ==> SortKeys(v) == v
  {
  }
}
