/** The decoder reads exactly the texts of the concrete syntax, as what they mean. */
module JsonGrammar {
  import opened Options
  import opened Texts
  import opened Numerals
  import opened JsonValues
  import opened JsonPrinter
  import opened JsonDecoder
  import opened JsonLimits
  import opened JsonRoundTrip
  import opened JsonSyntax
  import opened JsonTokens

  // ----- every text of the syntax is read as what it means

  /** Text that cannot prolong a number: it begins with no character a number may hold. */
  predicate Ends(rest: Text) {
    rest == [] || !NumberChar(rest[0])
  }

  lemma NumberTextChars(s: Syntax)
    requires s.Number? && Wellformed(s)
    ensures forall i :: 0 <= i < |TextOf(s)| ==> NumberChar(TextOf(s)[i])
  {
    NumberReach(s.negative, s.whole, s.fraction, s.exponent, []);
    NumberChars(TextOf(s));
    assert TextOf(s) + [] == TextOf(s);
    hide NumberChar, NumberLength, IntLength, WholePart, FractionPart, ExponentPart;
  }

  lemma EndsLongest(s: Syntax, rest: Text)
    requires Ends(rest)
    ensures Longest(s, TextOf(s) + rest)
  {
    hide TextOf, Wellformed;
    forall n: Syntax | n.Number? && Wellformed(n) && TextOf(n) <= TextOf(s) + rest ensures |TextOf(n)| <= |TextOf(s)| {
      NumberTextChars(n);
      assert rest != [] ==> (TextOf(s) + rest)[|TextOf(s)|] == rest[0];
    }
  }

  lemma HeadOf(s: Syntax)
    requires Wellformed(s)
    ensures var t := TextOf(s); t != [] && !Blank(t[0]) && t[0] != RBRACE && t[0] != RBRACKET
  {
    hide ItemsOk, MembersOk, ItemsText, MembersText, UnitsOk, UnitsText, FractionPart, ExponentPart;
    match s
    case Number(negative, whole, _, _) => assert TextOf(s)[0] == if negative then Mark('-') else whole[0];
    case _ =>
  }

  lemma WordsAre()
    ensures NULL == Ascii("null") && TRUE == Ascii("true") && FALSE == Ascii("false")
  {
    assert Ascii("null") == [Mark('n'), Mark('u'), Mark('l'), Mark('l')];
    assert Ascii("true") == [Mark('t'), Mark('r'), Mark('u'), Mark('e')];
    assert Ascii("false") == [Mark('f'), Mark('a'), Mark('l'), Mark('s'), Mark('e')];
  }

  lemma ConstantsAre()
    ensures NAN == Ascii("NaN") && INFINITY == Ascii("Infinity") && NEG_INFINITY == Ascii("-Infinity")
    ensures |NAN| == 3 && |INFINITY| == 8 && |NEG_INFINITY| == 9
    ensures NAN[0] == 0x4E && INFINITY[0] == 0x49 && NEG_INFINITY[0] == MINUS
  {
  }

  lemma WordReads(word: string, rest: Text)
    requires Wellformed(Word(word))
    ensures ParseValue(Ascii(word) + rest) == JsonDecoder.Ok(Meaning(Word(word)), rest)
  {
    WordsAre();
    ConstantsAre();
    hide ParseValue, ParseNumber, NULL, TRUE, FALSE, NAN, INFINITY, NEG_INFINITY, Ascii;
    ConstantRoundTrip(Ascii(word), rest);
    if word in {"null", "true", "false"} {
      WordValue(Ascii(word), rest, Meaning(Word(word)));
    } else {
      NamedRoundTrip(Ascii(word), rest);
      assert (Ascii(word) + rest)[0] == Ascii(word)[0];
      NumberBranch(Ascii(word) + rest);
    }
  }

  lemma NumberHead(s: Syntax, rest: Text)
    requires s.Number? && Wellformed(s)
    ensures ParseValue(TextOf(s) + rest) == ParseNumber(TextOf(s) + rest)
  {
    var t := TextOf(s) + rest;
    assert t[0] == if s.negative then MINUS else s.whole[0];
    hide ParseValue, ParseNumber, FractionPart, ExponentPart;
    NumberBranch(t);
  }

  lemma Wrapped(open: Code, inner: Text, close: Code, rest: Text)
    ensures var t := [open] + inner + [close] + rest; t != [] && t[0] == open && t[1..] == inner + ([close] + rest)
  {
  }

  lemma QuotedReads(units: seq<Unit>, rest: Text)
    requires UnitsOk(units)
    ensures ParseValue([Mark('"')] + UnitsText(units) + [Mark('"')] + rest) == JsonDecoder.Ok(Str(UnitsCodes(units)), rest)
  {
    hide *;
    CharsRead(units, rest);
    MarksAre();
    Wrapped(Mark('"'), UnitsText(units), Mark('"'), rest);
    StringBranch([Mark('"')] + UnitsText(units) + [Mark('"')] + rest);
  }

  lemma BlanksSkip(gap: Text, t: Text)
    requires Blanks(gap) && (t == [] || !Blank(t[0]))
    ensures Skip(gap + t) == t
  {
    SkipGap(gap, t);
  }

  lemma BlanksEnd(gap: Text, c: Code, rest: Text)
    requires Blanks(gap) && c in {Mark(','), Mark(']'), Mark('}')}
    ensures Ends(gap + ([c] + rest)) && Skip(gap + ([c] + rest)) == [c] + rest
  {
    BlanksSkip(gap, [c] + rest);
  }

  lemma {:induction false} ValueReads(s: Syntax, rest: Text)
    requires Wellformed(s) && (s.Number? ==> Longest(s, TextOf(s) + rest))
    ensures ParseValue(TextOf(s) + rest) == JsonDecoder.Ok(Meaning(s), rest)
    decreases s, 0
  {
    hide ParseValue, ParseNumber, ParseItems, ParseFields, ItemsText, MembersText, UnitsText, UnitsCodes, Longest,
      WholePart, FractionPart, ExponentPart, Skip;
    match s
    case Word(word) => WordReads(word, rest);
    case Number(_, _, _, _) =>
      NumberHead(s, rest);
      NumberReads(s, rest);
    case Quoted(units) => QuotedReads(units, rest);
    case Array(blank, items) =>
      if items == [] {
        EmptyReads(blank, rest);
      } else {
        ItemsRead(items, rest);
        ArrayReads(items, rest);
      }
    case Object(blank, members) =>
      if members == [] {
        EmptyReads(blank, rest);
      } else {
        MembersRead(members, rest);
        ObjectReads(members, rest);
      }
  }

  lemma EmptyReads(blank: Text, rest: Text)
    requires Blanks(blank)
    ensures ParseValue([Mark('[')] + blank + [Mark(']')] + rest) == JsonDecoder.Ok(Arr([]), rest)
    ensures ParseValue([Mark('{')] + blank + [Mark('}')] + rest) == JsonDecoder.Ok(Obj([]), rest)
  {
    var a, b := [Mark(']')] + rest, [Mark('}')] + rest;
    BlanksSkip(blank, a);
    BlanksSkip(blank, b);
    assert ([Mark('[')] + blank + [Mark(']')] + rest)[1..] == blank + a && a[1..] == rest;
    assert ([Mark('{')] + blank + [Mark('}')] + rest)[1..] == blank + b && b[1..] == rest;
    hide ParseItems, ParseFields, Skip;
  }

  lemma ArrayReads(items: seq<Item>, rest: Text)
    requires items != [] && ItemsOk(items)
    requires ParseItems(Skip(ItemsText(items) + ([Mark(']')] + rest))) == JsonDecoder.Ok(ItemsMeaning(items), rest)
    ensures ParseValue([Mark('[')] + ItemsText(items) + [Mark(']')] + rest) == JsonDecoder.Ok(Arr(ItemsMeaning(items)), rest)
  {
    hide *;
    MarksAre();
    ItemsStart(items, [Mark(']')] + rest);
    Wrapped(Mark('['), ItemsText(items), Mark(']'), rest);
    var t := [Mark('[')] + ItemsText(items) + [Mark(']')] + rest;
    OpenBracket(t, Skip(t[1..]));
  }

  /** Where the first item's value starts. */
  lemma ItemsStart(items: seq<Item>, tail: Text)
    requires items != [] && ItemsOk(items)
    ensures var more := if |items| == 1 then tail else [Mark(',')] + (ItemsText(items[1..]) + tail);
            var u := TextOf(items[0].value) + (items[0].after + more);
            Skip(ItemsText(items) + tail) == u && u != [] && u[0] != RBRACKET
  {
    var x := items[0];
    HeadOf(x.value);
    var more := if |items| == 1 then tail else [Mark(',')] + (ItemsText(items[1..]) + tail);
    var u := TextOf(x.value) + (x.after + more);
    assert u[0] == TextOf(x.value)[0];
    BlanksSkip(x.before, u);
    hide TextOf, Skip;
    assert ItemsText(items) + tail == x.before + u;
  }

  lemma {:induction false} ItemsRead(items: seq<Item>, rest: Text)
    requires items != [] && ItemsOk(items)
    ensures ParseItems(Skip(ItemsText(items) + ([Mark(']')] + rest))) == JsonDecoder.Ok(ItemsMeaning(items), rest)
    decreases items, 1
  {
    var tail := [Mark(']')] + rest;
    var x := items[0];
    assert Wellformed(x.value) && Blanks(x.after) && ItemsOk(items[1..]);
    assert ItemsMeaning(items) == [Meaning(x.value)] + ItemsMeaning(items[1..]);
    assert |items| == 1 ==> ItemsMeaning(items) == [Meaning(x.value)];
    ItemsStart(items, tail);
    hide *;
    if |items| == 1 {
      BlanksEnd(x.after, Mark(']'), rest);
      EndsLongest(x.value, x.after + tail);
      ValueReads(x.value, x.after + tail);
      ItemsEnd(TextOf(x.value) + (x.after + tail), Meaning(x.value), x.after + tail, rest);
    } else {
      ItemsRead(items[1..], rest);
      var more := ItemsText(items[1..]) + tail;
      BlanksEnd(x.after, Mark(','), more);
      var after := x.after + ([Mark(',')] + more);
      EndsLongest(x.value, after);
      ValueReads(x.value, after);
      ItemsGoOn(TextOf(x.value) + after, Meaning(x.value), after, more, ItemsMeaning(items[1..]), rest);
    }
  }

  lemma ObjectReads(members: seq<Member>, rest: Text)
    requires members != [] && MembersOk(members)
    requires ParseFields(Skip(MembersText(members) + ([Mark('}')] + rest))) == JsonDecoder.Ok(MembersMeaning(members), rest)
    ensures ParseValue([Mark('{')] + MembersText(members) + [Mark('}')] + rest)
            == JsonDecoder.Ok(Obj(MembersMeaning(members)), rest)
  {
    hide *;
    MarksAre();
    MembersStart(members, [Mark('}')] + rest);
    Wrapped(Mark('{'), MembersText(members), Mark('}'), rest);
    var t := [Mark('{')] + MembersText(members) + [Mark('}')] + rest;
    OpenBracket(t, Skip(t[1..]));
  }

  /** A member from its key on. */
  function FromKey(m: Member, more: Text): Text {
    [Mark('"')] + (UnitsText(m.key) + ([Mark('"')] + (m.afterKey + ([Mark(':')] + (m.beforeValue + (TextOf(m.value) + (m.after + more)))))))
  }

  lemma MembersStart(members: seq<Member>, tail: Text)
    requires members != [] && MembersOk(members)
    ensures var more := if |members| == 1 then tail else [Mark(',')] + (MembersText(members[1..]) + tail);
            var u := FromKey(members[0], more);
            Skip(MembersText(members) + tail) == u && u != [] && u[0] == QUOTE
  {
    var m := members[0];
    var more := if |members| == 1 then tail else [Mark(',')] + (MembersText(members[1..]) + tail);
    var u := FromKey(m, more);
    BlanksSkip(m.before, u);
    MembersSplit(members, tail);
    hide FromKey, MembersText, Skip;
  }

  lemma MembersSplit(members: seq<Member>, tail: Text)
    requires members != []
    ensures var more := if |members| == 1 then tail else [Mark(',')] + (MembersText(members[1..]) + tail);
            MembersText(members) + tail == members[0].before + FromKey(members[0], more)
  {
    hide *;
    var m := members[0];
    var others := if |members| == 1 then [] else [Mark(',')] + MembersText(members[1..]);
    var more := if |members| == 1 then tail else [Mark(',')] + (MembersText(members[1..]) + tail);
    assert others + tail == more;
    MembersUnfold(members);
    FromKeyUnfold(m, more);
    Regroup(m.before, UnitsText(m.key), m.afterKey, m.beforeValue, TextOf(m.value), m.after, others, tail);
  }

  lemma MembersUnfold(members: seq<Member>)
    requires members != []
    ensures var m := members[0];
            MembersText(members)
            == m.before + [Mark('"')] + UnitsText(m.key) + [Mark('"')] + m.afterKey + [Mark(':')] + m.beforeValue
               + TextOf(m.value) + m.after + if |members| == 1 then [] else [Mark(',')] + MembersText(members[1..])
  {
    hide TextOf, UnitsText, Mark;
  }

  lemma FromKeyUnfold(m: Member, more: Text)
    ensures FromKey(m, more)
            == [Mark('"')] + (UnitsText(m.key) + ([Mark('"')] + (m.afterKey + ([Mark(':')] + (m.beforeValue + (TextOf(m.value) + (m.after + more)))))))
  {
    hide TextOf, UnitsText, Mark;
  }

  lemma Regroup(before: Text, key: Text, afterKey: Text, beforeValue: Text, value: Text, after: Text, others: Text, tail: Text)
    ensures before + [Mark('"')] + key + [Mark('"')] + afterKey + [Mark(':')] + beforeValue + value + after + others + tail
            == before + ([Mark('"')] + (key + ([Mark('"')] + (afterKey + ([Mark(':')] + (beforeValue + (value + (after + (others + tail)))))))))
  {
    hide Mark;
  }

  lemma MemberReads(m: Member, more: Text)
    requires UnitsOk(m.key) && Blanks(m.afterKey) && Blanks(m.beforeValue) && Wellformed(m.value)
    requires ParseValue(TextOf(m.value) + (m.after + more)) == JsonDecoder.Ok(Meaning(m.value), m.after + more)
    ensures ReadsMember(FromKey(m, more), UnitsCodes(m.key), Meaning(m.value), m.after + more)
  {
    var value := TextOf(m.value) + (m.after + more);
    var colon := [Mark(':')] + (m.beforeValue + value);
    var t := FromKey(m, more);
    HeadOf(m.value);
    assert value[0] == TextOf(m.value)[0];
    BlanksSkip(m.beforeValue, value);
    BlanksSkip(m.afterKey, colon);
    CharsRead(m.key, m.afterKey + colon);
    assert t[1..] == UnitsText(m.key) + ([Mark('"')] + (m.afterKey + colon));
    assert colon[1..] == m.beforeValue + value;
    hide ParseValue, ParseChars, TextOf, UnitsText, UnitsCodes, Meaning, Skip;
  }

  lemma {:induction false} MembersRead(members: seq<Member>, rest: Text)
    requires members != [] && MembersOk(members)
    ensures ParseFields(Skip(MembersText(members) + ([Mark('}')] + rest))) == JsonDecoder.Ok(MembersMeaning(members), rest)
    decreases members, 1
  {
    var tail := [Mark('}')] + rest;
    var m := members[0];
    assert UnitsOk(m.key) && Blanks(m.afterKey) && Blanks(m.beforeValue) && Wellformed(m.value) && Blanks(m.after);
    assert MembersOk(members[1..]);
    var f := Field(UnitsCodes(m.key), Meaning(m.value));
    assert MembersMeaning(members) == [f] + MembersMeaning(members[1..]);
    assert |members| == 1 ==> MembersMeaning(members) == [f];
    MembersStart(members, tail);
    hide *;
    if |members| == 1 {
      BlanksEnd(m.after, Mark('}'), rest);
      EndsLongest(m.value, m.after + tail);
      ValueReads(m.value, m.after + tail);
      MemberReads(m, tail);
      FieldsEnd(FromKey(m, tail), f.key, f.value, m.after + tail, rest);
    } else {
      MembersRead(members[1..], rest);
      var more := MembersText(members[1..]) + tail;
      BlanksEnd(m.after, Mark(','), more);
      EndsLongest(m.value, m.after + ([Mark(',')] + more));
      ValueReads(m.value, m.after + ([Mark(',')] + more));
      MemberReads(m, [Mark(',')] + more);
      FieldsGoOn(FromKey(m, [Mark(',')] + more), f.key, f.value, m.after + ([Mark(',')] + more), more,
                 MembersMeaning(members[1..]), rest);
    }
  }

  // ----- whatever is read is a text of the syntax

  lemma SkipStep(t: Text)
    ensures t != [] && Blank(t[0]) ==> Skip(t) == Skip(t[1..])
    ensures t == [] || !Blank(t[0]) ==> Skip(t) == t
  {
  }

  lemma BlanksCons(c: Code, gap: Text)
    requires Blank(c) && Blanks(gap)
    ensures Blanks([c] + gap)
  {
  }

  lemma {:induction false} SkippedBlanks(t: Text) returns (gap: Text)
    ensures Blanks(gap) && t == gap + Skip(t)
  {
    SkipStep(t);
    NoItems();
    hide *;
    if t != [] && Blank(t[0]) {
      var more := SkippedBlanks(t[1..]);
      gap := [t[0]] + more;
      BlanksCons(t[0], more);
      assert t == [t[0]] + t[1..];
    } else {
      gap := [];
    }
  }

  /** Blanks, a character, and what follows. */
  lemma SkippedTo(t: Text) returns (gap: Text)
    requires Skip(t) != []
    ensures Blanks(gap) && t == gap + ([Skip(t)[0]] + Skip(t)[1..])
  {
    gap := SkippedBlanks(t);
    hide Skip;
    assert Skip(t) == [Skip(t)[0]] + Skip(t)[1..];
  }

  lemma WordRead(word: string, t: Text)
    requires word in {"null", "true", "false", "NaN", "Infinity", "-Infinity"} && StartsWith(t, Ascii(word))
    ensures Wellformed(Word(word)) && TextOf(Word(word)) + t[|word|..] == t
  {
    hide Ascii;
    assert t[..|word|] + t[|word|..] == t;
  }

  lemma NamedRead(t: Text) returns (s: Syntax)
    requires ParseNumber(t).Ok? && NumberLength(t) == 0
    ensures s.Word? && Wellformed(s) && TextOf(s) + ParseNumber(t).rest == t && Meaning(s) == ParseNumber(t).value
  {
    ConstantsAre();
    hide NAN, INFINITY, NEG_INFINITY, NumberLength;
    if StartsWith(t, NAN) {
      s := Word("NaN");
    } else if StartsWith(t, INFINITY) {
      s := Word("Infinity");
    } else {
      s := Word("-Infinity");
    }
    hide Ascii;
    WordRead(s.word, t);
  }

  lemma ScalarRead(t: Text) returns (s: Syntax)
    requires ParseValue(t).Ok? && t[0] != QUOTE && t[0] != LBRACE && t[0] != LBRACKET
    ensures Wellformed(s) && TextOf(s) + ParseValue(t).rest == t && Meaning(s) == ParseValue(t).value
    ensures s.Number? ==> Longest(s, t)
  {
    ScalarView(t);
    WordsAre();
    hide ParseValue, ParseNumber, NULL, TRUE, FALSE, Longest, NumberLength;
    if StartsWith(t, NULL) && ParseValue(t) == JsonDecoder.Ok(Null, t[4..]) {
      s := Word("null");
      WordRead(s.word, t);
    } else if StartsWith(t, TRUE) && ParseValue(t) == JsonDecoder.Ok(Bool(true), t[4..]) {
      s := Word("true");
      WordRead(s.word, t);
    } else if StartsWith(t, FALSE) && ParseValue(t) == JsonDecoder.Ok(Bool(false), t[5..]) {
      s := Word("false");
      WordRead(s.word, t);
    } else if NumberLength(t) == 0 {
      s := NamedRead(t);
    } else {
      s := NumberRead(t);
      NumberLongest(t, s);
      assert t[..NumberLength(t)] + t[NumberLength(t)..] == t;
    }
  }

  lemma {:induction false} ValueRead(t: Text) returns (s: Syntax)
    requires ParseValue(t).Ok?
    ensures Wellformed(s) && TextOf(s) + ParseValue(t).rest == t && Meaning(s) == ParseValue(t).value
    ensures s.Number? ==> Longest(s, t)
    decreases |t|, 1
  {
    ParsedHead(t);
    MarksAre();
    hide *;
    if t[0] == QUOTE {
      StringView(t);
      var units := CharsReadBack(t[1..]);
      s := Quoted(units);
      QuotedIs(units, t, ParseValue(t).rest);
    } else if t[0] == LBRACE {
      ObjectView(t);
      s := ObjectRead(t);
    } else if t[0] == LBRACKET {
      ArrayView(t);
      s := ArrayRead(t);
    } else {
      s := ScalarRead(t);
    }
  }

  lemma QuotedIs(units: seq<Unit>, t: Text, rest: Text)
    requires UnitsOk(units) && t != [] && t[0] == Mark('"') && t[1..] == UnitsText(units) + ([Mark('"')] + rest)
    ensures Wellformed(Quoted(units)) && TextOf(Quoted(units)) + rest == t && Meaning(Quoted(units)) == Str(UnitsCodes(units))
  {
    hide UnitsText, UnitsOk, UnitsCodes;
    assert t == [t[0]] + t[1..];
  }

  lemma ArrayIs(blank: Text, items: seq<Item>, t: Text, rest: Text)
    requires Blanks(blank) && ItemsOk(items) && t != [] && t[0] == Mark('[')
    requires t[1..] == (if items == [] then blank else ItemsText(items)) + ([Mark(']')] + rest)
    ensures var s := Array(blank, items); Wellformed(s) && TextOf(s) + rest == t && Meaning(s) == Arr(ItemsMeaning(items))
  {
    hide Blanks, ItemsText, ItemsOk, ItemsMeaning;
    assert t == [t[0]] + t[1..];
  }

  lemma ObjectIs(blank: Text, members: seq<Member>, t: Text, rest: Text)
    requires Blanks(blank) && MembersOk(members) && t != [] && t[0] == Mark('{')
    requires t[1..] == (if members == [] then blank else MembersText(members)) + ([Mark('}')] + rest)
    ensures var s := Object(blank, members);
            Wellformed(s) && TextOf(s) + rest == t && Meaning(s) == Obj(MembersMeaning(members))
  {
    hide Blanks, MembersText, MembersOk, MembersMeaning;
    assert t == [t[0]] + t[1..];
  }

  lemma NoItems()
    ensures ItemsOk([]) && ItemsMeaning([]) == [] && MembersOk([]) && MembersMeaning([]) == [] && Blanks([])
  {
  }

  lemma ArrayRead(t: Text) returns (s: Syntax)
    requires ParseValue(t).Ok? && t[0] == LBRACKET
    ensures s.Array? && Wellformed(s) && TextOf(s) + ParseValue(t).rest == t && Meaning(s) == ParseValue(t).value
    decreases |t|, 0
  {
    ArrayView(t);
    MarksAre();
    NoItems();
    SkipShorter(t[1..]);
    hide *;
    var u := Skip(t[1..]);
    if u[0] == RBRACKET {
      var gap := SkippedTo(t[1..]);
      s := Array(gap, []);
      ArrayIs(gap, [], t, ParseValue(t).rest);
    } else {
      var items := ItemsReadBack(t[1..]);
      s := Array([], items);
      ArrayIs([], items, t, ParseValue(t).rest);
    }
  }

  lemma ObjectRead(t: Text) returns (s: Syntax)
    requires ParseValue(t).Ok? && t[0] == LBRACE
    ensures s.Object? && Wellformed(s) && TextOf(s) + ParseValue(t).rest == t && Meaning(s) == ParseValue(t).value
    decreases |t|, 0
  {
    ObjectView(t);
    MarksAre();
    NoItems();
    SkipShorter(t[1..]);
    hide *;
    var u := Skip(t[1..]);
    if u[0] == RBRACE {
      var gap := SkippedTo(t[1..]);
      s := Object(gap, []);
      ObjectIs(gap, [], t, ParseValue(t).rest);
    } else {
      var members := MembersReadBack(t[1..]);
      s := Object([], members);
      ObjectIs([], members, t, ParseValue(t).rest);
    }
  }

  lemma SkipShorter(t: Text)
    ensures |Skip(t)| <= |t|
  {
  }

  lemma ItemsCons(x: Item, more: seq<Item>, u: Text, t: Text, tail: Text)
    requires Blanks(x.before) && Wellformed(x.value) && Blanks(x.after) && ItemsOk(more)
    requires t == x.before + u && u == TextOf(x.value) + (x.after + if more == [] then tail else [Mark(',')] + (ItemsText(more) + tail))
    ensures ItemsOk([x] + more) && t == ItemsText([x] + more) + tail
    ensures ItemsMeaning([x] + more) == [Meaning(x.value)] + ItemsMeaning(more)
  {
    hide Blanks, TextOf, Meaning, Wellformed;
    var items := [x] + more;
    assert items[1..] == more;
    assert ItemsText(items) == x.before + TextOf(x.value) + x.after + if more == [] then [] else [Mark(',')] + ItemsText(more);
  }

  lemma {:induction false} ItemsReadBack(t: Text) returns (items: seq<Item>)
    requires ParseItems(Skip(t)).Ok?
    ensures items != [] && ItemsOk(items) && ItemsMeaning(items) == ParseItems(Skip(t)).value
    ensures t == ItemsText(items) + ([Mark(']')] + ParseItems(Skip(t)).rest)
    decreases |t|, 2
  {
    MarksAre();
    NoItems();
    SkipShorter(t);
    hide *;
    var u := Skip(t);
    ItemView(u);
    ItemAfter(u);
    var before := SkippedBlanks(t);
    var value := ValueRead(u);
    var after := SkippedTo(ParseValue(u).rest);
    var next := AfterValue(u);
    var tail := [Mark(']')] + ParseItems(u).rest;
    var x := Item(before, value, after);
    if next[0] == RBRACKET && ParseItems(u) == JsonDecoder.Ok([ParseValue(u).value], next[1..]) {
      ItemsCons(x, [], u, t, tail);
      items := [x];
      assert [x] + [] == [x];
      assert ([Meaning(value)] + []) == [Meaning(value)];
    } else {
      var more := ItemsReadBack(next[1..]);
      ItemsCons(x, more, u, t, tail);
      items := [x] + more;
    }
  }

  lemma ItemAfter(u: Text)
    requires ParseValue(u).Ok?
    ensures AfterValue(u) == Skip(ParseValue(u).rest) && |AfterValue(u)| < |u|
  {
    hide ParseValue;
  }

  lemma MembersCons(m: Member, more: seq<Member>, u: Text, t: Text, tail: Text)
    requires Blanks(m.before) && UnitsOk(m.key) && Blanks(m.afterKey) && Blanks(m.beforeValue)
    requires Wellformed(m.value) && Blanks(m.after) && MembersOk(more)
    requires t == m.before + u && u == FromKey(m, if more == [] then tail else [Mark(',')] + (MembersText(more) + tail))
    ensures MembersOk([m] + more) && t == MembersText([m] + more) + tail
    ensures MembersMeaning([m] + more) == [Field(UnitsCodes(m.key), Meaning(m.value))] + MembersMeaning(more)
  {
    var members := [m] + more;
    assert members[1..] == more;
    MembersSplit(members, tail);
    hide Blanks, TextOf, Meaning, Wellformed, MembersText, FromKey, UnitsOk, UnitsCodes;
  }

  lemma MemberRead(u: Text) returns (key: seq<Unit>, afterKey: Text, beforeValue: Text)
    requires ParseFields(u).Ok?
    ensures UnitsOk(key) && Blanks(afterKey) && Blanks(beforeValue) && |MemberValue(u)| < |u| && ParseValue(MemberValue(u)).Ok?
    ensures UnitsCodes(key) == ParseChars(u[1..]).value
    ensures u == [Mark('"')] + (UnitsText(key) + ([Mark('"')] + (afterKey + ([Mark(':')] + (beforeValue + MemberValue(u))))))
  {
    MarksAre();
    hide *;
    MemberView(u);
    key := CharsReadBack(u[1..]);
    afterKey := SkippedTo(ParseChars(u[1..]).rest);
    beforeValue := SkippedBlanks(Skip(ParseChars(u[1..]).rest)[1..]);
    assert u == [u[0]] + u[1..];
  }

  lemma {:induction false} MembersReadBack(t: Text) returns (members: seq<Member>)
    requires ParseFields(Skip(t)).Ok?
    ensures members != [] && MembersOk(members) && MembersMeaning(members) == ParseFields(Skip(t)).value
    ensures t == MembersText(members) + ([Mark('}')] + ParseFields(Skip(t)).rest)
    decreases |t|, 2
  {
    MarksAre();
    NoItems();
    SkipShorter(t);
    hide *;
    var u := Skip(t);
    MemberView(u);
    var before := SkippedBlanks(t);
    var key, afterKey, beforeValue := MemberRead(u);
    var v := MemberValue(u);
    ItemAfter(v);
    var value := ValueRead(v);
    var after := SkippedTo(ParseValue(v).rest);
    var next := AfterValue(v);
    var tail := [Mark('}')] + ParseFields(u).rest;
    var m := Member(before, key, afterKey, beforeValue, value, after);
    var field := Field(ParseChars(u[1..]).value, ParseValue(v).value);
    if next[0] == RBRACE && ParseFields(u) == JsonDecoder.Ok([field], next[1..]) {
      FromKeyIs(m, tail, u, v);
      MembersCons(m, [], u, t, tail);
      members := [m];
      assert [m] + [] == [m];
      assert [field] + [] == [field];
    } else {
      var more := MembersReadBack(next[1..]);
      FromKeyIs(m, [Mark(',')] + (MembersText(more) + tail), u, v);
      MembersCons(m, more, u, t, tail);
      members := [m] + more;
    }
  }

  lemma FromKeyIs(m: Member, more: Text, u: Text, v: Text)
    requires u == [Mark('"')] + (UnitsText(m.key) + ([Mark('"')] + (m.afterKey + ([Mark(':')] + (m.beforeValue + v)))))
    requires v == TextOf(m.value) + (m.after + more)
    ensures u == FromKey(m, more)
  {
    hide TextOf, UnitsText;
  }

  // ----- the two together

  /** The text begins with this piece of syntax and goes on with the rest. */
  ghost predicate Spells(s: Syntax, v: Json, t: Text, rest: Text) {
    Wellformed(s) && Meaning(s) == v && t == TextOf(s) + rest && (s.Number? ==> Longest(s, t))
  }

  /**
    The decoder reads a value and stops before the rest exactly where the text begins with
    syntax of that meaning, numbers taken as long as they go.
   */
  lemma DecodesExactly(t: Text, v: Json, rest: Text)
    ensures ParseValue(t) == JsonDecoder.Ok(v, rest) <==> exists s :: Spells(s, v, t, rest)
  {
    hide ParseValue, Meaning, TextOf, Wellformed, Longest;
    if ParseValue(t) == JsonDecoder.Ok(v, rest) {
      var s := ValueRead(t);
      assert Spells(s, v, t, rest);
    }
    if s :| Spells(s, v, t, rest) {
      ValueReads(s, rest);
    }
  }

  /** A document is one value between blanks; of the members with one key the last one counts. */
  lemma LoadsExactly(t: Text, v: Json)
    ensures Loads(t) == Some(v) <==>
            exists s, before, after ::
              Wellformed(s) && Blanks(before) && Blanks(after) && t == before + TextOf(s) + after && Collapse(Meaning(s)) == v
  {
    if Loads(t) == Some(v) {
      LoadsRead(t);
    }
    if s, before, after :| Wellformed(s) && Blanks(before) && Blanks(after) && t == before + TextOf(s) + after
                           && Collapse(Meaning(s)) == v {
      LoadsSpelled(s, before, after);
    }
  }

  lemma LoadsRead(t: Text)
    requires Loads(t).Some?
    ensures exists s, before, after ::
              Wellformed(s) && Blanks(before) && Blanks(after) && t == before + TextOf(s) + after
              && Collapse(Meaning(s)) == Loads(t).value
  {
    hide ParseValue, Meaning, TextOf, Wellformed, Longest, Skip, Blanks, Collapse;
    var u := Skip(t);
    var s := ValueRead(u);
    var before := SkippedBlanks(t);
    var after := SkippedBlanks(ParseValue(u).rest);
    assert after == ParseValue(u).rest;
    assert t == before + TextOf(s) + after;
  }

  lemma LoadsSpelled(s: Syntax, before: Text, after: Text)
    requires Wellformed(s) && Blanks(before) && Blanks(after)
    ensures Loads(before + TextOf(s) + after) == Some(Collapse(Meaning(s)))
  {
    var t := before + TextOf(s) + after;
    HeadOf(s);
    assert t == before + (TextOf(s) + after) && (TextOf(s) + after)[0] == TextOf(s)[0];
    BlanksSkip(before, TextOf(s) + after);
    BlanksSkip(after, []);
    assert after + [] == after;
    assert Ends(after);
    hide ParseValue, Meaning, TextOf, Wellformed, Longest, Skip, Collapse;
    EndsLongest(s, after);
    ValueReads(s, after);
  }
}
