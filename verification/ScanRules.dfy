/** The one receipt of a command's output, and the message of a refused one, written out. */
module ScanRules {
  import opened Options
  import opened Texts
  import opened Numerals
  import opened Sorting
  import opened JsonValues
  import opened JsonDecoder
  import opened JsonIdentity
  import opened JsonLimits
  import opened JsonScan
  import opened JsonSyntax
  import opened JsonGrammar
  import opened Cli

  /** White space to Python's str. */
  predicate Space(c: Code) {
    || 9 <= c <= 13 || 28 <= c <= 32 || c == 0x85 || c == 0xA0 || c == 0x1680 || 0x2000 <= c <= 0x200A
    || c == 0x2028 || c == 0x2029 || c == 0x202F || c == 0x205F || c == 0x3000
  }

  predicate Spaces(t: Text) {
    forall i :: 0 <= i < |t| ==> Space(t[i])
  }

  // ----- dicts

  /** The last member with this key. */
  ghost predicate LastAt(fields: Fields, key: Text, v: Json, i: nat) {
    i < |fields| && fields[i] == Field(key, v) && forall j :: i < j < |fields| ==> fields[j].key != key
  }

  /** Reading a dict gives the last member with that key. */
  lemma {:induction false} GetExactly(fields: Fields, key: Text, v: Json)
    ensures Get(fields, key) == Some(v) <==> exists i: nat :: LastAt(fields, key, v, i)
    decreases |fields|
  {
    if fields != [] {
      var last := |fields| - 1;
      GetExactly(fields[..last], key, v);
      if fields[last].key == key {
        assert fields[last].value == v ==> LastAt(fields, key, v, last);
      } else {
        hide Get;
        forall i: nat ensures LastAt(fields, key, v, i) <==> LastAt(fields[..last], key, v, i) { LastBefore(fields, key, v, i); }
        assert Get(fields, key) == Get(fields[..last], key) by { GetBefore(fields, key); }
      }
    }
  }

  lemma GetBefore(fields: Fields, key: Text)
    requires fields != [] && fields[|fields| - 1].key != key
    ensures Get(fields, key) == Get(fields[..|fields| - 1], key)
  {
  }

  lemma LastBefore(fields: Fields, key: Text, v: Json, i: nat)
    requires fields != [] && fields[|fields| - 1].key != key
    ensures LastAt(fields, key, v, i) <==> LastAt(fields[..|fields| - 1], key, v, i)
  {
    var before := fields[..|fields| - 1];
    if LastAt(before, key, v, i) {
      forall j | i < j < |fields| ensures fields[j].key != key {
        assert j < |before| ==> fields[j] == before[j];
      }
      assert fields[i] == before[i];
    }
    if LastAt(fields, key, v, i) {
      assert i < |before| && before[i] == fields[i];
    }
  }

  /** Building a dict keeps each key once, with its last value. */
  lemma {:induction false} DictReads(fields: Fields, key: Text)
    ensures DistinctKeys(KeyOf, CollapseFields(fields))
    ensures Get(CollapseFields(fields), key)
            == match Get(fields, key) case None => None case Some(v) => Some(Collapse(v))
    decreases |fields|
  {
    if fields != [] {
      var last := |fields| - 1;
      DictReads(fields[..last], key);
      GetPut(CollapseFields(fields[..last]), fields[last].key, Collapse(fields[last].value), key);
      hide Put, Collapse;
    }
  }

  // ----- the receipt

  /** The text is one object of the syntax and white space, and these are its members as a dict. */
  ghost predicate Shows(t: Text, fields: Fields) {
    exists s: Syntax, rest: Text :: s.Object? && Wellformed(s) && t == JsonSyntax.TextOf(s) + rest && Spaces(rest)
                      && fields == CollapseFields(MembersMeaning(s.members))
  }

  lemma SpacesAre(t: Text)
    ensures Spaces(t) <==> AllWhite(t)
  {
  }

  lemma ReceiptExactly(t: Text, fields: Fields)
    ensures Receipt(t) && ReceiptFields(t) == fields <==> Shows(t, fields)
  {
    if Receipt(t) && ReceiptFields(t) == fields {
      ReceiptShows(t);
    }
    if Shows(t, fields) {
      ShowsReceipt(t, fields);
    }
  }

  lemma ReceiptShows(t: Text)
    requires Receipt(t)
    ensures Shows(t, ReceiptFields(t))
  {
    SpacesAre(ParseValue(t).rest);
    MarksAre();
    ObjectView(t);
    hide ParseValue, ParseFields, CollapseFields, Spaces, JsonSyntax.TextOf, Wellformed, MembersMeaning, Skip;
    var s := ObjectRead(t);
    ObjectMeaning(s);
  }

  lemma ObjectMeaning(s: Syntax)
    requires s.Object? && Wellformed(s)
    ensures Meaning(s) == Obj(MembersMeaning(s.members)) && JsonSyntax.TextOf(s) != [] && JsonSyntax.TextOf(s)[0] == Mark('{')
  {
    hide MembersText, MembersMeaning;
  }

  lemma ShowsReceipt(t: Text, fields: Fields)
    requires Shows(t, fields)
    ensures Receipt(t) && ReceiptFields(t) == fields
  {
    hide ParseValue, CollapseFields, Spaces, JsonSyntax.TextOf, MembersMeaning, MembersOk;
    var s: Syntax, rest: Text :| s.Object? && Wellformed(s) && t == JsonSyntax.TextOf(s) + rest && Spaces(rest)
                   && fields == CollapseFields(MembersMeaning(s.members));
    ObjectMeaning(s);
    SpacesAre(rest);
    MarksAre();
    ValueReads(s, rest);
  }

  /** The scan finds a dict exactly when the output ends in a receipt of it before which no brace raises past the limits. */
  lemma FoundExactly(l: Limits, output: Text, fields: Fields)
    ensures FirstReceipt(l, output) == Found(fields)
            <==> exists i :: 0 <= i < |output| && Shows(output[i..], fields) && !RaisesBy(l, output, i)
  {
    hide FirstReceipt, RaisesBy, Shows, Receipt, ReceiptFields;
    if FirstReceipt(l, output) == Found(fields) {
      if Fruitless(output) {
        NoReceiptAnywhere(l, output);
        assert false;
      }
      var i := SomeReceipt(output);
      FirstReceiptAt(l, output, i);
      ReceiptExactly(output[i..], fields);
    }
    if i :| 0 <= i < |output| && Shows(output[i..], fields) && !RaisesBy(l, output, i) {
      ReceiptExactly(output[i..], fields);
      FirstReceiptAt(l, output, i);
    }
  }

  lemma SomeReceipt(output: Text) returns (i: nat)
    requires !Fruitless(output)
    ensures i < |output| && Receipt(output[i..])
  {
    i :| i <= |output| && Receipt(output[i..]);
    hide ParseValue;
  }

  // ----- past the limits

  /** No integer of more digits than the limit, and lists and objects nested no deeper than the depth left. */
  predicate Within(l: Limits, depth: nat, s: Syntax)
    decreases s, 0
  {
    match s
    case Number(_, whole, fraction, exponent) => fraction == [] && exponent == [] ==> |whole| <= l.digits
    case Array(_, items) => depth > 0 && ItemsWithin(l, depth - 1, items)
    case Object(_, members) => depth > 0 && MembersWithin(l, depth - 1, members)
    case _ => true
  }

  predicate ItemsWithin(l: Limits, depth: nat, items: seq<Item>)
    decreases items, 1
  {
    items == [] || (Within(l, depth, items[0].value) && ItemsWithin(l, depth, items[1..]))
  }

  predicate MembersWithin(l: Limits, depth: nat, members: seq<Member>)
    decreases members, 1
  {
    members == [] || (Within(l, depth, members[0].value) && MembersWithin(l, depth, members[1..]))
  }

  lemma NumberFits(l: Limits, depth: nat, s: Syntax)
    requires s.Number? && Wellformed(s)
    ensures Fits(l, depth, Meaning(s)) <==> Within(l, depth, s)
  {
    if s.fraction == [] && s.exponent == [] {
      WholeDigits(s.whole);
    }
    hide Positional, Digits, FractionPart, ExponentPart;
  }

  lemma WholeDigits(whole: Text)
    requires WholePart(whole)
    ensures Digits(Positional(whole)) == whole
  {
    NatValuePositional(whole);
    DigitsNatValue(whole);
    hide Positional, Digits, NatValue;
  }

  lemma {:induction false} MeaningFits(l: Limits, depth: nat, s: Syntax)
    requires Wellformed(s)
    ensures Fits(l, depth, Meaning(s)) <==> Within(l, depth, s)
    decreases s, 0
  {
    match s
    case Number(_, _, _, _) => NumberFits(l, depth, s);
    case Array(blank, items) =>
      hide *;
      ListWithin(l, depth, blank, items);
      ArrayFits(l, depth, ItemsMeaning(items));
      if depth > 0 { ItemsFit(l, depth - 1, items); }
    case Object(blank, members) =>
      hide *;
      DictWithin(l, depth, blank, members);
      ObjectFits(l, depth, MembersMeaning(members));
      if depth > 0 { MembersFit(l, depth - 1, members); }
    case _ =>
  }

  lemma ListWithin(l: Limits, depth: nat, blank: Text, items: seq<Item>)
    requires Wellformed(Array(blank, items))
    ensures ItemsOk(items) && Meaning(Array(blank, items)) == Arr(ItemsMeaning(items))
    ensures Within(l, depth, Array(blank, items)) <==> depth > 0 && ItemsWithin(l, depth - 1, items)
  {
    hide ItemsOk, ItemsMeaning, ItemsWithin;
  }

  lemma DictWithin(l: Limits, depth: nat, blank: Text, members: seq<Member>)
    requires Wellformed(Object(blank, members))
    ensures MembersOk(members) && Meaning(Object(blank, members)) == Obj(MembersMeaning(members))
    ensures Within(l, depth, Object(blank, members)) <==> depth > 0 && MembersWithin(l, depth - 1, members)
  {
    hide MembersOk, MembersMeaning, MembersWithin;
  }

  lemma {:induction false} ItemsFit(l: Limits, depth: nat, items: seq<Item>)
    requires ItemsOk(items)
    ensures AllFit(l, depth, ItemsMeaning(items)) <==> ItemsWithin(l, depth, items)
    decreases items, 1
  {
    ArrayFits(l, depth, []);
    if items != [] {
      MeaningFits(l, depth, items[0].value);
      ItemsFit(l, depth, items[1..]);
      ArrayFits(l, depth, ItemsMeaning(items[1..]));
      hide Fits, Within, Meaning, AllFit;
    }
  }

  lemma {:induction false} MembersFit(l: Limits, depth: nat, members: seq<Member>)
    requires MembersOk(members)
    ensures FieldsFit(l, depth, MembersMeaning(members)) <==> MembersWithin(l, depth, members)
    decreases members, 1
  {
    ObjectFits(l, depth, []);
    if members != [] {
      MeaningFits(l, depth, members[0].value);
      MembersFit(l, depth, members[1..]);
      ObjectFits(l, depth, MembersMeaning(members[1..]));
      hide Fits, Within, Meaning, FieldsFit, UnitsCodes;
    }
  }

  /** A text that begins with syntax makes the decoder raise exactly when that is not within the limits. */
  lemma RaisesExactly(l: Limits, depth: nat, s: Syntax, v: Json, t: Text, rest: Text)
    requires Spells(s, v, t, rest)
    ensures ValueRaises(l, depth, t) <==> !Within(l, depth, s)
  {
    hide *;
    DecodesExactly(t, v, rest);
    SpelledIs(s, v, t, rest);
    RaisesUnlessFits(l, depth, t);
    MeaningFits(l, depth, s);
  }

  lemma SpelledIs(s: Syntax, v: Json, t: Text, rest: Text)
    requires Spells(s, v, t, rest)
    ensures Wellformed(s) && Meaning(s) == v
  {
    hide Wellformed, Meaning, JsonSyntax.TextOf, Longest;
  }

  // ----- " ".join(text.split())

  /** Words with the gaps before, between and after them. */
  function Spread(gaps: seq<Text>, words: seq<Text>): Text
    requires |gaps| == |words| + 1
  {
    if words == [] then gaps[0] else gaps[0] + words[0] + Spread(gaps[1..], words[1..])
  }

  ghost predicate Word(t: Text) {
    t != [] && forall i :: 0 <= i < |t| ==> !Space(t[i])
  }

  /** Gaps are white space, and not empty between two words. */
  ghost predicate Split(t: Text, gaps: seq<Text>, words: seq<Text>) {
    && |gaps| == |words| + 1 && t == Spread(gaps, words)
    && (forall i :: 0 <= i < |gaps| ==> Spaces(gaps[i])) && (forall i :: 0 < i < |words| ==> gaps[i] != [])
    && forall i :: 0 <= i < |words| ==> Word(words[i])
  }

  lemma DropStep(t: Text)
    ensures t != [] && White(t[0]) ==> DropWhite(t) == DropWhite(t[1..])
    ensures t == [] || !White(t[0]) ==> DropWhite(t) == t
    ensures Spaces([])
  {
    hide White;
  }

  lemma SpacesCons(c: Code, gap: Text)
    requires White(c) && Spaces(gap)
    ensures Spaces([c] + gap)
  {
  }

  lemma {:induction false} DropRead(t: Text) returns (gap: Text)
    ensures t == gap + DropWhite(t) && Spaces(gap)
  {
    gap := [];
    DropStep(t);
    hide *;
    if t != [] && White(t[0]) {
      var more := DropRead(t[1..]);
      gap := [t[0]] + more;
      SpacesCons(t[0], more);
      assert t == [t[0]] + t[1..];
    }
  }

  lemma {:induction false} WordRead(t: Text)
    ensures forall i :: 0 <= i < WordLength(t) ==> !Space(t[i])
    ensures WordLength(t) < |t| ==> White(t[WordLength(t)])
  {
    if t != [] && !White(t[0]) {
      WordRead(t[1..]);
      forall i | 0 <= i < WordLength(t) ensures !Space(t[i]) {
        assert i > 0 ==> t[i] == t[1..][i - 1];
      }
    }
  }

  lemma SqueezeView(t: Text)
    ensures DropWhite(t) == [] ==> Squeeze(t) == []
    ensures var u := DropWhite(t);
            u != [] ==>
              && 0 < WordLength(u) <= |u| <= |t|
              && var word, rest := u[..WordLength(u)], DropWhite(u[WordLength(u)..]);
              && |rest| < |t| && (rest != [] ==> !White(rest[0]))
              && Squeeze(t) == if rest == [] then word else word + [Mark(' ')] + Squeeze(rest)
  {
    hide White;
    assert SPACE == Mark(' ');
  }

  /** Squeezing a text joins its words with single spaces. */
  lemma {:induction false} SqueezeExactly(t: Text) returns (gaps: seq<Text>, words: seq<Text>)
    ensures |gaps| == |words| + 1
    ensures Split(t, gaps, words) && Squeeze(t) == JoinedBy([Mark(' ')], words)
    decreases |t|
  {
    hide *;
    SqueezeView(t);
    var gap := DropRead(t);
    var u := DropWhite(t);
    if u == [] {
      gaps, words := [gap], [];
      assert gap == t;
      NoWord(t);
    } else {
      var n := WordLength(u);
      WordRead(u);
      var word, tail := u[..n], u[n..];
      assert u == word + tail;
      WordNow(u, n);
      var between := DropRead(tail);
      var rest := DropWhite(tail);
      if rest == [] {
        gaps, words := [gap, tail], [word];
        assert tail == between;
        OneWord(t, gap, word, tail);
      } else {
        var more, others := SqueezeExactly(rest);
        gaps, words := [gap, between] + more[1..], [word] + others;
        GapBetween(tail, between, rest);
        MoreWords(t, gap, word, between, rest, more, others);
      }
    }
  }

  lemma NoWord(t: Text)
    requires Spaces(t)
    ensures Split(t, [t], []) && JoinedBy([Mark(' ')], []) == []
  {
  }

  lemma WordNow(u: Text, n: nat)
    requires 0 < n <= |u| && forall i :: 0 <= i < n ==> !Space(u[i])
    ensures Word(u[..n])
  {
  }

  lemma GapBetween(tail: Text, between: Text, rest: Text)
    requires tail != [] && White(tail[0]) && tail == between + rest && rest != [] && !White(rest[0])
    ensures between != []
  {
    hide White;
  }

  lemma OneWord(t: Text, gap: Text, word: Text, tail: Text)
    requires t == gap + (word + tail) && Spaces(gap) && Spaces(tail) && Word(word)
    ensures Split(t, [gap, tail], [word]) && JoinedBy([Mark(' ')], [word]) == word
  {
    hide Spaces, Word;
    assert [gap, tail][1..] == [tail] && [word][1..] == [];
    assert Spread([tail], []) == tail;
  }

  lemma MoreWords(t: Text, gap: Text, word: Text, between: Text, rest: Text, more: seq<Text>, others: seq<Text>)
    requires t == gap + (word + (between + rest)) && Spaces(gap) && Spaces(between) && Word(word)
    requires between != [] && rest != [] && !White(rest[0]) && Split(rest, more, others)
    ensures Split(t, [gap, between] + more[1..], [word] + others)
    ensures others != [] && JoinedBy([Mark(' ')], [word] + others) == word + [Mark(' ')] + JoinedBy([Mark(' ')], others)
  {
    SolidStart(rest, more, others);
    hide Spaces, Word, White;
    var gaps, words := [gap, between] + more[1..], [word] + others;
    assert gaps[1..] == [between] + more[1..] && words[1..] == others;
    assert gaps[1..][1..] == more[1..];
    assert Spread(gaps[1..], others) == between + others[0] + Spread(more[1..], others[1..]);
    assert Spread(more, others) == more[0] + others[0] + Spread(more[1..], others[1..]);
    assert Spread(gaps[1..], others) == between + rest;
    assert Spread(gaps, words) == gap + word + (between + rest);
    forall i | 0 < i < |words| ensures gaps[i] != [] {
      if i > 1 { assert gaps[i] == more[i - 1]; }
    }
    forall i | 0 <= i < |gaps| ensures Spaces(gaps[i]) {
      if i > 1 { assert gaps[i] == more[i - 1]; }
    }
  }

  lemma SolidStart(rest: Text, gaps: seq<Text>, words: seq<Text>)
    requires rest != [] && !White(rest[0]) && Split(rest, gaps, words)
    ensures gaps[0] == [] && words != []
  {
    hide White, Word;
    assert Spaces(gaps[0]);
    assert rest == gaps[0] + if words == [] then [] else words[0] + Spread(gaps[1..], words[1..]);
    if gaps[0] != [] {
      HeadWhite(gaps[0], if words == [] then [] else words[0] + Spread(gaps[1..], words[1..]));
    }
  }

  lemma HeadWhite(gap: Text, tail: Text)
    requires gap != [] && Spaces(gap)
    ensures White((gap + tail)[0])
  {
  }
}
