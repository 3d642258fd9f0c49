/**
  Compact rendering is the shortest text of a value: any text that decodes to it, with
  whatever white space and escapes, is at least as long, when its strings are printable.
 */
module Shortest {
  import opened Texts
  import opened Numerals
  import opened Sorting
  import opened JsonValues
  import opened JsonPrinter
  import opened JsonDecoder

  // ----- strings and numbers

  lemma ReadCharLength(t: Text)
    requires ReadChar(t).Some? && Printable(ReadChar(t).value.0)
    ensures |Escape(ReadChar(t).value.0)| <= ReadChar(t).value.1
  {
  }

  lemma CharsView(t: Text)
    requires ParseChars(t).Ok? && (t == [] || t[0] != QUOTE)
    ensures ReadChar(t).Some?
    ensures var (c, n) := ReadChar(t).value;
            && 0 < n <= |t| && ParseChars(t[n..]).Ok?
            && ParseChars(t).value == [c] + ParseChars(t[n..]).value && ParseChars(t).rest == ParseChars(t[n..]).rest
  {
    hide ReadChar;
  }

  lemma RenderCharsLength(c: Code, s: Text)
    ensures |RenderChars([c] + s)| == |Escape(c)| + |RenderChars(s)|
  {
    hide Escape;
    assert ([c] + s)[1..] == s;
  }

  lemma {:induction false} CharsShortest(t: Text)
    requires ParseChars(t).Ok? && PrintableText(ParseChars(t).value)
    ensures |RenderChars(ParseChars(t).value)| + 1 + |ParseChars(t).rest| <= |t|
    decreases |t|
  {
    if t != [] && t[0] == QUOTE {
      hide ReadChar;
      assert ParseChars(t) == Ok([], t[1..]);
    } else {
      CharsView(t);
      hide ReadChar, ParseChars, Escape;
      var (c, n) := ReadChar(t).value;
      var s := ParseChars(t[n..]).value;
      assert PrintableText(s) && Printable(c) by { FirstPrintable(c, s); }
      CharsShortest(t[n..]);
      ReadCharLength(t);
      RenderCharsLength(c, s);
    }
  }

  lemma FirstPrintable(c: Code, s: Text)
    requires PrintableText([c] + s)
    ensures Printable(c) && PrintableText(s)
  {
    var t := [c] + s;
    assert t[0] == c;
    forall i | 0 <= i < |s| ensures Printable(s[i]) { assert t[i + 1] == s[i]; }
  }

  lemma {:induction false} DigitsShortest(a: Text)
    requires a != [] && forall i :: 0 <= i < |a| ==> Digit(a[i])
    ensures |Digits(NatValue(a))| <= |a|
    decreases |a|
  {
    var n := |a| - 1;
    if n > 0 {
      DigitsShortest(a[..n]);
    } else {
      assert NatValue(a[..0]) == 0;
    }
  }

  lemma IntShortest(t: Text)
    requires IntLength(t) == |t| > 0
    ensures |IntText(IntValue(t))| <= |t|
  {
    var u := if t[0] == MINUS then t[1..] else t;
    assert t[0..] == t;
    assert u != [] && forall i :: 0 <= i < |u| ==> Digit(u[i]);
    DigitsShortest(u);
    hide NatValue, Digits, DigitRun;
    assert Digits(0) == [ZERO] by { DigitsZero(); }
  }

  lemma DigitsZero()
    ensures Digits(0) == [ZERO]
  {
  }

  lemma NumberShortest(t: Text, level: nat)
    requires ParseNumber(t).Ok?
    ensures |Render(ParseNumber(t).value, Compact, level)| + |ParseNumber(t).rest| <= |t|
  {
    var n := NumberLength(t);
    if n > 0 {
      NumberLengthPrefix(t);
      if n == IntLength(t) {
        IntShortest(t[..n]);
      }
    }
    hide NumberLength, IntLength, IntText, IntValue;
  }

  // ----- members and items, one at a time

  lemma ItemsLength(v: Json, items: seq<Json>, level: nat)
    ensures |RenderItems([v] + items, Compact, level)|
            == |Render(v, Compact, level)| + (if items == [] then 0 else 1 + |RenderItems(items, Compact, level)|)
  {
    hide Render;
    assert ([v] + items)[1..] == items;
  }

  lemma FieldsLength(fields: Fields, level: nat)
    requires fields != []
    ensures |RenderFields(fields, Compact, level)|
            == |RenderChars(fields[0].key)| + 3 + |Render(fields[0].value, Compact, level)|
               + (if |fields| == 1 then 0 else 1 + |RenderFields(fields[1..], Compact, level)|)
  {
    hide Render, RenderChars;
  }

  lemma CompactLength(v: Json, level: nat)
    ensures v.Str? ==> |Render(v, Compact, level)| == |RenderChars(v.s)| + 2
    ensures v == Arr([]) || v == Obj([]) ==> |Render(v, Compact, level)| == 2
    ensures v.Arr? && v.items != [] ==> |Render(v, Compact, level)| == |RenderItems(v.items, Compact, level + 1)| + 2
    ensures v.Obj? && v.fields != [] ==> |Render(v, Compact, level)| == |RenderFields(v.fields, Compact, level + 1)| + 2
    ensures v == Null || v == Bool(true) ==> |Render(v, Compact, level)| == 4
    ensures v == Bool(false) ==> |Render(v, Compact, level)| == 5
  {
    hide RenderItems, RenderFields, RenderChars;
  }

  lemma PrintableParts(v: Json)
    requires Everywhere(PrintableText, v)
    ensures v.Str? ==> PrintableText(v.s)
    ensures v.Arr? ==> forall i :: 0 <= i < |v.items| ==> Everywhere(PrintableText, v.items[i])
    ensures v.Obj? ==> forall i :: 0 <= i < |v.fields| ==> PrintableText(v.fields[i].key) && Everywhere(PrintableText, v.fields[i].value)
  {
  }

  // ----- the claim

  lemma {:induction false} ValueShortest(t: Text, level: nat)
    requires ParseValue(t).Ok? && Everywhere(PrintableText, ParseValue(t).value)
    ensures |Render(ParseValue(t).value, Compact, level)| + |ParseValue(t).rest| <= |t|
    decreases |t|, 1
  {
    NonEmpty(t);
    var v := ParseValue(t).value;
    PrintableParts(v);
    assert v.Obj? ==> PrintableFields(v.fields);
    assert v.Arr? ==> PrintableItems(v.items);
    CompactLength(v, level);
    hide *;
    if t[0] == QUOTE {
      StringView(t);
      CharsShortest(t[1..]);
    } else if t[0] == LBRACE {
      ObjectView(t);
      var u := Skip(t[1..]);
      if u[0] != RBRACE {
        FieldsShortest(u, level + 1);
      }
    } else if t[0] == LBRACKET {
      ArrayView(t);
      var u := Skip(t[1..]);
      if u[0] != RBRACKET {
        ItemsShortest(u, level + 1);
      }
    } else {
      ScalarView(t);
      if ParseNumber(t).Ok? && ParseValue(t) == ParseNumber(t) {
        NumberShortest(t, level);
      } else {
        Words(t);
      }
    }
  }

  lemma NonEmpty(t: Text)
    requires ParseValue(t).Ok?
    ensures t != []
  {
  }

  lemma Words(t: Text)
    ensures StartsWith(t, NULL) || StartsWith(t, TRUE) ==> |t| >= 4
    ensures StartsWith(t, FALSE) ==> |t| >= 5
  {
  }

  ghost predicate PrintableItems(items: seq<Json>) {
    forall i :: 0 <= i < |items| ==> Everywhere(PrintableText, items[i])
  }

  lemma ItemsView(t: Text)
    requires ParseItems(t).Ok?
    ensures ParseItems(t).value != [] && AfterValue(t) != []
    ensures ParseValue(t).Ok? && ParseItems(t).value[0] == ParseValue(t).value && |AfterValue(t)| <= |ParseValue(t).rest|
    ensures var all := ParseItems(t).value; var next := AfterValue(t); var u := Skip(next[1..]);
            || (|all| == 1 && ParseItems(t).rest == next[1..])
            || (|u| < |next| && |u| < |t| && ParseItems(u).Ok? && ParseItems(u).value == all[1..] &&
                ParseItems(t).rest == ParseItems(u).rest)
  {
    hide *;
    ItemView(t);
  }

  lemma PrintableRest(items: seq<Json>)
    requires items != [] && PrintableItems(items)
    ensures Everywhere(PrintableText, items[0]) && PrintableItems(items[1..])
  {
    hide Everywhere;
  }

  lemma {:induction false} ItemsShortest(t: Text, level: nat)
    requires ParseItems(t).Ok? && PrintableItems(ParseItems(t).value)
    ensures ParseItems(t).value != []
    ensures |RenderItems(ParseItems(t).value, Compact, level)| + 1 + |ParseItems(t).rest| <= |t|
    decreases |t|, 3
  {
    hide *;
    ItemsView(t);
    var all, next := ParseItems(t).value, AfterValue(t);
    PrintableRest(all);
    ValueShortest(t, level);
    ItemsLength(all[0], all[1..], level);
    assert all == [all[0]] + all[1..];
    if |all| > 1 || ParseItems(t).rest != next[1..] {
      ItemsShortest(Skip(next[1..]), level);
    }
  }

  ghost predicate PrintableFields(fields: Fields) {
    forall i :: 0 <= i < |fields| ==> PrintableText(fields[i].key) && Everywhere(PrintableText, fields[i].value)
  }

  lemma {:induction false} MemberShortest(t: Text, level: nat)
    requires ParseFields(t).Ok? && ParseFields(t).value != []
    requires PrintableText(ParseFields(t).value[0].key) && Everywhere(PrintableText, ParseFields(t).value[0].value)
    ensures var f := ParseFields(t).value[0];
            |RenderChars(f.key)| + 3 + |Render(f.value, Compact, level)| + |AfterValue(MemberValue(t))| <= |t|
    decreases |t|, 2
  {
    hide *;
    MemberView(t);
    CharsShortest(t[1..]);
    ValueShortest(MemberValue(t), level);
  }

  /** Where the members after the first one are read, or where the object closes. */
  lemma MembersView(t: Text)
    requires ParseFields(t).Ok?
    ensures ParseFields(t).value != [] && AfterValue(MemberValue(t)) != []
    ensures var all := ParseFields(t).value; var next := AfterValue(MemberValue(t)); var u := Skip(next[1..]);
            || (|all| == 1 && ParseFields(t).rest == next[1..])
            || (|u| < |next| && |u| < |t| && ParseFields(u).Ok? && ParseFields(u).value == all[1..] &&
                ParseFields(t).rest == ParseFields(u).rest)
  {
    hide *;
    MemberView(t);
  }

  lemma PrintableTail(fields: Fields)
    requires fields != [] && PrintableFields(fields)
    ensures PrintableText(fields[0].key) && Everywhere(PrintableText, fields[0].value) && PrintableFields(fields[1..])
  {
    hide Everywhere, PrintableText;
  }

  lemma {:induction false} FieldsShortest(t: Text, level: nat)
    requires ParseFields(t).Ok? && PrintableFields(ParseFields(t).value)
    ensures ParseFields(t).value != []
    ensures |RenderFields(ParseFields(t).value, Compact, level)| + 1 + |ParseFields(t).rest| <= |t|
    decreases |t|, 3
  {
    hide *;
    MembersView(t);
    var all := ParseFields(t).value;
    var next := AfterValue(MemberValue(t));
    PrintableTail(all);
    MemberShortest(t, level);
    FieldsLength(all, level);
    if |all| > 1 || ParseFields(t).rest != next[1..] {
      FieldsShortest(Skip(next[1..]), level);
    }
  }

  // ----- sorting keys keeps the length

  ghost function FieldsText(fields: Fields, level: nat): nat {
    if fields == [] then 0 else |RenderFields(fields, Compact, level)| + 1
  }

  lemma FieldsTextCons(f: Field, fields: Fields, level: nat)
    ensures FieldsText([f] + fields, level)
            == |RenderChars(f.key)| + 4 + |Render(f.value, Compact, level)| + FieldsText(fields, level)
  {
    FieldsLength([f] + fields, level);
    assert ([f] + fields)[1..] == fields;
    hide RenderFields, Render, RenderChars;
  }

  lemma {:induction false} InsertLength(f: Field, fields: Fields, level: nat)
    ensures FieldsText(Insert(KeyOf, f, fields), level) == FieldsText([f] + fields, level)
  {
    hide FieldsText, Less;
    if fields != [] && Less(KeyOf(fields[0]), KeyOf(f)) {
      var g, rest := fields[0], fields[1..];
      assert fields == [g] + rest;
      InsertLength(f, rest, level);
      FieldsTextCons(g, Insert(KeyOf, f, rest), level);
      FieldsTextCons(f, rest, level);
      FieldsTextCons(g, rest, level);
      FieldsTextCons(f, fields, level);
    }
  }

  lemma {:induction false} SortLength(fields: Fields, level: nat)
    ensures FieldsText(Sort(KeyOf, fields), level) == FieldsText(fields, level)
  {
    hide FieldsText, Less, Insert;
    if fields != [] {
      var f, rest := fields[0], fields[1..];
      assert fields == [f] + rest;
      SortLength(rest, level);
      InsertLength(f, Sort(KeyOf, rest), level);
      FieldsTextCons(f, rest, level);
      FieldsTextCons(f, Sort(KeyOf, rest), level);
    }
  }

  /** The canonical text is as long as the compact text in the members' own order. */
  lemma {:induction false} SortKeysLength(v: Json, level: nat)
    ensures |Render(SortKeys(v), Compact, level)| == |Render(v, Compact, level)|
    decreases v, 0
  {
    hide Render, RenderItems, RenderFields, Sort, SortValues;
    CompactLength(v, level);
    CompactLength(SortKeys(v), level);
    match v
    case Arr(items) =>
      SortItemsLength(items, level + 1);
    case Obj(fields) =>
      SortLength(SortValues(fields), level + 1);
      SortValuesLength(fields, level + 1);
      SortEmpty(fields);
    case _ =>
  }

  lemma SortEmpty(fields: Fields)
    ensures Sort(KeyOf, SortValues(fields)) == [] <==> fields == []
  {
    SortPermutes(KeyOf, SortValues(fields));
  }

  lemma SortKeysItems(items: seq<Json>)
    ensures SortKeys(Arr(items)) == Arr(seq(|items|, i requires 0 <= i < |items| => SortKeys(items[i])))
  {
  }

  lemma {:induction false} SortItemsLength(items: seq<Json>, level: nat)
    ensures SortKeys(Arr(items)).Arr? && |SortKeys(Arr(items)).items| == |items|
    ensures items != [] ==>
              |RenderItems(SortKeys(Arr(items)).items, Compact, level)| == |RenderItems(items, Compact, level)|
    decreases items, 1
  {
    hide Render, RenderItems, SortKeys;
    SortKeysItems(items);
    if items != [] {
      var v, rest := items[0], items[1..];
      SortKeysLength(v, level);
      SortItemsLength(rest, level);
      SortKeysItems(rest);
      var sorted := SortKeys(Arr(rest)).items;
      assert items == [v] + rest;
      assert SortKeys(Arr(items)).items == [SortKeys(v)] + sorted;
      ItemsLength(v, rest, level);
      ItemsLength(SortKeys(v), sorted, level);
    }
  }

  lemma {:induction false} SortValuesLength(fields: Fields, level: nat)
    ensures FieldsText(SortValues(fields), level) == FieldsText(fields, level)
    decreases fields, 1
  {
    hide FieldsText;
    if fields == [] {
      assert SortValues(fields) == [];
    } else {
      var f, rest := fields[0], fields[1..];
      assert fields == [f] + rest;
      SortKeysLength(f.value, level);
      SortValuesLength(rest, level);
      assert SortValues(fields) == [Field(f.key, SortKeys(f.value))] + SortValues(rest);
      FieldsTextCons(f, rest, level);
      FieldsTextCons(Field(f.key, SortKeys(f.value)), SortValues(rest), level);
    }
  }
}
