/**
  The two limits of Python's decoder that are not part of JSON: the digits an integer may
  have and the depth to which arrays and objects may nest. Past either one raw_decode
  raises something other than its decode error. Reading goes from left to right, so
  whichever comes first, a limit or a mistake in the text, decides.
 */
module JsonLimits {
  import opened Options
  import opened Texts
  import opened Numerals
  import opened JsonValues
  import opened JsonPrinter
  import opened JsonDecoder
  import opened JsonRoundTrip

  datatype Limits = Limits(digits: nat, depth: nat)

  /** One attempt to decode: a value, the decode error, or another exception. */
  datatype Attempt = Read(value: Json, rest: Text) | Refused | Raised

  function SignLength(t: Text): (n: nat)
    ensures n <= |t|
  {
    if t != [] && t[0] == MINUS then 1 else 0
  }

  /** The number token here is an integer of too many digits. */
  predicate TooLong(l: Limits, t: Text) {
    NumberLength(t) > 0 && NumberLength(t) == IntLength(t) && IntLength(t) - SignLength(t) > l.digits
  }

  /** Decoding a value here, with depth levels of nesting left, runs into a limit. */
  predicate ValueRaises(l: Limits, depth: nat, t: Text)
    decreases |t|, 0
  {
    if t == [] then false
    else if t[0] == LBRACE then
      var u := Skip(t[1..]);
      depth == 0 || ((u == [] || u[0] != RBRACE) && FieldsRaise(l, depth - 1, u))
    else if t[0] == LBRACKET then
      var u := Skip(t[1..]);
      depth == 0 || ((u == [] || u[0] != RBRACKET) && ItemsRaise(l, depth - 1, u))
    else TooLong(l, t)
  }

  predicate FieldsRaise(l: Limits, depth: nat, t: Text)
    decreases |t|, 1
  {
    t != [] && t[0] == QUOTE && ParseChars(t[1..]).Ok? &&
    var colon := Skip(ParseChars(t[1..]).rest);
    colon != [] && colon[0] == COLON &&
    var v := Skip(colon[1..]);
    || ValueRaises(l, depth, v)
    || (ParseValue(v).Ok? &&
        var next := Skip(ParseValue(v).rest);
        next != [] && next[0] == COMMA && FieldsRaise(l, depth, Skip(next[1..])))
  }

  predicate ItemsRaise(l: Limits, depth: nat, t: Text)
    decreases |t|, 1
  {
    || ValueRaises(l, depth, t)
    || (ParseValue(t).Ok? &&
        var next := Skip(ParseValue(t).rest);
        next != [] && next[0] == COMMA && ItemsRaise(l, depth, Skip(next[1..])))
  }

  /** JSONDecoder.raw_decode on the text from the given index on. */
  function RawDecode(l: Limits, t: Text): Attempt {
    if ValueRaises(l, l.depth, t) then Raised
    else
      match ParseValue(t)
      case Fail => Refused
      case Ok(v, rest) => Read(v, rest)
  }

  // ----- which values are within the limits

  predicate Fits(l: Limits, depth: nat, v: Json) {
    match v
    case Int(n) => |Digits(if n < 0 then -n else n)| <= l.digits
    case Arr(items) => depth > 0 && forall i :: 0 <= i < |items| ==> Fits(l, depth - 1, items[i])
    case Obj(fields) => depth > 0 && forall i :: 0 <= i < |fields| ==> Fits(l, depth - 1, fields[i].value)
    case _ => true
  }

  predicate AllFit(l: Limits, depth: nat, items: seq<Json>) {
    forall i :: 0 <= i < |items| ==> Fits(l, depth, items[i])
  }

  predicate FieldsFit(l: Limits, depth: nat, fields: Fields) {
    forall i :: 0 <= i < |fields| ==> Fits(l, depth, fields[i].value)
  }

  lemma IntLimit(l: Limits, t: Text)
    requires NumberLength(t) > 0 && NumberLength(t) == IntLength(t)
    ensures ParseNumber(t).Ok? && ParseNumber(t).value.Int?
    ensures TooLong(l, t) <==> !Fits(l, 0, ParseNumber(t).value)
  {
    var n := IntLength(t);
    NumberLengthPrefix(t);
    TokenDigits(t[..n]);
    assert ParseNumber(t) == Ok(Int(IntValue(t[..n])), t[n..]);
    hide IntLength, NumberLength, IntValue, Digits;
  }

  /** An integer token is its sign and the decimal digits of its value. */
  lemma TokenDigits(t: Text)
    requires IntLength(t) == |t| > 0
    ensures var n := IntValue(t); |t| == SignLength(t) + |Digits(if n < 0 then -n else n)|
  {
    var u := t[SignLength(t)..];
    assert t[0..] == t;
    assert WholeText(u) && AllDigits(u) by { TokenWhole(t); }
    DigitsNatValue(u);
    hide NatValue, Digits, IntLength, DigitRun;
    assert t[0] == MINUS ==> NatValue(u) == -IntValue(t);
  }

  lemma TokenWhole(t: Text)
    requires IntLength(t) == |t| > 0
    ensures WholeText(t[SignLength(t)..]) && AllDigits(t[SignLength(t)..])
  {
    var u := t[SignLength(t)..];
    if u[0] == ZERO {
      assert u == [ZERO];
    }
  }

  lemma ScalarLimit(l: Limits, t: Text)
    requires ParseValue(t).Ok? && t[0] != QUOTE && t[0] != LBRACE && t[0] != LBRACKET
    ensures TooLong(l, t) <==> !Fits(l, 0, ParseValue(t).value)
    ensures !ParseValue(t).value.Arr? && !ParseValue(t).value.Obj?
  {
    ScalarView(t);
    if NumberLength(t) > 0 {
      NumberStart(t);
      if NumberLength(t) == IntLength(t) {
        IntLimit(l, t);
      } else {
        NumberLengthPrefix(t);
      }
    }
    hide ParseValue, NumberLength, IntLength, Digits;
  }

  lemma NumberStart(t: Text)
    requires NumberLength(t) > 0
    ensures t != [] && ParseValue(t) == ParseNumber(t)
  {
    assert t[0..] == t;
    NumberBranch(t);
  }

  lemma ArrayFits(l: Limits, depth: nat, items: seq<Json>)
    ensures Fits(l, depth, Arr(items)) <==> depth > 0 && AllFit(l, depth - 1, items)
    ensures AllFit(l, depth, []) && forall v :: AllFit(l, depth, [v] + items) <==> Fits(l, depth, v) && AllFit(l, depth, items)
  {
    forall v ensures AllFit(l, depth, [v] + items) <==> Fits(l, depth, v) && AllFit(l, depth, items) {
      var all := [v] + items;
      if AllFit(l, depth, all) {
        assert Fits(l, depth, all[0]);
        forall i | 0 <= i < |items| ensures Fits(l, depth, items[i]) { assert items[i] == all[i + 1]; }
      }
    }
  }

  lemma ObjectFits(l: Limits, depth: nat, fields: Fields)
    ensures Fits(l, depth, Obj(fields)) <==> depth > 0 && FieldsFit(l, depth - 1, fields)
    ensures FieldsFit(l, depth, [])
    ensures forall f :: FieldsFit(l, depth, [f] + fields) <==> Fits(l, depth, f.value) && FieldsFit(l, depth, fields)
  {
    forall f ensures FieldsFit(l, depth, [f] + fields) <==> Fits(l, depth, f.value) && FieldsFit(l, depth, fields) {
      var all := [f] + fields;
      if FieldsFit(l, depth, all) {
        assert Fits(l, depth, all[0].value);
        forall i | 0 <= i < |fields| ensures Fits(l, depth, fields[i].value) { assert fields[i] == all[i + 1]; }
      }
    }
  }

  lemma FitsAnyDepth(l: Limits, depth: nat, v: Json)
    requires !v.Arr? && !v.Obj?
    ensures Fits(l, depth, v) <==> Fits(l, 0, v)
  {
    hide Digits;
  }

  lemma RaisesView(l: Limits, depth: nat, t: Text)
    ensures t == [] ==> !ValueRaises(l, depth, t)
    ensures t != [] && t[0] == LBRACE ==>
              var u := Skip(t[1..]);
              ValueRaises(l, depth, t) <==> depth == 0 || ((u == [] || u[0] != RBRACE) && FieldsRaise(l, depth - 1, u))
    ensures t != [] && t[0] == LBRACKET ==>
              var u := Skip(t[1..]);
              ValueRaises(l, depth, t) <==> depth == 0 || ((u == [] || u[0] != RBRACKET) && ItemsRaise(l, depth - 1, u))
    ensures t != [] && t[0] != LBRACE && t[0] != LBRACKET ==> (ValueRaises(l, depth, t) <==> TooLong(l, t))
  {
    hide TooLong, Skip, FieldsRaise, ItemsRaise;
  }

  lemma StringNotNumber(l: Limits, t: Text)
    requires t != [] && t[0] == QUOTE
    ensures !TooLong(l, t)
  {
    NoNumber(t);
  }

  lemma MarksDiffer()
    ensures QUOTE != LBRACE && QUOTE != LBRACKET && LBRACE != LBRACKET && COMMA != RBRACE && COMMA != RBRACKET
  {
  }

  /** What was decoded without limits is decoded within them exactly when the value fits. */
  lemma {:induction false} RaisesUnlessFits(l: Limits, depth: nat, t: Text)
    requires ParseValue(t).Ok?
    ensures ValueRaises(l, depth, t) <==> !Fits(l, depth, ParseValue(t).value)
    decreases |t|, 1
  {
    hide *;
    MarksDiffer();
    RaisesView(l, depth, t);
    var v := ParseValue(t).value;
    ParsedHead(t);
    if t[0] == QUOTE {
      StringView(t);
      StringNotNumber(l, t);
      StringFits(l, depth, v);
    } else if t[0] == LBRACE {
      ObjectView(t);
      var u := Skip(t[1..]);
      ObjectFits(l, depth, v.fields);
      if depth > 0 {
        ObjectFits(l, depth - 1, []);
        if u[0] != RBRACE { FieldsRaiseUnlessFit(l, depth - 1, u); }
      }
    } else if t[0] == LBRACKET {
      ArrayView(t);
      var u := Skip(t[1..]);
      ArrayFits(l, depth, v.items);
      if depth > 0 {
        ArrayFits(l, depth - 1, []);
        if u[0] != RBRACKET { ItemsRaiseUnlessFit(l, depth - 1, u); }
      }
    } else {
      ScalarLimit(l, t);
      FitsAnyDepth(l, depth, v);
    }
  }

  lemma ParsedHead(t: Text)
    requires ParseValue(t).Ok?
    ensures t != []
  {
  }

  lemma StringFits(l: Limits, depth: nat, v: Json)
    requires v.Str?
    ensures Fits(l, depth, v)
  {
  }

  lemma ItemsRaiseView(l: Limits, depth: nat, t: Text)
    requires ParseValue(t).Ok?
    ensures var next := AfterValue(t);
            ItemsRaise(l, depth, t) <==>
            || ValueRaises(l, depth, t)
            || (next != [] && next[0] == COMMA && ItemsRaise(l, depth, Skip(next[1..])))
  {
    hide ParseValue, Skip, ValueRaises;
  }

  lemma {:induction false} ItemsRaiseUnlessFit(l: Limits, depth: nat, t: Text)
    requires ParseItems(t).Ok?
    ensures ItemsRaise(l, depth, t) <==> !AllFit(l, depth, ParseItems(t).value)
    decreases |t|, 2
  {
    hide *;
    MarksDiffer();
    ItemView(t);
    var next, v := AfterValue(t), ParseValue(t).value;
    ItemsRaiseView(l, depth, t);
    RaisesUnlessFits(l, depth, t);
    ArrayFits(l, depth, []);
    if next[0] == COMMA {
      var u := Skip(next[1..]);
      ItemsRaiseUnlessFit(l, depth, u);
      ArrayFits(l, depth, ParseItems(u).value);
    } else {
      assert [v] + [] == [v];
    }
  }

  lemma FieldsRaiseView(l: Limits, depth: nat, t: Text)
    requires ParseFields(t).Ok?
    ensures var v := MemberValue(t); var next := AfterValue(v);
            FieldsRaise(l, depth, t) <==>
            || ValueRaises(l, depth, v)
            || (next != [] && next[0] == COMMA && FieldsRaise(l, depth, Skip(next[1..])))
  {
    MemberView(t);
    hide ParseValue, ParseFields, ParseChars, Skip, ValueRaises;
  }

  lemma {:induction false} FieldsRaiseUnlessFit(l: Limits, depth: nat, t: Text)
    requires ParseFields(t).Ok?
    ensures FieldsRaise(l, depth, t) <==> !FieldsFit(l, depth, ParseFields(t).value)
    decreases |t|, 2
  {
    hide *;
    MarksDiffer();
    MemberView(t);
    var v := MemberValue(t);
    var next := AfterValue(v);
    var field := Field(ParseChars(t[1..]).value, ParseValue(v).value);
    FieldsRaiseView(l, depth, t);
    RaisesUnlessFits(l, depth, v);
    ObjectFits(l, depth, []);
    if next[0] == COMMA {
      var u := Skip(next[1..]);
      FieldsRaiseUnlessFit(l, depth, u);
      ObjectFits(l, depth, ParseFields(u).value);
    } else {
      assert [field] + [] == [field];
    }
  }

  // ----- state files

  /** json.loads of a text whose decoding stays within the limits; past them it raises. */
  function LoadsWithin(l: Limits, t: Text): Option<Json> {
    if ValueRaises(l, l.depth, Skip(t)) then None else Loads(t)
  }

  /** json.dumps with sorted keys goes through: no integer too long to print, no nesting too deep. */
  predicate Writable(l: Limits, v: Json) {
    Fits(l, l.depth, SortKeys(v))
  }

  // ----- texts that never raise, and texts that always do

  /** Opening braces and brackets in a text, inside strings or not. */
  function Openers(t: Text): (n: nat)
    ensures n <= |t|
  {
    if t == [] then 0 else (if t[0] == LBRACE || t[0] == LBRACKET then 1 else 0) + Openers(t[1..])
  }

  /** No run of digits in the text is longer than n. */
  predicate RunsWithin(t: Text, n: nat) {
    forall i :: 0 <= i <= |t| ==> DigitRun(t[i..]) <= n
  }

  ghost predicate Suffix(s: Text, t: Text) {
    |s| <= |t| && s == t[|t| - |s|..]
  }

  lemma SuffixThrough(s: Text, t: Text, u: Text)
    requires Suffix(s, t) && Suffix(t, u)
    ensures Suffix(s, u)
  {
    assert u[|u| - |t|..][|t| - |s|..] == u[|u| - |s|..];
  }

  lemma DropSuffix(t: Text, n: nat)
    requires n <= |t|
    ensures Suffix(t[n..], t)
  {
  }

  lemma {:induction false} SkipSuffix(t: Text)
    ensures Suffix(Skip(t), t)
  {
    if t != [] && Blank(t[0]) {
      SkipSuffix(t[1..]);
      DropSuffix(t, 1);
      SuffixThrough(Skip(t), t[1..], t);
    }
  }

  /** What follows a character, blanks dropped. */
  lemma NextSuffix(t: Text)
    requires t != []
    ensures Suffix(Skip(t[1..]), t) && |Skip(t[1..])| < |t|
  {
    SkipSuffix(t[1..]);
    DropSuffix(t, 1);
    SuffixThrough(Skip(t[1..]), t[1..], t);
  }

  lemma {:induction false} CharsSuffix(t: Text)
    requires ParseChars(t).Ok?
    ensures Suffix(ParseChars(t).rest, t)
    decreases |t|
  {
    if t != [] && t[0] == QUOTE {
      hide ReadChar;
      DropSuffix(t, 1);
    } else {
      var n := ReadChar(t).value.1;
      assert ReadChar(t).Some? && ParseChars(t[n..]).Ok? && ParseChars(t).rest == ParseChars(t[n..]).rest;
      hide ReadChar, ParseChars;
      CharsSuffix(t[n..]);
      DropSuffix(t, n);
      SuffixThrough(ParseChars(t).rest, t[n..], t);
    }
  }

  lemma NumberSuffix(t: Text)
    requires ParseNumber(t).Ok?
    ensures Suffix(ParseNumber(t).rest, t)
  {
    hide IntLength, NumberLength, IntValue;
    assert exists n :: 0 <= n <= |t| && ParseNumber(t).rest == t[n..];
  }

  /** What a parser leaves is a suffix of what it was given. */
  lemma {:induction false} ValueSuffix(t: Text)
    requires ParseValue(t).Ok?
    ensures Suffix(ParseValue(t).rest, t)
    decreases |t|, 1
  {
    ParsedHead(t);
    MarksDiffer();
    WordsSuffix(t);
    hide *;
    if t[0] == QUOTE {
      StringView(t);
      CharsSuffix(t[1..]);
      DropSuffix(t, 1);
      SuffixThrough(ParseValue(t).rest, t[1..], t);
    } else if t[0] == LBRACE {
      ObjectView(t);
      NextSuffix(t);
      var u := Skip(t[1..]);
      if u[0] == RBRACE { DropSuffix(u, 1); } else { FieldsSuffix(u); }
      SuffixThrough(ParseValue(t).rest, u, t);
    } else if t[0] == LBRACKET {
      ArrayView(t);
      NextSuffix(t);
      var u := Skip(t[1..]);
      if u[0] == RBRACKET { DropSuffix(u, 1); } else { ItemsSuffix(u); }
      SuffixThrough(ParseValue(t).rest, u, t);
    } else {
      ScalarView(t);
      if ParseNumber(t).Ok? { NumberSuffix(t); }
    }
  }

  lemma WordsSuffix(t: Text)
    ensures StartsWith(t, NULL) || StartsWith(t, TRUE) ==> |t| >= 4 && Suffix(t[4..], t)
    ensures StartsWith(t, FALSE) ==> |t| >= 5 && Suffix(t[5..], t)
  {
  }

  lemma {:induction false} ItemsSuffix(t: Text)
    requires ParseItems(t).Ok?
    ensures Suffix(ParseItems(t).rest, t)
    decreases |t|, 2
  {
    hide *;
    MarksDiffer();
    ItemView(t);
    ValueSuffix(t);
    var next := AfterValue(t);
    SkipSuffix(ParseValue(t).rest);
    SuffixThrough(next, ParseValue(t).rest, t);
    AfterSeparator(t, next, ParseItems(t).rest);
    if next[0] == COMMA {
      ItemsSuffix(Skip(next[1..]));
      SuffixThrough(ParseItems(t).rest, Skip(next[1..]), next);
      SuffixThrough(ParseItems(t).rest, next, t);
    }
  }

  lemma AfterSeparator(t: Text, next: Text, rest: Text)
    requires next != [] && Suffix(next, t)
    ensures Suffix(next[1..], t) && Suffix(Skip(next[1..]), next)
  {
    DropSuffix(next, 1);
    SuffixThrough(next[1..], next, t);
    NextSuffix(next);
  }

  /** The way from a member to its value, and to what follows it. */
  lemma MemberSuffix(t: Text)
    requires t != [] && ParseChars(t[1..]).Ok?
    requires var colon := Skip(ParseChars(t[1..]).rest); colon != []
    ensures var v := Skip(Skip(ParseChars(t[1..]).rest)[1..]); Suffix(v, t) && |v| < |t|
  {
    hide *;
    var rest := ParseChars(t[1..]).rest;
    var colon := Skip(rest);
    CharsSuffix(t[1..]);
    DropSuffix(t, 1);
    SuffixThrough(rest, t[1..], t);
    SkipSuffix(rest);
    SuffixThrough(colon, rest, t);
    NextSuffix(colon);
    SuffixThrough(Skip(colon[1..]), colon, t);
    SuffixShorter(colon, t);
  }

  lemma SuffixShorter(s: Text, t: Text)
    requires Suffix(s, t)
    ensures |s| <= |t|
  {
  }

  lemma {:induction false} FieldsSuffix(t: Text)
    requires ParseFields(t).Ok?
    ensures Suffix(ParseFields(t).rest, t)
    decreases |t|, 2
  {
    hide *;
    MarksDiffer();
    MemberView(t);
    MemberSuffix(t);
    var v := MemberValue(t);
    var next := AfterValue(v);
    ValueSuffix(v);
    SkipSuffix(ParseValue(v).rest);
    SuffixThrough(ParseValue(v).rest, v, t);
    SuffixThrough(next, ParseValue(v).rest, t);
    AfterSeparator(t, next, ParseFields(t).rest);
    if next[0] == COMMA {
      FieldsSuffix(Skip(next[1..]));
      SuffixThrough(ParseFields(t).rest, Skip(next[1..]), next);
      SuffixThrough(ParseFields(t).rest, next, t);
    }
  }

  /** Few enough opening marks for the depth left, and no run of digits too long. */
  predicate Modest(l: Limits, depth: nat, t: Text) {
    Openers(t) <= depth && RunsWithin(t, l.digits)
  }

  lemma {:induction false} OpenersDrop(t: Text, n: nat)
    requires n <= |t|
    ensures Openers(t[n..]) <= Openers(t)
    decreases n
  {
    if n > 0 {
      OpenersDrop(t[1..], n - 1);
      assert t[1..][n - 1..] == t[n..];
    }
  }

  lemma RunsDrop(t: Text, n: nat, limit: nat)
    requires n <= |t| && RunsWithin(t, limit)
    ensures RunsWithin(t[n..], limit)
  {
    forall i | 0 <= i <= |t| - n ensures DigitRun(t[n..][i..]) <= limit {
      assert t[n..][i..] == t[n + i..];
      assert DigitRun(t[n + i..]) <= limit;
    }
    hide DigitRun;
  }

  lemma ModestSuffix(l: Limits, depth: nat, s: Text, t: Text)
    requires Modest(l, depth, t) && Suffix(s, t)
    ensures Modest(l, depth, s)
  {
    hide RunsWithin, Openers;
    OpenersDrop(t, |t| - |s|);
    RunsDrop(t, |t| - |s|, l.digits);
  }

  /** Past an opening mark one mark fewer is left. */
  lemma ModestInside(l: Limits, depth: nat, t: Text)
    requires t != [] && (t[0] == LBRACE || t[0] == LBRACKET) && Modest(l, depth, t)
    ensures depth > 0 && Modest(l, depth - 1, Skip(t[1..]))
  {
    DropSuffix(t, 1);
    RunsDrop(t, 1, l.digits);
    assert Modest(l, depth - 1, t[1..]);
    hide Modest, Openers, RunsWithin;
    SkipSuffix(t[1..]);
    ModestSuffix(l, depth - 1, Skip(t[1..]), t[1..]);
  }

  lemma ModestNumber(l: Limits, t: Text)
    requires RunsWithin(t, l.digits)
    ensures !TooLong(l, t)
  {
    var s := SignLength(t);
    assert DigitRun(t[s..]) <= l.digits;
    if NumberLength(t) > 0 {
      IntWithinRun(t);
    }
    hide NumberLength, IntLength, DigitRun, RunsWithin;
  }

  lemma IntWithinRun(t: Text)
    ensures IntLength(t) > 0 ==> IntLength(t) - SignLength(t) <= DigitRun(t[SignLength(t)..])
  {
  }

  /** A text with few opening marks and short runs of digits never makes the decoder raise. */
  lemma {:induction false} ModestNeverRaises(l: Limits, depth: nat, t: Text)
    requires Modest(l, depth, t)
    ensures !ValueRaises(l, depth, t)
    decreases |t|, 1
  {
    hide *;
    if t != [] && (t[0] == LBRACE || t[0] == LBRACKET) {
      ModestInside(l, depth, t);
      NextSuffix(t);
      NestedNever(l, depth - 1, Skip(t[1..]), t);
    } else {
      ModestScalar(l, depth, t);
    }
  }

  lemma ModestScalar(l: Limits, depth: nat, t: Text)
    requires Modest(l, depth, t) && !(t != [] && (t[0] == LBRACE || t[0] == LBRACKET))
    ensures !ValueRaises(l, depth, t)
  {
    ModestNumber(l, t);
    RaisesView(l, depth, t);
    hide ValueRaises, TooLong, Modest;
  }

  lemma {:induction false} ModestNested(l: Limits, depth: nat, u: Text)
    requires Modest(l, depth, u)
    ensures !FieldsRaise(l, depth, u) && !ItemsRaise(l, depth, u)
    decreases |u|, 3
  {
    hide *;
    ModestFields(l, depth, u);
    ModestItems(l, depth, u);
  }

  lemma {:induction false} NestedNever(l: Limits, inside: nat, u: Text, t: Text)
    requires t != [] && (t[0] == LBRACE || t[0] == LBRACKET) && u == Skip(t[1..]) && |u| < |t|
    requires Modest(l, inside, u)
    ensures !ValueRaises(l, inside + 1, t)
    decreases |t|, 0
  {
    hide *;
    ModestNested(l, inside, u);
    NestedView(l, inside, u, t);
  }

  lemma NestedView(l: Limits, inside: nat, u: Text, t: Text)
    requires t != [] && (t[0] == LBRACE || t[0] == LBRACKET) && u == Skip(t[1..])
    requires !FieldsRaise(l, inside, u) && !ItemsRaise(l, inside, u)
    ensures !ValueRaises(l, inside + 1, t)
  {
    hide Skip, FieldsRaise, ItemsRaise;
  }

  lemma {:induction false} ModestItems(l: Limits, depth: nat, t: Text)
    requires Modest(l, depth, t)
    ensures !ItemsRaise(l, depth, t)
    decreases |t|, 2
  {
    hide ParseValue, ValueRaises, Skip, Modest, Suffix;
    ModestNeverRaises(l, depth, t);
    if ParseValue(t).Ok? {
      var next := Skip(ParseValue(t).rest);
      if next != [] {
        DropSuffix(t, 0);
        assert t[0..] == t;
        ModestNext(l, depth, t, t);
        ModestItems(l, depth, Skip(next[1..]));
      }
    }
  }

  /** Behind a value that is itself part of the text. */
  lemma ModestNext(l: Limits, depth: nat, v: Text, t: Text)
    requires Modest(l, depth, t) && Suffix(v, t) && ParseValue(v).Ok? && Skip(ParseValue(v).rest) != []
    ensures var next := Skip(ParseValue(v).rest); Modest(l, depth, Skip(next[1..])) && |Skip(next[1..])| < |t|
  {
    hide *;
    var next := Skip(ParseValue(v).rest);
    ValueSuffix(v);
    SuffixThrough(ParseValue(v).rest, v, t);
    SkipSuffix(ParseValue(v).rest);
    SuffixThrough(next, ParseValue(v).rest, t);
    NextSuffix(next);
    SuffixThrough(Skip(next[1..]), next, t);
    SuffixShorter(next, t);
    ModestSuffix(l, depth, Skip(next[1..]), t);
  }

  lemma {:induction false} ModestFields(l: Limits, depth: nat, t: Text)
    requires Modest(l, depth, t)
    ensures !FieldsRaise(l, depth, t)
    decreases |t|, 2
  {
    hide ParseValue, ValueRaises, Skip, ParseChars, Modest, Suffix;
    if t != [] && t[0] == QUOTE && ParseChars(t[1..]).Ok? {
      var colon := Skip(ParseChars(t[1..]).rest);
      if colon != [] {
        var v := Skip(colon[1..]);
        MemberSuffix(t);
        ModestSuffix(l, depth, v, t);
        ModestNeverRaises(l, depth, v);
        if ParseValue(v).Ok? {
          var next := Skip(ParseValue(v).rest);
          if next != [] {
            ModestNext(l, depth, v, t);
            ModestFields(l, depth, Skip(next[1..]));
          }
        }
      }
    }
  }

  /** The beginning of an object with one short key: {"a": */
  const OPENING: Text := [LBRACE, QUOTE, 0x61, QUOTE, COLON]

  lemma OpeningRaises(l: Limits, depth: nat, t: Text)
    requires t != [] && !Blank(t[0]) && (depth == 0 || ValueRaises(l, depth - 1, t))
    ensures ValueRaises(l, depth, OPENING + t)
  {
    var s := OPENING + t;
    var u := s[1..];
    assert Skip(u) == u && u[0] == QUOTE;
    RaisesView(l, depth, s);
    if depth > 0 {
      KeyRead(t);
      assert Skip(t) == t;
      hide ValueRaises, ParseChars;
      assert Skip([COLON] + t) == [COLON] + t && ([COLON] + t)[1..] == t;
      assert FieldsRaise(l, depth - 1, u);
    }
  }

  lemma KeyRead(t: Text)
    ensures var u := (OPENING + t)[1..]; ParseChars(u[1..]) == Ok([0x61], [COLON] + t)
  {
    var u := (OPENING + t)[2..];
    var w := [QUOTE, COLON] + t;
    assert (OPENING + t)[1..][1..] == u;
    assert u[1..] == w && w[1..] == [COLON] + t;
    var none: Text := [];
    assert ParseChars(w) == Ok(none, [COLON] + t);
    assert ReadChar(u) == Some((0x61, 1));
    assert [0x61] + none == [0x61];
  }

  /** A member that starts with an integer of too many digits. */
  lemma LongNumeralRaises(l: Limits, digits: Text, rest: Text)
    requires WholeText(digits) && AllDigits(digits) && |digits| > l.digits && Bounded(rest)
    ensures ValueRaises(l, l.depth, OPENING + (digits + rest))
  {
    var t := digits + rest;
    DigitsRun(digits);
    assert digits[0..] == digits && digits[|digits|..] == [];
    assert IntLength(digits) == |digits| && NumberLength(digits) == |digits|;
    NumberLengthConcat(digits, rest);
    IntLengthConcat(digits, rest);
    hide IntLength, NumberLength, DigitRun, Bounded;
    assert Digit(t[0]);
    assert TooLong(l, t);
    if l.depth > 0 {
      RaisesView(l, l.depth - 1, t);
    }
    OpeningRaises(l, l.depth, t);
  }

  function Brackets(n: nat): (t: Text)
    ensures |t| == n && forall i :: 0 <= i < n ==> t[i] == LBRACKET
  {
    seq(n, _ => LBRACKET)
  }

  lemma {:induction false} BracketsRaise(l: Limits, depth: nat, n: nat, rest: Text)
    requires n > depth
    ensures ValueRaises(l, depth, Brackets(n) + rest)
    decreases depth
  {
    var t := Brackets(n) + rest;
    assert t[0] == LBRACKET;
    RaisesView(l, depth, t);
    if depth > 0 {
      var u := Brackets(n - 1) + rest;
      assert t[1..] == u && u[0] == LBRACKET;
      assert Skip(u) == u;
      BracketsRaise(l, depth - 1, n - 1, rest);
      hide ValueRaises;
      assert ItemsRaise(l, depth - 1, u);
    }
  }

  /** A member that starts with arrays nested too deep, whatever follows. */
  lemma DeepNestingRaises(l: Limits, n: nat, rest: Text)
    requires n > 0 && n >= l.depth
    ensures ValueRaises(l, l.depth, OPENING + (Brackets(n) + rest))
  {
    var t := Brackets(n) + rest;
    assert t[0] == LBRACKET;
    if l.depth > 0 {
      BracketsRaise(l, l.depth - 1, n, rest);
    }
    OpeningRaises(l, l.depth, t);
  }
}
