/**
  The rules for a product body, written out: its syntax, its three members, the limits and
  letters of each, and the text that stands for an accepted body.
 */
module PayloadRules {
  import opened Options
  import opened Texts
  import opened Numerals
  import opened JsonValues
  import opened JsonPrinter
  import opened JsonDecoder
  import opened JsonSyntax
  import opened JsonGrammar
  import opened JsonLayout
  import opened Prices
  import opened Payload

  // ----- strict JSON

  /** No object names a key twice, and no named constant occurs. */
  predicate Plain(v: Json) {
    match v
    case Real(token) => token != Ascii("NaN") && token != Ascii("Infinity") && token != Ascii("-Infinity")
    case Arr(items) => forall i :: 0 <= i < |items| ==> Plain(items[i])
    case Obj(fields) =>
      && (forall i, j :: 0 <= i < j < |fields| ==> fields[i].key != fields[j].key)
      && forall i :: 0 <= i < |fields| ==> Plain(fields[i].value)
    case _ => true
  }

  lemma {:induction false} PlainIs(v: Json)
    ensures Unambiguous(v) <==> Plain(v)
  {
    ConstantsAre();
    hide NAN, INFINITY, NEG_INFINITY, Ascii;
    match v
    case Arr(items) => forall i | 0 <= i < |items| ensures Unambiguous(items[i]) <==> Plain(items[i]) { PlainIs(items[i]); }
    case Obj(fields) =>
      forall i | 0 <= i < |fields| ensures Unambiguous(fields[i].value) <==> Plain(fields[i].value) { PlainIs(fields[i].value); }
    case _ =>
  }

  /** The body is one piece of syntax between blanks, of this meaning. */
  ghost predicate Writes(body: Text, s: Syntax, before: Text, after: Text) {
    Wellformed(s) && Blanks(before) && Blanks(after) && body == before + JsonSyntax.TextOf(s) + after
  }

  /** A body is strict JSON exactly when it is the text of such a value. */
  lemma StrictExactly(body: Text, v: Json)
    ensures LoadsStrict(body) == Some(v)
            <==> Plain(v) && exists s, before, after :: Writes(body, s, before, after) && Meaning(s) == v
  {
    hide Wellformed, Blanks, JsonSyntax.TextOf, Meaning, Unambiguous, Plain, ParseValue, Skip;
    PlainIs(v);
    if LoadsStrict(body) == Some(v) {
      StrictRead(body);
    }
    if Plain(v) {
      if s, before, after :| Writes(body, s, before, after) && Meaning(s) == v {
        StrictReads(s, before, after);
      }
    }
  }

  lemma StrictRead(body: Text)
    requires LoadsStrict(body).Some?
    ensures exists s, before, after :: Writes(body, s, before, after) && Meaning(s) == LoadsStrict(body).value
  {
    hide ParseValue, Meaning, JsonSyntax.TextOf, Wellformed, Longest, Skip, Blanks, Unambiguous;
    var u := Skip(body);
    var s := ValueRead(u);
    var before := SkippedBlanks(body);
    var after := SkippedBlanks(ParseValue(u).rest);
    assert after == ParseValue(u).rest;
    assert body == before + JsonSyntax.TextOf(s) + after;
    assert Writes(body, s, before, after);
  }

  lemma StrictReads(s: Syntax, before: Text, after: Text)
    requires Wellformed(s) && Blanks(before) && Blanks(after) && Unambiguous(Meaning(s))
    ensures LoadsStrict(before + JsonSyntax.TextOf(s) + after) == Some(Meaning(s))
  {
    var t := before + JsonSyntax.TextOf(s) + after;
    JsonGrammar.HeadOf(s);
    assert t == before + (JsonSyntax.TextOf(s) + after) && (JsonSyntax.TextOf(s) + after)[0] == JsonSyntax.TextOf(s)[0];
    BlanksSkip(before, JsonSyntax.TextOf(s) + after);
    BlanksSkip(after, []);
    assert after + [] == after;
    assert Ends(after);
    hide ParseValue, Meaning, JsonSyntax.TextOf, Wellformed, Longest, Skip, Unambiguous;
    EndsLongest(s, after);
    ValueReads(s, after);
  }

  // ----- the three members

  /** Between these lengths, without controls, DEL and surrogates. */
  predicate Scalars(t: Text, minimum: nat, maximum: nat) {
    && minimum <= |t| <= maximum
    && forall i :: 0 <= i < |t| ==> t[i] >= 0x20 && t[i] != 0x7F && !(0xD800 <= t[i] <= 0xDFFF)
  }

  /** Zero or digits that do not begin with it, and perhaps a point and more digits. */
  ghost predicate PriceText(t: Text) {
    exists whole, fraction :: t == whole + fraction && WholePart(whole) && FractionPart(fraction)
  }

  lemma PriceParts(t: Text, i: nat)
    requires i <= |t|
    ensures SplitsAt(t, i) <==> WholePart(t[..i]) && FractionPart(t[i..])
  {
    WholeIs(t[..i]);
    hide WholeText, WholePart;
  }

  lemma WholeIs(t: Text)
    ensures WholeText(t) <==> WholePart(t)
  {
    if WholePart(t) && t[0] == Mark('0') {
      assert t == [ZERO];
    }
  }

  lemma PriceTextIs(t: Text)
    ensures Decimal(t) <==> PriceText(t)
  {
    hide *;
    DecimalIsPattern(t);
    DecimalMatches(t);
    if i: nat :| SplitsAt(t, i) {
      SplitWithin(t, i);
      PriceParts(t, i);
      assert t == t[..i] + t[i..];
      PriceFound(t, t[..i], t[i..]);
    }
    if PriceText(t) {
      var i := PriceSplit(t);
      PriceParts(t, i);
    }
  }

  lemma SplitWithin(t: Text, i: nat)
    requires SplitsAt(t, i)
    ensures i <= |t|
  {
  }

  lemma PriceFound(t: Text, whole: Text, fraction: Text)
    requires t == whole + fraction && WholePart(whole) && FractionPart(fraction)
    ensures PriceText(t)
  {
    hide WholePart, FractionPart;
  }

  lemma PriceSplit(t: Text) returns (i: nat)
    requires PriceText(t)
    ensures i <= |t| && WholePart(t[..i]) && FractionPart(t[i..])
  {
    hide WholePart, FractionPart;
    var whole, fraction :| t == whole + fraction && WholePart(whole) && FractionPart(fraction);
    i := |whole|;
    assert t[..i] == whole && t[i..] == fraction;
  }

  /** What a name, a price and a currency must be. */
  ghost predicate Allowed(name: Text, price: Text, currency: Text) {
    && Scalars(name, 1, 256) && Scalars(price, 1, 64) && PriceText(price)
    && |currency| == 3 && forall i :: 0 <= i < 3 ==> Mark('A') <= currency[i] <= Mark('Z')
  }

  lemma AllowedIs(p: Product)
    ensures ValidProduct(p) <==> Allowed(p.name, p.price, p.currency)
  {
    PriceTextIs(p.price);
    hide Decimal, PriceText;
  }

  /** The object has these three members and no other. */
  ghost predicate Holds(v: Json, name: Text, price: Text, currency: Text) {
    && v.Obj?
    && (forall i :: 0 <= i < |v.fields| ==>
          v.fields[i].key in {Ascii("product_name"), Ascii("listed_price"), Ascii("currency")})
    && Get(v.fields, Ascii("product_name")) == Some(Str(name)) && Get(v.fields, Ascii("listed_price")) == Some(Str(price))
    && Get(v.fields, Ascii("currency")) == Some(Str(currency))
  }

  lemma NamesAre()
    ensures NAME == Ascii("product_name") && PRICE == Ascii("listed_price") && CURRENCY == Ascii("currency")
  {
  }

  lemma HoldsIs(v: Json, p: Product)
    ensures ReadProduct(v) == Some(p) <==> ValidProduct(p) && Holds(v, p.name, p.price, p.currency)
  {
    NamesAre();
    ReadView(v, p);
    hide ReadProduct, ValidProduct, Ascii, NAME, PRICE, CURRENCY;
    if v.Obj? {
      KeySetIs(v.fields, {NAME, PRICE, CURRENCY});
      GetKey(v.fields, NAME);
      GetKey(v.fields, PRICE);
      GetKey(v.fields, CURRENCY);
    }
    hide Get, KeySet;
  }

  lemma GetKey(fields: Fields, key: Text)
    ensures Get(fields, key).Some? <==> key in KeySet(fields)
  {
    GetMember(fields, key);
  }

  lemma KeySetIs(fields: Fields, keys: set<Text>)
    ensures KeySet(fields) <= keys <==> forall i :: 0 <= i < |fields| ==> fields[i].key in keys
  {
    if KeySet(fields) <= keys {
      forall i | 0 <= i < |fields| ensures fields[i].key in keys {
        assert fields[i].key in KeySet(fields);
      }
    }
  }

  /** A body is accepted with these fields exactly when it keeps every rule. */
  lemma AcceptedByRules(body: Text, maxChars: nat, name: Text, price: Text, currency: Text)
    ensures ProductOf(body, maxChars) == Some(Product(name, price, currency))
            <==> && 0 < |body| <= maxChars && Allowed(name, price, currency)
                 && exists v :: LoadsStrict(body) == Some(v) && Holds(v, name, price, currency)
  {
    var p := Product(name, price, currency);
    AllowedIs(p);
    hide LoadsStrict, ReadProduct, Holds, ValidProduct, Allowed;
    if LoadsStrict(body).Some? {
      HoldsIs(LoadsStrict(body).value, p);
    }
  }

  /** A member of the text that stands for the three values. */
  function Entry(key: string, value: Text): Text {
    [Mark('"')] + Ascii(key) + [Mark('"')] + [Mark(':')] + RenderString(value)
  }

  /** That text: nothing between its marks, the keys in order. */
  function NormalForm(name: Text, price: Text, currency: Text): Text {
    [Mark('{')] + (Entry("currency", currency) + [Mark(',')] + Entry("listed_price", price) + [Mark(',')]
                   + Entry("product_name", name)) + [Mark('}')]
  }

  /** Characters that are printed as themselves. */
  lemma {:induction false} PlainChars(t: Text)
    requires forall i :: 0 <= i < |t| ==> 0x20 <= t[i] <= 0x7E && t[i] != Mark('"') && t[i] != Mark('\\')
    ensures RenderChars(t) == t
  {
    if t != [] {
      PlainChars(t[1..]);
      assert Escape(t[0]) == [t[0]];
    }
  }

  lemma KeyPrinted(key: Text)
    requires forall i :: 0 <= i < |key| ==> 0x20 <= key[i] <= 0x7E && key[i] != Mark('"') && key[i] != Mark('\\')
    ensures RenderString(key) == [Mark('"')] + key + [Mark('"')]
  {
    PlainChars(key);
    hide RenderChars;
  }

  lemma NamePrinted()
    ensures RenderString(NAME) == [Mark('"')] + Ascii("product_name") + [Mark('"')]
  {
    hide RenderString;
    KeyPrinted(NAME);
  }

  lemma PricePrinted()
    ensures RenderString(PRICE) == [Mark('"')] + Ascii("listed_price") + [Mark('"')]
  {
    hide RenderString;
    KeyPrinted(PRICE);
  }

  lemma CurrencyPrinted()
    ensures RenderString(CURRENCY) == [Mark('"')] + Ascii("currency") + [Mark('"')]
  {
    hide RenderString;
    KeyPrinted(CURRENCY);
  }

  lemma JoinThree(separator: Text, parts: seq<Text>)
    requires |parts| == 3
    ensures JoinedBy(separator, parts) == parts[0] + separator + parts[1] + separator + parts[2]
  {
    assert JoinedBy(separator, parts[1..]) == parts[1] + separator + JoinedBy(separator, parts[1..][1..]);
    assert JoinedBy(separator, parts[1..][1..]) == parts[2];
    assert parts[0] + separator + (parts[1] + separator + parts[2]) == parts[0] + separator + parts[1] + separator + parts[2];
  }

  /** The normal form is this text. */
  lemma NormalFormIs(p: Product)
    ensures Canonical(ProductJson(p)) == NormalForm(p.name, p.price, p.currency)
  {
    var fields := SortedProduct(p).fields;
    assert fields == [Field(CURRENCY, Str(p.currency)), Field(PRICE, Str(p.price)), Field(NAME, Str(p.name))];
    hide *;
    ProductSorted(p);
    LayoutsOf(ProductJson(p));
    SortedIs(p);
    DictPrinted(fields, 0);
    NamePrinted();
    PricePrinted();
    CurrencyPrinted();
    ScalarsPrinted(Str(p.currency), Compact, 1);
    ScalarsPrinted(Str(p.price), Compact, 1);
    ScalarsPrinted(Str(p.name), Compact, 1);
    var parts := FieldParts(fields, Compact, 1);
    JoinThree([Mark(',')], parts);
    EntryIs("currency", p.currency, RenderString(CURRENCY));
    EntryIs("listed_price", p.price, RenderString(PRICE));
    EntryIs("product_name", p.name, RenderString(NAME));
    NormalText(parts, p);
  }

  lemma SortedIs(p: Product)
    ensures SortedProduct(p) == Obj(SortedProduct(p).fields)
  {
  }

  lemma NormalText(parts: seq<Text>, p: Product)
    requires |parts| == 3 && parts[0] == Entry("currency", p.currency) && parts[1] == Entry("listed_price", p.price)
    requires parts[2] == Entry("product_name", p.name)
    ensures [Mark('{')] + (parts[0] + [Mark(',')] + parts[1] + [Mark(',')] + parts[2]) + [Mark('}')]
            == NormalForm(p.name, p.price, p.currency)
  {
    hide Entry, Mark;
  }

  lemma EntryIs(key: string, value: Text, name: Text)
    requires name == [Mark('"')] + Ascii(key) + [Mark('"')]
    ensures name + Ascii(":") + RenderString(value) == Entry(key, value)
  {
    assert Ascii(":") == [Mark(':')];
    hide RenderString, Mark, Ascii;
  }

  /** A body is accepted as a text exactly when it keeps every rule and the text is its values' own. */
  lemma PayloadByRules(body: Text, maxChars: nat, text: Text)
    ensures CanonicalProductPayload(body, maxChars) == Some(text)
            <==> exists name, price, currency, v ::
                   && 0 < |body| <= maxChars && Allowed(name, price, currency)
                   && LoadsStrict(body) == Some(v) && Holds(v, name, price, currency)
                   && text == NormalForm(name, price, currency)
  {
    hide LoadsStrict, ProductOf, Holds, Allowed, NormalForm, Canonical, ProductJson;
    if CanonicalProductPayload(body, maxChars) == Some(text) {
      var p := ProductOf(body, maxChars).value;
      AcceptedByRules(body, maxChars, p.name, p.price, p.currency);
      NormalFormIs(p);
      var v :| LoadsStrict(body) == Some(v) && Holds(v, p.name, p.price, p.currency);
    }
    if name, price, currency, v :|
      && 0 < |body| <= maxChars && Allowed(name, price, currency)
      && LoadsStrict(body) == Some(v) && Holds(v, name, price, currency)
      && text == NormalForm(name, price, currency)
    {
      AcceptedByRules(body, maxChars, name, price, currency);
      NormalFormIs(Product(name, price, currency));
    }
  }
}
