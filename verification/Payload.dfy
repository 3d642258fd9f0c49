/** The normal form of a product page body: three checked fields, or nothing. */
module Payload {
  import opened Options
  import opened Texts
  import opened Numerals
  import opened Sorting
  import opened JsonValues
  import opened JsonPrinter
  import opened JsonDecoder
  import opened JsonRoundTrip
  import opened JsonIdentity
  import opened JsonLimits
  import opened Shortest
  import opened Prices

  const MAX_RESPONSE_BODY_CHARS := 16_384
  const MAX_PRODUCT_NAME_CHARS := 256
  const MAX_PRICE_TEXT_CHARS := 64

  const NAME: Text := Ascii("product_name")
  const PRICE: Text := Ascii("listed_price")
  const CURRENCY: Text := Ascii("currency")

  // ----- strict decoding

  predicate UniqueKeys(fields: Fields) {
    forall i, j :: 0 <= i < j < |fields| ==> fields[i].key != fields[j].key
  }

  lemma UniqueIsDistinct(fields: Fields)
    ensures UniqueKeys(fields) <==> DistinctKeys(KeyOf, fields)
  {
    forall i, j | 0 <= i < j < |fields| ensures KeyOf(fields[i]) != KeyOf(fields[j]) <==> fields[i].key != fields[j].key {
    }
  }

  /** object_pairs_hook: a dict of the members, or nothing when a key repeats. */
  method UniqueObject(pairs: Fields) returns (r: Option<Fields>)
    ensures r == if UniqueKeys(pairs) then Some(pairs) else None
  {
    UniqueIsDistinct(pairs);
    var result: Fields := [];
    var i := 0;
    while i < |pairs|
      invariant 0 <= i <= |pairs| && result == pairs[..i] && DistinctKeys(KeyOf, pairs[..i])
    {
      GetMember(result, pairs[i].key);
      if Get(result, pairs[i].key).Some? {
        RepeatedKey(pairs, i);
        return None;
      }
      FreshKey(pairs, i);
      PutAppends(result, pairs[i].key, pairs[i].value);
      result := Put(result, pairs[i].key, pairs[i].value);
      i := i + 1;
    }
    assert pairs[..|pairs|] == pairs;
    r := Some(result);
  }

  lemma RepeatedKey(pairs: Fields, i: nat)
    requires i < |pairs| && Get(pairs[..i], pairs[i].key).Some?
    ensures !DistinctKeys(KeyOf, pairs)
  {
    var key := pairs[i].key;
    GetMember(pairs[..i], key);
    var j :| 0 <= j < i && pairs[..i][j] == Field(key, Get(pairs[..i], key).value);
    assert KeyOf(pairs[j]) == KeyOf(pairs[i]);
  }

  lemma FreshKey(pairs: Fields, i: nat)
    requires i < |pairs| && Get(pairs[..i], pairs[i].key).None? && DistinctKeys(KeyOf, pairs[..i])
    ensures DistinctKeys(KeyOf, pairs[..i + 1])
    ensures forall j :: 0 <= j < i ==> pairs[..i][j].key != pairs[i].key
    ensures pairs[..i] + [pairs[i]] == pairs[..i + 1]
  {
    GetMember(pairs[..i], pairs[i].key);
    var s := pairs[..i + 1];
    forall a, b | 0 <= a < b < |s| ensures KeyOf(s[a]) != KeyOf(s[b]) {
      if b == i {
        assert pairs[..i][a].key != pairs[i].key;
      } else {
        assert KeyOf(pairs[..i][a]) != KeyOf(pairs[..i][b]);
      }
    }
  }

  /** No hook raises anywhere: keys are unique in every object and no named constant occurs. */
  predicate Unambiguous(v: Json) {
    match v
    case Real(token) => token != NAN && token != INFINITY && token != NEG_INFINITY
    case Arr(items) => forall i :: 0 <= i < |items| ==> Unambiguous(items[i])
    case Obj(fields) => UniqueKeys(fields) && forall i :: 0 <= i < |fields| ==> Unambiguous(fields[i].value)
    case _ => true
  }

  function LoadsStrict(body: Text): Option<Json> {
    match ParseValue(Skip(body))
    case Ok(v, rest) => if Skip(rest) == [] && Unambiguous(v) then Some(v) else None
    case Fail => None
  }

  lemma {:induction false} UnambiguousDicts(v: Json)
    requires Unambiguous(v)
    ensures Dicts(v)
  {
    match v
    case Arr(items) => forall i | 0 <= i < |items| ensures Dicts(items[i]) { UnambiguousDicts(items[i]); }
    case Obj(fields) =>
      forall i | 0 <= i < |fields| ensures Dicts(fields[i].value) { UnambiguousDicts(fields[i].value); }
      UniqueIsDistinct(fields);
    case _ =>
  }

  /** Where the strict decoder accepts, it reads what the ordinary one reads. */
  lemma StrictIsLoads(body: Text)
    requires LoadsStrict(body).Some?
    ensures Loads(body) == LoadsStrict(body)
  {
    hide Unambiguous, ParseValue, Skip, Collapse;
    UnambiguousDicts(LoadsStrict(body).value);
    CollapseIdentity(LoadsStrict(body).value);
  }

  // ----- the three fields

  /** A code point no checked text may hold: controls, DEL, surrogates. */
  predicate Forbidden(c: Code) {
    c < 0x20 || c == 0x7F || Surrogate(c)
  }

  predicate ScalarText(t: Text, minimum: nat, maximum: nat) {
    minimum <= |t| <= maximum && forall i :: 0 <= i < |t| ==> !Forbidden(t[i])
  }

  datatype Product = Product(name: Text, price: Text, currency: Text)

  predicate ValidProduct(p: Product) {
    && ScalarText(p.name, 1, MAX_PRODUCT_NAME_CHARS)
    && ScalarText(p.price, 1, MAX_PRICE_TEXT_CHARS) && Decimal(p.price)
    && ScalarText(p.currency, 3, 3) && forall i :: 0 <= i < 3 ==> 0x41 <= p.currency[i] <= 0x5A
  }

  function KeySet(fields: Fields): set<Text> {
    set i | 0 <= i < |fields| :: fields[i].key
  }

  function TextOf(fields: Fields, key: Text): Option<Text> {
    match Get(fields, key)
    case Some(Str(s)) => Some(s)
    case _ => None
  }

  function ReadProduct(v: Json): Option<Product> {
    if !v.Obj? || KeySet(v.fields) != {NAME, PRICE, CURRENCY} then None
    else
      var name :- TextOf(v.fields, NAME);
      var price :- TextOf(v.fields, PRICE);
      var currency :- TextOf(v.fields, CURRENCY);
      var p := Product(name, price, currency);
      if ValidProduct(p) then Some(p) else None
  }

  /** The fields read from an accepted body, and the text that stands for it. */
  function ProductOf(body: Text, maxChars: nat): Option<Product> {
    if body == [] || |body| > maxChars then None
    else
      var v :- LoadsStrict(body);
      ReadProduct(v)
  }

  function ProductJson(p: Product): Json {
    Obj([Field(NAME, Str(p.name)), Field(PRICE, Str(p.price)), Field(CURRENCY, Str(p.currency))])
  }

  function CanonicalProductPayload(body: Text, maxChars: nat): Option<Text> {
    var p :- ProductOf(body, maxChars);
    Some(Canonical(ProductJson(p)))
  }

  // ----- the fields of a body, exactly

  lemma KeysDiffer()
    ensures NAME != PRICE && NAME != CURRENCY && PRICE != CURRENCY
    ensures |NAME| == 12 && |PRICE| == 12 && |CURRENCY| == 8
    ensures NAME[0] == 0x70 && PRICE[0] == 0x6C && CURRENCY[0] == 0x63
    ensures NoSurrogate(NAME) && NoSurrogate(PRICE) && NoSurrogate(CURRENCY)
    ensures PrintableText(NAME) && PrintableText(PRICE) && PrintableText(CURRENCY)
  {
    assert NAME[0] == 0x70 && PRICE[0] == 0x6C && CURRENCY[0] == 0x63;
  }

  lemma {:induction false} KeyCount(fields: Fields)
    requires DistinctKeys(KeyOf, fields)
    ensures |KeySet(fields)| == |fields|
  {
    if fields != [] {
      var rest := fields[1..];
      KeyCount(rest);
      forall i | 0 <= i < |rest| ensures rest[i].key != fields[0].key {
        assert KeyOf(fields[0]) != KeyOf(fields[i + 1]);
      }
      assert fields[0].key !in KeySet(rest);
      assert KeySet(fields) == KeySet(rest) + {fields[0].key} by { KeySetCons(fields); }
    }
  }

  lemma KeySetCons(fields: Fields)
    requires fields != []
    ensures KeySet(fields) == KeySet(fields[1..]) + {fields[0].key}
  {
    forall k | k in KeySet(fields) ensures k in KeySet(fields[1..]) + {fields[0].key} {
      var i :| 0 <= i < |fields| && fields[i].key == k;
      assert i > 0 ==> fields[1..][i - 1].key == k;
    }
    forall k | k in KeySet(fields[1..]) ensures k in KeySet(fields) {
      var i :| 0 <= i < |fields[1..]| && fields[1..][i].key == k;
      assert fields[i + 1].key == k;
    }
  }

  lemma SameSymmetric(v: Json, w: Json)
    requires Dicts(v) && Dicts(w) && Same(v, w)
    ensures Same(w, v)
  {
    hide *;
    SortKeysIdentifies(v, w);
    SortKeysIdentifies(w, v);
  }

  lemma ProductDicts(p: Product)
    ensures Dicts(ProductJson(p)) && Tokens(ProductJson(p))
    ensures ValidProduct(p) ==> Everywhere(NoSplit, ProductJson(p))
  {
    KeysDiffer();
    PlainNoSplit(NAME);
    PlainNoSplit(PRICE);
    PlainNoSplit(CURRENCY);
    if ValidProduct(p) {
      CheckedPlain(p.name, 1, MAX_PRODUCT_NAME_CHARS);
      CheckedPlain(p.price, 1, MAX_PRICE_TEXT_CHARS);
      CheckedPlain(p.currency, 3, 3);
      PlainNoSplit(p.name);
      PlainNoSplit(p.price);
      PlainNoSplit(p.currency);
    }
    hide Decimal, NoSplit;
  }

  lemma CheckedPlain(t: Text, minimum: nat, maximum: nat)
    requires ScalarText(t, minimum, maximum)
    ensures NoSurrogate(t)
  {
  }

  /** The fields are read exactly from the objects that equal the product's own, up to member order. */
  lemma ReadsExactly(v: Json, p: Product)
    requires Dicts(v)
    ensures ReadProduct(v) == Some(p) <==> ValidProduct(p) && Same(v, ProductJson(p))
  {
    ProductDicts(p);
    hide Decimal, ScalarText, Dicts, Tokens, Everywhere;
    if ReadProduct(v) == Some(p) {
      ReadIsSame(v, p);
    }
    if ValidProduct(p) && Same(v, ProductJson(p)) {
      SameSymmetric(v, ProductJson(p));
      SameReads(v, p);
    }
  }

  /** The value a product gives to one of its three keys. */
  ghost function FieldText(p: Product, key: Text): Text {
    if key == NAME then p.name else if key == PRICE then p.price else p.currency
  }

  predicate Required(key: Text) {
    key == NAME || key == PRICE || key == CURRENCY
  }

  lemma MemberIff(f: Field, p: Product)
    ensures SameMember(f, ProductJson(p).fields) <==> Required(f.key) && f.value == Str(FieldText(p, f.key))
  {
    KeysDiffer();
    var gs := ProductJson(p).fields;
    if Required(f.key) && f.value == Str(FieldText(p, f.key)) {
      var j := if f.key == NAME then 0 else if f.key == PRICE then 1 else 2;
      assert f.key == gs[j].key && Same(f.value, gs[j].value);
    }
  }

  ghost predicate AllMembers(fs: Fields, gs: Fields) {
    |fs| == |gs| && forall i :: 0 <= i < |fs| ==> SameMember(fs[i], gs)
  }

  lemma SameMembers(v: Json, p: Product)
    ensures Same(v, ProductJson(p)) <==> v.Obj? && AllMembers(v.fields, ProductJson(p).fields)
    ensures Same(ProductJson(p), v) <==> v.Obj? && AllMembers(ProductJson(p).fields, v.fields)
    ensures |ProductJson(p).fields| == 3
    ensures ProductJson(p).fields[0] == Field(NAME, Str(p.name)) && ProductJson(p).fields[1] == Field(PRICE, Str(p.price))
    ensures ProductJson(p).fields[2] == Field(CURRENCY, Str(p.currency))
  {
    hide SameMember;
  }

  lemma ReadView(v: Json, p: Product)
    ensures ReadProduct(v) == Some(p) <==>
            && v.Obj? && KeySet(v.fields) == {NAME, PRICE, CURRENCY} && ValidProduct(p)
            && TextOf(v.fields, NAME) == Some(p.name) && TextOf(v.fields, PRICE) == Some(p.price)
            && TextOf(v.fields, CURRENCY) == Some(p.currency)
  {
    hide ValidProduct, TextOf, KeySet;
  }

  lemma ReadIsSame(v: Json, p: Product)
    requires Dicts(v) && ReadProduct(v) == Some(p)
    ensures ValidProduct(p) && Same(v, ProductJson(p))
  {
    DistinctFields(v);
    hide *;
    ReadView(v, p);
    KeyCount(v.fields);
    ThreeKeys();
    SameMembers(v, p);
    forall i | 0 <= i < |v.fields| ensures SameMember(v.fields[i], ProductJson(p).fields) {
      ReadMember(v, p, i);
    }
    assert AllMembers(v.fields, ProductJson(p).fields) by { Collected(v.fields, ProductJson(p).fields); }
  }

  lemma DistinctFields(v: Json)
    requires Dicts(v)
    ensures v.Obj? ==> DistinctKeys(KeyOf, v.fields)
  {
  }

  lemma ThreeKeys()
    ensures |{NAME, PRICE, CURRENCY}| == 3
  {
    KeysDiffer();
    hide *;
  }

  lemma Collected(fs: Fields, gs: Fields)
    requires |fs| == |gs| && forall i :: 0 <= i < |fs| ==> SameMember(fs[i], gs)
    ensures AllMembers(fs, gs)
  {
    hide SameMember;
  }

  lemma ReadMember(v: Json, p: Product, i: nat)
    requires v.Obj? && DistinctKeys(KeyOf, v.fields) && ReadProduct(v) == Some(p) && i < |v.fields|
    ensures SameMember(v.fields[i], ProductJson(p).fields)
  {
    KeysDiffer();
    ReadView(v, p);
    GetDistinct(v.fields, i);
    assert v.fields[i].key in KeySet(v.fields);
    TextOfMember(v.fields, i);
    MemberIff(v.fields[i], p);
    hide DistinctKeys, Get, ValidProduct, TextOf, KeySet, ReadProduct, SameMember, ProductJson;
  }

  lemma TextOfMember(fields: Fields, i: nat)
    requires i < |fields| && Get(fields, fields[i].key) == Some(fields[i].value)
    ensures TextOf(fields, fields[i].key).Some? ==> fields[i].value == Str(TextOf(fields, fields[i].key).value)
  {
    hide Get;
  }

  lemma SameReads(v: Json, p: Product)
    requires Dicts(v) && ValidProduct(p) && Same(v, ProductJson(p)) && Same(ProductJson(p), v)
    ensures ReadProduct(v) == Some(p)
  {
    hide *;
    SameMembers(v, p);
    RequiredOnly(v.fields, p);
    MembersPresent(v, p);
    KeySetExact(v.fields);
    ReadView(v, p);
  }

  lemma RequiredOnly(fields: Fields, p: Product)
    requires AllMembers(fields, ProductJson(p).fields)
    ensures forall i :: 0 <= i < |fields| ==> Required(fields[i].key)
  {
    forall i | 0 <= i < |fields| ensures Required(fields[i].key) {
      assert SameMember(fields[i], ProductJson(p).fields);
      hide SameMember, AllMembers, ProductJson;
      MemberIff(fields[i], p);
    }
  }

  lemma MembersPresent(v: Json, p: Product)
    requires v.Obj? && Dicts(v) && AllMembers(ProductJson(p).fields, v.fields)
    ensures TextOf(v.fields, NAME) == Some(p.name) && NAME in KeySet(v.fields)
    ensures TextOf(v.fields, PRICE) == Some(p.price) && PRICE in KeySet(v.fields)
    ensures TextOf(v.fields, CURRENCY) == Some(p.currency) && CURRENCY in KeySet(v.fields)
  {
    var gs := ProductJson(p).fields;
    assert SameMember(gs[0], v.fields) && SameMember(gs[1], v.fields) && SameMember(gs[2], v.fields);
    SameMembers(v, p);
    hide *;
    HasMember(gs[0], v);
    HasMember(gs[1], v);
    HasMember(gs[2], v);
  }

  lemma KeySetExact(fields: Fields)
    requires forall i :: 0 <= i < |fields| ==> Required(fields[i].key)
    requires NAME in KeySet(fields) && PRICE in KeySet(fields) && CURRENCY in KeySet(fields)
    ensures KeySet(fields) == {NAME, PRICE, CURRENCY}
  {
    forall k | k in KeySet(fields) ensures k in {NAME, PRICE, CURRENCY} {
      var i :| 0 <= i < |fields| && fields[i].key == k;
      assert Required(fields[i].key);
    }
  }

  lemma HasMember(f: Field, v: Json)
    requires v.Obj? && Dicts(v) && SameMember(f, v.fields) && f.value.Str?
    ensures TextOf(v.fields, f.key) == Some(f.value.s) && f.key in KeySet(v.fields)
  {
    var j :| 0 <= j < |v.fields| && f.key == v.fields[j].key && Same(f.value, v.fields[j].value);
    GetDistinct(v.fields, j);
  }

  /**
    A body is accepted with given fields exactly when it is within the bound, strict JSON,
    and one object with these three members and no other, in any order and spelling.
   */
  lemma AcceptedExactly(body: Text, maxChars: nat, p: Product)
    ensures ProductOf(body, maxChars) == Some(p) <==>
            && 0 < |body| <= maxChars && ValidProduct(p)
            && LoadsStrict(body).Some? && Same(LoadsStrict(body).value, ProductJson(p))
  {
    hide ReadProduct, ValidProduct, Same, ProductJson;
    if LoadsStrict(body).Some? {
      UnambiguousDicts(LoadsStrict(body).value);
      ReadsExactly(LoadsStrict(body).value, p);
    }
    hide LoadsStrict;
  }

  /** The decoder's limits refuse no body that is accepted here: three strings in one object are within any. */
  lemma AcceptedNeverRaises(l: Limits, body: Text, maxChars: nat)
    requires l.depth > 0 && ProductOf(body, maxChars).Some?
    ensures RawDecode(l, Skip(body)).Read? && RawDecode(l, Skip(body)).value == LoadsStrict(body).value
  {
    hide *;
    var p := ProductOf(body, maxChars).value;
    AcceptedExactly(body, maxChars, p);
    StrictText(body);
    SameFits(l, LoadsStrict(body).value, p);
    RaisesUnlessFits(l, l.depth, Skip(body));
    ReadsWithin(l, Skip(body));
  }

  lemma SameFits(l: Limits, v: Json, p: Product)
    requires l.depth > 0 && Same(v, ProductJson(p))
    ensures Fits(l, l.depth, v)
  {
    hide Digits;
    SameMembers(v, p);
    forall i | 0 <= i < |v.fields| ensures Fits(l, l.depth - 1, v.fields[i].value) {
      assert SameMember(v.fields[i], ProductJson(p).fields);
      MemberIff(v.fields[i], p);
    }
  }

  lemma ReadsWithin(l: Limits, t: Text)
    requires ParseValue(t).Ok? && !ValueRaises(l, l.depth, t)
    ensures RawDecode(l, t).Read? && RawDecode(l, t).value == ParseValue(t).value
  {
    hide ParseValue, ValueRaises;
  }

  // ----- normal form

  /** Two accepted bodies have one normal form exactly when they carry the same three values. */
  lemma PayloadsIdentify(a: Text, m: nat, b: Text, n: nat)
    requires ProductOf(a, m).Some? && ProductOf(b, n).Some?
    ensures CanonicalProductPayload(a, m) == CanonicalProductPayload(b, n) <==> ProductOf(a, m) == ProductOf(b, n)
  {
    hide ProductOf, Canonical;
    var p, q := ProductOf(a, m).value, ProductOf(b, n).value;
    if Canonical(ProductJson(p)) == Canonical(ProductJson(q)) {
      AcceptedExactly(a, m, p);
      AcceptedExactly(b, n, q);
      TextsIdentify(p, q);
    }
  }

  lemma TextsIdentify(p: Product, q: Product)
    requires ValidProduct(p) && ValidProduct(q) && Canonical(ProductJson(p)) == Canonical(ProductJson(q))
    ensures p == q
  {
    ProductDicts(p);
    ProductDicts(q);
    FieldTexts(q);
    hide *;
    CanonicalFaithful(ProductJson(p), ProductJson(q));
    SameMembers(ProductJson(p), q);
    SameMembers(ProductJson(q), p);
    var fs := ProductJson(p).fields;
    MembersAt(fs, q);
    MemberIff(fs[0], q);
    MemberIff(fs[1], q);
    MemberIff(fs[2], q);
  }

  lemma MembersAt(fs: Fields, q: Product)
    requires |fs| == 3 && AllMembers(fs, ProductJson(q).fields)
    ensures SameMember(fs[0], ProductJson(q).fields) && SameMember(fs[1], ProductJson(q).fields)
    ensures SameMember(fs[2], ProductJson(q).fields)
  {
    hide SameMember;
  }

  lemma FieldTexts(q: Product)
    ensures FieldText(q, NAME) == q.name && FieldText(q, PRICE) == q.price && FieldText(q, CURRENCY) == q.currency
  {
    KeysDiffer();
  }

  /** Order, white space and escapes do not matter: only the decoded value does. */
  lemma FormattingIsIrrelevant(a: Text, b: Text, m: nat)
    requires 0 < |a| <= m && 0 < |b| <= m
    requires LoadsStrict(a).Some? && LoadsStrict(b).Some? && Same(LoadsStrict(a).value, LoadsStrict(b).value)
    ensures CanonicalProductPayload(a, m) == CanonicalProductPayload(b, m)
  {
    var v, w := LoadsStrict(a).value, LoadsStrict(b).value;
    UnambiguousDicts(v) by { StrictUnambiguous(a); }
    UnambiguousDicts(w) by { StrictUnambiguous(b); }
    hide *;
    SameSymmetric(v, w);
    forall p ensures ProductOf(a, m) == Some(p) <==> ProductOf(b, m) == Some(p) {
      AcceptedExactly(a, m, p);
      AcceptedExactly(b, m, p);
      ProductDictsOnly(p);
      SameThrough(v, w, ProductJson(p));
    }
    SameProduct(a, b, m);
  }

  lemma StrictUnambiguous(a: Text)
    requires LoadsStrict(a).Some?
    ensures Unambiguous(LoadsStrict(a).value)
  {
    hide Unambiguous;
  }

  lemma ProductDictsOnly(p: Product)
    ensures Dicts(ProductJson(p))
  {
    ProductDicts(p);
  }

  lemma SameThrough(v: Json, w: Json, x: Json)
    requires Dicts(v) && Dicts(w) && Dicts(x) && Same(v, w)
    ensures Same(v, x) <==> Same(w, x)
  {
    hide *;
    SortKeysIdentifies(v, w);
    SortKeysIdentifies(v, x);
    SortKeysIdentifies(w, x);
  }

  lemma SameProduct(a: Text, b: Text, m: nat)
    requires forall p :: ProductOf(a, m) == Some(p) <==> ProductOf(b, m) == Some(p)
    ensures CanonicalProductPayload(a, m) == CanonicalProductPayload(b, m)
  {
    hide ProductOf;
    assert ProductOf(a, m).Some? ==> ProductOf(b, m) == Some(ProductOf(a, m).value);
    assert ProductOf(b, m).Some? ==> ProductOf(a, m) == Some(ProductOf(b, m).value);
  }

  // ----- the normal form is itself an accepted body

  function SortedProduct(p: Product): Json {
    Obj([Field(CURRENCY, Str(p.currency)), Field(PRICE, Str(p.price)), Field(NAME, Str(p.name))])
  }

  /** Members stand in key order: currency, listed_price, product_name. */
  lemma ProductSorted(p: Product)
    ensures SortKeys(ProductJson(p)) == SortedProduct(p)
  {
    KeysDiffer();
    var fields := ProductJson(p).fields;
    assert SortValues(fields) == fields;
    var a, b, c := fields[0], fields[1], fields[2];
    SortThree(a, b, c);
  }

  lemma SortThree(a: Field, b: Field, c: Field)
    requires a.key != [] && b.key != [] && c.key != [] && c.key[0] < b.key[0] < a.key[0]
    ensures Sort(KeyOf, [a, b, c]) == [c, b, a]
  {
    assert Less(c.key, b.key) && Less(c.key, a.key) && Less(b.key, a.key);
    hide Less;
    var none: Fields := [];
    assert Sort(KeyOf, none) == none;
    SortCons(c, none);
    InsertLast(c);
    assert [c] + none == [c] && [b, c] == [b] + [c] && [a, b, c] == [a] + [b, c];
    SortCons(b, [c]);
    InsertPast(b, c, none);
    InsertLast(b);
    assert [c] + [b] == [c, b];
    SortCons(a, [b, c]);
    InsertPast(a, c, [b]);
    InsertPast(a, b, none);
    InsertLast(a);
    assert [b] + none == [b] && [c] + ([b] + [a]) == [c, b, a];
  }

  lemma SortCons(f: Field, s: Fields)
    ensures Sort(KeyOf, [f] + s) == Insert(KeyOf, f, Sort(KeyOf, s))
  {
    assert ([f] + s)[1..] == s;
  }

  lemma InsertLast(f: Field)
    ensures Insert(KeyOf, f, []) == [f]
  {
  }

  lemma InsertPast(f: Field, g: Field, s: Fields)
    requires Less(g.key, f.key)
    ensures Insert(KeyOf, f, [g] + s) == [g] + Insert(KeyOf, f, s)
  {
    assert ([g] + s)[1..] == s;
  }

  /** Reading a normal form back gives the fields it was made of. */
  lemma NormalFormReads(p: Product)
    requires ValidProduct(p)
    ensures LoadsStrict(Canonical(ProductJson(p))) == Some(SortedProduct(p))
  {
    var s := SortedProduct(p);
    ProductSorted(p);
    ProductDicts(p);
    SortKeysKeeps(NoSplit, ProductJson(p));
    SortedUnambiguous(p);
    hide *;
    assert Canonical(ProductJson(p)) == Render(s, Compact, 0) by { CanonicalRenders(p); }
    EmptyBounded();
    ValueRoundTrip(s, Compact, 0, []);
    FuseAllNoSplit(s);
    NormalFormLoads(p, s);
  }

  lemma CanonicalRenders(p: Product)
    requires SortKeys(ProductJson(p)) == SortedProduct(p)
    ensures Canonical(ProductJson(p)) == Render(SortedProduct(p), Compact, 0)
  {
    hide SortKeys, Render;
  }

  lemma EmptyBounded()
    ensures Bounded([])
  {
  }

  lemma SortedUnambiguous(p: Product)
    ensures Unambiguous(SortedProduct(p))
  {
    KeysDiffer();
  }

  lemma NormalFormLoads(p: Product, s: Json)
    requires s == SortedProduct(p) && Unambiguous(s) && Tokens(s)
    requires ParseValue(Render(s, Compact, 0) + []) == Ok(s, [])
    ensures LoadsStrict(Render(s, Compact, 0)) == Some(s)
  {
    hide ParseValue, Render, Tokens, Unambiguous, SortedProduct;
    RenderHead(s, Compact, 0);
    var t := Render(s, Compact, 0);
    assert t + [] == t;
    var empty: Text := [];
    assert Skip(empty) == empty;
  }

  /** Offered again under any bound, a normal form is accepted as itself exactly when it fits. */
  lemma NormalFormFixed(body: Text, maxChars: nat, again: nat)
    requires CanonicalProductPayload(body, maxChars).Some?
    ensures var t := CanonicalProductPayload(body, maxChars).value;
            CanonicalProductPayload(t, again) == if |t| <= again then Some(t) else None
  {
    hide *;
    PayloadProduct(body, maxChars);
    var p := ProductOf(body, maxChars).value;
    var t := Canonical(ProductJson(p));
    AcceptedExactly(body, maxChars, p);
    NormalFormReads(p);
    NormalFormSame(p);
    AcceptedExactly(t, again, p);
    EmptyFails();
    PayloadAgain(t, again, p);
  }

  lemma PayloadProduct(body: Text, maxChars: nat)
    requires CanonicalProductPayload(body, maxChars).Some?
    ensures ProductOf(body, maxChars).Some?
    ensures CanonicalProductPayload(body, maxChars).value == Canonical(ProductJson(ProductOf(body, maxChars).value))
  {
    hide ProductOf, Canonical;
  }

  lemma NormalFormSame(p: Product)
    ensures Same(SortedProduct(p), ProductJson(p))
  {
    FieldTexts(p);
    var v := SortedProduct(p);
    MemberIff(v.fields[0], p);
    MemberIff(v.fields[1], p);
    MemberIff(v.fields[2], p);
    SameMembers(v, p);
    hide SameMember, FieldText, NAME, PRICE, CURRENCY;
    assert AllMembers(v.fields, ProductJson(p).fields);
  }

  lemma EmptyFails()
    ensures LoadsStrict([]).None?
  {
    var empty: Text := [];
    assert Skip(empty) == empty;
  }

  lemma PayloadAgain(t: Text, again: nat, p: Product)
    requires |t| <= again ==> ProductOf(t, again) == Some(p)
    requires t == Canonical(ProductJson(p))
    ensures CanonicalProductPayload(t, again) == if |t| <= again then Some(t) else None
  {
    hide LoadsStrict, Canonical;
  }

  // ----- it is never longer than a body with a printable name

  lemma NormalFormShorter(body: Text, maxChars: nat)
    requires CanonicalProductPayload(body, maxChars).Some? && PrintableText(ProductOf(body, maxChars).value.name)
    ensures |CanonicalProductPayload(body, maxChars).value| <= |body|
  {
    hide *;
    PayloadProduct(body, maxChars);
    var p := ProductOf(body, maxChars).value;
    AcceptedExactly(body, maxChars, p);
    var v := LoadsStrict(body).value;
    StrictText(body);
    ProductDictsOnly(p);
    SamePrintable(v, p);
    SortKeysIdentifies(v, ProductJson(p));
    ValueShortest(Skip(body), 0);
    SortKeysLength(v, 0);
    CanonicalLength(v, p);
  }

  lemma StrictText(body: Text)
    requires LoadsStrict(body).Some?
    ensures ParseValue(Skip(body)).Ok? && ParseValue(Skip(body)).value == LoadsStrict(body).value
    ensures Dicts(LoadsStrict(body).value) && |Skip(body)| <= |body|
  {
    hide ParseValue, Unambiguous, Dicts;
    UnambiguousDicts(LoadsStrict(body).value);
  }

  lemma CanonicalLength(v: Json, p: Product)
    requires SortKeys(v) == SortKeys(ProductJson(p))
    requires |Render(SortKeys(v), Compact, 0)| == |Render(v, Compact, 0)|
    ensures |Canonical(ProductJson(p))| == |Render(v, Compact, 0)|
  {
    hide SortKeys, Render;
  }

  lemma SamePrintable(v: Json, p: Product)
    requires Same(v, ProductJson(p)) && ValidProduct(p) && PrintableText(p.name)
    ensures Everywhere(PrintableText, v)
  {
    PricePrintable(p);
    KeysDiffer();
    hide ValidProduct, PrintableText;
    SameMembers(v, p);
    forall i | 0 <= i < |v.fields|
      ensures PrintableText(v.fields[i].key) && Everywhere(PrintableText, v.fields[i].value)
    {
      assert SameMember(v.fields[i], ProductJson(p).fields);
      MemberIff(v.fields[i], p);
    }
  }

  lemma PricePrintable(p: Product)
    requires ValidProduct(p)
    ensures PrintableText(p.price) && PrintableText(p.currency)
  {
    Parts(p.price);
    hide Whole, Fraction, Decimal;
  }

  /** With a printable name, canonicalising again under the same bound always gives the same text. */
  lemma CanonicalTwice(body: Text, maxChars: nat)
    requires CanonicalProductPayload(body, maxChars).Some? && PrintableText(ProductOf(body, maxChars).value.name)
    ensures CanonicalProductPayload(CanonicalProductPayload(body, maxChars).value, maxChars)
            == CanonicalProductPayload(body, maxChars)
  {
    hide *;
    NormalFormShorter(body, maxChars);
    NormalFormFixed(body, maxChars, maxChars);
    PayloadProduct(body, maxChars);
    AcceptedExactly(body, maxChars, ProductOf(body, maxChars).value);
  }
}
