/**
  What a rendering identifies. Sorted compact text determines a value up to member
  order once surrogate pairs are joined; what the decoder reads from UTF-8 text has
  no pair left to join, so there the text is a faithful identity.
 */
module JsonIdentity {
  import opened Options
  import opened Texts
  import opened Numerals
  import opened Sorting
  import opened JsonValues
  import opened JsonPrinter
  import opened JsonDecoder
  import opened JsonRoundTrip

  // ----- sorting and collapsing keep tokens, texts and distinctness

  lemma {:induction false} SortKeysKeeps(p: Text -> bool, v: Json)
    ensures Tokens(v) ==> Tokens(SortKeys(v))
    ensures Everywhere(p, v) ==> Everywhere(p, SortKeys(v))
    ensures Dicts(v) ==> Dicts(SortKeys(v))
  {
    match v
    case Arr(items) =>
      forall i | 0 <= i < |items|
        ensures Tokens(items[i]) ==> Tokens(SortKeys(items[i]))
        ensures Everywhere(p, items[i]) ==> Everywhere(p, SortKeys(items[i]))
        ensures Dicts(items[i]) ==> Dicts(SortKeys(items[i]))
      {
        SortKeysKeeps(p, items[i]);
      }
      SortedItems(items);
    case Obj(fields) =>
      forall i | 0 <= i < |fields|
        ensures Tokens(fields[i].value) ==> Tokens(SortKeys(fields[i].value))
        ensures Everywhere(p, fields[i].value) ==> Everywhere(p, SortKeys(fields[i].value))
        ensures Dicts(fields[i].value) ==> Dicts(SortKeys(fields[i].value))
      {
        SortKeysKeeps(p, fields[i].value);
      }
      SortedFieldsKeep(p, fields);
    case _ =>
  }

  lemma SortedItems(items: seq<Json>)
    ensures var s := SortKeys(Arr(items));
            s.Arr? && |s.items| == |items| && forall i :: 0 <= i < |items| ==> s.items[i] == SortKeys(items[i])
  {
  }

  lemma SortedFieldsKeep(p: Text -> bool, fields: Fields)
    requires forall i :: 0 <= i < |fields| ==>
               && (Tokens(fields[i].value) ==> Tokens(SortKeys(fields[i].value)))
               && (Everywhere(p, fields[i].value) ==> Everywhere(p, SortKeys(fields[i].value)))
               && (Dicts(fields[i].value) ==> Dicts(SortKeys(fields[i].value)))
    ensures var v := Obj(fields); var s := SortKeys(v);
            && (Tokens(v) ==> Tokens(s)) && (Everywhere(p, v) ==> Everywhere(p, s)) && (Dicts(v) ==> Dicts(s))
  {
    var sorted := Sort(KeyOf, SortValues(fields));
    hide Sort, Insert, SortValues, Less;
    assert SortKeys(Obj(fields)) == Obj(sorted);
    hide SortKeys;
    forall k | 0 <= k < |sorted|
      ensures exists i :: 0 <= i < |fields| && sorted[k] == Field(fields[i].key, SortKeys(fields[i].value))
    {
      SortedMember(fields, sorted[k]);
    }
    if Dicts(Obj(fields)) {
      DistinctSortValues(fields);
      SortIncreasing(KeyOf, SortValues(fields));
      IncreasingDistinct(sorted);
    }
  }

  lemma IncreasingDistinct(fields: Fields)
    requires Increasing(KeyOf, fields)
    ensures DistinctKeys(KeyOf, fields)
  {
    forall i, j | 0 <= i < j < |fields| ensures KeyOf(fields[i]) != KeyOf(fields[j]) {
      LessAsymmetric(KeyOf(fields[i]), KeyOf(fields[j]));
    }
  }

  /** Looking a key up in a sorted dict finds the sorted form of its value. */
  lemma GetSorted(fields: Fields, key: Text)
    requires DistinctKeys(KeyOf, fields)
    ensures Get(Sort(KeyOf, SortValues(fields)), key) ==
            (match Get(fields, key) case None => None case Some(v) => Some(SortKeys(v)))
  {
    hide Sort, SortValues, SortKeys, Less, Get;
    var sorted := Sort(KeyOf, SortValues(fields));
    DistinctSortValues(fields);
    SortIncreasing(KeyOf, SortValues(fields));
    IncreasingDistinct(sorted);
    GetMember(fields, key);
    GetMember(sorted, key);
    if Get(fields, key).Some? {
      var v := Get(fields, key).value;
      var i :| 0 <= i < |fields| && fields[i] == Field(key, v);
      SortedMember(fields, Field(key, SortKeys(v)));
      var k :| 0 <= k < |sorted| && sorted[k] == Field(key, SortKeys(v));
      GetDistinct(sorted, k);
    } else if Get(sorted, key).Some? {
      var f := Field(key, Get(sorted, key).value);
      assert f in sorted;
      SortedMember(fields, f);
      assert false;
    }
  }

  lemma {:induction false} SortIncreasingFields(fields: Fields)
    requires Increasing(KeyOf, fields)
    ensures Sort(KeyOf, fields) == fields
  {
    if fields != [] {
      SortIncreasingFields(fields[1..]);
      if |fields| > 1 {
        LessAsymmetric(KeyOf(fields[0]), KeyOf(fields[1]));
      }
      assert fields == [fields[0]] + fields[1..];
    }
  }

  /** A value whose keys are in order keeps its order. */
  lemma {:induction false} SortKeysIdempotent(v: Json)
    requires Dicts(v)
    ensures SortKeys(SortKeys(v)) == SortKeys(v)
  {
    match v
    case Arr(items) =>
      forall i | 0 <= i < |items| ensures SortKeys(SortKeys(items[i])) == SortKeys(items[i]) {
        SortKeysIdempotent(items[i]);
      }
      SortedItems(items);
      SortedItems(SortKeys(v).items);
      assert SortKeys(SortKeys(v)).items == SortKeys(v).items;
    case Obj(fields) =>
      forall i | 0 <= i < |fields| ensures SortKeys(SortKeys(fields[i].value)) == SortKeys(fields[i].value) {
        SortKeysIdempotent(fields[i].value);
      }
      SortedFieldsIdempotent(fields);
    case _ =>
  }

  lemma SortedFieldsIdempotent(fields: Fields)
    requires DistinctKeys(KeyOf, fields)
    requires forall i :: 0 <= i < |fields| ==> SortKeys(SortKeys(fields[i].value)) == SortKeys(fields[i].value)
    ensures SortKeys(SortKeys(Obj(fields))) == SortKeys(Obj(fields))
  {
    var sorted := Sort(KeyOf, SortValues(fields));
    assert SortKeys(Obj(fields)) == Obj(sorted);
    assert SortKeys(Obj(sorted)) == Obj(Sort(KeyOf, SortValues(sorted)));
    hide SortKeys, SortValues, Sort;
    forall k | 0 <= k < |sorted| ensures SortValues(sorted)[k] == sorted[k] {
      SortedMember(fields, sorted[k]);
      var i :| 0 <= i < |fields| && sorted[k] == Field(fields[i].key, SortKeys(fields[i].value));
    }
    assert SortValues(sorted) == sorted;
    DistinctSortValues(fields);
    SortIncreasing(KeyOf, SortValues(fields));
    SortIncreasingFields(sorted);
  }

  lemma {:induction false} PutKeeps(p: Text -> bool, fields: Fields, key: Text, value: Json)
    ensures DistinctKeys(KeyOf, fields) ==> DistinctKeys(KeyOf, Put(fields, key, value))
    ensures forall f :: f in Put(fields, key, value) ==> f == Field(key, value) || f in fields
    decreases |fields|
  {
    if fields != [] && fields[0].key != key {
      var rest := Put(fields[1..], key, value);
      PutKeeps(p, fields[1..], key, value);
      forall j | 0 <= j < |rest| && DistinctKeys(KeyOf, fields) ensures KeyOf(rest[j]) != KeyOf(fields[0]) {
        assert rest[j] in rest;
        if rest[j] in fields[1..] {
          var i :| 0 <= i < |fields[1..]| && fields[1..][i] == rest[j];
          assert KeyOf(fields[0]) != KeyOf(fields[i + 1]);
        }
      }
    }
  }

  /** Assigning a key of a dict changes that key only. */
  lemma {:induction false} GetPut(fields: Fields, key: Text, value: Json, k: Text)
    requires DistinctKeys(KeyOf, fields)
    ensures Get(Put(fields, key, value), k) == if k == key then Some(value) else Get(fields, k)
    ensures DistinctKeys(KeyOf, Put(fields, key, value))
  {
    hide Get, Put;
    PutKeeps(NoSplit, fields, key, value);
    var r := Put(fields, key, value);
    PutHas(fields, key, value);
    if k == key {
      var i :| 0 <= i < |r| && r[i] == Field(key, value);
      GetDistinct(r, i);
    } else {
      GetMember(fields, k);
      GetMember(r, k);
      if Get(r, k).Some? {
        assert Field(k, Get(r, k).value) in r;
        var j :| 0 <= j < |fields| && fields[j] == Field(k, Get(r, k).value);
        GetDistinct(fields, j);
      } else if Get(fields, k).Some? {
        var j :| 0 <= j < |fields| && fields[j] == Field(k, Get(fields, k).value);
        PutHasOther(fields, key, value, j);
        assert false;
      }
    }
  }

  lemma {:induction false} PutHas(fields: Fields, key: Text, value: Json)
    ensures Field(key, value) in Put(fields, key, value)
    decreases |fields|
  {
    if fields != [] && fields[0].key != key { PutHas(fields[1..], key, value); }
  }

  lemma {:induction false} PutHasOther(fields: Fields, key: Text, value: Json, j: nat)
    requires j < |fields| && fields[j].key != key
    ensures fields[j] in Put(fields, key, value)
    decreases |fields|
  {
    if fields[0].key == key {
      assert fields[1..][j - 1] == fields[j];
    } else if j > 0 {
      PutHasOther(fields[1..], key, value, j - 1);
    }
  }

  lemma {:induction false} CollapseDicts(p: Text -> bool, v: Json)
    ensures Dicts(Collapse(v))
    ensures Tokens(v) ==> Tokens(Collapse(v))
    ensures Everywhere(p, v) ==> Everywhere(p, Collapse(v))
    decreases v, 0
  {
    match v
    case Arr(items) =>
      forall i | 0 <= i < |items|
        ensures Dicts(Collapse(items[i])) && (Tokens(items[i]) ==> Tokens(Collapse(items[i])))
        ensures Everywhere(p, items[i]) ==> Everywhere(p, Collapse(items[i]))
      {
        CollapseDicts(p, items[i]);
      }
      CollapsedItems(items);
    case Obj(fields) => CollapseFieldsDicts(p, fields);
    case _ =>
  }

  lemma CollapsedItems(items: seq<Json>)
    ensures var s := Collapse(Arr(items));
            s.Arr? && |s.items| == |items| && forall i :: 0 <= i < |items| ==> s.items[i] == Collapse(items[i])
  {
  }

  lemma {:induction false} CollapseFieldsDicts(p: Text -> bool, fields: Fields)
    ensures Dicts(Obj(CollapseFields(fields)))
    ensures Tokens(Obj(fields)) ==> Tokens(Obj(CollapseFields(fields)))
    ensures Everywhere(p, Obj(fields)) ==> Everywhere(p, Obj(CollapseFields(fields)))
    decreases fields, 1
  {
    if fields != [] {
      var last := |fields| - 1;
      CollapseFieldsDicts(p, fields[..last]);
      CollapseDicts(p, fields[last].value);
      var before := CollapseFields(fields[..last]);
      var value := Collapse(fields[last].value);
      assert CollapseFields(fields) == Put(before, fields[last].key, value);
      assert Tokens(Obj(fields)) ==> Tokens(Obj(fields[..last]));
      assert Everywhere(p, Obj(fields)) ==> Everywhere(p, Obj(fields[..last]));
      hide Put, Collapse, CollapseFields;
      PutDicts(p, before, fields[last].key, value);
    }
  }

  lemma PutDicts(p: Text -> bool, fields: Fields, key: Text, value: Json)
    requires Dicts(Obj(fields)) && Dicts(value)
    ensures Dicts(Obj(Put(fields, key, value)))
    ensures Tokens(Obj(fields)) && Tokens(value) ==> Tokens(Obj(Put(fields, key, value)))
    ensures Everywhere(p, Obj(fields)) && p(key) && Everywhere(p, value) ==> Everywhere(p, Obj(Put(fields, key, value)))
  {
    hide Put;
    PutKeeps(p, fields, key, value);
    var r := Put(fields, key, value);
    forall i | 0 <= i < |r| ensures r[i] == Field(key, value) || r[i] in fields {
      assert r[i] in r;
    }
  }

  lemma {:induction false} PutAppends(fields: Fields, key: Text, value: Json)
    requires forall i :: 0 <= i < |fields| ==> fields[i].key != key
    ensures Put(fields, key, value) == fields + [Field(key, value)]
    decreases |fields|
  {
    if fields != [] {
      PutAppends(fields[1..], key, value);
      assert fields == [fields[0]] + fields[1..];
    }
  }

  /** A dict is what it is: collapsing changes nothing where keys are already distinct. */
  lemma {:induction false} CollapseIdentity(v: Json)
    requires Dicts(v)
    ensures Collapse(v) == v
    decreases v, 0
  {
    match v
    case Arr(items) =>
      forall i | 0 <= i < |items| ensures Collapse(items[i]) == items[i] { CollapseIdentity(items[i]); }
      CollapsedItems(items);
      assert Collapse(v).items == items;
    case Obj(fields) => CollapseFieldsIdentity(fields);
    case _ =>
  }

  lemma {:induction false} CollapseFieldsIdentity(fields: Fields)
    requires Dicts(Obj(fields))
    ensures CollapseFields(fields) == fields
    decreases fields, 1
  {
    if fields != [] {
      var last := |fields| - 1;
      CollapseFieldsIdentity(fields[..last]);
      CollapseIdentity(fields[last].value);
      forall i | 0 <= i < last ensures fields[..last][i].key != fields[last].key {
        assert KeyOf(fields[i]) != KeyOf(fields[last]);
      }
      PutAppends(fields[..last], fields[last].key, fields[last].value);
      assert fields == fields[..last] + [fields[last]];
    }
  }

  // ----- rendering does not see whether a surrogate pair is joined

  lemma {:induction false} RenderCharsFused(s: Text)
    ensures RenderChars(Fuse(s)) == RenderChars(s)
  {
    if |s| > 1 && High(s[0]) && Low(s[1]) {
      RenderCharsFused(s[2..]);
      FusedPairRenders(s);
    } else if s != [] {
      hide Escape;
      RenderCharsFused(s[1..]);
      RenderCharsCons(s[0], Fuse(s[1..]));
    }
  }

  lemma FusedPairRenders(s: Text)
    requires |s| > 1 && High(s[0]) && Low(s[1])
    requires RenderChars(Fuse(s[2..])) == RenderChars(s[2..])
    ensures RenderChars(Fuse(s)) == RenderChars(s)
  {
    assert s[0] < 0x1_0000 && s[1] < 0x1_0000;
    var c := Join(s[0], s[1]);
    hide *;
    EscapeJoined(s[0], s[1]);
    FusePair(s);
    RenderPair(s);
    RenderCharsCons(c, Fuse(s[2..]));
    Associate(EscapeUnit(s[0]), EscapeUnit(s[1]), RenderChars(s[2..]));
  }

  lemma Associate(a: Text, b: Text, c: Text)
    ensures a + (b + c) == a + b + c
  {
  }

  lemma EscapeJoined(h: Code, l: Code)
    requires High(h) && Low(l)
    ensures Escape(Join(h, l)) == EscapeUnit(h) + EscapeUnit(l)
  {
    hide EscapeUnit;
  }

  lemma RenderCharsCons(c: Code, s: Text)
    ensures RenderChars([c] + s) == Escape(c) + RenderChars(s)
  {
    hide Escape;
    assert ([c] + s)[1..] == s;
  }

  lemma {:induction false} RenderFused(v: Json, style: Style, level: nat)
    ensures Render(FuseAll(v), style, level) == Render(v, style, level)
    decreases v, 0
  {
    match v
    case Str(s) => RenderCharsFused(s);
    case Arr(items) => if items != [] { RenderItemsFused(items, style, level + 1); }
    case Obj(fields) => if fields != [] { RenderFieldsFused(fields, style, level + 1); }
    case _ =>
  }

  lemma {:induction false} RenderItemsFused(items: seq<Json>, style: Style, level: nat)
    requires items != []
    ensures RenderItems(FuseItems(items), style, level) == RenderItems(items, style, level)
    decreases items, 1
  {
    hide Render, FuseAll, FuseItems, Gap;
    RenderFused(items[0], style, level);
    FuseItemsCons(items);
    if |items| > 1 {
      RenderItemsFused(items[1..], style, level);
      assert FuseItems(items)[1..] == FuseItems(items[1..]);
    }
  }

  lemma {:induction false} RenderFieldsFused(fields: Fields, style: Style, level: nat)
    requires fields != []
    ensures RenderFields(FuseFields(fields), style, level) == RenderFields(fields, style, level)
    decreases fields, 1
  {
    hide Render, FuseAll, FuseFields, Gap, RenderChars, Fuse;
    RenderFused(fields[0].value, style, level);
    RenderCharsFused(fields[0].key);
    FuseFieldsCons(fields);
    if |fields| > 1 {
      RenderFieldsFused(fields[1..], style, level);
      assert FuseFields(fields)[1..] == FuseFields(fields[1..]);
    }
  }

  // ----- the identity theorems

  /** Two values have the same sorted compact text exactly when they agree after sorting and joining pairs. */
  lemma CanonicalIdentifies(v: Json, w: Json)
    requires Tokens(v) && Tokens(w)
    ensures Canonical(v) == Canonical(w) <==> FuseAll(SortKeys(v)) == FuseAll(SortKeys(w))
  {
    hide FuseAll, SortKeys, Render, ParseValue, Tokens;
    SortKeysKeeps(NoSplit, v);
    SortKeysKeeps(NoSplit, w);
    var a, b := SortKeys(v), SortKeys(w);
    ValueRoundTrip(a, Compact, 0, []);
    ValueRoundTrip(b, Compact, 0, []);
    RenderFused(a, Compact, 0);
    RenderFused(b, Compact, 0);
  }

  /** Without a split surrogate pair, the text identifies the value up to member order, at every depth. */
  lemma CanonicalFaithful(v: Json, w: Json)
    requires Tokens(v) && Dicts(v) && Everywhere(NoSplit, v)
    requires Tokens(w) && Dicts(w) && Everywhere(NoSplit, w)
    ensures Canonical(v) == Canonical(w) <==> Same(v, w)
  {
    hide *;
    CanonicalIdentifies(v, w);
    SortKeysKeeps(NoSplit, v);
    SortKeysKeeps(NoSplit, w);
    FuseAllNoSplit(SortKeys(v));
    FuseAllNoSplit(SortKeys(w));
    SortKeysIdentifies(v, w);
  }

  /** The condition is needed: a split pair and the code point it spells share one text. */
  lemma SplitPairCollides()
    ensures var v, w := Str([0xD83D, 0xDE00]), Str([0x1_F600]);
            Canonical(v) == Canonical(w) && !Same(v, w)
  {
    var s: Text := [0xD83D, 0xDE00];
    assert Fuse(s) == [Join(0xD83D, 0xDE00)] + Fuse(s[2..]);
    assert Fuse(s) == [0x1_F600];
    RenderCharsFused(s);
  }

  // ----- what the decoder produces

  lemma {:induction false} DecodedChars(t: Text)
    requires ParseChars(t).Ok?
    ensures NoSurrogate(t) ==> NoSplit(ParseChars(t).value) && NoSurrogate(ParseChars(t).rest)
    ensures NoSurrogate(t) && ParseChars(t).value != [] && Low(ParseChars(t).value[0]) ==>
              StartsEscapeU(t) && HasHex4(t[2..]) && Low(Hex4Value(t[2..]))
  {
    if t[0] != QUOTE {
      var (c, n) := ReadChar(t).value;
      DecodedChars(t[n..]);
      if NoSurrogate(t) {
        assert NoSurrogate(t[n..]);
        DecodedChar(t);
        var s := ParseChars(t[n..]).value;
        assert ParseChars(t).value == [c] + s;
      }
    }
  }

  lemma DecodedChar(t: Text)
    requires ReadChar(t).Some? && NoSurrogate(t)
    ensures Low(ReadChar(t).value.0) ==> StartsEscapeU(t) && HasHex4(t[2..]) && Low(Hex4Value(t[2..]))
    ensures High(ReadChar(t).value.0) ==>
              var tail := t[ReadChar(t).value.1..];
              !(StartsEscapeU(tail) && HasHex4(tail[2..]) && Low(Hex4Value(tail[2..])))
  {
    hide HasHex4, Hex4Value;
    if |t| >= 8 {
      assert t[6..][2..] == t[8..];
    }
  }

  lemma DecodedNumber(t: Text)
    requires ParseNumber(t).Ok?
    ensures Tokens(ParseNumber(t).value) && Everywhere(NoSplit, ParseNumber(t).value)
    ensures NoSurrogate(t) ==> NoSurrogate(ParseNumber(t).rest)
  {
    hide NumberLength, IntLength, IntValue;
    if NumberLength(t) > 0 {
      NumberLengthPrefix(t);
    }
  }

  /** Everything decoded has valid tokens; decoded from surrogate-free text it has no split pair. */
  lemma {:induction false} Decoded(t: Text)
    requires ParseValue(t).Ok?
    ensures Tokens(ParseValue(t).value)
    ensures NoSurrogate(t) ==> Everywhere(NoSplit, ParseValue(t).value) && NoSurrogate(ParseValue(t).rest)
    decreases |t|, 1
  {
    hide ParseValue, ParseChars, ParseItems, ParseFields, ParseNumber, Skip, StartsWith;
    DecodedSuffixes(t);
    if t[0] == QUOTE {
      StringView(t);
      DecodedChars(t[1..]);
    } else if t[0] == LBRACE {
      ObjectView(t);
      SkipPlain(t[1..]);
      if Skip(t[1..])[0] != RBRACE {
        DecodedFields(Skip(t[1..]));
      }
    } else if t[0] == LBRACKET {
      ArrayView(t);
      SkipPlain(t[1..]);
      if Skip(t[1..])[0] != RBRACKET {
        DecodedItems(Skip(t[1..]));
      }
    } else {
      ScalarView(t);
      if ParseNumber(t).Ok? { DecodedNumber(t); }
    }
  }

  lemma DecodedSuffixes(t: Text)
    requires ParseValue(t).Ok?
    ensures t != [] && (NoSurrogate(t) ==> NoSurrogate(t[1..]))
    ensures StartsWith(t, NULL) || StartsWith(t, TRUE) ==> |t| >= 4 && (NoSurrogate(t) ==> NoSurrogate(t[4..]))
    ensures StartsWith(t, FALSE) ==> |t| >= 5 && (NoSurrogate(t) ==> NoSurrogate(t[5..]))
  {
  }

  lemma {:induction false} SkipPlain(t: Text)
    ensures NoSurrogate(t) ==> NoSurrogate(Skip(t))
  {
    if t != [] && Blank(t[0]) {
      SkipPlain(t[1..]);
      assert NoSurrogate(t) ==> NoSurrogate(t[1..]);
    }
  }

  lemma {:induction false} DecodedFields(t: Text)
    requires ParseFields(t).Ok?
    ensures Tokens(Obj(ParseFields(t).value))
    ensures NoSurrogate(t) ==> Everywhere(NoSplit, Obj(ParseFields(t).value)) && NoSurrogate(ParseFields(t).rest)
    decreases |t|, 2
  {
    hide ParseValue, ParseFields, ParseChars, Skip, AfterValue, MemberValue;
    MemberView(t);
    DecodedKey(t);
    var v := MemberValue(t);
    Decoded(v);
    SkipPlain(ParseValue(v).rest);
    var next := AfterValue(v);
    if next[0] == COMMA {
      SkipPlain(next[1..]);
      DecodedFields(Skip(next[1..]));
    }
  }

  lemma DecodedKey(t: Text)
    requires ParseFields(t).Ok?
    ensures NoSurrogate(t) ==> NoSplit(ParseChars(t[1..]).value) && NoSurrogate(MemberValue(t))
  {
    hide ParseValue, ParseFields, ParseChars, Skip, AfterValue, MemberValue;
    MemberView(t);
    DecodedChars(t[1..]);
    SkipPlain(ParseChars(t[1..]).rest);
    var colon := Skip(ParseChars(t[1..]).rest);
    SkipPlain(colon[1..]);
  }

  lemma {:induction false} DecodedItems(t: Text)
    requires ParseItems(t).Ok?
    ensures Tokens(Arr(ParseItems(t).value))
    ensures NoSurrogate(t) ==> Everywhere(NoSplit, Arr(ParseItems(t).value)) && NoSurrogate(ParseItems(t).rest)
    decreases |t|, 2
  {
    hide ParseValue, ParseItems, Skip, AfterValue;
    ItemView(t);
    Decoded(t);
    SkipPlain(ParseValue(t).rest);
    var next := AfterValue(t);
    if next[0] == COMMA {
      SkipPlain(next[1..]);
      DecodedItems(Skip(next[1..]));
    }
  }

  /** A dict as the journey handles it: distinct keys, valid tokens and no split pair. */
  ghost predicate Clean(v: Json) {
    Tokens(v) && Dicts(v) && Everywhere(NoSplit, v)
  }

  /** Reading a written document back gives the value with its keys in order. */
  lemma DocumentRoundTrip(v: Json)
    requires Clean(v)
    ensures Loads(Document(v)) == Some(SortKeys(v))
  {
    hide *;
    var s := SortKeys(v);
    SortKeysKeeps(NoSplit, v);
    assert Tokens(v) && Dicts(v) && Everywhere(NoSplit, v) by { DocumentClean(v); }
    NewlineBounded();
    ValueRoundTrip(s, Indented, 0, [NEWLINE]);
    FuseAllNoSplit(s);
    CollapseIdentity(s);
    DocumentLoads(v, s);
  }

  lemma NewlineBounded()
    ensures Bounded([NEWLINE])
  {
  }

  lemma DocumentClean(v: Json)
    requires Clean(v)
    ensures Tokens(v) && Dicts(v) && Everywhere(NoSplit, v)
  {
  }

  lemma DocumentLoads(v: Json, s: Json)
    requires Tokens(s) && s == SortKeys(v) && Collapse(s) == s
    requires ParseValue(Render(s, Indented, 0) + [NEWLINE]) == Ok(s, [NEWLINE])
    ensures Loads(Document(v)) == Some(s)
  {
    hide ParseValue, Render, SortKeys, Collapse, Tokens;
    RenderHead(s, Indented, 0);
    assert Document(v)[0] == Render(s, Indented, 0)[0];
    assert Skip([NEWLINE]) == [];
  }
}
