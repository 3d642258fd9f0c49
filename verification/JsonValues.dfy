/**
  Decoded JSON. An object is the list of its members in order; Python's dict is an
  object whose keys are distinct at every level (Dicts). Integers are unbounded and
  a number with a fraction or exponent is kept as its token.
 */
module JsonValues {
  import opened Options
  import opened Texts
  import opened Numerals
  import opened Sorting

  datatype Json = Null | Bool(b: bool) | Int(n: int) | Real(token: Text) | Str(s: Text)
                | Arr(items: seq<Json>) | Obj(fields: seq<Field>)
  datatype Field = Field(key: Text, value: Json)
  type Fields = seq<Field>

  const NAN: Text := Ascii("NaN")
  const INFINITY: Text := Ascii("Infinity")
  const NEG_INFINITY: Text := Ascii("-Infinity")

  function KeyOf(f: Field): Text { f.key }

  predicate RealToken(t: Text) {
    || t in {NAN, INFINITY, NEG_INFINITY}
    || (0 < IntLength(t) < |t| && NumberLength(t) == |t|)
  }

  /** Every number token is one the grammar or Python's float repr can produce. */
  ghost predicate Tokens(v: Json) {
    match v
    case Real(token) => RealToken(token)
    case Arr(items) => forall i :: 0 <= i < |items| ==> Tokens(items[i])
    case Obj(fields) => forall i :: 0 <= i < |fields| ==> Tokens(fields[i].value)
    case _ => true
  }

  /** Every string and every key satisfies p. */
  ghost predicate Everywhere(p: Text -> bool, v: Json)
    decreases v
  {
    match v
    case Str(s) => p(s)
    case Arr(items) => forall i :: 0 <= i < |items| ==> Everywhere(p, items[i])
    case Obj(fields) => forall i :: 0 <= i < |fields| ==> p(fields[i].key) && Everywhere(p, fields[i].value)
    case _ => true
  }

  /** Keys are distinct in every object. */
  ghost predicate Dicts(v: Json) {
    match v
    case Arr(items) => forall i :: 0 <= i < |items| ==> Dicts(items[i])
    case Obj(fields) => DistinctKeys(KeyOf, fields) && forall i :: 0 <= i < |fields| ==> Dicts(fields[i].value)
    case _ => true
  }

  /** dict.get on the members read so far: a later member overrides an earlier one. */
  function Get(fields: Fields, key: Text): Option<Json> {
    if fields == [] then None
    else if fields[|fields| - 1].key == key then Some(fields[|fields| - 1].value)
    else Get(fields[..|fields| - 1], key)
  }

  lemma {:induction false} GetMember(fields: Fields, key: Text)
    ensures Get(fields, key).Some? ==> exists i :: 0 <= i < |fields| && fields[i] == Field(key, Get(fields, key).value)
    ensures Get(fields, key).None? ==> forall i :: 0 <= i < |fields| ==> fields[i].key != key
  {
    if fields != [] {
      var last := |fields| - 1;
      if fields[last].key == key {
        assert fields[last] == Field(key, Get(fields, key).value);
      } else {
        GetMember(fields[..last], key);
        if Get(fields[..last], key).Some? {
          var i :| 0 <= i < |fields[..last]| && fields[..last][i] == Field(key, Get(fields, key).value);
          assert fields[i] == Field(key, Get(fields, key).value);
        } else {
          forall i | 0 <= i < |fields| ensures fields[i].key != key {
            assert i < last ==> fields[..last][i] == fields[i];
          }
        }
      }
    }
  }

  lemma GetDistinct(fields: Fields, i: nat)
    requires DistinctKeys(KeyOf, fields) && i < |fields|
    ensures Get(fields, fields[i].key) == Some(fields[i].value)
  {
    GetMember(fields, fields[i].key);
    var r := Get(fields, fields[i].key);
    assert r.Some?;
    var j :| 0 <= j < |fields| && fields[j] == Field(fields[i].key, r.value);
    assert KeyOf(fields[j]) == KeyOf(fields[i]);
  }

  /** Assignment to a dict key: replace in place, or append. */
  function Put(fields: Fields, key: Text, value: Json): Fields {
    if fields == [] then [Field(key, value)]
    else if fields[0].key == key then [Field(key, value)] + fields[1..]
    else [fields[0]] + Put(fields[1..], key, value)
  }

  /** dict(pairs) at every level, which is what json.loads builds from its members. */
  function Collapse(v: Json): Json
    decreases v, 0
  {
    match v
    case Arr(items) => Arr(seq(|items|, i requires 0 <= i < |items| => Collapse(items[i])))
    case Obj(fields) => Obj(CollapseFields(fields))
    case _ => v
  }

  function CollapseFields(fields: Fields): Fields
    decreases fields, 1
  {
    if fields == [] then []
    else
      var last := |fields| - 1;
      Put(CollapseFields(fields[..last]), fields[last].key, Collapse(fields[last].value))
  }

  /** Members in key order at every level (json.dumps with sort_keys). */
  function SortKeys(v: Json): Json {
    match v
    case Arr(items) => Arr(seq(|items|, i requires 0 <= i < |items| => SortKeys(items[i])))
    case Obj(fields) => Obj(Sort(KeyOf, SortValues(fields)))
    case _ => v
  }

  function SortValues(fields: Fields): (r: Fields)
    ensures |r| == |fields|
    ensures forall i :: 0 <= i < |fields| ==> r[i] == Field(fields[i].key, SortKeys(fields[i].value))
  {
    seq(|fields|, i requires 0 <= i < |fields| => Field(fields[i].key, SortKeys(fields[i].value)))
  }

  /** Surrogate pairs joined in every string and key. */
  function FuseAll(v: Json): Json {
    match v
    case Str(s) => Str(Fuse(s))
    case Arr(items) => Arr(FuseItems(items))
    case Obj(fields) => Obj(FuseFields(fields))
    case _ => v
  }

  function FuseItems(items: seq<Json>): (r: seq<Json>)
    ensures |r| == |items|
    ensures forall i :: 0 <= i < |items| ==> r[i] == FuseAll(items[i])
  {
    seq(|items|, i requires 0 <= i < |items| => FuseAll(items[i]))
  }

  function FuseFields(fields: Fields): (r: Fields)
    ensures |r| == |fields|
    ensures forall i :: 0 <= i < |fields| ==> r[i] == Field(Fuse(fields[i].key), FuseAll(fields[i].value))
  {
    seq(|fields|, i requires 0 <= i < |fields| => Field(Fuse(fields[i].key), FuseAll(fields[i].value)))
  }

  /** Equality of decoded values that ignores the order of object members, at every depth. */
  ghost predicate Same(v: Json, w: Json)
    decreases v, 0
  {
    match (v, w)
    case (Arr(xs), Arr(ys)) => |xs| == |ys| && forall i :: 0 <= i < |xs| ==> Same(xs[i], ys[i])
    case (Obj(fs), Obj(gs)) =>
      |fs| == |gs| && forall i :: 0 <= i < |fs| ==> SameMember(fs[i], gs)
    case _ => v == w
  }

  ghost predicate SameMember(f: Field, gs: Fields)
    decreases f, 0
  {
    exists j :: 0 <= j < |gs| && f.key == gs[j].key && Same(f.value, gs[j].value)
  }

  lemma {:induction false} FuseAllNoSplit(v: Json)
    requires Everywhere(NoSplit, v)
    ensures FuseAll(v) == v
  {
    match v
    case Str(s) => FuseNoSplit(s);
    case Arr(items) =>
      forall i | 0 <= i < |items| ensures FuseItems(items)[i] == items[i] { FuseAllNoSplit(items[i]); }
      assert FuseItems(items) == items;
    case Obj(fields) =>
      forall i | 0 <= i < |fields| ensures FuseFields(fields)[i] == fields[i] {
        FuseNoSplit(fields[i].key);
        FuseAllNoSplit(fields[i].value);
      }
      assert FuseFields(fields) == fields;
    case _ =>
  }

  lemma SortedMember(fields: Fields, f: Field)
    ensures f in Sort(KeyOf, SortValues(fields)) <==>
            exists i :: 0 <= i < |fields| && f == Field(fields[i].key, SortKeys(fields[i].value))
  {
    SortPermutes(KeyOf, SortValues(fields));
    if f in SortValues(fields) {
      var i :| 0 <= i < |fields| && SortValues(fields)[i] == f;
      assert f == Field(fields[i].key, SortKeys(fields[i].value));
    }
    if i :| 0 <= i < |fields| && f == Field(fields[i].key, SortKeys(fields[i].value)) {
      assert SortValues(fields)[i] == f;
    }
  }

  lemma DistinctSortValues(fields: Fields)
    requires DistinctKeys(KeyOf, fields)
    ensures DistinctKeys(KeyOf, SortValues(fields))
  {
    forall i, j | 0 <= i < j < |fields| ensures KeyOf(SortValues(fields)[i]) != KeyOf(SortValues(fields)[j]) {
      assert KeyOf(fields[i]) != KeyOf(fields[j]);
    }
  }

  /** Sorting keys identifies exactly the values that are equal up to member order. */
  lemma {:induction false} SortKeysIdentifies(v: Json, w: Json)
    requires Dicts(v) && Dicts(w)
    ensures SortKeys(v) == SortKeys(w) <==> Same(v, w)
    decreases v, 1
  {
    match (v, w)
    case (Arr(xs), Arr(ys)) =>
      if |xs| == |ys| {
        forall i | 0 <= i < |xs| ensures SortKeys(xs[i]) == SortKeys(ys[i]) <==> Same(xs[i], ys[i]) {
          SortKeysIdentifies(xs[i], ys[i]);
        }
        var sx, sy := SortKeys(v).items, SortKeys(w).items;
        assert forall i :: 0 <= i < |xs| ==> sx[i] == SortKeys(xs[i]) && sy[i] == SortKeys(ys[i]);
      } else {
        assert |SortKeys(v).items| != |SortKeys(w).items|;
      }
    case (Obj(fs), Obj(gs)) =>
      SortFieldsIdentifies(v, fs, gs);
    case _ =>
  }

  lemma {:induction false} SortFieldsIdentifies(v: Json, fs: Fields, gs: Fields)
    requires v == Obj(fs) && Dicts(v) && Dicts(Obj(gs))
    ensures SortKeys(v) == SortKeys(Obj(gs)) <==> Same(v, Obj(gs))
    decreases v, 0
  {
    hide Sort, Insert, SortValues, Less;
    DistinctSortValues(fs);
    DistinctSortValues(gs);
    var a, b := SortValues(fs), SortValues(gs);
    SortMatches(a, b);
    assert SortKeys(v) == SortKeys(Obj(gs)) <==> Sort(KeyOf, a) == Sort(KeyOf, b);
    hide SortKeys, DistinctKeys;
    forall i, j | 0 <= i < |fs| && 0 <= j < |gs|
      ensures a[i] == b[j] <==> fs[i].key == gs[j].key && Same(fs[i].value, gs[j].value)
    {
      SortKeysIdentifies(fs[i].value, gs[j].value);
    }
    MatchedSame(fs, gs, a, b);
  }

  lemma MatchedSame(fs: Fields, gs: Fields, a: Fields, b: Fields)
    requires |a| == |fs| && |b| == |gs|
    requires forall i, j :: 0 <= i < |fs| && 0 <= j < |gs| ==>
               (a[i] == b[j] <==> fs[i].key == gs[j].key && Same(fs[i].value, gs[j].value))
    ensures Matched(a, b) <==> Same(Obj(fs), Obj(gs))
  {
    if Matched(a, b) {
      forall i | 0 <= i < |fs| ensures SameMember(fs[i], gs) {
        assert a[i] in b;
        var j :| 0 <= j < |b| && a[i] == b[j];
        assert fs[i].key == gs[j].key && Same(fs[i].value, gs[j].value);
      }
    }
    if Same(Obj(fs), Obj(gs)) {
      assert |fs| == |gs|;
      forall i | 0 <= i < |a| ensures a[i] in b {
        assert SameMember(fs[i], gs);
        var j :| 0 <= j < |gs| && fs[i].key == gs[j].key && Same(fs[i].value, gs[j].value);
        assert a[i] == b[j];
      }
      assert Matched(a, b);
    }
  }

  ghost predicate Matched(a: Fields, b: Fields) {
    |a| == |b| && forall i :: 0 <= i < |a| ==> a[i] in b
  }

  lemma SortMatches(a: Fields, b: Fields)
    requires DistinctKeys(KeyOf, a) && DistinctKeys(KeyOf, b)
    ensures Sort(KeyOf, a) == Sort(KeyOf, b) <==> Matched(a, b)
  {
    SortCanonical(KeyOf, a, b);
    SortPermutes(KeyOf, a);
    SortPermutes(KeyOf, b);
    if Matched(a, b) {
      SameLengthSubset(a, b);
    }
    if Sort(KeyOf, a) == Sort(KeyOf, b) {
      forall i | 0 <= i < |a| ensures a[i] in b {
        assert a[i] in Sort(KeyOf, a);
        assert a[i] in Sort(KeyOf, b);
      }
    }
  }

  /** Among distinct-key lists of equal length, inclusion is equality of elements. */
  lemma {:induction false} SameLengthSubset(a: Fields, b: Fields)
    requires DistinctKeys(KeyOf, a) && DistinctKeys(KeyOf, b) && |a| == |b|
    requires forall x :: x in a ==> x in b
    ensures forall x :: x in b ==> x in a
  {
    var sa, sb := (set x | x in a), (set x | x in b);
    DistinctCardinality(a);
    DistinctCardinality(b);
    SubsetCardinality(sa, sb);
    forall x | x in b ensures x in a {
      assert x in sb;
    }
  }

  lemma {:induction false} DistinctCardinality(a: Fields)
    requires DistinctKeys(KeyOf, a)
    ensures |set x | x in a| == |a|
  {
    if a != [] {
      DistinctCardinality(a[1..]);
      assert (set x | x in a) == (set x | x in a[1..]) + {a[0]};
      forall i | 1 <= i < |a| ensures a[i] != a[0] {
        assert KeyOf(a[0]) != KeyOf(a[i]);
      }
      assert a[0] !in a[1..];
    } else {
      assert (set x | x in a) == {};
    }
  }

  lemma SubsetCardinality<T>(a: set<T>, b: set<T>)
    requires a <= b && |a| == |b|
    ensures a == b
  {
    if exists x :: x in b && x !in a {
      var x :| x in b && x !in a;
      assert a <= b - {x};
      CardinalityMonotone(a, b - {x});
    }
  }

  lemma {:induction false} CardinalityMonotone<T>(a: set<T>, b: set<T>)
    requires a <= b
    ensures |a| <= |b|
  {
    if a != {} {
      var x :| x in a;
      CardinalityMonotone(a - {x}, b - {x});
    }
  }
}
