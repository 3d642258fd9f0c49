/** Attested address tuples: literals normalised, duplicates refused, the rest sorted. */
module Addresses {
  import opened Options
  import opened Texts
  import opened Sorting

  /** What a field of a transport result may hold. */
  datatype Dyn = DStr(text: Text) | DInt(number: int) | DBool(flag: bool) | DTuple(items: seq<Dyn>)
               | DStamp(stamp: Stamp) | DNone | DOther

  /** A datetime: without an offset, or local microseconds and the offset from UTC. */
  datatype Stamp = Naive | Aware(local: int, offset: int)

  /** The instant in UTC; a datetime without an offset has none. */
  function UtcOf(stamp: Stamp): Option<int> {
    match stamp
    case Naive => None
    case Aware(local, offset) => Some(local - offset)
  }

  function Itself(t: Text): Text { t }

  // ----- pairwise distinct, by size

  ghost predicate Distinct<T>(s: seq<T>) {
    forall i, j :: 0 <= i < j < |s| ==> s[i] != s[j]
  }

  /** set(s), as Python builds it to compare sizes. */
  function Elements<T(==, !new)>(s: seq<T>): (r: set<T>)
    ensures forall x :: x in r <==> x in s
  {
    set x | x in s
  }

  /** Comparing the length of a sequence with the size of its set decides whether all elements differ. */
  lemma {:induction false} DistinctBySize<T(!new)>(s: seq<T>)
    ensures |Elements(s)| <= |s|
    ensures |Elements(s)| == |s| <==> Distinct(s)
  {
    if s == [] {
      assert Elements(s) == {};
    } else {
      DistinctBySize(s[1..]);
      ElementsCons(s);
      if Distinct(s) {
        assert s[0] !in s[1..];
      }
      if s[0] !in s[1..] && Distinct(s[1..]) {
        forall i, j | 0 <= i < j < |s| ensures s[i] != s[j] {
          assert s[j] == s[1..][j - 1];
          assert i > 0 ==> s[i] == s[1..][i - 1];
        }
      }
    }
  }

  lemma ElementsCons<T(!new)>(s: seq<T>)
    requires s != []
    ensures Elements(s) == Elements(s[1..]) + {s[0]}
    ensures s[0] in s[1..] ==> |Elements(s)| == |Elements(s[1..])|
    ensures s[0] !in s[1..] ==> |Elements(s)| == |Elements(s[1..])| + 1
    ensures s[0] in s[1..] ==> !Distinct(s)
    ensures Distinct(s) ==> Distinct(s[1..])
  {
    assert s == [s[0]] + s[1..];
    assert Elements(s) == Elements(s[1..]) + {s[0]};
    if s[0] in s[1..] {
      var j :| 0 <= j < |s[1..]| && s[1..][j] == s[0];
      assert s[0] == s[j + 1];
      assert Elements(s) == Elements(s[1..]);
    }
  }

  // ----- validation

  /** The normalised texts of the string items; nothing when a literal is refused. */
  function Normalised(publicIp: Text -> Option<Text>, items: seq<Dyn>): Option<seq<Text>> {
    if items == [] then Some([])
    else if !items[0].DStr? then Normalised(publicIp, items[1..])
    else
      var first :- publicIp(items[0].text);
      var rest :- Normalised(publicIp, items[1..]);
      Some([first] + rest)
  }

  function ValidatedAddresses(publicIp: Text -> Option<Text>, values: Dyn): Option<seq<Text>> {
    if !values.DTuple? || !(1 <= |values.items| <= 32) then None
    else
      var normalised :- Normalised(publicIp, values.items);
      if |normalised| != |values.items| || |Elements(normalised)| != |normalised| then None
      else Some(Sort(Itself, normalised))
  }

  // ----- what is accepted, and what the result stands for

  /** Every item is a literal the host accepts. */
  ghost predicate AllLiterals(publicIp: Text -> Option<Text>, items: seq<Dyn>) {
    forall i :: 0 <= i < |items| ==> items[i].DStr? && publicIp(items[i].text).Some?
  }

  ghost predicate NormalsDiffer(publicIp: Text -> Option<Text>, items: seq<Dyn>)
    requires AllLiterals(publicIp, items)
  {
    forall i, j :: 0 <= i < j < |items| ==> publicIp(items[i].text) != publicIp(items[j].text)
  }

  /** The set of addresses an attestation stands for. */
  ghost function AddressSet(publicIp: Text -> Option<Text>, items: seq<Dyn>): set<Text>
    requires AllLiterals(publicIp, items)
  {
    set i | 0 <= i < |items| :: publicIp(items[i].text).value
  }

  lemma {:induction false} NormalisedAll(publicIp: Text -> Option<Text>, items: seq<Dyn>)
    ensures Normalised(publicIp, items).Some? ==> |Normalised(publicIp, items).value| <= |items|
    ensures (Normalised(publicIp, items).Some? && |Normalised(publicIp, items).value| == |items|)
            <==> AllLiterals(publicIp, items)
    ensures AllLiterals(publicIp, items) ==>
              forall i :: 0 <= i < |items| ==> Normalised(publicIp, items).value[i] == publicIp(items[i].text).value
  {
    if items != [] {
      NormalisedAll(publicIp, items[1..]);
      assert items == [items[0]] + items[1..];
      AllLiteralsCons(publicIp, items);
    }
  }

  lemma AllLiteralsCons(publicIp: Text -> Option<Text>, items: seq<Dyn>)
    requires items != []
    ensures AllLiterals(publicIp, items) <==>
            items[0].DStr? && publicIp(items[0].text).Some? && AllLiterals(publicIp, items[1..])
  {
    if items[0].DStr? && publicIp(items[0].text).Some? && AllLiterals(publicIp, items[1..]) {
      forall i | 0 <= i < |items| ensures items[i].DStr? && publicIp(items[i].text).Some? {
        assert i > 0 ==> items[i] == items[1..][i - 1];
      }
    }
  }

  ghost predicate Acceptable(publicIp: Text -> Option<Text>, values: Dyn) {
    && values.DTuple? && 1 <= |values.items| <= 32
    && AllLiterals(publicIp, values.items) && NormalsDiffer(publicIp, values.items)
  }

  /** Accepted exactly: 1 to 32 accepted literals that stay distinct when normalised; the result is their set, in order. */
  lemma AddressesExactly(publicIp: Text -> Option<Text>, values: Dyn)
    ensures ValidatedAddresses(publicIp, values).Some? <==> Acceptable(publicIp, values)
    ensures Acceptable(publicIp, values) ==>
              var r := ValidatedAddresses(publicIp, values).value;
              && |r| == |values.items| && Increasing(Itself, r)
              && Elements(r) == AddressSet(publicIp, values.items)
  {
    if values.DTuple? && 1 <= |values.items| <= 32 {
      NormalisedAll(publicIp, values.items);
      if AllLiterals(publicIp, values.items) {
        NormalisedSorts(publicIp, values.items, Normalised(publicIp, values.items).value);
      }
    }
    hide Sort, Normalised, AllLiterals, NormalsDiffer, AddressSet, Increasing;
  }

  lemma NormalisedSorts(publicIp: Text -> Option<Text>, items: seq<Dyn>, n: seq<Text>)
    requires AllLiterals(publicIp, items) && |n| == |items|
    requires forall i :: 0 <= i < |items| ==> n[i] == publicIp(items[i].text).value
    ensures |Elements(n)| == |n| <==> NormalsDiffer(publicIp, items)
    ensures |Sort(Itself, n)| == |n| && Elements(Sort(Itself, n)) == AddressSet(publicIp, items)
    ensures |Elements(n)| == |n| ==> Increasing(Itself, Sort(Itself, n))
  {
    hide Sort, Increasing;
    DistinctBySize(n);
    SortPermutes(Itself, n);
    assert Elements(Sort(Itself, n)) == Elements(n);
    assert Elements(n) == AddressSet(publicIp, items);
    if Distinct(n) {
      assert DistinctKeys(Itself, n);
      SortIncreasing(Itself, n);
    }
    assert NormalsDiffer(publicIp, items) <==> Distinct(n);
  }

  /** Two accepted tuples agree exactly when they stand for the same set of addresses. */
  lemma AddressesAgree(publicIp: Text -> Option<Text>, a: Dyn, b: Dyn)
    requires Acceptable(publicIp, a) && Acceptable(publicIp, b)
    ensures ValidatedAddresses(publicIp, a) == ValidatedAddresses(publicIp, b)
            <==> AddressSet(publicIp, a.items) == AddressSet(publicIp, b.items)
  {
    hide ValidatedAddresses, AddressSet, Acceptable, Increasing;
    AddressesExactly(publicIp, a);
    AddressesExactly(publicIp, b);
    var x, y := ValidatedAddresses(publicIp, a).value, ValidatedAddresses(publicIp, b).value;
    if Elements(x) == Elements(y) {
      forall t ensures t in x <==> t in y { assert t in Elements(x) <==> t in Elements(y); }
      IncreasingUnique(Itself, x, y);
    }
  }
}
