/** Python's sorted, as an insertion sort by a text key. */
module Sorting {
  import opened Texts

  function Insert<T>(key: T -> Text, x: T, s: seq<T>): seq<T> {
    if s == [] || !Less(key(s[0]), key(x)) then [x] + s else [s[0]] + Insert(key, x, s[1..])
  }

  function Sort<T>(key: T -> Text, s: seq<T>): seq<T> {
    if s == [] then [] else Insert(key, s[0], Sort(key, s[1..]))
  }

  ghost predicate DistinctKeys<T>(key: T -> Text, s: seq<T>) {
    forall i, j :: 0 <= i < j < |s| ==> key(s[i]) != key(s[j])
  }

  ghost predicate Increasing<T>(key: T -> Text, s: seq<T>) {
    forall i, j :: 0 <= i < j < |s| ==> Less(key(s[i]), key(s[j]))
  }

  lemma {:induction false} InsertPermutes<T>(key: T -> Text, x: T, s: seq<T>)
    ensures multiset(Insert(key, x, s)) == multiset{x} + multiset(s)
  {
    if s != [] {
      assert s == [s[0]] + s[1..];
      InsertPermutes(key, x, s[1..]);
    }
  }

  lemma {:induction false} SortPermutes<T>(key: T -> Text, s: seq<T>)
    ensures multiset(Sort(key, s)) == multiset(s)
    ensures |Sort(key, s)| == |s|
    ensures forall x :: x in Sort(key, s) <==> x in s
  {
    if s != [] {
      SortPermutes(key, s[1..]);
      InsertPermutes(key, s[0], Sort(key, s[1..]));
      assert s == [s[0]] + s[1..];
    }
    assert |multiset(s)| == |s| && |multiset(Sort(key, s))| == |Sort(key, s)|;
    forall x ensures x in Sort(key, s) <==> x in s {
      assert x in multiset(Sort(key, s)) <==> x in multiset(s);
    }
  }

  lemma {:induction false} InsertIncreasing<T>(key: T -> Text, x: T, s: seq<T>)
    requires Increasing(key, s)
    requires forall y :: y in s ==> key(y) != key(x)
    ensures Increasing(key, Insert(key, x, s))
  {
    if s == [] {
    } else if !Less(key(s[0]), key(x)) {
      LessTotal(key(x), key(s[0]));
      forall i | 0 < i < |s| ensures Less(key(x), key(s[i])) {
        LessTransitive(key(x), key(s[0]), key(s[i]));
      }
    } else {
      InsertIncreasing(key, x, s[1..]);
      InsertPermutes(key, x, s[1..]);
      var tail := Insert(key, x, s[1..]);
      forall i | 0 <= i < |tail| ensures Less(key(s[0]), key(tail[i])) {
        assert tail[i] in multiset(tail);
        assert tail[i] == x || tail[i] in s[1..];
      }
    }
  }

  lemma {:induction false} SortIncreasing<T>(key: T -> Text, s: seq<T>)
    requires DistinctKeys(key, s)
    ensures Increasing(key, Sort(key, s))
  {
    if s != [] {
      SortIncreasing(key, s[1..]);
      SortPermutes(key, s[1..]);
      forall y | y in Sort(key, s[1..]) ensures key(y) != key(s[0]) {
        assert y in multiset(Sort(key, s[1..]));
        assert y in s[1..];
        var j :| 0 <= j < |s[1..]| && s[1..][j] == y;
        assert s[j + 1] == y;
      }
      InsertIncreasing(key, s[0], Sort(key, s[1..]));
    }
  }

  /** Strictly increasing sequences with the same elements are the same sequence. */
  lemma {:induction false} IncreasingUnique<T>(key: T -> Text, a: seq<T>, b: seq<T>)
    requires Increasing(key, a) && Increasing(key, b)
    requires forall x :: x in a <==> x in b
    ensures a == b
  {
    assert a != [] ==> a[0] in a;
    assert b != [] ==> b[0] in b;
    if a != [] && b != [] {
      IncreasingHead(key, a, b);
      assert a == [a[0]] + a[1..] && b == [b[0]] + b[1..];
      forall x ensures x in a[1..] <==> x in b[1..] {
        IncreasingTail(key, a, x);
        IncreasingTail(key, b, x);
      }
      IncreasingUnique(key, a[1..], b[1..]);
    }
  }

  lemma IncreasingTail<T>(key: T -> Text, a: seq<T>, x: T)
    requires a != [] && Increasing(key, a)
    ensures x in a[1..] <==> x in a && x != a[0]
  {
    if x in a[1..] {
      var i :| 0 <= i < |a[1..]| && a[1..][i] == x;
      LessAsymmetric(key(a[0]), key(a[i + 1]));
    }
  }

  lemma IncreasingHead<T>(key: T -> Text, a: seq<T>, b: seq<T>)
    requires a != [] && b != [] && Increasing(key, a) && Increasing(key, b)
    requires forall x :: x in a <==> x in b
    ensures a[0] == b[0]
  {
    assert a[0] in b && b[0] in a;
    var i :| 0 <= i < |a| && a[i] == b[0];
    var j :| 0 <= j < |b| && b[j] == a[0];
    if i > 0 && j > 0 {
      LessAsymmetric(key(a[0]), key(a[i]));
    }
  }

  /** Sorting is a normal form: distinct keys sort alike exactly when the elements agree. */
  lemma SortCanonical<T>(key: T -> Text, a: seq<T>, b: seq<T>)
    requires DistinctKeys(key, a) && DistinctKeys(key, b)
    ensures Sort(key, a) == Sort(key, b) <==> (forall x :: x in a <==> x in b)
  {
    SortPermutes(key, a);
    SortPermutes(key, b);
    SortIncreasing(key, a);
    SortIncreasing(key, b);
    if forall x :: x in a <==> x in b {
      IncreasingUnique(key, Sort(key, a), Sort(key, b));
    }
    if Sort(key, a) == Sort(key, b) {
      forall x ensures x in a <==> x in b {
        assert x in Sort(key, a) <==> x in a;
        assert x in Sort(key, b) <==> x in b;
      }
    }
  }
}
