/** The two sequence clocks of the acceptance runs: one keeps an index, one pops its list. */
module Clocks {
  import opened Options

  /** A reading: microseconds since an epoch. */
  type Instant = int

  function Least(a: nat, b: nat): nat {
    if a <= b then a else b
  }

  /** What the n-th call reads, counted from 0: the n-th value, or the last one for ever after. */
  ghost function Reading(given: seq<Instant>, n: nat): Instant
    requires given != []
  {
    given[Least(n, |given| - 1)]
  }

  /** The indexing clock of the live source run. */
  class IndexingClock {
    const values: seq<Instant>
    var index: nat
    ghost const given: seq<Instant>
    ghost var calls: nat

    ghost predicate Valid()
      reads this
    {
      given != [] && values == given && index == calls
    }

    constructor (values: seq<Instant>)
      requires values != []
      ensures Valid() && given == values && calls == 0
    {
      this.values := values;
      given := values;
      index := 0;
      calls := 0;
    }

    method Call() returns (value: Instant)
      requires Valid()
      modifies this
      ensures Valid() && calls == old(calls) + 1
      ensures value == Reading(given, old(calls))
    {
      value := values[Least(index, |values| - 1)];
      index := index + 1;
      calls := calls + 1;
    }
  }

  /** The popping clock of the prepared brief run: what it has left is what its calls have not used up. */
  class PoppingClock {
    var values: seq<Instant>
    ghost const given: seq<Instant>
    ghost var calls: nat

    ghost predicate Valid()
      reads this
    {
      given != [] && values == given[Least(calls, |given| - 1)..]
    }

    constructor (values: seq<Instant>)
      requires values != []
      ensures Valid() && given == values && calls == 0
    {
      this.values := values;
      given := values;
      calls := 0;
    }

    method Call() returns (value: Instant)
      requires Valid()
      modifies this
      ensures Valid() && calls == old(calls) + 1
      ensures value == Reading(given, old(calls))
    {
      value := values[0];
      if |values| > 1 {
        values := values[1..];
      }
      calls := calls + 1;
    }
  }

  /** Both constructors raise on an empty list. */
  method MakeClocks(values: seq<Instant>) returns (indexing: Option<IndexingClock>, popping: Option<PoppingClock>)
    ensures indexing.Some? <==> values != []
    ensures popping.Some? <==> values != []
    ensures indexing.Some? ==> indexing.value.Valid() && indexing.value.given == values && indexing.value.calls == 0
    ensures popping.Some? ==> popping.value.Valid() && popping.value.given == values && popping.value.calls == 0
  {
    if values == [] {
      return None, None;
    }
    var i := new IndexingClock(values);
    var p := new PoppingClock(values);
    return Some(i), Some(p);
  }

  /** Any number of calls on a clock of each kind, made side by side: no call tells them apart. */
  method ReadBoth(indexing: IndexingClock, popping: PoppingClock, n: nat) returns (a: seq<Instant>, b: seq<Instant>)
    requires indexing.Valid() && popping.Valid()
    requires indexing.given == popping.given && indexing.calls == popping.calls == 0
    modifies indexing, popping
    ensures a == b && |a| == n
    ensures var given := indexing.given;
            forall k :: 0 <= k < n ==> a[k] == if k < |given| then given[k] else given[|given| - 1]
  {
    a, b := [], [];
    while |a| < n
      invariant indexing.Valid() && popping.Valid() && indexing.calls == popping.calls == |a| <= n
      invariant a == b && forall k :: 0 <= k < |a| ==> a[k] == Reading(indexing.given, k)
    {
      var x := indexing.Call();
      var y := popping.Call();
      a, b := a + [x], b + [y];
    }
  }

  ghost predicate NonDecreasing(s: seq<Instant>) {
    forall i, j :: 0 <= i < j < |s| ==> s[i] <= s[j]
  }

  /** No later call ever reads an earlier instant. */
  ghost predicate AlwaysForward(given: seq<Instant>)
    requires given != []
  {
    forall m: nat, n: nat :: m <= n ==> Reading(given, m) <= Reading(given, n)
  }

  /** A clock runs forward for ever exactly when its values do. */
  lemma ForwardForever(given: seq<Instant>)
    requires given != []
    ensures AlwaysForward(given) <==> NonDecreasing(given)
  {
    if AlwaysForward(given) {
      forall i, j | 0 <= i < j < |given| ensures given[i] <= given[j] {
        assert Reading(given, i) <= Reading(given, j);
      }
    }
  }
}
