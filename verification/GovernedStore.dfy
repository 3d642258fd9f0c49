/**
  The governed state store: one head per (kind, product, state id), moved by
  compare-and-set over revisions and receipts that are only ever added. A commit
  contains no await, so every interleaving of commits is a sequence of them.
 */
module GovernedStore {
  import opened Options

  datatype Key = Key(kind: string, product: string, state: string)
  datatype RecordKey = RecordKey(product: string, id: string)
  datatype Revision = Revision(key: Key, id: string, sequence: int, material: string)
  datatype Receipt = Receipt(id: string, material: string)
  datatype Head = Head(key: Key, sequence: int, revision: string, receipt: string, updatedAt: int)

  /** A commit request; building its receipt or its head record may raise. */
  datatype Request = Request(
    revision: Revision, expected: Option<string>, receipt: Option<Receipt>, headBuilds: bool, committedAt: int)

  datatype State = State(heads: map<Key, Head>, revisions: map<RecordKey, Revision>, receipts: map<RecordKey, Receipt>)

  const EMPTY := State(map[], map[], map[])

  /** The two stores in use differ in when they build the head record: after the first writes, or before any. */
  datatype Variant = WritesFirst | HeadFirst

  function CurrentRevision(s: State, key: Key): Option<string> {
    if key in s.heads then Some(s.heads[key].revision) else None
  }

  function HeadOf(q: Request): Head
    requires q.receipt.Some?
  {
    Head(q.revision.key, q.revision.sequence, q.revision.id, q.receipt.value.id, q.committedAt)
  }

  function RevisionKey(q: Request): RecordKey { RecordKey(q.revision.key.product, q.revision.id) }

  function ReceiptKey(q: Request): RecordKey
    requires q.receipt.Some?
  {
    RecordKey(q.revision.key.product, q.receipt.value.id)
  }

  predicate Admits(s: State, q: Request) {
    CurrentRevision(s, q.revision.key) == q.expected
  }

  /** The request commits: no conflict and nothing raises. */
  predicate Commits(s: State, q: Request) {
    Admits(s, q) && q.receipt.Some? && q.headBuilds
  }

  function After(variant: Variant, s: State, q: Request): State {
    if !Admits(s, q) || q.receipt.None? then s
    else if variant == HeadFirst && !q.headBuilds then s
    else
      var written := s.(revisions := s.revisions[RevisionKey(q) := q.revision], receipts := s.receipts[ReceiptKey(q) := q.receipt.value]);
      if q.headBuilds then written.(heads := s.heads[q.revision.key := HeadOf(q)]) else written
  }

  function Run(variant: Variant, s: State, requests: seq<Request>): State {
    if requests == [] then s
    else After(variant, Run(variant, s, requests[..|requests| - 1]), requests[|requests| - 1])
  }

  /** Whether the i-th request of a run from the empty store commits. */
  predicate CommitsAt(variant: Variant, requests: seq<Request>, i: nat)
    requires i < |requests|
  {
    Commits(Run(variant, EMPTY, requests[..i]), requests[i])
  }

  /** Positions of the requests that committed under a key, in order. */
  function Chain(variant: Variant, requests: seq<Request>, key: Key): (c: seq<nat>)
    ensures forall a :: 0 <= a < |c| ==> c[a] < |requests|
  {
    if requests == [] then []
    else
      var n := |requests| - 1;
      var before := Chain(variant, requests[..n], key);
      if requests[n].revision.key == key && CommitsAt(variant, requests, n) then before + [n] else before
  }

  /** Compare-and-set links: the first commit expects nothing, each later one its predecessor. */
  ghost predicate Linked(requests: seq<Request>, c: seq<nat>) {
    && (forall a :: 0 <= a < |c| ==> c[a] < |requests|)
    && (forall a, b :: 0 <= a < b < |c| ==> c[a] < c[b])
    && (|c| > 0 ==> requests[c[0]].expected.None?)
    && (forall a :: 0 < a < |c| ==> requests[c[a]].expected == Some(requests[c[a - 1]].revision.id))
  }

  /** The head under a key is the record of the last commit in its chain. */
  ghost predicate HeadIsLast(s: State, requests: seq<Request>, key: Key, c: seq<nat>)
    requires forall a :: 0 <= a < |c| ==> c[a] < |requests|
  {
    if c == [] then key !in s.heads
    else
      var last := requests[c[|c| - 1]];
      key in s.heads && last.receipt.Some? && s.heads[key] == HeadOf(last)
  }

  lemma {:induction false} ChainComplete(variant: Variant, requests: seq<Request>, key: Key)
    ensures forall i :: 0 <= i < |requests| ==>
              (i in Chain(variant, requests, key) <==> requests[i].revision.key == key && CommitsAt(variant, requests, i))
  {
    if requests != [] {
      var n := |requests| - 1;
      var before := requests[..n];
      ChainComplete(variant, before, key);
      forall i | 0 <= i < n
        ensures i in Chain(variant, requests, key) <==> requests[i].revision.key == key && CommitsAt(variant, requests, i)
      {
        assert before[..i] == requests[..i] && before[i] == requests[i];
        assert CommitsAt(variant, before, i) <==> CommitsAt(variant, requests, i);
      }
      forall a | 0 <= a < |Chain(variant, before, key)| ensures Chain(variant, before, key)[a] != n {}
    }
  }

  /** One commit, map by map: where the expectation holds and nothing raises all three move, and otherwise as far as the variant got. */
  lemma AfterExactly(variant: Variant, s: State, q: Request)
    ensures var key, t := q.revision.key, After(variant, s, q);
            var current := if key in s.heads then Some(s.heads[key].revision) else None;
            var writes := current == q.expected && q.receipt.Some? && (variant == WritesFirst || q.headBuilds);
            && t.revisions == (if writes then s.revisions[RecordKey(key.product, q.revision.id) := q.revision] else s.revisions)
            && t.receipts == (if writes then s.receipts[RecordKey(key.product, q.receipt.value.id) := q.receipt.value] else s.receipts)
            && t.heads == (if writes && q.headBuilds
                           then s.heads[key := Head(key, q.revision.sequence, q.revision.id, q.receipt.value.id, q.committedAt)]
                           else s.heads)
            && (Commits(s, q) <==> writes && q.headBuilds)
  {
  }

  lemma HeadsAfter(variant: Variant, s: State, q: Request)
    ensures After(variant, s, q).heads == if Commits(s, q) then s.heads[q.revision.key := HeadOf(q)] else s.heads
  {
  }

  /** In every reachable state the commits on each key form one chain that ends at its head. */
  lemma {:induction false} CommitsFormOneChain(variant: Variant, requests: seq<Request>, key: Key)
    ensures var c := Chain(variant, requests, key);
            Linked(requests, c) && HeadIsLast(Run(variant, EMPTY, requests), requests, key, c)
  {
    if requests != [] {
      var n := |requests| - 1;
      var before := requests[..n];
      CommitsFormOneChain(variant, before, key);
      var c := Chain(variant, before, key);
      var now := Run(variant, EMPTY, before);
      var q := requests[n];
      var c' := Chain(variant, requests, key);
      assert c' == if q.revision.key == key && Commits(now, q) then c + [n] else c;
      assert Run(variant, EMPTY, requests) == After(variant, now, q);
      hide Run, Chain, After;
      HeadsAfter(variant, now, q);
      assert requests == before + [q];
      ChainExtends(now, After(variant, now, q), before, q, key, c, c');
    }
  }

  /** A commit under the key links to the last one, because its expectation is the current head; any other request keeps the chain. */
  lemma ChainExtends(s: State, t: State, requests: seq<Request>, q: Request, key: Key, c: seq<nat>, c': seq<nat>)
    requires Linked(requests, c) && HeadIsLast(s, requests, key, c)
    requires t.heads == if Commits(s, q) then s.heads[q.revision.key := HeadOf(q)] else s.heads
    requires c' == if q.revision.key == key && Commits(s, q) then c + [|requests|] else c
    ensures Linked(requests + [q], c') && HeadIsLast(t, requests + [q], key, c')
  {
    hide Linked, HeadIsLast, Commits;
    if q.revision.key == key && Commits(s, q) {
      LinkAppended(s, requests, q, c);
      HeadAppended(s, t, requests, q, c);
    } else {
      LinkKept(requests, q, c);
      HeadKept(s, t, requests, q, key, c);
    }
  }

  lemma HeadAppended(s: State, t: State, requests: seq<Request>, q: Request, c: seq<nat>)
    requires Commits(s, q) && t.heads == s.heads[q.revision.key := HeadOf(q)]
    requires Linked(requests, c)
    ensures var all, c' := requests + [q], c + [|requests|];
            (forall a :: 0 <= a < |c'| ==> c'[a] < |all|) && HeadIsLast(t, all, q.revision.key, c')
  {
  }

  lemma HeadKept(s: State, t: State, requests: seq<Request>, q: Request, key: Key, c: seq<nat>)
    requires Linked(requests, c) && HeadIsLast(s, requests, key, c)
    requires t.heads == if Commits(s, q) then s.heads[q.revision.key := HeadOf(q)] else s.heads
    requires !(q.revision.key == key && Commits(s, q))
    ensures (forall a :: 0 <= a < |c| ==> c[a] < |requests + [q]|) && HeadIsLast(t, requests + [q], key, c)
  {
  }

  lemma LinkKept(requests: seq<Request>, q: Request, c: seq<nat>)
    requires Linked(requests, c)
    ensures Linked(requests + [q], c) && forall a :: 0 <= a < |c| ==> (requests + [q])[c[a]] == requests[c[a]]
  {
  }

  lemma LinkAppended(s: State, requests: seq<Request>, q: Request, c: seq<nat>)
    requires Linked(requests, c) && HeadIsLast(s, requests, q.revision.key, c) && Commits(s, q)
    ensures Linked(requests + [q], c + [|requests|])
  {
    LinkKept(requests, q, c);
  }

  lemma ChainPosition(variant: Variant, requests: seq<Request>, i: nat) returns (a: nat)
    requires i < |requests| && CommitsAt(variant, requests, i)
    ensures var c := Chain(variant, requests, requests[i].revision.key); a < |c| && c[a] == i
  {
    ChainComplete(variant, requests, requests[i].revision.key);
    var c := Chain(variant, requests, requests[i].revision.key);
    a :| 0 <= a < |c| && c[a] == i;
  }

  /** Some request from position i on, and before j, commits this revision id under the key. */
  ghost predicate CommittedBetween(variant: Variant, requests: seq<Request>, key: Key, id: string, i: nat, j: nat)
    requires j <= |requests|
  {
    exists m: nat :: i <= m < j && requests[m].revision.key == key && requests[m].revision.id == id
                     && CommitsAt(variant, requests, m)
  }

  /** Two commits under a key on one expectation: the expected revision was committed again in between. */
  lemma SecondWinnerNeedsReuse(variant: Variant, requests: seq<Request>, i: nat, j: nat)
    requires i < j < |requests| && requests[i].revision.key == requests[j].revision.key
    requires requests[i].expected == requests[j].expected
    requires CommitsAt(variant, requests, i) && CommitsAt(variant, requests, j)
    ensures requests[i].expected.Some?
    ensures CommittedBetween(variant, requests, requests[i].revision.key, requests[i].expected.value, i, j)
  {
    hide Run, Chain, CommitsAt;
    var key := requests[i].revision.key;
    var c := Chain(variant, requests, key);
    CommitsFormOneChain(variant, requests, key);
    ChainComplete(variant, requests, key);
    var a := ChainPosition(variant, requests, i);
    var b := ChainPosition(variant, requests, j);
    assert a < b;
    var m := c[b - 1];
    assert m in c && i <= m < j;
    assert requests[j].expected == Some(requests[m].revision.id);
  }

  /** No two requests under a key on one expectation both commit. */
  ghost predicate SingleWinners(variant: Variant, requests: seq<Request>, key: Key) {
    forall i, j :: 0 <= i < j < |requests| && requests[i].revision.key == requests[j].revision.key == key
                   && requests[i].expected == requests[j].expected ==>
      !(CommitsAt(variant, requests, i) && CommitsAt(variant, requests, j))
  }

  /** Before its last member, no id occurs twice in the chain. */
  ghost predicate NoReuseBeforeLast(requests: seq<Request>, c: seq<nat>)
    requires forall a :: 0 <= a < |c| ==> c[a] < |requests|
  {
    forall a, b :: 0 <= a < b < |c| - 1 ==> requests[c[a]].revision.id != requests[c[b]].revision.id
  }

  /** Racing commits have one winner each exactly when no id but the last is committed a second time before the last. */
  lemma OneWinnerExactly(variant: Variant, requests: seq<Request>, key: Key)
    ensures SingleWinners(variant, requests, key) <==> NoReuseBeforeLast(requests, Chain(variant, requests, key))
  {
    hide Run, Chain, CommitsAt;
    var c := Chain(variant, requests, key);
    CommitsFormOneChain(variant, requests, key);
    ChainComplete(variant, requests, key);
    if SingleWinners(variant, requests, key) {
      forall a, b | 0 <= a < b < |c| - 1 ensures requests[c[a]].revision.id != requests[c[b]].revision.id {
        assert c[a + 1] in c && c[b + 1] in c;
        assert requests[c[a + 1]].expected == Some(requests[c[a]].revision.id);
        assert requests[c[b + 1]].expected == Some(requests[c[b]].revision.id);
      }
    }
    if NoReuseBeforeLast(requests, c) {
      forall i, j | 0 <= i < j < |requests| && requests[i].revision.key == requests[j].revision.key == key
                    && requests[i].expected == requests[j].expected
        ensures !(CommitsAt(variant, requests, i) && CommitsAt(variant, requests, j))
      {
        if CommitsAt(variant, requests, i) && CommitsAt(variant, requests, j) {
          var a := ChainPosition(variant, requests, i);
          var b := ChainPosition(variant, requests, j);
          LinkedApart(requests, c, a, b);
        }
      }
    }
  }

  lemma LinkedApart(requests: seq<Request>, c: seq<nat>, a: nat, b: nat)
    requires Linked(requests, c) && NoReuseBeforeLast(requests, c) && a < |c| && b < |c| && c[a] < c[b]
    ensures requests[c[a]].expected != requests[c[b]].expected
  {
    assert a < b;
    assert requests[c[b]].expected == Some(requests[c[b - 1]].revision.id);
    if a > 0 {
      assert requests[c[a]].expected == Some(requests[c[a - 1]].revision.id);
    }
  }

  /** After a first winner, a second request on its expectation commits exactly when it builds and the head has come back to the expected id. */
  lemma SecondWinnerExactly(variant: Variant, requests: seq<Request>, i: nat, j: nat)
    requires i < j < |requests| && requests[i].revision.key == requests[j].revision.key
    requires requests[i].expected == requests[j].expected && CommitsAt(variant, requests, i)
    ensures var c := Chain(variant, requests[..j], requests[j].revision.key);
            && c != []
            && (CommitsAt(variant, requests, j) <==>
                && requests[j].receipt.Some? && requests[j].headBuilds
                && requests[j].expected == Some(requests[c[|c| - 1]].revision.id))
  {
    var before, key := requests[..j], requests[j].revision.key;
    assert before[..i] == requests[..i] && before[i] == requests[i];
    ChainComplete(variant, before, key);
    CommitsFormOneChain(variant, before, key);
    var c := Chain(variant, before, key);
    assert i in c;
    var last := c[|c| - 1];
    assert before[last] == requests[last];
    hide Run, Chain, Linked;
  }

  /**
    Of the commits racing under a key on one expected head at most one wins, on the absent
    head always, and otherwise unless the expected revision id is committed again by the
    first winner or after it.
   */
  lemma OneWinner(variant: Variant, requests: seq<Request>, i: nat, j: nat)
    requires i < j < |requests| && requests[i].revision.key == requests[j].revision.key
    requires requests[i].expected == requests[j].expected
    requires requests[i].expected.Some? ==>
               !CommittedBetween(variant, requests, requests[i].revision.key, requests[i].expected.value, i, j)
    ensures !(CommitsAt(variant, requests, i) && CommitsAt(variant, requests, j))
  {
    if CommitsAt(variant, requests, i) && CommitsAt(variant, requests, j) {
      SecondWinnerNeedsReuse(variant, requests, i, j);
    }
  }

  /** No id that already committed under a key commits there again; refused requests may be sent again. */
  ghost predicate FreshCommits(variant: Variant, requests: seq<Request>) {
    forall i, j :: 0 <= i < j < |requests| && requests[i].revision.key == requests[j].revision.key
                   && CommitsAt(variant, requests, i) && CommitsAt(variant, requests, j) ==>
      requests[i].revision.id != requests[j].revision.id
  }

  /** Where no committed id is committed again, no two commits under a key ever share an expectation. */
  lemma FreshCommitsOneWinner(variant: Variant, requests: seq<Request>, i: nat, j: nat)
    requires FreshCommits(variant, requests)
    requires i < j < |requests| && requests[i].revision.key == requests[j].revision.key
    requires requests[i].expected == requests[j].expected
    ensures !(CommitsAt(variant, requests, i) && CommitsAt(variant, requests, j))
  {
    if CommitsAt(variant, requests, i) && CommitsAt(variant, requests, j) {
      hide Run, Chain, CommitsAt, FreshCommits;
      var key := requests[i].revision.key;
      SecondWinnerNeedsReuse(variant, requests, i, j);
      var e := requests[i].expected.value;
      var m: nat :| i <= m < j && requests[m].revision.key == key && requests[m].revision.id == e && CommitsAt(variant, requests, m);
      var p := Expected(variant, requests, i);
      CommittedOnce(variant, requests, p, m);
    }
  }

  lemma CommittedOnce(variant: Variant, requests: seq<Request>, p: nat, m: nat)
    requires FreshCommits(variant, requests) && p < m < |requests|
    requires requests[p].revision.key == requests[m].revision.key
    requires CommitsAt(variant, requests, p) && CommitsAt(variant, requests, m)
    ensures requests[p].revision.id != requests[m].revision.id
  {
    hide CommitsAt;
  }

  /** What a commit expects was committed before it under its key. */
  lemma Expected(variant: Variant, requests: seq<Request>, i: nat) returns (p: nat)
    requires i < |requests| && CommitsAt(variant, requests, i) && requests[i].expected.Some?
    ensures p < i && requests[p].revision.key == requests[i].revision.key && CommitsAt(variant, requests, p)
    ensures requests[i].expected == Some(requests[p].revision.id)
  {
    hide Run, Chain, CommitsAt;
    var key := requests[i].revision.key;
    CommitsFormOneChain(variant, requests, key);
    ChainComplete(variant, requests, key);
    var c := Chain(variant, requests, key);
    var a := ChainPosition(variant, requests, i);
    assert a > 0;
    p := c[a - 1];
    assert p in c;
  }

  /** Three requests under one key on the history of r1: two that expect r1 both commit, because r1 is committed again. */
  lemma ReusedIdWinsTwice(variant: Variant)
    ensures var requests := ReusedId();
            && requests[1].expected == requests[3].expected == Some("r1")
            && CommitsAt(variant, requests, 1) && CommitsAt(variant, requests, 3)
  {
    var requests := ReusedId();
    var q0, q1, q2, q3 := requests[0], requests[1], requests[2], requests[3];
    assert requests[..1] == [q0] && requests[..3] == [q0, q1, q2];
    hide Run, After, CurrentRevision, Commits, ReusedId;
    WinsAgain(variant, q0, q1, q2, q3);
  }

  /** Nothing raises, and the expectation is the current head. */
  predicate Builds(q: Request, key: Key) {
    q.revision.key == key && q.receipt.Some? && q.headBuilds
  }

  lemma WinsAgain(variant: Variant, q0: Request, q1: Request, q2: Request, q3: Request)
    requires var key := q0.revision.key; Builds(q0, key) && Builds(q1, key) && Builds(q2, key) && Builds(q3, key)
    requires q0.expected.None? && q1.expected == q3.expected == Some(q0.revision.id)
    requires q2.expected == Some(q1.revision.id) && q2.revision.id == q0.revision.id
    ensures Commits(Run(variant, EMPTY, [q0]), q1) && Commits(Run(variant, EMPTY, [q0, q1, q2]), q3)
  {
    var key := q0.revision.key;
    assert Run(variant, EMPTY, []) == EMPTY;
    hide *;
    RunMore(variant, [], q0);
    RunMore(variant, [q0], q1);
    RunMore(variant, [q0, q1], q2);
    assert [] + [q0] == [q0] && [q0] + [q1] == [q0, q1] && [q0, q1] + [q2] == [q0, q1, q2];
    NoHeadYet(key);
    Moves(variant, EMPTY, q0, key);
    Moves(variant, Run(variant, EMPTY, [q0]), q1, key);
    Moves(variant, Run(variant, EMPTY, [q0, q1]), q2, key);
    Wins(Run(variant, EMPTY, [q0, q1, q2]), q3, key);
  }

  lemma NoHeadYet(key: Key)
    ensures CurrentRevision(EMPTY, key).None?
  {
  }

  lemma Wins(s: State, q: Request, key: Key)
    requires Builds(q, key) && CurrentRevision(s, key) == q.expected
    ensures Commits(s, q)
  {
  }

  lemma Moves(variant: Variant, s: State, q: Request, key: Key)
    requires Builds(q, key) && CurrentRevision(s, key) == q.expected
    ensures Commits(s, q) && CurrentRevision(After(variant, s, q), key) == Some(q.revision.id)
  {
  }

  function ReusedId(): (requests: seq<Request>)
    ensures |requests| == 4
  {
    [Written("r1", None), Written("r2", Some("r1")), Written("r1", Some("r2")), Written("r3", Some("r1"))]
  }

  function Written(id: string, expected: Option<string>): Request {
    Request(Revision(Key("kind", "product", "state"), id, 1, id), expected, Some(Receipt(id, id)), true, 0)
  }

  lemma RunMore(variant: Variant, requests: seq<Request>, q: Request)
    ensures Run(variant, EMPTY, requests + [q]) == After(variant, Run(variant, EMPTY, requests), q)
  {
    assert (requests + [q])[..|requests|] == requests;
  }

  /** The head under a key, field by field: there is one exactly after a commit, and it is that of the last one. */
  lemma HeadExactly(variant: Variant, requests: seq<Request>, key: Key)
    ensures var heads, c := Run(variant, EMPTY, requests).heads, Chain(variant, requests, key);
            && (key in heads <==> c != [])
            && (c != [] ==>
                  var last := requests[c[|c| - 1]];
                  && last.revision.key == key && last.receipt.Some?
                  && heads[key].key == key && heads[key].sequence == last.revision.sequence
                  && heads[key].revision == last.revision.id && heads[key].receipt == last.receipt.value.id
                  && heads[key].updatedAt == last.committedAt)
  {
    CommitsFormOneChain(variant, requests, key);
    ChainComplete(variant, requests, key);
    hide Run, Chain, CommitsAt, Linked;
    var c := Chain(variant, requests, key);
    if c != [] {
      assert c[|c| - 1] in c;
    }
  }

  /** A request commits exactly where it expects the last commit under its key, or none, and its receipt and head can be built. */
  lemma CommitsExactly(variant: Variant, requests: seq<Request>, n: nat)
    requires n < |requests|
    ensures var q := requests[n]; var c := Chain(variant, requests[..n], q.revision.key);
            CommitsAt(variant, requests, n)
            <==> && q.expected == (if c == [] then None else Some(requests[c[|c| - 1]].revision.id))
                 && q.receipt.Some? && q.headBuilds
  {
    HeadExactly(variant, requests[..n], requests[n].revision.key);
    AfterExactly(variant, Run(variant, EMPTY, requests[..n]), requests[n]);
    hide Run, Chain, After;
  }

  // ----- nothing stored is ever lost or changed

  /** A place a load reads, and what may stand there. */
  datatype Slot = RevisionSlot(key: RecordKey) | ReceiptSlot(key: RecordKey)
  datatype Record = RevisionRecord(revision: Revision) | ReceiptRecord(receipt: Receipt)

  /** load_revision or load_receipt. */
  function Load(s: State, slot: Slot): Option<Record> {
    match slot
    case RevisionSlot(k) => if k in s.revisions then Some(RevisionRecord(s.revisions[k])) else None
    case ReceiptSlot(k) => if k in s.receipts then Some(ReceiptRecord(s.receipts[k])) else None
  }

  /** What a request puts into a slot if it writes. */
  function Offers(q: Request, slot: Slot): Option<Record> {
    match slot
    case RevisionSlot(k) => if k == RevisionKey(q) then Some(RevisionRecord(q.revision)) else None
    case ReceiptSlot(k) => if q.receipt.Some? && k == ReceiptKey(q) then Some(ReceiptRecord(q.receipt.value)) else None
  }

  /** The request gets as far as writing its records, whether or not it commits. */
  predicate Writes(variant: Variant, s: State, q: Request) {
    Admits(s, q) && q.receipt.Some? && (variant == HeadFirst ==> q.headBuilds)
  }

  predicate WritesAt(variant: Variant, requests: seq<Request>, i: nat)
    requires i < |requests|
  {
    Writes(variant, Run(variant, EMPTY, requests[..i]), requests[i])
  }

  lemma LoadAfter(variant: Variant, s: State, q: Request, slot: Slot)
    ensures Load(After(variant, s, q), slot)
            == if Writes(variant, s, q) && Offers(q, slot).Some? then Offers(q, slot) else Load(s, slot)
  {
  }

  lemma RunStep(variant: Variant, requests: seq<Request>, i: nat)
    requires i < |requests|
    ensures Run(variant, EMPTY, requests[..i + 1]) == After(variant, Run(variant, EMPTY, requests[..i]), requests[i])
  {
    assert requests[..i + 1] == requests[..i] + [requests[i]];
    RunMore(variant, requests[..i], requests[i]);
  }

  /** What a load returns after the first m requests. */
  function LoadAt(variant: Variant, requests: seq<Request>, m: nat, slot: Slot): Option<Record>
    requires m <= |requests|
  {
    Load(Run(variant, EMPTY, requests[..m]), slot)
  }

  lemma LoadStep(variant: Variant, requests: seq<Request>, i: nat, slot: Slot)
    requires i < |requests|
    ensures LoadAt(variant, requests, i + 1, slot)
            == if WritesAt(variant, requests, i) && Offers(requests[i], slot).Some? then Offers(requests[i], slot)
               else LoadAt(variant, requests, i, slot)
  {
    hide Run, After, Load, Offers, Writes;
    RunStep(variant, requests, i);
    LoadAfter(variant, Run(variant, EMPTY, requests[..i]), requests[i], slot);
  }

  /** Every stored record was put there by a request that writes. */
  lemma {:induction false} StoredFromRequests(variant: Variant, requests: seq<Request>, m: nat, slot: Slot) returns (i: nat)
    requires m <= |requests| && LoadAt(variant, requests, m, slot).Some?
    ensures i < m && WritesAt(variant, requests, i) && Offers(requests[i], slot) == LoadAt(variant, requests, m, slot)
    decreases m
  {
    if m == 0 {
      NothingStored(variant, requests, slot);
    }
    hide LoadAt, WritesAt, Offers;
    i := m - 1;
    LoadStep(variant, requests, i, slot);
    if !(WritesAt(variant, requests, i) && Offers(requests[i], slot).Some?) {
      i := StoredFromRequests(variant, requests, m - 1, slot);
    }
  }

  lemma NothingStored(variant: Variant, requests: seq<Request>, slot: Slot)
    ensures LoadAt(variant, requests, 0, slot).None?
  {
    assert requests[..0] == [];
  }

  /** From the n-th request on, whoever writes to the slot writes this record. */
  ghost predicate OnlyRewritten(variant: Variant, requests: seq<Request>, n: nat, slot: Slot, r: Option<Record>) {
    forall i :: n <= i < |requests| && WritesAt(variant, requests, i) && Offers(requests[i], slot).Some? ==>
      Offers(requests[i], slot) == r
  }

  ghost predicate LoadsForEver(variant: Variant, requests: seq<Request>, n: nat, slot: Slot, r: Option<Record>) {
    forall m :: n <= m <= |requests| ==> LoadAt(variant, requests, m, slot) == r
  }

  lemma {:induction false} KeptUntil(variant: Variant, requests: seq<Request>, n: nat, m: nat, slot: Slot)
    requires n <= m <= |requests|
    requires OnlyRewritten(variant, requests, n, slot, LoadAt(variant, requests, n, slot))
    ensures LoadAt(variant, requests, m, slot) == LoadAt(variant, requests, n, slot)
    decreases m
  {
    hide LoadAt, WritesAt, Offers;
    if n < m {
      KeptUntil(variant, requests, n, m - 1, slot);
      LoadStep(variant, requests, m - 1, slot);
    }
  }

  /** What a load returned once it returns for ever exactly when no later request writes another record under its id. */
  lemma StableExactly(variant: Variant, requests: seq<Request>, n: nat, slot: Slot)
    requires n <= |requests|
    ensures var r := LoadAt(variant, requests, n, slot);
            LoadsForEver(variant, requests, n, slot, r) <==> OnlyRewritten(variant, requests, n, slot, r)
  {
    hide LoadAt, WritesAt, Offers;
    var r := LoadAt(variant, requests, n, slot);
    if OnlyRewritten(variant, requests, n, slot, r) {
      forall m | n <= m <= |requests| ensures LoadAt(variant, requests, m, slot) == r {
        KeptUntil(variant, requests, n, m, slot);
      }
    }
    if LoadsForEver(variant, requests, n, slot, r) {
      forall i | n <= i < |requests| && WritesAt(variant, requests, i) && Offers(requests[i], slot).Some?
        ensures Offers(requests[i], slot) == r
      {
        LoadStep(variant, requests, i, slot);
        assert LoadAt(variant, requests, i + 1, slot) == r;
      }
    }
  }

  /** Among the requests that write, ids determine their material; a refused request may carry anything. */
  ghost predicate IdsDetermine(variant: Variant, requests: seq<Request>) {
    forall i, j, slot ::
      0 <= i < |requests| && 0 <= j < |requests| && WritesAt(variant, requests, i) && WritesAt(variant, requests, j)
      && Offers(requests[i], slot).Some? && Offers(requests[j], slot).Some? ==>
        Offers(requests[i], slot) == Offers(requests[j], slot)
  }

  /** Given ids that determine their material, what a load returned once it returns for ever. */
  lemma LoadsAreStable(variant: Variant, requests: seq<Request>, n: nat, slot: Slot)
    requires n <= |requests| && IdsDetermine(variant, requests) && LoadAt(variant, requests, n, slot).Some?
    ensures LoadsForEver(variant, requests, n, slot, LoadAt(variant, requests, n, slot))
  {
    hide LoadAt, WritesAt, Offers;
    var i := StoredFromRequests(variant, requests, n, slot);
    StableExactly(variant, requests, n, slot);
  }

  /** Every head resolves to a stored revision and receipt of the ids it names; with determining ids, to the committed ones. */
  lemma HeadResolves(variant: Variant, requests: seq<Request>, key: Key)
    requires key in Run(variant, EMPTY, requests).heads
    ensures var s := Run(variant, EMPTY, requests);
            var head := s.heads[key];
            && head.key == key
            && RecordKey(key.product, head.revision) in s.revisions && s.revisions[RecordKey(key.product, head.revision)].id == head.revision
            && RecordKey(key.product, head.receipt) in s.receipts && s.receipts[RecordKey(key.product, head.receipt)].id == head.receipt
            && (IdsDetermine(variant, requests) ==>
                  s.revisions[RecordKey(key.product, head.revision)].key == key
                  && s.revisions[RecordKey(key.product, head.revision)].sequence == head.sequence)
  {
    hide Run, Chain, After, IdsDetermine;
    CommitsFormOneChain(variant, requests, key);
    var c := Chain(variant, requests, key);
    var n := c[|c| - 1];
    ChainComplete(variant, requests, key);
    assert n in c;
    CommitStores(variant, requests, n);
    var q := requests[n];
    StoredId(variant, requests, RevisionSlot(RevisionKey(q)));
    StoredId(variant, requests, ReceiptSlot(ReceiptKey(q)));
    if IdsDetermine(variant, requests) {
      StoredSame(variant, requests, n);
    }
  }

  /** A stored record has the id it is stored under. */
  lemma StoredId(variant: Variant, requests: seq<Request>, slot: Slot)
    ensures match Load(Run(variant, EMPTY, requests), slot)
            case None => true
            case Some(RevisionRecord(r)) => slot.RevisionSlot? && r.id == slot.key.id
            case Some(ReceiptRecord(r)) => slot.ReceiptSlot? && r.id == slot.key.id
  {
    assert requests[..|requests|] == requests;
    hide Run;
    if Load(Run(variant, EMPTY, requests), slot).Some? {
      var i := StoredFromRequests(variant, requests, |requests|, slot);
    }
  }

  /** Under a committed request's id stands its own revision. */
  lemma StoredSame(variant: Variant, requests: seq<Request>, n: nat)
    requires n < |requests| && CommitsAt(variant, requests, n) && IdsDetermine(variant, requests)
    requires RevisionKey(requests[n]) in Run(variant, EMPTY, requests).revisions
    ensures Run(variant, EMPTY, requests).revisions[RevisionKey(requests[n])] == requests[n].revision
  {
    var slot := RevisionSlot(RevisionKey(requests[n]));
    assert requests[..|requests|] == requests;
    assert WritesAt(variant, requests, n) && Offers(requests[n], slot).Some?;
    assert LoadAt(variant, requests, |requests|, slot)
           == Some(RevisionRecord(Run(variant, EMPTY, requests).revisions[RevisionKey(requests[n])]));
    hide Run, WritesAt;
    var i := StoredFromRequests(variant, requests, |requests|, slot);
  }

  /** A committed request's records stay present. */
  lemma {:induction false} CommitStores(variant: Variant, requests: seq<Request>, n: nat)
    requires n < |requests| && CommitsAt(variant, requests, n)
    ensures var s := Run(variant, EMPTY, requests);
            RevisionKey(requests[n]) in s.revisions && ReceiptKey(requests[n]) in s.receipts
    decreases |requests|
  {
    var m := |requests| - 1;
    if n < m {
      var before := requests[..m];
      assert before[..n] == requests[..n] && before[n] == requests[n];
      CommitStores(variant, before, n);
    }
  }

  // ----- failed commits

  /** A conflict or an unbuildable receipt changes nothing in either store; with the head built first, no failure does. */
  lemma FailureChangesNothing(variant: Variant, s: State, q: Request)
    requires !Commits(s, q) && (variant == HeadFirst || !Admits(s, q) || q.receipt.None?)
    ensures After(variant, s, q) == s
  {
  }

  /** Where the writes come first, a failed commit keeps the store exactly unless it leaves records of its own behind; the heads never move. */
  lemma WritesFirstFailure(s: State, q: Request)
    requires !Commits(s, q)
    ensures After(WritesFirst, s, q).heads == s.heads
    ensures After(WritesFirst, s, q) == s <==>
              || !Admits(s, q)
              || q.receipt.None?
              || (&& RevisionKey(q) in s.revisions && s.revisions[RevisionKey(q)] == q.revision
                  && ReceiptKey(q) in s.receipts && s.receipts[ReceiptKey(q)] == q.receipt.value)
  {
    if Admits(s, q) && q.receipt.Some? {
      var t := After(WritesFirst, s, q);
      assert RevisionKey(q) in t.revisions && t.revisions[RevisionKey(q)] == q.revision;
      assert ReceiptKey(q) in t.receipts && t.receipts[ReceiptKey(q)] == q.receipt.value;
    }
  }

  /** A head record that cannot be built leaves an orphan revision in the empty store. */
  lemma OrphanLeftBehind()
    ensures var q := Request(Revision(Key("kind", "product", "state"), "r1", 1, "m"), None, Some(Receipt("c1", "m")), false, 0);
            !Commits(EMPTY, q) && After(WritesFirst, EMPTY, q) != EMPTY && After(HeadFirst, EMPTY, q) == EMPTY
  {
    var q := Request(Revision(Key("kind", "product", "state"), "r1", 1, "m"), None, Some(Receipt("c1", "m")), false, 0);
    assert RecordKey("product", "r1") in After(WritesFirst, EMPTY, q).revisions;
  }

  /** The store itself; its ghost history records every request, and the maps are what that history leads to. */
  class MemoryGovernedStateStore {
    const variant: Variant
    var heads: map<Key, Head>
    var revisions: map<RecordKey, Revision>
    var receipts: map<RecordKey, Receipt>
    ghost var history: seq<Request>

    function Snapshot(): State
      reads this
    {
      State(heads, revisions, receipts)
    }

    ghost predicate Valid()
      reads this
    {
      Snapshot() == Run(variant, EMPTY, history)
    }

    constructor (variant: Variant)
      ensures Valid() && history == [] && this.variant == variant
    {
      this.variant := variant;
      heads, revisions, receipts := map[], map[], map[];
      history := [];
    }

    method Commit(q: Request) returns (receipt: Option<Receipt>)
      requires Valid()
      modifies this
      ensures Valid() && history == old(history) + [q]
      ensures Snapshot() == After(variant, old(Snapshot()), q)
      ensures receipt == if Commits(old(Snapshot()), q) then q.receipt else None
    {
      ghost var before := Snapshot();
      history := history + [q];
      assert history[..|history| - 1] == old(history);
      var key := q.revision.key;
      var current := if key in heads then Some(heads[key].revision) else None;
      if current != q.expected { return None; }
      if q.receipt.None? { return None; }
      if variant == HeadFirst && !q.headBuilds { return None; }
      revisions := revisions[RecordKey(key.product, q.revision.id) := q.revision];
      receipts := receipts[RecordKey(key.product, q.receipt.value.id) := q.receipt.value];
      if !q.headBuilds { return None; }
      heads := heads[key := Head(key, q.revision.sequence, q.revision.id, q.receipt.value.id, q.committedAt)];
      return q.receipt;
    }

    method LoadHead(key: Key) returns (head: Option<Head>)
      requires Valid()
      ensures head == if key in Run(variant, EMPTY, history).heads then Some(Run(variant, EMPTY, history).heads[key]) else None
    {
      head := if key in heads then Some(heads[key]) else None;
    }

    method LoadRevision(id: string, product: string) returns (revision: Option<Revision>)
      requires Valid()
      ensures var s := Run(variant, EMPTY, history);
              revision == if RecordKey(product, id) in s.revisions then Some(s.revisions[RecordKey(product, id)]) else None
    {
      revision := if RecordKey(product, id) in revisions then Some(revisions[RecordKey(product, id)]) else None;
    }

    method LoadReceipt(id: string, product: string) returns (receipt: Option<Receipt>)
      requires Valid()
      ensures var s := Run(variant, EMPTY, history);
              receipt == if RecordKey(product, id) in s.receipts then Some(s.receipts[RecordKey(product, id)]) else None
    {
      receipt := if RecordKey(product, id) in receipts then Some(receipts[RecordKey(product, id)]) else None;
    }
  }
}
