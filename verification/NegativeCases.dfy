/** Applying a negative case to a copy of the fixture: every operation in order, on one mutable tree. */
module NegativeCases {
  import opened Options
  import opened Texts
  import opened JsonPointer
  import opened PointerReplace
  import opened ObjectTrees
  import opened PointerWalk
  import opened DeepCopies

  const REPLACE: Text := Ascii("replace")

  datatype CaseOperation = CaseOperation(op: Text, path: Text, value: Node)

  /** The operations as the pure replace sees them, ws being the trees of their values. */
  ghost function Meant(ops: seq<CaseOperation>, ws: seq<Shape>): (r: seq<Operation>)
    requires |ws| == |ops|
  {
    if ops == [] then []
    else [Operation(Tokens(ops[0].path), Value(ws[0]))] + Meant(ops[1..], ws[1..])
  }

  /** One replace for each operation, of the place its path names by the value its tree denotes. */
  lemma {:induction false} MeantIs(ops: seq<CaseOperation>, ws: seq<Shape>)
    requires |ws| == |ops|
    ensures |Meant(ops, ws)| == |ops|
    ensures forall i :: 0 <= i < |ops| ==> Meant(ops, ws)[i] == Operation(Tokens(ops[i].path), Value(ws[i]))
  {
    hide Tokens, Value;
    if ops != [] {
      MeantIs(ops[1..], ws[1..]);
    }
  }

  ghost function AllNodes(ws: seq<Shape>): set<Node> {
    if ws == [] then {} else Nodes(ws[0]) + AllNodes(ws[1..])
  }

  /** Trees of separate objects. */
  ghost predicate AllHold(ns: set<Node>, ws: seq<Shape>)
    reads ns
  {
    ws == [] || (Holds(ns, ws[0]) && Nodes(ws[0]) !! AllNodes(ws[1..]) && AllHold(ns, ws[1..]))
  }

  predicate AllReplace(ops: seq<CaseOperation>) {
    forall i :: 0 <= i < |ops| ==> ops[i].op == REPLACE
  }

  ghost predicate Values(ops: seq<CaseOperation>, ws: seq<Shape>) {
    |ws| == |ops| && forall i :: 0 <= i < |ops| ==> ws[i].node == ops[i].value
  }

  lemma {:induction false} AllHoldStill(ns: set<Node>, h: Heap, ws: seq<Shape>)
    requires AllStand(ns, h, ws)
    requires forall n :: n in AllNodes(ws) && n in ns ==> n in h && Snapshot(ns)[n] == h[n]
    ensures AllHold(ns, ws)
  {
    hide Nodes, Stands, Separate;
    if ws != [] {
      StandsStill(h, Snapshot(ns), ws[0]);
      AllHoldStill(ns, h, ws[1..]);
    }
  }

  /** AllHold at an earlier moment. */
  ghost predicate AllStand(ns: set<Node>, h: Heap, ws: seq<Shape>) {
    ws == [] || (Nodes(ws[0]) <= ns && Separate(ws[0]) && Stands(h, ws[0]) &&
                 Nodes(ws[0]) !! AllNodes(ws[1..]) && AllStand(ns, h, ws[1..]))
  }

  lemma {:induction false} AllHoldStands(ns: set<Node>, ws: seq<Shape>)
    requires AllHold(ns, ws)
    ensures AllStand(ns, Snapshot(ns), ws)
  {
    hide Nodes, Stands, Separate;
    if ws != [] {
      AllHoldStands(ns, ws[1..]);
    }
  }

  lemma NextOperation(v: Tree, ops: seq<CaseOperation>, ws: seq<Shape>)
    requires |ws| == |ops| && ops != []
    ensures ApplyAll(v, Meant(ops, ws)) ==
            match Apply(v, Operation(Tokens(ops[0].path), Value(ws[0])))
            case None => None
            case Some(u) => ApplyAll(u, Meant(ops[1..], ws[1..]))
  {
    hide Apply, Tokens, Value;
    var m := Meant(ops, ws);
    assert m[1..] == Meant(ops[1..], ws[1..]);
  }

  /** The copy and the values still to come stand apart, within the objects the run may change. */
  ghost predicate Ready(ns: set<Node>, all: set<Node>, s: Shape, ws: seq<Shape>)
    reads ns
  {
    Holds(ns, s) && AllHold(ns, ws) && Nodes(s) !! AllNodes(ws) && Nodes(s) + AllNodes(ws) <= all
  }

  lemma ReadyView(ns: set<Node>, all: set<Node>, s: Shape, ws: seq<Shape>)
    requires Ready(ns, all, s, ws) && ws != []
    ensures Holds(ns, s) && Holds(ns, ws[0]) && AllHold(ns, ws[1..])
    ensures Nodes(s) <= all && Nodes(ws[0]) <= all && AllNodes(ws[1..]) <= all
    ensures Nodes(s) !! Nodes(ws[0]) && Nodes(s) !! AllNodes(ws[1..]) && Nodes(ws[0]) !! AllNodes(ws[1..])
  {
    hide Nodes, Holds;
  }

  lemma ReadyNow(ns: set<Node>, all: set<Node>, s: Shape, ws: seq<Shape>)
    requires Holds(ns, s) && AllHold(ns, ws) && Nodes(s) !! AllNodes(ws) && Nodes(s) <= all && AllNodes(ws) <= all
    ensures Ready(ns, all, s, ws)
  {
  }

  /** The body of the loop: the op is checked, then the slot is replaced. */
  method ApplyOperation(mutated: Node, op: CaseOperation, ghost s: Shape, ghost ws: seq<Shape>,
                        ghost all: set<Node>, ghost ns: set<Node>)
    returns (ok: bool, ghost s': Shape)
    requires s.node == mutated && Ready(ns, all, s, ws) && ws != [] && ws[0].node == op.value
    modifies Nodes(s)
    ensures ok <==> op.op == REPLACE && Apply(Value(s), Operation(Tokens(op.path), Value(ws[0]))).Some?
    ensures ok ==> Apply(Value(s), Operation(Tokens(op.path), Value(ws[0]))) == Some(Value(s'))
    ensures ok ==> s'.node == mutated && Ready(ns, all, s', ws[1..])
  {
    hide Nodes, AllNodes, Holds, AllHold, AllStand, Ready, Value, Apply, Tokens, REPLACE;
    s' := s;
    if op.op != REPLACE {
      return false, s;
    }
    ReadyView(ns, all, s, ws);
    AllHoldStands(ns, ws[1..]);
    ghost var h := Snapshot(ns);
    ok, s' := Replace(mutated, Tokens(op.path), op.value, s, ws[0], ns);
    if ok {
      AllHoldStill(ns, h, ws[1..]);
      ReadyNow(ns, all, s', ws[1..]);
    }
  }

  /** All operations, in order, on one tree: the run goes through exactly when each is a replace and all resolve. */
  method ApplyOperations(mutated: Node, ops: seq<CaseOperation>, ghost s: Shape, ghost ws: seq<Shape>, ghost ns: set<Node>)
    returns (ok: bool, ghost s': Shape)
    requires s.node == mutated && Holds(ns, s) && AllHold(ns, ws) && Values(ops, ws) && Nodes(s) !! AllNodes(ws)
    modifies Nodes(s) + AllNodes(ws)
    ensures ok <==> AllReplace(ops) && ApplyAll(Value(s), Meant(ops, ws)).Some?
    ensures ok ==> ApplyAll(Value(s), Meant(ops, ws)) == Some(Value(s'))
    ensures ok ==> s'.node == mutated && Holds(ns, s')
  {
    hide *;
    s' := s;
    ghost var all := Nodes(s) + AllNodes(ws);
    ReadyNow(ns, all, s, ws);
    Begins(ops, ws);
    var k := 0;
    while k < |ops|
      invariant 0 <= k <= |ops| == |ws|
      invariant s'.node == mutated && Ready(ns, all, s', ws[k..])
      invariant AllReplace(ops[..k])
      invariant ApplyAll(Value(s), Meant(ops, ws)) == ApplyAll(Value(s'), Meant(ops[k..], ws[k..]))
    {
      ReadyNodes(ns, all, s', ws[k..]);
      NextTail(Value(s'), ops, ws, k);
      var next: bool;
      next, s' := ApplyOperation(mutated, ops[k], s', ws[k..], all, ns);
      if !next {
        NotAllReplace(ops, k);
        return false, s';
      }
      OneMoreReplace(ops, k);
      k := k + 1;
    }
    AllDone(ns, all, s', ops, ws);
    ok := true;
  }

  lemma AllReplaceIs(ops: seq<CaseOperation>)
    ensures AllReplace(ops) <==> forall i :: 0 <= i < |ops| ==> ops[i].op == Ascii("replace")
  {
    hide Ascii;
  }

  /**
    The operations on a deep copy of the fixture. The result is a new object that denotes
    what the pure replaces give; whatever happens, no object of the fixture changes.
   */
  method ApplyNegativeCase(fixture: Node, ops: seq<CaseOperation>, ghost base: Shape, ghost ws: seq<Shape>,
                           ghost ns: set<Node>)
    returns (mutated: Option<Node>, ghost t: Shape)
    requires base.node == fixture && Nodes(base) <= ns && Stands(Snapshot(ns), base)
    requires AllHold(ns, ws) && AllNodes(ws) <= ns && Values(ops, ws) && Nodes(base) !! AllNodes(ws)
    modifies AllNodes(ws)
    ensures mutated.Some? <==>
              (forall i :: 0 <= i < |ops| ==> ops[i].op == Ascii("replace")) && ApplyAll(Value(base), Meant(ops, ws)).Some?
    ensures mutated.Some? ==>
              && fresh(mutated.value) && t.node == mutated.value && Whole(t)
              && ApplyAll(Value(base), Meant(ops, ws)) == Some(Value(t))
    ensures Snapshot(Nodes(base)) == old(Snapshot(Nodes(base)))
  {
    hide *;
    AllReplaceIs(ops);
    var copy: Node;
    copy, t := DeepCopy(fixture, base, ns);
    assert ns !! Nodes(t);
    ghost var wide := Nodes(t) + ns;
    CopyHolds(t, copy, Value(base), wide);
    AllHoldWider(ns, wide, ws);
    RootIn(t);
    var ok: bool;
    ok, t := ApplyOperations(copy, ops, t, ws, wide);
    assert Snapshot(Nodes(base)) == old(Snapshot(Nodes(base)));
    if ok {
      HoldsWhole(wide, t);
    }
    mutated := if ok then Some(copy) else None;
  }

  /** The objects of a tree, and no others, hold it. */
  ghost predicate Whole(t: Shape)
    reads Nodes(t)
  {
    Holds(Nodes(t), t)
  }

  lemma HoldsWhole(ns: set<Node>, t: Shape)
    requires Holds(ns, t)
    ensures Whole(t)
  {
    hide Nodes, Stands, Separate;
    StandsStill(Snapshot(ns), Snapshot(Nodes(t)), t);
  }

  lemma RootIn(t: Shape)
    ensures t.node in Nodes(t)
  {
  }

  lemma CopyHolds(t: Shape, c: Node, v: Tree, ns: set<Node>)
    requires Stood(t, c, v) && Nodes(t) <= ns
    ensures t.node == c && Holds(ns, t) && Value(t) == v
  {
    hide Nodes, Stands, Separate, Value;
    StandsStill(Snapshot(Nodes(t)), Snapshot(ns), t);
  }

  lemma {:induction false} AllHoldWider(ns: set<Node>, wide: set<Node>, ws: seq<Shape>)
    requires AllHold(ns, ws) && ns <= wide
    ensures AllHold(wide, ws)
  {
    hide Nodes, Stands, Separate;
    if ws != [] {
      StandsStill(Snapshot(ns), Snapshot(wide), ws[0]);
      AllHoldWider(ns, wide, ws[1..]);
    }
  }

  lemma ReadyNodes(ns: set<Node>, all: set<Node>, s: Shape, ws: seq<Shape>)
    requires Ready(ns, all, s, ws)
    ensures Nodes(s) <= all
  {
  }

  lemma Begins(ops: seq<CaseOperation>, ws: seq<Shape>)
    requires Values(ops, ws)
    ensures |ws| == |ops| && ops[0..] == ops && ws[0..] == ws && AllReplace(ops[..0])
    ensures forall k :: 0 <= k < |ops| ==> ws[k].node == ops[k].value
  {
  }

  lemma NotAllReplace(ops: seq<CaseOperation>, k: nat)
    requires k < |ops|
    ensures ops[k].op != REPLACE ==> !AllReplace(ops)
  {
  }

  lemma OneMoreReplace(ops: seq<CaseOperation>, k: nat)
    requires k < |ops| && ops[k].op == REPLACE && AllReplace(ops[..k])
    ensures AllReplace(ops[..k + 1])
  {
    assert forall i :: 0 <= i < k ==> ops[..k + 1][i] == ops[..k][i];
  }

  lemma NextTail(v: Tree, ops: seq<CaseOperation>, ws: seq<Shape>, k: nat)
    requires |ws| == |ops| && k < |ops|
    ensures ws[k..] != [] && ws[k..][0] == ws[k] && ws[k..][1..] == ws[k + 1..]
    ensures ApplyAll(v, Meant(ops[k..], ws[k..])) ==
            match Apply(v, Operation(Tokens(ops[k].path), Value(ws[k])))
            case None => None
            case Some(u) => ApplyAll(u, Meant(ops[k + 1..], ws[k + 1..]))
  {
    hide *;
    NextOperation(v, ops[k..], ws[k..]);
    assert ops[k..][1..] == ops[k + 1..] && ws[k..][1..] == ws[k + 1..];
  }

  lemma AllDone(ns: set<Node>, all: set<Node>, s: Shape, ops: seq<CaseOperation>, ws: seq<Shape>)
    requires |ws| == |ops| && AllReplace(ops[..|ops|]) && Ready(ns, all, s, ws[|ops|..])
    ensures ApplyAll(Value(s), Meant(ops[|ops|..], ws[|ops|..])) == Some(Value(s))
    ensures AllReplace(ops) && Holds(ns, s)
  {
    hide Nodes, Holds, Value;
    assert ops[..|ops|] == ops;
  }
}
