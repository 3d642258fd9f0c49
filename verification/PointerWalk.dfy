/**
  The negative-case engine on mutable objects: a walk moves from parent to child, and
  the last token's slot is assigned in place. It is proved to turn the tree's value
  into what the pure replace gives.
 */
module PointerWalk {
  import opened Options
  import opened Texts
  import opened PointerReplace
  import opened ObjectTrees

  lemma StepMatches(ns: set<Node>, s: Shape, token: Text)
    requires Stands(Snapshot(ns), s)
    ensures s.node in ns && s.node.StepFor(token) == StepOf(Value(s), token)
  {
    hide PyIntText;
    assert s.node in Snapshot(ns).Keys;
    assert Snapshot(ns)[s.node] == Slots(s.node.items, s.node.entries);
  }

  /** What resolving the remaining tokens adds to the path walked so far. */
  ghost function Joined(p: Path, rest: Option<Path>): Option<Path> {
    match rest
    case None => None
    case Some(q) => Some(p + q)
  }

  lemma ResolveCons(v: Tree, tokens: seq<Text>, t: Step)
    requires tokens != [] && StepOf(v, tokens[0]) == Some(t)
    ensures HasStep(v, t)
    ensures Resolve(v, tokens) == Joined([t], Resolve(Child(v, t), tokens[1..]))
  {
    hide PyIntText;
  }

  lemma JoinedTwice(p: Path, t: Step, rest: Option<Path>)
    ensures Joined(p, Joined([t], rest)) == Joined(p + [t], rest)
  {
    if rest.Some? {
      assert p + ([t] + rest.value) == (p + [t]) + rest.value;
    }
  }

  lemma ResolveStep(s: Shape, p: Path, tokens: seq<Text>, t: Step)
    requires HasShapePath(s, p) && tokens != [] && StepOf(Value(ShapeAt(s, p)), tokens[0]) == Some(t)
    ensures HasChild(ShapeAt(s, p), t) && HasShapePath(s, p + [t])
    ensures Joined(p, Resolve(Value(ShapeAt(s, p)), tokens))
            == Joined(p + [t], Resolve(Value(ShapeAt(s, p + [t])), tokens[1..]))
  {
    hide *;
    var c := ShapeAt(s, p);
    ResolveCons(Value(c), tokens, t);
    ChildValue(c, t);
    PathStep(s, p, t);
    JoinedTwice(p, t, Resolve(Child(Value(c), t), tokens[1..]));
  }

  /** Assigning through one step in place, as parent[int(key)] = value or parent[key] = value. */
  method AssignSlot(parent: Node, t: Step, value: Node, ghost ns: set<Node>)
    requires parent in ns && HasSlot(parent.kind, Snapshot(ns)[parent], t)
    modifies parent
    ensures HasSlot(parent.kind, old(Snapshot(ns))[parent], t)
    ensures Snapshot(ns) == old(Snapshot(ns))[parent := Assigned(parent.kind, old(Snapshot(ns))[parent], t, value)]
  {
    match t {
      case Index(i) => parent.items := parent.items[i := value];
      case Key(k) => parent.entries := parent.entries[k := value];
    }
  }

  /** Facts about the assignment at the end of the walk, for a fixed heap. */
  lemma AssignedTree(h: Heap, s: Shape, w: Shape, p: Path, t: Step, tokens: seq<Text>)
    requires Stands(h, s) && Stands(h, w) && Separate(s) && Separate(w) && Nodes(s) !! Nodes(w)
    requires tokens != [] && HasShapePath(s, p) && HasChild(ShapeAt(s, p), t)
    requires Resolve(Value(s), tokens) == Some(p + [t])
    ensures HasShapePath(s, p + [t])
    ensures var n := ShapeAt(s, p).node; var s' := Graft(s, p + [t], w);
            && n in h && n in Nodes(s) && HasSlot(n.kind, h[n], t)
            && Stands(h[n := Assigned(n.kind, h[n], t, w.node)], s')
            && s'.node == s.node && Separate(s') && Nodes(s') <= Nodes(s) + Nodes(w)
            && Apply(Value(s), Operation(tokens, Value(w))) == Some(Value(s'))
  {
    hide *;
    AssignGrafts(h, s, p, t, w);
    GraftSeparate(s, p + [t], w);
    GraftNodes(s, p + [t], w);
    GraftValue(s, p + [t], w);
    NodesAt(s, p);
    ApplyResolved(Value(s), tokens, p + [t], Value(w));
  }

  lemma ApplyResolved(v: Tree, tokens: seq<Text>, p: Path, w: Tree)
    requires tokens != [] && Resolve(v, tokens) == Some(p) && HasPath(v, p)
    ensures Apply(v, Operation(tokens, w)) == Some(Update(v, p, w))
  {
  }

  /** The tree below root after a call, standing again and made of the objects it and the value had. */
  ghost predicate Holds(ns: set<Node>, s: Shape)
    reads ns
  {
    Nodes(s) <= ns && Separate(s) && Stands(Snapshot(ns), s)
  }

  /** parent after the loop over tokens[:-1], or nothing where it raises. */
  method WalkToParent(root: Node, tokens: seq<Text>, ghost s: Shape, ghost ns: set<Node>)
    returns (found: Option<Node>, ghost p: Path)
    requires s.node == root && Stands(Snapshot(ns), s) && tokens != []
    modifies {}
    ensures found.None? ==> Resolve(Value(s), tokens).None?
    ensures found.Some? ==>
              && HasShapePath(s, p) && ShapeAt(s, p).node == found.value
              && Resolve(Value(s), tokens) == Joined(p, Resolve(Value(ShapeAt(s, p)), tokens[|tokens| - 1..]))
  {
    hide *;
    WalkStarts(s, tokens);
    var parent, i := root, 0;
    p := [];
    while i < |tokens| - 1
      invariant 0 <= i < |tokens|
      invariant HasShapePath(s, p) && ShapeAt(s, p).node == parent
      invariant Resolve(Value(s), tokens) == Joined(p, Resolve(Value(ShapeAt(s, p)), tokens[i..]))
    {
      ghost var c := ShapeAt(s, p);
      StandsAt(Snapshot(ns), s, p);
      StepMatches(ns, c, tokens[i]);
      var step := parent.StepFor(tokens[i]);
      if step.None? {
        ResolveStops(Value(c), tokens[i..], p);
        return None, p;
      }
      ResolveStep(s, p, tokens[i..], step.value);
      StepSlot(ns, c, step.value);
      parent := match step.value case Index(n) => parent.items[n] case Key(k) => parent.entries[k];
      PathStep(s, p, step.value);
      assert tokens[i..][1..] == tokens[i + 1..];
      p, i := p + [step.value], i + 1;
    }
    found := Some(parent);
  }

  /**
    One operation: walk to the parent of the addressed slot and assign it. Where the
    code raises, nothing has been assigned and the pure replace gives nothing.
   */
  method Replace(root: Node, tokens: seq<Text>, value: Node, ghost s: Shape, ghost w: Shape, ghost ns: set<Node>)
    returns (ok: bool, ghost s': Shape)
    requires s.node == root && w.node == value && Holds(ns, s) && Holds(ns, w) && Nodes(s) !! Nodes(w)
    modifies Nodes(s)
    ensures s'.node == root && Holds(ns, s')
    ensures ok <==> Apply(Value(s), Operation(tokens, Value(w))).Some?
    ensures ok ==> Apply(Value(s), Operation(tokens, Value(w))) == Some(Value(s'))
    ensures ok ==> Nodes(s') <= Nodes(s) + Nodes(w)
    ensures !ok ==> s' == s && Snapshot(ns) == old(Snapshot(ns))
  {
    hide *;
    s' := s;
    ok := false;
    HoldsView(ns, s);
    HoldsView(ns, w);
    ApplyNeeds(Value(s), tokens, Value(w));
    if tokens != [] {
      ghost var h := Snapshot(ns);
      ghost var p: Path;
      var found: Option<Node>;
      found, p := WalkToParent(root, tokens, s, ns);
      if found.Some? {
        ghost var c := ShapeAt(s, p);
        StandsAt(h, s, p);
        StepMatches(ns, c, tokens[|tokens| - 1]);
        var step := found.value.StepFor(tokens[|tokens| - 1]);
        if step.None? {
          ResolveStops(Value(c), tokens[|tokens| - 1..], p);
        } else {
          ResolveLast(s, p, tokens[|tokens| - 1..], step.value);
          AssignedTree(h, s, w, p, step.value, tokens);
          AssignSlot(found.value, step.value, value, ns);
          s' := Graft(s, p + [step.value], w);
          HoldsNow(ns, s');
          ok := true;
        }
      }
    }
  }

  lemma ApplyNeeds(v: Tree, tokens: seq<Text>, w: Tree)
    ensures Apply(v, Operation(tokens, w)).Some? <==> tokens != [] && Resolve(v, tokens).Some?
  {
  }

  lemma HoldsView(ns: set<Node>, s: Shape)
    requires Holds(ns, s)
    ensures Nodes(s) <= ns && Separate(s) && Stands(Snapshot(ns), s)
  {
  }

  lemma HoldsNow(ns: set<Node>, s: Shape)
    requires Nodes(s) <= ns && Separate(s) && Stands(Snapshot(ns), s)
    ensures Holds(ns, s)
  {
  }

  lemma WalkStarts(s: Shape, tokens: seq<Text>)
    ensures HasShapePath(s, []) && ShapeAt(s, []) == s
    ensures Resolve(Value(s), tokens) == Joined([], Resolve(Value(s), tokens[0..]))
  {
    hide Resolve, Value;
    assert tokens[0..] == tokens;
    var r := Resolve(Value(s), tokens);
    if r.Some? {
      assert [] + r.value == r.value;
    }
  }

  /** Where the walk finds no step, the tokens as a whole resolve nowhere. */
  lemma ResolveStops(c: Tree, tokens: seq<Text>, p: Path)
    requires tokens != [] && StepOf(c, tokens[0]).None?
    ensures Joined(p, Resolve(c, tokens)).None?
  {
    hide StepOf;
  }

  lemma ResolveLast(s: Shape, p: Path, tokens: seq<Text>, t: Step)
    requires HasShapePath(s, p) && |tokens| == 1 && StepOf(Value(ShapeAt(s, p)), tokens[0]) == Some(t)
    ensures HasChild(ShapeAt(s, p), t) && Joined(p, Resolve(Value(ShapeAt(s, p)), tokens)) == Some(p + [t])
  {
    ResolveStep(s, p, tokens, t);
    hide Value, StepOf, HasChild, ChildOf, HasShapePath, ShapeAt;
    assert tokens[1..] == [];
    assert (p + [t]) + [] == p + [t];
  }

  lemma StepSlot(ns: set<Node>, s: Shape, t: Step)
    requires Stands(Snapshot(ns), s) && HasChild(s, t)
    ensures match t
            case Index(i) => i < |s.node.items| && s.node.items[i] == ChildOf(s, t).node
            case Key(k) => k in s.node.entries && s.node.entries[k] == ChildOf(s, t).node
  {
    var h := Snapshot(ns);
    assert ChildStands(h, s, t);
    assert h[s.node] == Slots(s.node.items, s.node.entries);
    hide Stands, Value, Nodes;
  }
}
