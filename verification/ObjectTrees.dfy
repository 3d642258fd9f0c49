/**
  Fixtures as mutable objects: lists and dicts hold references to further objects. A
  shape names the objects of a tree and where they stand; assigning one slot in place
  grafts the shape, and grafting a shape is the pure replacement of its value.
 */
module ObjectTrees {
  import opened Options
  import opened Texts
  import opened PointerReplace

  datatype Kind = ScalarKind(text: Text) | ListKind | DictKind

  /** A Python object of the fixture: its kind never changes, the slots of a list or dict do. */
  class Node {
    const kind: Kind
    var items: seq<Node>
    var entries: map<Text, Node>

    constructor (kind: Kind, items: seq<Node>, entries: map<Text, Node>)
      ensures this.kind == kind && this.items == items && this.entries == entries
    {
      this.kind := kind;
      this.items := items;
      this.entries := entries;
    }

    /** Where the walk goes from here, or nothing where Python raises. */
    function StepFor(token: Text): Option<Step>
      reads this
    {
      match kind
      case ScalarKind(_) => None
      case ListKind =>
        var n :- PyIntText(token);
        if 0 <= n < |items| then Some(Index(n))
        else if -|items| <= n < 0 then Some(Index(n + |items|))
        else None
      case DictKind => if token in entries then Some(Key(token)) else None
    }
  }

  /** The slots of an object at one moment, and of a set of objects. */
  datatype Slots = Slots(items: seq<Node>, entries: map<Text, Node>)
  type Heap = map<Node, Slots>

  ghost function Snapshot(ns: set<Node>): Heap
    reads ns
  {
    map n | n in ns :: Slots(n.items, n.entries)
  }

  ghost predicate HasSlot(kind: Kind, slots: Slots, t: Step) {
    match t
    case Index(i) => kind.ListKind? && i < |slots.items|
    case Key(k) => kind.DictKind? && k in slots.entries
  }

  ghost function SlotOf(kind: Kind, slots: Slots, t: Step): Node
    requires HasSlot(kind, slots, t)
  {
    match t
    case Index(i) => slots.items[i]
    case Key(k) => slots.entries[k]
  }

  ghost function Assigned(kind: Kind, slots: Slots, t: Step, w: Node): Slots
    requires HasSlot(kind, slots, t)
  {
    match t
    case Index(i) => slots.(items := slots.items[i := w])
    case Key(k) => slots.(entries := slots.entries[k := w])
  }

  lemma SlotAssigned(kind: Kind, slots: Slots, t: Step, w: Node, u: Step)
    requires HasSlot(kind, slots, t)
    ensures HasSlot(kind, Assigned(kind, slots, t, w), u) <==> HasSlot(kind, slots, u)
    ensures HasSlot(kind, slots, u) ==>
              SlotOf(kind, Assigned(kind, slots, t, w), u) == if u == t then w else SlotOf(kind, slots, u)
  {
  }

  // ----- shapes

  /** A tree of objects. */
  datatype Shape = Shape(node: Node, items: seq<Shape>, entries: map<Text, Shape>)

  ghost predicate HasChild(s: Shape, t: Step) {
    match t
    case Index(i) => s.node.kind.ListKind? && i < |s.items|
    case Key(k) => s.node.kind.DictKind? && k in s.entries
  }

  ghost function ChildOf(s: Shape, t: Step): (c: Shape)
    requires HasChild(s, t)
    ensures c < s
  {
    match t
    case Index(i) => s.items[i]
    case Key(k) => s.entries[k]
  }

  ghost function SetShape(s: Shape, t: Step, c: Shape): (r: Shape)
    requires HasChild(s, t)
    ensures r.node == s.node
  {
    match t
    case Index(i) => s.(items := s.items[i := c])
    case Key(k) => s.(entries := s.entries[k := c])
  }

  lemma SetShapeChild(s: Shape, t: Step, c: Shape, u: Step)
    requires HasChild(s, t)
    ensures HasChild(SetShape(s, t, c), u) <==> HasChild(s, u)
    ensures HasChild(s, u) ==> ChildOf(SetShape(s, t, c), u) == if u == t then c else ChildOf(s, u)
  {
  }

  ghost function Nodes(s: Shape): set<Node> {
    {s.node} +
    match s.node.kind
    case ScalarKind(_) => {}
    case ListKind => set i, n | 0 <= i < |s.items| && n in Nodes(s.items[i]) :: n
    case DictKind => set k, n | k in s.entries && n in Nodes(s.entries[k]) :: n
  }

  lemma NodesBelow(s: Shape, t: Step)
    requires HasChild(s, t)
    ensures Nodes(ChildOf(s, t)) <= Nodes(s)
  {
  }

  lemma NodesView(s: Shape, n: Node)
    requires n in Nodes(s) && n != s.node
    ensures exists t :: HasChild(s, t) && n in Nodes(ChildOf(s, t))
  {
    match s.node.kind
    case ListKind =>
      var i :| 0 <= i < |s.items| && n in Nodes(s.items[i]);
      assert HasChild(s, Index(i)) && n in Nodes(ChildOf(s, Index(i)));
    case DictKind =>
      var k :| k in s.entries && n in Nodes(s.entries[k]);
      assert HasChild(s, Key(k)) && n in Nodes(ChildOf(s, Key(k)));
  }

  /** The heap holds exactly this tree. */
  ghost predicate Stands(h: Heap, s: Shape)
    decreases s
  {
    && s.node in h
    && |h[s.node].items| == |s.items| && h[s.node].entries.Keys == s.entries.Keys
    && forall t :: HasChild(s, t) ==> ChildStands(h, s, t)
  }

  ghost predicate ChildStands(h: Heap, s: Shape, t: Step)
    requires s.node in h && HasChild(s, t)
    decreases s, 0
  {
    && HasSlot(s.node.kind, h[s.node], t)
    && SlotOf(s.node.kind, h[s.node], t) == ChildOf(s, t).node
    && Stands(h, ChildOf(s, t))
  }

  /** No object occurs twice in the tree. */
  ghost predicate Separate(s: Shape) {
    && (forall t :: HasChild(s, t) ==> s.node !in Nodes(ChildOf(s, t)) && Separate(ChildOf(s, t)))
    && (forall t, u :: HasChild(s, t) && HasChild(s, u) && t != u ==> Nodes(ChildOf(s, t)) !! Nodes(ChildOf(s, u)))
  }

  /** The value the tree denotes. */
  ghost function Value(s: Shape): Tree {
    match s.node.kind
    case ScalarKind(text) => Scalar(text)
    case ListKind => List(seq(|s.items|, i requires 0 <= i < |s.items| => Value(s.items[i])))
    case DictKind => Dict(map k | k in s.entries :: Value(s.entries[k]))
  }

  /** A tree that stands denotes its objects' slots, item by item and key by key. */
  lemma DenotesSlots(ns: set<Node>, s: Shape)
    requires Stands(Snapshot(ns), s)
    ensures match s.node.kind
            case ScalarKind(text) => Value(s) == Scalar(text)
            case ListKind =>
              && Value(s).List? && |Value(s).items| == |s.node.items| == |s.items|
              && forall i :: 0 <= i < |s.items| ==>
                   && s.items[i].node == s.node.items[i] && Stands(Snapshot(ns), s.items[i])
                   && Value(s).items[i] == Value(s.items[i])
            case DictKind =>
              && Value(s).Dict? && Value(s).entries.Keys == s.node.entries.Keys == s.entries.Keys
              && forall k :: k in s.entries ==>
                   && s.entries[k].node == s.node.entries[k] && Stands(Snapshot(ns), s.entries[k])
                   && Value(s).entries[k] == Value(s.entries[k])
  {
    var h := Snapshot(ns);
    assert h[s.node] == Slots(s.node.items, s.node.entries);
    match s.node.kind
    case ScalarKind(_) =>
    case ListKind =>
      forall i | 0 <= i < |s.items| ensures s.items[i].node == s.node.items[i] && Stands(h, s.items[i]) {
        assert ChildStands(h, s, Index(i));
      }
    case DictKind =>
      forall k | k in s.entries ensures s.entries[k].node == s.node.entries[k] && Stands(h, s.entries[k]) {
        assert ChildStands(h, s, Key(k));
      }
  }

  lemma ChildValue(s: Shape, t: Step)
    ensures HasChild(s, t) <==> HasStep(Value(s), t)
    ensures HasChild(s, t) ==> Value(ChildOf(s, t)) == Child(Value(s), t)
  {
  }

  lemma SetShapeValue(s: Shape, t: Step, c: Shape)
    requires HasChild(s, t)
    ensures HasStep(Value(s), t) && Value(SetShape(s, t, c)) == SetChild(Value(s), t, Value(c))
  {
    var r := SetShape(s, t, c);
    match t
    case Index(i) => assert Value(r).items == Value(s).items[i := Value(c)];
    case Key(k) => assert Value(r).entries == Value(s).entries[k := Value(c)];
  }

  // ----- paths

  ghost predicate HasShapePath(s: Shape, p: Path)
    decreases |p|
  {
    p == [] || (HasChild(s, p[0]) && HasShapePath(ChildOf(s, p[0]), p[1..]))
  }

  ghost function ShapeAt(s: Shape, p: Path): (c: Shape)
    requires HasShapePath(s, p)
    decreases |p|
  {
    if p == [] then s else ShapeAt(ChildOf(s, p[0]), p[1..])
  }

  ghost function Graft(s: Shape, p: Path, w: Shape): (r: Shape)
    requires HasShapePath(s, p)
    ensures p != [] ==> r.node == s.node
    decreases |p|
  {
    if p == [] then w else SetShape(s, p[0], Graft(ChildOf(s, p[0]), p[1..], w))
  }

  lemma {:induction false} GraftValue(s: Shape, p: Path, w: Shape)
    requires HasShapePath(s, p)
    ensures HasPath(Value(s), p) && Value(Graft(s, p, w)) == Update(Value(s), p, Value(w))
    decreases |p|
  {
    hide Value, Stands, Nodes, Separate;
    if p != [] {
      ChildValue(s, p[0]);
      GraftValue(ChildOf(s, p[0]), p[1..], w);
      SetShapeValue(s, p[0], Graft(ChildOf(s, p[0]), p[1..], w));
    }
  }

  lemma {:induction false} PathStep(s: Shape, p: Path, t: Step)
    requires HasShapePath(s, p) && HasChild(ShapeAt(s, p), t)
    ensures HasShapePath(s, p + [t]) && ShapeAt(s, p + [t]) == ChildOf(ShapeAt(s, p), t)
    decreases |p|
  {
    if p == [] {
      assert p + [t] == [t] && [t][1..] == [];
    } else {
      assert (p + [t])[1..] == p[1..] + [t];
      PathStep(ChildOf(s, p[0]), p[1..], t);
    }
  }

  lemma {:induction false} NodesAt(s: Shape, p: Path)
    requires HasShapePath(s, p)
    ensures Nodes(ShapeAt(s, p)) <= Nodes(s) && ShapeAt(s, p).node in Nodes(ShapeAt(s, p))
    decreases |p|
  {
    assert ShapeAt(s, p).node in Nodes(ShapeAt(s, p));
    hide Nodes;
    if p != [] {
      NodesBelow(s, p[0]);
      NodesAt(ChildOf(s, p[0]), p[1..]);
    }
  }

  lemma {:induction false} StandsAt(h: Heap, s: Shape, p: Path)
    requires HasShapePath(s, p) && Stands(h, s)
    ensures Stands(h, ShapeAt(s, p))
    decreases |p|
  {
    if p != [] {
      assert ChildStands(h, s, p[0]);
      StandsAt(h, ChildOf(s, p[0]), p[1..]);
    }
  }

  // ----- grafting keeps objects apart

  lemma {:induction false} GraftNodes(s: Shape, p: Path, w: Shape)
    requires HasShapePath(s, p)
    ensures Nodes(Graft(s, p, w)) <= Nodes(s) + Nodes(w)
    decreases |p|
  {
    hide Nodes;
    if p != [] {
      var c := Graft(ChildOf(s, p[0]), p[1..], w);
      GraftNodes(ChildOf(s, p[0]), p[1..], w);
      NodesBelow(s, p[0]);
      SetShapeNodes(s, p[0], c);
    }
  }

  lemma SetShapeNodes(s: Shape, t: Step, c: Shape)
    requires HasChild(s, t)
    ensures Nodes(SetShape(s, t, c)) <= Nodes(s) + Nodes(c)
  {
    var r := SetShape(s, t, c);
    assert s.node in Nodes(s);
    hide Nodes, ChildOf, HasChild, SetShape;
    forall n | n in Nodes(r) && n != r.node ensures n in Nodes(s) + Nodes(c) {
      NodesView(r, n);
      var u :| HasChild(r, u) && n in Nodes(ChildOf(r, u));
      SetShapeChild(s, t, c, u);
      NodesBelow(s, u);
    }
  }

  lemma {:induction false} GraftSeparate(s: Shape, p: Path, w: Shape)
    requires HasShapePath(s, p) && Separate(s) && Separate(w) && Nodes(w) !! Nodes(s)
    ensures Separate(Graft(s, p, w))
    decreases |p|
  {
    hide Nodes;
    if p != [] {
      var child := ChildOf(s, p[0]);
      assert Separate(child);
      NodesBelow(s, p[0]);
      GraftSeparate(child, p[1..], w);
      GraftNodes(child, p[1..], w);
      SetShapeSeparate(s, p[0], Graft(child, p[1..], w), Nodes(w));
    }
  }

  lemma SetShapeSeparate(s: Shape, t: Step, c: Shape, extra: set<Node>)
    requires HasChild(s, t) && Separate(s) && Separate(c)
    requires Nodes(c) <= Nodes(ChildOf(s, t)) + extra && extra !! Nodes(s)
    ensures Separate(SetShape(s, t, c))
  {
    var r := SetShape(s, t, c);
    assert s.node in Nodes(s);
    hide Nodes, ChildOf, HasChild, SetShape;
    forall u | HasChild(r, u) ensures r.node !in Nodes(ChildOf(r, u)) && Separate(ChildOf(r, u)) {
      SetShapeChild(s, t, c, u);
    }
    forall u, v | HasChild(r, u) && HasChild(r, v) && u != v ensures Nodes(ChildOf(r, u)) !! Nodes(ChildOf(r, v)) {
      SetShapeChild(s, t, c, u);
      SetShapeChild(s, t, c, v);
      NodesBelow(s, u);
      NodesBelow(s, v);
    }
  }

  // ----- one assignment in the heap grafts the shape

  /** A tree stands in any heap that agrees on its objects. */
  lemma {:induction false} StandsStill(h: Heap, h': Heap, s: Shape)
    requires Stands(h, s)
    requires forall n :: n in Nodes(s) && n in h ==> n in h' && h'[n] == h[n]
    ensures Stands(h', s)
  {
    assert s.node in Nodes(s);
    hide Nodes, ChildOf, HasChild, SlotOf, HasSlot;
    forall t | HasChild(s, t) ensures ChildStands(h', s, t) {
      NodesBelow(s, t);
      assert ChildStands(h, s, t);
      StandsStill(h, h', ChildOf(s, t));
    }
  }

  /** Assigning a slot of the root replaces that child and leaves the others standing. */
  lemma RootGrafts(h: Heap, s: Shape, t: Step, w: Shape)
    requires Stands(h, s) && Separate(s) && HasChild(s, t) && Stands(h, w) && s.node !in Nodes(w)
    ensures HasSlot(s.node.kind, h[s.node], t)
    ensures Stands(h[s.node := Assigned(s.node.kind, h[s.node], t, w.node)], SetShape(s, t, w))
  {
    assert ChildStands(h, s, t);
    var a := Assigned(s.node.kind, h[s.node], t, w.node);
    var h' := h[s.node := a];
    var r := SetShape(s, t, w);
    assert |a.items| == |r.items| && a.entries.Keys == r.entries.Keys;
    hide Nodes, ChildOf, HasChild, SetShape, SlotOf, HasSlot, Assigned;
    StandsStill(h, h', w);
    forall u | HasChild(r, u) ensures ChildStands(h', r, u) {
      SetShapeChild(s, t, w, u);
      assert ChildStands(h, s, u);
      SlotAssigned(s.node.kind, h[s.node], t, w.node, u);
      if u != t { StandsStill(h, h', ChildOf(s, u)); }
    }
  }

  /** A change below one child keeps the rest of the tree standing. */
  lemma ChildGrafts(h: Heap, h': Heap, s: Shape, t: Step, c: Shape, n: Node)
    requires Stands(h, s) && Separate(s) && HasChild(s, t) && n in Nodes(ChildOf(s, t))
    requires forall m :: m in h && m != n ==> m in h' && h'[m] == h[m]
    requires Stands(h', c) && c.node == ChildOf(s, t).node
    ensures Stands(h', SetShape(s, t, c))
  {
    var r := SetShape(s, t, c);
    assert |s.items| == |r.items| && s.entries.Keys == r.entries.Keys;
    hide Nodes, ChildOf, HasChild, SetShape, SlotOf, HasSlot, Assigned;
    forall u | HasChild(r, u) ensures ChildStands(h', r, u) {
      SetShapeChild(s, t, c, u);
      assert ChildStands(h, s, u);
      if u != t { StandsStill(h, h', ChildOf(s, u)); }
    }
  }

  /** Assigning the last step's slot of the parent grafts the value at the whole path. */
  lemma {:induction false} AssignGrafts(h: Heap, s: Shape, p: Path, t: Step, w: Shape)
    requires Stands(h, s) && Separate(s) && Stands(h, w) && Nodes(w) !! Nodes(s)
    requires HasShapePath(s, p) && HasChild(ShapeAt(s, p), t)
    ensures var n := ShapeAt(s, p).node;
            && n in h && HasSlot(n.kind, h[n], t)
            && HasShapePath(s, p + [t])
            && Stands(h[n := Assigned(n.kind, h[n], t, w.node)], Graft(s, p + [t], w))
    decreases |p|
  {
    PathStep(s, p, t);
    if p == [] {
      assert s.node in Nodes(s);
      RootGrafts(h, s, t, w);
      GraftOne(s, t, w);
      assert p + [t] == [t];
    } else {
      AssignBelow(h, s, p, t, w);
    }
  }

  lemma {:induction false} AssignBelow(h: Heap, s: Shape, p: Path, t: Step, w: Shape)
    requires Stands(h, s) && Separate(s) && Stands(h, w) && Nodes(w) !! Nodes(s)
    requires p != [] && HasShapePath(s, p) && HasChild(ShapeAt(s, p), t) && HasShapePath(s, p + [t])
    ensures var n := ShapeAt(s, p).node;
            && n in h && HasSlot(n.kind, h[n], t)
            && Stands(h[n := Assigned(n.kind, h[n], t, w.node)], Graft(s, p + [t], w))
    decreases |p|, 0
  {
    hide Nodes, HasSlot, Assigned, SlotOf;
    var child := ChildOf(s, p[0]);
    assert ChildStands(h, s, p[0]);
    assert Separate(child);
    NodesBelow(s, p[0]);
    AssignGrafts(h, child, p[1..], t, w);
    assert (p + [t])[1..] == p[1..] + [t];
    NodesAt(child, p[1..]);
    var n := ShapeAt(s, p).node;
    hide Stands, Separate, ChildStands;
    ChildGrafts(h, h[n := Assigned(n.kind, h[n], t, w.node)], s, p[0], Graft(child, p[1..] + [t], w), n);
  }

  lemma GraftOne(s: Shape, t: Step, w: Shape)
    requires HasChild(s, t)
    ensures HasShapePath(s, [t]) && Graft(s, [t], w) == SetShape(s, t, w)
  {
    assert [t][1..] == [];
  }
}
