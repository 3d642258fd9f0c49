/** copy.deepcopy of a fixture: new objects throughout, standing in the same tree. */
module DeepCopies {
  import opened Texts
  import opened PointerReplace
  import opened ObjectTrees

  /** A whole tree of separate objects below c, denoting a given value. */
  ghost predicate Stood(t: Shape, c: Node, v: Tree)
    reads Nodes(t)
  {
    t.node == c && Separate(t) && Stands(Snapshot(Nodes(t)), t) && Value(t) == v
  }

  method DeepCopy(n: Node, ghost s: Shape, ghost ns: set<Node>) returns (c: Node, ghost t: Shape)
    requires s.node == n && Stands(Snapshot(ns), s)
    ensures fresh(Nodes(t)) && Stood(t, c, Value(s))
    decreases s, 2
  {
    match n.kind {
      case ScalarKind(_) =>
        c := new Node(n.kind, [], map[]);
        t := Shape(c, [], map[]);
      case ListKind => c, t := CopyList(n, s, ns);
      case DictKind => c, t := CopyDict(n, s, ns);
    }
  }

  // ----- lists

  /** The first items of a list are copied to separate trees made of the objects in made. */
  ghost predicate ItemsCopied(ts: seq<Shape>, copies: seq<Node>, ss: seq<Shape>, made: set<Node>)
    reads made
  {
    && |ts| == |copies| <= |ss|
    && (forall j :: 0 <= j < |ts| ==> Nodes(ts[j]) <= made && Stood(ts[j], copies[j], Value(ss[j])))
    && (forall j, k :: 0 <= j < k < |ts| ==> Nodes(ts[j]) !! Nodes(ts[k]))
  }

  lemma ItemCopied(ts: seq<Shape>, copies: seq<Node>, ss: seq<Shape>, made: set<Node>, t: Shape, c: Node)
    requires ItemsCopied(ts, copies, ss, made) && |ts| < |ss|
    requires Stood(t, c, Value(ss[|ts|])) && Nodes(t) !! made
    ensures ItemsCopied(ts + [t], copies + [c], ss, made + Nodes(t))
  {
    hide Nodes, Value, Separate, Stands, Stood;
  }

  method CopyList(n: Node, ghost s: Shape, ghost ns: set<Node>) returns (c: Node, ghost t: Shape)
    requires s.node == n && Stands(Snapshot(ns), s) && n.kind.ListKind?
    ensures fresh(Nodes(t)) && Stood(t, c, Value(s))
    decreases s, 0
  {
    var copies: seq<Node> := [];
    ghost var ts: seq<Shape> := [];
    ghost var made: set<Node> := {};
    ItemsStand(ns, s);
    var i := 0;
    hide Nodes, Value, Separate, Stands, Stood;
    assert ItemsCopied(ts, copies, s.items, made);
    hide *;
    while i < |n.items|
      invariant 0 <= i == |copies| == |ts| <= |n.items|
      invariant fresh(made) && ItemsCopied(ts, copies, s.items, made)
    {
      var copy: Node;
      ghost var shape: Shape;
      copy, shape := DeepCopy(n.items[i], s.items[i], ns);
      ItemCopied(ts, copies, s.items, made, shape, copy);
      copies, ts, made, i := copies + [copy], ts + [shape], made + Nodes(shape), i + 1;
    }
    c := new Node(ListKind, copies, map[]);
    t := Shape(c, ts, map[]);
    ListStood(t, s, copies, made);
  }

  lemma ItemsStand(ns: set<Node>, s: Shape)
    requires Stands(Snapshot(ns), s) && s.node.kind.ListKind?
    ensures |s.node.items| == |s.items|
    ensures forall i :: 0 <= i < |s.items| ==> s.items[i] < s && s.items[i].node == s.node.items[i] && Stands(Snapshot(ns), s.items[i])
  {
    forall i | 0 <= i < |s.items| ensures s.items[i].node == s.node.items[i] && Stands(Snapshot(ns), s.items[i]) {
      assert HasChild(s, Index(i)) && ChildStands(Snapshot(ns), s, Index(i));
    }
  }

  lemma ListStood(t: Shape, s: Shape, copies: seq<Node>, made: set<Node>)
    requires t.node.kind.ListKind? && s.node.kind.ListKind? && t.entries == map[]
    requires t.node.items == copies && t.node.entries == map[]
    requires ItemsCopied(t.items, copies, s.items, made) && |t.items| == |s.items| && t.node !in made
    ensures Stood(t, t.node, Value(s)) && Nodes(t) <= made + {t.node}
  {
    ListValue(t, s);
    forall u | HasChild(t, u) ensures ChildCopied(t, u) {}
    hide Value;
    ChildrenStood(t);
  }

  lemma ListValue(t: Shape, s: Shape)
    requires t.node.kind.ListKind? && s.node.kind.ListKind? && |t.items| == |s.items|
    requires forall i :: 0 <= i < |s.items| ==> Value(t.items[i]) == Value(s.items[i])
    ensures Value(t) == Value(s)
  {
    assert Value(t).items == Value(s).items;
  }

  /** One child of a new object stands on its own, apart from it. */
  ghost predicate ChildCopied(t: Shape, u: Step)
    requires HasChild(t, u)
    reads t.node, Nodes(ChildOf(t, u))
  {
    && HasSlot(t.node.kind, Slots(t.node.items, t.node.entries), u)
    && SlotOf(t.node.kind, Slots(t.node.items, t.node.entries), u) == ChildOf(t, u).node
    && t.node !in Nodes(ChildOf(t, u)) && Separate(ChildOf(t, u))
    && Stands(Snapshot(Nodes(ChildOf(t, u))), ChildOf(t, u))
  }

  /** Children that stand apart make a tree that stands. */
  lemma ChildrenStood(t: Shape)
    requires forall u :: HasChild(t, u) ==> ChildCopied(t, u)
    requires forall u, v :: HasChild(t, u) && HasChild(t, v) && u != v ==> Nodes(ChildOf(t, u)) !! Nodes(ChildOf(t, v))
    requires |t.node.items| == |t.items| && t.node.entries.Keys == t.entries.Keys
    ensures Separate(t) && Stands(Snapshot(Nodes(t)), t)
  {
    assert t.node in Nodes(t);
    var h := Snapshot(Nodes(t));
    assert h[t.node] == Slots(t.node.items, t.node.entries);
    hide Nodes, ChildOf, HasChild, SlotOf, HasSlot;
    forall u | HasChild(t, u) ensures ChildStands(h, t, u) {
      NodesBelow(t, u);
      assert ChildCopied(t, u);
      StandsStill(Snapshot(Nodes(ChildOf(t, u))), h, ChildOf(t, u));
    }
    forall u | HasChild(t, u) ensures t.node !in Nodes(ChildOf(t, u)) && Separate(ChildOf(t, u)) {
      assert ChildCopied(t, u);
    }
  }

  // ----- dicts

  ghost predicate EntriesCopied(ts: map<Text, Shape>, copies: map<Text, Node>, ss: map<Text, Shape>, made: set<Node>)
    reads made
  {
    && ts.Keys == copies.Keys <= ss.Keys
    && (forall k :: k in ts ==> Nodes(ts[k]) <= made && Stood(ts[k], copies[k], Value(ss[k])))
    && (forall k, l :: k in ts && l in ts && k != l ==> Nodes(ts[k]) !! Nodes(ts[l]))
  }

  lemma EntryCopied(ts: map<Text, Shape>, copies: map<Text, Node>, ss: map<Text, Shape>, made: set<Node>,
                    key: Text, t: Shape, c: Node)
    requires EntriesCopied(ts, copies, ss, made) && key in ss && key !in ts
    requires Stood(t, c, Value(ss[key])) && Nodes(t) !! made
    ensures EntriesCopied(ts[key := t], copies[key := c], ss, made + Nodes(t))
    ensures ts[key := t].Keys == ts.Keys + {key}
  {
    hide Nodes, Value, Separate, Stands, Stood;
  }

  /** The shapes of a dict's entries, standing. */
  ghost predicate EntriesStand(entries: map<Text, Node>, ss: map<Text, Shape>, h: Heap) {
    entries.Keys == ss.Keys && forall k :: k in ss ==> ss[k].node == entries[k] && Stands(h, ss[k])
  }

  method CopyEntries(entries: map<Text, Node>, ghost s: Shape, ghost ss: map<Text, Shape>, ghost ns: set<Node>)
    returns (copies: map<Text, Node>, ghost ts: map<Text, Shape>, ghost made: set<Node>)
    requires EntriesStand(entries, ss, Snapshot(ns)) && forall k :: k in ss ==> ss[k] < s
    ensures fresh(made) && EntriesCopied(ts, copies, ss, made) && ts.Keys == ss.Keys
    decreases s, 0
  {
    copies, ts, made := map[], map[], {};
    NoEntries(ss);
    var rest := entries.Keys;
    while rest != {}
      invariant rest <= entries.Keys && ts.Keys == entries.Keys - rest
      invariant fresh(made) && EntriesCopied(ts, copies, ss, made)
      decreases rest
    {
      hide EntriesCopied, Stands, Nodes, Separate, Value, Stood;
      var k :| k in rest;
      OneLess(entries.Keys, rest, k);
      var copy: Node;
      ghost var shape: Shape;
      copy, shape := DeepCopy(entries[k], ss[k], ns);
      EntryCopied(ts, copies, ss, made, k, shape, copy);
      copies, ts, made, rest := copies[k := copy], ts[k := shape], made + Nodes(shape), rest - {k};
    }
  }

  method CopyDict(n: Node, ghost s: Shape, ghost ns: set<Node>) returns (c: Node, ghost t: Shape)
    requires s.node == n && Stands(Snapshot(ns), s) && n.kind.DictKind?
    ensures fresh(Nodes(t)) && Stood(t, c, Value(s))
    decreases s, 1
  {
    DictStands(ns, s);
    hide *;
    var copies: map<Text, Node>;
    ghost var ts: map<Text, Shape>;
    ghost var made: set<Node>;
    copies, ts, made := CopyEntries(n.entries, s, s.entries, ns);
    c := new Node(DictKind, [], copies);
    t := Shape(c, [], ts);
    DictStood(t, s, copies, made);
  }

  lemma NoEntries(ss: map<Text, Shape>)
    ensures EntriesCopied(map[], map[], ss, {})
  {
  }

  lemma OneLess(keys: set<Text>, rest: set<Text>, k: Text)
    requires rest <= keys && k in rest
    ensures k in keys && k !in keys - rest && keys - (rest - {k}) == keys - rest + {k}
  {
  }

  lemma DictStands(ns: set<Node>, s: Shape)
    requires Stands(Snapshot(ns), s) && s.node.kind.DictKind?
    ensures EntriesStand(s.node.entries, s.entries, Snapshot(ns)) && forall k :: k in s.entries ==> s.entries[k] < s
  {
    forall k | k in s.entries ensures s.entries[k].node == s.node.entries[k] && Stands(Snapshot(ns), s.entries[k]) {
      assert HasChild(s, Key(k)) && ChildStands(Snapshot(ns), s, Key(k));
    }
  }

  lemma DictStood(t: Shape, s: Shape, copies: map<Text, Node>, made: set<Node>)
    requires t.node.kind.DictKind? && s.node.kind.DictKind? && t.items == []
    requires t.node.items == [] && t.node.entries == copies
    requires EntriesCopied(t.entries, copies, s.entries, made) && t.entries.Keys == s.entries.Keys && t.node !in made
    ensures Stood(t, t.node, Value(s)) && Nodes(t) <= made + {t.node}
  {
    DictValue(t, s);
    forall u | HasChild(t, u) ensures ChildCopied(t, u) {}
    hide Value;
    ChildrenStood(t);
  }

  lemma DictValue(t: Shape, s: Shape)
    requires t.node.kind.DictKind? && s.node.kind.DictKind? && t.entries.Keys == s.entries.Keys
    requires forall k :: k in s.entries ==> Value(t.entries[k]) == Value(s.entries[k])
    ensures Value(t) == Value(s)
  {
    hide *;
    SameMaps(DictEntries(t), DictEntries(s));
  }

  lemma SameMaps(a: map<Text, Tree>, b: map<Text, Tree>)
    requires a.Keys == b.Keys && forall k :: k in a ==> a[k] == b[k]
    ensures a == b
  {
  }

  ghost function DictEntries(s: Shape): (m: map<Text, Tree>)
    requires s.node.kind.DictKind?
    ensures Value(s) == Dict(m)
    ensures m.Keys == s.entries.Keys && forall k :: k in s.entries ==> m[k] == Value(s.entries[k])
  {
    Value(s).entries
  }
}
