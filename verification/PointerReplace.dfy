/** Replacing the value a pointer addresses (section 4.3 of RFC 6902), as a pure function on trees. */
module PointerReplace {
  import opened Options
  import opened Texts
  import opened Numerals

  datatype Tree = Scalar(text: Text) | List(items: seq<Tree>) | Dict(entries: map<Text, Tree>)

  /** Where a token leads from a list or from a dict. */
  datatype Step = Index(i: nat) | Key(k: Text)

  type Path = seq<Step>

  // ----- int(token)

  /** White space around a numeral, for int(): the separators U+001C to U+001F are not among it. */
  predicate NumeralSpace(c: Code) {
    c == SPACE || 0x09 <= c <= 0x0D || (c > 0x7F && White(c))
  }

  function DropSpace(t: Text): Text {
    if t != [] && NumeralSpace(t[0]) then DropSpace(t[1..]) else t
  }

  function DropSpaceEnd(t: Text): Text {
    if t != [] && NumeralSpace(t[|t| - 1]) then DropSpaceEnd(t[..|t| - 1]) else t
  }

  /** Digits with single underscores between them, underscores removed. */
  function PlainDigits(t: Text): (r: Option<Text>)
    ensures r.Some? ==> r.value != [] && forall i :: 0 <= i < |r.value| ==> Digit(r.value[i])
  {
    if t == [] || !Digit(t[0]) then None
    else if |t| == 1 then Some(t)
    else
      var rest :- PlainDigits(if t[1] == 0x5F then t[2..] else t[1..]);
      Some([t[0]] + rest)
  }

  /** int() of a string with ASCII digits: white space around it, one sign, underscored digits. */
  function PyIntText(t: Text): Option<int> {
    var u := DropSpaceEnd(DropSpace(t));
    if u == [] then None
    else if u[0] == MINUS then
      var d :- PlainDigits(u[1..]);
      var n: int := NatValue(d);
      Some(-n)
    else
      var d :- PlainDigits(if u[0] == PLUS then u[1..] else u);
      Some(NatValue(d))
  }

  // ----- resolution

  /** The step a token takes: an index counted from either end of a list, or a key the dict has. */
  function StepOf(v: Tree, token: Text): Option<Step> {
    match v
    case Scalar(_) => None
    case List(items) =>
      var n :- PyIntText(token);
      if 0 <= n < |items| then Some(Index(n))
      else if -|items| <= n < 0 then Some(Index(n + |items|))
      else None
    case Dict(entries) => if token in entries then Some(Key(token)) else None
  }

  predicate HasStep(v: Tree, s: Step) {
    match s
    case Index(i) => v.List? && i < |v.items|
    case Key(k) => v.Dict? && k in v.entries
  }

  function Child(v: Tree, s: Step): (c: Tree)
    requires HasStep(v, s)
    ensures c < v
  {
    match s
    case Index(i) => v.items[i]
    case Key(k) => v.entries[k]
  }

  function SetChild(v: Tree, s: Step, c: Tree): Tree
    requires HasStep(v, s)
  {
    match s
    case Index(i) => List(v.items[i := c])
    case Key(k) => Dict(v.entries[k := c])
  }

  function Resolve(v: Tree, tokens: seq<Text>): (r: Option<Path>)
    ensures r.Some? ==> |r.value| == |tokens| && HasPath(v, r.value)
    decreases tokens
  {
    if tokens == [] then Some([])
    else
      var s :- StepOf(v, tokens[0]);
      var rest :- Resolve(Child(v, s), tokens[1..]);
      Some([s] + rest)
  }

  predicate HasPath(v: Tree, p: Path)
    decreases |p|
  {
    p == [] || (HasStep(v, p[0]) && HasPath(Child(v, p[0]), p[1..]))
  }

  function Read(v: Tree, p: Path): Option<Tree>
    decreases |p|
  {
    if p == [] then Some(v)
    else if HasStep(v, p[0]) then Read(Child(v, p[0]), p[1..])
    else None
  }

  function Update(v: Tree, p: Path, w: Tree): Tree
    requires HasPath(v, p)
    decreases |p|
  {
    if p == [] then w else SetChild(v, p[0], Update(Child(v, p[0]), p[1..], w))
  }

  /** One replace operation: its pointer's tokens and its value. */
  datatype Operation = Operation(tokens: seq<Text>, value: Tree)

  /** Nothing when the pointer is empty or does not resolve, where the code raises. */
  function Apply(v: Tree, op: Operation): Option<Tree> {
    if op.tokens == [] then None
    else
      var p :- Resolve(v, op.tokens);
      Some(Update(v, p, op.value))
  }

  function ApplyAll(v: Tree, ops: seq<Operation>): Option<Tree>
    decreases |ops|
  {
    if ops == [] then Some(v)
    else
      var w :- Apply(v, ops[0]);
      ApplyAll(w, ops[1..])
  }

  // ----- laws

  predicate Apart(p: Path, q: Path)
    decreases |p|
  {
    p != [] && q != [] && (p[0] != q[0] || Apart(p[1..], q[1..]))
  }

  lemma SetChildReads(v: Tree, s: Step, c: Tree, t: Step)
    requires HasStep(v, s)
    ensures HasStep(SetChild(v, s, c), t) <==> HasStep(v, t)
    ensures HasStep(v, t) ==> Child(SetChild(v, s, c), t) == if t == s then c else Child(v, t)
  {
  }

  lemma {:induction false} ReadUpdated(v: Tree, p: Path, w: Tree)
    requires HasPath(v, p)
    ensures Read(Update(v, p, w), p) == Some(w)
    decreases |p|
  {
    if p != [] {
      ReadUpdated(Child(v, p[0]), p[1..], w);
      SetChildReads(v, p[0], Update(Child(v, p[0]), p[1..], w), p[0]);
    }
  }

  /** A path apart from the updated one reads what it read, or fails as it failed. */
  lemma {:induction false} ReadApart(v: Tree, p: Path, w: Tree, q: Path)
    requires HasPath(v, p) && Apart(p, q)
    ensures Read(Update(v, p, w), q) == Read(v, q)
    decreases |p|
  {
    SetChildReads(v, p[0], Update(Child(v, p[0]), p[1..], w), q[0]);
    if p[0] == q[0] {
      ReadApart(Child(v, p[0]), p[1..], w, q[1..]);
    }
  }

  /** A value that is not the given one and has no steps. */
  function Other(v: Tree): (w: Tree)
    ensures w != v && forall s :: !HasStep(w, s)
  {
    if v.Scalar? then List([]) else Scalar([])
  }

  lemma {:induction false} PathRead(v: Tree, p: Path)
    requires HasPath(v, p)
    ensures Read(v, p).Some?
    decreases |p|
  {
    if p != [] { PathRead(Child(v, p[0]), p[1..]); }
  }

  /** A path that is not apart from the updated one reads something else after some update. */
  lemma {:induction false} ReadTouched(v: Tree, p: Path, q: Path)
    requires HasPath(v, p) && HasPath(v, q) && !Apart(p, q) && Read(v, p).Some?
    ensures Read(Update(v, p, Other(Read(v, p).value)), q) != Read(v, q)
    decreases |p|
  {
    var w := Other(Read(v, p).value);
    PathRead(v, q);
    if p != [] && q == [] {
      ReadUpdated(v, p, w);
    } else if p != [] {
      SetChildReads(v, p[0], Update(Child(v, p[0]), p[1..], w), q[0]);
      ReadTouched(Child(v, p[0]), p[1..], q[1..]);
    }
  }

  /** Of two paths that exist, replacements at one never change the other exactly when they are apart. */
  lemma ReadApartExactly(v: Tree, p: Path, q: Path)
    requires HasPath(v, p) && HasPath(v, q)
    ensures Apart(p, q) <==> forall w :: Read(Update(v, p, w), q) == Read(v, q)
  {
    if Apart(p, q) {
      forall w ensures Read(Update(v, p, w), q) == Read(v, q) { ReadApart(v, p, w, q); }
    } else {
      PathRead(v, p);
      ReadTouched(v, p, q);
    }
  }

  lemma {:induction false} PathApart(v: Tree, p: Path, w: Tree, q: Path)
    requires HasPath(v, p) && Apart(p, q)
    ensures HasPath(Update(v, p, w), q) <==> HasPath(v, q)
    decreases |p|
  {
    SetChildReads(v, p[0], Update(Child(v, p[0]), p[1..], w), q[0]);
    if p[0] == q[0] {
      PathApart(Child(v, p[0]), p[1..], w, q[1..]);
    }
  }

  lemma {:induction false} UpdatesCommute(v: Tree, p: Path, a: Tree, q: Path, b: Tree)
    requires HasPath(v, p) && HasPath(v, q) && Apart(p, q)
    ensures HasPath(Update(v, p, a), q) && HasPath(Update(v, q, b), p)
    ensures Update(Update(v, p, a), q, b) == Update(Update(v, q, b), p, a)
    decreases |p|
  {
    ApartSymmetric(p, q);
    PathApart(v, p, a, q);
    PathApart(v, q, b, p);
    var vp, vq := Update(Child(v, p[0]), p[1..], a), Update(Child(v, q[0]), q[1..], b);
    SetChildReads(v, p[0], vp, q[0]);
    SetChildReads(v, q[0], vq, p[0]);
    if p[0] == q[0] {
      UpdatesCommute(Child(v, p[0]), p[1..], a, q[1..], b);
      SetChildTwice(v, p[0], vp, Update(vp, q[1..], b));
      SetChildTwice(v, p[0], vq, Update(vq, p[1..], a));
    } else {
      SetChildrenCommute(v, p[0], vp, q[0], vq);
    }
  }

  lemma {:induction false} ApartSymmetric(p: Path, q: Path)
    requires Apart(p, q)
    ensures Apart(q, p)
    decreases |p|
  {
    if p[0] == q[0] { ApartSymmetric(p[1..], q[1..]); }
  }

  lemma SetChildTwice(v: Tree, s: Step, a: Tree, b: Tree)
    requires HasStep(v, s)
    ensures HasStep(SetChild(v, s, a), s) && SetChild(SetChild(v, s, a), s, b) == SetChild(v, s, b)
  {
    match s
    case Index(i) => assert v.items[i := a][i := b] == v.items[i := b];
    case Key(k) => assert v.entries[k := a][k := b] == v.entries[k := b];
  }

  lemma SetChildrenCommute(v: Tree, s: Step, a: Tree, t: Step, b: Tree)
    requires HasStep(v, s) && HasStep(v, t) && s != t
    ensures HasStep(SetChild(v, s, a), t) && HasStep(SetChild(v, t, b), s)
    ensures SetChild(SetChild(v, s, a), t, b) == SetChild(SetChild(v, t, b), s, a)
  {
    match s
    case Index(i) => assert v.items[i := a][t.i := b] == v.items[t.i := b][i := a];
    case Key(k) => assert v.entries[k := a][t.k := b] == v.entries[t.k := b][k := a];
  }

  /** Tokens keep their meaning beside an update: the step depends only on the shape of the node, which stays. */
  lemma {:induction false} ResolveApart(v: Tree, p: Path, w: Tree, tokens: seq<Text>)
    requires HasPath(v, p) && Resolve(v, tokens).Some? && Apart(p, Resolve(v, tokens).value)
    ensures Resolve(Update(v, p, w), tokens) == Resolve(v, tokens)
    decreases |p|
  {
    var s := StepOf(v, tokens[0]).value;
    var c := Update(Child(v, p[0]), p[1..], w);
    assert Resolve(v, tokens).value[1..] == Resolve(Child(v, s), tokens[1..]).value;
    SetChildReads(v, p[0], c, s);
    StepKept(v, p[0], c, tokens[0]);
    if s == p[0] {
      ResolveApart(Child(v, s), p[1..], w, tokens[1..]);
    }
  }

  lemma StepKept(v: Tree, s: Step, c: Tree, token: Text)
    requires HasStep(v, s)
    ensures StepOf(SetChild(v, s, c), token) == StepOf(v, token)
  {
  }

  /** Operations whose pointers resolve apart may be applied in either order. */
  lemma OperationsCommute(v: Tree, x: Operation, y: Operation)
    requires x.tokens != [] && y.tokens != [] && Resolve(v, x.tokens).Some? && Resolve(v, y.tokens).Some?
    requires Apart(Resolve(v, x.tokens).value, Resolve(v, y.tokens).value)
    ensures ApplyAll(v, [x, y]).Some? && ApplyAll(v, [x, y]) == ApplyAll(v, [y, x])
  {
    hide Resolve, Update, Apart, HasPath;
    var p, q := Resolve(v, x.tokens).value, Resolve(v, y.tokens).value;
    ApartSymmetric(p, q);
    ResolveApart(v, p, x.value, y.tokens);
    ResolveApart(v, q, y.value, x.tokens);
    UpdatesCommute(v, p, x.value, q, y.value);
    ApplyTwo(v, x, y);
    ApplyTwo(v, y, x);
  }

  lemma ApplyTwo(v: Tree, x: Operation, y: Operation)
    ensures ApplyAll(v, [x, y]) == (match Apply(v, x) case None => None case Some(w) => Apply(w, y))
  {
    hide Apply;
    assert [x, y][1..] == [y] && [y][1..] == [];
    assert ApplyAll(v, [x, y]) == (match Apply(v, x) case None => None case Some(w) => ApplyAll(w, [y]));
  }

  /** Where each operation of the list resolves, when its turn comes, apart from q. */
  ghost predicate AllApart(v: Tree, ops: seq<Operation>, q: Path)
    decreases |ops|
  {
    ops == [] ||
    (ops[0].tokens != [] && Resolve(v, ops[0].tokens).Some? && Apart(Resolve(v, ops[0].tokens).value, q) &&
     AllApart(Update(v, Resolve(v, ops[0].tokens).value, ops[0].value), ops[1..], q))
  }

  /** After any list of operations, every path apart from the addressed ones reads the same. */
  lemma {:induction false} UntouchedElsewhere(v: Tree, ops: seq<Operation>, q: Path)
    requires AllApart(v, ops, q)
    ensures ApplyAll(v, ops).Some? && Read(ApplyAll(v, ops).value, q) == Read(v, q)
    decreases |ops|
  {
    if ops != [] {
      var p := Resolve(v, ops[0].tokens).value;
      ReadApart(v, p, ops[0].value, q);
      UntouchedElsewhere(Update(v, p, ops[0].value), ops[1..], q);
    }
  }

  /** Two tokens address one item of a list exactly when their integers are equal or one list length apart. */
  lemma ListAliases(items: seq<Tree>, a: Text, b: Text)
    requires StepOf(List(items), a).Some? && StepOf(List(items), b).Some?
    ensures var m, n := PyIntText(a).value, PyIntText(b).value;
            StepOf(List(items), a) == StepOf(List(items), b) <==> m == n || m == n + |items| || n == m + |items|
  {
  }

  /** Different tokens can address one list item, so paths and not tokens decide what is apart. */
  lemma AliasedTokens()
    ensures var v := List([Scalar([])]);
            var a, b: Text := [0x30], [0x2D, 0x31];
            && a != b && Resolve(v, [a]) == Resolve(v, [b]) == Some([Index(0)])
  {
    var a, b: Text := [0x30], [0x2D, 0x31];
    var one: Text := [0x31];
    assert b[1..] == one;
    assert NatValue(a) == 0 by { assert a[..0] == []; }
    assert NatValue(one) == 1 by { assert one[..0] == []; }
    assert PyIntText(a) == Some(0) && PyIntText(b) == Some(-1);
    var v := List([Scalar([])]);
    hide PyIntText;
    assert StepOf(v, a) == StepOf(v, b) == Some(Index(0));
    ResolveOne(v, a);
    ResolveOne(v, b);
  }

  lemma ResolveOne(v: Tree, token: Text)
    ensures Resolve(v, [token]) == match StepOf(v, token) case None => None case Some(s) => Some([s])
  {
    hide PyIntText;
    assert [token][1..] == [];
    if StepOf(v, token).Some? {
      var s := StepOf(v, token).value;
      assert Resolve(Child(v, s), []) == Some([]);
      assert [s] + [] == [s];
    }
  }
}
