/**
  Which place a pointer addresses: its text cut at slashes and unescaped, its tokens as
  integers or keys, and what replacing there does to the value, level by level.
 */
module PointerPlaces {
  import opened Options
  import opened Texts
  import opened Numerals
  import opened JsonPointer
  import opened PointerReplace

  // ----- int(token)

  /** Digits with single underscores between them. */
  predicate Grouped(t: Text) {
    && t != [] && Mark('0') <= t[0] <= Mark('9') && Mark('0') <= t[|t| - 1] <= Mark('9')
    && (forall i :: 0 <= i < |t| ==> Mark('0') <= t[i] <= Mark('9') || t[i] == Mark('_'))
    && (forall i :: 0 < i < |t| ==> !(t[i - 1] == Mark('_') && t[i] == Mark('_')))
  }

  function WithoutUnderscores(t: Text): (r: Text)
    ensures (forall i :: 0 <= i < |t| ==> Mark('0') <= t[i] <= Mark('9') || t[i] == Mark('_')) ==>
              forall i :: 0 <= i < |r| ==> Mark('0') <= r[i] <= Mark('9')
  {
    if t == [] then []
    else
      var rest := WithoutUnderscores(t[1..]);
      assert (forall i :: 0 <= i < |t| ==> Mark('0') <= t[i] <= Mark('9') || t[i] == Mark('_')) ==>
               forall i :: 0 <= i < |t[1..]| ==> Mark('0') <= t[1..][i] <= Mark('9') || t[1..][i] == Mark('_');
      if t[0] == Mark('_') then rest else [t[0]] + rest
  }

  lemma {:induction false} GroupedExactly(t: Text)
    ensures PlainDigits(t).Some? <==> Grouped(t)
    ensures Grouped(t) ==> PlainDigits(t) == Some(WithoutUnderscores(t))
    decreases |t|
  {
    if t != [] && Digit(t[0]) {
      if |t| == 1 {
        OneDigit(t);
      } else {
        var u := if t[1] == 0x5F then t[2..] else t[1..];
        GroupedExactly(u);
        GroupedTail(t, u);
        hide PlainDigits, Grouped, WithoutUnderscores;
        assert PlainDigits(t) == (match PlainDigits(u) case None => None case Some(d) => Some([t[0]] + d)) by { PlainStep(t, u); }
      }
    }
  }

  lemma OneDigit(t: Text)
    requires |t| == 1 && Digit(t[0])
    ensures Grouped(t) && PlainDigits(t) == Some(t) && WithoutUnderscores(t) == t
  {
    assert t[1..] == [];
    assert WithoutUnderscores(t) == [t[0]] + WithoutUnderscores(t[1..]);
  }

  lemma PlainStep(t: Text, u: Text)
    requires |t| > 1 && Digit(t[0]) && u == if t[1] == 0x5F then t[2..] else t[1..]
    ensures PlainDigits(t) == (match PlainDigits(u) case None => None case Some(d) => Some([t[0]] + d))
  {
  }

  lemma GroupedTail(t: Text, u: Text)
    requires |t| > 1 && Digit(t[0]) && u == if t[1] == 0x5F then t[2..] else t[1..]
    ensures Grouped(t) <==> Grouped(u)
    ensures WithoutUnderscores(t) == [t[0]] + WithoutUnderscores(u)
  {
    if t[1] == Mark('_') {
      assert t[1..][1..] == t[2..];
      if Grouped(t) {
        forall i | 0 <= i < |u| ensures u[i] == t[i + 2] {}
        assert t[|t| - 1] != Mark('_');
        assert !(t[2 - 1] == Mark('_') && t[2] == Mark('_'));
        forall i | 0 < i < |u| ensures !(u[i - 1] == Mark('_') && u[i] == Mark('_')) {
          assert u[i - 1] == t[i + 1] && u[i] == t[i + 2];
        }
      }
      if Grouped(u) {
        forall i | 0 < i < |t| ensures !(t[i - 1] == Mark('_') && t[i] == Mark('_')) {
          if i >= 3 { assert t[i - 1] == u[i - 3] && t[i] == u[i - 2]; }
        }
        forall i | 0 <= i < |t| ensures Mark('0') <= t[i] <= Mark('9') || t[i] == Mark('_') {
          if i >= 2 { assert t[i] == u[i - 2]; }
        }
        assert t[|t| - 1] == u[|u| - 1];
      }
    } else {
      if Grouped(t) {
        assert u[|u| - 1] == t[|t| - 1] && u[0] == t[1];
        forall i | 0 < i < |u| ensures !(u[i - 1] == Mark('_') && u[i] == Mark('_')) {
          assert u[i - 1] == t[i] && u[i] == t[i + 1];
        }
      }
      if Grouped(u) {
        forall i | 0 < i < |t| ensures !(t[i - 1] == Mark('_') && t[i] == Mark('_')) {
          if i >= 2 { assert t[i - 1] == u[i - 2] && t[i] == u[i - 1]; }
        }
        forall i | 0 <= i < |t| ensures Mark('0') <= t[i] <= Mark('9') || t[i] == Mark('_') {
          if i >= 1 { assert t[i] == u[i - 1]; }
        }
        assert t[|t| - 1] == u[|u| - 1];
      }
    }
  }

  /** White space around a numeral: the ASCII one without the four separators, and the Unicode one. */
  predicate SpaceMark(c: Code) {
    || c == Mark(' ') || 9 <= c <= 13 || c == 0x85 || c == 0xA0 || c == 0x1680 || 0x2000 <= c <= 0x200A
    || c == 0x2028 || c == 0x2029 || c == 0x202F || c == 0x205F || c == 0x3000
  }

  predicate Spaces(t: Text) {
    forall i :: 0 <= i < |t| ==> SpaceMark(t[i])
  }

  lemma SpaceIs(c: Code)
    ensures NumeralSpace(c) <==> SpaceMark(c)
  {
  }

  lemma SpacesCons(t: Text)
    requires t != []
    ensures Spaces(t) <==> SpaceMark(t[0]) && Spaces(t[1..])
    ensures Spaces(t) <==> SpaceMark(t[|t| - 1]) && Spaces(t[..|t| - 1])
  {
    hide SpaceMark;
    var n := |t| - 1;
    if SpaceMark(t[0]) && Spaces(t[1..]) {
      forall i | 0 < i < |t| ensures t[i] == t[1..][i - 1] {}
    }
    if SpaceMark(t[n]) && Spaces(t[..n]) {
      forall i | 0 <= i < n ensures t[i] == t[..n][i] {}
    }
  }

  lemma {:induction false} DropRead(t: Text) returns (before: Text)
    ensures t == before + DropSpace(t) && Spaces(before)
    ensures DropSpace(t) != [] ==> !NumeralSpace(DropSpace(t)[0])
  {
    before := [];
    if t != [] && NumeralSpace(t[0]) {
      var more := DropRead(t[1..]);
      before := [t[0]] + more;
      assert t == [t[0]] + t[1..];
      assert before[1..] == more;
      SpaceIs(t[0]);
      SpacesCons(before);
      hide Spaces;
    }
  }

  lemma {:induction false} DropReads(before: Text, core: Text)
    requires Spaces(before) && core != [] && !NumeralSpace(core[0])
    ensures DropSpace(before + core) == core
  {
    if before == [] {
      assert before + core == core;
    } else {
      SpacesCons(before);
      SpaceIs(before[0]);
      hide Spaces, NumeralSpace;
      assert (before + core)[1..] == before[1..] + core;
      DropReads(before[1..], core);
    }
  }

  lemma {:induction false} DropEndRead(t: Text) returns (after: Text)
    ensures t == DropSpaceEnd(t) + after && Spaces(after)
    decreases |t|
  {
    after := [];
    if t != [] && NumeralSpace(t[|t| - 1]) {
      var n := |t| - 1;
      var more := DropEndRead(t[..n]);
      after := more + [t[n]];
      assert t == t[..n] + [t[n]];
      assert after[..|after| - 1] == more;
      SpaceIs(t[n]);
      SpacesCons(after);
      hide Spaces;
    }
  }

  lemma {:induction false} DropEndReads(core: Text, after: Text)
    requires Spaces(after) && core != [] && !NumeralSpace(core[|core| - 1])
    ensures DropSpaceEnd(core + after) == core
    decreases |after|
  {
    if after == [] {
      assert core + after == core;
    } else {
      var n := |after| - 1;
      SpacesCons(after);
      SpaceIs(after[n]);
      hide Spaces, NumeralSpace;
      assert (core + after)[..|core| + n] == core + after[..n];
      DropEndReads(core, after[..n]);
    }
  }

  /** White space, a sign or none, digits with single underscores between them, white space. */
  ghost predicate NumeralParts(t: Text, n: int, before: Text, sign: Text, digits: Text, after: Text) {
    && t == before + sign + digits + after && Spaces(before) && Spaces(after) && Grouped(digits)
    && (sign == [] || sign == [Mark('+')] || sign == [Mark('-')])
    && var magnitude: int := Positional(WithoutUnderscores(digits));
       n == if sign == [Mark('-')] then -magnitude else magnitude
  }

  ghost function Signed(negative: bool, digits: Option<Text>): Option<int>
    requires digits.Some? ==> AllDigits(digits.value)
  {
    match digits
    case None => None
    case Some(d) =>
      var magnitude: int := Positional(d);
      Some(if negative then -magnitude else magnitude)
  }

  /** int() of a token without spaces around it. */
  lemma SignedParts(u: Text)
    requires DropSpaceEnd(DropSpace(u)) == u
    ensures PyIntText(u)
            == if u == [] then None
               else if u[0] == Mark('-') then Signed(true, PlainDigits(u[1..]))
               else Signed(false, PlainDigits(if u[0] == Mark('+') then u[1..] else u))
  {
    hide PlainDigits, NatValue, Positional, DropSpace, DropSpaceEnd;
    forall d: Text | AllDigits(d) ensures NatValue(d) == Positional(d) { NatValuePositional(d); }
  }

  lemma SignedExactly(u: Text, sign: Text, digits: Text)
    requires u == sign + digits && u != [] && (sign == [] || sign == [Mark('+')] || sign == [Mark('-')])
    requires sign == [] ==> u[0] != Mark('+') && u[0] != Mark('-')
    requires DropSpaceEnd(DropSpace(u)) == u
    ensures PyIntText(u).Some? <==> Grouped(digits)
    ensures Grouped(digits) ==> PyIntText(u) == Signed(sign == [Mark('-')], Some(WithoutUnderscores(digits)))
  {
    GroupedExactly(digits);
    SignedParts(u);
    assert sign != [] ==> u[1..] == digits && u[0] == sign[0];
    assert sign == [] ==> u == digits;
    hide Grouped, WithoutUnderscores, PlainDigits, NatValue, Positional, DropSpace, DropSpaceEnd, PyIntText;
  }

  lemma Trimmed(t: Text, u: Text)
    requires DropSpaceEnd(DropSpace(t)) == u == DropSpaceEnd(DropSpace(u))
    ensures PyIntText(t) == PyIntText(u)
  {
    hide PlainDigits, NatValue, DropSpace, DropSpaceEnd;
  }

  /** A token is an integer exactly when it is such a numeral, and then the sum of its digits by decimal place. */
  lemma IntegerExactly(t: Text, n: int)
    ensures PyIntText(t) == Some(n) <==>
            exists before, sign, digits, after :: NumeralParts(t, n, before, sign, digits, after)
  {
    if PyIntText(t) == Some(n) {
      IntegerRead(t);
    }
    if before, sign, digits, after :| NumeralParts(t, n, before, sign, digits, after) {
      IntegerReads(t, n, before, sign, digits, after);
    }
  }

  lemma GroupedEnds(sign: Text, digits: Text)
    requires Grouped(digits) && (sign == [] || sign == [Mark('+')] || sign == [Mark('-')])
    ensures var u := sign + digits; u != [] && !NumeralSpace(u[0]) && !NumeralSpace(u[|u| - 1])
    ensures digits != [] && digits[0] != Mark('+') && digits[0] != Mark('-')
  {
    var u := sign + digits;
    assert u[0] == (if sign == [] then digits[0] else sign[0]) && u[|u| - 1] == digits[|digits| - 1];
  }

  /** Trimming a text that ends in no space at either side, with spaces around it or without. */
  lemma Trims(before: Text, u: Text, after: Text)
    requires Spaces(before) && Spaces(after) && u != [] && !NumeralSpace(u[0]) && !NumeralSpace(u[|u| - 1])
    ensures DropSpaceEnd(DropSpace(before + (u + after))) == u == DropSpaceEnd(DropSpace(u))
  {
    var none: Text := [];
    assert Spaces(none) && none + u == u && u + none == u;
    hide *;
    assert (u + after)[0] == u[0];
    DropReads(before, u + after);
    DropEndReads(u, after);
    DropReads(none, u);
    DropEndReads(u, none);
  }

  lemma Bracketed(before: Text, sign: Text, digits: Text, after: Text)
    ensures before + sign + digits + after == before + ((sign + digits) + after)
  {
  }

  lemma IntegerReads(t: Text, n: int, before: Text, sign: Text, digits: Text, after: Text)
    requires NumeralParts(t, n, before, sign, digits, after)
    ensures PyIntText(t) == Some(n)
  {
    var u := sign + digits;
    Bracketed(before, sign, digits, after);
    hide Spaces, Grouped, NumeralSpace, Positional, WithoutUnderscores, DropSpace, DropSpaceEnd, PyIntText;
    GroupedEnds(sign, digits);
    Trims(before, u, after);
    Trimmed(t, u);
    SignedExactly(u, sign, digits);
  }

  lemma SignOf(u: Text) returns (sign: Text, digits: Text)
    requires u != []
    ensures u == sign + digits && (sign == [] || sign == [Mark('+')] || sign == [Mark('-')])
    ensures sign == [] ==> u[0] != Mark('+') && u[0] != Mark('-')
  {
    sign := if u[0] == Mark('+') || u[0] == Mark('-') then [u[0]] else [];
    digits := if sign == [] then u else u[1..];
  }

  lemma TrimmedText(t: Text) returns (before: Text, u: Text, after: Text)
    requires PyIntText(t).Some?
    ensures t == before + u + after && Spaces(before) && Spaces(after) && u != [] && PyIntText(u) == PyIntText(t)
    ensures DropSpaceEnd(DropSpace(u)) == u
  {
    u := DropSpaceEnd(DropSpace(t));
    assert u != [];
    var none: Text := [];
    assert Spaces(none) && none + (u + none) == u;
    hide *;
    before := DropRead(t);
    after := DropEndRead(DropSpace(t));
    assert u[0] == DropSpace(t)[0];
    DropEndKept(DropSpace(t));
    Trims(none, u, none);
    Trimmed(t, u);
    assert t == before + u + after;
  }

  lemma IntegerRead(t: Text)
    requires PyIntText(t).Some?
    ensures exists before, sign, digits, after :: NumeralParts(t, PyIntText(t).value, before, sign, digits, after)
  {
    hide Spaces, Grouped, Positional, WithoutUnderscores, DropSpace, DropSpaceEnd, PyIntText;
    var before, u, after := TrimmedText(t);
    var sign, digits := SignOf(u);
    SignedExactly(u, sign, digits);
    assert t == before + sign + digits + after;
    assert NumeralParts(t, PyIntText(t).value, before, sign, digits, after);
  }

  lemma {:induction false} DropEndKept(t: Text)
    ensures DropSpaceEnd(t) != [] ==> !NumeralSpace(DropSpaceEnd(t)[|DropSpaceEnd(t)| - 1])
    decreases |t|
  {
    if t != [] && NumeralSpace(t[|t| - 1]) {
      DropEndKept(t[..|t| - 1]);
    }
  }

  /** The integer a rendered one is read back as. */
  lemma RenderedInteger(m: int)
    ensures PyIntText(IntText(m)) == Some(m)
  {
    IntTextSpelled(m);
    var t := IntText(m);
    var none: Text := [];
    var sign: Text := if m < 0 then [Mark('-')] else [];
    var digits := if m < 0 then t[1..] else t;
    NoUnderscores(digits);
    SignedText(m, t, sign, digits);
    hide IntText, Grouped, WithoutUnderscores, Positional, PyIntText;
    assert Spaces(none);
    assert NumeralParts(t, m, none, sign, digits, none);
    IntegerReads(t, m, none, sign, digits, none);
  }

  lemma SignedText(m: int, t: Text, sign: Text, digits: Text)
    requires t != [] && (m < 0 ==> t[0] == Mark('-')) && digits == (if m < 0 then t[1..] else t)
    requires sign == if m < 0 then [Mark('-')] else []
    ensures t == [] + sign + digits + []
  {
  }

  lemma {:induction false} NoUnderscores(t: Text)
    requires forall i :: 0 <= i < |t| ==> Mark('0') <= t[i] <= Mark('9')
    ensures WithoutUnderscores(t) == t && (t != [] ==> Grouped(t))
  {
    if t != [] {
      NoUnderscores(t[1..]);
    }
  }

  // ----- what replacing does, level by level

  /** What becomes of a whole value when a part of it is replaced. */
  function Within(part: Option<Tree>, whole: Tree -> Tree): Option<Tree> {
    match part
    case None => None
    case Some(c) => Some(whole(c))
  }

  /** The value a pointer's remaining tokens leave: the new one itself where none remains. */
  function Below(v: Tree, rest: seq<Text>, w: Tree): Option<Tree> {
    if rest == [] then Some(w) else Apply(v, Operation(rest, w))
  }

  lemma ApplyStep(v: Tree, token: Text, rest: seq<Text>, w: Tree)
    ensures Apply(v, Operation([token] + rest, w))
            == match StepOf(v, token)
               case None => None
               case Some(s) => Within(Below(Child(v, s), rest, w), c => SetChild(v, s, c))
  {
    hide PyIntText;
    var tokens := [token] + rest;
    assert tokens[1..] == rest;
    if StepOf(v, token).Some? {
      var s := StepOf(v, token).value;
      hide StepOf;
      if Resolve(Child(v, s), rest).Some? {
        var p := Resolve(Child(v, s), rest).value;
        var u := Update(Child(v, s), p, w);
        assert Resolve(v, tokens) == Some([s] + p);
        assert ([s] + p)[1..] == p;
        assert Update(v, [s] + p, w) == SetChild(v, s, u);
        assert Below(Child(v, s), rest, w) == Some(u);
      } else {
        assert rest != [] && Below(Child(v, s), rest, w) == None;
      }
    }
  }

  /**
    In a list, a token goes on from the item with its integer, counted from the front, or
    from the end where it is negative; any other integer, and any other token, fails.
   */
  lemma ItemAddressed(items: seq<Tree>, token: Text, rest: seq<Text>, w: Tree)
    ensures var n, r := PyIntText(token), Apply(List(items), Operation([token] + rest, w));
            if n.Some? && 0 <= n.value < |items| then
              r == Within(Below(items[n.value], rest, w), c => List(items[n.value := c]))
            else if n.Some? && -|items| <= n.value < 0 then
              r == Within(Below(items[|items| + n.value], rest, w), c => List(items[|items| + n.value := c]))
            else r == None
  {
    ApplyStep(List(items), token, rest, w);
    hide PyIntText, Apply, Below;
  }

  /** In a dict, a token goes on from the value under that key; in a scalar, nothing does. */
  lemma MemberAddressed(entries: map<Text, Tree>, token: Text, rest: seq<Text>, w: Tree, text: Text)
    ensures Apply(Dict(entries), Operation([token] + rest, w))
            == if token in entries then Within(Below(entries[token], rest, w), c => Dict(entries[token := c])) else None
    ensures Apply(Scalar(text), Operation([token] + rest, w)) == None
    ensures Apply(Scalar(text), Operation([], w)) == Apply(Dict(entries), Operation([], w)) == None
  {
    ApplyStep(Dict(entries), token, rest, w);
    ApplyStep(Scalar(text), token, rest, w);
    hide Below;
  }

  /** At the end of a longer pointer, the last token does to what stands there what it does alone. */
  lemma {:induction false} LastAddressed(v: Tree, tokens: seq<Text>, p: Path, x: Tree, token: Text, w: Tree)
    requires Resolve(v, tokens) == Some(p) && Read(v, p) == Some(x)
    ensures Apply(v, Operation(tokens + [token], w))
            == match Apply(x, Operation([token], w)) case None => None case Some(c) => Some(Update(v, p, c))
    decreases |tokens|
  {
    hide PyIntText;
    if tokens == [] {
      assert [] + [token] == [token];
    } else {
      var s := StepOf(v, tokens[0]).value;
      var rest := tokens[1..] + [token];
      assert tokens + [token] == [tokens[0]] + rest;
      assert p[1..] == Resolve(Child(v, s), tokens[1..]).value && p[0] == s;
      hide StepOf;
      LastAddressed(Child(v, s), tokens[1..], p[1..], x, token, w);
      ApplyStep(v, tokens[0], rest, w);
    }
  }

  /**
    Replacing at a list's item: the token with the decimal digits of k replaces item k,
    the one with those of -k item n - k, and every other item stays. The list may stand
    anywhere in the value.
   */
  lemma ItemReplaced(v: Tree, tokens: seq<Text>, items: seq<Tree>, k: int, w: Tree)
    requires Resolve(v, tokens).Some? && Read(v, Resolve(v, tokens).value) == Some(List(items))
    requires -|items| <= k < |items|
    ensures Apply(v, Operation(tokens + [IntText(k)], w))
            == Some(Update(v, Resolve(v, tokens).value, List(items[(if k < 0 then |items| + k else k) := w])))
  {
    hide Resolve, Update, Apply, Below, PyIntText, IntText, Read, HasPath;
    LastAddressed(v, tokens, Resolve(v, tokens).value, List(items), IntText(k), w);
    RenderedInteger(k);
    ItemAddressed(items, IntText(k), [], w);
    assert [IntText(k)] + [] == [IntText(k)];
    assert Below(items[if k < 0 then |items| + k else k], [], w) == Some(w) by { Finished(items[if k < 0 then |items| + k else k], w); }
  }

  lemma Finished(v: Tree, w: Tree)
    ensures Below(v, [], w) == Some(w)
  {
  }

  lemma MemberReplaced(v: Tree, tokens: seq<Text>, entries: map<Text, Tree>, key: Text, w: Tree)
    requires Resolve(v, tokens).Some? && Read(v, Resolve(v, tokens).value) == Some(Dict(entries)) && key in entries
    ensures Apply(v, Operation(tokens + [key], w)) == Some(Update(v, Resolve(v, tokens).value, Dict(entries[key := w])))
  {
    hide Resolve, Update, Apply, Below, PyIntText, IntText, Read, HasPath;
    LastAddressed(v, tokens, Resolve(v, tokens).value, Dict(entries), key, w);
    MemberAddressed(entries, key, [], w, []);
    assert [key] + [] == [key];
    Finished(entries[key], w);
  }

  /** Operations are applied one after the other, each to what the one before it left; none after one that fails. */
  lemma {:induction false} AppliedInOrder(v: Tree, ops: seq<Operation>, op: Operation)
    ensures ApplyAll(v, []) == Some(v)
    ensures ApplyAll(v, ops + [op]) == match ApplyAll(v, ops) case None => None case Some(u) => Apply(u, op)
    decreases |ops|
  {
    hide Apply;
    if ops == [] {
      assert [] + [op] == [op] && [op][1..] == [];
      assert ApplyAll(v, [op]) == match Apply(v, op) case None => None case Some(u) => ApplyAll(u, []);
    } else if Apply(v, ops[0]).Some? {
      assert (ops + [op])[1..] == ops[1..] + [op] && (ops + [op])[0] == ops[0];
      AppliedInOrder(Apply(v, ops[0]).value, ops[1..], op);
    } else {
      assert (ops + [op])[0] == ops[0];
    }
  }

  /** Without tokens nothing is replaced: the code raises. */
  lemma WholeNotReplaced(v: Tree, w: Tree)
    ensures Apply(v, Operation([], w)) == None
  {
  }

  // ----- the pointer's text

  /** An escape in a token: a tilde before a one is a slash, before a zero a tilde. */
  function Unescaped(t: Text): Text {
    if |t| >= 2 && t[0] == Mark('~') && t[1] == Mark('1') then [Mark('/')] + Unescaped(t[2..])
    else if |t| >= 2 && t[0] == Mark('~') && t[1] == Mark('0') then [Mark('~')] + Unescaped(t[2..])
    else if t == [] then []
    else [t[0]] + Unescaped(t[1..])
  }

  lemma {:induction false} UnescapedIs(t: Text)
    ensures Unescape(t) == Unescaped(t)
  {
    UnescapeIsDecode(t);
    DecodeSpelled(t);
  }

  lemma {:induction false} DecodeSpelled(t: Text)
    ensures Decode(t) == Unescaped(t)
    decreases |t|
  {
    if |t| >= 2 && t[0] == Mark('~') && (t[1] == Mark('1') || t[1] == Mark('0')) {
      DecodeSpelled(t[2..]);
    } else if t != [] {
      DecodeSpelled(t[1..]);
    }
  }

  ghost predicate WithoutSlash(t: Text) {
    forall i :: 0 <= i < |t| ==> t[i] != Mark('/')
  }

  lemma {:induction false} SplitSpelled(t: Text)
    ensures JoinedBy([Mark('/')], Split(t)) == t
    ensures forall i :: 0 <= i < |Split(t)| ==> WithoutSlash(Split(t)[i])
  {
    var parts := Split(t);
    if t != [] {
      var rest := Split(t[1..]);
      SplitSpelled(t[1..]);
      assert t == [t[0]] + t[1..];
      if t[0] == Mark('/') {
        var empty: Text := [];
        assert parts == [empty] + rest && parts[1..] == rest;
        assert JoinedBy([Mark('/')], parts) == empty + [Mark('/')] + JoinedBy([Mark('/')], rest);
      } else {
        assert parts == [[t[0]] + rest[0]] + rest[1..] && parts[1..] == rest[1..];
        HeadJoined(t[0], rest);
      }
    }
  }

  lemma HeadJoined(c: Code, rest: seq<Text>)
    requires rest != []
    ensures JoinedBy([Mark('/')], [[c] + rest[0]] + rest[1..]) == [c] + JoinedBy([Mark('/')], rest)
  {
    var parts := [[c] + rest[0]] + rest[1..];
    assert parts[1..] == rest[1..];
  }

  /** A pointer's tokens are the parts of its text between slashes, after the first one, each unescaped. */
  lemma TokensSpelled(path: Text) returns (parts: seq<Text>)
    ensures parts != [] && path == JoinedBy([Mark('/')], parts)
    ensures forall i :: 0 <= i < |parts| ==> WithoutSlash(parts[i])
    ensures |Tokens(path)| == |parts| - 1
    ensures forall i :: 1 <= i < |parts| ==> Tokens(path)[i - 1] == Unescaped(parts[i])
  {
    parts := Split(path);
    SplitSpelled(path);
    UnescapeEach(parts[1..]);
  }

  lemma {:induction false} UnescapeEach(ts: seq<Text>)
    ensures |UnescapeAll(ts)| == |ts| && forall i :: 0 <= i < |ts| ==> UnescapeAll(ts)[i] == Unescaped(ts[i])
  {
    if ts != [] {
      UnescapedIs(ts[0]);
      UnescapeEach(ts[1..]);
    }
  }
}
