/** Pointer text as the negative cases use it: split, two-pass unescape, and back (sections 3 and 4 of RFC 6901). */
module JsonPointer {
  import opened Texts

  const SLASH: Code := 0x2F
  const TILDE: Code := 0x7E
  const DIGIT0: Code := 0x30
  const DIGIT1: Code := 0x31

  /** str.replace of the two-character text a b by one character. */
  function ReplacePair(t: Text, a: Code, b: Code, c: Code): Text {
    if |t| >= 2 && t[0] == a && t[1] == b then [c] + ReplacePair(t[2..], a, b, c)
    else if t == [] then []
    else [t[0]] + ReplacePair(t[1..], a, b, c)
  }

  /** token.replace("~1", "/").replace("~0", "~"). */
  function Unescape(t: Text): Text {
    ReplacePair(ReplacePair(t, TILDE, DIGIT1, SLASH), TILDE, DIGIT0, TILDE)
  }

  /** What section 4 of RFC 6901 asks for: one reading, each escape decoded where it stands. */
  function Decode(t: Text): Text {
    if |t| >= 2 && t[0] == TILDE && t[1] == DIGIT1 then [SLASH] + Decode(t[2..])
    else if |t| >= 2 && t[0] == TILDE && t[1] == DIGIT0 then [TILDE] + Decode(t[2..])
    else if t == [] then []
    else [t[0]] + Decode(t[1..])
  }

  /** str.replace of one character by a text. */
  function ReplaceChar(t: Text, a: Code, u: Text): Text {
    if t == [] then [] else (if t[0] == a then u else [t[0]]) + ReplaceChar(t[1..], a, u)
  }

  /** The tilde first, then the slash: the other order would escape its own output. */
  function Escape(t: Text): Text {
    ReplaceChar(ReplaceChar(t, TILDE, [TILDE, DIGIT0]), SLASH, [TILDE, DIGIT1])
  }

  /** str.split on the slash. */
  function Split(t: Text): (r: seq<Text>)
    ensures r != []
  {
    if t == [] then [[]]
    else
      var rest := Split(t[1..]);
      if t[0] == SLASH then [[]] + rest else [[t[0]] + rest[0]] + rest[1..]
  }

  function UnescapeAll(ts: seq<Text>): seq<Text> {
    if ts == [] then [] else [Unescape(ts[0])] + UnescapeAll(ts[1..])
  }

  /** [unescape(token) for token in path.split("/")[1:]]. */
  function Tokens(path: Text): seq<Text> {
    UnescapeAll(Split(path)[1..])
  }

  function Pointer(tokens: seq<Text>): Text {
    if tokens == [] then [] else [SLASH] + Escape(tokens[0]) + Pointer(tokens[1..])
  }

  // ----- two passes read like one

  lemma {:induction false} UnescapeIsDecode(t: Text)
    ensures Unescape(t) == Decode(t)
  {
    if |t| >= 2 && t[0] == TILDE && t[1] == DIGIT1 {
      UnescapeIsDecode(t[2..]);
      var u := ReplacePair(t[2..], TILDE, DIGIT1, SLASH);
      SecondPassKeeps(SLASH, u);
    } else if |t| >= 2 && t[0] == TILDE && t[1] == DIGIT0 {
      UnescapeIsDecode(t[2..]);
      FirstPassKeepsPair(t);
      SecondPassDecodes(ReplacePair(t[2..], TILDE, DIGIT1, SLASH));
    } else if t != [] {
      UnescapeIsDecode(t[1..]);
      var u := ReplacePair(t[1..], TILDE, DIGIT1, SLASH);
      FirstPassHead(t[1..]);
      SecondPassHead(t[0], u);
    }
  }

  lemma SecondPassKeeps(c: Code, u: Text)
    requires c != TILDE
    ensures ReplacePair([c] + u, TILDE, DIGIT0, TILDE) == [c] + ReplacePair(u, TILDE, DIGIT0, TILDE)
  {
    assert ([c] + u)[1..] == u;
  }

  lemma SecondPassHead(c: Code, u: Text)
    requires c == TILDE && u != [] ==> u[0] != DIGIT0
    ensures ReplacePair([c] + u, TILDE, DIGIT0, TILDE) == [c] + ReplacePair(u, TILDE, DIGIT0, TILDE)
  {
    assert ([c] + u)[1..] == u;
  }

  lemma FirstPassKeepsPair(t: Text)
    requires |t| >= 2 && t[0] == TILDE && t[1] == DIGIT0
    ensures ReplacePair(t, TILDE, DIGIT1, SLASH) == [TILDE, DIGIT0] + ReplacePair(t[2..], TILDE, DIGIT1, SLASH)
  {
    hide *;
    var u := t[1..];
    assert u[0] == t[1] && u[1..] == t[2..];
    KeepsDigit();
    PassOver(t);
    PassOver(u);
    Prepend(t[0], u[0], ReplacePair(t[2..], TILDE, DIGIT1, SLASH));
  }

  lemma KeepsDigit()
    ensures DIGIT0 != DIGIT1 && DIGIT0 != TILDE
  {
  }

  lemma Prepend(a: Code, b: Code, x: Text)
    ensures [a] + ([b] + x) == [a, b] + x
  {
  }

  lemma PassOver(t: Text)
    requires t != [] && (t[0] == TILDE ==> |t| < 2 || t[1] != DIGIT1)
    ensures ReplacePair(t, TILDE, DIGIT1, SLASH) == [t[0]] + ReplacePair(t[1..], TILDE, DIGIT1, SLASH)
  {
  }

  lemma SecondPassDecodes(u: Text)
    ensures ReplacePair([TILDE, DIGIT0] + u, TILDE, DIGIT0, TILDE) == [TILDE] + ReplacePair(u, TILDE, DIGIT0, TILDE)
  {
    assert ([TILDE, DIGIT0] + u)[2..] == u;
  }

  /** The first pass can only put a slash at the front of a text, never the digit the second pass looks for. */
  lemma FirstPassHead(t: Text)
    ensures var u := ReplacePair(t, TILDE, DIGIT1, SLASH); u != [] && u[0] == DIGIT0 ==> t != [] && t[0] == DIGIT0
  {
  }

  // ----- round trip

  function EscapeCode(c: Code): (t: Text)
    ensures t != []
  {
    if c == TILDE then [TILDE, DIGIT0] else if c == SLASH then [TILDE, DIGIT1] else [c]
  }

  lemma {:induction false} EscapeStep(t: Text)
    requires t != []
    ensures Escape(t) == EscapeCode(t[0]) + Escape(t[1..])
  {
    var rest := ReplaceChar(t[1..], TILDE, [TILDE, DIGIT0]);
    if t[0] == TILDE {
      assert ([TILDE, DIGIT0] + rest)[1..] == [DIGIT0] + rest;
      assert ([DIGIT0] + rest)[1..] == rest;
      assert ReplaceChar([DIGIT0] + rest, SLASH, [TILDE, DIGIT1]) == [DIGIT0] + ReplaceChar(rest, SLASH, [TILDE, DIGIT1]);
    } else {
      assert ([t[0]] + rest)[1..] == rest;
    }
  }

  lemma {:induction false} DecodeEscape(t: Text)
    ensures Decode(Escape(t)) == t
  {
    if t != [] {
      EscapeStep(t);
      DecodeEscape(t[1..]);
      var e := Escape(t[1..]);
      assert (EscapeCode(t[0]) + e)[|EscapeCode(t[0])|..] == e;
      assert t == [t[0]] + t[1..];
    }
  }

  lemma {:induction false} NoSlash(t: Text)
    ensures SLASH !in Escape(t)
  {
    if t != [] {
      EscapeStep(t);
      NoSlash(t[1..]);
    }
  }

  /** Splitting at the first slash. */
  lemma {:induction false} SplitPiece(piece: Text, rest: Text)
    requires SLASH !in piece && (rest != [] ==> rest[0] == SLASH)
    ensures Split(piece + rest) == [piece] + Split(rest)[1..]
  {
    if piece == [] {
      assert piece + rest == rest;
    } else {
      SplitPiece(piece[1..], rest);
      assert (piece + rest)[1..] == piece[1..] + rest;
      assert [piece[0]] + piece[1..] == piece;
    }
  }

  lemma SplitSlash(piece: Text, rest: Text)
    requires SLASH !in piece && (rest != [] ==> rest[0] == SLASH)
    ensures Split([SLASH] + piece + rest) == [[]] + ([piece] + Split(rest)[1..])
  {
    hide Split;
    SplitPiece(piece, rest);
    assert ([SLASH] + piece + rest)[1..] == piece + rest;
    SplitAt([SLASH] + piece + rest);
  }

  lemma SplitAt(t: Text)
    requires t != []
    ensures Split(t) == if t[0] == SLASH then [[]] + Split(t[1..]) else [[t[0]] + Split(t[1..])[0]] + Split(t[1..])[1..]
  {
  }

  lemma {:induction false} UnescapeConcat(ts: seq<Text>, t: Text)
    ensures UnescapeAll([t] + ts) == [Unescape(t)] + UnescapeAll(ts)
  {
    assert ([t] + ts)[1..] == ts;
  }

  /** Any list of tokens, of any strings, survives being written as a pointer and read by the code. */
  lemma {:induction false} TokensRoundTrip(tokens: seq<Text>)
    ensures Tokens(Pointer(tokens)) == tokens
  {
    if tokens != [] {
      var rest := Pointer(tokens[1..]);
      TokensRoundTrip(tokens[1..]);
      NoSlash(tokens[0]);
      SplitSlash(Escape(tokens[0]), rest);
      assert Split(Pointer(tokens))[1..] == [Escape(tokens[0])] + Split(rest)[1..];
      UnescapeConcat(Split(rest)[1..], Escape(tokens[0]));
      UnescapeIsDecode(Escape(tokens[0]));
      DecodeEscape(tokens[0]);
      assert tokens == [tokens[0]] + tokens[1..];
    } else {
      assert Split([])[1..] == [];
    }
  }

  // ----- which paths are exactly the pointers of RFC 6901

  /** A reference token: no slash, and every tilde starts an escape. */
  predicate TokenSyntax(t: Text) {
    t == [] ||
    if t[0] == TILDE then |t| >= 2 && t[1] in {DIGIT0, DIGIT1} && TokenSyntax(t[2..])
    else t[0] != SLASH && TokenSyntax(t[1..])
  }

  predicate PointerSyntax(path: Text) {
    path == [] || (path[0] == SLASH && forall i :: 1 <= i < |Split(path)| ==> TokenSyntax(Split(path)[i]))
  }

  lemma {:induction false} EscapeDecode(t: Text)
    requires SLASH !in t
    ensures Escape(Decode(t)) == t <==> TokenSyntax(t)
  {
    if t != [] {
      if |t| >= 2 && t[0] == TILDE && t[1] in {DIGIT0, DIGIT1} {
        assert SLASH !in t[2..];
        EscapeDecode(t[2..]);
        EscapeStep(Decode(t));
        assert Decode(t)[1..] == Decode(t[2..]);
        assert t == t[..2] + t[2..] && t[..2] == EscapeCode(Decode(t)[0]);
        if Escape(Decode(t)) == t { assert Escape(Decode(t[2..])) == Escape(Decode(t))[2..]; }
      } else {
        assert SLASH !in t[1..];
        EscapeDecode(t[1..]);
        EscapeStep(Decode(t));
        assert Decode(t) == [t[0]] + Decode(t[1..]);
        assert t == [t[0]] + t[1..];
        if t[0] == TILDE {
          assert Escape(Decode(t))[1] == DIGIT0 || |Escape(Decode(t))| < 2;
        } else if Escape(Decode(t)) == t {
          assert Escape(Decode(t[1..])) == Escape(Decode(t))[1..];
        }
      }
    }
  }

  /** The text the split pieces came from. */
  function JoinSlash(pieces: seq<Text>): Text {
    if pieces == [] then [] else [SLASH] + pieces[0] + JoinSlash(pieces[1..])
  }

  lemma {:induction false} SplitJoins(t: Text)
    ensures t == Split(t)[0] + JoinSlash(Split(t)[1..])
    ensures forall i :: 0 <= i < |Split(t)| ==> SLASH !in Split(t)[i]
  {
    hide Split;
    if t == [] {
      EmptySplit();
    } else {
      SplitJoins(t[1..]);
      SplitAt(t);
      var rest := Split(t[1..]);
      if t[0] == SLASH {
        assert Split(t)[1..] == rest;
        assert rest == [rest[0]] + rest[1..];
      } else {
        assert Split(t)[1..] == rest[1..];
      }
    }
  }

  lemma EmptySplit()
    ensures Split([]) == [[]]
  {
  }

  lemma {:induction false} PiecesRewrite(pieces: seq<Text>)
    requires forall i :: 0 <= i < |pieces| ==> SLASH !in pieces[i]
    ensures Pointer(UnescapeAll(pieces)) == JoinSlash(pieces) <==> forall i :: 0 <= i < |pieces| ==> TokenSyntax(pieces[i])
  {
    if pieces != [] {
      var p := pieces[0];
      PiecesRewrite(pieces[1..]);
      UnescapeIsDecode(p);
      EscapeDecode(p);
      NoSlash(Decode(p));
      var tail, joined := Pointer(UnescapeAll(pieces[1..])), JoinSlash(pieces[1..]);
      assert UnescapeAll(pieces)[1..] == UnescapeAll(pieces[1..]);
      assert Pointer(UnescapeAll(pieces)) == [SLASH] + Escape(Decode(p)) + tail;
      SamePieces(Escape(Decode(p)), tail, p, joined);
      assert (forall i :: 0 <= i < |pieces| ==> TokenSyntax(pieces[i])) <==>
             TokenSyntax(p) && (forall i :: 0 <= i < |pieces[1..]| ==> TokenSyntax(pieces[1..][i])) by {
        forall i | 0 <= i < |pieces| ensures pieces[i] == if i == 0 then p else pieces[1..][i - 1] {}
      }
    }
  }

  lemma {:induction false} SamePieces(a: Text, x: Text, b: Text, y: Text)
    requires SLASH !in a && SLASH !in b
    requires (x != [] ==> x[0] == SLASH) && (y != [] ==> y[0] == SLASH)
    ensures [SLASH] + a + x == [SLASH] + b + y <==> a == b && x == y
  {
    hide Split;
    if [SLASH] + a + x == [SLASH] + b + y {
      assert a + x == ([SLASH] + a + x)[1..] == ([SLASH] + b + y)[1..] == b + y;
      SplitPiece(a, x);
      SplitPiece(b, y);
      assert Split(a + x)[0] == a && Split(b + y)[0] == b;
      assert x == (a + x)[|a|..] && y == (b + y)[|b|..];
    }
  }

  /** Writing back what was read gives the path itself exactly for the paths RFC 6901 allows. */
  lemma RewriteIsPointerSyntax(path: Text)
    ensures Pointer(Tokens(path)) == path <==> PointerSyntax(path)
  {
    var pieces := Split(path);
    SplitJoins(path);
    var rest := pieces[1..];
    PiecesRewrite(rest);
    assert (forall i :: 0 <= i < |rest| ==> TokenSyntax(rest[i])) <==> (forall i :: 1 <= i < |pieces| ==> TokenSyntax(pieces[i])) by {
      forall i | 0 <= i < |rest| ensures rest[i] == pieces[i + 1] {}
      forall i | 1 <= i < |pieces| ensures pieces[i] == rest[i - 1] {}
    }
    PointerHead(Tokens(path));
    if path != [] && path[0] == SLASH {
      assert pieces[0] == [];
      assert path == JoinSlash(rest);
    }
  }

  lemma PointerHead(tokens: seq<Text>)
    ensures Pointer(tokens) != [] ==> Pointer(tokens)[0] == SLASH
  {
  }
}
