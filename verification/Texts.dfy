/**
  Python text. A Python string is a sequence of code points and, unlike a Dafny
  string, may hold surrogates, so text is modelled as a sequence of integers.
 */
module Texts {
  newtype Code = c: int | 0 <= c < 0x11_0000
  type Text = seq<Code>

  const QUOTE: Code := 0x22
  const BACKSLASH: Code := 0x5C
  const LBRACE: Code := 0x7B
  const RBRACE: Code := 0x7D
  const LBRACKET: Code := 0x5B
  const RBRACKET: Code := 0x5D
  const COLON: Code := 0x3A
  const COMMA: Code := 0x2C
  const SPACE: Code := 0x20
  const NEWLINE: Code := 0x0A

  /** The code points of an ASCII literal. */
  function Ascii(s: string): (t: Text)
    ensures |t| == |s| && NoSurrogate(t)
    ensures forall i :: 0 <= i < |s| ==> t[i] == s[i] as int as Code
  {
    seq(|s|, i requires 0 <= i < |s| => s[i] as int as Code)
  }

  /** The code point of an ASCII character. */
  function Mark(c: char): (m: Code)
    requires c as int < 128
    ensures m as int == c as int
  {
    c as int as Code
  }

  /** Parts with a separator between them. */
  function JoinedBy(separator: Text, parts: seq<Text>): Text {
    if parts == [] then []
    else if |parts| == 1 then parts[0]
    else parts[0] + separator + JoinedBy(separator, parts[1..])
  }

  predicate High(c: Code) { 0xD800 <= c < 0xDC00 }
  predicate Low(c: Code) { 0xDC00 <= c < 0xE000 }
  predicate Surrogate(c: Code) { 0xD800 <= c < 0xE000 }
  predicate Printable(c: Code) { 0x20 <= c <= 0x7E }
  predicate Digit(c: Code) { 0x30 <= c <= 0x39 }

  predicate NoSurrogate(t: Text) {
    forall i :: 0 <= i < |t| ==> !Surrogate(t[i])
  }

  /** Text decoded from UTF-8: it cannot hold a surrogate. */
  type PlainText = t: Text | NoSurrogate(t)

  /** No high surrogate directly before a low one. */
  predicate NoSplit(t: Text) {
    forall i :: 0 < i < |t| ==> !(High(t[i - 1]) && Low(t[i]))
  }

  lemma PlainNoSplit(t: Text)
    requires NoSurrogate(t)
    ensures NoSplit(t)
  {
  }

  predicate PrintableText(t: Text) {
    forall i :: 0 <= i < |t| ==> Printable(t[i])
  }

  /** Whitespace of the JSON grammar (section 2 of RFC 8259). */
  predicate Blank(c: Code) {
    c == SPACE || c == 0x09 || c == NEWLINE || c == 0x0D
  }

  /** Whitespace in the sense of Python's str.strip and str.split. */
  predicate White(c: Code) {
    || 0x09 <= c <= 0x0D || 0x1C <= c <= 0x20 || c == 0x85 || c == 0xA0 || c == 0x1680
    || 0x2000 <= c <= 0x200A || c == 0x2028 || c == 0x2029 || c == 0x202F || c == 0x205F || c == 0x3000
  }

  predicate AllWhite(t: Text) {
    forall i :: 0 <= i < |t| ==> White(t[i])
  }

  /** str.lstrip, str.rstrip and str.strip. */
  function DropWhite(t: Text): (r: Text)
    ensures |r| <= |t| && (r != [] ==> !White(r[0]))
    ensures NoSurrogate(t) ==> NoSurrogate(r)
  {
    if t != [] && White(t[0]) then
      assert NoSurrogate(t) ==> NoSurrogate(t[1..]);
      DropWhite(t[1..])
    else t
  }

  function DropWhiteEnd(t: Text): Text {
    if t != [] && White(t[|t| - 1]) then DropWhiteEnd(t[..|t| - 1]) else t
  }

  function Strip(t: Text): Text {
    DropWhiteEnd(DropWhite(t))
  }

  /** The surrogate pair of a code point beyond the basic plane, and back. */
  function HighHalf(c: Code): (h: Code)
    requires c >= 0x1_0000
    ensures High(h)
  {
    0xD800 + (c - 0x1_0000) / 0x400
  }

  function LowHalf(c: Code): (l: Code)
    requires c >= 0x1_0000
    ensures Low(l)
  {
    0xDC00 + (c - 0x1_0000) % 0x400
  }

  function Join(h: Code, l: Code): (c: Code)
    requires High(h) && Low(l)
    ensures c >= 0x1_0000 && HighHalf(c) == h && LowHalf(c) == l
  {
    0x1_0000 + (h - 0xD800) * 0x400 + (l - 0xDC00)
  }

  /** Joins every adjacent surrogate pair, as decoding UTF-16 would. */
  function Fuse(t: Text): Text {
    if t == [] then []
    else if |t| > 1 && High(t[0]) && Low(t[1]) then [Join(t[0], t[1])] + Fuse(t[2..])
    else [t[0]] + Fuse(t[1..])
  }

  lemma {:induction false} FuseNoSplit(t: Text)
    requires NoSplit(t)
    ensures Fuse(t) == t
  {
    if t != [] {
      if |t| > 1 {
        assert !(High(t[1 - 1]) && Low(t[1]));
      }
      FuseNoSplit(t[1..]);
    }
  }

  /** Strict code point order, the order of Python's str comparison. */
  predicate Less(a: Text, b: Text) {
    b != [] && (a == [] || a[0] < b[0] || (a[0] == b[0] && Less(a[1..], b[1..])))
  }

  lemma {:induction false} LessTotal(a: Text, b: Text)
    ensures a == b || Less(a, b) || Less(b, a)
  {
    if a != [] && b != [] && a[0] == b[0] {
      LessTotal(a[1..], b[1..]);
      assert a == [a[0]] + a[1..] && b == [b[0]] + b[1..];
    }
  }

  lemma {:induction false} LessAsymmetric(a: Text, b: Text)
    requires Less(a, b)
    ensures !Less(b, a) && a != b
  {
    if a != [] && a[0] == b[0] {
      LessAsymmetric(a[1..], b[1..]);
    }
  }

  lemma {:induction false} LessTransitive(a: Text, b: Text, c: Text)
    requires Less(a, b) && Less(b, c)
    ensures Less(a, c)
  {
    if a != [] && a[0] == b[0] && b[0] == c[0] {
      LessTransitive(a[1..], b[1..], c[1..]);
    }
  }
}
