/**
  The concrete syntax of JSON (sections 2 to 7 of RFC 8259, with the three extra constants
  of Python's decoder), written out character by character: what a piece of syntax looks
  like as text, and what it means. Nothing here is shared with the decoder or the printer.
 */
module JsonSyntax {
  import opened Texts
  import opened Numerals
  import opened JsonValues

  /** The marks the decoder and the printer use are these. */
  lemma MarksAre()
    ensures QUOTE == Mark('"') && LBRACE == Mark('{') && RBRACE == Mark('}') && LBRACKET == Mark('[') && RBRACKET == Mark(']')
    ensures COLON == Mark(':') && COMMA == Mark(',')
  {
  }

  // ----- string literals

  /** A character as such, a two-character escape by its letter, four hexadecimal digits, or a pair of such escapes. */
  datatype Unit = Plain(c: Code) | Short(letter: char) | Hex(digits: Text) | Pair(high: Text, low: Text)

  predicate HexLetter(c: Code) {
    Mark('0') <= c <= Mark('9') || Mark('a') <= c <= Mark('f') || Mark('A') <= c <= Mark('F')
  }

  function HexPlace(c: Code): (d: int)
    requires HexLetter(c)
    ensures 0 <= d < 16
  {
    if c <= Mark('9') then c as int - '0' as int
    else if c <= Mark('F') then c as int - 'A' as int + 10
    else c as int - 'a' as int + 10
  }

  predicate FourHex(t: Text) {
    |t| == 4 && HexLetter(t[0]) && HexLetter(t[1]) && HexLetter(t[2]) && HexLetter(t[3])
  }

  function HexNumber(t: Text): (n: int)
    requires FourHex(t)
    ensures 0 <= n < 0x1_0000
  {
    0x1000 * HexPlace(t[0]) + 0x100 * HexPlace(t[1]) + 0x10 * HexPlace(t[2]) + HexPlace(t[3])
  }

  function UnitText(u: Unit): Text {
    match u
    case Plain(c) => [c]
    case Short(letter) => if letter as int < 128 then [Mark('\\'), Mark(letter)] else []
    case Hex(digits) => [Mark('\\'), Mark('u')] + digits
    case Pair(high, low) => [Mark('\\'), Mark('u')] + high + [Mark('\\'), Mark('u')] + low
  }

  predicate UnitOk(u: Unit) {
    match u
    case Plain(c) => c as int >= 32 && c != Mark('"') && c != Mark('\\')
    case Short(letter) => letter in {'"', '\\', '/', 'b', 'f', 'n', 'r', 't'}
    case Hex(digits) => FourHex(digits)
    case Pair(high, low) =>
      && FourHex(high) && 0xD800 <= HexNumber(high) <= 0xDBFF
      && FourHex(low) && 0xDC00 <= HexNumber(low) <= 0xDFFF
  }

  function UnitCode(u: Unit): Code
    requires UnitOk(u)
  {
    match u
    case Plain(c) => c
    case Short(letter) =>
      (match letter
       case 'b' => 8
       case 't' => 9
       case 'n' => 10
       case 'f' => 12
       case 'r' => 13
       case _ => Mark(letter))
    case Hex(digits) => HexNumber(digits) as Code
    case Pair(high, low) => (0x1_0000 + (HexNumber(high) - 0xD800) * 1024 + (HexNumber(low) - 0xDC00)) as Code
  }

  /** An escaped high surrogate directly before an escaped low one is always read as a pair. */
  predicate Torn(u: Unit, v: Unit) {
    && u.Hex? && FourHex(u.digits) && 0xD800 <= HexNumber(u.digits) <= 0xDBFF
    && v.Hex? && FourHex(v.digits) && 0xDC00 <= HexNumber(v.digits) <= 0xDFFF
  }

  predicate UnitsOk(us: seq<Unit>) {
    us == [] || (UnitOk(us[0]) && (|us| > 1 ==> !Torn(us[0], us[1])) && UnitsOk(us[1..]))
  }

  function UnitsText(us: seq<Unit>): Text {
    if us == [] then [] else UnitText(us[0]) + UnitsText(us[1..])
  }

  function UnitsCodes(us: seq<Unit>): Text
    requires UnitsOk(us)
  {
    if us == [] then [] else [UnitCode(us[0])] + UnitsCodes(us[1..])
  }

  // ----- numbers

  predicate Decimals(t: Text) {
    forall i :: 0 <= i < |t| ==> Mark('0') <= t[i] <= Mark('9')
  }

  /** Zero, or digits that do not begin with it. */
  predicate WholePart(t: Text) {
    Decimals(t) && t != [] && (t[0] == Mark('0') ==> |t| == 1)
  }

  predicate FractionPart(t: Text) {
    t == [] || (t[0] == Mark('.') && |t| > 1 && Decimals(t[1..]))
  }

  predicate ExponentPart(t: Text) {
    || t == []
    || ((t[0] == Mark('e') || t[0] == Mark('E'))
        && (|| (|t| > 1 && Decimals(t[1..]))
            || (|t| > 2 && (t[1] == Mark('+') || t[1] == Mark('-')) && Decimals(t[2..]))))
  }

  // ----- values

  datatype Syntax =
    | Word(word: string)
    | Number(negative: bool, whole: Text, fraction: Text, exponent: Text)
    | Quoted(units: seq<Unit>)
    | Array(blank: Text, items: seq<Item>)
    | Object(blank: Text, members: seq<Member>)

  datatype Item = Item(before: Text, value: Syntax, after: Text)
  datatype Member = Member(before: Text, key: seq<Unit>, afterKey: Text, beforeValue: Text, value: Syntax, after: Text)

  predicate Blanks(t: Text) {
    forall i :: 0 <= i < |t| ==> t[i] == Mark(' ') || t[i] == Mark('\t') || t[i] == Mark('\n') || t[i] == Mark('\r')
  }

  function NumberText(negative: bool, whole: Text, fraction: Text, exponent: Text): Text {
    (if negative then [Mark('-')] else []) + whole + fraction + exponent
  }

  function TextOf(s: Syntax): Text
    decreases s, 0
  {
    match s
    case Word(word) => Ascii(word)
    case Number(negative, whole, fraction, exponent) => NumberText(negative, whole, fraction, exponent)
    case Quoted(units) => [Mark('"')] + UnitsText(units) + [Mark('"')]
    case Array(blank, items) => [Mark('[')] + (if items == [] then blank else ItemsText(items)) + [Mark(']')]
    case Object(blank, members) => [Mark('{')] + (if members == [] then blank else MembersText(members)) + [Mark('}')]
  }

  function ItemsText(items: seq<Item>): Text
    requires items != []
    decreases items, 1
  {
    items[0].before + TextOf(items[0].value) + items[0].after
    + if |items| == 1 then [] else [Mark(',')] + ItemsText(items[1..])
  }

  function MembersText(members: seq<Member>): Text
    requires members != []
    decreases members, 1
  {
    var m := members[0];
    m.before + [Mark('"')] + UnitsText(m.key) + [Mark('"')] + m.afterKey + [Mark(':')] + m.beforeValue
    + TextOf(m.value) + m.after + if |members| == 1 then [] else [Mark(',')] + MembersText(members[1..])
  }

  predicate Wellformed(s: Syntax)
    decreases s, 0
  {
    match s
    case Word(word) => word in {"null", "true", "false", "NaN", "Infinity", "-Infinity"}
    case Number(_, whole, fraction, exponent) => WholePart(whole) && FractionPart(fraction) && ExponentPart(exponent)
    case Quoted(units) => UnitsOk(units)
    case Array(blank, items) => Blanks(blank) && ItemsOk(items)
    case Object(blank, members) => Blanks(blank) && MembersOk(members)
  }

  predicate ItemsOk(items: seq<Item>)
    decreases items, 1
  {
    items == [] ||
    (Blanks(items[0].before) && Wellformed(items[0].value) && Blanks(items[0].after) && ItemsOk(items[1..]))
  }

  predicate MembersOk(members: seq<Member>)
    decreases members, 1
  {
    members == [] ||
    (var m := members[0];
     && Blanks(m.before) && UnitsOk(m.key) && Blanks(m.afterKey) && Blanks(m.beforeValue)
     && Wellformed(m.value) && Blanks(m.after) && MembersOk(members[1..]))
  }

  /** A number without fraction and exponent is an integer, any other stays the text it is. */
  function NumberMeaning(negative: bool, whole: Text, fraction: Text, exponent: Text): Json
    requires Decimals(whole)
  {
    if fraction == [] && exponent == [] then
      var magnitude: int := Positional(whole);
      Int(if negative then -magnitude else magnitude)
    else Real(NumberText(negative, whole, fraction, exponent))
  }

  function Meaning(s: Syntax): Json
    requires Wellformed(s)
    decreases s, 0
  {
    match s
    case Word(word) =>
      (match word
       case "null" => Null
       case "true" => Bool(true)
       case "false" => Bool(false)
       case _ => Real(Ascii(word)))
    case Number(negative, whole, fraction, exponent) => NumberMeaning(negative, whole, fraction, exponent)
    case Quoted(units) => Str(UnitsCodes(units))
    case Array(_, items) => Arr(ItemsMeaning(items))
    case Object(_, members) => Obj(MembersMeaning(members))
  }

  function ItemsMeaning(items: seq<Item>): (v: seq<Json>)
    requires ItemsOk(items)
    ensures |v| == |items|
    decreases items, 1
  {
    if items == [] then [] else [Meaning(items[0].value)] + ItemsMeaning(items[1..])
  }

  function MembersMeaning(members: seq<Member>): (f: Fields)
    requires MembersOk(members)
    ensures |f| == |members|
    decreases members, 1
  {
    if members == [] then []
    else [Field(UnitsCodes(members[0].key), Meaning(members[0].value))] + MembersMeaning(members[1..])
  }

  /** No other number reaches further into the text. */
  ghost predicate Longest(s: Syntax, t: Text) {
    forall n: Syntax :: n.Number? && Wellformed(n) && TextOf(n) <= t ==> |TextOf(n)| <= |TextOf(s)|
  }
}
