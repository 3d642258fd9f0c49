/**
  json.JSONDecoder: the grammar of RFC 8259, sections 2 to 7, with Python's three
  extra constants. Parsers work on the text from the current position on and return
  what is left, so the end index of raw_decode is the length consumed.
 */
module JsonDecoder {
  import opened Options
  import opened Texts
  import opened Numerals
  import opened JsonValues
  import opened JsonPrinter

  datatype Parsed<+T> = Fail | Ok(value: T, rest: Text)

  function Skip(t: Text): (r: Text)
    ensures |r| <= |t|
    ensures r != [] ==> !Blank(r[0])
  {
    if t != [] && Blank(t[0]) then Skip(t[1..]) else t
  }

  predicate StartsWith(t: Text, word: Text) {
    |word| <= |t| && t[..|word|] == word
  }

  predicate IsHex(c: Code) {
    Digit(c) || 0x41 <= c <= 0x46 || 0x61 <= c <= 0x66
  }

  function HexValue(c: Code): (v: Code)
    requires IsHex(c)
    ensures v < 16
  {
    if Digit(c) then c - 0x30 else if c <= 0x46 then c - 0x37 else c - 0x57
  }

  predicate HasHex4(t: Text) {
    |t| >= 4 && IsHex(t[0]) && IsHex(t[1]) && IsHex(t[2]) && IsHex(t[3])
  }

  function Hex4Value(t: Text): (v: Code)
    requires HasHex4(t)
    ensures v < 0x1_0000
  {
    ((HexValue(t[0]) * 16 + HexValue(t[1])) * 16 + HexValue(t[2])) * 16 + HexValue(t[3])
  }

  predicate StartsEscapeU(t: Text) {
    |t| >= 2 && t[0] == BACKSLASH && t[1] == LETTER_U
  }

  /** The code point of a two-character escape by its letter. */
  function ShortUnescape(e: Code): Option<Code> {
    if e == QUOTE || e == BACKSLASH || e == 0x2F then Some(e)
    else if e == 0x62 then Some(0x08)
    else if e == 0x66 then Some(0x0C)
    else if e == 0x6E then Some(0x0A)
    else if e == 0x72 then Some(0x0D)
    else if e == 0x74 then Some(0x09)
    else None
  }

  /** One code point of a string literal and the number of characters it took. */
  function ReadChar(t: Text): (r: Option<(Code, nat)>)
    ensures r.Some? ==> 0 < r.value.1 <= |t|
  {
    if t == [] || t[0] < 0x20 || t[0] == QUOTE then None
    else if t[0] != BACKSLASH then Some((t[0], 1))
    else if |t| < 2 then None
    else if t[1] != LETTER_U then
      var c :- ShortUnescape(t[1]);
      Some((c, 2))
    else if !HasHex4(t[2..]) then None
    else
      var u := Hex4Value(t[2..]);
      if High(u) && StartsEscapeU(t[6..]) then
        if !HasHex4(t[8..]) then None
        else if Low(Hex4Value(t[8..])) then Some((Join(u, Hex4Value(t[8..])), 12))
        else Some((u, 6))
      else Some((u, 6))
  }

  /** The rest of a string literal after its opening quote. */
  function ParseChars(t: Text): (r: Parsed<Text>)
    ensures r.Ok? ==> |r.rest| < |t|
  {
    if t != [] && t[0] == QUOTE then Ok([], t[1..])
    else match ReadChar(t)
      case None => Fail
      case Some((c, n)) =>
        match ParseChars(t[n..])
        case Fail => Fail
        case Ok(s, rest) => Ok([c] + s, rest)
  }

  function ParseNumber(t: Text): (r: Parsed<Json>)
    ensures r.Ok? ==> |r.rest| < |t|
  {
    var n := NumberLength(t);
    if n > 0 then
      NumberLengthPrefix(t);
      Ok(if n == IntLength(t) then Int(IntValue(t[..n])) else Real(t[..n]), t[n..])
    else if StartsWith(t, NAN) then Ok(Real(NAN), t[3..])
    else if StartsWith(t, INFINITY) then Ok(Real(INFINITY), t[8..])
    else if StartsWith(t, NEG_INFINITY) then Ok(Real(NEG_INFINITY), t[9..])
    else Fail
  }

  lemma DigitRunPrefix(t: Text, n: nat)
    requires n <= |t|
    ensures DigitRun(t[..n]) == if n <= DigitRun(t) then n else DigitRun(t)
  {
    hide *;
    DigitRunConcat(t[..n], t[n..]);
    assert t[..n] + t[n..] == t;
  }

  /** Cutting a text after its number token leaves the same token. */
  lemma NumberLengthPrefix(t: Text)
    requires NumberLength(t) > 0
    ensures NumberLength(t[..NumberLength(t)]) == NumberLength(t)
    ensures IntLength(t[..NumberLength(t)]) == IntLength(t)
  {
    hide IntLength, FracLength, ExpLength, DigitRun;
    var i, n := IntLength(t), NumberLength(t);
    var f := FracLength(t[i..]);
    assert n == i + f + ExpLength(t[i + f..]);
    hide *;
    IntLengthPrefix(t, n);
    SlicePrefix(t, i, n);
    FracLengthPrefix(t[i..], n - i);
    SlicePrefix(t, i + f, n);
    ExpLengthPrefix(t[i + f..]);
    PartsLength(t[..n], i, f, ExpLength(t[i + f..]));
  }

  lemma PartsLength(p: Text, i: nat, f: nat, e: nat)
    requires i == IntLength(p) > 0 && f == FracLength(p[i..]) && e == ExpLength(p[i + f..])
    ensures NumberLength(p) == i + f + e
  {
  }

  lemma SlicePrefix(t: Text, a: nat, n: nat)
    requires a <= n <= |t|
    ensures t[..n][a..] == t[a..][..n - a]
  {
  }

  lemma IntLengthPrefix(t: Text, n: nat)
    requires 0 < IntLength(t) <= n <= |t|
    ensures IntLength(t[..n]) == IntLength(t)
  {
    if t[0] == MINUS {
      assert t[..n][1..] == t[1..][..n - 1];
      DigitRunPrefix(t[1..], n - 1);
    } else {
      assert t[0..] == t && t[..n][0..] == t[..n];
      DigitRunPrefix(t, n);
    }
  }

  lemma FracLengthPrefix(t: Text, n: nat)
    requires FracLength(t) <= n <= |t|
    ensures FracLength(t[..n]) == FracLength(t)
  {
    if t != [] && n > 0 {
      assert t[..n][1..] == t[1..][..n - 1];
      DigitRunPrefix(t[1..], n - 1);
    }
  }

  lemma ExpLengthPrefix(t: Text)
    ensures ExpLength(t[..ExpLength(t)]) == ExpLength(t)
  {
    var n := ExpLength(t);
    if n > 0 {
      var mark := if |t| > 1 && (t[1] == PLUS || t[1] == MINUS) then 2 else 1;
      assert t[..n][mark..] == t[mark..][..n - mark];
      DigitRunPrefix(t[mark..], n - mark);
      assert mark == 1 ==> t[1] == t[1..][0];
    }
  }

  function ParseValue(t: Text): (r: Parsed<Json>)
    ensures r.Ok? ==> |r.rest| < |t|
    decreases |t|, 0
  {
    if t == [] then Fail
    else if t[0] == QUOTE then
      match ParseChars(t[1..])
      case Fail => Fail
      case Ok(s, rest) => Ok(Str(s), rest)
    else if t[0] == LBRACE then
      var u := Skip(t[1..]);
      if u != [] && u[0] == RBRACE then Ok(Obj([]), u[1..])
      else
        match ParseFields(u)
        case Fail => Fail
        case Ok(fields, rest) => Ok(Obj(fields), rest)
    else if t[0] == LBRACKET then
      var u := Skip(t[1..]);
      if u != [] && u[0] == RBRACKET then Ok(Arr([]), u[1..])
      else
        match ParseItems(u)
        case Fail => Fail
        case Ok(items, rest) => Ok(Arr(items), rest)
    else if StartsWith(t, NULL) then Ok(Null, t[4..])
    else if StartsWith(t, TRUE) then Ok(Bool(true), t[4..])
    else if StartsWith(t, FALSE) then Ok(Bool(false), t[5..])
    else ParseNumber(t)
  }

  /** Members of an object from its first key to its closing brace. */
  function ParseFields(t: Text): (r: Parsed<Fields>)
    ensures r.Ok? ==> |r.rest| < |t|
    decreases |t|, 1
  {
    if t == [] || t[0] != QUOTE then Fail else
    match ParseChars(t[1..])
    case Fail => Fail
    case Ok(key, afterKey) =>
      var colon := Skip(afterKey);
      if colon == [] || colon[0] != COLON then Fail else
      match ParseValue(Skip(colon[1..]))
      case Fail => Fail
      case Ok(value, afterValue) =>
        var next := Skip(afterValue);
        if next != [] && next[0] == RBRACE then Ok([Field(key, value)], next[1..])
        else if next == [] || next[0] != COMMA then Fail
        else
          match ParseFields(Skip(next[1..]))
          case Fail => Fail
          case Ok(fields, rest) => Ok([Field(key, value)] + fields, rest)
  }

  /** Items of an array from the first one to the closing bracket. */
  function ParseItems(t: Text): (r: Parsed<seq<Json>>)
    ensures r.Ok? ==> |r.rest| < |t|
    decreases |t|, 1
  {
    match ParseValue(t)
    case Fail => Fail
    case Ok(value, afterValue) =>
      var next := Skip(afterValue);
      if next != [] && next[0] == RBRACKET then Ok([value], next[1..])
      else if next == [] || next[0] != COMMA then Fail
      else
        match ParseItems(Skip(next[1..]))
        case Fail => Fail
        case Ok(items, rest) => Ok([value] + items, rest)
  }

  /** Where the member read at t has its value, and the first solid character after it. */
  function MemberValue(t: Text): Text {
    if t != [] && ParseChars(t[1..]).Ok? && Skip(ParseChars(t[1..]).rest) != []
    then Skip(Skip(ParseChars(t[1..]).rest)[1..])
    else []
  }

  function AfterValue(t: Text): Text {
    if ParseValue(t).Ok? then Skip(ParseValue(t).rest) else []
  }

  /** The decoder's way through a member, for proofs by induction on what it read. */
  lemma MemberView(t: Text)
    requires ParseFields(t).Ok?
    ensures t != [] && t[0] == QUOTE && ParseChars(t[1..]).Ok?
    ensures var colon := Skip(ParseChars(t[1..]).rest);
            colon != [] && colon[0] == COLON && MemberValue(t) == Skip(colon[1..])
    ensures var v := MemberValue(t); var next := AfterValue(v);
            && |v| < |t| && ParseValue(v).Ok? && next == Skip(ParseValue(v).rest) && next != []
            && var field := Field(ParseChars(t[1..]).value, ParseValue(v).value);
            || (next[0] == RBRACE && ParseFields(t) == Ok([field], next[1..]))
            || (next[0] == COMMA && |Skip(next[1..])| < |t| && ParseFields(Skip(next[1..])).Ok? &&
                ParseFields(t) == Ok([field] + ParseFields(Skip(next[1..])).value, ParseFields(Skip(next[1..])).rest))
  {
    hide ParseChars, ParseValue, Skip;
  }

  lemma ItemView(t: Text)
    requires ParseItems(t).Ok?
    ensures ParseValue(t).Ok?
    ensures var next := AfterValue(t); var v := ParseValue(t).value;
            && next == Skip(ParseValue(t).rest) && next != []
            && (|| (next[0] == RBRACKET && ParseItems(t) == Ok([v], next[1..]))
                || (next[0] == COMMA && |Skip(next[1..])| < |t| && ParseItems(Skip(next[1..])).Ok? &&
                    ParseItems(t) == Ok([v] + ParseItems(Skip(next[1..])).value, ParseItems(Skip(next[1..])).rest)))
  {
    hide ParseValue, Skip;
  }

  lemma ObjectView(t: Text)
    requires ParseValue(t).Ok? && t[0] == LBRACE
    ensures var u := Skip(t[1..]);
            && |u| < |t| && u != []
            && (|| (u[0] == RBRACE && ParseValue(t) == Ok(Obj([]), u[1..]))
                || (u[0] != RBRACE && ParseFields(u).Ok? && ParseValue(t) == Ok(Obj(ParseFields(u).value), ParseFields(u).rest)))
  {
    hide ParseFields, ParseChars, ParseItems, Skip;
  }

  lemma ArrayView(t: Text)
    requires ParseValue(t).Ok? && t[0] == LBRACKET
    ensures var u := Skip(t[1..]);
            && |u| < |t| && u != []
            && (|| (u[0] == RBRACKET && ParseValue(t) == Ok(Arr([]), u[1..]))
                || (u[0] != RBRACKET && ParseItems(u).Ok? && ParseValue(t) == Ok(Arr(ParseItems(u).value), ParseItems(u).rest)))
  {
    hide ParseFields, ParseChars, Skip;
  }

  /** A value that is neither a string, an object nor an array is one of the constants or a number. */
  lemma ScalarView(t: Text)
    requires ParseValue(t).Ok? && t[0] != QUOTE && t[0] != LBRACE && t[0] != LBRACKET
    ensures || (StartsWith(t, NULL) && ParseValue(t) == Ok(Null, t[4..]))
            || (StartsWith(t, TRUE) && ParseValue(t) == Ok(Bool(true), t[4..]))
            || (StartsWith(t, FALSE) && ParseValue(t) == Ok(Bool(false), t[5..]))
            || (ParseNumber(t).Ok? && ParseValue(t) == ParseNumber(t))
  {
    hide ParseFields, ParseChars, ParseItems, ParseNumber, Skip;
  }

  lemma StringView(t: Text)
    requires ParseValue(t).Ok? && t[0] == QUOTE
    ensures ParseChars(t[1..]).Ok? && ParseValue(t) == Ok(Str(ParseChars(t[1..]).value), ParseChars(t[1..]).rest)
  {
    hide ParseFields, ParseChars, ParseItems, ParseNumber, Skip;
  }

  /** json.loads: one value with nothing but blanks around it, duplicate keys collapsed. */
  function Loads(t: Text): Option<Json> {
    match ParseValue(Skip(t))
    case Ok(v, rest) => if Skip(rest) == [] then Some(Collapse(v)) else None
    case Fail => None
  }
}
