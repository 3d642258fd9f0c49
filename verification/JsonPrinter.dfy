/** json.dumps with ensure_ascii, in its compact and its indent=2 layout. */
module JsonPrinter {
  import opened Texts
  import opened Numerals
  import opened JsonValues

  datatype Style = Compact | Indented

  const NULL: Text := [0x6E, 0x75, 0x6C, 0x6C]
  const TRUE: Text := [0x74, 0x72, 0x75, 0x65]
  const FALSE: Text := [0x66, 0x61, 0x6C, 0x73, 0x65]
  const LETTER_U: Code := 0x75

  function HexDigit(d: Code): (c: Code)
    requires d < 16
  {
    if d < 10 then 0x30 + d else 0x61 + (d - 10)
  }

  function Hex4(u: Code): Text
    requires u < 0x1_0000
  {
    [HexDigit(u / 0x1000), HexDigit(u / 0x100 % 16), HexDigit(u / 16 % 16), HexDigit(u % 16)]
  }

  function EscapeUnit(u: Code): (t: Text)
    requires u < 0x1_0000
    ensures |t| == 6
  {
    [BACKSLASH, LETTER_U] + Hex4(u)
  }

  /** The letter of a two-character escape, or 0 when the code point has none. */
  function ShortEscape(c: Code): Code {
    if c == QUOTE then QUOTE
    else if c == BACKSLASH then BACKSLASH
    else if c == 0x08 then 0x62
    else if c == 0x0C then 0x66
    else if c == 0x0A then 0x6E
    else if c == 0x0D then 0x72
    else if c == 0x09 then 0x74
    else 0
  }

  function Escape(c: Code): (t: Text)
    ensures t != []
  {
    if ShortEscape(c) != 0 then [BACKSLASH, ShortEscape(c)]
    else if Printable(c) then [c]
    else if c < 0x1_0000 then EscapeUnit(c)
    else EscapeUnit(HighHalf(c)) + EscapeUnit(LowHalf(c))
  }

  function RenderChars(s: Text): Text {
    if s == [] then [] else Escape(s[0]) + RenderChars(s[1..])
  }

  function RenderString(s: Text): Text {
    [QUOTE] + RenderChars(s) + [QUOTE]
  }

  function Spaces(n: nat): (t: Text)
    ensures |t| == n && forall i :: 0 <= i < n ==> t[i] == SPACE
  {
    seq(n, _ => SPACE)
  }

  /** What separates brackets and members at a nesting level. */
  function Gap(style: Style, level: nat): (t: Text)
    ensures forall i :: 0 <= i < |t| ==> Blank(t[i])
    ensures style == Compact ==> t == []
  {
    match style
    case Compact => []
    case Indented => [NEWLINE] + Spaces(2 * level)
  }

  function ColonText(style: Style): Text {
    match style
    case Compact => [COLON]
    case Indented => [COLON, SPACE]
  }

  function Render(v: Json, style: Style, level: nat): Text
    decreases v, 0
  {
    match v
    case Null => NULL
    case Bool(b) => if b then TRUE else FALSE
    case Int(n) => IntText(n)
    case Real(token) => token
    case Str(s) => RenderString(s)
    case Arr(items) =>
      if items == [] then [LBRACKET, RBRACKET]
      else [LBRACKET] + Gap(style, level + 1) + RenderItems(items, style, level + 1) + Gap(style, level) + [RBRACKET]
    case Obj(fields) =>
      if fields == [] then [LBRACE, RBRACE]
      else [LBRACE] + Gap(style, level + 1) + RenderFields(fields, style, level + 1) + Gap(style, level) + [RBRACE]
  }

  function RenderItems(items: seq<Json>, style: Style, level: nat): Text
    requires items != []
    decreases items, 1
  {
    Render(items[0], style, level)
    + if |items| == 1 then [] else [COMMA] + Gap(style, level) + RenderItems(items[1..], style, level)
  }

  function RenderFields(fields: Fields, style: Style, level: nat): Text
    requires fields != []
    decreases fields, 1
  {
    RenderString(fields[0].key) + ColonText(style) + Render(fields[0].value, style, level)
    + if |fields| == 1 then [] else [COMMA] + Gap(style, level) + RenderFields(fields[1..], style, level)
  }

  /** json.dumps(value, sort_keys=True, separators=(",", ":")). */
  function Canonical(v: Json): Text {
    Render(SortKeys(v), Compact, 0)
  }

  /** json.dumps(value, indent=2, sort_keys=True) and a final newline: the content of a state file. */
  function Document(v: Json): Text {
    Render(SortKeys(v), Indented, 0) + [NEWLINE]
  }
}
