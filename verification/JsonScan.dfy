/**
  Finding the one JSON receipt in a command's output. The scan tries every opening
  brace; a quote and backslash automaton shows that at most one of them can succeed.
 */
module JsonScan {
  import opened Options
  import opened Texts
  import opened Numerals
  import opened JsonValues
  import opened JsonPrinter
  import opened JsonDecoder
  import opened JsonRoundTrip
  import opened JsonIdentity
  import opened JsonLimits

  /** Outside a string at a brace depth, inside one, after its backslash, after the last brace, or stuck. */
  datatype Mode = Out(depth: nat) | In(depth: nat) | Esc(depth: nat) | Closed | Bad

  function CloseBrace(depth: nat): Mode {
    if depth == 0 then Bad else if depth == 1 then Closed else Out(depth - 1)
  }

  function Step(m: Mode, c: Code): Mode {
    match m
    case Out(d) =>
      if c == LBRACE then Out(d + 1)
      else if c == RBRACE then CloseBrace(d)
      else if c == QUOTE then In(d)
      else if c == BACKSLASH then Bad
      else m
    case In(d) => if c == QUOTE then Out(d) else if c == BACKSLASH then Esc(d) else m
    case Esc(d) => In(d)
    case Closed => if White(c) then Closed else Bad
    case Bad => Bad
  }

  function Run(m: Mode, t: Text): Mode
    decreases |t|
  {
    if t == [] then m else Run(Step(m, t[0]), t[1..])
  }

  lemma {:induction false} RunConcat(m: Mode, a: Text, b: Text)
    ensures Run(m, a + b) == Run(Run(m, a), b)
    decreases |a|
  {
    if a == [] {
      assert a + b == b;
    } else {
      assert (a + b)[1..] == a[1..] + b;
      RunConcat(Step(m, a[0]), a[1..], b);
    }
  }

  lemma {:induction false} RunBad(t: Text)
    ensures Run(Bad, t) == Bad
  {
    if t != [] { RunBad(t[1..]); }
  }

  lemma {:induction false} RunWhite(m: Mode, t: Text)
    requires AllWhite(t) && (m.Closed? || m.Out?)
    ensures Run(m, t) == m
  {
    if t != [] { RunWhite(m, t[1..]); }
  }

  lemma {:induction false} RunSkip(d: nat, t: Text)
    ensures Run(Out(d), t) == Run(Out(d), Skip(t))
  {
    if t != [] && Blank(t[0]) { RunSkip(d, t[1..]); }
  }

  /** Characters that move the automaton neither outside nor inside a string. */
  predicate Plain(c: Code) {
    c != LBRACE && c != RBRACE && c != QUOTE && c != BACKSLASH
  }

  lemma {:induction false} RunPlain(m: Mode, t: Text, n: nat)
    requires (m.Out? || m.In?) && n <= |t|
    requires forall i :: 0 <= i < n ==> Plain(t[i])
    ensures Run(m, t) == Run(m, t[n..])
  {
    if n > 0 {
      RunPlain(m, t[1..], n - 1);
      assert t[1..][n - 1..] == t[n..];
    }
  }

  /** An escape sequence leaves the automaton inside the string. */
  lemma RunEscape(d: nat, t: Text, n: nat)
    requires 2 <= n <= |t| && t[0] == BACKSLASH
    requires forall i :: 2 <= i < n ==> Plain(t[i])
    ensures Run(In(d), t) == Run(In(d), t[n..])
  {
    assert t[1..][1..] == t[2..];
    assert Run(In(d), t) == Run(Esc(d), t[1..]) == Run(In(d), t[2..]);
    RunPlain(In(d), t[2..], n - 2);
    assert t[2..][n - 2..] == t[n..];
  }

  lemma RunReadChar(d: nat, t: Text)
    requires ReadChar(t).Some?
    ensures Run(In(d), t) == Run(In(d), t[ReadChar(t).value.1..])
  {
    hide Run;
    var n := ReadChar(t).value.1;
    if t[0] != BACKSLASH {
      RunOrdinary(d, t);
    } else if n == 2 {
      RunEscape(d, t, 2);
    } else if n == 6 {
      HexPlain(t[2..]);
      RunEscape(d, t, 6);
    } else {
      HexPlain(t[2..]);
      HexPlain(t[8..]);
      RunEscape(d, t, 6);
      assert t[6..][0] == BACKSLASH;
      forall i | 2 <= i < 6 ensures Plain(t[6..][i]) {
        assert t[6..][i] == t[8..][i - 2];
      }
      RunEscape(d, t[6..], 6);
      assert t[6..][6..] == t[12..];
    }
  }

  lemma RunOrdinary(d: nat, t: Text)
    requires t != [] && t[0] != QUOTE && t[0] != BACKSLASH
    ensures Run(In(d), t) == Run(In(d), t[1..])
  {
  }

  lemma HexPlain(t: Text)
    requires HasHex4(t)
    ensures forall i :: 0 <= i < 4 ==> Plain(t[i])
  {
  }

  lemma {:induction false} RunChars(d: nat, t: Text)
    requires ParseChars(t).Ok?
    ensures Run(In(d), t) == Run(Out(d), ParseChars(t).rest)
  {
    if t[0] != QUOTE {
      RunReadChar(d, t);
      RunChars(d, t[ReadChar(t).value.1..]);
    }
  }

  lemma RunNumber(d: nat, t: Text)
    requires ParseNumber(t).Ok?
    ensures Run(Out(d), t) == Run(Out(d), ParseNumber(t).rest)
  {
    hide Run, NumberLength, IntLength;
    if NumberLength(t) > 0 {
      NumberChars(t);
      RunPlain(Out(d), t, NumberLength(t));
    } else {
      RunWord(d, t, if StartsWith(t, NAN) then NAN else if StartsWith(t, INFINITY) then INFINITY else NEG_INFINITY);
    }
  }

  lemma RunWord(d: nat, t: Text, word: Text)
    requires StartsWith(t, word) && forall i :: 0 <= i < |word| ==> Plain(word[i])
    ensures Run(Out(d), t) == Run(Out(d), t[|word|..])
  {
    forall i | 0 <= i < |word| ensures Plain(t[i]) {
      assert t[..|word|][i] == word[i];
    }
    RunPlain(Out(d), t, |word|);
  }

  /** A decoded value leaves the automaton outside strings, at the depth where it began. */
  lemma {:induction false} RunValue(d: nat, t: Text)
    requires d > 0 && ParseValue(t).Ok?
    ensures Run(Out(d), t) == Run(Out(d), ParseValue(t).rest)
    decreases |t|, 1
  {
    hide ParseValue, ParseChars, ParseItems, Skip;
    ParsedNonempty(t);
    if t[0] == QUOTE {
      StringView(t);
      RunChars(d, t[1..]);
    } else if t[0] == LBRACE {
      RunObject(d, t);
    } else if t[0] == LBRACKET {
      ArrayView(t);
      RunSkip(d, t[1..]);
      if Skip(t[1..])[0] != RBRACKET {
        RunItems(d, Skip(t[1..]));
      }
    } else {
      RunScalar(d, t);
    }
  }

  lemma ParsedNonempty(t: Text)
    requires ParseValue(t).Ok?
    ensures t != []
  {
  }

  lemma RunScalar(d: nat, t: Text)
    requires ParseValue(t).Ok? && t[0] != QUOTE && t[0] != LBRACE && t[0] != LBRACKET
    ensures Run(Out(d), t) == Run(Out(d), ParseValue(t).rest)
  {
    hide Run, ParseNumber, ParseValue;
    ScalarView(t);
    if StartsWith(t, NULL) { RunWord(d, t, NULL); }
    if StartsWith(t, TRUE) { RunWord(d, t, TRUE); }
    if StartsWith(t, FALSE) { RunWord(d, t, FALSE); }
    if ParseNumber(t).Ok? { RunNumber(d, t); }
  }

  lemma {:induction false} RunObject(d: nat, t: Text)
    requires ParseValue(t).Ok? && t[0] == LBRACE
    ensures Run(Out(d), t) == Run(CloseBrace(d + 1), ParseValue(t).rest)
    decreases |t|, 0
  {
    hide ParseValue, ParseFields, Skip;
    ObjectView(t);
    RunSkip(d + 1, t[1..]);
    if Skip(t[1..])[0] != RBRACE {
      RunFields(d + 1, Skip(t[1..]));
    }
  }

  lemma {:induction false} RunFields(d: nat, t: Text)
    requires d > 0 && ParseFields(t).Ok?
    ensures Run(Out(d), t) == Run(CloseBrace(d), ParseFields(t).rest)
    decreases |t|, 2
  {
    hide ParseValue, ParseFields, ParseChars, Skip, AfterValue, MemberValue;
    MemberView(t);
    RunKey(d, t);
    var v := MemberValue(t);
    RunValue(d, v);
    RunSkip(d, ParseValue(v).rest);
    var next := AfterValue(v);
    if next[0] == COMMA {
      RunSkip(d, next[1..]);
      RunFields(d, Skip(next[1..]));
    }
  }

  lemma RunKey(d: nat, t: Text)
    requires ParseFields(t).Ok?
    ensures Run(Out(d), t) == Run(Out(d), MemberValue(t))
  {
    hide ParseValue, ParseFields, ParseChars, Skip, AfterValue, MemberValue;
    MemberView(t);
    RunChars(d, t[1..]);
    var colon := Skip(ParseChars(t[1..]).rest);
    RunSkip(d, ParseChars(t[1..]).rest);
    RunSkip(d, colon[1..]);
  }

  lemma {:induction false} RunItems(d: nat, t: Text)
    requires d > 0 && ParseItems(t).Ok?
    ensures Run(Out(d), t) == Run(Out(d), ParseItems(t).rest)
    decreases |t|, 2
  {
    hide ParseValue, ParseItems, Skip, AfterValue;
    ItemView(t);
    RunValue(d, t);
    RunSkip(d, ParseValue(t).rest);
    var next := AfterValue(t);
    if next[0] == COMMA {
      RunSkip(d, next[1..]);
      RunItems(d, Skip(next[1..]));
    }
  }

  /** The text is one decoded object and white space: what the scan accepts at a brace. */
  predicate Receipt(t: Text) {
    t != [] && t[0] == LBRACE && ParseValue(t).Ok? && AllWhite(ParseValue(t).rest)
  }

  lemma ReceiptCloses(t: Text)
    requires Receipt(t)
    ensures Run(Out(0), t) == Closed
  {
    RunObject(0, t);
    RunWhite(Closed, ParseValue(t).rest);
  }

  /** From a positive depth the same object ends at that depth instead. */
  lemma NestedStaysOpen(d: nat, t: Text)
    requires d > 0 && Receipt(t)
    ensures Run(Out(d), t) == Out(d)
  {
    RunValue(d, t);
    RunWhite(Out(d), ParseValue(t).rest);
  }

  /** Two readings with opposite quote roles cannot both end after a closing brace. */
  lemma {:induction false} OppositeRoles(a: Mode, b: Mode, t: Text)
    requires a.In? && (b.Out? || b.Closed?)
    ensures !(Run(a, t) == Closed && Run(b, t) == Closed)
    decreases |t|
  {
    if t != [] {
      var c := t[0];
      if c == QUOTE {
        if b.Out? { OppositeRoles(Step(b, c), Step(a, c), t[1..]); } else { RunBad(t[1..]); }
      } else if Step(b, c) == Bad {
        RunBad(t[1..]);
      } else {
        OppositeRoles(Step(a, c), Step(b, c), t[1..]);
      }
    }
  }

  lemma {:induction false} NeverAtDepthZero(m: Mode, t: Text)
    requires m.Out? || m.In? || m.Esc? ==> m.depth > 0
    ensures Run(m, t).Out? ==> Run(m, t).depth > 0
    decreases |t|
  {
    if t != [] { NeverAtDepthZero(Step(m, t[0]), t[1..]); }
  }

  /** No output has two positions the scan could accept. */
  lemma ReceiptUnique(output: Text, i: nat, j: nat)
    requires i < j <= |output| && Receipt(output[i..])
    ensures !Receipt(output[j..])
  {
    if Receipt(output[j..]) {
      var t, u := output[i..], output[j..];
      var head := t[..j - i];
      assert head + u == t;
      ReceiptCloses(t);
      ReceiptCloses(u);
      RunConcat(Out(0), head, u);
      ReachedMode(head);
      RejectedMode(Run(Out(0), head), u);
    }
  }

  lemma ReachedMode(head: Text)
    requires head != [] && head[0] == LBRACE
    ensures Run(Out(0), head).Out? ==> Run(Out(0), head).depth > 0
  {
    NeverAtDepthZero(Out(1), head[1..]);
  }

  lemma RejectedMode(m: Mode, u: Text)
    requires Receipt(u) && (m.Out? ==> m.depth > 0)
    ensures Run(m, u) != Closed
  {
    match m
    case Out(d) => NestedStaysOpen(d, u);
    case In(d) => ReceiptCloses(u); OppositeRoles(In(d), Out(1), u[1..]);
    case Esc(d) => ReceiptCloses(u); OppositeRoles(In(d), Out(1), u[1..]);
    case Closed => RunBad(u[1..]);
    case Bad => RunBad(u);
  }

  /** The object a receipt holds, as a dict. */
  function ReceiptFields(t: Text): Fields
    requires Receipt(t)
  {
    CollapseFields(ParseValue(t).value.fields)
  }

  /** How the scan ends: a receipt, no receipt, or an exception it does not catch. */
  datatype Search = Found(fields: Fields) | NoReceipt | Escaped

  /** The first receipt of the text, scanning from the left until a brace raises past the limits. */
  function FirstReceipt(l: Limits, output: Text): Search {
    if output == [] then NoReceipt
    else if output[0] == LBRACE && RawDecode(l, output).Raised? then Escaped
    else if Receipt(output) then Found(ReceiptFields(output))
    else FirstReceipt(l, output[1..])
  }

  /** Decoding from the brace at position j raises something else than the decode error. */
  predicate RaisesAt(l: Limits, output: Text, j: nat) {
    j < |output| && output[j] == LBRACE && RawDecode(l, output[j..]).Raised?
  }

  predicate RaisesBy(l: Limits, output: Text, i: nat) {
    exists j :: 0 <= j <= i && RaisesAt(l, output, j)
  }

  lemma RaisesByTail(l: Limits, output: Text, i: nat)
    requires output != [] && i > 0
    ensures RaisesBy(l, output, i) <==> RaisesAt(l, output, 0) || RaisesBy(l, output[1..], i - 1)
  {
    hide RawDecode;
    forall j: nat ensures RaisesAt(l, output[1..], j) <==> RaisesAt(l, output, j + 1) {
      if j + 1 < |output| {
        assert output[1..][j..] == output[j + 1..];
      }
    }
    hide RaisesAt;
    if RaisesBy(l, output, i) && !RaisesAt(l, output, 0) {
      var j :| 0 <= j <= i && RaisesAt(l, output, j);
      assert RaisesAt(l, output[1..], j - 1);
    }
    if RaisesBy(l, output[1..], i - 1) {
      var j :| 0 <= j <= i - 1 && RaisesAt(l, output[1..], j);
      assert RaisesAt(l, output, j + 1);
    }
  }

  lemma FirstReceiptStep(l: Limits, output: Text)
    requires output != []
    ensures FirstReceipt(l, output) ==
            if RaisesAt(l, output, 0) then Escaped
            else if Receipt(output) then Found(ReceiptFields(output))
            else FirstReceipt(l, output[1..])
    ensures RaisesBy(l, output, 0) <==> RaisesAt(l, output, 0)
  {
    assert output[0..] == output;
    hide RawDecode, Receipt, ReceiptFields;
  }

  lemma ReceiptNonempty(t: Text)
    requires Receipt(t)
    ensures t != [] && t[0] == LBRACE
  {
  }

  /** The one receipt of an output is returned exactly when no brace up to it raises past the limits. */
  lemma {:induction false} FirstReceiptAt(l: Limits, output: Text, i: nat)
    requires i <= |output| && Receipt(output[i..])
    ensures FirstReceipt(l, output) == if RaisesBy(l, output, i) then Escaped else Found(ReceiptFields(output[i..]))
  {
    hide *;
    ReceiptNonempty(output[i..]);
    FirstReceiptStep(l, output);
    assert output[0..] == output;
    if i > 0 {
      if Receipt(output) {
        ReceiptUnique(output, 0, i);
      }
      assert output[1..][i - 1..] == output[i..];
      RaisesByTail(l, output, i);
      FirstReceiptAt(l, output[1..], i - 1);
    }
  }

  ghost predicate Fruitless(output: Text) {
    forall i :: 0 <= i <= |output| ==> !Receipt(output[i..])
  }

  /** An output without a receipt ends in the script's own error exactly when no brace raises another one. */
  lemma {:induction false} NoReceiptAnywhere(l: Limits, output: Text)
    requires Fruitless(output)
    ensures FirstReceipt(l, output) == if RaisesBy(l, output, |output|) then Escaped else NoReceipt
  {
    hide RawDecode, Receipt;
    if output != [] {
      FirstReceiptStep(l, output);
      assert output[0..] == output;
      forall i | 0 <= i <= |output[1..]| ensures !Receipt(output[1..][i..]) {
        assert output[1..][i..] == output[i + 1..];
      }
      RaisesByTail(l, output, |output|);
      NoReceiptAnywhere(l, output[1..]);
    }
  }

  /**
    Whatever was printed before it, a rendered object at the end of the output is what the
    scan returns, exactly when no brace of the progress text raises past the limits and the
    object itself is within them.
   */
  lemma ScanFindsRendered(l: Limits, progress: Text, v: Json, style: Style, level: nat, white: Text)
    requires v.Obj? && Tokens(v) && AllWhite(white)
    ensures var output := progress + Render(v, style, level) + white;
            var returned := Fits(l, l.depth, FuseAll(v)) && forall j :: 0 <= j < |progress| ==> !RaisesAt(l, output, j);
            && FirstReceipt(l, output) == (if returned then Found(CollapseFields(FuseFields(v.fields))) else Escaped)
            && (Clean(v) && returned ==> FirstReceipt(l, output) == Found(v.fields))
  {
    hide Render, Tokens, Receipt, ParseValue, CollapseFields, FuseFields, Clean, FirstReceipt, RaisesAt, Fits, FuseAll;
    var t := Render(v, style, level) + white;
    var output := progress + Render(v, style, level) + white;
    assert output[|progress|..] == t;
    WhiteBounded(white);
    ValueRoundTrip(v, style, level, white);
    RenderedReceipt(v, style, level, white);
    FirstReceiptAt(l, output, |progress|);
    ReceiptNonempty(t);
    assert output[|progress|] == t[0];
    RenderedRaises(l, output, |progress|, v, white);
    if Clean(v) {
      DocumentClean(v);
      FuseAllNoSplit(v);
      CleanReceipt(v);
    }
  }

  lemma CleanReceipt(v: Json)
    requires v.Obj? && Dicts(v) && FuseAll(v) == v
    ensures CollapseFields(FuseFields(v.fields)) == v.fields
  {
    CollapseIdentity(v);
    hide CollapseFields, FuseFields, Dicts;
  }

  lemma RenderedRaises(l: Limits, output: Text, i: nat, v: Json, rest: Text)
    requires i < |output| && output[i] == LBRACE && ParseValue(output[i..]) == Ok(FuseAll(v), rest)
    ensures RaisesAt(l, output, i) <==> !Fits(l, l.depth, FuseAll(v))
  {
    RaisesUnlessFits(l, l.depth, output[i..]);
    hide ValueRaises, Fits, ParseValue, FuseAll;
  }

  /** After progress text without a brace, only the object's own size matters. */
  lemma PlainProgress(l: Limits, progress: Text, v: Json, style: Style, level: nat, white: Text)
    requires v.Obj? && Tokens(v) && Clean(v) && AllWhite(white) && LBRACE !in progress
    ensures FirstReceipt(l, progress + Render(v, style, level) + white)
            == if Fits(l, l.depth, v) then Found(v.fields) else Escaped
  {
    hide Render, Tokens, CollapseFields, FuseFields, Clean, FirstReceipt, Fits, FuseAll;
    var output := progress + Render(v, style, level) + white;
    DocumentClean(v);
    FuseAllNoSplit(v);
    ScanFindsRendered(l, progress, v, style, level, white);
    forall j | 0 <= j < |progress| ensures !RaisesAt(l, output, j) {
      assert output[j] == progress[j];
    }
  }

  /** Output with few opening marks and no long run of digits is scanned as if there were no limits. */
  lemma ModestOutput(l: Limits, output: Text, i: nat)
    requires Modest(l, l.depth, output)
    requires i <= |output| && Receipt(output[i..])
    ensures FirstReceipt(l, output) == Found(ReceiptFields(output[i..]))
  {
    hide Receipt, ReceiptFields, FirstReceipt, Modest;
    FirstReceiptAt(l, output, i);
    forall j | 0 <= j <= i ensures !RaisesAt(l, output, j) {
      if j < |output| {
        DropSuffix(output, j);
        ModestSuffix(l, l.depth, output[j..], output);
        ModestNeverRaises(l, l.depth, output[j..]);
      }
      hide ValueRaises;
    }
  }

  /** An unfinished object with an overlong integer, or with arrays too deep, hides every receipt after it. */
  lemma ProgressEscapes(l: Limits, digits: Text, deep: nat, rest: Text)
    ensures WholeText(digits) && AllDigits(digits) && |digits| > l.digits && Bounded(rest) ==>
              FirstReceipt(l, OPENING + (digits + rest)) == Escaped
    ensures deep > 0 && deep >= l.depth ==> FirstReceipt(l, OPENING + (Brackets(deep) + rest)) == Escaped
  {
    hide ValueRaises, Bounded, WholeText, AllDigits, Receipt;
    if WholeText(digits) && AllDigits(digits) && |digits| > l.digits && Bounded(rest) {
      LongNumeralRaises(l, digits, rest);
      assert (OPENING + (digits + rest))[0] == LBRACE;
    }
    if deep > 0 && deep >= l.depth {
      DeepNestingRaises(l, deep, rest);
      assert (OPENING + (Brackets(deep) + rest))[0] == LBRACE;
    }
  }

  lemma WhiteBounded(white: Text)
    requires AllWhite(white)
    ensures Bounded(white)
  {
  }

  lemma RenderedReceipt(v: Json, style: Style, level: nat, white: Text)
    requires v.Obj? && AllWhite(white)
    requires ParseValue(Render(v, style, level) + white) == Ok(FuseAll(v), white)
    ensures Receipt(Render(v, style, level) + white)
    ensures ReceiptFields(Render(v, style, level) + white) == CollapseFields(FuseFields(v.fields))
  {
    hide ParseValue, RenderFields, CollapseFields, FuseFields;
  }

  /** A receipt read from UTF-8 output is a proper dict without split pairs. */
  lemma {:induction false} ReceiptClean(l: Limits, output: Text)
    requires NoSurrogate(output) && FirstReceipt(l, output).Found?
    ensures Clean(Obj(FirstReceipt(l, output).fields))
  {
    hide ParseValue, Tokens, Dicts, Everywhere, CollapseFields, RawDecode;
    if Receipt(output) {
      Decoded(output);
      ReceiptIsObject(output);
      CollapseDicts(NoSplit, ParseValue(output).value);
    } else {
      assert NoSurrogate(output[1..]);
      ReceiptClean(l, output[1..]);
    }
  }

  lemma ReceiptIsObject(t: Text)
    requires Receipt(t)
    ensures ParseValue(t).value.Obj? && Collapse(ParseValue(t).value) == Obj(ReceiptFields(t))
  {
    ObjectView(t);
    hide ParseValue, ParseFields, CollapseFields;
  }

  // ----- documents cut short

  lemma {:induction false} ClosedNeedsWhite(t: Text)
    requires Run(Closed, t) == Closed
    ensures AllWhite(t)
  {
    if t != [] {
      if !White(t[0]) { RunBad(t[1..]); }
      ClosedNeedsWhite(t[1..]);
      assert t == [t[0]] + t[1..];
    }
  }

  /** json.loads accepts an object only where the scan would. */
  lemma LoadedReceipt(t: Text)
    requires t != [] && t[0] == LBRACE && Loads(t).Some?
    ensures Receipt(t)
  {
    hide ParseValue, Collapse;
    BlankRest(ParseValue(t).rest);
  }

  lemma {:induction false} BlankRest(t: Text)
    requires Skip(t) == []
    ensures AllWhite(t)
  {
    if t != [] {
      BlankRest(t[1..]);
      assert t == [t[0]] + t[1..];
    }
  }

  /**
    Of all the beginnings of a written document, those that load are the document
    itself and the document without its final newline; both load as the value written.
   */
  lemma TornDocument(v: Json, n: nat)
    requires v.Obj? && Clean(v) && n <= |Document(v)|
    ensures Loads(Document(v)[..n]) == if n + 1 < |Document(v)| then None else Some(SortKeys(v))
  {
    hide *;
    var d := Document(v);
    DocumentRoundTrip(v);
    DocumentShape(v);
    if n + 1 < |d| {
      TornNeverLoads(d, n);
    } else if n < |d| {
      LoadsWithoutNewline(v);
    } else {
      assert d[..n] == d;
    }
  }

  /** Read within the limits, the beginnings that load are the same, and load only what fits. */
  lemma TornWithin(l: Limits, v: Json, n: nat)
    requires v.Obj? && Clean(v) && n <= |Document(v)|
    ensures LoadsWithin(l, Document(v)[..n])
            == if n + 1 < |Document(v)| || !Writable(l, v) then None else Some(SortKeys(v))
  {
    hide *;
    var t := Document(v)[..n];
    TornDocument(v, n);
    WithinView(l, t, v);
    if n + 1 >= |Document(v)| {
      DocumentParses(v, n);
      RaisesUnlessFits(l, l.depth, Skip(t));
    }
  }

  lemma WithinView(l: Limits, t: Text, v: Json)
    ensures LoadsWithin(l, t) == if ValueRaises(l, l.depth, Skip(t)) then None else Loads(t)
    ensures Writable(l, v) <==> Fits(l, l.depth, SortKeys(v))
  {
    hide Loads, ValueRaises, Fits, SortKeys;
  }

  lemma DocumentParses(v: Json, n: nat)
    requires v.Obj? && Clean(v) && |Document(v)| - 1 <= n <= |Document(v)|
    ensures ParseValue(Skip(Document(v)[..n])).Ok? && ParseValue(Skip(Document(v)[..n])).value == SortKeys(v)
  {
    hide *;
    var s, rest := SortKeys(v), if n == |Document(v)| then [NEWLINE] else [];
    DocumentClean(v);
    SortKeysKeeps(NoSplit, v);
    NewlineBounded();
    NothingBounded();
    DocumentCut(v, n);
    ValueRoundTrip(s, Indented, 0, rest);
    FuseAllNoSplit(s);
    RenderHead(s, Indented, 0);
    SkipHead(Render(s, Indented, 0) + rest);
  }

  lemma DocumentCut(v: Json, n: nat)
    requires |Document(v)| - 1 <= n <= |Document(v)|
    ensures Document(v)[..n] == Render(SortKeys(v), Indented, 0) + (if n == |Document(v)| then [NEWLINE] else [])
  {
    hide Render, SortKeys;
    var r := Render(SortKeys(v), Indented, 0);
    assert (r + [NEWLINE])[..|r|] == r;
  }

  lemma SkipHead(t: Text)
    requires t != [] && !Blank(t[0])
    ensures Skip(t) == t
  {
  }

  lemma NothingLoads()
    ensures Loads([]).None?
  {
  }

  lemma DocumentShape(v: Json)
    requires v.Obj? && Clean(v)
    ensures var d := Document(v);
            && |d| >= 2 && d[0] == LBRACE && d[|d| - 2] == RBRACE
            && d[..|d| - 1] == Render(SortKeys(v), Indented, 0)
  {
    hide RenderFields, Gap, SortValues, Clean;
    assert SortKeys(v).Obj?;
    RenderObjectEnds(SortKeys(v).fields, Indented, 0);
  }

  lemma RenderObjectEnds(fields: Fields, style: Style, level: nat)
    ensures var t := Render(Obj(fields), style, level); |t| >= 2 && t[0] == LBRACE && t[|t| - 1] == RBRACE
  {
    hide RenderFields, Gap;
  }

  lemma TornNeverLoads(d: Text, n: nat)
    requires n + 1 < |d| && d[0] == LBRACE && d[|d| - 2] == RBRACE && Loads(d).Some?
    ensures Loads(d[..n]).None?
  {
    hide Loads, Receipt, Run;
    NothingLoads();
    LoadedReceipt(d);
    ReceiptCloses(d);
    var p, q := d[..n], d[n..];
    assert p + q == d && q[|d| - 2 - n] == RBRACE;
    RunConcat(Out(0), p, q);
    if n == 0 {
      assert p == [];
    } else if Loads(p).Some? {
      LoadedReceipt(p);
      ReceiptCloses(p);
      ClosedNeedsWhite(q);
      assert false;
    }
  }

  lemma LoadsWithoutNewline(v: Json)
    requires v.Obj? && Clean(v)
    ensures Loads(Render(SortKeys(v), Indented, 0)) == Some(SortKeys(v))
  {
    hide *;
    DocumentClean(v);
    var s := SortKeys(v);
    SortKeysKeeps(NoSplit, v);
    NothingBounded();
    ValueRoundTrip(s, Indented, 0, []);
    assert Render(s, Indented, 0) + [] == Render(s, Indented, 0);
    FuseAllNoSplit(s);
    CollapseIdentity(s);
    RenderHead(s, Indented, 0);
    LoadsExact(Render(s, Indented, 0), s);
  }

  lemma NothingBounded()
    ensures Bounded([])
  {
  }

  lemma LoadsExact(t: Text, s: Json)
    requires t != [] && !Blank(t[0]) && ParseValue(t) == Ok(s, []) && Collapse(s) == s
    ensures Loads(t) == Some(s)
  {
    hide ParseValue, Collapse;
  }

  /**
    The index loop. With a receipt somewhere, the result is that receipt, or an escaping
    exception when a brace up to it raises one; without a receipt it is the script's own
    error, or an escaping exception when any brace raises one.
   */
  method ParseJsonOutput(l: Limits, output: Text) returns (r: Search)
    ensures r == FirstReceipt(l, output)
    ensures forall i :: 0 <= i < |output| && Receipt(output[i..]) ==>
              r == if RaisesBy(l, output, i) then Escaped else Found(ReceiptFields(output[i..]))
    ensures Fruitless(output) ==> r == if RaisesBy(l, output, |output|) then Escaped else NoReceipt
  {
    forall i | 0 <= i < |output| && Receipt(output[i..])
      ensures FirstReceipt(l, output) == if RaisesBy(l, output, i) then Escaped else Found(ReceiptFields(output[i..]))
    {
      FirstReceiptAt(l, output, i);
    }
    if Fruitless(output) {
      NoReceiptAnywhere(l, output);
    }
    var index := 0;
    assert output[0..] == output;
    hide RaisesBy, Fruitless, ValueRaises;
    while index < |output|
      invariant index <= |output|
      invariant FirstReceipt(l, output) == FirstReceipt(l, output[index..])
    {
      var t := output[index..];
      if t[0] == LBRACE {
        match RawDecode(l, t) {
          case Raised => return Escaped;
          case Refused =>
          case Read(payload, rest) =>
            if AllWhite(rest) {
              return Found(ReceiptFields(t));
            }
        }
      }
      assert t[1..] == output[index + 1..];
      index := index + 1;
    }
    return NoReceipt;
  }
}
