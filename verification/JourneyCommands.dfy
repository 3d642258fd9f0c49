/**
  The command lines of the journey, word by word: which words are fixed, and which are the
  text of what the scenario, the state file or an earlier answer holds under which key.
 */
module JourneyCommands {
  import opened Options
  import opened Texts
  import opened Numerals
  import opened JsonValues
  import opened Cli
  import opened Journey
  import opened JourneyRuns
  import opened JourneyProgram
  import opened JourneySuccess

  /** str(value): a string itself, an integer in decimal, anything else as Python shows it. */
  ghost predicate Told(h: Host, v: JsonValues.Json, text: Text) {
    match v
    case Str(s) => text == s
    case Int(n) => text == IntText(n)
    case _ => text == h.repr(v)
  }

  /** The text of a member. */
  ghost predicate Shown(h: Host, fields: Fields, key: string, text: Text) {
    Get(fields, Ascii(key)).Some? && Told(h, Get(fields, Ascii(key)).value, text)
  }

  /** The text of a member that is neither null nor an empty string, list or dict. */
  ghost predicate Required(h: Host, fields: Fields, key: string, text: Text) {
    Shown(h, fields, key, text) && Get(fields, Ascii(key)).value !in {Null, Str([]), Arr([]), Obj([])}
  }

  /** The dict under a key. */
  function ObjectAt(fields: Fields, key: string): Fields {
    match Get(fields, Ascii(key))
    case Some(Obj(inner)) => inner
    case _ => []
  }

  /** These words in order, an empty one standing for any argument. */
  ghost predicate Line(args: seq<Text>, words: seq<string>) {
    |args| == |words| && forall i :: 0 <= i < |words| ==> words[i] == "" || args[i] == Ascii(words[i])
  }

  // ----- prepare

  /** The command after the answers d. */
  ghost predicate PrepareLine(h: Host, scenario: Fields, sourceTask: Text, d: seq<Fields>, args: seq<Text>) {
    match |d|
    case 0 =>
      && Line(args, ["cognition", "teach", "", "--stable-key", "", "--name", "", "--description", "", "--intent", "", "--base-recipe", ""])
      && args[2] == sourceTask && Required(h, scenario, "stable_key", args[4]) && Required(h, scenario, "name", args[6])
      && Required(h, scenario, "description", args[8]) && Required(h, scenario, "intent", args[10])
      && Required(h, scenario, "base_recipe", args[12])
    case 1 => Line(args, ["cognition", "inspect", ""]) && Required(h, ObjectAt(d[0], "proposal"), "proposal_id", args[2])
    case 2 => Line(args, ["cognition", "diff", ""]) && Required(h, ObjectAt(d[0], "proposal"), "proposal_id", args[2])
    case 3 =>
      && Line(args, ["cognition", "review", "", "--review-request-id", "market-gc1-approve-v1", "--disposition", "approve",
                     "--rationale", "Reviewed exact semantic change and source provenance.", "--expected-generation", "0"])
      && Required(h, ObjectAt(d[0], "proposal"), "proposal_id", args[2])
    case 4 => Line(args, ["cognition", "revision", ""]) && Required(h, ObjectAt(d[3], "review_receipt"), "result_revision_id", args[2])
    case 5 => Line(args, ["cognition", "head", ""]) && Required(h, ObjectAt(d[3], "review_receipt"), "result_head_id", args[2])
    case 6 =>
      && Line(args, ["cognition", "use", "", ""])
      && Required(h, scenario, "stable_key", args[2]) && Required(h, scenario, "fresh_use_prompt", args[3])
    case 7 =>
      && Line(args, ["cognition", "selection", ""])
      && Required(h, ObjectAt(d[6], "cognition_selection_receipt"), "selection_receipt_id", args[2])
    case 8 =>
      && Line(args, ["cognition", "use-receipt", ""])
      && Required(h, ObjectAt(d[6], "cognition_use_receipt"), "use_receipt_id", args[2])
    case _ => false
  }

  lemma TextAtIs(h: Host, fields: Fields, key: string)
    ensures TextAt(h, fields, Ascii(key)).Some? ==> Required(h, fields, key, TextAt(h, fields, Ascii(key)).value)
  {
    hide Get, Ascii;
  }

  lemma StateTextIs(h: Host, fields: Fields, key: string)
    ensures StateText(h, fields, key).Some? ==> Shown(h, fields, key, StateText(h, fields, key).value)
  {
    hide Get, Ascii;
  }

  lemma ObjectAtIs(fields: Fields, key: string)
    ensures SubObject(fields, Ascii(key)).Some? ==> ObjectAt(fields, key) == SubObject(fields, Ascii(key)).value
  {
    hide Get, Ascii;
  }

  lemma TeachLine(h: Host, scenario: Fields, sourceTask: Text)
    requires TeachCommand(h, scenario, sourceTask).Some?
    ensures PrepareLine(h, scenario, sourceTask, [], TeachCommand(h, scenario, sourceTask).value.args)
  {
    TextAtIs(h, scenario, "stable_key");
    TextAtIs(h, scenario, "name");
    TextAtIs(h, scenario, "description");
    TextAtIs(h, scenario, "intent");
    TextAtIs(h, scenario, "base_recipe");
    hide TextAt, Required, Ascii;
  }

  lemma ProposalIs(h: Host, taught: Fields, p: Text)
    requires ProposalId(h, taught) == Some(p)
    ensures Required(h, ObjectAt(taught, "proposal"), "proposal_id", p)
  {
    ObjectAtIs(taught, "proposal");
    TextAtIs(h, ObjectAt(taught, "proposal"), "proposal_id");
    hide TextAt, Required, Ascii, SubObject, ObjectAt, NotSelectable;
  }

  lemma ReviewLine(p: Text)
    ensures ReviewCommand(p).args[2..3] == [p]
    ensures Line(ReviewCommand(p).args,
                 ["cognition", "review", "", "--review-request-id", "market-gc1-approve-v1", "--disposition", "approve",
                  "--rationale", "Reviewed exact semantic change and source provenance.", "--expected-generation", "0"])
  {
    hide Ascii;
  }

  lemma ProposalLines(h: Host, scenario: Fields, sourceTask: Text, d: seq<Fields>, p: Text)
    requires 1 <= |d| <= 3 && ProposalId(h, d[0]) == Some(p)
    ensures PrepareLine(h, scenario, sourceTask, d,
                        (if |d| == 1 then InspectCommand(p) else if |d| == 2 then DiffCommand(p) else ReviewCommand(p)).args)
  {
    ProposalIs(h, d[0], p);
    hide Required, Ascii, ObjectAt, ProposalId;
    if |d| == 3 {
      ReviewLine(p);
      hide ReviewCommand, Line;
      assert ReviewCommand(p).args[2] == ReviewCommand(p).args[2..3][0];
    }
  }

  lemma ReviewedLines(h: Host, scenario: Fields, sourceTask: Text, d: seq<Fields>)
    requires 4 <= |d| <= 5 && (|d| == 4 ==> RevisionId(h, d[3]).Some?) && (|d| == 5 ==> HeadId(h, d[3]).Some?)
    ensures PrepareLine(h, scenario, sourceTask, d,
                        (if |d| == 4 then RevisionCommand(RevisionId(h, d[3]).value) else HeadCommand(HeadId(h, d[3]).value)).args)
  {
    ObjectAtIs(d[3], "review_receipt");
    TextAtIs(h, ObjectAt(d[3], "review_receipt"), "result_revision_id");
    TextAtIs(h, ObjectAt(d[3], "review_receipt"), "result_head_id");
    hide TextAt, Required, Ascii, SubObject, ObjectAt, Get;
  }

  lemma FreshUseLine(h: Host, scenario: Fields, sourceTask: Text, d: seq<Fields>, key: Text)
    requires |d| == 6 && TextAt(h, scenario, Ascii("stable_key")) == Some(key)
    requires UseCommand(h, key, scenario, "fresh_use_prompt").Some?
    ensures PrepareLine(h, scenario, sourceTask, d, UseCommand(h, key, scenario, "fresh_use_prompt").value.args)
  {
    TextAtIs(h, scenario, "stable_key");
    TextAtIs(h, scenario, "fresh_use_prompt");
    hide TextAt, Required, Ascii;
  }

  /** The receipts a use names. */
  lemma UseLines(h: Host, task: Fields, revision: Text, a: Attribution)
    requires UseAttribution(h, task, revision) == Some(a)
    ensures var args := SelectionCommand(h, a).args;
            && Line(args, ["cognition", "selection", ""])
            && Required(h, ObjectAt(task, "cognition_selection_receipt"), "selection_receipt_id", args[2])
    ensures var args := UseReceiptCommand(h, a).args;
            && Line(args, ["cognition", "use-receipt", ""])
            && Required(h, ObjectAt(task, "cognition_use_receipt"), "use_receipt_id", args[2])
  {
    ObjectAtIs(task, "cognition_selection_receipt");
    ObjectAtIs(task, "cognition_use_receipt");
    UseReceipts(h, task, revision, a);
    hide UseAttribution, Ascii, SubObject, ObjectAt, Get;
  }

  lemma UseReceipts(h: Host, task: Fields, revision: Text, a: Attribution)
    requires UseAttribution(h, task, revision) == Some(a)
    ensures SubObject(task, Ascii("cognition_selection_receipt")).Some? && SubObject(task, Ascii("cognition_use_receipt")).Some?
    ensures Require(Get(SubObject(task, Ascii("cognition_selection_receipt")).value, Ascii("selection_receipt_id")))
            == Some(a.selectionReceipt)
    ensures Require(Get(SubObject(task, Ascii("cognition_use_receipt")).value, Ascii("use_receipt_id"))) == Some(a.useReceipt)
  {
    hide Ascii, SubObject, Get, SelectedRevisions, TextsOf, Truthy, Require;
  }

  /** Whatever prepare issues after the answers d is the line for them. */
  lemma PrepareStepLine(h: Host, scenario: Fields, sourceTask: Text, d: seq<Fields>, c: Command)
    requires NextMove(Script.Prepare(h, scenario, sourceTask), Objects(d)) == Issue(c) && |d| <= 8
    ensures PrepareLine(h, scenario, sourceTask, d, c.args)
  {
    hide *;
    if |d| == 0 {
      assert d == [];
      TeachStep(h, scenario, sourceTask);
      OrStopIs(TeachCommand(h, scenario, sourceTask));
      TeachLine(h, scenario, sourceTask);
    } else if |d| <= 3 {
      ProposalSteps(h, scenario, sourceTask, d);
      ProposalLines(h, scenario, sourceTask, d, ProposalId(h, d[0]).value);
    } else if |d| <= 5 {
      ReviewedSteps(h, scenario, sourceTask, d);
      ReviewedLines(h, scenario, sourceTask, d);
    } else if |d| == 6 {
      ReviewedSteps(h, scenario, sourceTask, d);
      var key := TextAt(h, scenario, Ascii("stable_key")).value;
      OrStopIs(UseCommand(h, key, scenario, "fresh_use_prompt"));
      FreshUseLine(h, scenario, sourceTask, d, key);
    } else {
      UsedSteps(h, scenario, sourceTask, d);
      FirstUseNeeds(h, d);
      var r, a := RevisionId(h, d[3]).value, FirstUse(h, Objects(d)).value;
      FirstUseIs(h, d);
      UseLines(h, d[6], r, a);
      UsedLine(h, scenario, sourceTask, d, a);
    }
  }

  lemma UsedLine(h: Host, scenario: Fields, sourceTask: Text, d: seq<Fields>, a: Attribution)
    requires 7 <= |d| <= 8
    requires var args := SelectionCommand(h, a).args;
             && Line(args, ["cognition", "selection", ""])
             && Required(h, ObjectAt(d[6], "cognition_selection_receipt"), "selection_receipt_id", args[2])
    requires var args := UseReceiptCommand(h, a).args;
             && Line(args, ["cognition", "use-receipt", ""])
             && Required(h, ObjectAt(d[6], "cognition_use_receipt"), "use_receipt_id", args[2])
    ensures PrepareLine(h, scenario, sourceTask, d, (if |d| == 7 then SelectionCommand(h, a) else UseReceiptCommand(h, a)).args)
  {
    hide Line, Required, ObjectAt, SelectionCommand, UseReceiptCommand;
  }

  lemma FirstUseNeeds(h: Host, d: seq<Fields>)
    requires |d| >= 7
    ensures FirstUse(h, Objects(d)).Some? ==> RevisionId(h, d[3]).Some?
  {
    hide RevisionId, UseAttribution;
  }

  /** Every command of a prepare run, whatever was answered. */
  lemma PrepareArguments(h: Host, scenario: Fields, sourceTask: Text, replies: seq<Reply>)
    ensures var o := RunScript(Script.Prepare(h, scenario, sourceTask), replies);
            && |o.issued| <= 9 && |o.seen| <= |o.issued| <= |o.seen| + 1
            && (forall k :: 0 <= k < |o.issued| ==>
                  o.issued[k].Json? && PrepareLine(h, scenario, sourceTask, DictsOf(o.seen, k), o.issued[k].args))
            && forall k :: 0 <= k < |o.seen| ==> o.seen[k] == Obj(Dict(o.seen, k))
  {
    hide *;
    var script := Script.Prepare(h, scenario, sourceTask);
    var o := RunScript(script, replies);
    PrepareScript(h, scenario, sourceTask, replies);
    AnswersCounted(script, replies);
    AnswersAreObjects(script, replies, |o.seen|);
    forall k | 0 <= k < |o.issued| ensures PrepareLine(h, scenario, sourceTask, DictsOf(o.seen, k), o.issued[k].args) {
      MoveAt(script, replies, k);
      DictsPrefix(o.seen, k);
      PrepareStepLine(h, scenario, sourceTask, DictsOf(o.seen, k), o.issued[k]);
    }
  }

  lemma AnswersCounted(script: Script, replies: seq<Reply>)
    ensures var o := RunScript(script, replies); |o.seen| <= |o.issued| <= |o.seen| + 1
  {
    hide NextMove, RunScript, Answer;
    RunFollows(script, replies);
  }

  lemma DictsPrefix(seen: seq<JsonValues.Json>, n: nat)
    requires n <= |seen| && forall k :: 0 <= k < n ==> seen[k] == Obj(Dict(seen, k))
    ensures Objects(DictsOf(seen, n)) == seen[..n]
  {
    hide Dict;
  }

  // ----- resume

  /** The command after the answers d; the last one has to fail. */
  ghost predicate ResumeLine(h: Host, scenario: Fields, state: Fields, d: seq<Fields>, args: seq<Text>) {
    match |d|
    case 0 => Line(args, ["cognition", "revision", ""]) && Shown(h, state, "revision_id", args[2])
    case 1 => Line(args, ["cognition", "head", ""]) && Shown(h, state, "head_id", args[2])
    case 2 =>
      && Line(args, ["cognition", "use", "", ""])
      && Shown(h, state, "stable_key", args[2]) && Required(h, scenario, "restart_use_prompt", args[3])
    case 3 =>
      && Line(args, ["cognition", "selection", ""])
      && Required(h, ObjectAt(d[2], "cognition_selection_receipt"), "selection_receipt_id", args[2])
    case 4 =>
      && Line(args, ["cognition", "use-receipt", ""])
      && Required(h, ObjectAt(d[2], "cognition_use_receipt"), "use_receipt_id", args[2])
    case 5 =>
      && Line(args, ["cognition", "lifecycle", "", "--review-request-id", "market-gc1-retire-v1", "--action", "retire",
                     "--rationale", "", "--expected-generation", ""])
      && Shown(h, state, "head_id", args[2]) && Required(h, scenario, "retire_rationale", args[8])
      && Shown(h, state, "head_generation", args[10])
    case 6 => Line(args, ["cognition", "head", ""]) && Shown(h, state, "head_id", args[2])
    case 7 =>
      && Line(args, ["cognition", "use", "", ""])
      && Shown(h, state, "stable_key", args[2]) && Required(h, scenario, "post_retirement_use_prompt", args[3])
    case _ => false
  }

  lemma RestartLines(h: Host, scenario: Fields, state: Fields, d: seq<Fields>)
    requires StateText(h, state, "revision_id").Some? && StateText(h, state, "head_id").Some?
    ensures |d| == 0 ==> ResumeLine(h, scenario, state, d, RevisionCommand(StateText(h, state, "revision_id").value).args)
    ensures |d| == 1 || |d| == 6 ==> ResumeLine(h, scenario, state, d, HeadCommand(StateText(h, state, "head_id").value).args)
  {
    StateTextIs(h, state, "revision_id");
    StateTextIs(h, state, "head_id");
    hide StateText, Shown, Ascii;
  }

  lemma RestartUseLine(h: Host, scenario: Fields, state: Fields, d: seq<Fields>, key: Text)
    requires |d| == 2 && StateText(h, state, "stable_key") == Some(key)
    requires UseCommand(h, key, scenario, "restart_use_prompt").Some?
    ensures ResumeLine(h, scenario, state, d, UseCommand(h, key, scenario, "restart_use_prompt").value.args)
  {
    StateTextIs(h, state, "stable_key");
    TextAtIs(h, scenario, "restart_use_prompt");
    hide StateText, TextAt, Shown, Required, Ascii;
  }

  lemma RetireLine(h: Host, scenario: Fields, state: Fields, d: seq<Fields>)
    requires |d| == 5 && RetireCommand(h, scenario, state).Some?
    ensures ResumeLine(h, scenario, state, d, RetireCommand(h, scenario, state).value.args)
  {
    StateTextIs(h, state, "head_id");
    StateTextIs(h, state, "head_generation");
    TextAtIs(h, scenario, "retire_rationale");
    hide StateText, TextAt, Shown, Required, Ascii;
  }

  lemma RefusedLine(h: Host, scenario: Fields, state: Fields, d: seq<Fields>)
    requires |d| == 7 && RefusedUseCommand(h, scenario, state).Some?
    ensures ResumeLine(h, scenario, state, d, RefusedUseCommand(h, scenario, state).value.args)
  {
    StateTextIs(h, state, "stable_key");
    TextAtIs(h, scenario, "post_retirement_use_prompt");
    hide StateText, TextAt, Shown, Required, Ascii;
  }

  lemma RestartUsedLine(h: Host, scenario: Fields, state: Fields, d: seq<Fields>, a: Attribution)
    requires 3 <= |d| <= 4
    requires var args := SelectionCommand(h, a).args;
             && Line(args, ["cognition", "selection", ""])
             && Required(h, ObjectAt(d[2], "cognition_selection_receipt"), "selection_receipt_id", args[2])
    requires var args := UseReceiptCommand(h, a).args;
             && Line(args, ["cognition", "use-receipt", ""])
             && Required(h, ObjectAt(d[2], "cognition_use_receipt"), "use_receipt_id", args[2])
    ensures ResumeLine(h, scenario, state, d, (if |d| == 3 then SelectionCommand(h, a) else UseReceiptCommand(h, a)).args)
  {
    hide Line, Required, ObjectAt, SelectionCommand, UseReceiptCommand;
  }

  /** Whatever resume issues after the answers d is the line for them. */
  lemma ResumeStepLine(h: Host, scenario: Fields, state: Fields, d: seq<Fields>, c: Command)
    requires NextMove(Script.Resume(h, scenario, state), Objects(d)) == Issue(c) && |d| <= 7
    ensures ResumeLine(h, scenario, state, d, c.args)
  {
    hide *;
    IssuesWhereResumable(h, scenario, state, d);
    ResumableTexts(h, scenario, state);
    RestartLines(h, scenario, state, d);
    if |d| <= 2 {
      RestartSteps(h, scenario, state, d);
      if |d| == 2 {
        var key := StateText(h, state, "stable_key").value;
        OrStopIs(UseCommand(h, key, scenario, "restart_use_prompt"));
        RestartUseLine(h, scenario, state, d, key);
      }
    } else if |d| <= 5 {
      RestartUseSteps(h, scenario, state, d);
      RestartUseIs(h, state, d, []);
      var a := RestartUse(h, state, Objects(d)).value;
      if |d| == 5 {
        OrStopIs(RetireCommand(h, scenario, state));
        RetireLine(h, scenario, state, d);
      } else {
        UseLines(h, d[2], StateText(h, state, "revision_id").value, a);
        RestartUsedLine(h, scenario, state, d, a);
      }
    } else {
      RetireSteps(h, scenario, state, d);
      if |d| == 7 {
        OrStopIs(RefusedUseCommand(h, scenario, state));
        RefusedLine(h, scenario, state, d);
      }
    }
  }

  lemma IssuesWhereResumable(h: Host, scenario: Fields, state: Fields, d: seq<Fields>)
    requires NextMove(Script.Resume(h, scenario, state), Objects(d)).Issue?
    ensures Resumable(h, scenario, state)
  {
    hide Resumable, Objects, Ascii, Get;
  }

  /** Every command of a resume run, whatever was answered. */
  lemma ResumeArguments(h: Host, scenario: Fields, state: Fields, replies: seq<Reply>)
    ensures var o := RunScript(Script.Resume(h, scenario, state), replies);
            && |o.issued| <= 8 && |o.seen| <= |o.issued| <= |o.seen| + 1
            && (forall k :: 0 <= k < |o.issued| ==>
                  && (o.issued[k].Failure? <==> k == 7)
                  && ResumeLine(h, scenario, state, DictsOf(o.seen, k), o.issued[k].args))
            && forall k :: 0 <= k < |o.seen| && k < 7 ==> o.seen[k] == Obj(Dict(o.seen, k))
  {
    hide *;
    var script := Script.Resume(h, scenario, state);
    var o := RunScript(script, replies);
    ResumeScript(h, scenario, state, replies);
    AnswersCounted(script, replies);
    AnswersAreObjects(script, replies, if |o.seen| < 7 then |o.seen| else 7);
    forall k | 0 <= k < |o.issued| ensures ResumeLine(h, scenario, state, DictsOf(o.seen, k), o.issued[k].args) {
      MoveAt(script, replies, k);
      DictsPrefix(o.seen, k);
      ResumeStepLine(h, scenario, state, DictsOf(o.seen, k), o.issued[k]);
    }
  }
}
