/**
  When a phase succeeds: exactly when its commands are answered and the answers pass every
  check. The checks are listed here as the script makes them, apart from the move tables.
 */
module JourneySuccess {
  import opened Options
  import opened Texts
  import opened JsonValues
  import opened JsonLimits
  import opened Cli
  import opened Journey
  import opened JourneyRuns
  import opened JourneyProgram

  /** The replies answer the commands, one after the other. */
  ghost predicate Answered(l: Limits, commands: seq<Command>, replies: seq<Reply>, seen: seq<JsonValues.Json>) {
    && |commands| == |seen| <= |replies|
    && forall k :: 0 <= k < |seen| ==> Answer(l, commands[k], replies[k]) == Some(seen[k])
  }

  /** Every command is the move its answers call for, up to the end. */
  ghost predicate Leads(script: Script, commands: seq<Command>, seen: seq<JsonValues.Json>, state: Fields) {
    && |commands| == |seen|
    && (forall k :: 0 <= k < |seen| ==> NextMove(script, seen[..k]) == Issue(commands[k]))
    && NextMove(script, seen) == Done(state)
  }

  lemma {:induction false} DriveAll(script: Script, commands: seq<Command>, replies: seq<Reply>,
                                    seen: seq<JsonValues.Json>, state: Fields, k: nat)
    requires Leads(script, commands, seen, state) && Answered(script.host.limits, commands, replies, seen) && k <= |seen|
    ensures Drive(script, replies[k..], seen[..k], commands[..k]) == Outcome(commands, seen, Some(state))
    decreases |seen| - k
  {
    hide NextMove, Answer;
    if k == |seen| {
      assert seen[..k] == seen && commands[..k] == commands;
    } else {
      DriveAll(script, commands, replies, seen, state, k + 1);
      assert NextMove(script, seen[..k]) == Issue(commands[k]);
      assert replies[k..] != [] && replies[k..][0] == replies[k] && replies[k..][1..] == replies[k + 1..];
      assert seen[..k + 1] == seen[..k] + [seen[k]] && commands[..k + 1] == commands[..k] + [commands[k]];
    }
  }

  /** A run whose commands are answered to the end succeeds. */
  lemma RunsThrough(script: Script, commands: seq<Command>, replies: seq<Reply>, seen: seq<JsonValues.Json>, state: Fields)
    requires Leads(script, commands, seen, state) && Answered(script.host.limits, commands, replies, seen)
    ensures RunScript(script, replies) == Outcome(commands, seen, Some(state))
  {
    DriveAll(script, commands, replies, seen, state, 0);
    hide Leads, Answered, Drive;
    assert replies[0..] == replies && seen[..0] == [] && commands[..0] == [];
  }

  /** A run that succeeds had its commands answered to the end. */
  lemma RanThrough(script: Script, replies: seq<Reply>)
    requires RunScript(script, replies).result.Some?
    ensures var o := RunScript(script, replies);
            Leads(script, o.issued, o.seen, o.result.value) && Answered(script.host.limits, o.issued, replies, o.seen)
  {
    hide RunScript, NextMove, Answer;
    RunFollows(script, replies);
  }

  lemma ObjectsPrefix(d: seq<Fields>, k: nat)
    requires k <= |d|
    ensures Objects(d)[..k] == Objects(d[..k])
  {
  }

  // ----- prepare

  function Attributed(h: Host, d: seq<Fields>): Option<Attribution>
    requires |d| == 9
  {
    var r :- RevisionId(h, d[3]);
    UseAttribution(h, d[6], r)
  }

  /** Every check prepare makes on the scenario and on its nine answers. */
  ghost predicate PrepareChecks(h: Host, scenario: Fields, sourceTask: Text, d: seq<Fields>) {
    && |d| == 9
    && TeachCommand(h, scenario, sourceTask).Some?
    && ProposalId(h, d[0]).Some?
    && ReviewAllowed(h, d[1], d[2])
    && RevisionId(h, d[3]).Some? && HeadId(h, d[3]).Some?
    && Get(d[4], Ascii("revision_id")) == Some(Str(RevisionId(h, d[3]).value))
    && ActiveHead(d[5], RevisionId(h, d[3]).value)
    && TextAt(h, scenario, Ascii("stable_key")).Some?
    && UseCommand(h, TextAt(h, scenario, Ascii("stable_key")).value, scenario, "fresh_use_prompt").Some?
    && Attributed(h, d).Some?
    && PreparedEvidence(h, scenario, sourceTask, Objects(d)).Some?
    && Writable(h.limits, Obj(PreparedState(PreparedEvidence(h, scenario, sourceTask, Objects(d)).value)))
  }

  /** What the last two answers and the record itself add to the checks before them. */
  lemma RecordedExactly(h: Host, scenario: Fields, sourceTask: Text, d: seq<Fields>)
    requires |d| == 9 && TextAt(h, scenario, Ascii("stable_key")).Some?
    requires ProposalId(h, d[0]).Some? && RevisionId(h, d[3]).Some? && HeadId(h, d[3]).Some? && Attributed(h, d).Some?
    ensures SubObject(d[0], Ascii("proposal")).Some? && ApprovedReceipt(d[3]).Some?
    ensures PreparedEvidence(h, scenario, sourceTask, Objects(d)).Some?
            <==> && UseUnchanged(h, Attributed(h, d).value, d[7], d[8])
                 && Require(Get(SubObject(d[0], Ascii("proposal")).value, Ascii("proposal_hash"))).Some?
                 && Require(Get(ApprovedReceipt(d[3]).value, Ascii("receipt_id"))).Some?
                 && Require(Get(d[5], Ascii("generation"))).Some?
                 && PyInt(h, Require(Get(d[5], Ascii("generation"))).value).Some?
  {
    FirstUseIs(h, d);
    hide UseUnchanged, UseAttribution, Get, Ascii, TextAt, SubObject, PyInt, Hash, UseDict, NotSelectable, FirstUse, Require;
  }

  /** The nine commands of a prepare run that passes its checks. */
  ghost function PrepareCommands(h: Host, scenario: Fields, sourceTask: Text, d: seq<Fields>): (c: seq<Command>)
    requires PrepareChecks(h, scenario, sourceTask, d)
    ensures |c| == 9
  {
    var p, a := ProposalId(h, d[0]).value, Attributed(h, d).value;
    [TeachCommand(h, scenario, sourceTask).value, InspectCommand(p), DiffCommand(p), ReviewCommand(p),
     RevisionCommand(RevisionId(h, d[3]).value), HeadCommand(HeadId(h, d[3]).value),
     UseCommand(h, TextAt(h, scenario, Ascii("stable_key")).value, scenario, "fresh_use_prompt").value,
     SelectionCommand(h, a), UseReceiptCommand(h, a)]
  }

  /** The move after the first k answers, when all checks hold. */
  lemma PrepareMoves(h: Host, scenario: Fields, sourceTask: Text, d: seq<Fields>, k: nat)
    requires PrepareChecks(h, scenario, sourceTask, d) && k < 9
    ensures NextMove(Script.Prepare(h, scenario, sourceTask), Objects(d)[..k])
            == Issue(PrepareCommands(h, scenario, sourceTask, d)[k])
  {
    hide NextMove, TeachCommand, ProposalId, ReviewAllowed, RevisionId, HeadId, ActiveHead, TextAt, UseCommand, UseAttribution,
      PreparedEvidence, PreparedState, Writable, Get, Ascii, Objects, InspectCommand, DiffCommand, ReviewCommand,
      RevisionCommand, HeadCommand, SelectionCommand, UseReceiptCommand, FirstUse;
    ObjectsPrefix(d, k);
    if k == 0 {
      TeachStep(h, scenario, sourceTask);
      assert d[..0] == [];
    } else if k <= 3 {
      ProposalSteps(h, scenario, sourceTask, d[..k]);
    } else if k <= 6 {
      ReviewedSteps(h, scenario, sourceTask, d[..k]);
    } else {
      UsedSteps(h, scenario, sourceTask, d[..k]);
      FirstUseIs(h, d[..k]);
    }
  }

  lemma PrepareEnds(h: Host, scenario: Fields, sourceTask: Text, d: seq<Fields>)
    requires PrepareChecks(h, scenario, sourceTask, d)
    ensures NextMove(Script.Prepare(h, scenario, sourceTask), Objects(d))
            == Done(PreparedState(PreparedEvidence(h, scenario, sourceTask, Objects(d)).value))
  {
    hide NextMove, TeachCommand, ProposalId, ReviewAllowed, RevisionId, HeadId, ActiveHead, TextAt, UseCommand, UseAttribution,
      PreparedEvidence, PreparedState, Writable, Get, Ascii, Objects, FirstUse;
    UsedSteps(h, scenario, sourceTask, d);
  }

  /** Nine answers that pass the checks, each the answer to its command. */
  ghost predicate PrepareAnswers(h: Host, scenario: Fields, sourceTask: Text, replies: seq<Reply>, d: seq<Fields>) {
    && PrepareChecks(h, scenario, sourceTask, d)
    && Answered(h.limits, PrepareCommands(h, scenario, sourceTask, d), replies, Objects(d))
  }

  /** When the checks hold, prepare succeeds with what it has recorded. */
  lemma PrepareSucceeds(h: Host, scenario: Fields, sourceTask: Text, replies: seq<Reply>, d: seq<Fields>)
    requires PrepareAnswers(h, scenario, sourceTask, replies, d)
    ensures RunScript(Script.Prepare(h, scenario, sourceTask), replies)
            == Outcome(PrepareCommands(h, scenario, sourceTask, d), Objects(d),
                       Some(PreparedState(PreparedEvidence(h, scenario, sourceTask, Objects(d)).value)))
  {
    assert PrepareChecks(h, scenario, sourceTask, d)
           && Answered(h.limits, PrepareCommands(h, scenario, sourceTask, d), replies, Objects(d));
    assert PreparedEvidence(h, scenario, sourceTask, Objects(d)).Some? && |d| == 9;
    var state := PreparedState(PreparedEvidence(h, scenario, sourceTask, Objects(d)).value);
    hide *;
    var script := Script.Prepare(h, scenario, sourceTask);
    var commands := PrepareCommands(h, scenario, sourceTask, d);
    forall k | 0 <= k < |Objects(d)| ensures NextMove(script, Objects(d)[..k]) == Issue(commands[k]) {
      PrepareMoves(h, scenario, sourceTask, d, k);
    }
    PrepareEnds(h, scenario, sourceTask, d);
    LeadsNow(script, commands, Objects(d), state);
    RunsThrough(script, commands, replies, Objects(d), state);
  }

  lemma LeadsNow(script: Script, commands: seq<Command>, seen: seq<JsonValues.Json>, state: Fields)
    requires |commands| == |seen| && NextMove(script, seen) == Done(state)
    requires forall k :: 0 <= k < |seen| ==> NextMove(script, seen[..k]) == Issue(commands[k])
    ensures Leads(script, commands, seen, state)
  {
    hide NextMove;
  }

  lemma LeadsAt(script: Script, commands: seq<Command>, seen: seq<JsonValues.Json>, state: Fields, k: nat)
    requires Leads(script, commands, seen, state) && k < |seen|
    ensures k < |commands| && NextMove(script, seen[..k]) == Issue(commands[k])
  {
    hide NextMove;
  }

  lemma TaughtAndReviewed(h: Host, scenario: Fields, sourceTask: Text, d: seq<Fields>, c: seq<Command>, state: Fields)
    requires |d| == 9 && Leads(Script.Prepare(h, scenario, sourceTask), c, Objects(d), state)
    ensures TeachCommand(h, scenario, sourceTask).Some? && ProposalId(h, d[0]).Some? && ReviewAllowed(h, d[1], d[2])
    ensures var p := ProposalId(h, d[0]).value;
            && |c| == 9 && c[0] == TeachCommand(h, scenario, sourceTask).value
            && c[1] == InspectCommand(p) && c[2] == DiffCommand(p) && c[3] == ReviewCommand(p)
  {
    var script := Script.Prepare(h, scenario, sourceTask);
    assert |c| == 9;
    hide NextMove, TeachCommand, ProposalId, ReviewAllowed, Objects, InspectCommand, DiffCommand, ReviewCommand, Leads;
    LeadsAt(script, c, Objects(d), state, 0);
    ObjectsPrefix(d, 0);
    TeachStep(h, scenario, sourceTask);
    assert d[..0] == [];
    forall k | 1 <= k <= 3 ensures NextMove(script, Objects(d[..k])) == Issue(c[k]) {
      LeadsAt(script, c, Objects(d), state, k);
      ObjectsPrefix(d, k);
    }
    ProposalSteps(h, scenario, sourceTask, d[..1]);
    ProposalSteps(h, scenario, sourceTask, d[..2]);
    ProposalSteps(h, scenario, sourceTask, d[..3]);
  }

  lemma ReadBackAndUsed(h: Host, scenario: Fields, sourceTask: Text, d: seq<Fields>, c: seq<Command>, state: Fields)
    requires |d| == 9 && Leads(Script.Prepare(h, scenario, sourceTask), c, Objects(d), state)
    ensures RevisionId(h, d[3]).Some? && HeadId(h, d[3]).Some? && TextAt(h, scenario, Ascii("stable_key")).Some?
    ensures var r, key := RevisionId(h, d[3]).value, TextAt(h, scenario, Ascii("stable_key")).value;
            && Get(d[4], Ascii("revision_id")) == Some(Str(r)) && ActiveHead(d[5], r)
            && UseCommand(h, key, scenario, "fresh_use_prompt").Some?
            && |c| == 9 && c[4] == RevisionCommand(r) && c[5] == HeadCommand(HeadId(h, d[3]).value)
            && c[6] == UseCommand(h, key, scenario, "fresh_use_prompt").value
  {
    var script := Script.Prepare(h, scenario, sourceTask);
    assert |c| == 9;
    hide NextMove, RevisionId, HeadId, ActiveHead, TextAt, UseCommand, Get, Ascii, Objects, RevisionCommand, HeadCommand, Leads;
    forall k | 4 <= k <= 6 ensures NextMove(script, Objects(d[..k])) == Issue(c[k]) {
      LeadsAt(script, c, Objects(d), state, k);
      ObjectsPrefix(d, k);
    }
    ReviewedSteps(h, scenario, sourceTask, d[..4]);
    ReviewedSteps(h, scenario, sourceTask, d[..5]);
    ReviewedSteps(h, scenario, sourceTask, d[..6]);
  }

  lemma AttributedAndRecorded(h: Host, scenario: Fields, sourceTask: Text, d: seq<Fields>, c: seq<Command>, state: Fields)
    requires |d| == 9 && Leads(Script.Prepare(h, scenario, sourceTask), c, Objects(d), state)
    requires RevisionId(h, d[3]).Some?
    ensures Attributed(h, d).Some? && PreparedEvidence(h, scenario, sourceTask, Objects(d)).Some?
    ensures Writable(h.limits, Obj(PreparedState(PreparedEvidence(h, scenario, sourceTask, Objects(d)).value)))
    ensures var a := Attributed(h, d).value; |c| == 9 && c[7] == SelectionCommand(h, a) && c[8] == UseReceiptCommand(h, a)
  {
    var script := Script.Prepare(h, scenario, sourceTask);
    assert |c| == 9 && NextMove(script, Objects(d)) == Done(state);
    hide NextMove, RevisionId, UseAttribution, PreparedEvidence, PreparedState, Writable, Objects, SelectionCommand,
      UseReceiptCommand, FirstUse, Leads;
    forall k | 7 <= k <= 8 ensures NextMove(script, Objects(d[..k])) == Issue(c[k]) {
      LeadsAt(script, c, Objects(d), state, k);
      ObjectsPrefix(d, k);
    }
    UsedSteps(h, scenario, sourceTask, d[..7]);
    UsedSteps(h, scenario, sourceTask, d[..8]);
    UsedSteps(h, scenario, sourceTask, d);
    FirstUseIs(h, d[..7]);
    FirstUseIs(h, d[..8]);
  }

  lemma PrepareChecked(h: Host, scenario: Fields, sourceTask: Text, d: seq<Fields>, c: seq<Command>, state: Fields)
    requires |d| == 9 && Leads(Script.Prepare(h, scenario, sourceTask), c, Objects(d), state)
    ensures PrepareChecks(h, scenario, sourceTask, d) && PrepareCommands(h, scenario, sourceTask, d) == c
  {
    hide Leads, TeachCommand, ProposalId, ReviewAllowed, RevisionId, HeadId, ActiveHead, TextAt, UseCommand, Attributed,
      PreparedEvidence, PreparedState, Writable, Get, Ascii, Objects, InspectCommand, DiffCommand, ReviewCommand,
      RevisionCommand, HeadCommand, SelectionCommand, UseReceiptCommand;
    TaughtAndReviewed(h, scenario, sourceTask, d, c, state);
    ReadBackAndUsed(h, scenario, sourceTask, d, c, state);
    AttributedAndRecorded(h, scenario, sourceTask, d, c, state);
  }

  function DictsOf(seen: seq<JsonValues.Json>, n: nat): (d: seq<Fields>)
    ensures |d| == n && forall k :: 0 <= k < n ==> d[k] == Dict(seen, k)
  {
    seq(n, k requires 0 <= k => Dict(seen, k))
  }

  lemma DictsObjects(seen: seq<JsonValues.Json>)
    requires forall k :: 0 <= k < |seen| ==> seen[k] == Obj(Dict(seen, k))
    ensures Objects(DictsOf(seen, |seen|)) == seen
  {
    hide Dict;
  }

  /** Prepare succeeds exactly when its nine commands are answered and the answers pass every check. */
  lemma PrepareSucceedsExactly(h: Host, scenario: Fields, sourceTask: Text, replies: seq<Reply>)
    ensures RunScript(Script.Prepare(h, scenario, sourceTask), replies).result.Some?
            <==> exists d :: PrepareAnswers(h, scenario, sourceTask, replies, d)
  {
    hide *;
    var script := Script.Prepare(h, scenario, sourceTask);
    var o := RunScript(script, replies);
    if o.result.Some? {
      RanThrough(script, replies);
      PrepareScript(h, scenario, sourceTask, replies);
      NineAnswers(script, o.issued, replies, o.seen, o.result.value);
      AnswersAreObjects(script, replies, 9);
      DictsObjects(o.seen);
      var d := DictsOf(o.seen, 9);
      PrepareChecked(h, scenario, sourceTask, d, o.issued, o.result.value);
      AnswersNow(h, scenario, sourceTask, replies, d);
    }
    if d :| PrepareAnswers(h, scenario, sourceTask, replies, d) {
      PrepareSucceeds(h, scenario, sourceTask, replies, d);
    }
  }

  lemma NineAnswers(script: Script, commands: seq<Command>, replies: seq<Reply>, seen: seq<JsonValues.Json>, state: Fields)
    requires Leads(script, commands, seen, state)
    ensures |commands| == |seen|
  {
    hide NextMove;
  }

  lemma AnswersNow(h: Host, scenario: Fields, sourceTask: Text, replies: seq<Reply>, d: seq<Fields>)
    requires PrepareChecks(h, scenario, sourceTask, d)
    requires Answered(h.limits, PrepareCommands(h, scenario, sourceTask, d), replies, Objects(d))
    ensures PrepareAnswers(h, scenario, sourceTask, replies, d)
  {
    hide PrepareChecks, Answered, PrepareCommands, Objects;
  }

  // ----- resume

  /** Every check resume makes on the loaded state, the scenario, its seven answers and the final refusal. */
  ghost predicate ResumeChecks(h: Host, scenario: Fields, state: Fields, d: seq<Fields>, failure: Text) {
    && |d| == 7 && Resumable(h, scenario, state)
    && UnchangedAcrossRestart(h, state, d[0], d[1])
    && ActiveHead(d[1], StateText(h, state, "revision_id").value)
    && UseCommand(h, StateText(h, state, "stable_key").value, scenario, "restart_use_prompt").Some?
    && UseAttribution(h, d[2], StateText(h, state, "revision_id").value).Some?
    && UseUnchanged(h, UseAttribution(h, d[2], StateText(h, state, "revision_id").value).value, d[3], d[4])
    && RetireCommand(h, scenario, state).Some?
    && RetiredReceipt(d[5]).Some?
    && Get(d[6], Ascii("lifecycle")) == Some(Str(Ascii("retired")))
    && RefusedUseCommand(h, scenario, state).Some?
    && CompletionUpdates(h, state, Objects(d) + [Str(failure)]).Some?
    && Writable(h.limits, Obj(PutAll(state, CompletionUpdates(h, state, Objects(d) + [Str(failure)]).value)))
  }

  /** What the refusal and the record itself add to the checks before them. */
  lemma CompletedExactly(h: Host, state: Fields, d: seq<Fields>, failure: Text)
    requires |d| == 7 && StateText(h, state, "revision_id").Some? && RetiredReceipt(d[5]).Some?
    requires UseAttribution(h, d[2], StateText(h, state, "revision_id").value).Some?
    ensures CompletionUpdates(h, state, Objects(d) + [Str(failure)]).Some?
            <==> ProvesIneligibility(failure) && Require(Get(RetiredReceipt(d[5]).value, Ascii("receipt_id"))).Some?
  {
    RestartUseIs(h, state, d, [Str(failure)]);
    hide UseAttribution, Get, Ascii, StateText, RetiredReceipt, Hash, UseDict, ProvesIneligibility, RestartUse, Require;
    var seen := Objects(d) + [Str(failure)];
    assert seen[2] == Obj(d[2]) && seen[5] == Obj(d[5]) && seen[7] == Str(failure);
  }

  /** The eight commands of a resume run that passes its checks. */
  ghost function ResumeCommands(h: Host, scenario: Fields, state: Fields, d: seq<Fields>, failure: Text): (c: seq<Command>)
    requires ResumeChecks(h, scenario, state, d, failure)
    ensures |c| == 8
  {
    var r, i := StateText(h, state, "revision_id").value, StateText(h, state, "head_id").value;
    var a := UseAttribution(h, d[2], r).value;
    [RevisionCommand(r), HeadCommand(i),
     UseCommand(h, StateText(h, state, "stable_key").value, scenario, "restart_use_prompt").value,
     SelectionCommand(h, a), UseReceiptCommand(h, a), RetireCommand(h, scenario, state).value, HeadCommand(i),
     RefusedUseCommand(h, scenario, state).value]
  }

  lemma ResumePrefix(d: seq<Fields>, failure: Text, k: nat)
    requires k <= |d|
    ensures (Objects(d) + [Str(failure)])[..k] == Objects(d[..k])
  {
    ObjectsPrefix(d, k);
  }

  lemma RestartFacts(h: Host, scenario: Fields, state: Fields, d: seq<Fields>, failure: Text)
    requires ResumeChecks(h, scenario, state, d, failure)
    ensures |d| == 7 && Resumable(h, scenario, state)
    ensures StateText(h, state, "revision_id").Some? && StateText(h, state, "head_id").Some? && StateText(h, state, "stable_key").Some?
    ensures UnchangedAcrossRestart(h, state, d[0], d[1]) && ActiveHead(d[1], StateText(h, state, "revision_id").value)
    ensures UseCommand(h, StateText(h, state, "stable_key").value, scenario, "restart_use_prompt").Some?
  {
    ResumableTexts(h, scenario, state);
    hide Resumable, UnchangedAcrossRestart, ActiveHead, StateText, UseCommand, UseAttribution, UseUnchanged,
      RetireCommand, RetiredReceipt, RefusedUseCommand, CompletionUpdates, Writable, PutAll, Get, Ascii, Objects,
      RevisionCommand, HeadCommand, SelectionCommand, UseReceiptCommand;
  }

  lemma UseFacts(h: Host, scenario: Fields, state: Fields, d: seq<Fields>, failure: Text)
    requires ResumeChecks(h, scenario, state, d, failure)
    ensures |d| == 7 && StateText(h, state, "revision_id").Some?
    ensures var a := UseAttribution(h, d[2], StateText(h, state, "revision_id").value);
            a.Some? && UseUnchanged(h, a.value, d[3], d[4]) && RetireCommand(h, scenario, state).Some?
    ensures RetiredReceipt(d[5]).Some? && Get(d[6], Ascii("lifecycle")) == Some(Str(Ascii("retired")))
    ensures RefusedUseCommand(h, scenario, state).Some?
  {
    ResumableTexts(h, scenario, state);
    hide Resumable, UnchangedAcrossRestart, ActiveHead, StateText, UseCommand, UseAttribution, UseUnchanged,
      RetireCommand, RetiredReceipt, RefusedUseCommand, CompletionUpdates, Writable, PutAll, Get, Ascii, Objects,
      RevisionCommand, HeadCommand, SelectionCommand, UseReceiptCommand;
  }

  lemma ResumeCommandsAre(h: Host, scenario: Fields, state: Fields, d: seq<Fields>, failure: Text, r: Text, i: Text, key: Text,
                          a: Attribution, use: Command, retire: Command, refused: Command)
    requires ResumeChecks(h, scenario, state, d, failure) && |d| == 7
    requires StateText(h, state, "revision_id") == Some(r) && StateText(h, state, "head_id") == Some(i)
    requires StateText(h, state, "stable_key") == Some(key)
    requires UseCommand(h, key, scenario, "restart_use_prompt") == Some(use) && UseAttribution(h, d[2], r) == Some(a)
    requires RetireCommand(h, scenario, state) == Some(retire) && RefusedUseCommand(h, scenario, state) == Some(refused)
    ensures ResumeCommands(h, scenario, state, d, failure)
            == [RevisionCommand(r), HeadCommand(i), use, SelectionCommand(h, a), UseReceiptCommand(h, a), retire, HeadCommand(i), refused]
  {
    hide ResumeChecks, Resumable, UnchangedAcrossRestart, ActiveHead, StateText, UseCommand, UseAttribution, UseUnchanged,
      RetireCommand, RetiredReceipt, RefusedUseCommand, CompletionUpdates, Writable, PutAll, Get, Ascii, Objects,
      RevisionCommand, HeadCommand, SelectionCommand, UseReceiptCommand;
  }

  /** The move after the first k answers, when all checks hold. */
  lemma ResumeMoves(h: Host, scenario: Fields, state: Fields, d: seq<Fields>, failure: Text, k: nat)
    requires ResumeChecks(h, scenario, state, d, failure) && k < 8 && |d| == 7
    ensures NextMove(Script.Resume(h, scenario, state), (Objects(d) + [Str(failure)])[..k])
            == Issue(ResumeCommands(h, scenario, state, d, failure)[k])
  {
    hide *;
    RestartFacts(h, scenario, state, d, failure);
    UseFacts(h, scenario, state, d, failure);
    var r, i, key := StateText(h, state, "revision_id").value, StateText(h, state, "head_id").value, StateText(h, state, "stable_key").value;
    var use, a := UseCommand(h, key, scenario, "restart_use_prompt"), UseAttribution(h, d[2], r).value;
    var retire, refused := RetireCommand(h, scenario, state), RefusedUseCommand(h, scenario, state);
    ResumeCommandsAre(h, scenario, state, d, failure, r, i, key, a, use.value, retire.value, refused.value);
    ResumePrefix(d, failure, k);
    if k <= 2 {
      OrStopIs(use);
      RestartSteps(h, scenario, state, d[..k]);
    } else if k <= 5 {
      OrStopIs(retire);
      RestartUseIs(h, state, d[..k], []);
      RestartUseSteps(h, scenario, state, d[..k]);
    } else {
      OrStopIs(refused);
      RetireSteps(h, scenario, state, d[..k]);
    }
  }

  lemma ResumeEndsWell(h: Host, scenario: Fields, state: Fields, d: seq<Fields>, failure: Text)
    requires ResumeChecks(h, scenario, state, d, failure)
    ensures NextMove(Script.Resume(h, scenario, state), Objects(d) + [Str(failure)])
            == Done(PutAll(state, CompletionUpdates(h, state, Objects(d) + [Str(failure)]).value))
  {
    hide NextMove, Resumable, UnchangedAcrossRestart, ActiveHead, StateText, UseCommand, UseAttribution, UseUnchanged,
      RetireCommand, RetiredReceipt, RefusedUseCommand, CompletionUpdates, Writable, PutAll, Get, Ascii, Objects;
    CompletionStep(h, scenario, state, d, failure);
  }

  ghost predicate ResumeAnswers(h: Host, scenario: Fields, state: Fields, replies: seq<Reply>, d: seq<Fields>, failure: Text) {
    && ResumeChecks(h, scenario, state, d, failure)
    && Answered(h.limits, ResumeCommands(h, scenario, state, d, failure), replies, Objects(d) + [Str(failure)])
  }

  lemma ResumeAnswersView(h: Host, scenario: Fields, state: Fields, replies: seq<Reply>, d: seq<Fields>, failure: Text)
    requires ResumeAnswers(h, scenario, state, replies, d, failure)
    ensures ResumeChecks(h, scenario, state, d, failure) && |d| == 7
    ensures CompletionUpdates(h, state, Objects(d) + [Str(failure)]).Some?
    ensures Answered(h.limits, ResumeCommands(h, scenario, state, d, failure), replies, Objects(d) + [Str(failure)])
  {
    hide Answered, ResumeCommands, Resumable, UnchangedAcrossRestart, ActiveHead, StateText, UseCommand, UseAttribution,
      UseUnchanged, RetireCommand, RetiredReceipt, RefusedUseCommand, CompletionUpdates, Writable, PutAll, Get, Ascii, Objects;
  }

  /** When the checks hold, resume succeeds with the completed receipt. */
  lemma ResumeSucceeds(h: Host, scenario: Fields, state: Fields, replies: seq<Reply>, d: seq<Fields>, failure: Text)
    requires ResumeAnswers(h, scenario, state, replies, d, failure)
    ensures ResumeChecks(h, scenario, state, d, failure)
    ensures RunScript(Script.Resume(h, scenario, state), replies)
            == Outcome(ResumeCommands(h, scenario, state, d, failure), Objects(d) + [Str(failure)],
                       Some(PutAll(state, CompletionUpdates(h, state, Objects(d) + [Str(failure)]).value)))
  {
    hide *;
    ResumeAnswersView(h, scenario, state, replies, d, failure);
    var script := Script.Resume(h, scenario, state);
    var seen := Objects(d) + [Str(failure)];
    var commands := ResumeCommands(h, scenario, state, d, failure);
    var final := PutAll(state, CompletionUpdates(h, state, seen).value);
    forall k | 0 <= k < |seen| ensures NextMove(script, seen[..k]) == Issue(commands[k]) {
      ResumeMoves(h, scenario, state, d, failure, k);
    }
    ResumeEndsWell(h, scenario, state, d, failure);
    LeadsNow(script, commands, seen, final);
    RunsThrough(script, commands, replies, seen, final);
  }

  lemma RestartChecked(h: Host, scenario: Fields, state: Fields, d: seq<Fields>, failure: Text, c: seq<Command>, final: Fields)
    requires |d| == 7 && Leads(Script.Resume(h, scenario, state), c, Objects(d) + [Str(failure)], final)
    ensures |c| == 8 && Resumable(h, scenario, state)
    ensures StateText(h, state, "revision_id").Some? && StateText(h, state, "head_id").Some? && StateText(h, state, "stable_key").Some?
    ensures var r := StateText(h, state, "revision_id").value;
            var use := UseCommand(h, StateText(h, state, "stable_key").value, scenario, "restart_use_prompt");
            && UnchangedAcrossRestart(h, state, d[0], d[1]) && ActiveHead(d[1], r) && use.Some?
            && c[0] == RevisionCommand(r) && c[1] == HeadCommand(StateText(h, state, "head_id").value) && c[2] == use.value
  {
    var script := Script.Resume(h, scenario, state);
    assert |c| == 8;
    hide NextMove, Resumable, UnchangedAcrossRestart, ActiveHead, StateText, UseCommand, Objects, RevisionCommand, HeadCommand, Leads;
    forall k | 0 <= k <= 2 ensures NextMove(script, Objects(d[..k])) == Issue(c[k]) {
      LeadsAt(script, c, Objects(d) + [Str(failure)], final, k);
      ResumePrefix(d, failure, k);
    }
    assert d[..0] == [];
    if !Resumable(h, scenario, state) {
      RefusedStep(h, scenario, state);
    }
    ResumableTexts(h, scenario, state);
    RestartSteps(h, scenario, state, d[..0]);
    RestartSteps(h, scenario, state, d[..1]);
    RestartSteps(h, scenario, state, d[..2]);
  }

  lemma RestartUseChecked(h: Host, scenario: Fields, state: Fields, d: seq<Fields>, failure: Text, c: seq<Command>, final: Fields)
    requires |d| == 7 && Leads(Script.Resume(h, scenario, state), c, Objects(d) + [Str(failure)], final)
    requires Resumable(h, scenario, state) && StateText(h, state, "revision_id").Some?
    ensures var a := UseAttribution(h, d[2], StateText(h, state, "revision_id").value);
            && a.Some? && UseUnchanged(h, a.value, d[3], d[4]) && RetireCommand(h, scenario, state).Some?
            && |c| == 8 && c[3] == SelectionCommand(h, a.value) && c[4] == UseReceiptCommand(h, a.value)
            && c[5] == RetireCommand(h, scenario, state).value
  {
    var script := Script.Resume(h, scenario, state);
    assert |c| == 8;
    hide NextMove, Resumable, StateText, UseAttribution, UseUnchanged, RetireCommand, Objects, SelectionCommand, UseReceiptCommand,
      Leads, RestartUse;
    forall k | 3 <= k <= 5 ensures NextMove(script, Objects(d[..k])) == Issue(c[k]) {
      LeadsAt(script, c, Objects(d) + [Str(failure)], final, k);
      ResumePrefix(d, failure, k);
    }
    RestartUseSteps(h, scenario, state, d[..3]);
    RestartUseSteps(h, scenario, state, d[..4]);
    RestartUseSteps(h, scenario, state, d[..5]);
    RestartUseIs(h, state, d[..3], []);
    RestartUseIs(h, state, d[..4], []);
    RestartUseIs(h, state, d[..5], []);
  }

  lemma RetirementChecked(h: Host, scenario: Fields, state: Fields, d: seq<Fields>, failure: Text, c: seq<Command>, final: Fields)
    requires |d| == 7 && Leads(Script.Resume(h, scenario, state), c, Objects(d) + [Str(failure)], final)
    requires Resumable(h, scenario, state) && StateText(h, state, "head_id").Some?
    ensures RetiredReceipt(d[5]).Some? && Get(d[6], Ascii("lifecycle")) == Some(Str(Ascii("retired")))
    ensures RefusedUseCommand(h, scenario, state).Some?
    ensures CompletionUpdates(h, state, Objects(d) + [Str(failure)]).Some?
    ensures Writable(h.limits, Obj(PutAll(state, CompletionUpdates(h, state, Objects(d) + [Str(failure)]).value)))
    ensures |c| == 8 && c[6] == HeadCommand(StateText(h, state, "head_id").value)
            && c[7] == RefusedUseCommand(h, scenario, state).value
  {
    var script := Script.Resume(h, scenario, state);
    assert |c| == 8 && NextMove(script, Objects(d) + [Str(failure)]) == Done(final);
    hide NextMove, Resumable, StateText, RetiredReceipt, RefusedUseCommand, CompletionUpdates, Writable, PutAll, Get, Ascii,
      Objects, HeadCommand, Leads;
    forall k | 6 <= k <= 7 ensures NextMove(script, Objects(d[..k])) == Issue(c[k]) {
      LeadsAt(script, c, Objects(d) + [Str(failure)], final, k);
      ResumePrefix(d, failure, k);
    }
    RetireSteps(h, scenario, state, d[..6]);
    RetireSteps(h, scenario, state, d[..7]);
    CompletionStep(h, scenario, state, d, failure);
  }

  lemma ResumeChecked(h: Host, scenario: Fields, state: Fields, d: seq<Fields>, failure: Text, c: seq<Command>, final: Fields)
    requires |d| == 7 && Leads(Script.Resume(h, scenario, state), c, Objects(d) + [Str(failure)], final)
    ensures ResumeChecks(h, scenario, state, d, failure) && ResumeCommands(h, scenario, state, d, failure) == c
  {
    hide Leads, Resumable, UnchangedAcrossRestart, ActiveHead, StateText, UseCommand, UseAttribution, UseUnchanged,
      RetireCommand, RetiredReceipt, RefusedUseCommand, CompletionUpdates, Writable, PutAll, Get, Ascii, Objects,
      RevisionCommand, HeadCommand, SelectionCommand, UseReceiptCommand;
    RestartChecked(h, scenario, state, d, failure, c, final);
    RestartUseChecked(h, scenario, state, d, failure, c, final);
    RetirementChecked(h, scenario, state, d, failure, c, final);
  }

  /** Resume succeeds exactly when its eight commands are answered, the last by a refusal, and the answers pass every check. */
  lemma ResumeSucceedsExactly(h: Host, scenario: Fields, state: Fields, replies: seq<Reply>)
    ensures RunScript(Script.Resume(h, scenario, state), replies).result.Some?
            <==> exists d, failure :: ResumeAnswers(h, scenario, state, replies, d, failure)
  {
    hide *;
    var script := Script.Resume(h, scenario, state);
    var o := RunScript(script, replies);
    if o.result.Some? {
      RanThrough(script, replies);
      ResumeScript(h, scenario, state, replies);
      NineAnswers(script, o.issued, replies, o.seen, o.result.value);
      AnswersAreObjects(script, replies, 7);
      LastIsText(script, o.issued, replies, o.seen);
      var d, failure := DictsOf(o.seen, 7), o.seen[7].s;
      SevenDicts(o.seen);
      ResumeChecked(h, scenario, state, d, failure, o.issued, o.result.value);
      ResumeAnswersNow(h, scenario, state, replies, d, failure);
    }
    if d, failure :| ResumeAnswers(h, scenario, state, replies, d, failure) {
      ResumeSucceeds(h, scenario, state, replies, d, failure);
    }
  }

  lemma LastIsText(script: Script, commands: seq<Command>, replies: seq<Reply>, seen: seq<JsonValues.Json>)
    requires Answered(script.host.limits, commands, replies, seen) && |seen| == 8 && commands[7].Failure?
    ensures seen[7].Str?
  {
    hide Squeeze, Clip;
    assert Answer(script.host.limits, commands[7], replies[7]) == Some(seen[7]);
  }

  lemma SevenDicts(seen: seq<JsonValues.Json>)
    requires |seen| == 8 && seen[7].Str? && forall k :: 0 <= k < 7 ==> seen[k] == Obj(Dict(seen, k))
    ensures Objects(DictsOf(seen, 7)) + [Str(seen[7].s)] == seen
  {
    hide Dict;
  }

  lemma ResumeAnswersNow(h: Host, scenario: Fields, state: Fields, replies: seq<Reply>, d: seq<Fields>, failure: Text)
    requires ResumeChecks(h, scenario, state, d, failure)
    requires Answered(h.limits, ResumeCommands(h, scenario, state, d, failure), replies, Objects(d) + [Str(failure)])
    ensures ResumeAnswers(h, scenario, state, replies, d, failure)
  {
    hide ResumeChecks, Answered, ResumeCommands, Objects;
  }
}
