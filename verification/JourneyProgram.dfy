/** The journey as the script runs it: commands issued one by one, a state file written at the end. */
module JourneyProgram {
  import opened Options
  import opened Texts
  import opened JsonValues
  import opened JsonPrinter
  import opened JsonLimits
  import opened JsonScan
  import opened Cli
  import opened Journey
  import opened JourneyRuns
  import opened JourneyStates
  import opened Disks

  /** AceCliRunner over a deployment that replies as it likes. */
  class Runner {
    var replies: seq<Reply>
    var issued: seq<Command>

    constructor (replies: seq<Reply>)
      ensures this.replies == replies && issued == []
    {
      this.replies := replies;
      issued := [];
    }

    method Json(l: Limits, command: Command) returns (r: Option<Fields>)
      requires command.Json?
      modifies this
      ensures issued == old(issued) + [command]
      ensures replies == if old(replies) == [] then [] else old(replies)[1..]
      ensures r.Some? <==> old(replies) != [] && Answer(l, command, old(replies)[0]).Some?
      ensures r.Some? ==> Answer(l, command, old(replies)[0]) == Some(Obj(r.value))
    {
      issued := issued + [command];
      if replies == [] { return None; }
      var reply := replies[0];
      replies := replies[1..];
      if reply.code != 0 { return None; }
      var found := ParseJsonOutput(l, reply.stdout);
      match found
      case Found(fields) => r := Some(fields);
      case _ => r := None;
    }

    method Failure(l: Limits, command: Command) returns (r: Option<Text>)
      requires command.Failure?
      modifies this
      ensures issued == old(issued) + [command]
      ensures replies == if old(replies) == [] then [] else old(replies)[1..]
      ensures r.Some? <==> old(replies) != [] && Answer(l, command, old(replies)[0]).Some?
      ensures r.Some? ==> Answer(l, command, old(replies)[0]) == Some(Str(r.value))
    {
      issued := issued + [command];
      if replies == [] { return None; }
      var reply := replies[0];
      replies := replies[1..];
      if reply.code == 0 { return None; }
      r := Some(Clip(Squeeze(if reply.stderr != [] then reply.stderr else reply.stdout)));
    }
  }

  // ----- one step of a run, as equations

  lemma StopsHere(script: Script, replies: seq<Reply>, seen: seq<JsonValues.Json>, issued: seq<Command>)
    requires NextMove(script, seen) == Stop
    ensures Drive(script, replies, seen, issued) == Outcome(issued, seen, None)
  {
    hide NextMove;
  }

  lemma EndsHere(script: Script, replies: seq<Reply>, seen: seq<JsonValues.Json>, issued: seq<Command>, state: Fields)
    requires NextMove(script, seen) == Done(state)
    ensures Drive(script, replies, seen, issued) == Outcome(issued, seen, Some(state))
  {
    hide NextMove;
  }

  lemma AsksHere(script: Script, replies: seq<Reply>, seen: seq<JsonValues.Json>, issued: seq<Command>, c: Command)
    requires NextMove(script, seen) == Issue(c)
    ensures var o := Drive(script, replies, seen, issued);
            if replies == [] || Answer(script.host.limits, c, replies[0]).None? then o == Outcome(issued + [c], seen, None)
            else o == Drive(script, replies[1..], seen + [Answer(script.host.limits, c, replies[0]).value], issued + [c])
  {
    hide NextMove, Answer;
  }

  function Objects(dicts: seq<Fields>): (seen: seq<JsonValues.Json>)
    ensures |seen| == |dicts|
    ensures forall i :: 0 <= i < |dicts| ==> seen[i] == Obj(dicts[i]) && Dict(seen, i) == dicts[i]
  {
    seq(|dicts|, i requires 0 <= i < |dicts| => Obj(dicts[i]))
  }

  lemma ObjectsAppend(dicts: seq<Fields>, d: Fields)
    ensures Objects(dicts + [d]) == Objects(dicts) + [Obj(d)]
  {
  }

  /** After the command of this move: the run is over if the runner raised, and goes on with the dict it returned. */
  lemma Asked(script: Script, replies: seq<Reply>, dicts: seq<Fields>, issued: seq<Command>, c: Command, r: Option<Fields>)
    requires NextMove(script, Objects(dicts)) == Issue(c)
    requires r.Some? <==> replies != [] && Answer(script.host.limits, c, replies[0]).Some?
    requires r.Some? ==> Answer(script.host.limits, c, replies[0]) == Some(Obj(r.value))
    ensures r.None? ==> Drive(script, replies, Objects(dicts), issued) == Outcome(issued + [c], Objects(dicts), None)
    ensures r.Some? ==> Drive(script, replies, Objects(dicts), issued) ==
                        Drive(script, replies[1..], Objects(dicts + [r.value]), issued + [c])
  {
    hide NextMove, Answer, Drive, Objects;
    AsksHere(script, replies, Objects(dicts), issued, c);
    if r.Some? { ObjectsAppend(dicts, r.value); }
  }

  // ----- prepare

  lemma TeachStep(h: Host, scenario: Fields, sourceTask: Text)
    ensures NextMove(Script.Prepare(h, scenario, sourceTask), Objects([])) == OrStop(TeachCommand(h, scenario, sourceTask))
  {
    hide TeachCommand;
  }

  lemma ProposalSteps(h: Host, scenario: Fields, sourceTask: Text, d: seq<Fields>)
    requires 1 <= |d| <= 3
    ensures var m := NextMove(Script.Prepare(h, scenario, sourceTask), Objects(d));
            match ProposalId(h, d[0])
            case None => m == Stop
            case Some(p) =>
              && (|d| == 1 ==> m == Issue(InspectCommand(p)))
              && (|d| == 2 ==> m == Issue(DiffCommand(p)))
              && (|d| == 3 ==> m == if ReviewAllowed(h, d[1], d[2]) then Issue(ReviewCommand(p)) else Stop)
  {
    hide ProposalId, ReviewAllowed, InspectCommand, DiffCommand, ReviewCommand, Objects;
  }

  lemma ReviewedSteps(h: Host, scenario: Fields, sourceTask: Text, d: seq<Fields>)
    requires 4 <= |d| <= 6
    ensures var m := NextMove(Script.Prepare(h, scenario, sourceTask), Objects(d));
            var r, i, key := RevisionId(h, d[3]), HeadId(h, d[3]), TextAt(h, scenario, Ascii("stable_key"));
            && (|d| == 4 ==> m == if r.Some? && i.Some? then Issue(RevisionCommand(r.value)) else Stop)
            && (|d| == 5 ==> m == if i.Some? then Issue(HeadCommand(i.value)) else Stop)
            && (|d| == 6 ==> m == if r.Some? && key.Some? && Get(d[4], Ascii("revision_id")) == Some(Str(r.value)) && ActiveHead(d[5], r.value)
                                  then OrStop(UseCommand(h, key.value, scenario, "fresh_use_prompt")) else Stop)
  {
    hide RevisionId, HeadId, TextAt, Ascii, Get, ActiveHead, UseCommand, RevisionCommand, HeadCommand, Objects;
  }

  lemma UsedSteps(h: Host, scenario: Fields, sourceTask: Text, d: seq<Fields>)
    requires 7 <= |d| <= 9
    ensures var m := NextMove(Script.Prepare(h, scenario, sourceTask), Objects(d));
            var a := FirstUse(h, Objects(d));
            && (|d| == 7 ==> m == if a.Some? then Issue(SelectionCommand(h, a.value)) else Stop)
            && (|d| == 8 ==> m == if a.Some? then Issue(UseReceiptCommand(h, a.value)) else Stop)
            && (|d| == 9 ==> var p := PreparedEvidence(h, scenario, sourceTask, Objects(d));
                             m == if p.Some? then Finish(h, PreparedState(p.value)) else Stop)
  {
    hide RevisionId, FirstUse, PreparedEvidence, PreparedState, SelectionCommand, UseReceiptCommand, Objects, Get, Ascii;
  }

  lemma FirstUseIs(h: Host, d: seq<Fields>)
    requires |d| >= 7 && RevisionId(h, d[3]).Some?
    ensures FirstUse(h, Objects(d)) == UseAttribution(h, d[6], RevisionId(h, d[3]).value)
  {
    hide RevisionId, UseAttribution, Objects;
  }

  /** The outcome of a whole run, from the first command on. */
  function Whole(script: Script, replies: seq<Reply>, issued: seq<Command>): Outcome {
    Drive(script, replies, [], issued)
  }

  /** Teaching and reviewing: the first four commands. */
  method Approve(h: Host, runner: Runner, scenario: Fields, sourceTask: Text) returns (r: Option<seq<Fields>>)
    modifies runner
    ensures var script := Script.Prepare(h, scenario, sourceTask);
            var o := Whole(script, old(runner.replies), old(runner.issued));
            && (r.None? ==> o.result.None? && o.issued == runner.issued)
            && (r.Some? ==> |r.value| == 4 && o == Drive(script, runner.replies, Objects(r.value), runner.issued))
  {
    hide *;
    ghost var script := Script.Prepare(h, scenario, sourceTask);
    WholeIs(script, runner.replies, runner.issued);
    TeachStep(h, scenario, sourceTask);
    var teach := TeachCommand(h, scenario, sourceTask);
    OrStopIs(teach);
    if teach.None? {
      StopsHere(script, runner.replies, Objects([]), runner.issued);
      return None;
    }
    assert teach.value.Json? by { PrepareMoveVerb(h, scenario, sourceTask, Objects([])); PrepareNext(h, scenario, sourceTask, Objects([])); }
    ghost var replies, issued := runner.replies, runner.issued;
    var taught := runner.Json(h.limits, teach.value);
    Asked(script, replies, [], issued, teach.value, taught);
    if taught.None? { return None; }
    var d := [taught.value];
    assert [] + [taught.value] == d;
    r := ReviewProposal(h, runner, scenario, sourceTask, d);
  }

  lemma WholeIs(script: Script, replies: seq<Reply>, issued: seq<Command>)
    ensures Whole(script, replies, issued) == Drive(script, replies, Objects([]), issued)
  {
    hide Drive, Objects;
    assert Objects([]) == [];
  }

  lemma FinishIs(h: Host, state: Fields)
    ensures Finish(h, state) == if Writable(h.limits, Obj(state)) then Done(state) else Stop
  {
    hide Writable;
  }

  lemma OrStopIs(c: Option<Command>)
    ensures OrStop(c) == if c.Some? then Issue(c.value) else Stop
  {
  }

  method ReviewProposal(h: Host, runner: Runner, scenario: Fields, sourceTask: Text, d0: seq<Fields>) returns (r: Option<seq<Fields>>)
    requires |d0| == 1
    modifies runner
    ensures var script := Script.Prepare(h, scenario, sourceTask);
            var o := Drive(script, old(runner.replies), Objects(d0), old(runner.issued));
            && (r.None? ==> o.result.None? && o.issued == runner.issued)
            && (r.Some? ==> |r.value| == 4 && o == Drive(script, runner.replies, Objects(r.value), runner.issued))
  {
    hide *;
    ghost var script := Script.Prepare(h, scenario, sourceTask);
    var proposal := ProposalId(h, d0[0]);
    ProposalSteps(h, scenario, sourceTask, d0);
    if proposal.None? {
      StopsHere(script, runner.replies, Objects(d0), runner.issued);
      return None;
    }
    ProposalCommands(proposal.value);
    ghost var replies, issued := runner.replies, runner.issued;
    var inspection := runner.Json(h.limits, InspectCommand(proposal.value));
    Asked(script, replies, d0, issued, InspectCommand(proposal.value), inspection);
    if inspection.None? { return None; }
    var d1 := d0 + [inspection.value];
    ProposalSteps(h, scenario, sourceTask, d1);
    replies, issued := runner.replies, runner.issued;
    var diff := runner.Json(h.limits, DiffCommand(proposal.value));
    Asked(script, replies, d1, issued, DiffCommand(proposal.value), diff);
    if diff.None? { return None; }
    var d2 := d1 + [diff.value];
    ProposalSteps(h, scenario, sourceTask, d2);
    if !ReviewAllowed(h, inspection.value, diff.value) {
      StopsHere(script, runner.replies, Objects(d2), runner.issued);
      return None;
    }
    replies, issued := runner.replies, runner.issued;
    var review := runner.Json(h.limits, ReviewCommand(proposal.value));
    Asked(script, replies, d2, issued, ReviewCommand(proposal.value), review);
    if review.None? { return None; }
    r := Some(d2 + [review.value]);
  }

  lemma ProposalCommands(proposal: Text)
    ensures InspectCommand(proposal).Json? && DiffCommand(proposal).Json? && ReviewCommand(proposal).Json?
    ensures RevisionCommand(proposal).Json? && HeadCommand(proposal).Json?
  {
  }

  /** Reading revision and head back, and the fresh use: commands five to seven. */
  method Activate(h: Host, runner: Runner, scenario: Fields, sourceTask: Text, d0: seq<Fields>) returns (r: Option<seq<Fields>>)
    requires |d0| == 4
    modifies runner
    ensures var script := Script.Prepare(h, scenario, sourceTask);
            var o := Drive(script, old(runner.replies), Objects(d0), old(runner.issued));
            && (r.None? ==> o.result.None? && o.issued == runner.issued)
            && (r.Some? ==> |r.value| == 7 && RevisionId(h, r.value[3]).Some?
                            && o == Drive(script, runner.replies, Objects(r.value), runner.issued))
  {
    hide *;
    ghost var script := Script.Prepare(h, scenario, sourceTask);
    var revisionId, headId := RevisionId(h, d0[3]), HeadId(h, d0[3]);
    ReviewedSteps(h, scenario, sourceTask, d0);
    if revisionId.None? || headId.None? {
      StopsHere(script, runner.replies, Objects(d0), runner.issued);
      return None;
    }
    ProposalCommands(revisionId.value);
    ProposalCommands(headId.value);
    ghost var replies, issued := runner.replies, runner.issued;
    var revision := runner.Json(h.limits, RevisionCommand(revisionId.value));
    Asked(script, replies, d0, issued, RevisionCommand(revisionId.value), revision);
    if revision.None? { return None; }
    var d1 := d0 + [revision.value];
    ReviewedSteps(h, scenario, sourceTask, d1);
    replies, issued := runner.replies, runner.issued;
    var head := runner.Json(h.limits, HeadCommand(headId.value));
    Asked(script, replies, d1, issued, HeadCommand(headId.value), head);
    if head.None? { return None; }
    var d2 := d1 + [head.value];
    ReviewedSteps(h, scenario, sourceTask, d2);
    var stableKey := TextAt(h, scenario, Ascii("stable_key"));
    if stableKey.None? || Get(revision.value, Ascii("revision_id")) != Some(Str(revisionId.value)) || !ActiveHead(head.value, revisionId.value) {
      StopsHere(script, runner.replies, Objects(d2), runner.issued);
      return None;
    }
    var use := UseCommand(h, stableKey.value, scenario, "fresh_use_prompt");
    OrStopIs(use);
    if use.None? {
      StopsHere(script, runner.replies, Objects(d2), runner.issued);
      return None;
    }
    UseCommandIsJson(h, stableKey.value, scenario, "fresh_use_prompt");
    replies, issued := runner.replies, runner.issued;
    var task := runner.Json(h.limits, use.value);
    Asked(script, replies, d2, issued, use.value, task);
    if task.None? { return None; }
    r := Some(d2 + [task.value]);
  }

  lemma UseCommandIsJson(h: Host, key: Text, scenario: Fields, prompt: string)
    ensures UseCommand(h, key, scenario, prompt).Some? ==> UseCommand(h, key, scenario, prompt).value.Json?
  {
    hide TextAt, Cognition, Ascii;
  }

  lemma InspectCommandsAreJson(h: Host, a: Attribution)
    ensures SelectionCommand(h, a).Json? && UseReceiptCommand(h, a).Json?
  {
    hide Cognition, PyStr;
  }

  /** _use_attribution and _inspect_use on the fresh task, and the evidence of the whole phase. */
  method AttributeFirstUse(h: Host, runner: Runner, scenario: Fields, sourceTask: Text, d0: seq<Fields>) returns (r: Option<Fields>)
    requires |d0| == 7 && RevisionId(h, d0[3]).Some?
    modifies runner
    ensures var o := Drive(Script.Prepare(h, scenario, sourceTask), old(runner.replies), Objects(d0), old(runner.issued));
            r == o.result && runner.issued == o.issued
  {
    hide *;
    ghost var script := Script.Prepare(h, scenario, sourceTask);
    FirstUseIs(h, d0);
    var firstUse := UseAttribution(h, d0[6], RevisionId(h, d0[3]).value);
    UsedSteps(h, scenario, sourceTask, d0);
    if firstUse.None? {
      StopsHere(script, runner.replies, Objects(d0), runner.issued);
      return None;
    }
    InspectCommandsAreJson(h, firstUse.value);
    ghost var replies, issued := runner.replies, runner.issued;
    var selection := runner.Json(h.limits, SelectionCommand(h, firstUse.value));
    Asked(script, replies, d0, issued, SelectionCommand(h, firstUse.value), selection);
    if selection.None? { return None; }
    var d1 := d0 + [selection.value];
    FirstUseIs(h, d1);
    UsedSteps(h, scenario, sourceTask, d1);
    replies, issued := runner.replies, runner.issued;
    var use := runner.Json(h.limits, UseReceiptCommand(h, firstUse.value));
    Asked(script, replies, d1, issued, UseReceiptCommand(h, firstUse.value), use);
    if use.None? { return None; }
    var d2 := d1 + [use.value];
    UsedSteps(h, scenario, sourceTask, d2);
    var evidence := PreparedEvidence(h, scenario, sourceTask, Objects(d2));
    if evidence.None? {
      StopsHere(script, runner.replies, Objects(d2), runner.issued);
      return None;
    }
    FinishIs(h, PreparedState(evidence.value));
    if !Writable(h.limits, Obj(PreparedState(evidence.value))) {
      StopsHere(script, runner.replies, Objects(d2), runner.issued);
      return None;
    }
    EndsHere(script, runner.replies, Objects(d2), runner.issued, PreparedState(evidence.value));
    r := Some(PreparedState(evidence.value));
  }

  /** The prepare phase: nothing is issued when the file exists, and only a complete run writes it. */
  method Prepare(h: Host, runner: Runner, fs: FileSystem, scenario: Fields, sourceTask: Text, path: Text) returns (r: Option<Fields>)
    modifies runner, fs
    ensures path in old(fs.disk).files ==> r.None? && fs.disk == old(fs.disk) && runner.issued == old(runner.issued)
    ensures path !in old(fs.disk).files ==>
              var o := Whole(Script.Prepare(h, scenario, sourceTask), old(runner.replies), old(runner.issued));
              && runner.issued == o.issued
              && (o.result.None? ==> r.None? && fs.disk == old(fs.disk))
              && (o.result.Some? ==>
                    var text := Document(Obj(o.result.value));
                    && fs.disk == WriteNew(old(fs.disk), path, text)
                    && r == if old(fs.disk).fuse > |text| then o.result else None)
  {
    hide *;
    var found := fs.Exists(path);
    if found { return None; }
    var reviewed := Approve(h, runner, scenario, sourceTask);
    if reviewed.None? { return None; }
    var active := Activate(h, runner, scenario, sourceTask, reviewed.value);
    if active.None? { return None; }
    var state := AttributeFirstUse(h, runner, scenario, sourceTask, active.value);
    if state.None? { return None; }
    var done := fs.WriteNewFile(path, Document(Obj(state.value)));
    r := if done then state else None;
  }

  // ----- resume

  lemma RefusedStep(h: Host, scenario: Fields, state: Fields)
    requires !Resumable(h, scenario, state)
    ensures NextMove(Script.Resume(h, scenario, state), Objects([])) == Stop
  {
    hide Resumable, StateText, Objects;
  }

  lemma RestartSteps(h: Host, scenario: Fields, state: Fields, d: seq<Fields>)
    requires |d| <= 2 && Resumable(h, scenario, state)
    ensures var m := NextMove(Script.Resume(h, scenario, state), Objects(d));
            var r := StateText(h, state, "revision_id").value;
            && (|d| == 0 ==> m == Issue(RevisionCommand(r)))
            && (|d| == 1 ==> m == Issue(HeadCommand(StateText(h, state, "head_id").value)))
            && (|d| == 2 ==> m == if UnchangedAcrossRestart(h, state, d[0], d[1]) && ActiveHead(d[1], r)
                                  then OrStop(UseCommand(h, StateText(h, state, "stable_key").value, scenario, "restart_use_prompt"))
                                  else Stop)
  {
    hide Ascii, Get, UnchangedAcrossRestart, ActiveHead, UseCommand, StateText, Hash, RevisionCommand, HeadCommand, Objects;
  }

  lemma RestartUseIs(h: Host, state: Fields, d: seq<Fields>, extra: seq<JsonValues.Json>)
    requires |d| >= 3 && StateText(h, state, "revision_id").Some?
    ensures RestartUse(h, state, Objects(d) + extra) == UseAttribution(h, d[2], StateText(h, state, "revision_id").value)
    ensures RestartUse(h, state, Objects(d)) == UseAttribution(h, d[2], StateText(h, state, "revision_id").value)
  {
    hide UseAttribution, StateText, Objects;
    assert (Objects(d) + extra)[2] == Objects(d)[2];
  }

  lemma RestartUseSteps(h: Host, scenario: Fields, state: Fields, d: seq<Fields>)
    requires 3 <= |d| <= 5 && Resumable(h, scenario, state)
    ensures var m := NextMove(Script.Resume(h, scenario, state), Objects(d));
            var a := RestartUse(h, state, Objects(d));
            m == if a.None? then Stop
                 else if |d| == 3 then Issue(SelectionCommand(h, a.value))
                 else if |d| == 4 then Issue(UseReceiptCommand(h, a.value))
                 else if UseUnchanged(h, a.value, d[3], d[4]) then OrStop(RetireCommand(h, scenario, state)) else Stop
  {
    hide Ascii, Get, RestartUse, UseUnchanged, RetireCommand, StateText, Hash, SelectionCommand, UseReceiptCommand, Objects;
  }

  lemma RetireSteps(h: Host, scenario: Fields, state: Fields, d: seq<Fields>)
    requires 6 <= |d| <= 7 && Resumable(h, scenario, state)
    ensures var m := NextMove(Script.Resume(h, scenario, state), Objects(d));
            && (|d| == 6 ==> m == if RetiredReceipt(d[5]).Some? then Issue(HeadCommand(StateText(h, state, "head_id").value)) else Stop)
            && (|d| == 7 ==> m == if Get(d[6], Ascii("lifecycle")) == Some(Str(Ascii("retired")))
                                  then OrStop(RefusedUseCommand(h, scenario, state)) else Stop)
  {
    hide Ascii, Get, StateText, Hash, RetiredReceipt, RefusedUseCommand, HeadCommand, Objects;
  }

  lemma CompletionStep(h: Host, scenario: Fields, state: Fields, d: seq<Fields>, failure: Text)
    requires |d| == 7 && Resumable(h, scenario, state)
    ensures var seen := Objects(d) + [Str(failure)];
            var u := CompletionUpdates(h, state, seen);
            NextMove(Script.Resume(h, scenario, state), seen) == if u.Some? then Finish(h, PutAll(state, u.value)) else Stop
  {
    hide Ascii, Get, StateText, Hash, CompletionUpdates, PutAll, Objects;
  }

  lemma ResumeCommandsAreJson(h: Host, scenario: Fields, state: Fields)
    ensures RetireCommand(h, scenario, state).Some? ==> RetireCommand(h, scenario, state).value.Json?
    ensures RefusedUseCommand(h, scenario, state).Some? ==> RefusedUseCommand(h, scenario, state).value.Failure?
  {
    hide TextAt, StateText, Cognition, Ascii, Words;
  }

  lemma ResumableTexts(h: Host, scenario: Fields, state: Fields)
    requires Resumable(h, scenario, state)
    ensures StateText(h, state, "revision_id").Some? && StateText(h, state, "head_id").Some? && StateText(h, state, "stable_key").Some?
  {
    hide Get, StateText, Hash, Ascii;
  }

  /** The checks before and after the restart use: commands one to three. */
  method CheckRestart(h: Host, runner: Runner, scenario: Fields, state: Fields) returns (r: Option<seq<Fields>>)
    modifies runner
    ensures var script := Script.Resume(h, scenario, state);
            var o := Whole(script, old(runner.replies), old(runner.issued));
            && (r.None? ==> o.result.None? && o.issued == runner.issued)
            && (r.Some? ==> |r.value| == 3 && Resumable(h, scenario, state)
                            && o == Drive(script, runner.replies, Objects(r.value), runner.issued))
  {
    hide *;
    ghost var script := Script.Resume(h, scenario, state);
    WholeIs(script, runner.replies, runner.issued);
    if !Resumable(h, scenario, state) {
      RefusedStep(h, scenario, state);
      StopsHere(script, runner.replies, Objects([]), runner.issued);
      return None;
    }
    ResumableTexts(h, scenario, state);
    var revisionId, headId := StateText(h, state, "revision_id").value, StateText(h, state, "head_id").value;
    var stableKey := StateText(h, state, "stable_key").value;
    ProposalCommands(revisionId);
    ProposalCommands(headId);
    RestartSteps(h, scenario, state, []);
    ghost var replies, issued := runner.replies, runner.issued;
    var revision := runner.Json(h.limits, RevisionCommand(revisionId));
    Asked(script, replies, [], issued, RevisionCommand(revisionId), revision);
    if revision.None? { return None; }
    var d1 := [revision.value];
    assert [] + [revision.value] == d1;
    RestartSteps(h, scenario, state, d1);
    replies, issued := runner.replies, runner.issued;
    var head := runner.Json(h.limits, HeadCommand(headId));
    Asked(script, replies, d1, issued, HeadCommand(headId), head);
    if head.None? { return None; }
    var d2 := d1 + [head.value];
    RestartSteps(h, scenario, state, d2);
    if !UnchangedAcrossRestart(h, state, revision.value, head.value) || !ActiveHead(head.value, revisionId) {
      StopsHere(script, runner.replies, Objects(d2), runner.issued);
      return None;
    }
    var use := UseCommand(h, stableKey, scenario, "restart_use_prompt");
    OrStopIs(use);
    if use.None? {
      StopsHere(script, runner.replies, Objects(d2), runner.issued);
      return None;
    }
    UseCommandIsJson(h, stableKey, scenario, "restart_use_prompt");
    replies, issued := runner.replies, runner.issued;
    var task := runner.Json(h.limits, use.value);
    Asked(script, replies, d2, issued, use.value, task);
    if task.None? { return None; }
    r := Some(d2 + [task.value]);
  }

  /** _use_attribution and _inspect_use on the restart task, then retirement: commands four to six. */
  method Retire(h: Host, runner: Runner, scenario: Fields, state: Fields, d0: seq<Fields>) returns (r: Option<seq<Fields>>)
    requires |d0| == 3 && Resumable(h, scenario, state)
    modifies runner
    ensures var script := Script.Resume(h, scenario, state);
            var o := Drive(script, old(runner.replies), Objects(d0), old(runner.issued));
            && (r.None? ==> o.result.None? && o.issued == runner.issued)
            && (r.Some? ==> |r.value| == 6 && o == Drive(script, runner.replies, Objects(r.value), runner.issued))
  {
    hide *;
    ResumableTexts(h, scenario, state);
    ghost var script := Script.Resume(h, scenario, state);
    var restartUse := UseAttribution(h, d0[2], StateText(h, state, "revision_id").value);
    RestartUseIs(h, state, d0, []);
    RestartUseSteps(h, scenario, state, d0);
    if restartUse.None? {
      StopsHere(script, runner.replies, Objects(d0), runner.issued);
      return None;
    }
    InspectCommandsAreJson(h, restartUse.value);
    ghost var replies, issued := runner.replies, runner.issued;
    var selection := runner.Json(h.limits, SelectionCommand(h, restartUse.value));
    Asked(script, replies, d0, issued, SelectionCommand(h, restartUse.value), selection);
    if selection.None? { return None; }
    var d1 := d0 + [selection.value];
    RestartUseIs(h, state, d1, []);
    RestartUseSteps(h, scenario, state, d1);
    replies, issued := runner.replies, runner.issued;
    var use := runner.Json(h.limits, UseReceiptCommand(h, restartUse.value));
    Asked(script, replies, d1, issued, UseReceiptCommand(h, restartUse.value), use);
    if use.None? { return None; }
    var d2 := d1 + [use.value];
    RestartUseIs(h, state, d2, []);
    RestartUseSteps(h, scenario, state, d2);
    var retire := RetireCommand(h, scenario, state);
    OrStopIs(retire);
    ResumeCommandsAreJson(h, scenario, state);
    if !UseUnchanged(h, restartUse.value, selection.value, use.value) || retire.None? {
      StopsHere(script, runner.replies, Objects(d2), runner.issued);
      return None;
    }
    replies, issued := runner.replies, runner.issued;
    var lifecycle := runner.Json(h.limits, retire.value);
    Asked(script, replies, d2, issued, retire.value, lifecycle);
    if lifecycle.None? { return None; }
    r := Some(d2 + [lifecycle.value]);
  }

  /** The retired head, and the use that must now be refused: commands seven and eight. */
  method ProveRetired(h: Host, runner: Runner, scenario: Fields, state: Fields, d0: seq<Fields>) returns (r: Option<Fields>)
    requires |d0| == 6 && Resumable(h, scenario, state)
    modifies runner
    ensures var o := Drive(Script.Resume(h, scenario, state), old(runner.replies), Objects(d0), old(runner.issued));
            r == o.result && runner.issued == o.issued
  {
    hide *;
    ResumableTexts(h, scenario, state);
    ghost var script := Script.Resume(h, scenario, state);
    RetireSteps(h, scenario, state, d0);
    if RetiredReceipt(d0[5]).None? {
      StopsHere(script, runner.replies, Objects(d0), runner.issued);
      return None;
    }
    var headId := StateText(h, state, "head_id").value;
    ProposalCommands(headId);
    ghost var replies, issued := runner.replies, runner.issued;
    var retiredHead := runner.Json(h.limits, HeadCommand(headId));
    Asked(script, replies, d0, issued, HeadCommand(headId), retiredHead);
    if retiredHead.None? { return None; }
    var d1 := d0 + [retiredHead.value];
    RetireSteps(h, scenario, state, d1);
    var refused := RefusedUseCommand(h, scenario, state);
    OrStopIs(refused);
    ResumeCommandsAreJson(h, scenario, state);
    if Get(retiredHead.value, Ascii("lifecycle")) != Some(Str(Ascii("retired"))) || refused.None? {
      StopsHere(script, runner.replies, Objects(d1), runner.issued);
      return None;
    }
    AsksHere(script, runner.replies, Objects(d1), runner.issued, refused.value);
    var failure := runner.Failure(h.limits, refused.value);
    if failure.None? { return None; }
    var seen := Objects(d1) + [Str(failure.value)];
    CompletionStep(h, scenario, state, d1, failure.value);
    var updates := CompletionUpdates(h, state, seen);
    if updates.None? {
      StopsHere(script, runner.replies, seen, runner.issued);
      return None;
    }
    FinishIs(h, PutAll(state, updates.value));
    if !Writable(h.limits, Obj(PutAll(state, updates.value))) {
      StopsHere(script, runner.replies, seen, runner.issued);
      return None;
    }
    EndsHere(script, runner.replies, seen, runner.issued, PutAll(state, updates.value));
    r := Some(PutAll(state, updates.value));
  }

  /** _load_object. */
  method LoadState(h: Host, fs: FileSystem, path: Text) returns (r: Option<Fields>)
    ensures r == if path in fs.disk.files then LoadObject(h.limits, fs.disk.files[path]) else None
  {
    var text := fs.ReadText(path);
    if text.None? { return None; }
    r := LoadObject(h.limits, text.value);
  }

  /** The resume phase: the loaded state decides everything, and the file is replaced only at the end. */
  method Resume(h: Host, runner: Runner, fs: FileSystem, scenario: Fields, path: Text) returns (r: Option<Fields>)
    modifies runner, fs
    ensures var loaded := if path in old(fs.disk).files then LoadObject(h.limits, old(fs.disk).files[path]) else None;
            if loaded.None? then r.None? && fs.disk == old(fs.disk) && runner.issued == old(runner.issued)
            else
              var o := Whole(Script.Resume(h, scenario, loaded.value), old(runner.replies), old(runner.issued));
              && runner.issued == o.issued
              && (o.result.None? ==> r.None? && fs.disk == old(fs.disk))
              && (o.result.Some? ==>
                    var text := Document(Obj(o.result.value));
                    && fs.disk == Replace(old(fs.disk), path, text)
                    && r == if old(fs.disk).fuse >= |text| + 2 then o.result else None)
  {
    hide *;
    var loaded := LoadState(h, fs, path);
    if loaded.None? { return None; }
    var state := loaded.value;
    var used := CheckRestart(h, runner, scenario, state);
    if used.None? { return None; }
    var retired := Retire(h, runner, scenario, state, used.value);
    if retired.None? { return None; }
    var completed := ProveRetired(h, runner, scenario, state, retired.value);
    if completed.None? { return None; }
    var done := fs.ReplaceFile(path, Document(Obj(completed.value)));
    r := if done then completed else None;
  }
}
