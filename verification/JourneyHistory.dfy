/** Every history of prepare and resume runs on one state path, with crashes anywhere. */
module JourneyHistory {
  import opened Options
  import opened Texts
  import opened Sorting
  import opened JsonValues
  import opened JsonPrinter
  import opened JsonIdentity
  import opened JsonLimits
  import opened JsonScan
  import opened Cli
  import opened Journey
  import opened JourneyRuns
  import opened JourneyStates
  import opened Disks

  datatype Event =
    | PrepareRun(scenario: Fields, sourceTask: Text, replies: seq<Reply>, fuse: nat)
    | ResumeRun(scenario: Fields, replies: seq<Reply>, fuse: nat)

  type Files = map<Text, Text>

  /** The object resume loads from its path. */
  function StateAt(h: Host, files: Files, path: Text): Option<Fields> {
    if path in files then LoadObject(h.limits, files[path]) else None
  }

  /** The run an event makes on the files it finds; a refused start issues no command. */
  function RunEvent(h: Host, path: Text, files: Files, e: Event): Outcome {
    match e
    case PrepareRun(scenario, sourceTask, replies, _) =>
      if path in files then Outcome([], [], None)
      else RunScript(Prepare(h, scenario, sourceTask), replies)
    case ResumeRun(scenario, replies, _) =>
      match StateAt(h, files, path)
      case None => Outcome([], [], None)
      case Some(state) => RunScript(Resume(h, scenario, state), replies)
  }

  function After(h: Host, path: Text, files: Files, e: Event): Files {
    var o := RunEvent(h, path, files, e);
    if o.result.None? then files
    else
      var text := Document(Obj(o.result.value));
      match e
      case PrepareRun(_, _, _, fuse) => WriteNew(Disk(files, fuse), path, text).files
      case ResumeRun(_, _, fuse) => Replace(Disk(files, fuse), path, text).files
  }

  function FilesAfter(h: Host, path: Text, files: Files, events: seq<Event>): Files {
    if events == [] then files
    else After(h, path, FilesAfter(h, path, files, events[..|events| - 1]), events[|events| - 1])
  }

  /** Scenario files are dicts decoded from UTF-8 and a task id is an argument: neither holds a split pair. */
  ghost predicate CleanEvent(e: Event) {
    Clean(Obj(e.scenario)) && (e.PrepareRun? ==> NoSplit(e.sourceTask))
  }

  // ----- what each successful run has established

  /** The evidence of a prepare event that passed every check, whatever the disk did afterwards. */
  function EvidenceOf(h: Host, e: Event): Option<Prepared>
    requires e.PrepareRun?
  {
    var o := RunScript(Prepare(h, e.scenario, e.sourceTask), e.replies);
    if o.result.Some? then PreparedEvidence(h, e.scenario, e.sourceTask, o.seen) else None
  }

  lemma AnswerClean(l: Limits, command: Command, reply: Reply)
    requires Answer(l, command, reply).Some?
    ensures Clean(Answer(l, command, reply).value)
  {
    hide Clean, FirstReceipt, Squeeze, Clip;
    match command
    case Json(_) => ReceiptClean(l, reply.stdout);
    case Failure(_) =>
      var t := Clip(Squeeze(if reply.stderr != [] then reply.stderr else reply.stdout));
      PlainNoSplit(t);
      CleanStr(t);
  }

  lemma SeenClean(script: Script, replies: seq<Reply>)
    ensures var o := RunScript(script, replies); forall k :: 0 <= k < |o.seen| ==> Clean(o.seen[k])
  {
    hide Clean, RunScript, NextMove, Answer;
    var o := RunScript(script, replies);
    RunFollows(script, replies);
    forall k | 0 <= k < |o.seen| ensures Clean(o.seen[k]) {
      AnswerClean(script.host.limits, o.issued[k], replies[k]);
    }
  }

  lemma PrepareDone(h: Host, scenario: Fields, sourceTask: Text, seen: seq<JsonValues.Json>, state: Fields)
    requires PrepareMove(h, scenario, sourceTask, seen) == Done(state)
    ensures |seen| == 9 && PreparedEvidence(h, scenario, sourceTask, seen).Some?
    ensures state == PreparedState(PreparedEvidence(h, scenario, sourceTask, seen).value)
  {
    hide Ascii, TextAt, ProposalId, RevisionId, HeadId, ReviewAllowed, ActiveHead, PreparedEvidence, PreparedState, FirstUse, Get,
      Words, PyStr, Dict;
  }

  lemma PrepareResult(h: Host, e: Event)
    requires e.PrepareRun? && CleanEvent(e)
    ensures var o := RunScript(Prepare(h, e.scenario, e.sourceTask), e.replies);
            && (o.result.Some? <==> EvidenceOf(h, e).Some?)
            && (o.result.Some? ==> |o.seen| == 9 && o.result.value == PreparedState(EvidenceOf(h, e).value)
                                   && Clean(Obj(o.result.value)))
  {
    hide Clean, NoSplit, RunScript, PreparedEvidence, PreparedState;
    var script := Prepare(h, e.scenario, e.sourceTask);
    var o := RunScript(script, e.replies);
    if o.result.Some? {
      PrepareEnds(h, e);
      SeenClean(script, e.replies);
      EvidenceClean(h, e.scenario, e.sourceTask, o.seen);
      PreparedClean(EvidenceOf(h, e).value);
    }
  }

  lemma PrepareEnds(h: Host, e: Event)
    requires e.PrepareRun?
    ensures var o := RunScript(Prepare(h, e.scenario, e.sourceTask), e.replies);
            o.result.Some? ==>
              && |o.seen| == 9 && PreparedEvidence(h, e.scenario, e.sourceTask, o.seen).Some?
              && o.result.value == PreparedState(PreparedEvidence(h, e.scenario, e.sourceTask, o.seen).value)
  {
    hide *;
    var script := Prepare(h, e.scenario, e.sourceTask);
    var o := RunScript(script, e.replies);
    RunFollows(script, e.replies);
    PrepareNext(h, e.scenario, e.sourceTask, o.seen);
    if o.result.Some? {
      PrepareDone(h, e.scenario, e.sourceTask, o.seen, o.result.value);
    }
  }

  /** What a resume run that passed every check has seen. */
  ghost predicate Resumed(h: Host, scenario: Fields, state: Fields, seen: seq<JsonValues.Json>) {
    && |seen| == 8 && Resumable(h, scenario, state)
    && UnchangedAcrossRestart(h, state, Dict(seen, 0), Dict(seen, 1))
    && ActiveHead(Dict(seen, 1), StateText(h, state, "revision_id").value)
    && RestartUse(h, state, seen).Some?
    && UseUnchanged(h, RestartUse(h, state, seen).value, Dict(seen, 3), Dict(seen, 4))
    && Get(Dict(seen, 6), Ascii("lifecycle")) == Some(Str(Ascii("retired")))
    && CompletionUpdates(h, state, seen).Some?
  }

  lemma ResumeDone(h: Host, scenario: Fields, state: Fields, seen: seq<JsonValues.Json>, result: Fields)
    requires ResumeMove(h, scenario, state, seen) == Done(result)
    ensures |seen| == 8 && CompletionUpdates(h, state, seen).Some?
    ensures result == PutAll(state, CompletionUpdates(h, state, seen).value)
  {
    hide Ascii, TextAt, Resumable, StateText, UnchangedAcrossRestart, ActiveHead, CompletionUpdates, RestartUse, UseUnchanged,
      Get, Words, PyStr, RetiredReceipt, PutAll;
  }

  lemma ResumeEnds(h: Host, scenario: Fields, state: Fields, replies: seq<Reply>)
    requires RunScript(Resume(h, scenario, state), replies).result.Some?
    ensures var o := RunScript(Resume(h, scenario, state), replies);
            && Resumed(h, scenario, state, o.seen)
            && o.result.value == PutAll(state, CompletionUpdates(h, state, o.seen).value)
  {
    hide *;
    var script := Resume(h, scenario, state);
    var o := RunScript(script, replies);
    RunFollows(script, replies);
    ResumeScript(h, scenario, state, replies);
    ResumeNext(h, scenario, state, o.seen);
    ResumeDone(h, scenario, state, o.seen, o.result.value);
    MoveAt(script, replies, 2);
    MoveAt(script, replies, 5);
    ResumeNext(h, scenario, state, o.seen[..2]);
    ResumeNext(h, scenario, state, o.seen[..5]);
    RestartMove(h, scenario, state, o.seen[..2]);
    RetireMove(h, scenario, state, o.seen[..5]);
    DictPrefix(o.seen, 2);
    DictPrefix(o.seen, 5);
    RestartUseBy(h, state, o.seen[..5], o.seen);
    MoveAt(script, replies, 7);
    ResumeNext(h, scenario, state, o.seen[..7]);
    RefusedMove(h, scenario, state, o.seen[..7]);
    DictPrefix(o.seen, 7);
    ResumedFolds(h, scenario, state, o.seen);
  }

  lemma ResumedFolds(h: Host, scenario: Fields, state: Fields, seen: seq<JsonValues.Json>)
    requires |seen| == 8 && Resumable(h, scenario, state)
    requires UnchangedAcrossRestart(h, state, Dict(seen, 0), Dict(seen, 1))
    requires ActiveHead(Dict(seen, 1), StateText(h, state, "revision_id").value)
    requires RestartUse(h, state, seen).Some?
    requires UseUnchanged(h, RestartUse(h, state, seen).value, Dict(seen, 3), Dict(seen, 4))
    requires Get(Dict(seen, 6), Ascii("lifecycle")) == Some(Str(Ascii("retired")))
    requires CompletionUpdates(h, state, seen).Some?
    ensures Resumed(h, scenario, state, seen)
  {
    hide Resumable, UnchangedAcrossRestart, ActiveHead, RestartUse, UseUnchanged, CompletionUpdates, StateText, Dict;
  }

  lemma ResumeResultClean(h: Host, scenario: Fields, state: Fields, replies: seq<Reply>)
    requires RunScript(Resume(h, scenario, state), replies).result.Some? && Clean(Obj(state))
    ensures Clean(Obj(RunScript(Resume(h, scenario, state), replies).result.value))
  {
    hide *;
    ResumeEnds(h, scenario, state, replies);
    SeenClean(Resume(h, scenario, state), replies);
    ResumedUpdates(h, scenario, state, RunScript(Resume(h, scenario, state), replies).seen);
    CompletedClean(h, state, RunScript(Resume(h, scenario, state), replies).seen);
  }

  lemma ResumedUpdates(h: Host, scenario: Fields, state: Fields, seen: seq<JsonValues.Json>)
    requires Resumed(h, scenario, state, seen)
    ensures CompletionUpdates(h, state, seen).Some?
  {
    hide Resumable, UnchangedAcrossRestart, ActiveHead, RestartUse, UseUnchanged, CompletionUpdates, StateText, Dict;
  }

  /** Only a receipt whose phase is still prepared can be resumed. */
  lemma NotResumable(h: Host, scenario: Fields, state: Fields, replies: seq<Reply>)
    requires Get(state, Ascii("phase")) != Some(Str(Ascii("prepared")))
    ensures RunScript(Resume(h, scenario, state), replies) == Outcome([], [], None)
  {
    hide Ascii, Get, StateText, Hash, Answer;
    assert !Resumable(h, scenario, state);
    assert NextMove(Resume(h, scenario, state), []) == Stop;
  }

  // ----- what the state path holds after any history

  /** Nothing yet; a beginning that never loads; the receipt of prepare event p; the receipt of resume event r on top of it. */
  datatype Stage = Fresh | Torn | Ready(p: nat) | Finished(p: nat, r: nat)

  /** The state resume finds when prepare event e wrote the file. */
  function Loaded(h: Host, e: Event): Fields
    requires e.PrepareRun? && EvidenceOf(h, e).Some?
  {
    SortedFields(PreparedState(EvidenceOf(h, e).value))
  }

  function ResumeOn(h: Host, e: Event, state: Fields): Outcome
    requires e.ResumeRun?
  {
    RunScript(Resume(h, e.scenario, state), e.replies)
  }

  ghost predicate Describes(h: Host, events: seq<Event>, found: Option<Fields>, present: bool, stage: Stage) {
    match stage
    case Fresh => !present && found.None?
    case Torn => present && found.None?
    case Ready(p) =>
      && present && p < |events| && events[p].PrepareRun? && EvidenceOf(h, events[p]).Some?
      && found == Some(Loaded(h, events[p]))
    case Finished(p, r) =>
      && present && p < r < |events| && events[p].PrepareRun? && EvidenceOf(h, events[p]).Some? && events[r].ResumeRun?
      && ResumeOn(h, events[r], Loaded(h, events[p])).result.Some?
      && found == Some(SortedFields(ResumeOn(h, events[r], Loaded(h, events[p])).result.value))
  }

  /** The stage an event leads to: it stays, or moves one step along none, prepared, complete. */
  ghost predicate Advances(before: Stage, n: nat, e: Event, after: Stage) {
    || after == before
    || (before.Fresh? && e.PrepareRun? && after in {Torn, Ready(n)})
    || (before.Ready? && e.ResumeRun? && after == Finished(before.p, n))
  }

  lemma FreshStep(h: Host, path: Text, files: Files, events: seq<Event>, e: Event) returns (stage: Stage)
    requires CleanEvent(e) && path !in files
    ensures var files' := After(h, path, files, e);
            Describes(h, events + [e], StateAt(h, files', path), path in files', stage)
    ensures Advances(Fresh, |events|, e, stage)
  {
    hide RunScript, Document, LoadObject, Writable, EvidenceOf, CleanEvent, PreparedState, SortedFields, Clean, Sort;
    stage := Fresh;
    if e.PrepareRun? {
      PrepareResult(h, e);
      var o := RunScript(Prepare(h, e.scenario, e.sourceTask), e.replies);
      if o.result.Some? && e.fuse > 0 {
        var text := Document(Obj(o.result.value));
        var n := if e.fuse <= |text| then e.fuse - 1 else |text|;
        WriteNewTorn(Disk(files, e.fuse), path, text);
        ResultWritable(Prepare(h, e.scenario, e.sourceTask), e.replies);
        ReceiptFile(h.limits, o.result.value, n);
        stage := if n + 1 < |text| then Torn else Ready(|events|);
      }
    }
  }

  lemma ReadyStep(h: Host, path: Text, files: Files, events: seq<Event>, e: Event, p: nat) returns (stage: Stage)
    requires CleanEvent(e) && forall i :: 0 <= i < |events| ==> CleanEvent(events[i])
    requires Describes(h, events, StateAt(h, files, path), path in files, Ready(p))
    ensures var files' := After(h, path, files, e);
            Describes(h, events + [e], StateAt(h, files', path), path in files', stage)
    ensures Advances(Ready(p), |events|, e, stage)
  {
    hide RunScript, Document, LoadObject, Writable, EvidenceOf, CleanEvent, PreparedState, SortedFields, Clean, Sort, Replace;
    stage := Ready(p);
    if e.ResumeRun? {
      var state := Loaded(h, events[p]);
      LoadedClean(h, events[p]);
      var o := ResumeOn(h, e, state);
      if o.result.Some? {
        ResumeResultClean(h, e.scenario, state, e.replies);
        var text := Document(Obj(o.result.value));
        ReplaceAtomic(Disk(files, e.fuse), path, text);
        if e.fuse >= |text| + 2 {
          ResultWritable(Resume(h, e.scenario, state), e.replies);
          ReceiptFile(h.limits, o.result.value, |text|);
          assert text[..|text|] == text;
          stage := Finished(p, |events|);
        }
      }
    }
  }

  lemma LoadedClean(h: Host, e: Event)
    requires e.PrepareRun? && CleanEvent(e) && EvidenceOf(h, e).Some?
    ensures Clean(Obj(Loaded(h, e)))
  {
    hide RunScript, EvidenceOf, CleanEvent, PreparedState, SortedFields, Clean;
    PrepareResult(h, e);
    SortedClean(PreparedState(EvidenceOf(h, e).value));
  }

  lemma FinishedStep(h: Host, path: Text, files: Files, events: seq<Event>, e: Event, p: nat, r: nat)
    requires Describes(h, events, StateAt(h, files, path), path in files, Finished(p, r))
    requires forall i :: 0 <= i < |events| ==> CleanEvent(events[i])
    ensures After(h, path, files, e) == files
  {
    hide RunScript, Document, LoadObject, Writable, EvidenceOf, CleanEvent, PreparedState, SortedFields, Clean, Sort, Replace, Get;
    if e.ResumeRun? {
      LoadedClean(h, events[p]);
      FinishedPhase(h, events[r], Loaded(h, events[p]));
      NotResumable(h, e.scenario, StateAt(h, files, path).value, e.replies);
    }
  }

  lemma FinishedPhase(h: Host, e: Event, state: Fields)
    requires e.ResumeRun? && Clean(Obj(state)) && ResumeOn(h, e, state).result.Some?
    ensures var c := SortedFields(ResumeOn(h, e, state).result.value);
            Get(c, Ascii("phase")) == Some(Str(Ascii("complete"))) && Get(c, Ascii("phase")) != Some(Str(Ascii("prepared")))
  {
    hide RunScript, CompletionUpdates, Get, Sort, SortValues, PutAll, Tokens, Everywhere, Resumed;
    var o := ResumeOn(h, e, state);
    ResumeEnds(h, e.scenario, state, e.replies);
    ResumedUpdates(h, e.scenario, state, o.seen);
    CompletedReads(h, state, o.seen);
    GetSorted(o.result.value, Ascii("phase"));
    assert |Ascii("prepared")| == |Ascii("complete")| == 8;
    assert Ascii("prepared")[0] == 'p' as int as Code && Ascii("complete")[0] == 'c' as int as Code;
  }

  lemma TornStep(h: Host, path: Text, files: Files, e: Event)
    requires path in files && StateAt(h, files, path).None?
    ensures After(h, path, files, e) == files
  {
  }

  /** Every history leaves the state path in one of the four stages, and each event moves the stage at most one step. */
  lemma {:induction false} HistoryStages(h: Host, path: Text, files: Files, events: seq<Event>) returns (stages: seq<Stage>)
    requires path !in files && forall i :: 0 <= i < |events| ==> CleanEvent(events[i])
    ensures |stages| == |events| + 1 && stages[0] == Fresh
    ensures forall n :: 0 <= n < |events| ==> Advances(stages[n], n, events[n], stages[n + 1])
    ensures var now := FilesAfter(h, path, files, events);
            Describes(h, events, StateAt(h, now, path), path in now, stages[|events|])
  {
    hide RunScript, StateAt, After, CleanEvent, Describes, Advances;
    if events == [] {
      stages := [Fresh];
      StartDescribed(h, path, files);
    } else {
      var n := |events| - 1;
      var e := events[n];
      var before := events[..n];
      assert events == before + [e];
      stages := HistoryStages(h, path, files, before);
      var then_ := FilesAfter(h, path, files, before);
      var stage := OneStep(h, path, then_, before, e, stages[n]);
      stages := stages + [stage];
    }
  }

  lemma StartDescribed(h: Host, path: Text, files: Files)
    requires path !in files
    ensures Describes(h, [], StateAt(h, files, path), path in files, Fresh)
  {
  }

  lemma OneStep(h: Host, path: Text, files: Files, events: seq<Event>, e: Event, before: Stage) returns (stage: Stage)
    requires CleanEvent(e) && forall i :: 0 <= i < |events| ==> CleanEvent(events[i])
    requires Describes(h, events, StateAt(h, files, path), path in files, before)
    ensures var files' := After(h, path, files, e);
            Describes(h, events + [e], StateAt(h, files', path), path in files', stage)
    ensures Advances(before, |events|, e, stage)
  {
    hide RunScript, After, CleanEvent, EvidenceOf, LoadObject, SortedFields, PreparedState;
    match before
    case Fresh => stage := FreshStep(h, path, files, events, e);
    case Torn => TornStep(h, path, files, e); stage := before;
    case Ready(p) => stage := ReadyStep(h, path, files, events, e, p);
    case Finished(p, r) => FinishedStep(h, path, files, events, e, p, r); stage := before;
  }

  // ----- what a completed receipt proves

  /** The answers of the prepare run of an event. */
  function PrepareSeen(h: Host, e: Event): seq<JsonValues.Json>
    requires e.PrepareRun?
  {
    RunScript(Prepare(h, e.scenario, e.sourceTask), e.replies).seen
  }

  /** Prepare event p and a later resume event r agree on scenario, revision, head and attributed revision. */
  ghost predicate Evidence(h: Host, p: Event, r: Event) {
    && p.PrepareRun? && r.ResumeRun? && EvidenceOf(h, p).Some?
    && var ps := PrepareSeen(h, p);
    && var state := Loaded(h, p);
    && var rs := ResumeOn(h, r, state).seen;
    && var id := EvidenceOf(h, p).value.revisionId;
    && Hash(h, Obj(p.scenario)) == Hash(h, Obj(r.scenario))
    && Hash(h, Obj(Dict(ps, 4))) == Hash(h, Obj(Dict(rs, 0)))
    && Hash(h, Obj(Dict(ps, 5))) == Hash(h, Obj(Dict(rs, 1)))
    && UseAttribution(h, Dict(ps, 6), id).Some? && id in UseAttribution(h, Dict(ps, 6), id).value.selected
    && UseAttribution(h, Dict(rs, 2), id).Some? && id in UseAttribution(h, Dict(rs, 2), id).value.selected
  }

  lemma FinishedEvidence(h: Host, p: Event, r: Event)
    requires p.PrepareRun? && r.ResumeRun? && EvidenceOf(h, p).Some?
    requires ResumeOn(h, r, Loaded(h, p)).result.Some?
    ensures Evidence(h, p, r)
  {
    hide RunScript, Get, Sort, SortValues, PreparedState, PreparedEvidence, UseAttribution, UseUnchanged, CompletionUpdates,
      ActiveHead, Ascii, Hash, Dict;
    var state := Loaded(h, p);
    var ev := EvidenceOf(h, p).value;
    var ps, rs := PrepareSeen(h, p), ResumeOn(h, r, state).seen;
    EvidenceParts(h, p.scenario, p.sourceTask, ps);
    PreparedReadBack(ev);
    ResumeEnds(h, r.scenario, state, r.replies);
    AttributionNames(h, Dict(ps, 6), ev.revisionId);
    AttributionNames(h, Dict(rs, 2), ev.revisionId);
  }

  /** 0 for no loadable receipt, 1 for a prepared one, 2 for a completed one. */
  function PhaseRank(found: Option<Fields>): nat {
    if found.None? then 0
    else if Get(found.value, Ascii("phase")) == Some(Str(Ascii("prepared"))) then 1
    else if Get(found.value, Ascii("phase")) == Some(Str(Ascii("complete"))) then 2
    else 3
  }

  function StageRank(stage: Stage): nat {
    match stage
    case Fresh => 0
    case Torn => 0
    case Ready(_) => 1
    case Finished(_, _) => 2
  }

  lemma StagePhase(h: Host, events: seq<Event>, found: Option<Fields>, present: bool, stage: Stage)
    requires Describes(h, events, found, present, stage)
    requires forall i :: 0 <= i < |events| ==> CleanEvent(events[i])
    ensures PhaseRank(found) == StageRank(stage)
  {
    hide RunScript, EvidenceOf, CleanEvent, PreparedState, SortedFields, Clean, Get, Ascii;
    match stage
    case Fresh =>
    case Torn =>
    case Ready(p) => PreparedReadBack(EvidenceOf(h, events[p]).value);
    case Finished(p, r) =>
      LoadedClean(h, events[p]);
      FinishedPhase(h, events[r], Loaded(h, events[p]));
  }

  /** The phase on disk only moves none, prepared, complete, one step at a time; while it stands, so does the whole receipt. */
  lemma PhaseMovesForward(h: Host, path: Text, files: Files, events: seq<Event>, e: Event)
    requires path !in files && CleanEvent(e) && forall i :: 0 <= i < |events| ==> CleanEvent(events[i])
    ensures var before := StateAt(h, FilesAfter(h, path, files, events), path);
            var after := StateAt(h, FilesAfter(h, path, files, events + [e]), path);
            && PhaseRank(before) <= 2
            && PhaseRank(after) in {PhaseRank(before), PhaseRank(before) + 1}
            && (PhaseRank(after) == PhaseRank(before) ==> after == before)
            && (PhaseRank(after) == 1 && PhaseRank(before) == 0 ==> e.PrepareRun?)
            && (PhaseRank(after) == 2 && PhaseRank(before) == 1 ==> e.ResumeRun?)
  {
    hide RunScript, EvidenceOf, CleanEvent, PreparedState, SortedFields, After, LoadObject, PhaseRank;
    var now := FilesAfter(h, path, files, events);
    assert (events + [e])[..|events|] == events;
    assert FilesAfter(h, path, files, events + [e]) == After(h, path, now, e);
    var stages := HistoryStages(h, path, files, events);
    var stage := OneStep(h, path, now, events, e, stages[|events|]);
    StagePhase(h, events, StateAt(h, now, path), path in now, stages[|events|]);
    StagePhase(h, events + [e], StateAt(h, After(h, path, now, e), path), path in After(h, path, now, e), stage);
  }

  /** Outside the completion keys the final receipt still reads as the prepared one did. */
  ghost predicate Frozen(h: Host, p: Event, final: Fields) {
    && p.PrepareRun? && EvidenceOf(h, p).Some?
    && forall k :: k !in CompletionKeys() ==> Get(final, k) == Get(Loaded(h, p), k)
  }

  lemma FinishedFrozen(h: Host, p: Event, r: Event)
    requires p.PrepareRun? && r.ResumeRun? && EvidenceOf(h, p).Some? && CleanEvent(p)
    requires ResumeOn(h, r, Loaded(h, p)).result.Some?
    ensures Frozen(h, p, SortedFields(ResumeOn(h, r, Loaded(h, p)).result.value))
  {
    hide RunScript, EvidenceOf, CleanEvent, PreparedState, SortedFields, Clean, Get, CompletionKeys, CompletionUpdates, Resumed, PutAll;
    var state := Loaded(h, p);
    var o := ResumeOn(h, r, state);
    LoadedClean(h, p);
    CleanDistinct(state);
    ResumeEnds(h, r.scenario, state, r.replies);
    ResumedUpdates(h, r.scenario, state, o.seen);
    CompletedReads(h, state, o.seen);
    forall k | k !in CompletionKeys() ensures Get(SortedFields(o.result.value), k) == Get(state, k) {
      SortedReads(o.result.value, k);
      PrepareResult(h, p);
      StateReadsSorted(PreparedState(EvidenceOf(h, p).value), k);
    }
  }

  lemma CleanDistinct(fields: Fields)
    requires Clean(Obj(fields))
    ensures DistinctKeys(KeyOf, fields)
  {
  }

  function SortedValue(v: Option<JsonValues.Json>): Option<JsonValues.Json> {
    match v
    case None => None
    case Some(x) => Some(SortKeys(x))
  }

  lemma SortedReads(fields: Fields, k: Text)
    requires DistinctKeys(KeyOf, fields)
    ensures Get(SortedFields(fields), k) == SortedValue(Get(fields, k))
  {
    hide Get, Sort, SortValues, SortKeys;
    GetSorted(fields, k);
  }

  /** What a sorted dict holds is already sorted. */
  lemma StateReadsSorted(fields: Fields, k: Text)
    requires Clean(Obj(fields))
    ensures SortedValue(Get(SortedFields(fields), k)) == Get(SortedFields(fields), k)
  {
    hide Clean, Get, SortedFields, SortKeys;
    CleanDistinct(fields);
    SortedReads(fields, k);
    if Get(fields, k).Some? {
      GetClean(fields, k);
      CleanSorted(Get(fields, k).value);
    }
  }

  lemma CleanSorted(v: JsonValues.Json)
    requires Clean(v)
    ensures SortKeys(SortKeys(v)) == SortKeys(v)
  {
    hide SortKeys;
    SortKeysIdempotent(v);
  }

  /** What prepare has seen of a revision it records: a proposal reviewed before it was selectable, read back and active. */
  ghost predicate Approved(h: Host, seen: seq<JsonValues.Json>, revision: Text) {
    && NotSelectable(Dict(seen, 0)) && ReviewAllowed(h, Dict(seen, 1), Dict(seen, 2))
    && RevisionId(h, Dict(seen, 3)) == Some(revision)
    && Get(Dict(seen, 4), Ascii("revision_id")) == Some(Str(revision)) && ActiveHead(Dict(seen, 5), revision)
  }

  lemma PrepareApproved(h: Host, e: Event)
    requires e.PrepareRun? && EvidenceOf(h, e).Some?
    ensures Approved(h, PrepareSeen(h, e), EvidenceOf(h, e).value.revisionId)
  {
    hide *;
    var script := Prepare(h, e.scenario, e.sourceTask);
    var o := RunScript(script, e.replies);
    var seen := o.seen;
    EvidenceRun(h, e);
    RunFollows(script, e.replies);
    PrepareScript(h, e.scenario, e.sourceTask, e.replies);
    MoveAt(script, e.replies, 3);
    MoveAt(script, e.replies, 6);
    PrepareNext(h, e.scenario, e.sourceTask, seen[..3]);
    PrepareNext(h, e.scenario, e.sourceTask, seen[..6]);
    ReviewMove(h, e.scenario, e.sourceTask, seen[..3], o.issued[3]);
    FreshUseMove(h, e.scenario, e.sourceTask, seen[..6]);
    DictPrefix(seen, 3);
    DictPrefix(seen, 6);
    EvidenceRevision(h, e.scenario, e.sourceTask, seen);
    ApprovedFolds(h, seen, EvidenceOf(h, e).value.revisionId);
  }

  lemma EvidenceRun(h: Host, e: Event)
    requires e.PrepareRun? && EvidenceOf(h, e).Some?
    ensures var o := RunScript(Prepare(h, e.scenario, e.sourceTask), e.replies);
            && o.result.Some? && PrepareSeen(h, e) == o.seen
            && EvidenceOf(h, e) == PreparedEvidence(h, e.scenario, e.sourceTask, o.seen)
  {
    hide RunScript, PreparedEvidence;
  }

  lemma EvidenceRevision(h: Host, scenario: Fields, sourceTask: Text, seen: seq<JsonValues.Json>)
    requires PreparedEvidence(h, scenario, sourceTask, seen).Some?
    ensures RevisionId(h, Dict(seen, 3)) == Some(PreparedEvidence(h, scenario, sourceTask, seen).value.revisionId)
  {
    hide Get, TextAt, SubObject, Require, PyInt, Hash, UseUnchanged, UseDict, Ascii, RevisionId, HeadId, ApprovedReceipt, FirstUse, Dict;
  }

  lemma ApprovedFolds(h: Host, seen: seq<JsonValues.Json>, revision: Text)
    requires NotSelectable(Dict(seen, 0)) && ReviewAllowed(h, Dict(seen, 1), Dict(seen, 2))
    requires RevisionId(h, Dict(seen, 3)) == Some(revision)
    requires Get(Dict(seen, 4), Ascii("revision_id")) == Some(Str(revision)) && ActiveHead(Dict(seen, 5), revision)
    ensures Approved(h, seen, revision)
  {
    hide NotSelectable, ReviewAllowed, RevisionId, Get, Ascii, ActiveHead, Dict;
  }

  /**
    The whole proof behind a completed receipt: prepare event p passed every check, the
    later resume event r passed every check on p's receipt, the two agree, the receipt
    on disk is r's result, and its prepared fields are p's.
   */
  ghost predicate Completed(h: Host, p: Event, r: Event, found: Option<Fields>) {
    && Evidence(h, p, r)
    && Approved(h, PrepareSeen(h, p), EvidenceOf(h, p).value.revisionId)
    && ResumeOn(h, r, Loaded(h, p)).result.Some?
    && Resumed(h, r.scenario, Loaded(h, p), ResumeOn(h, r, Loaded(h, p)).seen)
    && found == Some(SortedFields(ResumeOn(h, r, Loaded(h, p)).result.value))
    && Frozen(h, p, found.value)
  }

  lemma FinishedCompleted(h: Host, p: Event, r: Event)
    requires p.PrepareRun? && r.ResumeRun? && EvidenceOf(h, p).Some? && CleanEvent(p)
    requires ResumeOn(h, r, Loaded(h, p)).result.Some?
    ensures Completed(h, p, r, Some(SortedFields(ResumeOn(h, r, Loaded(h, p)).result.value)))
  {
    hide RunScript, EvidenceOf, CleanEvent, PreparedState, SortedFields, Evidence, Frozen, Resumed, PutAll, CompletionUpdates, Approved;
    PrepareApproved(h, p);
    FinishedEvidence(h, p, r);
    FinishedFrozen(h, p, r);
    ResumeEnds(h, r.scenario, Loaded(h, p), r.replies);
  }

  /**
    In any history from an absent file, a completed receipt on disk is the result of a
    resume run that passed every check on the receipt of an earlier prepare run that did,
    with the same scenario, revision, head and revision id, and nothing prepared changed.
   */
  lemma CompleteMeansBothPhases(h: Host, path: Text, files: Files, events: seq<Event>)
    requires path !in files && forall i :: 0 <= i < |events| ==> CleanEvent(events[i])
    requires var found := StateAt(h, FilesAfter(h, path, files, events), path);
             found.Some? && Get(found.value, Ascii("phase")) == Some(Str(Ascii("complete")))
    ensures exists p: nat, r: nat :: p < r < |events|
              && Completed(h, events[p], events[r], StateAt(h, FilesAfter(h, path, files, events), path))
  {
    hide RunScript, EvidenceOf, CleanEvent, PreparedState, SortedFields, FilesAfter, LoadObject, StateAt, Completed, Get, Advances;
    var now := FilesAfter(h, path, files, events);
    var found := StateAt(h, now, path);
    var stages := HistoryStages(h, path, files, events);
    var stage := stages[|events|];
    StagePhase(h, events, found, path in now, stage);
    PhasesDiffer();
    assert stage.Finished?;
    FinishedCompleted(h, events[stage.p], events[stage.r]);
    assert Completed(h, events[stage.p], events[stage.r], found);
  }

  lemma PhasesDiffer()
    ensures Ascii("prepared") != Ascii("complete")
  {
    assert Ascii("prepared")[0] == 'p' as int as Code && Ascii("complete")[0] == 'c' as int as Code;
  }

  /** The hashed texts of two values do not collide. */
  ghost predicate NoCollision(h: Host, v: JsonValues.Json, w: JsonValues.Json) {
    Hash(h, v) == Hash(h, w) ==> Canonical(v) == Canonical(w)
  }

  /** Where the hash does not collide, equal hashes of clean dicts mean equal dicts up to key order. */
  lemma HashFaithful(h: Host, v: JsonValues.Json, w: JsonValues.Json)
    requires NoCollision(h, v, w) && Clean(v) && Clean(w)
    ensures Hash(h, v) == Hash(h, w) <==> Same(v, w)
  {
    hide Tokens, Dicts, Everywhere, Canonical, Same;
    CanonicalFaithful(v, w);
  }

  /** The hash does not collide on what the two phases compare: scenario, revision and head. */
  ghost predicate Collisionless(h: Host, p: Event, r: Event)
    requires p.PrepareRun? && r.ResumeRun? && EvidenceOf(h, p).Some?
  {
    var ps, rs := PrepareSeen(h, p), ResumeOn(h, r, Loaded(h, p)).seen;
    && NoCollision(h, Obj(p.scenario), Obj(r.scenario))
    && NoCollision(h, Obj(Dict(ps, 4)), Obj(Dict(rs, 0)))
    && NoCollision(h, Obj(Dict(ps, 5)), Obj(Dict(rs, 1)))
  }

  /** Where the hash does not collide, the two phases saw the same scenario, revision and head up to key order. */
  lemma EvidenceMeansSame(h: Host, p: Event, r: Event)
    requires CleanEvent(p) && CleanEvent(r) && Evidence(h, p, r) && Collisionless(h, p, r)
    ensures Same(Obj(p.scenario), Obj(r.scenario))
    ensures var ps := PrepareSeen(h, p); var rs := ResumeOn(h, r, Loaded(h, p)).seen;
            Same(Obj(Dict(ps, 4)), Obj(Dict(rs, 0))) && Same(Obj(Dict(ps, 5)), Obj(Dict(rs, 1)))
  {
    hide RunScript, EvidenceOf, PreparedState, SortedFields, Clean, Hash, Same, UseAttribution, Dict, NoCollision;
    var ps, rs := PrepareSeen(h, p), ResumeOn(h, r, Loaded(h, p)).seen;
    SeenClean(Prepare(h, p.scenario, p.sourceTask), p.replies);
    SeenClean(Resume(h, r.scenario, Loaded(h, p)), r.replies);
    DictClean(ps, 4);
    DictClean(ps, 5);
    DictClean(rs, 0);
    DictClean(rs, 1);
    HashFaithful(h, Obj(p.scenario), Obj(r.scenario));
    HashFaithful(h, Obj(Dict(ps, 4)), Obj(Dict(rs, 0)));
    HashFaithful(h, Obj(Dict(ps, 5)), Obj(Dict(rs, 1)));
  }

  /** A refused start, on an existing file, a wrong phase or a changed scenario, issues no command and changes nothing. */
  lemma RefusedStart(h: Host, path: Text, files: Files, e: Event)
    requires e.PrepareRun? ==> path in files
    requires e.ResumeRun? ==> StateAt(h, files, path).None? || !Resumable(h, e.scenario, StateAt(h, files, path).value)
    ensures RunEvent(h, path, files, e).issued == [] && After(h, path, files, e) == files
  {
    hide Resumable, LoadObject, Answer;
    if e.ResumeRun? && StateAt(h, files, path).Some? {
      assert NextMove(Resume(h, e.scenario, StateAt(h, files, path).value), []) == Stop;
    }
  }

  /** Whatever the run and wherever it crashed, the path keeps its old text or holds the whole new receipt. */
  lemma ResumeKeepsOrReplaces(h: Host, path: Text, files: Files, e: Event)
    requires e.ResumeRun? && path in files
    ensures var o := RunEvent(h, path, files, e); var files' := After(h, path, files, e);
            && path in files'
            && (files'[path] == files[path] || (o.result.Some? && files'[path] == Document(Obj(o.result.value))))
            && (o.result.None? ==> files' == files)
  {
    hide RunEvent, Document, Replace;
    var o := RunEvent(h, path, files, e);
    if o.result.Some? {
      ReplaceAtomic(Disk(files, e.fuse), path, Document(Obj(o.result.value)));
    }
  }
}
