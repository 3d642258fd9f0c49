/** One run of a phase against any sequence of replies, and the commands it can issue. */
module JourneyRuns {
  import opened Options
  import opened Texts
  import opened JsonValues
  import opened JsonLimits
  import opened Cli
  import opened Journey

  datatype Script =
    | Prepare(host: Host, scenario: Fields, sourceTask: Text)
    | Resume(host: Host, scenario: Fields, state: Fields)

  function NextMove(script: Script, seen: seq<JsonValues.Json>): Move {
    match script
    case Prepare(h, scenario, sourceTask) => PrepareMove(h, scenario, sourceTask, seen)
    case Resume(h, scenario, state) => ResumeMove(h, scenario, state, seen)
  }

  datatype Outcome = Outcome(issued: seq<Command>, seen: seq<JsonValues.Json>, result: Option<Fields>)

  /** Follow the moves; a runner that raises, or has no reply left, ends the run after the command. */
  function Drive(script: Script, replies: seq<Reply>, seen: seq<JsonValues.Json>, issued: seq<Command>): Outcome
    decreases |replies|
  {
    match NextMove(script, seen)
    case Stop => Outcome(issued, seen, None)
    case Done(state) => Outcome(issued, seen, Some(state))
    case Issue(command) =>
      if replies == [] then Outcome(issued + [command], seen, None)
      else
        match Answer(script.host.limits, command, replies[0])
        case None => Outcome(issued + [command], seen, None)
        case Some(answer) => Drive(script, replies[1..], seen + [answer], issued + [command])
  }

  function RunScript(script: Script, replies: seq<Reply>): Outcome {
    Drive(script, replies, [], [])
  }

  /** Every command so far was the move its answers called for, and every answer is the runner's. */
  ghost predicate Follows(script: Script, replies: seq<Reply>, seen: seq<JsonValues.Json>, issued: seq<Command>) {
    && |seen| <= |issued| <= |seen| + 1 && |seen| <= |replies|
    && (forall k :: 0 <= k < |issued| ==> NextMove(script, seen[..k]) == Issue(issued[k]))
    && (forall k :: 0 <= k < |seen| ==> Answer(script.host.limits, issued[k], replies[k]) == Some(seen[k]))
  }

  lemma {:induction false} DriveFollows(script: Script, all: seq<Reply>, seen: seq<JsonValues.Json>, issued: seq<Command>)
    requires Follows(script, all, seen, issued) && |seen| == |issued|
    ensures var o := Drive(script, all[|seen|..], seen, issued);
            && Follows(script, all, o.seen, o.issued)
            && (o.result.Some? ==> |o.seen| == |o.issued| && NextMove(script, o.seen) == Done(o.result.value))
    decreases |all| - |seen|
  {
    hide NextMove, Answer;
    var replies := all[|seen|..];
    assert seen[..|seen|] == seen;
    match NextMove(script, seen)
    case Stop =>
    case Done(_) =>
    case Issue(command) =>
      FollowsIssue(script, all, seen, issued, command);
      if replies != [] {
        match Answer(script.host.limits, command, replies[0])
        case None =>
        case Some(answer) =>
          FollowsAnswer(script, all, seen, issued + [command], answer);
          assert replies[1..] == all[|seen + [answer]|..];
          DriveFollows(script, all, seen + [answer], issued + [command]);
      }
  }

  lemma FollowsIssue(script: Script, all: seq<Reply>, seen: seq<JsonValues.Json>, issued: seq<Command>, command: Command)
    requires Follows(script, all, seen, issued) && |seen| == |issued|
    requires NextMove(script, seen) == Issue(command)
    ensures Follows(script, all, seen, issued + [command])
  {
    hide NextMove, Answer;
    assert seen[..|seen|] == seen;
  }

  lemma FollowsAnswer(script: Script, all: seq<Reply>, seen: seq<JsonValues.Json>, issued: seq<Command>, answer: JsonValues.Json)
    requires Follows(script, all, seen, issued) && |issued| == |seen| + 1 && |seen| < |all|
    requires Answer(script.host.limits, issued[|seen|], all[|seen|]) == Some(answer)
    ensures Follows(script, all, seen + [answer], issued)
  {
    hide NextMove, Answer;
    forall k | 0 <= k < |issued| ensures NextMove(script, (seen + [answer])[..k]) == Issue(issued[k]) {
      assert (seen + [answer])[..k] == seen[..k];
    }
  }

  lemma RunFollows(script: Script, replies: seq<Reply>)
    ensures var o := RunScript(script, replies);
            && Follows(script, replies, o.seen, o.issued)
            && (o.result.Some? ==> |o.seen| == |o.issued| && NextMove(script, o.seen) == Done(o.result.value))
  {
    hide NextMove, Drive;
    assert replies[0..] == replies;
    DriveFollows(script, replies, [], []);
  }

  // ----- the fixed scripts

  function PrepareVerbs(): seq<string> {
    ["teach", "inspect", "diff", "review", "revision", "head", "use", "selection", "use-receipt"]
  }

  function ResumeVerbs(): seq<string> {
    ["revision", "head", "use", "selection", "use-receipt", "lifecycle", "head", "use"]
  }

  predicate HasVerb(c: Command, verb: string) {
    |c.args| >= 2 && c.args[0] == Ascii("cognition") && c.args[1] == Ascii(verb)
  }

  lemma PrepareMoveVerb(h: Host, scenario: Fields, sourceTask: Text, seen: seq<JsonValues.Json>)
    ensures var m := PrepareMove(h, scenario, sourceTask, seen);
            && (m.Issue? ==> |seen| < 9 && HasVerb(m.command, PrepareVerbs()[|seen|]) && m.command.Json?)
            && (m.Done? ==> |seen| == 9)
  {
    hide Ascii, TextAt, ProposalId, RevisionId, HeadId, ReviewAllowed, ActiveHead, PreparedEvidence, PreparedState, FirstUse, Get, Words, PyStr, Dict;
  }

  lemma ResumeMoveVerb(h: Host, scenario: Fields, state: Fields, seen: seq<JsonValues.Json>)
    ensures var m := ResumeMove(h, scenario, state, seen);
            && (m.Issue? ==> |seen| < 8 && m.command.args != [] && HasVerb(m.command, ResumeVerbs()[|seen|]) && (m.command.Failure? <==> |seen| == 7))
            && (m.Done? ==> |seen| == 8)
  {
    hide Ascii, TextAt, Resumable, StateText, UnchangedAcrossRestart, ActiveHead, CompletionUpdates, RestartUse, UseUnchanged,
      Get, Words, PyStr, RetiredReceipt;
  }

  lemma PrepareWritable(h: Host, scenario: Fields, sourceTask: Text, seen: seq<JsonValues.Json>)
    ensures var m := PrepareMove(h, scenario, sourceTask, seen); m.Done? ==> Writable(h.limits, Obj(m.state))
  {
    hide Ascii, TextAt, ProposalId, RevisionId, HeadId, ReviewAllowed, ActiveHead, PreparedEvidence, PreparedState, FirstUse, Get,
      Words, PyStr, Writable, Dict;
  }

  lemma ResumeWritable(h: Host, scenario: Fields, state: Fields, seen: seq<JsonValues.Json>)
    ensures var m := ResumeMove(h, scenario, state, seen); m.Done? ==> Writable(h.limits, Obj(m.state))
  {
    hide Ascii, TextAt, Resumable, StateText, UnchangedAcrossRestart, ActiveHead, CompletionUpdates, RestartUse, UseUnchanged,
      Get, Words, PyStr, RetiredReceipt, PutAll, Writable, Dict;
  }

  /** A run that succeeds has a state that could be turned into text. */
  lemma ResultWritable(script: Script, replies: seq<Reply>)
    ensures var o := RunScript(script, replies);
            o.result.Some? ==> Writable(script.host.limits, Obj(o.result.value))
  {
    RunFollows(script, replies);
    hide RunScript, Writable, PrepareMove, ResumeMove, Follows;
    var o := RunScript(script, replies);
    match script
    case Prepare(h, scenario, sourceTask) => PrepareWritable(h, scenario, sourceTask, o.seen);
    case Resume(h, scenario, state) => ResumeWritable(h, scenario, state, o.seen);
  }

  /** The commands of a prepare run are a prefix of its nine; it succeeds only after all nine. */
  lemma PrepareScript(h: Host, scenario: Fields, sourceTask: Text, replies: seq<Reply>)
    ensures var o := RunScript(Prepare(h, scenario, sourceTask), replies);
            && |o.issued| <= 9
            && (forall k :: 0 <= k < |o.issued| ==> o.issued[k].Json? && HasVerb(o.issued[k], PrepareVerbs()[k]))
            && (o.result.Some? ==> |o.issued| == 9)
  {
    hide PrepareMove, RunScript, Answer, HasVerb;
    var script := Prepare(h, scenario, sourceTask);
    var o := RunScript(script, replies);
    RunFollows(script, replies);
    forall k | 0 <= k < |o.issued|
      ensures k < 9 && o.issued[k].Json? && HasVerb(o.issued[k], PrepareVerbs()[k])
    {
      assert NextMove(script, o.seen[..k]) == Issue(o.issued[k]);
      PrepareMoveVerb(h, scenario, sourceTask, o.seen[..k]);
    }
    if |o.issued| > 0 {
      assert o.issued[|o.issued| - 1].Json?;
    }
    PrepareMoveVerb(h, scenario, sourceTask, o.seen);
  }

  /** The commands of a resume run are a prefix of its eight, the last of which must be refused. */
  lemma ResumeScript(h: Host, scenario: Fields, state: Fields, replies: seq<Reply>)
    ensures var o := RunScript(Resume(h, scenario, state), replies);
            && |o.issued| <= 8
            && (forall k :: 0 <= k < |o.issued| ==> (o.issued[k].Failure? <==> k == 7) && HasVerb(o.issued[k], ResumeVerbs()[k]))
            && (o.result.Some? ==> |o.issued| == 8)
  {
    hide ResumeMove, RunScript, Answer, HasVerb;
    var script := Resume(h, scenario, state);
    var o := RunScript(script, replies);
    RunFollows(script, replies);
    forall k | 0 <= k < |o.issued|
      ensures k < 8 && o.issued[k].args != [] && (o.issued[k].Failure? <==> k == 7) && HasVerb(o.issued[k], ResumeVerbs()[k])
    {
      assert NextMove(script, o.seen[..k]) == Issue(o.issued[k]);
      ResumeMoveVerb(h, scenario, state, o.seen[..k]);
    }
    if |o.issued| > 0 {
      assert o.issued[|o.issued| - 1].args != [];
    }
    ResumeMoveVerb(h, scenario, state, o.seen);
  }

  lemma VerbsDiffer(c: Command, k: nat)
    ensures k < 9 && HasVerb(c, PrepareVerbs()[k]) && HasVerb(c, "review") ==> k == 3
    ensures k < 8 && HasVerb(c, ResumeVerbs()[k]) && HasVerb(c, "lifecycle") ==> k == 5
  {
    assert Ascii("lifecycle")[0] == 'l' as int as Code && Ascii("selection")[0] == 's' as int as Code;
    assert |Ascii("review")| == 6 && |Ascii("lifecycle")| == 9;
  }

  /** Review is issued only on a proposal that was never selectable and whose diff is not empty. */
  lemma ReviewGuarded(h: Host, scenario: Fields, sourceTask: Text, replies: seq<Reply>, k: nat)
    requires var o := RunScript(Prepare(h, scenario, sourceTask), replies);
             k < |o.issued| && HasVerb(o.issued[k], "review")
    ensures var o := RunScript(Prepare(h, scenario, sourceTask), replies);
            && k == 3 && |o.seen| >= 3
            && o.seen[..3] == [Obj(Dict(o.seen, 0)), Obj(Dict(o.seen, 1)), Obj(Dict(o.seen, 2))]
            && NotSelectable(Dict(o.seen, 0)) && NotSelectable(Dict(o.seen, 1))
            && Truthy(h, Get(Dict(o.seen, 2), Ascii("changes")))
            && (exists p :: ProposalId(h, Dict(o.seen, 0)) == Some(p) && o.issued[3] == ReviewCommand(p))
  {
    hide *;
    var script := Prepare(h, scenario, sourceTask);
    var o := RunScript(script, replies);
    PrepareScript(h, scenario, sourceTask, replies);
    VerbsDiffer(o.issued[k], k);
    MoveAt(script, replies, 3);
    AnswersAreObjects(script, replies, 3);
    PrepareNext(h, scenario, sourceTask, o.seen[..3]);
    ReviewMove(h, scenario, sourceTask, o.seen[..3], o.issued[3]);
    DictPrefix(o.seen, 3);
    ReviewParts(h, Dict(o.seen, 1), Dict(o.seen, 2));
    assert o.seen[..3] == [o.seen[0], o.seen[1], o.seen[2]];
  }

  lemma ReviewParts(h: Host, inspection: Fields, diff: Fields)
    requires ReviewAllowed(h, inspection, diff)
    ensures NotSelectable(inspection) && Truthy(h, Get(diff, Ascii("changes")))
  {
  }

  lemma PrepareNext(h: Host, scenario: Fields, sourceTask: Text, seen: seq<JsonValues.Json>)
    ensures NextMove(Prepare(h, scenario, sourceTask), seen) == PrepareMove(h, scenario, sourceTask, seen)
  {
    hide PrepareMove;
  }

  lemma ResumeNext(h: Host, scenario: Fields, state: Fields, seen: seq<JsonValues.Json>)
    ensures NextMove(Resume(h, scenario, state), seen) == ResumeMove(h, scenario, state, seen)
  {
    hide ResumeMove;
  }

  /** The k-th command of a run is the move its first k answers call for. */
  lemma MoveAt(script: Script, replies: seq<Reply>, k: nat)
    requires k < |RunScript(script, replies).issued|
    ensures var o := RunScript(script, replies);
            k <= |o.seen| && NextMove(script, o.seen[..k]) == Issue(o.issued[k])
  {
    hide NextMove, RunScript, Answer;
    RunFollows(script, replies);
  }

  lemma DictPrefix(seen: seq<JsonValues.Json>, n: nat)
    requires n <= |seen|
    ensures forall i: nat :: i < n ==> Dict(seen[..n], i) == Dict(seen, i)
  {
  }

  lemma ReviewMove(h: Host, scenario: Fields, sourceTask: Text, seen: seq<JsonValues.Json>, c: Command)
    requires |seen| == 3 && PrepareMove(h, scenario, sourceTask, seen) == Issue(c)
    ensures NotSelectable(Dict(seen, 0)) && ReviewAllowed(h, Dict(seen, 1), Dict(seen, 2))
    ensures ProposalId(h, Dict(seen, 0)).Some? && c == ReviewCommand(ProposalId(h, Dict(seen, 0)).value)
  {
    hide Ascii, Get, NotSelectable, ReviewAllowed, TextAt, SubObject, ReviewCommand;
  }

  lemma AnswersAreObjects(script: Script, replies: seq<Reply>, n: nat)
    requires n <= |RunScript(script, replies).seen| && n <= |RunScript(script, replies).issued|
    requires forall k :: 0 <= k < n ==> RunScript(script, replies).issued[k].Json?
    ensures var seen := RunScript(script, replies).seen;
            forall k :: 0 <= k < n ==> seen[k] == Obj(Dict(seen, k))
  {
    hide RunScript, NextMove;
    var o := RunScript(script, replies);
    RunFollows(script, replies);
    forall k | 0 <= k < n ensures o.seen[k] == Obj(Dict(o.seen, k)) {
      assert Answer(script.host.limits, o.issued[k], replies[k]) == Some(o.seen[k]);
    }
  }

  /** Retire is issued only after revision and head proved unchanged and the restart use was attributed and read back. */
  lemma RetireGuarded(h: Host, scenario: Fields, state: Fields, replies: seq<Reply>, k: nat)
    requires var o := RunScript(Resume(h, scenario, state), replies);
             k < |o.issued| && HasVerb(o.issued[k], "lifecycle")
    ensures var o := RunScript(Resume(h, scenario, state), replies);
            && k == 5 && |o.seen| >= 5 && Resumable(h, scenario, state)
            && (forall i :: 0 <= i < 5 ==> o.seen[i] == Obj(Dict(o.seen, i)))
            && UnchangedAcrossRestart(h, state, Dict(o.seen, 0), Dict(o.seen, 1))
            && ActiveHead(Dict(o.seen, 1), StateText(h, state, "revision_id").value)
            && RestartUse(h, state, o.seen).Some?
            && UseUnchanged(h, RestartUse(h, state, o.seen).value, Dict(o.seen, 3), Dict(o.seen, 4))
  {
    hide *;
    var script := Resume(h, scenario, state);
    var o := RunScript(script, replies);
    ResumeScript(h, scenario, state, replies);
    VerbsDiffer(o.issued[k], k);
    MoveAt(script, replies, 2);
    MoveAt(script, replies, 5);
    AnswersAreObjects(script, replies, 5);
    ResumeNext(h, scenario, state, o.seen[..2]);
    ResumeNext(h, scenario, state, o.seen[..5]);
    RestartMove(h, scenario, state, o.seen[..2]);
    RetireMove(h, scenario, state, o.seen[..5]);
    DictPrefix(o.seen, 2);
    DictPrefix(o.seen, 5);
    RestartUseBy(h, state, o.seen[..5], o.seen);
  }

  lemma RestartUseBy(h: Host, state: Fields, seen: seq<JsonValues.Json>, all: seq<JsonValues.Json>)
    requires Dict(seen, 2) == Dict(all, 2)
    ensures RestartUse(h, state, seen) == RestartUse(h, state, all)
  {
    hide StateText, UseAttribution;
  }

  lemma RestartMove(h: Host, scenario: Fields, state: Fields, seen: seq<JsonValues.Json>)
    requires |seen| == 2 && ResumeMove(h, scenario, state, seen).Issue?
    ensures Resumable(h, scenario, state)
    ensures UnchangedAcrossRestart(h, state, Dict(seen, 0), Dict(seen, 1))
    ensures ActiveHead(Dict(seen, 1), StateText(h, state, "revision_id").value)
  {
    hide Ascii, Get, UnchangedAcrossRestart, ActiveHead, UseCommand, StateText;
  }

  lemma RetireMove(h: Host, scenario: Fields, state: Fields, seen: seq<JsonValues.Json>)
    requires |seen| == 5 && ResumeMove(h, scenario, state, seen).Issue?
    ensures RestartUse(h, state, seen).Some?
    ensures UseUnchanged(h, RestartUse(h, state, seen).value, Dict(seen, 3), Dict(seen, 4))
  {
    hide Ascii, Get, UseUnchanged, RetireCommand, StateText, Resumable, UseAttribution;
  }

  /** The use that is refused is asked for only once the head reports its retirement. */
  lemma RefusedMove(h: Host, scenario: Fields, state: Fields, seen: seq<JsonValues.Json>)
    requires |seen| == 7 && ResumeMove(h, scenario, state, seen).Issue?
    ensures Get(Dict(seen, 6), Ascii("lifecycle")) == Some(Str(Ascii("retired")))
  {
    hide Ascii, Get, UseUnchanged, RefusedUseCommand, StateText, Resumable, UseAttribution, Dict;
  }

  /** The fresh use is asked for only once the approved revision is read back and active at the head. */
  lemma FreshUseMove(h: Host, scenario: Fields, sourceTask: Text, seen: seq<JsonValues.Json>)
    requires |seen| == 6 && PrepareMove(h, scenario, sourceTask, seen).Issue?
    ensures RevisionId(h, Dict(seen, 3)).Some?
    ensures var r := RevisionId(h, Dict(seen, 3)).value;
            Get(Dict(seen, 4), Ascii("revision_id")) == Some(Str(r)) && ActiveHead(Dict(seen, 5), r)
  {
    hide Ascii, Get, RevisionId, ActiveHead, TextAt, UseCommand, Dict;
  }
}
