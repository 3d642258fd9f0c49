/**
  The two phases of the external journey as move tables: what each phase does next,
  given the answers it has seen so far.
 */
module Journey {
  import opened Options
  import opened Texts
  import opened Numerals
  import opened JsonValues
  import opened JsonPrinter
  import opened JsonDecoder
  import opened JsonLimits
  import opened Cli

  /** Parts of Python's runtime that the journey uses and this model does not define. */
  datatype Host = Host(
    digest: Text -> PlainText,               // hex SHA-256 of a text
    repr: JsonValues.Json -> PlainText,      // str() of a value that is neither a string nor an integer
    toInt: JsonValues.Json -> Option<int>,   // int() of a value that is not an integer
    looseEq: (JsonValues.Json, JsonValues.Json) -> bool,  // == when neither side is a string
    realTruth: Text -> bool,                 // truth value of a float token
    limits: Limits)                          // limits of the JSON decoder

  function Hash(h: Host, v: JsonValues.Json): PlainText {
    h.digest(Canonical(v))
  }

  /** None, an empty string, an empty list and an empty dict are refused. */
  function Require(v: Option<JsonValues.Json>): Option<JsonValues.Json> {
    if v.None? || v.value in {Null, Str([]), Arr([]), Obj([])} then None else v
  }

  function PyStr(h: Host, v: JsonValues.Json): Text {
    match v
    case Str(s) => s
    case Int(n) => IntText(n)
    case _ => h.repr(v)
  }

  function PyInt(h: Host, v: JsonValues.Json): Option<int> {
    match v
    case Int(n) => Some(n)
    case _ => h.toInt(v)
  }

  function PyEq(h: Host, v: JsonValues.Json, w: JsonValues.Json): bool {
    if v.Str? || w.Str? then v == w else h.looseEq(v, w)
  }

  predicate Truthy(h: Host, v: Option<JsonValues.Json>) {
    match v
    case None => false
    case Some(x) =>
      match x
      case Null => false
      case Bool(b) => b
      case Int(n) => n != 0
      case Real(token) => h.realTruth(token)
      case Str(s) => s != []
      case Arr(items) => items != []
      case Obj(fields) => fields != []
  }

  /** Iterating a value: a list, the characters of a string, the keys of a dict; anything else raises. */
  function Iterate(v: JsonValues.Json): Option<seq<JsonValues.Json>> {
    match v
    case Arr(items) => Some(items)
    case Str(s) => Some(seq(|s|, i requires 0 <= i < |s| => Str([s[i]])))
    case Obj(fields) => Some(seq(|fields|, i requires 0 <= i < |fields| => Str(fields[i].key)))
    case _ => None
  }

  function Strings(texts: seq<Text>): (r: seq<JsonValues.Json>)
    ensures |r| == |texts| && forall i :: 0 <= i < |r| ==> r[i] == Str(texts[i])
  {
    seq(|texts|, i requires 0 <= i < |texts| => Str(texts[i]))
  }

  function TextsOf(h: Host, items: seq<JsonValues.Json>): (r: seq<Text>)
    ensures |r| == |items| && forall i :: 0 <= i < |r| ==> r[i] == PyStr(h, items[i])
  {
    seq(|items|, i requires 0 <= i < |items| => PyStr(h, items[i]))
  }

  function SelectedRevisions(receipt: Fields): Option<seq<JsonValues.Json>> {
    match Get(receipt, Ascii("selected_revision_ids"))
    case None => Some([])
    case Some(v) => Iterate(v)
  }

  /** A required text of a dict: missing and empty values are refused, others go through str(). */
  function TextAt(h: Host, fields: Fields, key: Text): Option<Text> {
    var v :- Require(Get(fields, key));
    Some(PyStr(h, v))
  }

  function SubObject(fields: Fields, key: Text): Option<Fields> {
    var v :- Require(Get(fields, key));
    if v.Obj? then Some(v.fields) else None
  }

  // ----- attribution of a fresh use to a revision

  datatype Attribution = Attribution(
    taskId: JsonValues.Json, selectionReceipt: JsonValues.Json, useReceipt: JsonValues.Json,
    selected: seq<Text>, materialUse: JsonValues.Json)

  function UseAttribution(h: Host, task: Fields, revision: Text): Option<Attribution> {
    if Get(task, Ascii("status")) != Some(Str(Ascii("completed"))) then None else
    var selection :- SubObject(task, Ascii("cognition_selection_receipt"));
    var use :- SubObject(task, Ascii("cognition_use_receipt"));
    var selectedItems :- SelectedRevisions(selection);
    var usedItems :- SelectedRevisions(use);
    var selected := TextsOf(h, selectedItems);
    if selected == [] || selected != TextsOf(h, usedItems) || revision !in selected then None else
    if Get(use, Ascii("state")) != Some(Str(Ascii("used"))) then None else
    if !Truthy(h, Get(use, Ascii("material_use_hash"))) then None else
    var taskId :- Require(Get(task, Ascii("id")));
    var selectionReceipt :- Require(Get(selection, Ascii("selection_receipt_id")));
    var useReceipt :- Require(Get(use, Ascii("use_receipt_id")));
    var materialUse := Get(use, Ascii("material_use_hash")).value;
    Some(Attribution(taskId, selectionReceipt, useReceipt, selected, materialUse))
  }

  /** The receipts read back must repeat the attribution exactly. */
  predicate UseUnchanged(h: Host, a: Attribution, selection: Fields, use: Fields) {
    && SelectedRevisions(selection) == Some(Strings(a.selected))
    && SelectedRevisions(use) == Some(Strings(a.selected))
    && PyEq(h, (match Get(use, Ascii("material_use_hash")) case None => Null case Some(v) => v), a.materialUse)
  }

  function UseDict(h: Host, a: Attribution, selection: Fields, use: Fields): Fields {
    [ Field(Ascii("task_id"), a.taskId),
      Field(Ascii("selection_receipt_id"), a.selectionReceipt),
      Field(Ascii("use_receipt_id"), a.useReceipt),
      Field(Ascii("selected_revision_ids"), Arr(Strings(a.selected))),
      Field(Ascii("material_use_hash"), a.materialUse),
      Field(Ascii("selection_hash"), Str(Hash(h, Obj(selection)))),
      Field(Ascii("use_hash"), Str(Hash(h, Obj(use)))) ]
  }

  // ----- moves

  datatype Move = Issue(command: Command) | Stop | Done(state: Fields)

  function Words(words: seq<string>): seq<Text> {
    seq(|words|, i requires 0 <= i < |words| => Ascii(words[i]))
  }

  function Cognition(verb: string, args: seq<Text>): seq<Text> {
    [Ascii("cognition"), Ascii(verb)] + args
  }

  function Dict(seen: seq<JsonValues.Json>, k: nat): Fields {
    if k < |seen| && seen[k].Obj? then seen[k].fields else []
  }

  function OrStop(command: Option<Command>): Move {
    match command
    case None => Stop
    case Some(c) => Issue(c)
  }

  /** The state is turned into text before any file is touched; where that raises, the run has failed. */
  function Finish(h: Host, state: Fields): Move {
    if Writable(h.limits, Obj(state)) then Done(state) else Stop
  }

  const CONTRACT_VERSION: Text := Ascii("ace.market.gc1-external-consumer/v1")

  // prepare

  function TeachCommand(h: Host, scenario: Fields, sourceTask: Text): Option<Command> {
    var stableKey :- TextAt(h, scenario, Ascii("stable_key"));
    var name :- TextAt(h, scenario, Ascii("name"));
    var description :- TextAt(h, scenario, Ascii("description"));
    var intent :- TextAt(h, scenario, Ascii("intent"));
    var recipe :- TextAt(h, scenario, Ascii("base_recipe"));
    Some(Json(Cognition("teach", [
      sourceTask, Ascii("--stable-key"), stableKey, Ascii("--name"), name, Ascii("--description"), description,
      Ascii("--intent"), intent, Ascii("--base-recipe"), recipe])))
  }

  predicate NotSelectable(receipt: Fields) {
    Get(receipt, Ascii("selectable")) == Some(Bool(false))
  }

  function ProposalId(h: Host, taught: Fields): Option<Text> {
    if !NotSelectable(taught) then None else
    var proposal :- SubObject(taught, Ascii("proposal"));
    TextAt(h, proposal, Ascii("proposal_id"))
  }

  function InspectCommand(proposal: Text): Command { Json(Cognition("inspect", [proposal])) }

  function DiffCommand(proposal: Text): Command { Json(Cognition("diff", [proposal])) }

  predicate ReviewAllowed(h: Host, inspection: Fields, diff: Fields) {
    Truthy(h, Get(diff, Ascii("changes"))) && NotSelectable(inspection)
  }

  function ReviewCommand(proposal: Text): Command {
    Json(Cognition("review", [proposal] + Words([
      "--review-request-id", "market-gc1-approve-v1", "--disposition", "approve",
      "--rationale", "Reviewed exact semantic change and source provenance.", "--expected-generation", "0"])))
  }

  function ApprovedReceipt(review: Fields): Option<Fields> {
    var receipt :- SubObject(review, Ascii("review_receipt"));
    if Get(receipt, Ascii("disposition")) == Some(Str(Ascii("approve"))) then Some(receipt) else None
  }

  function RevisionId(h: Host, review: Fields): Option<Text> {
    var receipt :- ApprovedReceipt(review);
    TextAt(h, receipt, Ascii("result_revision_id"))
  }

  function HeadId(h: Host, review: Fields): Option<Text> {
    var receipt :- ApprovedReceipt(review);
    TextAt(h, receipt, Ascii("result_head_id"))
  }

  function RevisionCommand(revision: Text): Command { Json(Cognition("revision", [revision])) }

  function HeadCommand(head: Text): Command { Json(Cognition("head", [head])) }

  predicate ActiveHead(head: Fields, revision: Text) {
    && Get(head, Ascii("active_revision_id")) == Some(Str(revision))
    && Get(head, Ascii("lifecycle")) == Some(Str(Ascii("active")))
  }

  function UseCommand(h: Host, stableKey: Text, scenario: Fields, prompt: string): Option<Command> {
    var text :- TextAt(h, scenario, Ascii(prompt));
    Some(Json(Cognition("use", [stableKey, text])))
  }

  function SelectionCommand(h: Host, a: Attribution): Command {
    Json(Cognition("selection", [PyStr(h, a.selectionReceipt)]))
  }

  function UseReceiptCommand(h: Host, a: Attribution): Command {
    Json(Cognition("use-receipt", [PyStr(h, a.useReceipt)]))
  }

  function FirstUse(h: Host, seen: seq<JsonValues.Json>): Option<Attribution> {
    var r :- RevisionId(h, Dict(seen, 3));
    UseAttribution(h, Dict(seen, 6), r)
  }

  /** The evidence of a finished prepare run. */
  datatype Prepared = Prepared(
    scenarioHash: PlainText, sourceTask: Text, stableKey: Text, proposalId: Text, proposalHash: JsonValues.Json,
    inspectionHash: PlainText, diffHash: PlainText, receiptId: JsonValues.Json, receiptHash: PlainText,
    revisionId: Text, revisionHash: PlainText, headId: Text, generation: int, headHash: PlainText, firstUse: Fields)

  /** The checks after the ninth answer, and what prepare then records. */
  function PreparedEvidence(h: Host, scenario: Fields, sourceTask: Text, seen: seq<JsonValues.Json>): Option<Prepared> {
    var stableKey :- TextAt(h, scenario, Ascii("stable_key"));
    var proposal :- SubObject(Dict(seen, 0), Ascii("proposal"));
    var proposalId :- ProposalId(h, Dict(seen, 0));
    var receipt :- ApprovedReceipt(Dict(seen, 3));
    var revisionId :- RevisionId(h, Dict(seen, 3));
    var headId :- HeadId(h, Dict(seen, 3));
    var a :- FirstUse(h, seen);
    if !UseUnchanged(h, a, Dict(seen, 7), Dict(seen, 8)) then None else
    var proposalHash :- Require(Get(proposal, Ascii("proposal_hash")));
    var receiptId :- Require(Get(receipt, Ascii("receipt_id")));
    var generationValue :- Require(Get(Dict(seen, 5), Ascii("generation")));
    var generation :- PyInt(h, generationValue);
    Some(Prepared(
      Hash(h, Obj(scenario)), sourceTask, stableKey, proposalId, proposalHash,
      Hash(h, Obj(Dict(seen, 1))), Hash(h, Obj(Dict(seen, 2))), receiptId, Hash(h, Obj(receipt)),
      revisionId, Hash(h, Obj(Dict(seen, 4))), headId, generation, Hash(h, Obj(Dict(seen, 5))),
      UseDict(h, a, Dict(seen, 7), Dict(seen, 8))))
  }

  /** The receipt prepare writes. */
  function PreparedState(p: Prepared): Fields {
    [ Field(Ascii("contract_version"), Str(CONTRACT_VERSION)),
      Field(Ascii("phase"), Str(Ascii("prepared"))),
      Field(Ascii("scenario_hash"), Str(p.scenarioHash)),
      Field(Ascii("source_task_id"), Str(p.sourceTask)),
      Field(Ascii("stable_key"), Str(p.stableKey)),
      Field(Ascii("proposal_id"), Str(p.proposalId)),
      Field(Ascii("proposal_hash"), p.proposalHash),
      Field(Ascii("inspection_hash"), Str(p.inspectionHash)),
      Field(Ascii("semantic_diff_hash"), Str(p.diffHash)),
      Field(Ascii("review_receipt_id"), p.receiptId),
      Field(Ascii("review_receipt_hash"), Str(p.receiptHash)),
      Field(Ascii("revision_id"), Str(p.revisionId)),
      Field(Ascii("revision_hash"), Str(p.revisionHash)),
      Field(Ascii("head_id"), Str(p.headId)),
      Field(Ascii("head_generation"), Int(p.generation)),
      Field(Ascii("head_hash"), Str(p.headHash)),
      Field(Ascii("first_use"), Obj(p.firstUse)) ]
  }

  /** What prepare does after the answers seen so far. */
  function PrepareMove(h: Host, scenario: Fields, sourceTask: Text, seen: seq<JsonValues.Json>): Move {
    var taught, review, revision, head := Dict(seen, 0), Dict(seen, 3), Dict(seen, 4), Dict(seen, 5);
    match |seen|
    case 0 => OrStop(TeachCommand(h, scenario, sourceTask))
    case 1 => (match ProposalId(h, taught) case None => Stop case Some(p) => Issue(InspectCommand(p)))
    case 2 => (match ProposalId(h, taught) case None => Stop case Some(p) => Issue(DiffCommand(p)))
    case 3 => (match ProposalId(h, taught)
               case None => Stop
               case Some(p) => if ReviewAllowed(h, Dict(seen, 1), Dict(seen, 2)) then Issue(ReviewCommand(p)) else Stop)
    case 4 => (match (RevisionId(h, review), HeadId(h, review))
               case (Some(r), Some(_)) => Issue(RevisionCommand(r))
               case _ => Stop)
    case 5 => (match HeadId(h, review) case None => Stop case Some(i) => Issue(HeadCommand(i)))
    case 6 => (match (RevisionId(h, review), TextAt(h, scenario, Ascii("stable_key")))
               case (Some(r), Some(key)) =>
                 if Get(revision, Ascii("revision_id")) == Some(Str(r)) && ActiveHead(head, r)
                 then OrStop(UseCommand(h, key, scenario, "fresh_use_prompt"))
                 else Stop
               case _ => Stop)
    case 7 => (match FirstUse(h, seen) case None => Stop case Some(a) => Issue(SelectionCommand(h, a)))
    case 8 => (match FirstUse(h, seen) case None => Stop case Some(a) => Issue(UseReceiptCommand(h, a)))
    case 9 => (match PreparedEvidence(h, scenario, sourceTask, seen) case None => Stop case Some(p) => Finish(h, PreparedState(p)))
    case _ => Stop
  }

  // resume

  /** str(state[key]): a missing key raises. */
  function StateText(h: Host, state: Fields, key: string): Option<Text> {
    var v :- Get(state, Ascii(key));
    Some(PyStr(h, v))
  }

  /** The start conditions of resume on the loaded state file. */
  predicate Resumable(h: Host, scenario: Fields, state: Fields) {
    && Get(state, Ascii("contract_version")) == Some(Str(CONTRACT_VERSION))
    && Get(state, Ascii("phase")) == Some(Str(Ascii("prepared")))
    && Get(state, Ascii("scenario_hash")) == Some(Str(Hash(h, Obj(scenario))))
    && StateText(h, state, "revision_id").Some?
    && StateText(h, state, "head_id").Some?
    && StateText(h, state, "stable_key").Some?
  }

  predicate UnchangedAcrossRestart(h: Host, state: Fields, revision: Fields, head: Fields) {
    && Get(state, Ascii("revision_hash")) == Some(Str(Hash(h, Obj(revision))))
    && Get(state, Ascii("head_hash")) == Some(Str(Hash(h, Obj(head))))
  }

  function RestartUse(h: Host, state: Fields, seen: seq<JsonValues.Json>): Option<Attribution> {
    var r :- StateText(h, state, "revision_id");
    UseAttribution(h, Dict(seen, 2), r)
  }

  function RetireCommand(h: Host, scenario: Fields, state: Fields): Option<Command> {
    var head :- StateText(h, state, "head_id");
    var rationale :- TextAt(h, scenario, Ascii("retire_rationale"));
    var generation :- StateText(h, state, "head_generation");
    Some(Json(Cognition("lifecycle",
      [head] + Words(["--review-request-id", "market-gc1-retire-v1", "--action", "retire", "--rationale"])
      + [rationale, Ascii("--expected-generation"), generation])))
  }

  function RetiredReceipt(lifecycle: Fields): Option<Fields> {
    var receipt :- SubObject(lifecycle, Ascii("lifecycle_receipt"));
    if Get(receipt, Ascii("result_lifecycle")) == Some(Str(Ascii("retired"))) then Some(receipt) else None
  }

  function RefusedUseCommand(h: Host, scenario: Fields, state: Fields): Option<Command> {
    var key :- StateText(h, state, "stable_key");
    var prompt :- TextAt(h, scenario, Ascii("post_retirement_use_prompt"));
    Some(Failure(Cognition("use", [key, prompt])))
  }

  predicate Contains(t: Text, code: Text) {
    exists i :: 0 <= i <= |t| && StartsWith(t[i..], code)
  }

  predicate ProvesIneligibility(failure: Text) {
    || Contains(failure, Ascii("cognition_use_not_completed"))
    || Contains(failure, Ascii("cognition_use_attribution_missing"))
    || Contains(failure, Ascii("cognition_use_attribution_incomplete"))
  }

  /** The display {**fields, key: value, ...}: the updates assigned in order. */
  function PutAll(fields: Fields, updates: Fields): Fields
    decreases |updates|
  {
    if updates == [] then fields else PutAll(Put(fields, updates[0].key, updates[0].value), updates[1..])
  }

  /** What resume adds to the loaded state, after the checks on its last answer. */
  function CompletionUpdates(h: Host, state: Fields, seen: seq<JsonValues.Json>): Option<Fields> {
    if |seen| != 8 || !seen[7].Str? || !ProvesIneligibility(seen[7].s) then None else
    var a :- RestartUse(h, state, seen);
    var receipt :- RetiredReceipt(Dict(seen, 5));
    var receiptId :- Require(Get(receipt, Ascii("receipt_id")));
    Some([
      Field(Ascii("phase"), Str(Ascii("complete"))),
      Field(Ascii("restart_use"), Obj(UseDict(h, a, Dict(seen, 3), Dict(seen, 4)))),
      Field(Ascii("lifecycle_receipt_id"), receiptId),
      Field(Ascii("lifecycle_receipt_hash"), Str(Hash(h, Obj(receipt)))),
      Field(Ascii("retired_head_hash"), Str(Hash(h, Obj(Dict(seen, 6))))),
      Field(Ascii("post_retirement_failure"), seen[7]) ])
  }

  /** What resume does after the answers seen so far. */
  function ResumeMove(h: Host, scenario: Fields, state: Fields, seen: seq<JsonValues.Json>): Move {
    var r, i := StateText(h, state, "revision_id"), StateText(h, state, "head_id");
    var key := StateText(h, state, "stable_key");
    if !Resumable(h, scenario, state) then Stop else
    match |seen|
    case 0 => Issue(RevisionCommand(r.value))
    case 1 => Issue(HeadCommand(i.value))
    case 2 =>
      if UnchangedAcrossRestart(h, state, Dict(seen, 0), Dict(seen, 1)) && ActiveHead(Dict(seen, 1), r.value)
      then OrStop(UseCommand(h, key.value, scenario, "restart_use_prompt"))
      else Stop
    case 3 => (match RestartUse(h, state, seen) case None => Stop case Some(a) => Issue(SelectionCommand(h, a)))
    case 4 => (match RestartUse(h, state, seen) case None => Stop case Some(a) => Issue(UseReceiptCommand(h, a)))
    case 5 => (match RestartUse(h, state, seen)
               case None => Stop
               case Some(a) =>
                 if UseUnchanged(h, a, Dict(seen, 3), Dict(seen, 4)) then OrStop(RetireCommand(h, scenario, state)) else Stop)
    case 6 => if RetiredReceipt(Dict(seen, 5)).Some? then Issue(HeadCommand(i.value)) else Stop
    case 7 =>
      if Get(Dict(seen, 6), Ascii("lifecycle")) == Some(Str(Ascii("retired")))
      then OrStop(RefusedUseCommand(h, scenario, state))
      else Stop
    case 8 => (match CompletionUpdates(h, state, seen) case None => Stop case Some(u) => Finish(h, PutAll(state, u)))
    case _ => Stop
  }
}
