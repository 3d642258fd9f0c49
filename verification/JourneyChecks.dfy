/**
  The checks of the journey, spelled out on the answers: when a phase succeeds, in terms of
  the members of the dicts it was given, and what it then records.
 */
module JourneyChecks {
  import opened Options
  import opened Texts
  import opened Numerals
  import opened Sorting
  import opened JsonValues
  import opened JsonPrinter
  import opened JsonDecoder
  import opened JsonLimits
  import opened JsonScan
  import opened Cli
  import opened Journey
  import opened JourneyRuns
  import opened JourneyProgram
  import opened JourneyStates
  import opened JourneySuccess
  import opened JourneyCommands

  // ----- members

  /** A member that is neither missing nor null nor an empty string, list or dict. */
  predicate Present(fields: Fields, key: string) {
    match Get(fields, Ascii(key))
    case None => false
    case Some(v) => v != Null && v != Str([]) && v != Arr([]) && v != Obj([])
  }

  predicate Says(fields: Fields, key: string, word: string) {
    Get(fields, Ascii(key)) == Some(Str(Ascii(word)))
  }

  /** A member that counts as true. */
  predicate Holds(h: Host, fields: Fields, key: string) {
    match Get(fields, Ascii(key))
    case None => false
    case Some(Bool(b)) => b
    case Some(Int(n)) => n != 0
    case Some(Real(token)) => h.realTruth(token)
    case Some(v) => v != Null && v != Str([]) && v != Arr([]) && v != Obj([])
  }

  lemma PresentIs(h: Host, fields: Fields, key: string)
    ensures Require(Get(fields, Ascii(key))).Some? <==> Present(fields, key)
    ensures Present(fields, key) ==> Require(Get(fields, Ascii(key))) == Get(fields, Ascii(key))
    ensures TextAt(h, fields, Ascii(key)).Some? <==> Present(fields, key)
    ensures forall t :: TextAt(h, fields, Ascii(key)) == Some(t) <==> Required(h, fields, key, t)
  {
    hide Get, Ascii;
  }

  lemma ObjectAtPresent(fields: Fields, key: string)
    ensures SubObject(fields, Ascii(key)).Some? <==> ObjectAt(fields, key) != []
    ensures ObjectAt(fields, key) != [] ==> SubObject(fields, Ascii(key)) == Some(ObjectAt(fields, key))
  {
    hide Get, Ascii;
  }

  lemma HoldsIs(h: Host, fields: Fields, key: string)
    ensures Truthy(h, Get(fields, Ascii(key))) <==> Holds(h, fields, key)
    ensures Holds(h, fields, key) ==> Get(fields, Ascii(key)).Some?
  {
    hide Get, Ascii;
  }

  // ----- a use and its receipts

  /** What iterating the selected revisions of a receipt gives: no member is an empty list. */
  ghost predicate Lists(receipt: Fields, items: seq<JsonValues.Json>) {
    match Get(receipt, Ascii("selected_revision_ids"))
    case None => items == []
    case Some(Arr(listed)) => items == listed
    case Some(Str(s)) => |items| == |s| && forall i :: 0 <= i < |s| ==> items[i] == Str([s[i]])
    case Some(Obj(fields)) => |items| == |fields| && forall i :: 0 <= i < |fields| ==> items[i] == Str(fields[i].key)
    case _ => false
  }

  lemma ListsIs(receipt: Fields, items: seq<JsonValues.Json>)
    ensures SelectedRevisions(receipt) == Some(items) <==> Lists(receipt, items)
  {
    hide Get, Ascii;
    if Lists(receipt, items) && SelectedRevisions(receipt).Some? {
      assert SelectedRevisions(receipt).value == items;
    }
  }

  /** The texts of the selected revisions. */
  ghost predicate Names(h: Host, receipt: Fields, texts: seq<Text>) {
    exists items :: Lists(receipt, items) && |texts| == |items| && forall i :: 0 <= i < |items| ==> Told(h, items[i], texts[i])
  }

  lemma ToldIs(h: Host, v: JsonValues.Json, t: Text)
    ensures Told(h, v, t) <==> t == PyStr(h, v)
  {
  }

  lemma NamesIs(h: Host, receipt: Fields, texts: seq<Text>)
    ensures Names(h, receipt, texts)
            <==> SelectedRevisions(receipt).Some? && TextsOf(h, SelectedRevisions(receipt).value) == texts
  {
    hide Lists, SelectedRevisions, Told, PyStr;
    forall v, t ensures Told(h, v, t) <==> t == PyStr(h, v) { ToldIs(h, v, t); }
    if Names(h, receipt, texts) {
      var items :| Lists(receipt, items) && |texts| == |items| && forall i :: 0 <= i < |items| ==> Told(h, items[i], texts[i]);
      ListsIs(receipt, items);
      assert TextsOf(h, items) == texts;
    }
    if SelectedRevisions(receipt).Some? && TextsOf(h, SelectedRevisions(receipt).value) == texts {
      var items := SelectedRevisions(receipt).value;
      ListsIs(receipt, items);
      assert forall i :: 0 <= i < |items| ==> Told(h, items[i], texts[i]);
    }
  }

  /** The material hash read back: equal as texts where either is one, and as Python compares otherwise. */
  predicate SameMaterial(h: Host, again: Fields, material: JsonValues.Json) {
    var v := match Get(again, Ascii("material_use_hash")) case None => Null case Some(v) => v;
    if v.Str? || material.Str? then v == material else h.looseEq(v, material)
  }

  /** A completed task that selected and used the revision, and whose two receipts say the same when read back. */
  ghost predicate Used(h: Host, task: Fields, revision: Text, selectionAgain: Fields, useAgain: Fields) {
    var selection, use := ObjectAt(task, "cognition_selection_receipt"), ObjectAt(task, "cognition_use_receipt");
    && Says(task, "status", "completed") && Present(task, "id")
    && Present(selection, "selection_receipt_id") && Present(use, "use_receipt_id")
    && Says(use, "state", "used") && Holds(h, use, "material_use_hash")
    && SameMaterial(h, useAgain, Get(use, Ascii("material_use_hash")).value)
    && exists texts ::
         && revision in texts && Names(h, selection, texts) && Names(h, use, texts)
         && Lists(selectionAgain, Strings(texts)) && Lists(useAgain, Strings(texts))
  }

  ghost predicate Attributes(h: Host, task: Fields, revision: Text, texts: seq<Text>) {
    var selection, use := ObjectAt(task, "cognition_selection_receipt"), ObjectAt(task, "cognition_use_receipt");
    && Says(task, "status", "completed") && Present(task, "id")
    && Present(selection, "selection_receipt_id") && Present(use, "use_receipt_id")
    && Says(use, "state", "used") && Holds(h, use, "material_use_hash")
    && revision in texts && Names(h, selection, texts) && Names(h, use, texts)
  }

  lemma EmptyLacks(key: string)
    ensures !Present([], key)
  {
  }

  /** A use is attributed exactly where its receipts name the same revisions, the asked one among them. */
  lemma AttributionExactly(h: Host, task: Fields, revision: Text, a: Attribution)
    ensures UseAttribution(h, task, revision) == Some(a)
            <==> && Attributes(h, task, revision, a.selected)
                 && Get(task, Ascii("id")) == Some(a.taskId)
                 && Get(ObjectAt(task, "cognition_selection_receipt"), Ascii("selection_receipt_id")) == Some(a.selectionReceipt)
                 && Get(ObjectAt(task, "cognition_use_receipt"), Ascii("use_receipt_id")) == Some(a.useReceipt)
                 && Get(ObjectAt(task, "cognition_use_receipt"), Ascii("material_use_hash")) == Some(a.materialUse)
  {
    var selection, use := ObjectAt(task, "cognition_selection_receipt"), ObjectAt(task, "cognition_use_receipt");
    ObjectAtPresent(task, "cognition_selection_receipt");
    ObjectAtPresent(task, "cognition_use_receipt");
    PresentIs(h, task, "id");
    PresentIs(h, selection, "selection_receipt_id");
    PresentIs(h, use, "use_receipt_id");
    HoldsIs(h, use, "material_use_hash");
    NamesIs(h, selection, a.selected);
    NamesIs(h, use, a.selected);
    EmptyLacks("selection_receipt_id");
    EmptyLacks("use_receipt_id");
    hide Ascii, Get, ObjectAt, SubObject, Present, Require, Holds, Truthy, Names, SelectedRevisions, TextsOf, TextAt, Required;
  }

  lemma UnchangedIs(h: Host, a: Attribution, selectionAgain: Fields, useAgain: Fields)
    ensures UseUnchanged(h, a, selectionAgain, useAgain)
            <==> && Lists(selectionAgain, Strings(a.selected)) && Lists(useAgain, Strings(a.selected))
                 && SameMaterial(h, useAgain, a.materialUse)
  {
    ListsIs(selectionAgain, Strings(a.selected));
    ListsIs(useAgain, Strings(a.selected));
    hide Lists, SelectedRevisions, Get, Ascii, Strings;
  }

  lemma UsedExactly(h: Host, task: Fields, revision: Text, selectionAgain: Fields, useAgain: Fields)
    ensures Used(h, task, revision, selectionAgain, useAgain)
            <==> && UseAttribution(h, task, revision).Some?
                 && UseUnchanged(h, UseAttribution(h, task, revision).value, selectionAgain, useAgain)
  {
    HoldsIs(h, ObjectAt(task, "cognition_use_receipt"), "material_use_hash");
    hide Says, Present, Holds, Names, Lists, SameMaterial, Strings, Get, Ascii, ObjectAt, UseAttribution, UseUnchanged, Truthy;
    var selection, use := ObjectAt(task, "cognition_selection_receipt"), ObjectAt(task, "cognition_use_receipt");
    if Used(h, task, revision, selectionAgain, useAgain) {
      var texts :| revision in texts && Names(h, selection, texts) && Names(h, use, texts)
                   && Lists(selectionAgain, Strings(texts)) && Lists(useAgain, Strings(texts));
      PresentGet(task, "id");
      PresentGet(selection, "selection_receipt_id");
      PresentGet(use, "use_receipt_id");
      var a := Attribution(Get(task, Ascii("id")).value, Get(selection, Ascii("selection_receipt_id")).value,
                           Get(use, Ascii("use_receipt_id")).value, texts, Get(use, Ascii("material_use_hash")).value);
      AttributionExactly(h, task, revision, a);
      UnchangedIs(h, a, selectionAgain, useAgain);
    }
    if UseAttribution(h, task, revision).Some? && UseUnchanged(h, UseAttribution(h, task, revision).value, selectionAgain, useAgain) {
      var a := UseAttribution(h, task, revision).value;
      AttributionExactly(h, task, revision, a);
      UnchangedIs(h, a, selectionAgain, useAgain);
      assert a.selected == a.selected;
    }
  }

  lemma PresentGet(fields: Fields, key: string)
    requires Present(fields, key)
    ensures Get(fields, Ascii(key)).Some?
  {
    hide Get, Ascii;
  }

  // ----- prepare

  /** The scenario and the four answers up to the review. */
  ghost predicate Reviewed(h: Host, scenario: Fields, d: seq<Fields>)
    requires |d| == 9
  {
    && Present(scenario, "stable_key") && Present(scenario, "name") && Present(scenario, "description")
    && Present(scenario, "intent") && Present(scenario, "base_recipe") && Present(scenario, "fresh_use_prompt")
    && Get(d[0], Ascii("selectable")) == Some(Bool(false)) && Present(ObjectAt(d[0], "proposal"), "proposal_id")
    && Get(d[1], Ascii("selectable")) == Some(Bool(false)) && Holds(h, d[2], "changes")
    && Says(ObjectAt(d[3], "review_receipt"), "disposition", "approve")
    && Present(ObjectAt(d[3], "review_receipt"), "result_revision_id")
    && Present(ObjectAt(d[3], "review_receipt"), "result_head_id")
  }

  /** The approved revision is read back, active at its head, and used. */
  ghost predicate Activated(h: Host, d: seq<Fields>, revision: Text)
    requires |d| == 9
  {
    && Required(h, ObjectAt(d[3], "review_receipt"), "result_revision_id", revision)
    && Get(d[4], Ascii("revision_id")) == Some(Str(revision))
    && Get(d[5], Ascii("active_revision_id")) == Some(Str(revision)) && Says(d[5], "lifecycle", "active")
    && Used(h, d[6], revision, d[7], d[8])
  }

  /** What the record needs of the answers. */
  ghost predicate Recordable(h: Host, d: seq<Fields>)
    requires |d| == 9
  {
    && Present(ObjectAt(d[0], "proposal"), "proposal_hash") && Present(ObjectAt(d[3], "review_receipt"), "receipt_id")
    && Present(d[5], "generation")
    && (Get(d[5], Ascii("generation")).value.Int? || h.toInt(Get(d[5], Ascii("generation")).value).Some?)
  }

  lemma TeachIs(h: Host, scenario: Fields, sourceTask: Text)
    ensures TeachCommand(h, scenario, sourceTask).Some?
            <==> && Present(scenario, "stable_key") && Present(scenario, "name") && Present(scenario, "description")
                 && Present(scenario, "intent") && Present(scenario, "base_recipe")
  {
    PresentIs(h, scenario, "stable_key");
    PresentIs(h, scenario, "name");
    PresentIs(h, scenario, "description");
    PresentIs(h, scenario, "intent");
    PresentIs(h, scenario, "base_recipe");
    hide TextAt, Required, Present, Ascii, Get;
  }

  lemma ProposalExactly(h: Host, taught: Fields)
    ensures ProposalId(h, taught).Some?
            <==> Get(taught, Ascii("selectable")) == Some(Bool(false)) && Present(ObjectAt(taught, "proposal"), "proposal_id")
    ensures forall p :: ProposalId(h, taught) == Some(p) ==> Required(h, ObjectAt(taught, "proposal"), "proposal_id", p)
  {
    ObjectAtPresent(taught, "proposal");
    PresentIs(h, ObjectAt(taught, "proposal"), "proposal_id");
    EmptyLacks("proposal_id");
    hide TextAt, Required, Present, Ascii, Get, SubObject, ObjectAt;
  }

  lemma ReviewExactly(h: Host, review: Fields)
    ensures var receipt := ObjectAt(review, "review_receipt");
            && (ApprovedReceipt(review).Some? <==> receipt != [] && Says(receipt, "disposition", "approve"))
            && (ApprovedReceipt(review).Some? ==> ApprovedReceipt(review).value == receipt)
            && (RevisionId(h, review).Some?
                <==> Says(receipt, "disposition", "approve") && Present(receipt, "result_revision_id"))
            && (HeadId(h, review).Some? <==> Says(receipt, "disposition", "approve") && Present(receipt, "result_head_id"))
            && (forall r :: RevisionId(h, review) == Some(r)
                  <==> Says(receipt, "disposition", "approve") && Required(h, receipt, "result_revision_id", r))
            && (forall i :: HeadId(h, review) == Some(i)
                  <==> Says(receipt, "disposition", "approve") && Required(h, receipt, "result_head_id", i))
  {
    var receipt := ObjectAt(review, "review_receipt");
    ObjectAtPresent(review, "review_receipt");
    PresentIs(h, receipt, "result_revision_id");
    PresentIs(h, receipt, "result_head_id");
    EmptyLacks("result_revision_id");
    EmptyLacks("result_head_id");
    hide TextAt, Required, Present, Ascii, Get, SubObject, ObjectAt;
  }

  lemma ReviewAllowedIs(h: Host, inspection: Fields, diff: Fields)
    ensures ReviewAllowed(h, inspection, diff)
            <==> Get(inspection, Ascii("selectable")) == Some(Bool(false)) && Holds(h, diff, "changes")
  {
    HoldsIs(h, diff, "changes");
    hide Truthy, Holds, Get, Ascii;
  }

  lemma ActiveIs(head: Fields, revision: Text)
    ensures ActiveHead(head, revision)
            <==> Get(head, Ascii("active_revision_id")) == Some(Str(revision)) && Says(head, "lifecycle", "active")
  {
    hide Get, Ascii;
  }

  lemma UseCommandIs(h: Host, key: Text, scenario: Fields, prompt: string)
    ensures UseCommand(h, key, scenario, prompt).Some? <==> Present(scenario, prompt)
  {
    PresentIs(h, scenario, prompt);
    hide TextAt, Present, Get, Ascii;
  }

  /** All of prepare's checks before its record. */
  lemma ReviewedIs(h: Host, scenario: Fields, sourceTask: Text, d: seq<Fields>)
    requires |d| == 9
    ensures Reviewed(h, scenario, d)
            <==> && TeachCommand(h, scenario, sourceTask).Some? && ProposalId(h, d[0]).Some? && ReviewAllowed(h, d[1], d[2])
                 && RevisionId(h, d[3]).Some? && HeadId(h, d[3]).Some? && Present(scenario, "fresh_use_prompt")
  {
    TeachIs(h, scenario, sourceTask);
    ProposalExactly(h, d[0]);
    ReviewAllowedIs(h, d[1], d[2]);
    ReviewExactly(h, d[3]);
    hide TeachCommand, ProposalId, ReviewAllowed, RevisionId, HeadId, Present, Holds, Says, ObjectAt, Get, Ascii, Required;
  }

  lemma ActivatedIs(h: Host, d: seq<Fields>, revision: Text)
    requires |d| == 9 && RevisionId(h, d[3]) == Some(revision)
    ensures Activated(h, d, revision)
            <==> && Get(d[4], Ascii("revision_id")) == Some(Str(revision)) && ActiveHead(d[5], revision)
                 && Attributed(h, d).Some? && UseUnchanged(h, Attributed(h, d).value, d[7], d[8])
    ensures forall r :: Activated(h, d, r) ==> r == revision
  {
    ReviewExactly(h, d[3]);
    ActiveIs(d[5], revision);
    UsedExactly(h, d[6], revision, d[7], d[8]);
    hide RevisionId, ActiveHead, UseAttribution, UseUnchanged, Used, Says, ObjectAt, Get, Ascii;
  }

  lemma RecordableIs(h: Host, d: seq<Fields>)
    requires |d| == 9 && SubObject(d[0], Ascii("proposal")).Some? && ApprovedReceipt(d[3]).Some?
    ensures Recordable(h, d)
            <==> && Require(Get(SubObject(d[0], Ascii("proposal")).value, Ascii("proposal_hash"))).Some?
                 && Require(Get(ApprovedReceipt(d[3]).value, Ascii("receipt_id"))).Some?
                 && Require(Get(d[5], Ascii("generation"))).Some?
                 && PyInt(h, Require(Get(d[5], Ascii("generation"))).value).Some?
  {
    ObjectAtPresent(d[0], "proposal");
    ReviewExactly(h, d[3]);
    PresentIs(h, ObjectAt(d[0], "proposal"), "proposal_hash");
    PresentIs(h, ObjectAt(d[3], "review_receipt"), "receipt_id");
    PresentIs(h, d[5], "generation");
    hide Present, Require, SubObject, ApprovedReceipt, ObjectAt, Get, Ascii, TextAt, Required;
  }

  /** str() of a member. */
  function Written(h: Host, fields: Fields, key: string): Text {
    match Get(fields, Ascii(key))
    case None => []
    case Some(Str(s)) => s
    case Some(Int(n)) => IntText(n)
    case Some(v) => h.repr(v)
  }

  /** The value of a member, and its integer. */
  function ValueAt(fields: Fields, key: string): JsonValues.Json {
    match Get(fields, Ascii(key))
    case None => Null
    case Some(v) => v
  }

  function NumberAt(h: Host, fields: Fields, key: string): int {
    match ValueAt(fields, key)
    case Int(n) => n
    case v => if h.toInt(v).Some? then h.toInt(v).value else 0
  }

  /** The digest of a dict's text. */
  function DigestOf(h: Host, fields: Fields): JsonValues.Json {
    Str(h.digest(Canonical(Obj(fields))))
  }

  /** What is recorded of a use: its task, the two receipts, the revisions, and the digests of what was read back. */
  function UseRecord(h: Host, task: Fields, selectionAgain: Fields, useAgain: Fields, texts: seq<Text>): Fields {
    var selection, use := ObjectAt(task, "cognition_selection_receipt"), ObjectAt(task, "cognition_use_receipt");
    [ Field(Ascii("task_id"), ValueAt(task, "id")),
      Field(Ascii("selection_receipt_id"), ValueAt(selection, "selection_receipt_id")),
      Field(Ascii("use_receipt_id"), ValueAt(use, "use_receipt_id")),
      Field(Ascii("selected_revision_ids"), Arr(Strings(texts))),
      Field(Ascii("material_use_hash"), ValueAt(use, "material_use_hash")),
      Field(Ascii("selection_hash"), DigestOf(h, selectionAgain)),
      Field(Ascii("use_hash"), DigestOf(h, useAgain)) ]
  }

  /** The receipt of a prepare run, member by member. */
  function PrepareRecord(h: Host, scenario: Fields, sourceTask: Text, d: seq<Fields>, texts: seq<Text>): Fields
    requires |d| == 9
  {
    var proposal, receipt := ObjectAt(d[0], "proposal"), ObjectAt(d[3], "review_receipt");
    [ Field(Ascii("contract_version"), Str(Ascii("ace.market.gc1-external-consumer/v1"))),
      Field(Ascii("phase"), Str(Ascii("prepared"))),
      Field(Ascii("scenario_hash"), DigestOf(h, scenario)),
      Field(Ascii("source_task_id"), Str(sourceTask)),
      Field(Ascii("stable_key"), Str(Written(h, scenario, "stable_key"))),
      Field(Ascii("proposal_id"), Str(Written(h, proposal, "proposal_id"))),
      Field(Ascii("proposal_hash"), ValueAt(proposal, "proposal_hash")),
      Field(Ascii("inspection_hash"), DigestOf(h, d[1])),
      Field(Ascii("semantic_diff_hash"), DigestOf(h, d[2])),
      Field(Ascii("review_receipt_id"), ValueAt(receipt, "receipt_id")),
      Field(Ascii("review_receipt_hash"), DigestOf(h, receipt)),
      Field(Ascii("revision_id"), Str(Written(h, receipt, "result_revision_id"))),
      Field(Ascii("revision_hash"), DigestOf(h, d[4])),
      Field(Ascii("head_id"), Str(Written(h, receipt, "result_head_id"))),
      Field(Ascii("head_generation"), Int(NumberAt(h, d[5], "generation"))),
      Field(Ascii("head_hash"), DigestOf(h, d[5])),
      Field(Ascii("first_use"), Obj(UseRecord(h, d[6], d[7], d[8], texts))) ]
  }

  lemma WrittenIs(h: Host, fields: Fields, key: string)
    ensures forall t :: Required(h, fields, key, t) || Shown(h, fields, key, t) ==> t == Written(h, fields, key)
  {
    hide Get, Ascii;
  }

  lemma ValueAtIs(fields: Fields, key: string)
    ensures Get(fields, Ascii(key)).Some? ==> ValueAt(fields, key) == Get(fields, Ascii(key)).value
  {
    hide Get, Ascii;
  }

  lemma UseRecordIs(h: Host, task: Fields, revision: Text, a: Attribution, selectionAgain: Fields, useAgain: Fields)
    requires UseAttribution(h, task, revision) == Some(a)
    ensures UseDict(h, a, selectionAgain, useAgain) == UseRecord(h, task, selectionAgain, useAgain, a.selected)
  {
    AttributionExactly(h, task, revision, a);
    ValueAtIs(task, "id");
    ValueAtIs(ObjectAt(task, "cognition_selection_receipt"), "selection_receipt_id");
    ValueAtIs(ObjectAt(task, "cognition_use_receipt"), "use_receipt_id");
    ValueAtIs(ObjectAt(task, "cognition_use_receipt"), "material_use_hash");
    hide Get, Ascii, ObjectAt, ValueAt, Strings, Canonical, UseAttribution, Attributes;
  }

  /** The parts of the evidence. */
  lemma EvidenceView(h: Host, scenario: Fields, sourceTask: Text, d: seq<Fields>)
    requires |d| == 9 && PreparedEvidence(h, scenario, sourceTask, Objects(d)).Some?
    ensures var p := PreparedEvidence(h, scenario, sourceTask, Objects(d)).value;
            && TextAt(h, scenario, Ascii("stable_key")) == Some(p.stableKey) && ProposalId(h, d[0]) == Some(p.proposalId)
            && ApprovedReceipt(d[3]).Some? && RevisionId(h, d[3]) == Some(p.revisionId) && HeadId(h, d[3]) == Some(p.headId)
            && SubObject(d[0], Ascii("proposal")).Some? && p.sourceTask == sourceTask
            && Require(Get(SubObject(d[0], Ascii("proposal")).value, Ascii("proposal_hash"))) == Some(p.proposalHash)
            && Require(Get(ApprovedReceipt(d[3]).value, Ascii("receipt_id"))) == Some(p.receiptId)
            && Require(Get(d[5], Ascii("generation"))).Some?
            && PyInt(h, Require(Get(d[5], Ascii("generation"))).value) == Some(p.generation)
            && FirstUse(h, Objects(d)).Some? && p.firstUse == UseDict(h, FirstUse(h, Objects(d)).value, d[7], d[8])
  {
    hide TextAt, ProposalId, ApprovedReceipt, RevisionId, HeadId, FirstUse, UseUnchanged, UseDict, SubObject, Canonical, Get, Ascii,
      Require, PyInt;
  }

  lemma EvidenceHashes(h: Host, scenario: Fields, sourceTask: Text, d: seq<Fields>)
    requires |d| == 9 && PreparedEvidence(h, scenario, sourceTask, Objects(d)).Some?
    ensures var p := PreparedEvidence(h, scenario, sourceTask, Objects(d)).value;
            && ApprovedReceipt(d[3]).Some?
            && Str(p.scenarioHash) == DigestOf(h, scenario) && Str(p.inspectionHash) == DigestOf(h, d[1])
            && Str(p.diffHash) == DigestOf(h, d[2]) && Str(p.receiptHash) == DigestOf(h, ApprovedReceipt(d[3]).value)
            && Str(p.revisionHash) == DigestOf(h, d[4]) && Str(p.headHash) == DigestOf(h, d[5])
  {
    hide TextAt, ProposalId, ApprovedReceipt, RevisionId, HeadId, FirstUse, UseUnchanged, UseDict, SubObject, Canonical, Get, Ascii,
      Require, PyInt;
  }

  lemma RequiredIs(fields: Fields, key: string, v: JsonValues.Json)
    requires Require(Get(fields, Ascii(key))) == Some(v)
    ensures v == ValueAt(fields, key)
  {
    hide Get, Ascii;
  }

  lemma GenerationIs(h: Host, fields: Fields, n: int)
    requires Require(Get(fields, Ascii("generation"))).Some?
    requires PyInt(h, Require(Get(fields, Ascii("generation"))).value) == Some(n)
    ensures n == NumberAt(h, fields, "generation")
  {
    hide Get, Ascii;
  }

  /** What prepare records is the receipt spelled out. */
  lemma RecordIs(h: Host, scenario: Fields, sourceTask: Text, d: seq<Fields>)
    requires |d| == 9 && PreparedEvidence(h, scenario, sourceTask, Objects(d)).Some? && FirstUse(h, Objects(d)).Some?
    ensures PreparedState(PreparedEvidence(h, scenario, sourceTask, Objects(d)).value)
            == PrepareRecord(h, scenario, sourceTask, d, FirstUse(h, Objects(d)).value.selected)
  {
    var proposal, receipt := ObjectAt(d[0], "proposal"), ObjectAt(d[3], "review_receipt");
    var p := PreparedEvidence(h, scenario, sourceTask, Objects(d)).value;
    hide *;
    EvidenceView(h, scenario, sourceTask, d);
    EvidenceHashes(h, scenario, sourceTask, d);
    PresentIs(h, scenario, "stable_key");
    ProposalExactly(h, d[0]);
    ReviewExactly(h, d[3]);
    ObjectAtPresent(d[0], "proposal");
    WrittenIs(h, scenario, "stable_key");
    WrittenIs(h, proposal, "proposal_id");
    WrittenIs(h, receipt, "result_revision_id");
    WrittenIs(h, receipt, "result_head_id");
    RequiredIs(proposal, "proposal_hash", p.proposalHash);
    RequiredIs(receipt, "receipt_id", p.receiptId);
    GenerationIs(h, d[5], p.generation);
    FirstUseNeeds(h, d);
    FirstUseIs(h, d);
    UseRecordIs(h, d[6], p.revisionId, FirstUse(h, Objects(d)).value, d[7], d[8]);
    RecordFields(h, scenario, sourceTask, d, p, FirstUse(h, Objects(d)).value.selected);
  }

  lemma RecordFields(h: Host, scenario: Fields, sourceTask: Text, d: seq<Fields>, p: Prepared, texts: seq<Text>)
    requires |d| == 9
    requires var proposal, receipt := ObjectAt(d[0], "proposal"), ObjectAt(d[3], "review_receipt");
             && p.sourceTask == sourceTask && p.stableKey == Written(h, scenario, "stable_key")
             && p.proposalId == Written(h, proposal, "proposal_id") && p.proposalHash == ValueAt(proposal, "proposal_hash")
             && p.revisionId == Written(h, receipt, "result_revision_id") && p.headId == Written(h, receipt, "result_head_id")
             && p.receiptId == ValueAt(receipt, "receipt_id") && Str(p.receiptHash) == DigestOf(h, receipt)
    requires Str(p.scenarioHash) == DigestOf(h, scenario) && Str(p.inspectionHash) == DigestOf(h, d[1])
    requires Str(p.diffHash) == DigestOf(h, d[2]) && Str(p.revisionHash) == DigestOf(h, d[4])
    requires Str(p.headHash) == DigestOf(h, d[5]) && p.generation == NumberAt(h, d[5], "generation")
    requires p.firstUse == UseRecord(h, d[6], d[7], d[8], texts)
    ensures PreparedState(p) == PrepareRecord(h, scenario, sourceTask, d, texts)
  {
    assert CONTRACT_VERSION == Ascii("ace.market.gc1-external-consumer/v1");
    hide Written, ValueAt, NumberAt, DigestOf, UseRecord, ObjectAt, Ascii, CONTRACT_VERSION;
  }

  // ----- when prepare succeeds

  /** The replies are receipts of commands that succeeded, one for each dict. */
  ghost predicate Receipts(l: Limits, replies: seq<Reply>, d: seq<Fields>) {
    |d| <= |replies| && forall k :: 0 <= k < |d| ==> replies[k].code == 0 && FirstReceipt(l, replies[k].stdout) == Found(d[k])
  }

  /** Every check of prepare, and what it then records. */
  ghost predicate PreparePasses(h: Host, scenario: Fields, sourceTask: Text, d: seq<Fields>, record: Fields) {
    && |d| == 9 && Reviewed(h, scenario, d) && Recordable(h, d)
    && (exists revision :: Activated(h, d, revision))
    && (exists texts ::
          Names(h, ObjectAt(d[6], "cognition_selection_receipt"), texts) && record == PrepareRecord(h, scenario, sourceTask, d, texts))
    && Writable(h.limits, Obj(record))
  }

  lemma NamesOnce(h: Host, receipt: Fields, texts: seq<Text>, again: seq<Text>)
    requires Names(h, receipt, texts) && Names(h, receipt, again)
    ensures texts == again
  {
    hide Names, SelectedRevisions, TextsOf;
    NamesIs(h, receipt, texts);
    NamesIs(h, receipt, again);
  }

  lemma AttributionNames(h: Host, task: Fields, revision: Text, a: Attribution)
    requires UseAttribution(h, task, revision) == Some(a)
    ensures Names(h, ObjectAt(task, "cognition_selection_receipt"), a.selected)
  {
    AttributionExactly(h, task, revision, a);
    hide UseAttribution, Names, Says, Present, Holds, ObjectAt, Get, Ascii;
  }

  lemma AttributedIs(h: Host, d: seq<Fields>)
    requires |d| == 9
    ensures Attributed(h, d).Some? <==> RevisionId(h, d[3]).Some? && UseAttribution(h, d[6], RevisionId(h, d[3]).value).Some?
    ensures Attributed(h, d).Some? ==> Attributed(h, d) == UseAttribution(h, d[6], RevisionId(h, d[3]).value)
    ensures FirstUse(h, Objects(d)) == Attributed(h, d)
  {
    hide RevisionId, UseAttribution;
  }

  /** The checks of a prepare run, one by one. */
  lemma ChecksView(h: Host, scenario: Fields, sourceTask: Text, d: seq<Fields>)
    requires PrepareChecks(h, scenario, sourceTask, d)
    ensures |d| == 9 && TeachCommand(h, scenario, sourceTask).Some? && ProposalId(h, d[0]).Some? && ReviewAllowed(h, d[1], d[2])
    ensures RevisionId(h, d[3]).Some? && HeadId(h, d[3]).Some? && Present(scenario, "fresh_use_prompt")
    ensures Get(d[4], Ascii("revision_id")) == Some(Str(RevisionId(h, d[3]).value))
    ensures ActiveHead(d[5], RevisionId(h, d[3]).value) && Attributed(h, d).Some?
    ensures PreparedEvidence(h, scenario, sourceTask, Objects(d)).Some? && TextAt(h, scenario, Ascii("stable_key")).Some?
    ensures Writable(h.limits, Obj(PreparedState(PreparedEvidence(h, scenario, sourceTask, Objects(d)).value)))
  {
    UseCommandIs(h, TextAt(h, scenario, Ascii("stable_key")).value, scenario, "fresh_use_prompt");
    hide TeachCommand, ProposalId, ReviewAllowed, RevisionId, HeadId, Present, Get, Ascii, ActiveHead, Attributed, PreparedEvidence,
      Writable, PreparedState, Objects, UseCommand, TextAt;
  }

  lemma ChecksNow(h: Host, scenario: Fields, sourceTask: Text, d: seq<Fields>)
    requires |d| == 9 && TeachCommand(h, scenario, sourceTask).Some? && ProposalId(h, d[0]).Some? && ReviewAllowed(h, d[1], d[2])
    requires RevisionId(h, d[3]).Some? && HeadId(h, d[3]).Some? && Present(scenario, "fresh_use_prompt")
    requires Get(d[4], Ascii("revision_id")) == Some(Str(RevisionId(h, d[3]).value))
    requires ActiveHead(d[5], RevisionId(h, d[3]).value) && Attributed(h, d).Some?
    requires PreparedEvidence(h, scenario, sourceTask, Objects(d)).Some? && TextAt(h, scenario, Ascii("stable_key")).Some?
    requires Writable(h.limits, Obj(PreparedState(PreparedEvidence(h, scenario, sourceTask, Objects(d)).value)))
    ensures PrepareChecks(h, scenario, sourceTask, d)
  {
    UseCommandIs(h, TextAt(h, scenario, Ascii("stable_key")).value, scenario, "fresh_use_prompt");
    hide TeachCommand, ProposalId, ReviewAllowed, RevisionId, HeadId, Present, Get, Ascii, ActiveHead, Attributed, PreparedEvidence,
      Writable, PreparedState, Objects, UseCommand, TextAt;
  }

  lemma PassesNow(h: Host, scenario: Fields, sourceTask: Text, d: seq<Fields>, record: Fields, revision: Text, texts: seq<Text>)
    requires |d| == 9 && Reviewed(h, scenario, d) && Recordable(h, d) && Activated(h, d, revision)
    requires Names(h, ObjectAt(d[6], "cognition_selection_receipt"), texts)
    requires record == PrepareRecord(h, scenario, sourceTask, d, texts) && Writable(h.limits, Obj(record))
    ensures PreparePasses(h, scenario, sourceTask, d, record)
  {
    hide Reviewed, Recordable, Activated, Names, PrepareRecord, Writable, ObjectAt;
  }

  /** Checks that hold, hold as spelled out. */
  lemma ChecksPass(h: Host, scenario: Fields, sourceTask: Text, d: seq<Fields>)
    requires PrepareChecks(h, scenario, sourceTask, d)
    ensures PreparedEvidence(h, scenario, sourceTask, Objects(d)).Some?
    ensures PreparePasses(h, scenario, sourceTask, d, PreparedState(PreparedEvidence(h, scenario, sourceTask, Objects(d)).value))
  {
    hide *;
    ChecksView(h, scenario, sourceTask, d);
    ReviewedIs(h, scenario, sourceTask, d);
    AttributedIs(h, d);
    RecordedExactly(h, scenario, sourceTask, d);
    RecordableIs(h, d);
    var r := RevisionId(h, d[3]).value;
    ActivatedIs(h, d, r);
    RecordIs(h, scenario, sourceTask, d);
    AttributionNames(h, d[6], r, Attributed(h, d).value);
    PassesNow(h, scenario, sourceTask, d, PreparedState(PreparedEvidence(h, scenario, sourceTask, Objects(d)).value), r,
              Attributed(h, d).value.selected);
  }

  lemma PassesView(h: Host, scenario: Fields, sourceTask: Text, d: seq<Fields>, record: Fields)
    returns (revision: Text, texts: seq<Text>)
    requires PreparePasses(h, scenario, sourceTask, d, record)
    ensures |d| == 9 && Reviewed(h, scenario, d) && Recordable(h, d) && Activated(h, d, revision)
    ensures Names(h, ObjectAt(d[6], "cognition_selection_receipt"), texts)
    ensures record == PrepareRecord(h, scenario, sourceTask, d, texts) && Writable(h.limits, Obj(record))
  {
    hide Reviewed, Recordable, Activated, Names, PrepareRecord, Writable, ObjectAt;
    revision :| Activated(h, d, revision);
    texts :| Names(h, ObjectAt(d[6], "cognition_selection_receipt"), texts) && record == PrepareRecord(h, scenario, sourceTask, d, texts);
  }

  lemma ReviewedRevision(h: Host, scenario: Fields, d: seq<Fields>, revision: Text)
    requires |d| == 9 && Reviewed(h, scenario, d) && Activated(h, d, revision)
    ensures RevisionId(h, d[3]) == Some(revision) && ApprovedReceipt(d[3]).Some? && Present(scenario, "stable_key")
  {
    ReviewExactly(h, d[3]);
    ObjectAtPresent(d[3], "review_receipt");
    EmptyLacks("result_revision_id");
    hide RevisionId, HeadId, ApprovedReceipt, Required, Present, Says, Used, Holds, ObjectAt, Get, Ascii;
  }

  /** Checks that hold as spelled out, hold. */
  lemma PassesCheck(h: Host, scenario: Fields, sourceTask: Text, d: seq<Fields>, record: Fields)
    requires PreparePasses(h, scenario, sourceTask, d, record)
    ensures PrepareChecks(h, scenario, sourceTask, d) && PreparedEvidence(h, scenario, sourceTask, Objects(d)).Some?
    ensures record == PreparedState(PreparedEvidence(h, scenario, sourceTask, Objects(d)).value)
  {
    hide *;
    var r, texts := PassesView(h, scenario, sourceTask, d, record);
    ReviewedIs(h, scenario, sourceTask, d);
    ReviewedRevision(h, scenario, d, r);
    ActivatedIs(h, d, r);
    AttributedIs(h, d);
    PresentIs(h, scenario, "stable_key");
    RecordedExactly(h, scenario, sourceTask, d);
    RecordableIs(h, d);
    RecordIs(h, scenario, sourceTask, d);
    AttributionNames(h, d[6], r, Attributed(h, d).value);
    NamesOnce(h, ObjectAt(d[6], "cognition_selection_receipt"), texts, Attributed(h, d).value.selected);
    ChecksNow(h, scenario, sourceTask, d);
  }

  lemma ReceiptsAnswer(l: Limits, commands: seq<Command>, replies: seq<Reply>, d: seq<Fields>)
    requires |commands| == |d| && forall k :: 0 <= k < |d| ==> commands[k].Json?
    ensures Answered(l, commands, replies, Objects(d)) <==> Receipts(l, replies, d)
  {
    hide FirstReceipt;
    if Answered(l, commands, replies, Objects(d)) {
      forall k | 0 <= k < |d| ensures replies[k].code == 0 && FirstReceipt(l, replies[k].stdout) == Found(d[k]) {
        assert Answer(l, commands[k], replies[k]) == Some(Objects(d)[k]);
      }
    }
  }

  lemma PrepareCommandsJson(h: Host, scenario: Fields, sourceTask: Text, d: seq<Fields>)
    requires PrepareChecks(h, scenario, sourceTask, d)
    ensures forall k :: 0 <= k < 9 ==> PrepareCommands(h, scenario, sourceTask, d)[k].Json?
  {
    hide *;
    NineDicts(h, scenario, sourceTask, d);
    forall k | 0 <= k < 9 ensures PrepareCommands(h, scenario, sourceTask, d)[k].Json? {
      PrepareMoves(h, scenario, sourceTask, d, k);
      PrepareNext(h, scenario, sourceTask, Objects(d)[..k]);
      PrepareMoveVerb(h, scenario, sourceTask, Objects(d)[..k]);
    }
  }

  lemma PrepareAnswersIs(h: Host, scenario: Fields, sourceTask: Text, replies: seq<Reply>, d: seq<Fields>)
    ensures PrepareAnswers(h, scenario, sourceTask, replies, d)
            <==> PrepareChecks(h, scenario, sourceTask, d)
                 && Answered(h.limits, PrepareCommands(h, scenario, sourceTask, d), replies, Objects(d))
  {
    hide PrepareChecks, Answered, PrepareCommands, Objects;
  }

  /** Prepare succeeds with a record exactly when its nine replies are receipts that pass every check, and the record is theirs. */
  lemma PrepareSucceedsWhen(h: Host, scenario: Fields, sourceTask: Text, replies: seq<Reply>, record: Fields)
    ensures RunScript(Script.Prepare(h, scenario, sourceTask), replies).result == Some(record)
            <==> exists d :: Receipts(h.limits, replies, d) && PreparePasses(h, scenario, sourceTask, d, record)
  {
    hide *;
    PrepareSucceedsExactly(h, scenario, sourceTask, replies);
    if RunScript(Script.Prepare(h, scenario, sourceTask), replies).result == Some(record) {
      var d :| PrepareAnswers(h, scenario, sourceTask, replies, d);
      PrepareAnswersIs(h, scenario, sourceTask, replies, d);
      PrepareSucceeds(h, scenario, sourceTask, replies, d);
      ChecksPass(h, scenario, sourceTask, d);
      PrepareCommandsJson(h, scenario, sourceTask, d);
      NineDicts(h, scenario, sourceTask, d);
      ReceiptsAnswer(h.limits, PrepareCommands(h, scenario, sourceTask, d), replies, d);
      assert Receipts(h.limits, replies, d) && PreparePasses(h, scenario, sourceTask, d, record);
    }
    if d :| Receipts(h.limits, replies, d) && PreparePasses(h, scenario, sourceTask, d, record) {
      PassesCheck(h, scenario, sourceTask, d, record);
      PrepareCommandsJson(h, scenario, sourceTask, d);
      NineDicts(h, scenario, sourceTask, d);
      ReceiptsAnswer(h.limits, PrepareCommands(h, scenario, sourceTask, d), replies, d);
      PrepareAnswersIs(h, scenario, sourceTask, replies, d);
      PrepareSucceeds(h, scenario, sourceTask, replies, d);
    }
  }

  lemma NineDicts(h: Host, scenario: Fields, sourceTask: Text, d: seq<Fields>)
    requires PrepareChecks(h, scenario, sourceTask, d)
    ensures |d| == 9
  {
  }

  // ----- resume

  ghost predicate Startable(h: Host, scenario: Fields, state: Fields) {
    && Says(state, "contract_version", "ace.market.gc1-external-consumer/v1") && Says(state, "phase", "prepared")
    && Get(state, Ascii("scenario_hash")) == Some(DigestOf(h, scenario))
    && Get(state, Ascii("revision_id")).Some? && Get(state, Ascii("head_id")).Some? && Get(state, Ascii("stable_key")).Some?
  }

  /** Revision and head are what the state says, and the revision is used again. */
  ghost predicate Restarted(h: Host, scenario: Fields, state: Fields, d: seq<Fields>)
    requires |d| == 7
  {
    && Get(state, Ascii("revision_hash")) == Some(DigestOf(h, d[0])) && Get(state, Ascii("head_hash")) == Some(DigestOf(h, d[1]))
    && Get(d[1], Ascii("active_revision_id")) == Some(Str(Written(h, state, "revision_id"))) && Says(d[1], "lifecycle", "active")
    && Present(scenario, "restart_use_prompt")
    && Used(h, d[2], Written(h, state, "revision_id"), d[3], d[4])
  }

  /** The refusal names one of the three codes. */
  ghost predicate Ineligible(failure: Text) {
    || (exists i :: 0 <= i && Named(failure, i, "cognition_use_not_completed"))
    || (exists i :: 0 <= i && Named(failure, i, "cognition_use_attribution_missing"))
    || (exists i :: 0 <= i && Named(failure, i, "cognition_use_attribution_incomplete"))
  }

  ghost predicate Named(failure: Text, i: nat, code: string) {
    i + |code| <= |failure| && failure[i..i + |code|] == Ascii(code)
  }

  ghost predicate Retired(scenario: Fields, state: Fields, d: seq<Fields>, failure: Text)
    requires |d| == 7
  {
    && Present(scenario, "retire_rationale") && Get(state, Ascii("head_generation")).Some?
    && Says(ObjectAt(d[5], "lifecycle_receipt"), "result_lifecycle", "retired")
    && Present(ObjectAt(d[5], "lifecycle_receipt"), "receipt_id")
    && Says(d[6], "lifecycle", "retired") && Present(scenario, "post_retirement_use_prompt") && Ineligible(failure)
  }

  /** The members resume assigns, in order. */
  function CompleteFields(h: Host, d: seq<Fields>, failure: Text, texts: seq<Text>): Fields
    requires |d| == 7
  {
    var receipt := ObjectAt(d[5], "lifecycle_receipt");
    [ Field(Ascii("phase"), Str(Ascii("complete"))),
      Field(Ascii("restart_use"), Obj(UseRecord(h, d[2], d[3], d[4], texts))),
      Field(Ascii("lifecycle_receipt_id"), ValueAt(receipt, "receipt_id")),
      Field(Ascii("lifecycle_receipt_hash"), DigestOf(h, receipt)),
      Field(Ascii("retired_head_hash"), DigestOf(h, d[6])),
      Field(Ascii("post_retirement_failure"), Str(failure)) ]
  }

  lemma StartableIs(h: Host, scenario: Fields, state: Fields)
    ensures Startable(h, scenario, state) <==> Resumable(h, scenario, state)
  {
    assert CONTRACT_VERSION == Ascii("ace.market.gc1-external-consumer/v1");
    hide Get, Ascii, Canonical, CONTRACT_VERSION;
  }

  lemma StateTextWritten(h: Host, state: Fields, key: string)
    ensures StateText(h, state, key).Some? <==> Get(state, Ascii(key)).Some?
    ensures StateText(h, state, key).Some? ==> StateText(h, state, key).value == Written(h, state, key)
  {
    hide Get, Ascii;
  }

  lemma RestartedIs(h: Host, scenario: Fields, state: Fields, d: seq<Fields>, revision: Text, key: Text)
    requires |d| == 7 && StateText(h, state, "revision_id") == Some(revision)
    ensures Restarted(h, scenario, state, d)
            <==> && UnchangedAcrossRestart(h, state, d[0], d[1]) && ActiveHead(d[1], revision)
                 && UseCommand(h, key, scenario, "restart_use_prompt").Some?
                 && UseAttribution(h, d[2], revision).Some?
                 && UseUnchanged(h, UseAttribution(h, d[2], revision).value, d[3], d[4])
  {
    StateTextWritten(h, state, "revision_id");
    ActiveIs(d[1], revision);
    UseCommandIs(h, key, scenario, "restart_use_prompt");
    UsedExactly(h, d[2], revision, d[3], d[4]);
    hide StateText, Written, ActiveHead, UseCommand, Present, Used, UseAttribution, UseUnchanged, Says, Get, Ascii, DigestOf;
    UnchangedDigests(h, state, d[0], d[1]);
    hide UnchangedAcrossRestart;
  }

  lemma UnchangedDigests(h: Host, state: Fields, revision: Fields, head: Fields)
    ensures UnchangedAcrossRestart(h, state, revision, head)
            <==> && Get(state, Ascii("revision_hash")) == Some(DigestOf(h, revision))
                 && Get(state, Ascii("head_hash")) == Some(DigestOf(h, head))
  {
    hide Get, Ascii, Canonical;
  }

  lemma RetiredReceiptIs(lifecycle: Fields)
    ensures var receipt := ObjectAt(lifecycle, "lifecycle_receipt");
            && (RetiredReceipt(lifecycle).Some? <==> receipt != [] && Says(receipt, "result_lifecycle", "retired"))
            && (RetiredReceipt(lifecycle).Some? ==> RetiredReceipt(lifecycle) == Some(receipt))
  {
    ObjectAtPresent(lifecycle, "lifecycle_receipt");
    hide ObjectAt, SubObject, Get, Ascii;
  }

  lemma ContainsIs(failure: Text, code: string)
    ensures Contains(failure, Ascii(code)) <==> exists i :: 0 <= i && Named(failure, i, code)
  {
    hide Ascii;
    forall i | 0 <= i <= |failure| ensures StartsWith(failure[i..], Ascii(code)) <==> Named(failure, i, code) {
      if i + |code| <= |failure| {
        assert failure[i..][..|code|] == failure[i..i + |code|];
      }
    }
  }

  lemma IneligibleIs(failure: Text)
    ensures ProvesIneligibility(failure) <==> Ineligible(failure)
  {
    ContainsIs(failure, "cognition_use_not_completed");
    ContainsIs(failure, "cognition_use_attribution_missing");
    ContainsIs(failure, "cognition_use_attribution_incomplete");
    hide Contains, Named, Ascii;
  }

  lemma RetireCommandIs(h: Host, scenario: Fields, state: Fields)
    requires Startable(h, scenario, state)
    ensures RetireCommand(h, scenario, state).Some? <==> Present(scenario, "retire_rationale") && Get(state, Ascii("head_generation")).Some?
    ensures RefusedUseCommand(h, scenario, state).Some? <==> Present(scenario, "post_retirement_use_prompt")
  {
    PresentIs(h, scenario, "retire_rationale");
    PresentIs(h, scenario, "post_retirement_use_prompt");
    StateTextWritten(h, state, "head_id");
    StateTextWritten(h, state, "stable_key");
    StateTextWritten(h, state, "head_generation");
    hide TextAt, StateText, Present, Required, Written, Says, Get, Ascii, Words, Cognition;
  }

  lemma RetiredIs(h: Host, scenario: Fields, state: Fields, d: seq<Fields>, failure: Text)
    requires |d| == 7 && Startable(h, scenario, state) && UseAttribution(h, d[2], Written(h, state, "revision_id")).Some?
    ensures Retired(scenario, state, d, failure)
            <==> && RetireCommand(h, scenario, state).Some? && RetiredReceipt(d[5]).Some?
                 && Get(d[6], Ascii("lifecycle")) == Some(Str(Ascii("retired"))) && RefusedUseCommand(h, scenario, state).Some?
                 && CompletionUpdates(h, state, Objects(d) + [Str(failure)]).Some?
  {
    RetireCommandIs(h, scenario, state);
    RetiredReceiptIs(d[5]);
    IneligibleIs(failure);
    PresentIs(h, ObjectAt(d[5], "lifecycle_receipt"), "receipt_id");
    EmptyLacks("receipt_id");
    StateTextWritten(h, state, "revision_id");
    hide Startable, RetireCommand, RefusedUseCommand, CompletionUpdates, RetiredReceipt, ObjectAt, Present, Ineligible,
      ProvesIneligibility, Get, Ascii, StateText, Written, Require, UseAttribution, Objects, TextAt, Required;
    StartableText(h, scenario, state);
    if RetiredReceipt(d[5]).Some? {
      CompletedExactly(h, state, d, failure);
    }
  }

  lemma StartableText(h: Host, scenario: Fields, state: Fields)
    requires Startable(h, scenario, state)
    ensures Get(state, Ascii("revision_id")).Some?
  {
    hide Get, Ascii, Says;
  }

  /** What resume adds is spelled out. */
  lemma UpdatesAre(h: Host, state: Fields, d: seq<Fields>, failure: Text, a: Attribution)
    requires |d| == 7 && CompletionUpdates(h, state, Objects(d) + [Str(failure)]).Some?
    requires StateText(h, state, "revision_id").Some? && UseAttribution(h, d[2], StateText(h, state, "revision_id").value) == Some(a)
    ensures CompletionUpdates(h, state, Objects(d) + [Str(failure)]).value == CompleteFields(h, d, failure, a.selected)
  {
    RestartUseIs(h, state, d, [Str(failure)]);
    RetiredReceiptIs(d[5]);
    UseRecordIs(h, d[2], StateText(h, state, "revision_id").value, a, d[3], d[4]);
    UpdatesView(h, state, d, failure);
    var receipt := ObjectAt(d[5], "lifecycle_receipt");
    hide RestartUse, RetiredReceipt, UseAttribution, UseDict, UseRecord, ObjectAt, CompletionUpdates, Get, Ascii, StateText,
      Canonical, Says, Require, ValueAt;
    RequiredIs(receipt, "receipt_id", Require(Get(receipt, Ascii("receipt_id"))).value);
  }

  lemma UpdatesView(h: Host, state: Fields, d: seq<Fields>, failure: Text)
    requires |d| == 7 && CompletionUpdates(h, state, Objects(d) + [Str(failure)]).Some?
    ensures RetiredReceipt(d[5]).Some? && RestartUse(h, state, Objects(d) + [Str(failure)]).Some?
    ensures var receipt := RetiredReceipt(d[5]).value;
            && Require(Get(receipt, Ascii("receipt_id"))).Some?
            && CompletionUpdates(h, state, Objects(d) + [Str(failure)]).value
               == [Field(Ascii("phase"), Str(Ascii("complete"))),
                   Field(Ascii("restart_use"), Obj(UseDict(h, RestartUse(h, state, Objects(d) + [Str(failure)]).value, d[3], d[4]))),
                   Field(Ascii("lifecycle_receipt_id"), Require(Get(receipt, Ascii("receipt_id"))).value),
                   Field(Ascii("lifecycle_receipt_hash"), DigestOf(h, receipt)),
                   Field(Ascii("retired_head_hash"), DigestOf(h, d[6])),
                   Field(Ascii("post_retirement_failure"), Str(failure))]
  {
    var seen := Objects(d) + [Str(failure)];
    assert Dict(seen, 3) == d[3] && Dict(seen, 4) == d[4] && Dict(seen, 5) == d[5] && Dict(seen, 6) == d[6] && seen[7] == Str(failure);
    hide RestartUse, RetiredReceipt, UseDict, Get, Ascii, Canonical, Require, ProvesIneligibility, Objects, Dict;
  }

  /** Every check of resume, and the receipt it then leaves. */
  ghost predicate ResumePasses(h: Host, scenario: Fields, state: Fields, d: seq<Fields>, failure: Text, record: Fields) {
    && |d| == 7 && Startable(h, scenario, state) && Restarted(h, scenario, state, d) && Retired(scenario, state, d, failure)
    && (exists texts ::
          Names(h, ObjectAt(d[2], "cognition_selection_receipt"), texts)
          && record == PutAll(state, CompleteFields(h, d, failure, texts)))
    && Writable(h.limits, Obj(record))
  }

  lemma ResumeView(h: Host, scenario: Fields, state: Fields, d: seq<Fields>, failure: Text)
    requires ResumeChecks(h, scenario, state, d, failure)
    ensures |d| == 7 && CompletionUpdates(h, state, Objects(d) + [Str(failure)]).Some?
    ensures Writable(h.limits, Obj(PutAll(state, CompletionUpdates(h, state, Objects(d) + [Str(failure)]).value)))
  {
    hide Resumable, UnchangedAcrossRestart, ActiveHead, StateText, UseCommand, UseAttribution, UseUnchanged,
      RetireCommand, RetiredReceipt, RefusedUseCommand, CompletionUpdates, Writable, PutAll, Get, Ascii, Objects;
  }

  lemma ResumeNow(h: Host, scenario: Fields, state: Fields, d: seq<Fields>, failure: Text, revision: Text, key: Text)
    requires |d| == 7 && Resumable(h, scenario, state)
    requires StateText(h, state, "revision_id") == Some(revision) && StateText(h, state, "stable_key") == Some(key)
    requires UnchangedAcrossRestart(h, state, d[0], d[1]) && ActiveHead(d[1], revision)
    requires UseCommand(h, key, scenario, "restart_use_prompt").Some? && UseAttribution(h, d[2], revision).Some?
    requires UseUnchanged(h, UseAttribution(h, d[2], revision).value, d[3], d[4])
    requires RetireCommand(h, scenario, state).Some? && RetiredReceipt(d[5]).Some?
    requires Get(d[6], Ascii("lifecycle")) == Some(Str(Ascii("retired"))) && RefusedUseCommand(h, scenario, state).Some?
    requires CompletionUpdates(h, state, Objects(d) + [Str(failure)]).Some?
    requires Writable(h.limits, Obj(PutAll(state, CompletionUpdates(h, state, Objects(d) + [Str(failure)]).value)))
    ensures ResumeChecks(h, scenario, state, d, failure)
  {
    hide Resumable, UnchangedAcrossRestart, ActiveHead, StateText, UseCommand, UseAttribution, UseUnchanged,
      RetireCommand, RetiredReceipt, RefusedUseCommand, CompletionUpdates, Writable, PutAll, Get, Ascii, Objects;
  }

  lemma ResumePassesNow(h: Host, scenario: Fields, state: Fields, d: seq<Fields>, failure: Text, record: Fields, texts: seq<Text>)
    requires |d| == 7 && Startable(h, scenario, state) && Restarted(h, scenario, state, d) && Retired(scenario, state, d, failure)
    requires Names(h, ObjectAt(d[2], "cognition_selection_receipt"), texts)
    requires record == PutAll(state, CompleteFields(h, d, failure, texts)) && Writable(h.limits, Obj(record))
    ensures ResumePasses(h, scenario, state, d, failure, record)
  {
    hide Startable, Restarted, Retired, Names, PutAll, CompleteFields, Writable, ObjectAt;
  }

  lemma ResumeChecksPass(h: Host, scenario: Fields, state: Fields, d: seq<Fields>, failure: Text)
    requires ResumeChecks(h, scenario, state, d, failure)
    ensures CompletionUpdates(h, state, Objects(d) + [Str(failure)]).Some?
    ensures ResumePasses(h, scenario, state, d, failure, PutAll(state, CompletionUpdates(h, state, Objects(d) + [Str(failure)]).value))
  {
    hide *;
    ResumeView(h, scenario, state, d, failure);
    RestartFacts(h, scenario, state, d, failure);
    UseFacts(h, scenario, state, d, failure);
    var r, key := StateText(h, state, "revision_id").value, StateText(h, state, "stable_key").value;
    var a := UseAttribution(h, d[2], r).value;
    StateTextWritten(h, state, "revision_id");
    StartableIs(h, scenario, state);
    RestartedIs(h, scenario, state, d, r, key);
    RetiredIs(h, scenario, state, d, failure);
    UpdatesAre(h, state, d, failure, a);
    AttributionNames(h, d[2], r, a);
    ResumePassesNow(h, scenario, state, d, failure,
                    PutAll(state, CompletionUpdates(h, state, Objects(d) + [Str(failure)]).value), a.selected);
  }

  lemma ResumePassesView(h: Host, scenario: Fields, state: Fields, d: seq<Fields>, failure: Text, record: Fields)
    returns (texts: seq<Text>)
    requires ResumePasses(h, scenario, state, d, failure, record)
    ensures |d| == 7 && Startable(h, scenario, state) && Restarted(h, scenario, state, d) && Retired(scenario, state, d, failure)
    ensures Names(h, ObjectAt(d[2], "cognition_selection_receipt"), texts)
    ensures record == PutAll(state, CompleteFields(h, d, failure, texts)) && Writable(h.limits, Obj(record))
  {
    hide Startable, Restarted, Retired, Names, PutAll, CompleteFields, Writable, ObjectAt;
    texts :| Names(h, ObjectAt(d[2], "cognition_selection_receipt"), texts)
             && record == PutAll(state, CompleteFields(h, d, failure, texts));
  }

  lemma ResumePassesCheck(h: Host, scenario: Fields, state: Fields, d: seq<Fields>, failure: Text, record: Fields)
    requires ResumePasses(h, scenario, state, d, failure, record)
    ensures ResumeChecks(h, scenario, state, d, failure)
    ensures CompletionUpdates(h, state, Objects(d) + [Str(failure)]).Some?
    ensures record == PutAll(state, CompletionUpdates(h, state, Objects(d) + [Str(failure)]).value)
  {
    hide *;
    var texts := ResumePassesView(h, scenario, state, d, failure, record);
    StartableIs(h, scenario, state);
    ResumableTexts(h, scenario, state);
    var r, key := StateText(h, state, "revision_id").value, StateText(h, state, "stable_key").value;
    StateTextWritten(h, state, "revision_id");
    RestartedIs(h, scenario, state, d, r, key);
    var a := UseAttribution(h, d[2], r).value;
    RetiredIs(h, scenario, state, d, failure);
    UpdatesAre(h, state, d, failure, a);
    AttributionNames(h, d[2], r, a);
    NamesOnce(h, ObjectAt(d[2], "cognition_selection_receipt"), texts, a.selected);
    ResumeNow(h, scenario, state, d, failure, r, key);
  }

  /** A command that was refused, and the message that is kept of it. */
  ghost predicate Refusal(reply: Reply, failure: Text) {
    var message := Squeeze(if reply.stderr != [] then reply.stderr else reply.stdout);
    reply.code != 0 && failure == if |message| <= 500 then message else message[..500]
  }

  lemma RefusedAnswer(l: Limits, commands: seq<Command>, replies: seq<Reply>, d: seq<Fields>, failure: Text)
    requires |d| == 7 && |commands| == 8 && (forall k :: 0 <= k < 7 ==> commands[k].Json?) && commands[7].Failure?
    ensures Answered(l, commands, replies, Objects(d) + [Str(failure)])
            <==> |replies| >= 8 && Receipts(l, replies, d) && Refusal(replies[7], failure)
  {
    hide FirstReceipt, Squeeze;
    var seen := Objects(d) + [Str(failure)];
    if Answered(l, commands, replies, seen) {
      forall k | 0 <= k < 7 ensures replies[k].code == 0 && FirstReceipt(l, replies[k].stdout) == Found(d[k]) {
        assert Answer(l, commands[k], replies[k]) == Some(seen[k]);
      }
      assert Answer(l, commands[7], replies[7]) == Some(seen[7]);
    }
  }

  lemma ResumeCommandsKinds(h: Host, scenario: Fields, state: Fields, d: seq<Fields>, failure: Text)
    requires ResumeChecks(h, scenario, state, d, failure)
    ensures |d| == 7
    ensures forall k :: 0 <= k < 8 ==> (ResumeCommands(h, scenario, state, d, failure)[k].Failure? <==> k == 7)
  {
    hide *;
    ResumeView(h, scenario, state, d, failure);
    forall k | 0 <= k < 8 ensures ResumeCommands(h, scenario, state, d, failure)[k].Failure? <==> k == 7 {
      ResumeMoves(h, scenario, state, d, failure, k);
      ResumePrefix(d, failure, if k < 7 then k else 7);
      var seen := (Objects(d) + [Str(failure)])[..k];
      ResumeNext(h, scenario, state, seen);
      ResumeMoveVerb(h, scenario, state, seen);
    }
  }

  lemma ResumeAnswersIs(h: Host, scenario: Fields, state: Fields, replies: seq<Reply>, d: seq<Fields>, failure: Text)
    ensures ResumeAnswers(h, scenario, state, replies, d, failure)
            <==> && ResumeChecks(h, scenario, state, d, failure)
                 && Answered(h.limits, ResumeCommands(h, scenario, state, d, failure), replies, Objects(d) + [Str(failure)])
  {
    hide ResumeChecks, Answered, ResumeCommands, Objects;
  }

  /**
    Resume succeeds with a record exactly when its first seven replies are receipts and the
    eighth a refusal, all of them pass every check, and the record is the state with theirs.
   */
  lemma ResumeSucceedsWhen(h: Host, scenario: Fields, state: Fields, replies: seq<Reply>, record: Fields)
    ensures RunScript(Script.Resume(h, scenario, state), replies).result == Some(record)
            <==> |replies| >= 8 && exists d, failure ::
                   Receipts(h.limits, replies, d) && Refusal(replies[7], failure) && ResumePasses(h, scenario, state, d, failure, record)
  {
    hide *;
    ResumeSucceedsExactly(h, scenario, state, replies);
    if RunScript(Script.Resume(h, scenario, state), replies).result == Some(record) {
      var d, failure :| ResumeAnswers(h, scenario, state, replies, d, failure);
      ResumeAnswersIs(h, scenario, state, replies, d, failure);
      ResumeSucceeds(h, scenario, state, replies, d, failure);
      ResumeChecksPass(h, scenario, state, d, failure);
      ResumeCommandsKinds(h, scenario, state, d, failure);
      RefusedAnswer(h.limits, ResumeCommands(h, scenario, state, d, failure), replies, d, failure);
    }
    if |replies| >= 8 {
      if d, failure :| Receipts(h.limits, replies, d) && Refusal(replies[7], failure)
                       && ResumePasses(h, scenario, state, d, failure, record) {
        ResumePassesCheck(h, scenario, state, d, failure, record);
        ResumeCommandsKinds(h, scenario, state, d, failure);
        RefusedAnswer(h.limits, ResumeCommands(h, scenario, state, d, failure), replies, d, failure);
        ResumeAnswersIs(h, scenario, state, replies, d, failure);
        ResumeSucceeds(h, scenario, state, replies, d, failure);
      }
    }
  }

  /** What the completed receipt holds: six members of resume; under every other key it is the state's own. */
  lemma CompleteMembers(h: Host, state: Fields, d: seq<Fields>, failure: Text, texts: seq<Text>)
    requires |d| == 7 && DistinctKeys(KeyOf, state)
    ensures var record := PutAll(state, CompleteFields(h, d, failure, texts));
            var receipt := ObjectAt(d[5], "lifecycle_receipt");
            && Get(record, Ascii("phase")) == Some(Str(Ascii("complete")))
            && Get(record, Ascii("restart_use")) == Some(Obj(UseRecord(h, d[2], d[3], d[4], texts)))
            && Get(record, Ascii("lifecycle_receipt_id")) == Some(ValueAt(receipt, "receipt_id"))
            && Get(record, Ascii("lifecycle_receipt_hash")) == Some(DigestOf(h, receipt))
            && Get(record, Ascii("retired_head_hash")) == Some(DigestOf(h, d[6]))
            && Get(record, Ascii("post_retirement_failure")) == Some(Str(failure))
  {
    var u := CompleteFields(h, d, failure, texts);
    CompleteDistinct(h, d, failure, texts);
    AssignedMembers(state, u);
    hide UseRecord, ValueAt, DigestOf, ObjectAt, Ascii, DistinctKeys, Get, PutAll;
    assert u[0].key == Ascii("phase") && u[1].key == Ascii("restart_use") && u[2].key == Ascii("lifecycle_receipt_id");
    assert u[3].key == Ascii("lifecycle_receipt_hash") && u[4].key == Ascii("retired_head_hash");
    assert u[5].key == Ascii("post_retirement_failure");
  }

  lemma OtherMembers(h: Host, state: Fields, d: seq<Fields>, failure: Text, texts: seq<Text>, key: Text)
    requires |d| == 7 && DistinctKeys(KeyOf, state)
    requires key != Ascii("phase") && key != Ascii("restart_use") && key != Ascii("lifecycle_receipt_id")
    requires key != Ascii("lifecycle_receipt_hash") && key != Ascii("retired_head_hash")
    requires key != Ascii("post_retirement_failure")
    ensures Get(PutAll(state, CompleteFields(h, d, failure, texts)), key) == Get(state, key)
  {
    var u := CompleteFields(h, d, failure, texts);
    CompleteDistinct(h, d, failure, texts);
    AssignedMembers(state, u);
    hide UseRecord, ValueAt, DigestOf, ObjectAt, Ascii, DistinctKeys, Get, PutAll;
    assert forall i :: 0 <= i < |u| ==> u[i].key != key;
  }

  lemma CompleteDistinct(h: Host, d: seq<Fields>, failure: Text, texts: seq<Text>)
    requires |d| == 7
    ensures DistinctKeys(KeyOf, CompleteFields(h, d, failure, texts))
  {
    hide UseRecord, ValueAt, DigestOf, ObjectAt, DistinctKeys;
    MarksDistinct(CompleteFields(h, d, failure, texts));
  }

  /** Members assigned under different keys read as assigned, all others as before. */
  lemma AssignedMembers(fields: Fields, updates: Fields)
    requires DistinctKeys(KeyOf, fields) && DistinctKeys(KeyOf, updates)
    ensures forall i :: 0 <= i < |updates| ==> Get(PutAll(fields, updates), updates[i].key) == Some(updates[i].value)
    ensures forall key :: (forall i :: 0 <= i < |updates| ==> updates[i].key != key) ==>
              Get(PutAll(fields, updates), key) == Get(fields, key)
  {
    hide DistinctKeys, Get, PutAll;
    forall i | 0 <= i < |updates| ensures Get(PutAll(fields, updates), updates[i].key) == Some(updates[i].value) {
      GetPutAll(fields, updates, updates[i].key);
      GetDistinct(updates, i);
    }
    forall key | forall i :: 0 <= i < |updates| ==> updates[i].key != key
      ensures Get(PutAll(fields, updates), key) == Get(fields, key)
    {
      GetPutAll(fields, updates, key);
      GetMember(updates, key);
    }
  }
}
