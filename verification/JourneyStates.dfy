/** What the written receipts contain, and that they survive being written and read back. */
module JourneyStates {
  import opened Options
  import opened Texts
  import opened Numerals
  import opened Sorting
  import opened JsonValues
  import opened JsonPrinter
  import opened JsonIdentity
  import opened JsonLimits
  import opened JsonScan
  import opened Journey

  // ----- clean values stay clean

  lemma CleanStr(t: Text)
    requires NoSplit(t)
    ensures Clean(Str(t))
  {
  }

  lemma CleanFields(fields: Fields)
    requires DistinctKeys(KeyOf, fields)
    requires forall i :: 0 <= i < |fields| ==> NoSplit(fields[i].key) && Clean(fields[i].value)
    ensures Clean(Obj(fields))
  {
    hide NoSplit, DistinctKeys;
  }

  lemma CleanMember(fields: Fields, i: nat)
    requires Clean(Obj(fields)) && i < |fields|
    ensures NoSplit(fields[i].key) && Clean(fields[i].value)
  {
    hide NoSplit, DistinctKeys;
  }

  lemma GetClean(fields: Fields, key: Text)
    requires Clean(Obj(fields)) && Get(fields, key).Some?
    ensures Clean(Get(fields, key).value)
  {
    hide Clean, Get;
    GetMember(fields, key);
    var i :| 0 <= i < |fields| && fields[i] == Field(key, Get(fields, key).value);
    CleanMember(fields, i);
  }

  lemma DictClean(seen: seq<JsonValues.Json>, k: nat)
    requires forall i :: 0 <= i < |seen| ==> Clean(seen[i])
    ensures Clean(Obj(Dict(seen, k)))
  {
  }

  lemma RequireClean(fields: Fields, key: Text)
    requires Clean(Obj(fields)) && Require(Get(fields, key)).Some?
    ensures Clean(Require(Get(fields, key)).value)
  {
    hide Clean, Get;
    GetClean(fields, key);
  }

  lemma SubObjectClean(fields: Fields, key: Text)
    requires Clean(Obj(fields)) && SubObject(fields, key).Some?
    ensures Clean(Obj(SubObject(fields, key).value))
  {
    hide Clean, Get;
    RequireClean(fields, key);
  }

  lemma PyStrNoSplit(h: Host, v: JsonValues.Json)
    requires Clean(v)
    ensures NoSplit(PyStr(h, v))
  {
    match v
    case Str(s) =>
    case Int(n) => IntTextPlain(n);
    case _ => PlainNoSplit(h.repr(v));
  }

  lemma IntTextPlain(n: int)
    ensures NoSplit(IntText(n))
  {
    var d := Digits(if n < 0 then -n else n);
    assert forall i :: 0 <= i < |IntText(n)| ==> IntText(n)[i] == MINUS || Digit(IntText(n)[i]);
  }

  lemma TextAtClean(h: Host, fields: Fields, key: Text)
    requires Clean(Obj(fields)) && TextAt(h, fields, key).Some?
    ensures Clean(Str(TextAt(h, fields, key).value))
  {
    hide Clean, Get, PyStr, NoSplit;
    RequireClean(fields, key);
    PyStrNoSplit(h, Require(Get(fields, key)).value);
    CleanStr(TextAt(h, fields, key).value);
  }

  lemma HashClean(h: Host, v: JsonValues.Json)
    ensures Clean(Str(Hash(h, v)))
  {
    PlainNoSplit(Hash(h, v));
  }

  lemma AsciiNoSplit(s: string)
    ensures NoSplit(Ascii(s))
  {
    PlainNoSplit(Ascii(s));
  }

  lemma IterateClean(v: JsonValues.Json)
    requires Clean(v) && Iterate(v).Some?
    ensures forall i :: 0 <= i < |Iterate(v).value| ==> Clean(Iterate(v).value[i])
  {
    match v
    case Arr(items) =>
    case Str(s) =>
    case Obj(fields) =>
  }

  lemma StringsClean(texts: seq<Text>)
    requires forall i :: 0 <= i < |texts| ==> NoSplit(texts[i])
    ensures Clean(Arr(Strings(texts)))
  {
    hide Strings, Clean, NoSplit;
    var items := Strings(texts);
    forall i | 0 <= i < |items| ensures Clean(items[i]) {
      CleanStr(texts[i]);
    }
    CleanItems(items);
  }

  lemma CleanItems(items: seq<JsonValues.Json>)
    requires forall i :: 0 <= i < |items| ==> Clean(items[i])
    ensures Clean(Arr(items))
  {
    hide NoSplit;
  }

  ghost predicate CleanAttribution(a: Attribution) {
    && Clean(a.taskId) && Clean(a.selectionReceipt) && Clean(a.useReceipt) && Clean(a.materialUse)
    && forall i :: 0 <= i < |a.selected| ==> NoSplit(a.selected[i])
  }

  lemma SelectedClean(h: Host, receipt: Fields)
    requires Clean(Obj(receipt)) && SelectedRevisions(receipt).Some?
    ensures forall i :: 0 <= i < |TextsOf(h, SelectedRevisions(receipt).value)| ==>
              NoSplit(TextsOf(h, SelectedRevisions(receipt).value)[i])
  {
    hide Clean, Get, PyStr, NoSplit;
    var items := SelectedRevisions(receipt).value;
    if Get(receipt, Ascii("selected_revision_ids")).Some? {
      GetClean(receipt, Ascii("selected_revision_ids"));
      IterateClean(Get(receipt, Ascii("selected_revision_ids")).value);
    }
    forall i | 0 <= i < |items| ensures NoSplit(PyStr(h, items[i])) {
      PyStrNoSplit(h, items[i]);
    }
  }

  lemma AttributionClean(h: Host, task: Fields, revision: Text)
    requires Clean(Obj(task)) && UseAttribution(h, task, revision).Some?
    ensures CleanAttribution(UseAttribution(h, task, revision).value)
  {
    hide Clean, Get, PyStr, NoSplit, Ascii, SelectedRevisions, SubObject, Require, TextsOf;
    var selection := SubObject(task, Ascii("cognition_selection_receipt")).value;
    var use := SubObject(task, Ascii("cognition_use_receipt")).value;
    SubObjectClean(task, Ascii("cognition_selection_receipt"));
    SubObjectClean(task, Ascii("cognition_use_receipt"));
    SelectedClean(h, selection);
    RequireClean(task, Ascii("id"));
    RequireClean(selection, Ascii("selection_receipt_id"));
    RequireClean(use, Ascii("use_receipt_id"));
    GetClean(use, Ascii("material_use_hash"));
  }

  /** An attribution names the revision it was made for. */
  lemma AttributionNames(h: Host, task: Fields, revision: Text)
    requires UseAttribution(h, task, revision).Some?
    ensures revision in UseAttribution(h, task, revision).value.selected
  {
    hide Get, PyStr, Ascii, SelectedRevisions, Truthy, SubObject, Require, TextsOf;
  }

  lemma UseDictClean(h: Host, a: Attribution, selection: Fields, use: Fields)
    requires CleanAttribution(a)
    ensures Clean(Obj(UseDict(h, a, selection, use)))
  {
    hide Clean, NoSplit, Hash, DistinctKeys;
    var d := UseDict(h, a, selection, use);
    StringsClean(a.selected);
    HashClean(h, Obj(selection));
    HashClean(h, Obj(use));
    UseDictDistinct(h, a, selection, use);
    forall i | 0 <= i < |d| ensures NoSplit(d[i].key) && Clean(d[i].value) {
      UseDictKeys();
    }
    CleanFields(d);
  }

  lemma UseDictKeys()
    ensures NoSplit(Ascii("task_id")) && NoSplit(Ascii("selection_receipt_id")) && NoSplit(Ascii("use_receipt_id"))
    ensures NoSplit(Ascii("selected_revision_ids")) && NoSplit(Ascii("material_use_hash"))
    ensures NoSplit(Ascii("selection_hash")) && NoSplit(Ascii("use_hash"))
  {
    hide NoSplit;
    AsciiNoSplit("task_id");
    AsciiNoSplit("selection_receipt_id");
    AsciiNoSplit("use_receipt_id");
    AsciiNoSplit("selected_revision_ids");
    AsciiNoSplit("material_use_hash");
    AsciiNoSplit("selection_hash");
    AsciiNoSplit("use_hash");
  }

  /** Length and third letter tell all keys of the receipts apart. */
  function KeyMark(t: Text): int {
    if |t| < 3 then 0 else |t| * 0x20_0000 + t[2] as int
  }

  lemma MarksDistinct(fields: Fields)
    requires forall i, j :: 0 <= i < j < |fields| ==> KeyMark(fields[i].key) != KeyMark(fields[j].key)
    ensures DistinctKeys(KeyOf, fields)
  {
    forall i, j | 0 <= i < j < |fields| ensures KeyOf(fields[i]) != KeyOf(fields[j]) {
      assert KeyMark(fields[i].key) != KeyMark(fields[j].key);
    }
  }

  lemma UseDictDistinct(h: Host, a: Attribution, selection: Fields, use: Fields)
    ensures DistinctKeys(KeyOf, UseDict(h, a, selection, use))
  {
    hide DistinctKeys, Hash, Strings;
    MarksDistinct(UseDict(h, a, selection, use));
  }

  function Marks(): seq<int> {
    [16 * 0x20_0000 + 0x6e, 5 * 0x20_0000 + 0x61, 13 * 0x20_0000 + 0x65, 14 * 0x20_0000 + 0x75,
    10 * 0x20_0000 + 0x61, 11 * 0x20_0000 + 0x6f, 13 * 0x20_0000 + 0x6f, 15 * 0x20_0000 + 0x73,
    18 * 0x20_0000 + 0x6d, 17 * 0x20_0000 + 0x76, 19 * 0x20_0000 + 0x76, 11 * 0x20_0000 + 0x76,
    13 * 0x20_0000 + 0x76, 7 * 0x20_0000 + 0x61, 15 * 0x20_0000 + 0x61, 9 * 0x20_0000 + 0x61,
    9 * 0x20_0000 + 0x72]
  }

  lemma PreparedMarks(p: Prepared, i: nat)
    requires i < 17
    ensures |PreparedState(p)| == 17 && KeyMark(PreparedState(p)[i].key) == Marks()[i]
  {
  }

  lemma PreparedDistinct(p: Prepared)
    ensures DistinctKeys(KeyOf, PreparedState(p))
  {
    hide DistinctKeys, PreparedState, KeyMark;
    var s := PreparedState(p);
    PreparedMarks(p, 0);
    forall i, j | 0 <= i < j < |s| ensures KeyMark(s[i].key) != KeyMark(s[j].key) {
      PreparedMarks(p, i);
      PreparedMarks(p, j);
    }
    MarksDistinct(s);
  }

  ghost predicate CleanEvidence(p: Prepared) {
    && NoSplit(p.sourceTask) && NoSplit(p.stableKey) && NoSplit(p.proposalId) && NoSplit(p.revisionId) && NoSplit(p.headId)
    && Clean(p.proposalHash) && Clean(p.receiptId) && Clean(Obj(p.firstUse))
  }

  lemma PreparedClean(p: Prepared)
    requires CleanEvidence(p)
    ensures Clean(Obj(PreparedState(p)))
  {
    hide Clean, NoSplit, DistinctKeys;
    var s := PreparedState(p);
    PreparedDistinct(p);
    forall i | 0 <= i < |s| ensures NoSplit(s[i].key) && Clean(s[i].value) {
      PreparedKeyPlain(p, i);
      PreparedValueClean(p, i);
    }
    CleanFields(s);
  }

  lemma PreparedKeyPlain(p: Prepared, i: nat)
    requires i < |PreparedState(p)|
    ensures NoSplit(PreparedState(p)[i].key)
  {
    PlainNoSplit(PreparedState(p)[i].key);
  }

  lemma PreparedTexts(p: Prepared, i: nat)
    requires i < |PreparedState(p)| && PreparedState(p)[i].value.Str?
    ensures PreparedState(p)[i].value in {p.proposalHash, p.receiptId} ||
            PreparedState(p)[i].value.s in {Ascii("prepared"), CONTRACT_VERSION, p.scenarioHash, p.sourceTask, p.stableKey,
              p.proposalId, p.inspectionHash, p.diffHash, p.receiptHash, p.revisionId, p.revisionHash, p.headId, p.headHash}
  {
    hide Ascii;
  }

  lemma PreparedValueClean(p: Prepared, i: nat)
    requires CleanEvidence(p) && i < |PreparedState(p)|
    ensures Clean(PreparedState(p)[i].value)
  {
    hide Clean, Ascii, NoSplit;
    var v := PreparedState(p)[i].value;
    if v.Str? && v != p.proposalHash && v != p.receiptId {
      PlainNoSplit(Ascii("prepared"));
      PlainNoSplit(CONTRACT_VERSION);
      PlainNoSplit(p.scenarioHash);
      PlainNoSplit(p.inspectionHash);
      PlainNoSplit(p.diffHash);
      PlainNoSplit(p.receiptHash);
      PlainNoSplit(p.revisionHash);
      PlainNoSplit(p.headHash);
      PreparedTexts(p, i);
      CleanStr(v.s);
    } else if v.Int? {
      CleanInt(v.n);
    }
  }

  lemma CleanInt(n: int)
    ensures Clean(Int(n))
  {
  }

  lemma EvidenceClean(h: Host, scenario: Fields, sourceTask: Text, seen: seq<JsonValues.Json>)
    requires Clean(Obj(scenario)) && NoSplit(sourceTask) && forall i :: 0 <= i < |seen| ==> Clean(seen[i])
    requires PreparedEvidence(h, scenario, sourceTask, seen).Some?
    ensures CleanEvidence(PreparedEvidence(h, scenario, sourceTask, seen).value)
  {
    hide *;
    EvidenceParts(h, scenario, sourceTask, seen);
    forall k ensures Clean(Obj(Dict(seen, k))) { DictClean(seen, k); }
    var p := PreparedEvidence(h, scenario, sourceTask, seen).value;
    TextAtClean(h, scenario, Ascii("stable_key"));
    var proposal := SubObject(Dict(seen, 0), Ascii("proposal")).value;
    SubObjectClean(Dict(seen, 0), Ascii("proposal"));
    TextAtClean(h, proposal, Ascii("proposal_id"));
    RequireClean(proposal, Ascii("proposal_hash"));
    var receipt := SubObject(Dict(seen, 3), Ascii("review_receipt")).value;
    SubObjectClean(Dict(seen, 3), Ascii("review_receipt"));
    TextAtClean(h, receipt, Ascii("result_revision_id"));
    TextAtClean(h, receipt, Ascii("result_head_id"));
    RequireClean(receipt, Ascii("receipt_id"));
    AttributionClean(h, Dict(seen, 6), p.revisionId);
    UseDictClean(h, UseAttribution(h, Dict(seen, 6), p.revisionId).value, Dict(seen, 7), Dict(seen, 8));
    EvidenceFolds(p);
  }

  lemma EvidenceFolds(p: Prepared)
    requires NoSplit(p.sourceTask) && Clean(Str(p.stableKey)) && Clean(Str(p.proposalId)) && Clean(Str(p.revisionId))
    requires Clean(Str(p.headId)) && Clean(p.proposalHash) && Clean(p.receiptId) && Clean(Obj(p.firstUse))
    ensures CleanEvidence(p)
  {
    hide NoSplit, DistinctKeys;
  }

  /** Where each piece of the evidence comes from. */
  lemma EvidenceParts(h: Host, scenario: Fields, sourceTask: Text, seen: seq<JsonValues.Json>)
    requires PreparedEvidence(h, scenario, sourceTask, seen).Some?
    ensures var p := PreparedEvidence(h, scenario, sourceTask, seen).value;
            && p.sourceTask == sourceTask
            && p.scenarioHash == Hash(h, Obj(scenario))
            && TextAt(h, scenario, Ascii("stable_key")) == Some(p.stableKey)
            && var proposal := SubObject(Dict(seen, 0), Ascii("proposal"));
            && proposal.Some? && TextAt(h, proposal.value, Ascii("proposal_id")) == Some(p.proposalId)
            && Require(Get(proposal.value, Ascii("proposal_hash"))) == Some(p.proposalHash)
            && var receipt := SubObject(Dict(seen, 3), Ascii("review_receipt"));
            && receipt.Some?
            && TextAt(h, receipt.value, Ascii("result_revision_id")) == Some(p.revisionId)
            && TextAt(h, receipt.value, Ascii("result_head_id")) == Some(p.headId)
            && Require(Get(receipt.value, Ascii("receipt_id"))) == Some(p.receiptId)
            && p.revisionHash == Hash(h, Obj(Dict(seen, 4))) && p.headHash == Hash(h, Obj(Dict(seen, 5)))
            && var a := UseAttribution(h, Dict(seen, 6), p.revisionId);
            && a.Some? && UseUnchanged(h, a.value, Dict(seen, 7), Dict(seen, 8))
            && p.firstUse == UseDict(h, a.value, Dict(seen, 7), Dict(seen, 8))
  {
    hide Get, TextAt, SubObject, Require, PyInt, Hash, UseAttribution, UseUnchanged, UseDict, Ascii, NotSelectable, Dict;
  }

  // ----- the written receipt, read back

  function SortedFields(fields: Fields): Fields {
    Sort(KeyOf, SortValues(fields))
  }

  function LoadObject(l: Limits, t: Text): Option<Fields> {
    match LoadsWithin(l, t)
    case Some(v) => if v.Obj? then Some(v.fields) else None
    case None => None
  }

  /** A receipt cut short never loads; a whole one, with or without its last newline, loads sorted. */
  lemma ReceiptFile(l: Limits, state: Fields, n: nat)
    requires Clean(Obj(state)) && n <= |Document(Obj(state))| && Writable(l, Obj(state))
    ensures LoadObject(l, Document(Obj(state))[..n]) ==
            if n + 1 < |Document(Obj(state))| then None else Some(SortedFields(state))
  {
    hide Document, LoadsWithin, Clean, Sort, Writable;
    TornWithin(l, Obj(state), n);
  }

  /** The fields resume reads from a prepared receipt. */
  lemma PreparedReadBack(p: Prepared)
    ensures var s := SortedFields(PreparedState(p));
            && Get(s, Ascii("contract_version")) == Some(Str(CONTRACT_VERSION))
            && Get(s, Ascii("phase")) == Some(Str(Ascii("prepared")))
            && Get(s, Ascii("scenario_hash")) == Some(Str(p.scenarioHash))
            && Get(s, Ascii("revision_id")) == Some(Str(p.revisionId))
            && Get(s, Ascii("revision_hash")) == Some(Str(p.revisionHash))
            && Get(s, Ascii("head_hash")) == Some(Str(p.headHash))
            && Get(s, Ascii("head_id")) == Some(Str(p.headId))
            && Get(s, Ascii("stable_key")) == Some(Str(p.stableKey))
            && Get(s, Ascii("head_generation")) == Some(Int(p.generation))
  {
    hide *;
    PreparedDistinct(p);
    PreparedSlots(p);
    forall i: nat | i < |PreparedState(p)| && (PreparedState(p)[i].value.Str? || PreparedState(p)[i].value.Int?)
      ensures Get(SortedFields(PreparedState(p)), PreparedState(p)[i].key) == Some(PreparedState(p)[i].value)
    {
      ReadSlot(PreparedState(p), i);
    }
  }

  lemma PreparedSlots(p: Prepared)
    ensures var s := PreparedState(p);
            && |s| == 17
            && s[0] == Field(Ascii("contract_version"), Str(CONTRACT_VERSION))
            && s[1] == Field(Ascii("phase"), Str(Ascii("prepared")))
            && s[2] == Field(Ascii("scenario_hash"), Str(p.scenarioHash))
            && s[11] == Field(Ascii("revision_id"), Str(p.revisionId))
            && s[12] == Field(Ascii("revision_hash"), Str(p.revisionHash))
            && s[15] == Field(Ascii("head_hash"), Str(p.headHash))
            && s[4] == Field(Ascii("stable_key"), Str(p.stableKey))
            && s[13] == Field(Ascii("head_id"), Str(p.headId))
            && s[14] == Field(Ascii("head_generation"), Int(p.generation))
  {
    hide Ascii;
  }

  lemma ReadSlot(fields: Fields, i: nat)
    requires DistinctKeys(KeyOf, fields) && i < |fields| && (fields[i].value.Str? || fields[i].value.Int?)
    ensures Get(SortedFields(fields), fields[i].key) == Some(fields[i].value)
  {
    hide Sort, SortValues, Get;
    GetDistinct(fields, i);
    GetSorted(fields, fields[i].key);
  }

  /** Reading a dict after several assignments: the last one to the key, or what was there. */
  lemma {:induction false} GetPutAll(fields: Fields, updates: Fields, k: Text)
    requires DistinctKeys(KeyOf, fields) && DistinctKeys(KeyOf, updates)
    ensures Get(PutAll(fields, updates), k) == if Get(updates, k).Some? then Get(updates, k) else Get(fields, k)
    ensures DistinctKeys(KeyOf, PutAll(fields, updates))
    decreases |updates|
  {
    hide Get, Put;
    if updates != [] {
      var u := updates[0];
      GetPut(fields, u.key, u.value, k);
      GetPutAll(Put(fields, u.key, u.value), updates[1..], k);
      GetCons(updates, k);
    } else {
      GetMember(updates, k);
    }
  }

  lemma GetCons(fields: Fields, k: Text)
    requires fields != [] && DistinctKeys(KeyOf, fields)
    ensures Get(fields, k) == if fields[0].key == k then Some(fields[0].value) else Get(fields[1..], k)
    ensures fields[0].key == k ==> Get(fields[1..], k).None?
  {
    hide Get;
    GetMember(fields[1..], k);
    GetMember(fields, k);
    GetDistinct(fields, 0);
    forall i | 0 <= i < |fields[1..]| ensures fields[1..][i].key != fields[0].key {
      assert KeyOf(fields[0]) != KeyOf(fields[i + 1]);
    }
    if fields[0].key != k && Get(fields[1..], k).Some? {
      var i :| 0 <= i < |fields[1..]| && fields[1..][i] == Field(k, Get(fields[1..], k).value);
      GetDistinct(fields, i + 1);
    }
  }

  lemma {:induction false} PutAllClean(fields: Fields, updates: Fields)
    requires Clean(Obj(fields)) && forall i :: 0 <= i < |updates| ==> NoSplit(updates[i].key) && Clean(updates[i].value)
    ensures Clean(Obj(PutAll(fields, updates)))
    decreases |updates|
  {
    hide Clean, NoSplit, Put;
    if updates != [] {
      PutClean(fields, updates[0].key, updates[0].value);
      PutAllClean(Put(fields, updates[0].key, updates[0].value), updates[1..]);
    }
  }

  lemma PutClean(fields: Fields, key: Text, value: JsonValues.Json)
    requires Clean(Obj(fields)) && NoSplit(key) && Clean(value)
    ensures Clean(Obj(Put(fields, key, value)))
  {
    hide Tokens, Dicts, Everywhere, NoSplit;
    PutDicts(NoSplit, fields, key, value);
  }

  lemma SortedClean(fields: Fields)
    requires Clean(Obj(fields))
    ensures Clean(Obj(SortedFields(fields)))
  {
    SortKeysKeeps(NoSplit, Obj(fields));
    assert SortKeys(Obj(fields)) == Obj(SortedFields(fields));
    hide SortKeys, Tokens, Dicts, Everywhere, SortedFields;
  }

  // ----- the completed receipt

  lemma UpdatesShape(h: Host, state: Fields, seen: seq<JsonValues.Json>)
    requires CompletionUpdates(h, state, seen).Some?
    ensures |seen| == 8 && RestartUse(h, state, seen).Some? && RetiredReceipt(Dict(seen, 5)).Some?
    ensures var u := CompletionUpdates(h, state, seen).value; var receipt := RetiredReceipt(Dict(seen, 5)).value;
            && Require(Get(receipt, Ascii("receipt_id"))).Some?
            && u == [
              Field(Ascii("phase"), Str(Ascii("complete"))),
              Field(Ascii("restart_use"), Obj(UseDict(h, RestartUse(h, state, seen).value, Dict(seen, 3), Dict(seen, 4)))),
              Field(Ascii("lifecycle_receipt_id"), Require(Get(receipt, Ascii("receipt_id"))).value),
              Field(Ascii("lifecycle_receipt_hash"), Str(Hash(h, Obj(receipt)))),
              Field(Ascii("retired_head_hash"), Str(Hash(h, Obj(Dict(seen, 6))))),
              Field(Ascii("post_retirement_failure"), seen[7]) ]
  {
    hide Ascii, RestartUse, RetiredReceipt, Get, Require, UseDict, Hash, ProvesIneligibility, Dict;
  }

  lemma UpdatesDistinct(h: Host, state: Fields, seen: seq<JsonValues.Json>)
    requires CompletionUpdates(h, state, seen).Some?
    ensures DistinctKeys(KeyOf, CompletionUpdates(h, state, seen).value)
  {
    hide CompletionUpdates, RestartUse, RetiredReceipt, Get, Require, UseDict, Hash, ProvesIneligibility, Dict, DistinctKeys;
    UpdatesShape(h, state, seen);
    MarksDistinct(CompletionUpdates(h, state, seen).value);
  }

  /** The keys a completed receipt may have that its prepared receipt did not carry in the same form. */
  function CompletionKeys(): set<Text> {
    { Ascii("phase"), Ascii("restart_use"), Ascii("lifecycle_receipt_id"), Ascii("lifecycle_receipt_hash"),
      Ascii("retired_head_hash"), Ascii("post_retirement_failure") }
  }

  lemma CompletedReads(h: Host, state: Fields, seen: seq<JsonValues.Json>)
    requires CompletionUpdates(h, state, seen).Some? && DistinctKeys(KeyOf, state)
    ensures var c := PutAll(state, CompletionUpdates(h, state, seen).value);
            && DistinctKeys(KeyOf, c)
            && Get(c, Ascii("phase")) == Some(Str(Ascii("complete")))
            && (forall k :: k !in CompletionKeys() ==> Get(c, k) == Get(state, k))
  {
    hide CompletionUpdates, RestartUse, RetiredReceipt, Get, Require, UseDict, Hash, ProvesIneligibility, Dict, DistinctKeys,
      Ascii, PutAll;
    var u := CompletionUpdates(h, state, seen).value;
    UpdatesShape(h, state, seen);
    UpdatesDistinct(h, state, seen);
    GetPutAll(state, u, Ascii("phase"));
    GetDistinct(u, 0);
    forall k | k !in CompletionKeys() ensures Get(PutAll(state, u), k) == Get(state, k) {
      GetPutAll(state, u, k);
      GetMember(u, k);
    }
  }

  lemma CompletedClean(h: Host, state: Fields, seen: seq<JsonValues.Json>)
    requires CompletionUpdates(h, state, seen).Some? && Clean(Obj(state))
    requires forall i :: 0 <= i < |seen| ==> Clean(seen[i])
    ensures Clean(Obj(PutAll(state, CompletionUpdates(h, state, seen).value)))
  {
    hide *;
    var u := CompletionUpdates(h, state, seen).value;
    UpdatesShape(h, state, seen);
    forall k ensures Clean(Obj(Dict(seen, k))) { DictClean(seen, k); }
    RestartClean(h, state, seen);
    UseDictClean(h, RestartUse(h, state, seen).value, Dict(seen, 3), Dict(seen, 4));
    RetiredClean(Dict(seen, 5));
    var receipt := RetiredReceipt(Dict(seen, 5)).value;
    RequireClean(receipt, Ascii("receipt_id"));
    HashClean(h, Obj(receipt));
    HashClean(h, Obj(Dict(seen, 6)));
    AsciiNoSplit("complete");
    CleanStr(Ascii("complete"));
    forall i | 0 <= i < |u| ensures NoSplit(u[i].key) {
      UpdateKeyPlain(u[i].key);
    }
    PutAllClean(state, u);
  }

  lemma UpdateKeyPlain(key: Text)
    requires key in {Ascii("phase"), Ascii("restart_use"), Ascii("lifecycle_receipt_id"), Ascii("lifecycle_receipt_hash"),
      Ascii("retired_head_hash"), Ascii("post_retirement_failure")}
    ensures NoSplit(key)
  {
    hide Ascii;
    PlainNoSplit(key);
  }

  lemma RestartClean(h: Host, state: Fields, seen: seq<JsonValues.Json>)
    requires RestartUse(h, state, seen).Some? && Clean(Obj(Dict(seen, 2)))
    ensures CleanAttribution(RestartUse(h, state, seen).value)
  {
    hide Clean, UseAttribution, CleanAttribution, StateText;
    AttributionClean(h, Dict(seen, 2), StateText(h, state, "revision_id").value);
  }

  lemma RetiredClean(lifecycle: Fields)
    requires RetiredReceipt(lifecycle).Some? && Clean(Obj(lifecycle))
    ensures Clean(Obj(RetiredReceipt(lifecycle).value))
  {
    hide Clean, SubObject, Get, Ascii;
    SubObjectClean(lifecycle, Ascii("lifecycle_receipt"));
  }
}
