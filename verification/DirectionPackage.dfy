/**
  The self-identifying direction package: field checks, the normalised time, and an
  identity computed from the package's own material.
 */
module DirectionPackage {
  import opened Options
  import opened Texts
  import opened Sorting
  import opened JsonValues
  import opened JsonPrinter
  import opened JsonIdentity
  import opened Addresses

  datatype Reference = Reference(id: PlainText, digest: PlainText, contract: PlainText)

  datatype Claim = Claim(claimId: PlainText, statement: PlainText, citations: seq<Reference>,
                         approvalRef: PlainText, limitations: seq<PlainText>)

  /** The fields the identity covers; prepared_at is an instant once normalised. */
  datatype Content = Content(productId: PlainText, sourceBrief: Reference, decision: Reference, objective: PlainText,
                             audience: seq<PlainText>, storyArchitecture: seq<PlainText>,
                             contentHierarchy: seq<PlainText>, approvedClaims: seq<Claim>,
                             constraints: seq<PlainText>, openQuestions: seq<PlainText>,
                             requiredAssets: seq<PlainText>)

  datatype Package = Package(content: Content, preparedAt: Stamp, packageId: Option<Text>, packageDigest: Option<Text>)

  /** What other packages provide: the check of a reference, the time's JSON text and the hash. */
  datatype Host = Host(reference: Reference -> bool, isoText: int -> PlainText, hexDigest: Text -> Text)

  const VERSION: PlainText := Ascii("ace.market-intelligence.direction-package/v1alpha1")
  const BRIEF: PlainText := Ascii("ace.intelligence.brief/v1alpha1")
  const DECISION: PlainText := Ascii("ace.core.decision/v1alpha1")
  const ID_PREFIX: Text := Ascii("market_direction_package:")
  const DIGEST_PREFIX: Text := Ascii("sha256:")

  // ----- text checks

  predicate Bounded(value: Text, maximum: nat) {
    value != [] && value == Strip(value) && |value| <= maximum
  }

  predicate Unique(values: seq<PlainText>) {
    (forall i :: 0 <= i < |values| ==> Bounded(values[i], 4_000)) && |values| == |Elements(values)|
  }

  predicate Section(values: seq<PlainText>, minimum: nat, maximum: nat) {
    minimum <= |values| <= maximum && Unique(values)
  }

  predicate ClaimOk(host: Host, c: Claim) {
    && Bounded(c.claimId, 240) && Bounded(c.statement, 4_000) && Bounded(c.approvalRef, 240)
    && 1 <= |c.citations| <= 32 && (forall i :: 0 <= i < |c.citations| ==> host.reference(c.citations[i]))
    && Section(c.limitations, 0, 16)
    && |c.citations| == |Elements(c.citations)|
  }

  function ClaimIds(claims: seq<Claim>): (r: seq<PlainText>)
    ensures |r| == |claims| && forall i :: 0 <= i < |claims| ==> r[i] == claims[i].claimId
  {
    seq(|claims|, i requires 0 <= i < |claims| => claims[i].claimId)
  }

  predicate ContentOk(host: Host, c: Content) {
    && Bounded(c.productId, 240) && Bounded(c.objective, 4_000)
    && host.reference(c.sourceBrief) && host.reference(c.decision)
    && Section(c.audience, 1, 16) && Section(c.storyArchitecture, 1, 16) && Section(c.contentHierarchy, 1, 32)
    && Section(c.constraints, 1, 32) && Section(c.openQuestions, 0, 32) && Section(c.requiredAssets, 1, 32)
    && 1 <= |c.approvedClaims| <= 64
    && (forall i :: 0 <= i < |c.approvedClaims| ==> ClaimOk(host, c.approvedClaims[i]))
    && c.sourceBrief.contract == BRIEF && c.decision.contract == DECISION
    && |ClaimIds(c.approvedClaims)| == |Elements(ClaimIds(c.approvedClaims))|
  }

  // ----- identity

  function TextsJson(ts: seq<PlainText>): Json {
    Arr(seq(|ts|, i requires 0 <= i < |ts| => Str(ts[i])))
  }

  function ReferenceJson(r: Reference): Json {
    Obj([Field(Ascii("artifact_id"), Str(r.id)), Field(Ascii("artifact_digest"), Str(r.digest)),
         Field(Ascii("artifact_contract"), Str(r.contract))])
  }

  function ReferencesJson(rs: seq<Reference>): Json {
    Arr(seq(|rs|, i requires 0 <= i < |rs| => ReferenceJson(rs[i])))
  }

  function ClaimJson(c: Claim): Json {
    Obj([Field(Ascii("claim_id"), Str(c.claimId)), Field(Ascii("statement"), Str(c.statement)),
         Field(Ascii("citations"), ReferencesJson(c.citations)), Field(Ascii("approval_ref"), Str(c.approvalRef)),
         Field(Ascii("limitations"), TextsJson(c.limitations)), Field(Ascii("status"), Str(Ascii("approved")))])
  }

  function ClaimsJson(cs: seq<Claim>): Json {
    Arr(seq(|cs|, i requires 0 <= i < |cs| => ClaimJson(cs[i])))
  }

  /** model_dump(mode="json") without the two identity fields, in two parts. */
  function SourceFields(c: Content): Fields {
    [Field(Ascii("contract"), Str(VERSION)), Field(Ascii("product_id"), Str(c.productId)),
     Field(Ascii("source_brief"), ReferenceJson(c.sourceBrief)), Field(Ascii("decision"), ReferenceJson(c.decision)),
     Field(Ascii("objective"), Str(c.objective)), Field(Ascii("audience"), TextsJson(c.audience)),
     Field(Ascii("story_architecture"), TextsJson(c.storyArchitecture)),
     Field(Ascii("content_hierarchy"), TextsJson(c.contentHierarchy))]
  }

  function DirectionFields(host: Host, c: Content, instant: int): Fields {
    [Field(Ascii("approved_claims"), ClaimsJson(c.approvedClaims)), Field(Ascii("constraints"), TextsJson(c.constraints)),
     Field(Ascii("open_questions"), TextsJson(c.openQuestions)),
     Field(Ascii("required_assets"), TextsJson(c.requiredAssets)),
     Field(Ascii("delivery_authority"), Bool(false)), Field(Ascii("external_effect_occurred"), Bool(false)),
     Field(Ascii("prepared_at"), Str(host.isoText(instant)))]
  }

  function MaterialJson(host: Host, c: Content, instant: int): Json {
    Obj(SourceFields(c) + DirectionFields(host, c, instant))
  }

  function Digest(host: Host, c: Content, instant: int): Text {
    host.hexDigest(Canonical(MaterialJson(host, c, instant)))
  }

  function ExpectedId(digest: Text): Text {
    ID_PREFIX + if |digest| <= 32 then digest else digest[..32]
  }

  function ExpectedDigest(digest: Text): Text {
    DIGEST_PREFIX + digest
  }

  predicate LowerHex(t: Text) {
    |t| == 64 && forall i :: 0 <= i < 64 ==> Digit(t[i]) || 0x61 <= t[i] <= 0x66
  }

  /** The pattern ^sha256:[a-f0-9]{64}$ on a supplied digest. */
  predicate DigestPattern(t: Text) {
    |t| == 71 && t[..7] == DIGEST_PREFIX && LowerHex(t[7..])
  }

  /** model_validate: the package as validation leaves it, or nothing. */
  function Validate(host: Host, p: Package): Option<Package> {
    if p.packageDigest.Some? && !DigestPattern(p.packageDigest.value) then None
    else if !ContentOk(host, p.content) then None
    else
      var instant :- UtcOf(p.preparedAt);
      var digest := Digest(host, p.content, instant);
      if p.packageId.Some? && p.packageId.value != ExpectedId(digest) then None
      else if p.packageDigest.Some? && p.packageDigest.value != ExpectedDigest(digest) then None
      else Some(Package(p.content, Aware(instant, 0), Some(ExpectedId(digest)), Some(ExpectedDigest(digest))))
  }

  /** prepare_market_direction_delivery up to the reference it wraps: revalidated, then identified. */
  function PreparedReference(host: Host, p: Package, target: Text): Option<(Text, Text)> {
    var exact :- Validate(host, p);
    if Bounded(target, 240) then Some((exact.packageId.value, exact.packageDigest.value)) else None
  }

  // ----- what the checks mean

  lemma {:induction false} DropWhiteFixed(t: Text)
    ensures if t != [] && White(t[0]) then |DropWhite(t)| < |t| else DropWhite(t) == t
  {
    if t != [] && White(t[0]) { DropWhiteFixed(t[1..]); }
  }

  lemma {:induction false} DropWhiteEndFixed(t: Text)
    ensures if t != [] && White(t[|t| - 1]) then |DropWhiteEnd(t)| < |t| else DropWhiteEnd(t) == t
  {
    if t != [] && White(t[|t| - 1]) { DropWhiteEndFixed(t[..|t| - 1]); }
  }

  /** Trimmed text is text that neither begins nor ends with white space. */
  lemma BoundedExactly(t: Text, maximum: nat)
    ensures Bounded(t, maximum) <==> 0 < |t| <= maximum && !White(t[0]) && !White(t[|t| - 1])
  {
    DropWhiteFixed(t);
    DropWhiteEndFixed(t);
    DropWhiteEndFixed(DropWhite(t));
    hide White, DropWhite, DropWhiteEnd;
  }

  ghost predicate ClaimDistinct(c: Claim) {
    Distinct(c.citations) && Distinct(c.limitations)
  }

  ghost predicate ContentDistinct(c: Content) {
    && Distinct(c.audience) && Distinct(c.storyArchitecture) && Distinct(c.contentHierarchy)
    && Distinct(c.constraints) && Distinct(c.openQuestions) && Distinct(c.requiredAssets)
    && (forall i :: 0 <= i < |c.approvedClaims| ==> ClaimDistinct(c.approvedClaims[i]))
    && forall i, j :: 0 <= i < j < |c.approvedClaims| ==> c.approvedClaims[i].claimId != c.approvedClaims[j].claimId
  }

  lemma UniqueExactly(values: seq<PlainText>)
    ensures Unique(values) <==> Distinct(values) && forall i :: 0 <= i < |values| ==> Bounded(values[i], 4_000)
  {
    DistinctBySize(values);
  }

  lemma ClaimIdsDistinct(claims: seq<Claim>)
    ensures |ClaimIds(claims)| == |Elements(ClaimIds(claims))| <==>
            forall i, j :: 0 <= i < j < |claims| ==> claims[i].claimId != claims[j].claimId
  {
    var ids := ClaimIds(claims);
    DistinctBySize(ids);
    assert Distinct(ids) <==> forall i, j :: 0 <= i < j < |ids| ==> ids[i] != ids[j];
    hide ClaimIds;
  }

  // the checks without the size comparisons

  predicate Sized(values: seq<PlainText>, minimum: nat, maximum: nat) {
    minimum <= |values| <= maximum && forall i :: 0 <= i < |values| ==> Bounded(values[i], 4_000)
  }

  predicate ClaimShape(host: Host, c: Claim) {
    && Bounded(c.claimId, 240) && Bounded(c.statement, 4_000) && Bounded(c.approvalRef, 240)
    && 1 <= |c.citations| <= 32 && (forall i :: 0 <= i < |c.citations| ==> host.reference(c.citations[i]))
    && Sized(c.limitations, 0, 16)
  }

  predicate ContentShape(host: Host, c: Content) {
    && Bounded(c.productId, 240) && Bounded(c.objective, 4_000)
    && host.reference(c.sourceBrief) && host.reference(c.decision)
    && Sized(c.audience, 1, 16) && Sized(c.storyArchitecture, 1, 16) && Sized(c.contentHierarchy, 1, 32)
    && Sized(c.constraints, 1, 32) && Sized(c.openQuestions, 0, 32) && Sized(c.requiredAssets, 1, 32)
    && 1 <= |c.approvedClaims| <= 64
    && (forall i :: 0 <= i < |c.approvedClaims| ==> ClaimShape(host, c.approvedClaims[i]))
    && c.sourceBrief.contract == BRIEF && c.decision.contract == DECISION
  }

  lemma SectionExactly(values: seq<PlainText>, minimum: nat, maximum: nat)
    ensures Section(values, minimum, maximum) <==> Sized(values, minimum, maximum) && Distinct(values)
  {
    UniqueExactly(values);
    hide Unique, Bounded, Distinct;
  }

  lemma ClaimExactly(host: Host, c: Claim)
    ensures ClaimOk(host, c) <==> ClaimShape(host, c) && ClaimDistinct(c)
  {
    SectionExactly(c.limitations, 0, 16);
    DistinctBySize(c.citations);
    hide Section, Sized, Bounded, Distinct, Elements;
  }

  /** The length-against-set tests hold exactly when sections, claims and citations are pairwise distinct. */
  lemma ContentExactly(host: Host, c: Content)
    ensures ContentOk(host, c) <==> ContentShape(host, c) && ContentDistinct(c)
  {
    SectionExactly(c.audience, 1, 16);
    SectionExactly(c.storyArchitecture, 1, 16);
    SectionExactly(c.contentHierarchy, 1, 32);
    SectionExactly(c.constraints, 1, 32);
    SectionExactly(c.openQuestions, 0, 32);
    SectionExactly(c.requiredAssets, 1, 32);
    ClaimIdsDistinct(c.approvedClaims);
    forall i | 0 <= i < |c.approvedClaims|
      ensures ClaimOk(host, c.approvedClaims[i])
              <==> ClaimShape(host, c.approvedClaims[i]) && ClaimDistinct(c.approvedClaims[i])
    {
      ClaimExactly(host, c.approvedClaims[i]);
    }
    hide Section, Sized, Bounded, Elements, ClaimIds, Distinct, ClaimOk, ClaimShape, ClaimDistinct, BRIEF, DECISION;
  }

  // ----- the material's text identifies the content

  /** Objects with the same keys in the same order, at every depth both have. */
  ghost predicate Aligned(v: Json, w: Json)
    decreases v
  {
    match (v, w)
    case (Arr(xs), Arr(ys)) => |xs| == |ys| ==> forall i :: 0 <= i < |xs| ==> Aligned(xs[i], ys[i])
    case (Obj(fs), Obj(gs)) =>
      |fs| == |gs| && forall i :: 0 <= i < |fs| ==> fs[i].key == gs[i].key && Aligned(fs[i].value, gs[i].value)
    case _ => true
  }

  /** For aligned values with distinct keys, equality up to member order is equality. */
  lemma {:induction false} AlignedSame(v: Json, w: Json)
    requires Aligned(v, w) && Dicts(v) && Dicts(w) && Same(v, w)
    ensures v == w
    decreases v
  {
    match (v, w)
    case (Arr(xs), Arr(ys)) =>
      forall i | 0 <= i < |xs| ensures xs[i] == ys[i] { AlignedSame(xs[i], ys[i]); }
    case (Obj(fs), Obj(gs)) =>
      forall i | 0 <= i < |fs| ensures fs[i] == gs[i] {
        assert SameMember(fs[i], gs);
        var j :| 0 <= j < |gs| && fs[i].key == gs[j].key && Same(fs[i].value, gs[j].value);
        DistinctAt(gs, i, j);
        AlignedSame(fs[i].value, gs[i].value);
      }
    case _ =>
  }

  lemma DistinctAt(fields: Fields, i: nat, j: nat)
    requires DistinctKeys(KeyOf, fields) && i < |fields| && j < |fields| && fields[i].key == fields[j].key
    ensures i == j
  {
    assert KeyOf(fields[i]) == KeyOf(fields[j]);
  }

  /** Keys told apart by length and first letter. */
  function Tag(key: Text): int {
    if key == [] then 0 else 256 * |key| + key[0] as int
  }

  lemma TagsTellApart(fields: Fields, tags: seq<int>)
    requires |tags| == |fields| && forall i :: 0 <= i < |fields| ==> Tag(fields[i].key) == tags[i]
    requires Distinct(tags)
    ensures DistinctKeys(KeyOf, fields)
  {
    forall i, j | 0 <= i < j < |fields| ensures KeyOf(fields[i]) != KeyOf(fields[j]) {
      assert tags[i] != tags[j];
    }
  }

  ghost predicate FieldsClean(fields: Fields) {
    forall i :: 0 <= i < |fields| ==> NoSurrogate(fields[i].key) && Clean(fields[i].value)
  }

  lemma ObjectClean(fields: Fields)
    requires DistinctKeys(KeyOf, fields) && FieldsClean(fields)
    ensures Clean(Obj(fields))
  {
    forall i | 0 <= i < |fields|
      ensures NoSplit(fields[i].key) && Tokens(fields[i].value) && Dicts(fields[i].value)
              && Everywhere(NoSplit, fields[i].value)
    {
      PlainNoSplit(fields[i].key);
    }
    hide NoSplit, NoSurrogate, DistinctKeys;
  }

  lemma TextClean(t: PlainText)
    ensures Clean(Str(t))
  {
    PlainNoSplit(t);
  }

  lemma ArrayClean(items: seq<Json>)
    requires forall i :: 0 <= i < |items| ==> Clean(items[i])
    ensures Clean(Arr(items))
  {
  }

  lemma TextsClean(ts: seq<PlainText>)
    ensures Clean(TextsJson(ts))
  {
    var v := TextsJson(ts);
    hide Clean;
    forall i | 0 <= i < |ts| ensures Clean(v.items[i]) { TextClean(ts[i]); }
    ArrayClean(v.items);
  }

  lemma ReferenceClean(r: Reference)
    ensures Clean(ReferenceJson(r))
  {
    var fields := ReferenceJson(r).fields;
    TagsTellApart(fields, [2913, 3937, 4449]);
    TextClean(r.id);
    TextClean(r.digest);
    TextClean(r.contract);
    hide Clean, DistinctKeys;
    ObjectClean(fields);
  }

  lemma ReferencesClean(rs: seq<Reference>)
    ensures Clean(ReferencesJson(rs))
  {
    var v := ReferencesJson(rs);
    forall i | 0 <= i < |rs| ensures Clean(v.items[i]) { ReferenceClean(rs[i]); }
    hide Clean, ReferenceJson;
    ArrayClean(v.items);
  }

  lemma ClaimClean(c: Claim)
    ensures Clean(ClaimJson(c))
  {
    ClaimKeys(c);
    var fields := ClaimJson(c).fields;
    assert ClaimJson(c) == Obj(fields);
    assert NoSurrogate(fields[0].key) && NoSurrogate(fields[1].key) && NoSurrogate(fields[2].key)
           && NoSurrogate(fields[3].key) && NoSurrogate(fields[4].key) && NoSurrogate(fields[5].key);
    hide Clean, DistinctKeys, ReferencesJson, TextsJson, Ascii, NoSurrogate;
    TextClean(c.claimId);
    TextClean(c.statement);
    ReferencesClean(c.citations);
    TextClean(c.approvalRef);
    TextsClean(c.limitations);
    TextClean(Ascii("approved"));
    assert FieldsClean(fields);
    hide ClaimJson, FieldsClean;
    ObjectClean(fields);
  }

  lemma ClaimKeys(c: Claim)
    ensures DistinctKeys(KeyOf, ClaimJson(c).fields)
  {
    hide ReferencesJson, TextsJson, DistinctKeys;
    TagsTellApart(ClaimJson(c).fields, [2147, 2419, 2403, 3169, 2924, 1651]);
  }

  lemma ClaimsClean(cs: seq<Claim>)
    ensures Clean(ClaimsJson(cs))
  {
    var v := ClaimsJson(cs);
    forall i | 0 <= i < |cs| ensures Clean(v.items[i]) { ClaimClean(cs[i]); }
    hide Clean, ClaimJson;
    ArrayClean(v.items);
  }

  lemma SourceClean(c: Content)
    ensures FieldsClean(SourceFields(c))
  {
    TextClean(VERSION);
    TextClean(c.productId);
    ReferenceClean(c.sourceBrief);
    ReferenceClean(c.decision);
    TextClean(c.objective);
    TextsClean(c.audience);
    TextsClean(c.storyArchitecture);
    TextsClean(c.contentHierarchy);
    var fields := SourceFields(c);
    assert NoSurrogate(fields[0].key) && NoSurrogate(fields[1].key) && NoSurrogate(fields[2].key)
           && NoSurrogate(fields[3].key) && NoSurrogate(fields[4].key) && NoSurrogate(fields[5].key)
           && NoSurrogate(fields[6].key) && NoSurrogate(fields[7].key);
    hide Clean, VERSION, ReferenceJson, TextsJson, Ascii, NoSurrogate;
  }

  lemma DirectionClean(host: Host, c: Content, instant: int)
    ensures FieldsClean(DirectionFields(host, c, instant))
  {
    ClaimsClean(c.approvedClaims);
    TextsClean(c.constraints);
    TextsClean(c.openQuestions);
    TextsClean(c.requiredAssets);
    assert Clean(Bool(false));
    TextClean(host.isoText(instant));
    var fields := DirectionFields(host, c, instant);
    assert NoSurrogate(fields[0].key) && NoSurrogate(fields[1].key) && NoSurrogate(fields[2].key)
           && NoSurrogate(fields[3].key) && NoSurrogate(fields[4].key) && NoSurrogate(fields[5].key)
           && NoSurrogate(fields[6].key);
    hide Clean, ClaimsJson, TextsJson, Ascii, NoSurrogate;
  }

  /** The material is a dict the canonical text identifies. */
  lemma MaterialClean(host: Host, c: Content, instant: int)
    ensures Clean(MaterialJson(host, c, instant))
  {
    hide Clean, SourceFields, DirectionFields, DistinctKeys;
    SourceClean(c);
    DirectionClean(host, c, instant);
    MaterialKeys(host, c, instant);
    ObjectClean(SourceFields(c) + DirectionFields(host, c, instant));
  }

  const SOURCE_TAGS: seq<int> := [2147, 2672, 3187, 2148, 2415, 2145, 4723, 4451]
  const DIRECTION_TAGS: seq<int> := [3937, 2915, 3695, 3954, 4708, 6245, 2928]

  ghost predicate Tagged(fields: Fields, tags: seq<int>) {
    |tags| == |fields| && forall i :: 0 <= i < |fields| ==> Tag(fields[i].key) == tags[i]
  }

  lemma SourceTagged(c: Content)
    ensures Tagged(SourceFields(c), SOURCE_TAGS)
  {
    hide ReferenceJson, TextsJson, VERSION;
  }

  lemma DirectionTagged(host: Host, c: Content, instant: int)
    ensures Tagged(DirectionFields(host, c, instant), DIRECTION_TAGS)
  {
    hide ClaimsJson, TextsJson;
  }

  lemma TagsDistinct()
    ensures Distinct(SOURCE_TAGS + DIRECTION_TAGS)
  {
    assert Distinct(SOURCE_TAGS) && Distinct(DIRECTION_TAGS);
    assert forall i, j :: 0 <= i < |SOURCE_TAGS| && 0 <= j < |DIRECTION_TAGS| ==> SOURCE_TAGS[i] != DIRECTION_TAGS[j];
    hide SOURCE_TAGS, DIRECTION_TAGS;
  }

  lemma MaterialKeys(host: Host, c: Content, instant: int)
    ensures DistinctKeys(KeyOf, SourceFields(c) + DirectionFields(host, c, instant))
  {
    hide *;
    SourceTagged(c);
    DirectionTagged(host, c, instant);
    TagsDistinct();
    TaggedJoin(SourceFields(c), SOURCE_TAGS, DirectionFields(host, c, instant), DIRECTION_TAGS);
  }

  lemma TaggedJoin(fs: Fields, a: seq<int>, gs: Fields, b: seq<int>)
    requires Tagged(fs, a) && Tagged(gs, b) && Distinct(a + b)
    ensures DistinctKeys(KeyOf, fs + gs)
  {
    hide Tag, Distinct, DistinctKeys;
    TagsTellApart(fs + gs, a + b);
  }

  // alignment

  lemma TextsAligned(a: seq<PlainText>, b: seq<PlainText>)
    ensures Aligned(TextsJson(a), TextsJson(b))
    ensures TextsJson(a) == TextsJson(b) ==> a == b
  {
    var v, w := TextsJson(a), TextsJson(b);
    if v == w {
      assert |a| == |v.items| && |b| == |w.items|;
      forall i | 0 <= i < |a| ensures a[i] == b[i] { assert v.items[i] == w.items[i]; }
    }
  }

  lemma ReferenceAligned(a: Reference, b: Reference)
    ensures Aligned(ReferenceJson(a), ReferenceJson(b))
    ensures ReferenceJson(a) == ReferenceJson(b) ==> a == b
  {
    var fs, gs := ReferenceJson(a).fields, ReferenceJson(b).fields;
    assert fs == gs ==> fs[0] == gs[0] && fs[1] == gs[1] && fs[2] == gs[2];
  }

  lemma ReferencesAligned(a: seq<Reference>, b: seq<Reference>)
    ensures Aligned(ReferencesJson(a), ReferencesJson(b))
    ensures ReferencesJson(a) == ReferencesJson(b) ==> a == b
  {
    var v, w := ReferencesJson(a), ReferencesJson(b);
    forall i | 0 <= i < |a| && i < |b|
      ensures Aligned(v.items[i], w.items[i]) && (v.items[i] == w.items[i] ==> a[i] == b[i])
    {
      ReferenceAligned(a[i], b[i]);
    }
    hide ReferenceJson;
    if v == w {
      assert |a| == |v.items| && |b| == |w.items|;
    }
  }

  lemma ClaimAligned(a: Claim, b: Claim)
    ensures Aligned(ClaimJson(a), ClaimJson(b))
    ensures ClaimJson(a) == ClaimJson(b) ==> a == b
  {
    ReferencesAligned(a.citations, b.citations);
    TextsAligned(a.limitations, b.limitations);
    if ClaimJson(a) == ClaimJson(b) {
      ClaimInjective(a, b);
    }
    hide ReferencesJson, TextsJson, Ascii;
  }

  lemma ClaimInjective(a: Claim, b: Claim)
    requires ClaimJson(a) == ClaimJson(b)
    ensures a == b
  {
    var fs, gs := ClaimJson(a).fields, ClaimJson(b).fields;
    assert fs[0] == gs[0] && fs[1] == gs[1] && fs[2] == gs[2] && fs[3] == gs[3] && fs[4] == gs[4];
    hide ReferencesJson, TextsJson, Ascii, Aligned;
    ReferencesAligned(a.citations, b.citations);
    TextsAligned(a.limitations, b.limitations);
  }

  lemma ClaimsAligned(a: seq<Claim>, b: seq<Claim>)
    ensures Aligned(ClaimsJson(a), ClaimsJson(b))
    ensures ClaimsJson(a) == ClaimsJson(b) ==> a == b
  {
    var v, w := ClaimsJson(a), ClaimsJson(b);
    forall i | 0 <= i < |a| && i < |b|
      ensures Aligned(v.items[i], w.items[i]) && (v.items[i] == w.items[i] ==> a[i] == b[i])
    {
      ClaimAligned(a[i], b[i]);
    }
    hide ClaimJson;
    if v == w {
      assert |a| == |v.items| && |b| == |w.items|;
    }
  }

  ghost predicate FieldsAligned(fs: Fields, gs: Fields) {
    |fs| == |gs| && forall i :: 0 <= i < |fs| ==> fs[i].key == gs[i].key && Aligned(fs[i].value, gs[i].value)
  }

  lemma SourceAligned(a: Content, b: Content)
    ensures FieldsAligned(SourceFields(a), SourceFields(b))
  {
    ReferenceAligned(a.sourceBrief, b.sourceBrief);
    ReferenceAligned(a.decision, b.decision);
    TextsAligned(a.audience, b.audience);
    TextsAligned(a.storyArchitecture, b.storyArchitecture);
    TextsAligned(a.contentHierarchy, b.contentHierarchy);
    hide ReferenceJson, TextsJson, Ascii, VERSION;
  }

  lemma DirectionAligned(host: Host, a: Content, m: int, b: Content, n: int)
    ensures FieldsAligned(DirectionFields(host, a, m), DirectionFields(host, b, n))
  {
    ClaimsAligned(a.approvedClaims, b.approvedClaims);
    TextsAligned(a.constraints, b.constraints);
    TextsAligned(a.openQuestions, b.openQuestions);
    TextsAligned(a.requiredAssets, b.requiredAssets);
    hide TextsJson, ClaimsJson, Ascii;
  }

  lemma MaterialAligned(host: Host, a: Content, m: int, b: Content, n: int)
    ensures Aligned(MaterialJson(host, a, m), MaterialJson(host, b, n))
  {
    SourceAligned(a, b);
    DirectionAligned(host, a, m, b, n);
    hide SourceFields, DirectionFields;
  }

  lemma SourceInjective(a: Content, b: Content)
    requires SourceFields(a) == SourceFields(b)
    ensures a.productId == b.productId && a.sourceBrief == b.sourceBrief && a.decision == b.decision
    ensures a.objective == b.objective && a.audience == b.audience
    ensures a.storyArchitecture == b.storyArchitecture && a.contentHierarchy == b.contentHierarchy
  {
    var fs, gs := SourceFields(a), SourceFields(b);
    assert fs[1] == gs[1] && fs[2] == gs[2] && fs[3] == gs[3] && fs[4] == gs[4];
    assert fs[5] == gs[5] && fs[6] == gs[6] && fs[7] == gs[7];
    hide ReferenceJson, TextsJson, Ascii, VERSION;
    ReferenceAligned(a.sourceBrief, b.sourceBrief);
    ReferenceAligned(a.decision, b.decision);
    TextsAligned(a.audience, b.audience);
    TextsAligned(a.storyArchitecture, b.storyArchitecture);
    TextsAligned(a.contentHierarchy, b.contentHierarchy);
  }

  lemma DirectionInjective(host: Host, a: Content, m: int, b: Content, n: int)
    requires DirectionFields(host, a, m) == DirectionFields(host, b, n)
    ensures a.approvedClaims == b.approvedClaims && a.constraints == b.constraints
    ensures a.openQuestions == b.openQuestions && a.requiredAssets == b.requiredAssets
    ensures host.isoText(m) == host.isoText(n)
  {
    var fs, gs := DirectionFields(host, a, m), DirectionFields(host, b, n);
    assert fs[0] == gs[0] && fs[1] == gs[1] && fs[2] == gs[2] && fs[3] == gs[3] && fs[6] == gs[6];
    hide TextsJson, ClaimsJson, Ascii;
    ClaimsAligned(a.approvedClaims, b.approvedClaims);
    TextsAligned(a.constraints, b.constraints);
    TextsAligned(a.openQuestions, b.openQuestions);
    TextsAligned(a.requiredAssets, b.requiredAssets);
  }

  /** The material determines every field and the time's text. */
  lemma MaterialInjective(host: Host, a: Content, m: int, b: Content, n: int)
    requires MaterialJson(host, a, m) == MaterialJson(host, b, n)
    ensures a == b && host.isoText(m) == host.isoText(n)
  {
    var fs, gs := MaterialJson(host, a, m).fields, MaterialJson(host, b, n).fields;
    assert SourceFields(a) == fs[..8] && SourceFields(b) == gs[..8];
    assert DirectionFields(host, a, m) == fs[8..] && DirectionFields(host, b, n) == gs[8..];
    hide SourceFields, DirectionFields, MaterialJson;
    SourceInjective(a, b);
    DirectionInjective(host, a, m, b, n);
  }

  // ----- the identity theorems

  /** The two materials do not collide: not in their hash, and not in the text of their instants. */
  ghost predicate NoCollision(host: Host, a: Content, m: int, b: Content, n: int) {
    var t, u := Canonical(MaterialJson(host, a, m)), Canonical(MaterialJson(host, b, n));
    && (host.hexDigest(t) == host.hexDigest(u) ==> t == u)
    && (host.isoText(m) == host.isoText(n) ==> m == n)
  }

  lemma DigestIdentifies(host: Host, a: Content, m: int, b: Content, n: int)
    requires NoCollision(host, a, m, b, n)
    ensures Digest(host, a, m) == Digest(host, b, n) <==> a == b && m == n
  {
    if Digest(host, a, m) == Digest(host, b, n) {
      var v, w := MaterialJson(host, a, m), MaterialJson(host, b, n);
      assert Canonical(v) == Canonical(w);
      assert host.isoText(m) == host.isoText(n) ==> m == n;
      MaterialClean(host, a, m);
      MaterialClean(host, b, n);
      DocumentClean(v);
      DocumentClean(w);
      hide *;
      CanonicalFaithful(v, w);
      MaterialAligned(host, a, m, b, n);
      AlignedSame(v, w);
      MaterialInjective(host, a, m, b, n);
    }
  }

  /** No collision between two packages whose times are aware. */
  ghost predicate Apart(host: Host, p: Package, q: Package) {
    UtcOf(p.preparedAt).Some? && UtcOf(q.preparedAt).Some? ==>
      NoCollision(host, p.content, UtcOf(p.preparedAt).value, q.content, UtcOf(q.preparedAt).value)
  }

  lemma ApartView(host: Host, p: Package, q: Package)
    requires Apart(host, p, q) && UtcOf(p.preparedAt).Some? && UtcOf(q.preparedAt).Some?
    ensures NoCollision(host, p.content, UtcOf(p.preparedAt).value, q.content, UtcOf(q.preparedAt).value)
  {
    hide NoCollision, UtcOf;
  }

  lemma ValidatedView(host: Host, p: Package)
    requires Validate(host, p).Some?
    ensures ContentOk(host, p.content) && UtcOf(p.preparedAt).Some?
    ensures var d := Digest(host, p.content, UtcOf(p.preparedAt).value);
            && Validate(host, p).value
               == Package(p.content, Aware(UtcOf(p.preparedAt).value, 0), Some(ExpectedId(d)), Some(ExpectedDigest(d)))
            && (p.packageId.Some? ==> p.packageId.value == ExpectedId(d))
            && (p.packageDigest.Some? ==> p.packageDigest.value == ExpectedDigest(d))
  {
    hide ContentOk, Digest, DigestPattern, ExpectedId, ExpectedDigest;
  }

  lemma ExpectedPattern(d: Text)
    ensures LowerHex(d) ==> DigestPattern(ExpectedDigest(d))
  {
    var e := ExpectedDigest(d);
    assert |DIGEST_PREFIX| == 7;
    assert e[..7] == DIGEST_PREFIX && e[7..] == d;
  }

  lemma ExpectedInjective(d: Text, e: Text)
    requires ExpectedDigest(d) == ExpectedDigest(e)
    ensures d == e
  {
    assert |DIGEST_PREFIX| == 7;
    assert ExpectedDigest(d)[7..] == d && ExpectedDigest(e)[7..] == e;
  }

  /** Validation is a fixpoint: a validated package revalidates to itself. */
  lemma ValidatedTwice(host: Host, p: Package)
    requires Validate(host, p).Some? && forall t :: LowerHex(host.hexDigest(t))
    ensures Validate(host, Validate(host, p).value) == Validate(host, p)
  {
    ValidatedView(host, p);
    var n := UtcOf(p.preparedAt).value;
    var d := Digest(host, p.content, n);
    assert LowerHex(d);
    ExpectedPattern(d);
    assert UtcOf(Aware(n, 0)) == Some(n);
    hide ContentOk, Digest, DigestPattern, ExpectedId, ExpectedDigest, LowerHex, UtcOf;
  }

  /** Two validated packages share a digest exactly when they are equal, offsets of their times aside. */
  lemma PackagesIdentify(host: Host, p: Package, q: Package)
    requires Apart(host, p, q) && Validate(host, p).Some? && Validate(host, q).Some?
    ensures Validate(host, p).value.packageDigest == Validate(host, q).value.packageDigest
            <==> p.content == q.content && UtcOf(p.preparedAt) == UtcOf(q.preparedAt)
    ensures Validate(host, p).value.packageDigest == Validate(host, q).value.packageDigest
            <==> Validate(host, p) == Validate(host, q)
  {
    hide *;
    ValidatedView(host, p);
    ValidatedView(host, q);
    var m, n := UtcOf(p.preparedAt).value, UtcOf(q.preparedAt).value;
    var d, e := Digest(host, p.content, m), Digest(host, q.content, n);
    ApartView(host, p, q);
    DigestIdentifies(host, p.content, m, q.content, n);
    if ExpectedDigest(d) == ExpectedDigest(e) {
      ExpectedInjective(d, e);
    }
  }

  /** Whoever changes a field or the instant and keeps the digest is refused. */
  lemma TamperingRefused(host: Host, p: Package, forged: Package)
    requires Apart(host, p, forged) && Validate(host, p).Some?
    requires forged.packageDigest == Validate(host, p).value.packageDigest
    requires forged.content != p.content || UtcOf(forged.preparedAt) != UtcOf(p.preparedAt)
    ensures Validate(host, forged).None?
  {
    hide *;
    ValidatedView(host, p);
    if Validate(host, forged).Some? {
      ValidatedView(host, forged);
      PackagesIdentify(host, p, forged);
    }
  }

  /** What is delivered is the validated package's own identity. */
  lemma DeliveredAsValidated(host: Host, p: Package, target: Text)
    requires Validate(host, p).Some? && forall t :: LowerHex(host.hexDigest(t))
    ensures var q := Validate(host, p).value;
            PreparedReference(host, q, target)
            == if Bounded(target, 240) then Some((q.packageId.value, q.packageDigest.value)) else None
  {
    ValidatedTwice(host, p);
    ValidatedView(host, p);
    hide Validate, Bounded, Digest, UtcOf, LowerHex;
  }
}
