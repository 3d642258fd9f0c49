/** The direction package's rules written out: every bound, the material member by member, and the two identities. */
module DirectionRules {
  import opened Options
  import opened Texts
  import opened JsonValues
  import opened JsonPrinter
  import opened Addresses
  import opened DirectionPackage

  /** What str.strip removes. */
  predicate Space(c: Code) {
    || 9 <= c <= 13 || 28 <= c <= 32 || c == 0x85 || c == 0xA0 || c == 0x1680 || 0x2000 <= c <= 0x200A
    || c == 0x2028 || c == 0x2029 || c == 0x202F || c == 0x205F || c == 0x3000
  }

  predicate Trimmed(t: Text, maximum: nat) {
    0 < |t| <= maximum && !Space(t[0]) && !Space(t[|t| - 1])
  }

  /** Trimmed texts of at most 4000 characters, no two the same. */
  ghost predicate Listing(values: seq<PlainText>, minimum: nat, maximum: nat) {
    && minimum <= |values| <= maximum
    && (forall i :: 0 <= i < |values| ==> Trimmed(values[i], 4000))
    && forall i, j :: 0 <= i < j < |values| ==> values[i] != values[j]
  }

  ghost predicate ClaimRules(host: Host, c: Claim) {
    && Trimmed(c.claimId, 240) && Trimmed(c.statement, 4000) && Trimmed(c.approvalRef, 240)
    && 1 <= |c.citations| <= 32 && (forall i :: 0 <= i < |c.citations| ==> host.reference(c.citations[i]))
    && (forall i, j :: 0 <= i < j < |c.citations| ==> c.citations[i] != c.citations[j])
    && Listing(c.limitations, 0, 16)
  }

  ghost predicate ContentRules(host: Host, c: Content) {
    && Trimmed(c.productId, 240) && Trimmed(c.objective, 4000)
    && host.reference(c.sourceBrief) && c.sourceBrief.contract == Ascii("ace.intelligence.brief/v1alpha1")
    && host.reference(c.decision) && c.decision.contract == Ascii("ace.core.decision/v1alpha1")
    && Listing(c.audience, 1, 16) && Listing(c.storyArchitecture, 1, 16) && Listing(c.contentHierarchy, 1, 32)
    && Listing(c.constraints, 1, 32) && Listing(c.openQuestions, 0, 32) && Listing(c.requiredAssets, 1, 32)
    && 1 <= |c.approvedClaims| <= 64
    && (forall i :: 0 <= i < |c.approvedClaims| ==> ClaimRules(host, c.approvedClaims[i]))
    && forall i, j :: 0 <= i < j < |c.approvedClaims| ==> c.approvedClaims[i].claimId != c.approvedClaims[j].claimId
  }

  lemma TrimmedIs(t: Text, maximum: nat)
    ensures Bounded(t, maximum) <==> Trimmed(t, maximum)
  {
    BoundedExactly(t, maximum);
    hide Bounded;
  }

  lemma ListingIs(values: seq<PlainText>, minimum: nat, maximum: nat)
    ensures Section(values, minimum, maximum) <==> Listing(values, minimum, maximum)
  {
    SectionExactly(values, minimum, maximum);
    hide Section, Bounded, Trimmed;
    forall i | 0 <= i < |values| ensures Bounded(values[i], 4_000) <==> Trimmed(values[i], 4000) { TrimmedIs(values[i], 4000); }
  }

  lemma ClaimIs(host: Host, c: Claim)
    ensures ClaimOk(host, c) <==> ClaimRules(host, c)
  {
    TrimmedIs(c.claimId, 240);
    TrimmedIs(c.statement, 4000);
    TrimmedIs(c.approvalRef, 240);
    ListingIs(c.limitations, 0, 16);
    DistinctBySize(c.citations);
    hide Section, Listing, Bounded, Trimmed, Elements;
  }

  /** Content is accepted exactly when it keeps every rule. */
  lemma ContentByRules(host: Host, c: Content)
    ensures ContentOk(host, c) <==> ContentRules(host, c)
  {
    assert BRIEF == Ascii("ace.intelligence.brief/v1alpha1") && DECISION == Ascii("ace.core.decision/v1alpha1");
    TrimmedIs(c.productId, 240);
    TrimmedIs(c.objective, 4000);
    ListingIs(c.audience, 1, 16);
    ListingIs(c.storyArchitecture, 1, 16);
    ListingIs(c.contentHierarchy, 1, 32);
    ListingIs(c.constraints, 1, 32);
    ListingIs(c.openQuestions, 0, 32);
    ListingIs(c.requiredAssets, 1, 32);
    ClaimIdsDistinct(c.approvedClaims);
    hide Section, Listing, Bounded, Trimmed, Elements, ClaimIds, ClaimOk, ClaimRules, BRIEF, DECISION, Ascii;
    forall i | 0 <= i < |c.approvedClaims| ensures ClaimOk(host, c.approvedClaims[i]) <==> ClaimRules(host, c.approvedClaims[i]) {
      ClaimIs(host, c.approvedClaims[i]);
    }
  }

  // ----- the material

  predicate Member(v: Json, key: string, value: Json) {
    v.Obj? && Field(Ascii(key), value) in v.fields
  }

  predicate IsTexts(v: Json, ts: seq<PlainText>) {
    v.Arr? && |v.items| == |ts| && forall i :: 0 <= i < |ts| ==> v.items[i] == Str(ts[i])
  }

  predicate IsReference(v: Json, r: Reference) {
    && v.Obj? && |v.fields| == 3 && Member(v, "artifact_id", Str(r.id)) && Member(v, "artifact_digest", Str(r.digest))
    && Member(v, "artifact_contract", Str(r.contract))
  }

  ghost predicate IsClaim(v: Json, c: Claim) {
    && v.Obj? && |v.fields| == 6 && Member(v, "claim_id", Str(c.claimId)) && Member(v, "statement", Str(c.statement))
    && Member(v, "approval_ref", Str(c.approvalRef)) && Member(v, "status", Str(Ascii("approved")))
    && (exists citations ::
          && Member(v, "citations", Arr(citations)) && |citations| == |c.citations|
          && forall i :: 0 <= i < |citations| ==> IsReference(citations[i], c.citations[i]))
    && (exists limitations :: Member(v, "limitations", limitations) && IsTexts(limitations, c.limitations))
  }

  ghost predicate HasTexts(v: Json, key: string, ts: seq<PlainText>) {
    exists list :: Member(v, key, list) && IsTexts(list, ts)
  }

  ghost predicate HasReference(v: Json, key: string, r: Reference) {
    exists inner :: Member(v, key, inner) && IsReference(inner, r)
  }

  ghost predicate HasClaims(v: Json, key: string, claims: seq<Claim>) {
    exists items ::
      Member(v, key, Arr(items)) && |items| == |claims| && forall i :: 0 <= i < |items| ==> IsClaim(items[i], claims[i])
  }

  /** The fifteen members that are hashed, under their keys. */
  ghost predicate IsMaterial(host: Host, v: Json, c: Content, instant: int) {
    && v.Obj? && |v.fields| == 15
    && Member(v, "contract", Str(Ascii("ace.market-intelligence.direction-package/v1alpha1")))
    && Member(v, "product_id", Str(c.productId)) && Member(v, "objective", Str(c.objective))
    && HasReference(v, "source_brief", c.sourceBrief) && HasReference(v, "decision", c.decision)
    && HasTexts(v, "audience", c.audience) && HasTexts(v, "story_architecture", c.storyArchitecture)
    && HasTexts(v, "content_hierarchy", c.contentHierarchy) && HasTexts(v, "constraints", c.constraints)
    && HasTexts(v, "open_questions", c.openQuestions) && HasTexts(v, "required_assets", c.requiredAssets)
    && HasClaims(v, "approved_claims", c.approvedClaims)
    && Member(v, "delivery_authority", Bool(false)) && Member(v, "external_effect_occurred", Bool(false))
    && Member(v, "prepared_at", Str(host.isoText(instant)))
  }

  lemma TextsAre(ts: seq<PlainText>)
    ensures IsTexts(TextsJson(ts), ts)
  {
  }

  lemma ReferenceIs(r: Reference)
    ensures IsReference(ReferenceJson(r), r)
  {
    hide Ascii;
    var f := ReferenceJson(r).fields;
    assert f[0] in f && f[1] in f && f[2] in f;
  }

  lemma ReferencesAre(rs: seq<Reference>)
    ensures ReferencesJson(rs).Arr? && |ReferencesJson(rs).items| == |rs|
    ensures forall i :: 0 <= i < |rs| ==> IsReference(ReferencesJson(rs).items[i], rs[i])
  {
    hide IsReference, ReferenceJson;
    forall i | 0 <= i < |rs| ensures IsReference(ReferencesJson(rs).items[i], rs[i]) { ReferenceIs(rs[i]); }
  }

  lemma ClaimJsonIs(c: Claim)
    ensures IsClaim(ClaimJson(c), c)
  {
    ReferencesAre(c.citations);
    TextsAre(c.limitations);
    hide Ascii, IsReference, IsTexts, ReferencesJson, TextsJson;
    var f := ClaimJson(c).fields;
    assert f[0] in f && f[1] in f && f[2] in f && f[3] in f && f[4] in f && f[5] in f;
    assert Member(ClaimJson(c), "citations", Arr(ReferencesJson(c.citations).items));
    assert Member(ClaimJson(c), "limitations", TextsJson(c.limitations));
  }

  lemma ClaimsAre(cs: seq<Claim>)
    ensures ClaimsJson(cs).Arr? && |ClaimsJson(cs).items| == |cs|
    ensures forall i :: 0 <= i < |cs| ==> IsClaim(ClaimsJson(cs).items[i], cs[i])
  {
    hide IsClaim, ClaimJson;
    forall i | 0 <= i < |cs| ensures IsClaim(ClaimsJson(cs).items[i], cs[i]) { ClaimJsonIs(cs[i]); }
  }

  lemma SourceMembers(host: Host, c: Content, instant: int)
    ensures var v := MaterialJson(host, c, instant);
            && Member(v, "contract", Str(Ascii("ace.market-intelligence.direction-package/v1alpha1")))
            && Member(v, "product_id", Str(c.productId)) && Member(v, "source_brief", ReferenceJson(c.sourceBrief))
            && Member(v, "decision", ReferenceJson(c.decision)) && Member(v, "objective", Str(c.objective))
            && Member(v, "audience", TextsJson(c.audience)) && Member(v, "story_architecture", TextsJson(c.storyArchitecture))
            && Member(v, "content_hierarchy", TextsJson(c.contentHierarchy))
  {
    assert VERSION == Ascii("ace.market-intelligence.direction-package/v1alpha1");
    hide Ascii, VERSION, TextsJson, ReferenceJson, DirectionFields;
    var f, all := SourceFields(c), MaterialJson(host, c, instant).fields;
    forall i | 0 <= i < 8 ensures f[i] in all { assert all[i] == f[i]; }
    assert f[0] in all && f[1] in all && f[2] in all && f[3] in all && f[4] in all && f[5] in all && f[6] in all && f[7] in all;
  }

  lemma DirectionMembers(host: Host, c: Content, instant: int)
    ensures var v := MaterialJson(host, c, instant);
            && v.Obj? && |v.fields| == 15
            && Member(v, "approved_claims", ClaimsJson(c.approvedClaims)) && Member(v, "constraints", TextsJson(c.constraints))
            && Member(v, "open_questions", TextsJson(c.openQuestions)) && Member(v, "required_assets", TextsJson(c.requiredAssets))
            && Member(v, "delivery_authority", Bool(false)) && Member(v, "external_effect_occurred", Bool(false))
            && Member(v, "prepared_at", Str(host.isoText(instant)))
  {
    hide Ascii, VERSION, TextsJson, ClaimsJson, ReferenceJson;
    var f, all := DirectionFields(host, c, instant), MaterialJson(host, c, instant).fields;
    assert |SourceFields(c)| == 8;
    hide SourceFields;
    forall i | 0 <= i < 7 ensures f[i] in all { assert all[8 + i] == f[i]; }
    assert f[0] in all && f[1] in all && f[2] in all && f[3] in all && f[4] in all && f[5] in all && f[6] in all;
  }

  /** What is hashed is this material. */
  lemma MaterialIs(host: Host, c: Content, instant: int)
    ensures IsMaterial(host, MaterialJson(host, c, instant), c, instant)
  {
    SourceMembers(host, c, instant);
    DirectionMembers(host, c, instant);
    ReferenceIs(c.sourceBrief);
    ReferenceIs(c.decision);
    TextsAre(c.audience);
    TextsAre(c.storyArchitecture);
    TextsAre(c.contentHierarchy);
    TextsAre(c.constraints);
    TextsAre(c.openQuestions);
    TextsAre(c.requiredAssets);
    ClaimsAre(c.approvedClaims);
    hide *;
    var v := MaterialJson(host, c, instant);
    HasTextsNow(v, "audience", TextsJson(c.audience), c.audience);
    HasTextsNow(v, "story_architecture", TextsJson(c.storyArchitecture), c.storyArchitecture);
    HasTextsNow(v, "content_hierarchy", TextsJson(c.contentHierarchy), c.contentHierarchy);
    HasTextsNow(v, "constraints", TextsJson(c.constraints), c.constraints);
    HasTextsNow(v, "open_questions", TextsJson(c.openQuestions), c.openQuestions);
    HasTextsNow(v, "required_assets", TextsJson(c.requiredAssets), c.requiredAssets);
    HasReferenceNow(v, "source_brief", ReferenceJson(c.sourceBrief), c.sourceBrief);
    HasReferenceNow(v, "decision", ReferenceJson(c.decision), c.decision);
    HasClaimsNow(v, "approved_claims", ClaimsJson(c.approvedClaims).items, c.approvedClaims);
    MaterialNow(host, v, c, instant);
  }

  lemma HasTextsNow(v: Json, key: string, list: Json, ts: seq<PlainText>)
    requires Member(v, key, list) && IsTexts(list, ts)
    ensures HasTexts(v, key, ts)
  {
    hide Member, IsTexts;
  }

  lemma HasReferenceNow(v: Json, key: string, inner: Json, r: Reference)
    requires Member(v, key, inner) && IsReference(inner, r)
    ensures HasReference(v, key, r)
  {
    hide Member, IsReference;
  }

  lemma HasClaimsNow(v: Json, key: string, items: seq<Json>, claims: seq<Claim>)
    requires Member(v, key, Arr(items)) && |items| == |claims| && forall i :: 0 <= i < |items| ==> IsClaim(items[i], claims[i])
    ensures HasClaims(v, key, claims)
  {
    hide Member, IsClaim;
  }

  lemma MaterialNow(host: Host, v: Json, c: Content, instant: int)
    requires v.Obj? && |v.fields| == 15
    requires Member(v, "contract", Str(Ascii("ace.market-intelligence.direction-package/v1alpha1")))
    requires Member(v, "product_id", Str(c.productId)) && Member(v, "objective", Str(c.objective))
    requires HasReference(v, "source_brief", c.sourceBrief) && HasReference(v, "decision", c.decision)
    requires HasTexts(v, "audience", c.audience) && HasTexts(v, "story_architecture", c.storyArchitecture)
    requires HasTexts(v, "content_hierarchy", c.contentHierarchy) && HasTexts(v, "constraints", c.constraints)
    requires HasTexts(v, "open_questions", c.openQuestions) && HasTexts(v, "required_assets", c.requiredAssets)
    requires HasClaims(v, "approved_claims", c.approvedClaims)
    requires Member(v, "delivery_authority", Bool(false)) && Member(v, "external_effect_occurred", Bool(false))
    requires Member(v, "prepared_at", Str(host.isoText(instant)))
    ensures IsMaterial(host, v, c, instant)
  {
    hide Member, HasReference, HasTexts, HasClaims, Ascii;
  }

  // ----- validation

  /** The package as validation leaves it: its time in UTC, its identities those of the digest. */
  predicate Identified(q: Package, c: Content, instant: int, digest: Text) {
    && q.content == c && q.preparedAt == Aware(instant, 0)
    && q.packageId == Some(Ascii("market_direction_package:") + if |digest| <= 32 then digest else digest[..32])
    && q.packageDigest == Some(Ascii("sha256:") + digest)
  }

  /** Seven characters naming the hash and 64 small hexadecimal digits. */
  predicate DigestText(t: Text) {
    && |t| == 71 && t[..7] == Ascii("sha256:")
    && forall i :: 7 <= i < 71 ==> Mark('0') <= t[i] <= Mark('9') || Mark('a') <= t[i] <= Mark('f')
  }

  lemma DigestTextIs(t: Text)
    ensures DigestPattern(t) <==> DigestText(t)
  {
    hide Ascii;
    if |t| == 71 {
      forall i | 7 <= i < 71 ensures t[i] == t[7..][i - 7] {}
    }
  }

  lemma PrefixesAre()
    ensures ID_PREFIX == Ascii("market_direction_package:") && DIGEST_PREFIX == Ascii("sha256:")
  {
  }

  lemma IdentityIs(q: Package, c: Content, instant: int, digest: Text)
    ensures Identified(q, c, instant, digest)
            <==> q == Package(c, Aware(instant, 0), Some(ExpectedId(digest)), Some(ExpectedDigest(digest)))
  {
    PrefixesAre();
    hide ID_PREFIX, DIGEST_PREFIX, Ascii;
  }

  lemma DigestIs(host: Host, c: Content, instant: int)
    ensures Digest(host, c, instant) == host.hexDigest(Canonical(MaterialJson(host, c, instant)))
  {
    hide Canonical, MaterialJson;
  }

  /** A package validates exactly when it keeps every rule and claims no other identity than its own. */
  lemma ValidatedByRules(host: Host, p: Package, q: Package)
    ensures Validate(host, p) == Some(q)
            <==> && ContentRules(host, p.content) && p.preparedAt.Aware?
                 && var instant := p.preparedAt.local - p.preparedAt.offset;
                 && Identified(q, p.content, instant, host.hexDigest(Canonical(MaterialJson(host, p.content, instant))))
                 && (p.packageId.None? || p.packageId == q.packageId)
                 && (p.packageDigest.None? || (p.packageDigest == q.packageDigest && DigestText(p.packageDigest.value)))
  {
    hide *;
    ContentByRules(host, p.content);
    ValidateView(host, p, q);
    InstantIs(p.preparedAt);
    if p.packageDigest.Some? {
      DigestTextIs(p.packageDigest.value);
    }
    if p.preparedAt.Aware? {
      var instant := p.preparedAt.local - p.preparedAt.offset;
      DigestIs(host, p.content, instant);
      IdentityIs(q, p.content, instant, Digest(host, p.content, instant));
    }
  }

  lemma InstantIs(stamp: Stamp)
    ensures UtcOf(stamp) == if stamp.Aware? then Some(stamp.local - stamp.offset) else None
  {
  }

  lemma ValidateView(host: Host, p: Package, q: Package)
    ensures Validate(host, p) == Some(q)
            <==> && ContentOk(host, p.content) && UtcOf(p.preparedAt).Some?
                 && var digest := Digest(host, p.content, UtcOf(p.preparedAt).value);
                 && q == Package(p.content, Aware(UtcOf(p.preparedAt).value, 0), Some(ExpectedId(digest)), Some(ExpectedDigest(digest)))
                 && (p.packageId.None? || p.packageId == q.packageId)
                 && (p.packageDigest.None? || (p.packageDigest == q.packageDigest && DigestPattern(p.packageDigest.value)))
  {
    hide ContentOk, DigestPattern, Digest, ExpectedId, ExpectedDigest, UtcOf;
  }
}
