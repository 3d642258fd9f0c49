/** The adapter's contract written out: which requests are admitted, and which results become which material. */
module AdapterRules {
  import opened Options
  import opened Texts
  import opened Sorting
  import opened JsonLayout
  import opened Addresses
  import opened Payload
  import opened SourceAdapter

  /** A request is admitted exactly when it revalidates, names this adapter and the one source type, and has an exact address. */
  lemma AdmittedExactly(host: Host, artifact: Text, request: CaptureRequest, v: CaptureRequest)
    ensures Admitted(host, artifact, request) == Some(v)
            <==> && host.revalidate(request) == Some(v) && v.artifact == artifact
                 && v.sourceType == Ascii("public_product_page") && host.exactUri(v.uri)
  {
    assert SOURCE_TYPE == Ascii("public_product_page");
  }

  /** One to 32 texts, each an accepted literal, no two the same when normalised; sorted stands for their set, in order. */
  ghost predicate Attests(publicIp: Text -> Option<Text>, d: Dyn, sorted: seq<Text>) {
    && d.DTuple? && 1 <= |d.items| <= 32
    && (forall i :: 0 <= i < |d.items| ==> d.items[i].DStr? && publicIp(d.items[i].text).Some?)
    && (forall i, j :: 0 <= i < j < |d.items| ==> publicIp(d.items[i].text) != publicIp(d.items[j].text))
    && (forall i, j :: 0 <= i < j < |sorted| ==> Before(sorted[i], sorted[j]))
    && (forall t :: t in sorted <==> exists i :: 0 <= i < |d.items| && publicIp(d.items[i].text) == Some(t))
  }

  lemma SortedIs(s: seq<Text>)
    ensures Increasing(Itself, s) <==> forall i, j :: 0 <= i < j < |s| ==> Before(s[i], s[j])
  {
    hide Less, Before;
    forall a, b ensures Less(a, b) <==> Before(a, b) { LessExactly(a, b); }
    if Increasing(Itself, s) {
      forall i, j | 0 <= i < j < |s| ensures Before(s[i], s[j]) {
        assert Less(Itself(s[i]), Itself(s[j]));
      }
    }
  }

  lemma AttestsExactly(publicIp: Text -> Option<Text>, d: Dyn, sorted: seq<Text>)
    ensures ValidatedAddresses(publicIp, d) == Some(sorted) <==> Attests(publicIp, d, sorted)
  {
    AddressesExactly(publicIp, d);
    hide ValidatedAddresses, Before;
    if ValidatedAddresses(publicIp, d) == Some(sorted) {
      SortedIs(sorted);
      SetIs(publicIp, d.items, sorted);
    }
    if Attests(publicIp, d, sorted) {
      var r := ValidatedAddresses(publicIp, d).value;
      SortedIs(sorted);
      SetIs(publicIp, d.items, sorted);
      SetIs(publicIp, d.items, r);
      hide Increasing, Attests;
      forall t ensures t in r <==> t in sorted { assert t in Elements(r) <==> t in Elements(sorted); }
      IncreasingUnique(Itself, r, sorted);
    }
  }

  lemma SetIs(publicIp: Text -> Option<Text>, items: seq<Dyn>, s: seq<Text>)
    requires AllLiterals(publicIp, items)
    ensures Elements(s) == AddressSet(publicIp, items)
            <==> forall t :: t in s <==> exists i :: 0 <= i < |items| && publicIp(items[i].text) == Some(t)
  {
    forall t ensures t in AddressSet(publicIp, items) <==> exists i :: 0 <= i < |items| && publicIp(items[i].text) == Some(t) {
      if i :| 0 <= i < |items| && publicIp(items[i].text) == Some(t) {
        assert publicIp(items[i].text).value == t;
      }
    }
    if Elements(s) == AddressSet(publicIp, items) {
      forall t ensures t in s <==> t in AddressSet(publicIp, items) { assert t in Elements(s) <==> t in s; }
    }
  }

  /** A datetime with an offset, at this instant of UTC. */
  predicate At(d: Dyn, instant: int) {
    d.DStamp? && d.stamp.Aware? && instant == d.stamp.local - d.stamp.offset
  }

  predicate MaybeAt(d: Dyn, instant: Option<int>) {
    (d == DNone && instant == None) || (instant.Some? && At(d, instant.value))
  }

  /** Every condition on a result, and every field of the material it becomes. */
  ghost predicate Becomes(host: Host, v: CaptureRequest, r: RetrievalResult, m: Material) {
    && r.sourceType == DStr(v.sourceType) && r.requestedUri == DStr(v.uri) && r.effectiveUri == DStr(v.uri)
    && r.statusCode == DInt(200) && r.mediaType == DStr(Ascii("application/json"))
    && r.locator == DStr(Ascii("json-pointer:/listed_price")) && r.redirectChain == DTuple([])
    && r.credentialsUsed == DBool(false) && r.rebindingProtection == DBool(true) && r.responseBody.DStr?
    && Attests(host.publicIp, r.resolved, m.resolved) && Attests(host.publicIp, r.connected, m.resolved)
    && At(r.observedAt, m.observedAt) && At(r.capturedAt, m.capturedAt)
    && MaybeAt(r.publishedAt, m.publishedAt) && MaybeAt(r.effectiveAt, m.effectiveAt)
    && v.startedAt <= m.observedAt <= m.capturedAt
    && CanonicalProductPayload(r.responseBody.text, if v.maxPayloadChars < 16_384 then v.maxPayloadChars else 16_384) == Some(m.payload)
    && m.payloadDigest == host.digest(m.payload) && m.requestRef == v.requestId && m.requestDigest == v.requestDigest
    && m.sourceType == v.sourceType && m.uri == v.uri && m.effectiveUri == v.uri
    && m.locator == Ascii("json-pointer:/listed_price")
  }

  lemma ConstantsAre()
    ensures LOCATOR == Ascii("json-pointer:/listed_price") && MEDIA_TYPE == Ascii("application/json")
  {
  }

  lemma ScopeIs(v: CaptureRequest, r: RetrievalResult)
    ensures InScope(v, r)
            <==> && r.sourceType == DStr(v.sourceType) && r.requestedUri == DStr(v.uri) && r.effectiveUri == DStr(v.uri)
                 && r.statusCode == DInt(200) && r.mediaType == DStr(Ascii("application/json"))
                 && r.locator == DStr(Ascii("json-pointer:/listed_price")) && r.redirectChain == DTuple([])
                 && r.credentialsUsed == DBool(false) && r.rebindingProtection == DBool(true) && r.responseBody.DStr?
  {
    ConstantsAre();
    hide LOCATOR, MEDIA_TYPE, Ascii;
  }

  lemma InstantsAre(d: Dyn)
    ensures forall i :: AwareUtc(d) == Some(i) <==> At(d, i)
    ensures forall o :: OptionalUtc(d) == Some(o) <==> MaybeAt(d, o)
  {
  }

  lemma PartsAre(host: Host, v: CaptureRequest, uri: Text, addresses: Option<seq<Text>>, contacts: Option<seq<Text>>,
                 observed: Option<int>, captured: Option<int>, published: Option<Option<int>>, effective: Option<Option<int>>,
                 body: Option<Text>, m: Material)
    ensures FromParts(host, v, uri, addresses, contacts, observed, captured, published, effective, body) == Some(m)
            <==> && addresses == Some(m.resolved) && contacts == Some(m.resolved)
                 && observed == Some(m.observedAt) && captured == Some(m.capturedAt)
                 && published == Some(m.publishedAt) && effective == Some(m.effectiveAt)
                 && v.startedAt <= m.observedAt <= m.capturedAt && body == Some(m.payload)
                 && m.payloadDigest == host.digest(m.payload) && m.requestRef == v.requestId && m.requestDigest == v.requestDigest
                 && m.sourceType == v.sourceType && m.uri == v.uri && m.effectiveUri == uri
                 && m.locator == Ascii("json-pointer:/listed_price")
  {
    ConstantsAre();
    hide LOCATOR, MEDIA_TYPE, Ascii;
  }

  /** A result becomes a material exactly when it keeps every condition, field by field. */
  lemma JudgedByRules(host: Host, v: CaptureRequest, r: RetrievalResult, m: Material)
    ensures Judged(host, v, r) == Some(m) <==> Becomes(host, v, r, m)
  {
    ScopeIs(v, r);
    AttestsExactly(host.publicIp, r.resolved, m.resolved);
    AttestsExactly(host.publicIp, r.connected, m.resolved);
    InstantsAre(r.observedAt);
    InstantsAre(r.capturedAt);
    InstantsAre(r.publishedAt);
    InstantsAre(r.effectiveAt);
    hide InScope, ValidatedAddresses, Attests, AwareUtc, OptionalUtc, At, MaybeAt, CanonicalProductPayload, FromParts, Ascii;
    if InScope(v, r) {
      PartsAre(host, v, r.effectiveUri.text, ValidatedAddresses(host.publicIp, r.resolved),
               ValidatedAddresses(host.publicIp, r.connected), AwareUtc(r.observedAt), AwareUtc(r.capturedAt),
               OptionalUtc(r.publishedAt), OptionalUtc(r.effectiveAt), CanonicalProductPayload(r.responseBody.text, Bound(v)), m);
      assert Bound(v) == if v.maxPayloadChars < 16_384 then v.maxPayloadChars else 16_384;
    }
  }
}
