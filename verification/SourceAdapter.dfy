/**
  One capture of a public product page: the request is checked, the transport is called
  once, and its untrusted result is judged. Checks of the host library are parameters.
 */
module SourceAdapter {
  import opened Options
  import opened Texts
  import opened JsonValues
  import opened JsonPrinter
  import opened Addresses
  import opened Payload

  const SOURCE_TYPE: Text := Ascii("public_product_page")
  const LOCATOR: Text := Ascii("json-pointer:/listed_price")
  const MEDIA_TYPE: Text := Ascii("application/json")

  datatype CaptureRequest = CaptureRequest(artifact: Text, sourceType: Text, uri: Text, requestId: Text,
                                           requestDigest: Text, startedAt: int, maxPayloadChars: nat)

  datatype RetrievalRequest = RetrievalRequest(sourceType: Text, uri: Text, maxResponseChars: nat,
                                               credentialsAllowed: bool, redirectsAllowed: bool,
                                               publicNetworkOnly: bool, rebindingProtectionRequired: bool)

  datatype RetrievalResult = RetrievalResult(sourceType: Dyn, requestedUri: Dyn, effectiveUri: Dyn, statusCode: Dyn,
                                             mediaType: Dyn, responseBody: Dyn, redirectChain: Dyn, resolved: Dyn,
                                             connected: Dyn, rebindingProtection: Dyn, credentialsUsed: Dyn, locator: Dyn,
                                             observedAt: Dyn, capturedAt: Dyn, publishedAt: Dyn, effectiveAt: Dyn)

  /** What awaiting the transport ends in. */
  datatype Outcome = Raised | Foreign | Returned(result: RetrievalResult)

  datatype Material = Material(requestRef: Text, requestDigest: Text, sourceType: Text, uri: Text, effectiveUri: Text,
                               resolved: seq<Text>, payload: Text, payloadDigest: Text, locator: Text,
                               publishedAt: Option<int>, effectiveAt: Option<int>, observedAt: int, capturedAt: int)

  /** The checks that belong to other packages. */
  datatype Host = Host(revalidate: CaptureRequest -> Option<CaptureRequest>, exactUri: Text -> bool,
                       publicIp: Text -> Option<Text>, digest: Text -> Text)

  // ----- before the transport

  function Admitted(host: Host, artifact: Text, request: CaptureRequest): Option<CaptureRequest> {
    var validated :- host.revalidate(request);
    if validated.artifact != artifact || validated.sourceType != SOURCE_TYPE || !host.exactUri(validated.uri) then None
    else Some(validated)
  }

  function Bound(validated: CaptureRequest): nat {
    if validated.maxPayloadChars <= MAX_RESPONSE_BODY_CHARS then validated.maxPayloadChars else MAX_RESPONSE_BODY_CHARS
  }

  function ForTransport(validated: CaptureRequest): RetrievalRequest {
    RetrievalRequest(validated.sourceType, validated.uri, Bound(validated), false, false, true, true)
  }

  // ----- after it

  function AwareUtc(value: Dyn): Option<int> {
    match value
    case DStamp(stamp) => UtcOf(stamp)
    case _ => None
  }

  function OptionalUtc(value: Dyn): Option<Option<int>> {
    if value == DNone then Some(None)
    else
      var t :- AwareUtc(value);
      Some(Some(t))
  }

  /** The closed contract on everything except addresses, times and the body. */
  predicate InScope(validated: CaptureRequest, r: RetrievalResult) {
    && r.sourceType.DStr? && r.requestedUri.DStr? && r.effectiveUri.DStr? && r.mediaType.DStr?
    && r.responseBody.DStr? && r.locator.DStr? && r.statusCode.DInt?
    && r.redirectChain == DTuple([]) && r.credentialsUsed == DBool(false) && r.rebindingProtection == DBool(true)
    && r.sourceType.text == validated.sourceType && r.requestedUri.text == validated.uri
    && r.effectiveUri.text == validated.uri && r.locator.text == LOCATOR
    && r.statusCode.number == 200 && r.mediaType.text == MEDIA_TYPE
  }

  function Judged(host: Host, validated: CaptureRequest, r: RetrievalResult): Option<Material> {
    if !InScope(validated, r) then None
    else
      FromParts(host, validated, r.effectiveUri.text,
                ValidatedAddresses(host.publicIp, r.resolved), ValidatedAddresses(host.publicIp, r.connected),
                AwareUtc(r.observedAt), AwareUtc(r.capturedAt), OptionalUtc(r.publishedAt), OptionalUtc(r.effectiveAt),
                CanonicalProductPayload(r.responseBody.text, Bound(validated)))
  }

  /** The checks that follow, in order, each part nothing where its own check fails. */
  function FromParts(host: Host, validated: CaptureRequest, uri: Text, addresses: Option<seq<Text>>,
                     contacts: Option<seq<Text>>, observed: Option<int>, captured: Option<int>,
                     published: Option<Option<int>>, effective: Option<Option<int>>, body: Option<Text>): Option<Material> {
    var resolved :- addresses;
    var connected :- contacts;
    if connected != resolved then None
    else
      var observedAt :- observed;
      var capturedAt :- captured;
      var publishedAt :- published;
      var effectiveAt :- effective;
      if observedAt < validated.startedAt || capturedAt < observedAt then None
      else
        var payload :- body;
        Some(Material(validated.requestId, validated.requestDigest, validated.sourceType, validated.uri,
                      uri, resolved, payload, host.digest(payload), LOCATOR, publishedAt, effectiveAt,
                      observedAt, capturedAt))
  }

  // ----- the adapter and its transport

  /** The injected transport: it records each request and may answer anything. */
  class Transport {
    var requests: seq<RetrievalRequest>

    constructor ()
      ensures requests == []
    {
      requests := [];
    }

    /** answer stands for whatever the network brings back. */
    method Retrieve(request: RetrievalRequest, answer: Outcome) returns (outcome: Outcome)
      modifies this
      ensures requests == old(requests) + [request] && outcome == answer
    {
      requests := requests + [request];
      outcome := answer;
    }
  }

  class PublicProductSourceAdapter {
    const host: Host
    const transport: Transport
    const artifact: Text
    var captureCalls: nat

    /** captureCalls counts the calls the transport has received. */
    ghost predicate Valid()
      reads this, transport
    {
      captureCalls == |transport.requests|
    }

    constructor (host: Host, transport: Transport, artifact: Text)
      requires transport.requests == []
      ensures Valid() && this.host == host && this.transport == transport && this.artifact == artifact && captureCalls == 0
    {
      this.host := host;
      this.transport := transport;
      this.artifact := artifact;
      captureCalls := 0;
    }

    /**
      A refused request never reaches the transport; an admitted one reaches it exactly
      once, bounded and without credentials or redirects, whatever comes back.
     */
    method Capture(request: CaptureRequest, answer: Outcome) returns (material: Option<Material>)
      requires Valid()
      modifies this, transport
      ensures Valid()
      ensures Admitted(host, artifact, request).None? ==> transport.requests == old(transport.requests) && material.None?
      ensures Admitted(host, artifact, request).Some? ==>
                var validated := Admitted(host, artifact, request).value;
                && |transport.requests| == |old(transport.requests)| + 1
                && transport.requests[..|old(transport.requests)|] == old(transport.requests)
                && var sent := transport.requests[|old(transport.requests)|];
                && sent.sourceType == validated.sourceType && sent.uri == validated.uri
                && !sent.credentialsAllowed && !sent.redirectsAllowed
                && sent.publicNetworkOnly && sent.rebindingProtectionRequired
                && sent.maxResponseChars <= validated.maxPayloadChars && sent.maxResponseChars <= 16_384
                && (sent.maxResponseChars == validated.maxPayloadChars || sent.maxResponseChars == 16_384)
                && (material.Some? ==> answer.Returned?)
                && (answer.Returned? ==> material == Judged(host, validated, answer.result))
    {
      var admitted := Admitted(host, artifact, request);
      if admitted.None? {
        return None;
      }
      captureCalls := captureCalls + 1;
      var outcome := transport.Retrieve(ForTransport(admitted.value), answer);
      match outcome
      case Returned(result) => material := Judged(host, admitted.value, result);
      case _ => material := None;
    }
  }

  // ----- capture factors through normal forms

  /** What a judged result comes down to: the product, the set of addresses and the instants. */
  datatype Normal = Normal(product: Product, addresses: set<Text>, publishedAt: Option<int>, effectiveAt: Option<int>,
                           observedAt: int, capturedAt: int)

  ghost predicate SameAddresses(host: Host, r: RetrievalResult) {
    && Acceptable(host.publicIp, r.resolved) && Acceptable(host.publicIp, r.connected)
    && AddressSet(host.publicIp, r.resolved.items) == AddressSet(host.publicIp, r.connected.items)
  }

  ghost predicate InTime(validated: CaptureRequest, r: RetrievalResult) {
    && AwareUtc(r.observedAt).Some? && AwareUtc(r.capturedAt).Some?
    && OptionalUtc(r.publishedAt).Some? && OptionalUtc(r.effectiveAt).Some?
    && validated.startedAt <= AwareUtc(r.observedAt).value <= AwareUtc(r.capturedAt).value
  }

  ghost function NormalOf(host: Host, validated: CaptureRequest, r: RetrievalResult): Option<Normal> {
    if InScope(validated, r) && SameAddresses(host, r) && InTime(validated, r)
       && ProductOf(r.responseBody.text, Bound(validated)).Some?
    then
      Some(Normal(ProductOf(r.responseBody.text, Bound(validated)).value, AddressSet(host.publicIp, r.resolved.items),
                  OptionalUtc(r.publishedAt).value, OptionalUtc(r.effectiveAt).value,
                  AwareUtc(r.observedAt).value, AwareUtc(r.capturedAt).value))
    else None
  }

  /** A result is accepted exactly when it has a normal form. */
  lemma JudgedExactly(host: Host, validated: CaptureRequest, r: RetrievalResult)
    ensures Judged(host, validated, r).Some? <==> NormalOf(host, validated, r).Some?
    ensures Judged(host, validated, r).Some? ==>
              var m := Judged(host, validated, r).value; var n := NormalOf(host, validated, r).value;
              && m.payload == Canonical(ProductJson(n.product)) && m.payloadDigest == host.digest(m.payload)
              && Elements(m.resolved) == n.addresses
              && validated.startedAt <= m.observedAt <= m.capturedAt
  {
    AddressesExactly(host.publicIp, r.resolved);
    AddressesExactly(host.publicIp, r.connected);
    if Acceptable(host.publicIp, r.resolved) && Acceptable(host.publicIp, r.connected) {
      AddressesAgree(host.publicIp, r.resolved, r.connected);
    }
    hide ValidatedAddresses, Acceptable, AddressSet, ProductOf, Canonical, ProductJson, Elements;
    hide LOCATOR, MEDIA_TYPE;
  }

  /**
    Two accepted results of one request give the same material exactly when their normal
    forms agree: body layout and address order never show, everything else always does.
   */
  lemma MaterialsAgree(host: Host, validated: CaptureRequest, x: RetrievalResult, y: RetrievalResult)
    requires NormalOf(host, validated, x).Some? && NormalOf(host, validated, y).Some?
    ensures Judged(host, validated, x) == Judged(host, validated, y)
            <==> NormalOf(host, validated, x) == NormalOf(host, validated, y)
  {
    NormalParts(host, validated, x);
    NormalParts(host, validated, y);
    AddressesAgree(host.publicIp, x.resolved, y.resolved);
    PayloadsIdentify(x.responseBody.text, Bound(validated), y.responseBody.text, Bound(validated));
    JudgedParts(host, validated, x);
    JudgedParts(host, validated, y);
    hide *;
  }

  lemma NormalParts(host: Host, validated: CaptureRequest, r: RetrievalResult)
    requires NormalOf(host, validated, r).Some?
    ensures Acceptable(host.publicIp, r.resolved) && r.responseBody.DStr? && r.effectiveUri.DStr?
    ensures r.effectiveUri.text == validated.uri
    ensures ProductOf(r.responseBody.text, Bound(validated)).Some?
    ensures AwareUtc(r.observedAt).Some? && AwareUtc(r.capturedAt).Some?
    ensures OptionalUtc(r.publishedAt).Some? && OptionalUtc(r.effectiveAt).Some?
    ensures NormalOf(host, validated, r).value
            == Normal(ProductOf(r.responseBody.text, Bound(validated)).value, AddressSet(host.publicIp, r.resolved.items),
                      OptionalUtc(r.publishedAt).value, OptionalUtc(r.effectiveAt).value,
                      AwareUtc(r.observedAt).value, AwareUtc(r.capturedAt).value)
  {
    hide Acceptable, ProductOf, AwareUtc, OptionalUtc, AddressSet;
  }

  lemma JudgedParts(host: Host, validated: CaptureRequest, r: RetrievalResult)
    requires NormalOf(host, validated, r).Some?
    ensures r.responseBody.DStr? && ValidatedAddresses(host.publicIp, r.resolved).Some?
    ensures CanonicalProductPayload(r.responseBody.text, Bound(validated)).Some?
    ensures var payload := CanonicalProductPayload(r.responseBody.text, Bound(validated)).value;
            Judged(host, validated, r)
            == Some(Material(validated.requestId, validated.requestDigest, validated.sourceType, validated.uri,
                             validated.uri, ValidatedAddresses(host.publicIp, r.resolved).value, payload,
                             host.digest(payload), LOCATOR, OptionalUtc(r.publishedAt).value,
                             OptionalUtc(r.effectiveAt).value, AwareUtc(r.observedAt).value, AwareUtc(r.capturedAt).value))
  {
    JudgedExactly(host, validated, r);
    hide ValidatedAddresses, Acceptable, AddressSet, ProductOf, Canonical, ProductJson, LOCATOR, MEDIA_TYPE;
  }

  /**
    In particular, a body laid out differently and addresses in another order change nothing,
    accepted or not.
   */
  lemma LayoutIsIrrelevant(host: Host, validated: CaptureRequest, x: RetrievalResult, y: RetrievalResult)
    requires SameOtherwise(x, y)
    requires x.responseBody.DStr? && y.responseBody.DStr?
    requires 0 < |x.responseBody.text| <= Bound(validated) && 0 < |y.responseBody.text| <= Bound(validated)
    requires LoadsStrict(x.responseBody.text).Some? && LoadsStrict(y.responseBody.text).Some?
    requires Same(LoadsStrict(x.responseBody.text).value, LoadsStrict(y.responseBody.text).value)
    requires SameTuple(host, x.resolved, y.resolved) && SameTuple(host, x.connected, y.connected)
    ensures Judged(host, validated, x) == Judged(host, validated, y)
  {
    hide *;
    FormattingIsIrrelevant(x.responseBody.text, y.responseBody.text, Bound(validated));
    TuplesAgree(host, x.resolved, y.resolved);
    TuplesAgree(host, x.connected, y.connected);
    JudgedFrom(host, validated, x, y);
  }

  /** Equal in every field that is neither the body nor an address tuple. */
  ghost predicate SameOtherwise(x: RetrievalResult, y: RetrievalResult) {
    && x.sourceType == y.sourceType && x.requestedUri == y.requestedUri && x.effectiveUri == y.effectiveUri
    && x.statusCode == y.statusCode && x.mediaType == y.mediaType && x.redirectChain == y.redirectChain
    && x.rebindingProtection == y.rebindingProtection && x.credentialsUsed == y.credentialsUsed
    && x.locator == y.locator && x.observedAt == y.observedAt && x.capturedAt == y.capturedAt
    && x.publishedAt == y.publishedAt && x.effectiveAt == y.effectiveAt
  }

  lemma JudgedFrom(host: Host, validated: CaptureRequest, x: RetrievalResult, y: RetrievalResult)
    requires SameOtherwise(x, y)
    requires x.responseBody.DStr? && y.responseBody.DStr?
    requires CanonicalProductPayload(x.responseBody.text, Bound(validated))
             == CanonicalProductPayload(y.responseBody.text, Bound(validated))
    requires ValidatedAddresses(host.publicIp, x.resolved) == ValidatedAddresses(host.publicIp, y.resolved)
    requires ValidatedAddresses(host.publicIp, x.connected) == ValidatedAddresses(host.publicIp, y.connected)
    ensures Judged(host, validated, x) == Judged(host, validated, y)
  {
    assert InScope(validated, x) <==> InScope(validated, y);
    hide CanonicalProductPayload, ValidatedAddresses, Bound, AwareUtc, OptionalUtc, InScope, FromParts;
  }

  /** Both refused, or both accepted for one set of addresses. */
  ghost predicate SameTuple(host: Host, a: Dyn, b: Dyn) {
    && (Acceptable(host.publicIp, a) <==> Acceptable(host.publicIp, b))
    && (Acceptable(host.publicIp, a) && Acceptable(host.publicIp, b) ==>
          AddressSet(host.publicIp, a.items) == AddressSet(host.publicIp, b.items))
  }

  lemma TuplesAgree(host: Host, a: Dyn, b: Dyn)
    requires SameTuple(host, a, b)
    ensures ValidatedAddresses(host.publicIp, a) == ValidatedAddresses(host.publicIp, b)
  {
    AddressesExactly(host.publicIp, a);
    AddressesExactly(host.publicIp, b);
    if Acceptable(host.publicIp, a) && Acceptable(host.publicIp, b) {
      AddressesAgree(host.publicIp, a, b);
    }
    hide ValidatedAddresses, Acceptable, AddressSet;
  }
}
