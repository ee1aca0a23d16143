/** The provider policy capability: it can be narrowed, authorised for one payload and bound to one
    envelope, each of them one way only. */
module ProviderCapability {
  import opened Wrappers
  import opened ScopeEncoding

  datatype Route = LocalOnly | PolicyAllowed

  datatype Authority = CanonicalConversation | MainChatRouter | ExplicitProbePolicy | LocalOnlyFailClosed

  datatype Reason = MissingCanonicalPolicy | CloudDisabled | RouteIntersection | Deserialized | TestFixture

  datatype Subject =
    | CurrentUser(messageId: Text, messageDigest: Text)
    | Probe(authorizationId: Text, providerDigest: Text, modelDigest: Text, endpointDigest: Text,
            networkDigest: Text, consentDigest: Text)
    | Nobody

  datatype Capability = Capability(decisionId: Text, policyVersion: Text, route: Route, authority: Authority,
                                   restriction: Option<Reason>, subject: Subject, purpose: Option<Text>,
                                   payloadDigest: Option<Text>, envelopeDigest: Option<Text>)

  /** What the model takes from outside: the digest, and how a subject is written and text trimmed. */
  datatype Outside = Outside(digest: Text -> Text, material: Subject -> Text, trim: Text -> Text)

  /** No two scopes share a digest. */
  ghost predicate CollisionFree(o: Outside) {
    forall a: Text, b: Text :: o.digest(a) == o.digest(b) ==> a == b
  }

  datatype Refusal =
    | NoBoundSubject | SubjectMismatch
    | ScopeRebound | ScopeIncomplete | ScopeMissing | PayloadMismatch
    | EnvelopeRebound | AlreadyBound
    | Incomplete | ManifestMismatch | FailClosedRoute | RestrictedRoute | ProbeMismatch | EnvelopeMismatch

  datatype Granted = Granted(capability: Capability) | Refused(why: Refusal)

  // ------------------------------------------------------ payload and envelope

  function Ascii(s: string): Text {
    seq(|s|, i requires 0 <= i < |s| => if s[i] < '\U{0080}' then s[i] as int else 0)
  }

  const PAYLOAD_LABEL: Text := Ascii("provider_unfiltered_payload_v1")

  /** The parts of a payload scope: tag, subject, purpose, content. */
  function PayloadScope(o: Outside, subject: Subject, purpose: Text, p: Payload): seq<Text> {
    [PAYLOAD_LABEL, o.material(subject), purpose] + ContentParts(p)
  }

  function PayloadDigest(o: Outside, subject: Subject, purpose: Text, p: Payload): Text {
    o.digest(Encode(PayloadScope(o, subject, purpose, p)))
  }

  method ComputePayloadDigest(o: Outside, subject: Subject, purpose: Text, p: Payload) returns (digest: Text)
    ensures digest == PayloadDigest(o, subject, purpose, p)
  {
    hide Encode, Part, ContentParts;
    var subjectScope := o.material(subject);
    var scope := new ScopeBuffer();
    scope.AppendScopePart(PAYLOAD_LABEL);
    scope.AppendScopePart(subjectScope);
    scope.AppendScopePart(purpose);
    EncodeThree(PAYLOAD_LABEL, subjectScope, purpose);
    assert scope.bytes == Encode([PAYLOAD_LABEL, subjectScope, purpose]);
    scope.AppendContent(p);
    EncodeConcat([PAYLOAD_LABEL, subjectScope, purpose], ContentParts(p));
    digest := o.digest(scope.bytes);
  }

  datatype Provenance = Provenance(kind: Text, referenceId: Text, digest: Text)

  datatype Manifest = Manifest(requestId: Text, privacyDecisionId: Text, contextRefs: seq<Text>,
                               includedCategories: seq<Text>, declaredCategories: seq<Text>,
                               provenance: seq<Provenance>, rawLifeModel: bool, rawMemory: bool)

  datatype Envelope = Envelope(payload: Payload, manifest: Manifest, provider: Text, model: Text, endpoint: Text,
                               generation: Text, credentialVersion: nat, toolsRequired: bool)

  const ENVELOPE_LABEL: Text := Ascii("prepared_provider_envelope_v1")

  function Bit(b: bool): Bytes.Byte {
    if b then 1 else 0
  }

  function ProvenanceParts(provenance: seq<Provenance>): seq<Text> {
    if provenance == [] then []
    else
      [provenance[0].kind, provenance[0].referenceId, provenance[0].digest] + ProvenanceParts(provenance[1..])
  }

  function EnvelopeScope(e: Envelope): seq<Text> {
    var m := e.manifest;
    [ENVELOPE_LABEL, m.requestId, m.privacyDecisionId] + m.contextRefs + m.includedCategories + m.declaredCategories
    + ProvenanceParts(m.provenance)
    + [[Bit(m.rawLifeModel), Bit(m.rawMemory)], e.provider, e.model, e.endpoint, e.generation,
       BigEndian(e.credentialVersion, 8), [Bit(e.toolsRequired)]]
    + ContentParts(e.payload)
  }

  function EnvelopeDigest(o: Outside, e: Envelope): Text {
    o.digest(Encode(EnvelopeScope(e)))
  }

  // ------------------------------------------------------------- operations

  function FailClosed(o: Outside, reason: Reason, tag: Text, version: Text): Capability {
    Capability(o.digest(tag), version, LocalOnly, LocalOnlyFailClosed, Some(reason), Nobody, None, None, None)
  }

  /** Issued for the current user message; sensitive content only ever narrows the route. */
  function ForUserMessage(o: Outside, messageId: Text, userText: Text, sensitive: bool, decision: Text, version: Text): Capability {
    Capability(decision, version, if sensitive then LocalOnly else PolicyAllowed, CanonicalConversation,
               if sensitive then Some(RouteIntersection) else None, CurrentUser(messageId, o.digest(userText)), None, None, None)
  }

  /** Issued for the connection probe, already authorised for its payload. */
  function ForProbe(o: Outside, subject: Subject, purpose: Text, p: Payload, version: Text): Capability
    requires subject.Probe?
  {
    Capability(subject.authorizationId, version, PolicyAllowed, ExplicitProbePolicy, None, subject,
               Some(purpose), Some(PayloadDigest(o, subject, purpose, p)), None)
  }

  function RestrictToLocal(c: Capability, reason: Reason): Capability {
    c.(route := LocalOnly, restriction := Some(reason))
  }

  function SubjectRefusal(o: Outside, c: Capability, userText: Text): Option<Refusal> {
    match c.subject
    case Nobody => None
    case Probe(_, _, _, _, _, _) => Some(NoBoundSubject)
    case CurrentUser(_, digest) => if o.digest(userText) != digest then Some(SubjectMismatch) else None
  }

  function AuthorizeDerivedPayload(o: Outside, c: Capability, purpose: Text, userText: Text, p: Payload): Granted {
    var refusal := SubjectRefusal(o, c, userText);
    var digest := PayloadDigest(o, c.subject, purpose, p);
    if refusal.Some? then Refused(refusal.value)
    else if c.purpose.None? && c.payloadDigest.None? then Granted(c.(purpose := Some(purpose), payloadDigest := Some(digest)))
    else if c.purpose.None? || c.payloadDigest.None? then Refused(ScopeIncomplete)
    else if c.purpose.value == purpose && c.payloadDigest.value == digest then Granted(c)
    else Refused(ScopeRebound)
  }

  /** None when the payload is the one authorised and no envelope is bound yet. */
  function ValidateUnfilteredPayload(o: Outside, c: Capability, p: Payload): Option<Refusal> {
    if c.envelopeDigest.Some? then Some(AlreadyBound)
    else if c.purpose.None? && c.payloadDigest.None? then Some(ScopeMissing)
    else if c.purpose.None? || c.payloadDigest.None? then Some(ScopeIncomplete)
    else if PayloadDigest(o, c.subject, c.purpose.value, p) != c.payloadDigest.value then Some(PayloadMismatch)
    else None
  }

  function BindPreparedEnvelope(o: Outside, c: Capability, e: Envelope): Granted {
    if c.envelopeDigest.Some? then Refused(EnvelopeRebound)
    else Granted(c.(envelopeDigest := Some(EnvelopeDigest(o, e))))
  }

  predicate ProbeTargetMatches(o: Outside, s: Subject, e: Envelope, networkDigest: Text, networkAllows: bool) {
    s.Probe? ==>
      && s.providerDigest == o.digest(o.trim(e.provider)) && s.modelDigest == o.digest(o.trim(e.model))
      && s.endpointDigest == o.digest(o.trim(e.endpoint)) && s.networkDigest == networkDigest && networkAllows
  }

  function ValidateForRequest(o: Outside, c: Capability, e: Envelope, networkDigest: Text, networkAllows: bool): Option<Refusal> {
    if o.trim(c.decisionId) == [] || o.trim(c.policyVersion) == [] then Some(Incomplete)
    else if e.manifest.privacyDecisionId != c.decisionId then Some(ManifestMismatch)
    else if c.authority == LocalOnlyFailClosed && c.route != LocalOnly then Some(FailClosedRoute)
    else if c.restriction.Some? && c.route != LocalOnly then Some(RestrictedRoute)
    else if !ProbeTargetMatches(o, c.subject, e, networkDigest, networkAllows) then Some(ProbeMismatch)
    else if c.envelopeDigest != Some(EnvelopeDigest(o, e)) then Some(EnvelopeMismatch)
    else None
  }

  // ------------------------------------------------------------------ chains

  datatype Step =
    | Restrict(reason: Reason)
    | Authorize(purpose: Text, userText: Text, payload: Payload)
    | Bind(envelope: Envelope)

  /** A refused step leaves a copy of the capability as it was. */
  function Next(o: Outside, c: Capability, s: Step): Capability {
    match s
    case Restrict(reason) => RestrictToLocal(c, reason)
    case Authorize(purpose, userText, p) =>
      var r := AuthorizeDerivedPayload(o, c, purpose, userText, p);
      if r.Granted? then r.capability else c
    case Bind(e) =>
      var r := BindPreparedEnvelope(o, c, e);
      if r.Granted? then r.capability else c
  }

  function Run(o: Outside, c: Capability, steps: seq<Step>): Capability
    decreases |steps|
  {
    if steps == [] then c else Run(o, Next(o, c, steps[0]), steps[1..])
  }

  predicate Restricts(s: Step) {
    s.Restrict?
  }

  /** What no chain of steps changes: identity, an authorised scope, a bound envelope, a narrowed route. */
  ghost predicate Preserves(c: Capability, d: Capability) {
    && d.decisionId == c.decisionId && d.policyVersion == c.policyVersion
    && d.authority == c.authority && d.subject == c.subject
    && (c.route == LocalOnly ==> d.route == LocalOnly)
    && (c.restriction.Some? ==> d.restriction.Some?)
    && (c.purpose.Some? ==> d.purpose == c.purpose)
    && (c.payloadDigest.Some? ==> d.payloadDigest == c.payloadDigest)
    && (c.envelopeDigest.Some? ==> d.envelopeDigest == c.envelopeDigest)
  }

  /** Over any chain the route never widens, and neither scope nor envelope is bound again. The route
      stays open exactly if it was and no step restricted it. */
  lemma {:induction false} ChainLaw(o: Outside, c: Capability, steps: seq<Step>)
    ensures Preserves(c, Run(o, c, steps))
    ensures Run(o, c, steps).route == PolicyAllowed
       <==> c.route == PolicyAllowed && forall i | 0 <= i < |steps| :: !Restricts(steps[i])
    decreases |steps|
  {
    hide PayloadDigest, EnvelopeDigest;
    if steps != [] {
      var d := Next(o, c, steps[0]);
      ChainLaw(o, d, steps[1..]);
      assert Preserves(c, d);
      assert (forall i | 0 <= i < |steps| :: !Restricts(steps[i]))
        <==> !Restricts(steps[0]) && forall i | 0 <= i < |steps[1..]| :: !Restricts(steps[1..][i]) by {
        assert steps == [steps[0]] + steps[1..];
      }
    }
  }

  /** What issuing establishes and every step keeps: both halves of a scope or none, and no open route
      under a restriction or a fail-closed authority. */
  ghost predicate Sound(c: Capability) {
    && (c.purpose.Some? <==> c.payloadDigest.Some?)
    && (c.restriction.Some? ==> c.route == LocalOnly)
    && (c.authority == LocalOnlyFailClosed ==> c.route == LocalOnly)
  }

  lemma {:induction false} IssuedSound(o: Outside, reason: Reason, tag: Text, version: Text, id: Text, text: Text,
                                       sensitive: bool, subject: Subject, purpose: Text, p: Payload)
    ensures Sound(FailClosed(o, reason, tag, version))
    ensures Sound(ForUserMessage(o, id, text, sensitive, tag, version))
    ensures subject.Probe? ==> Sound(ForProbe(o, subject, purpose, p, version))
  {
  }

  /** The errors for an incomplete scope and for an open restricted route are never seen. */
  lemma {:induction false} ChainStaysSound(o: Outside, c: Capability, steps: seq<Step>, p: Payload, e: Envelope,
                                           networkDigest: Text, networkAllows: bool)
    requires Sound(c)
    ensures Sound(Run(o, c, steps))
    ensures ValidateUnfilteredPayload(o, Run(o, c, steps), p) != Some(ScopeIncomplete)
    ensures ValidateForRequest(o, Run(o, c, steps), e, networkDigest, networkAllows) !in [Some(FailClosedRoute), Some(RestrictedRoute)]
    decreases |steps|
  {
    hide PayloadDigest, EnvelopeDigest;
    if steps != [] {
      ChainStaysSound(o, Next(o, c, steps[0]), steps[1..], p, e, networkDigest, networkAllows);
    }
  }

  // --------------------------------------------- what an authorised capability accepts

  /** `c` is authorised for this purpose and payload. */
  ghost predicate AuthorizedFor(o: Outside, c: Capability, purpose: Text, p: Payload) {
    c.purpose == Some(purpose) && c.payloadDigest == Some(PayloadDigest(o, c.subject, purpose, p))
  }

  /** A granted authorisation holds for its payload through every later chain. */
  lemma {:induction false} AuthorizationLasts(o: Outside, c: Capability, purpose: Text, userText: Text, p: Payload,
                                              steps: seq<Step>)
    requires AuthorizeDerivedPayload(o, c, purpose, userText, p).Granted?
    ensures AuthorizedFor(o, Run(o, AuthorizeDerivedPayload(o, c, purpose, userText, p).capability, steps), purpose, p)
  {
    hide PayloadDigest;
    ChainLaw(o, AuthorizeDerivedPayload(o, c, purpose, userText, p).capability, steps);
  }

  /** All parts of these two payload scopes have lengths that fit their prefix. */
  ghost predicate ScopesFit(o: Outside, subject: Subject, purpose: Text, p: Payload, q: Payload) {
    Short(PayloadScope(o, subject, purpose, p)) && Short(PayloadScope(o, subject, purpose, q))
  }

  lemma {:induction false} SameDigest(o: Outside, a: seq<Text>, b: seq<Text>)
    requires CollisionFree(o) && Short(a) && Short(b)
    ensures o.digest(Encode(a)) == o.digest(Encode(b)) <==> a == b
  {
    hide Encode, Short;
    UniquelyDecodable(a, b);
  }

  /** An authorised capability accepts a payload exactly if no envelope is bound and the payload has
      the part list it was authorised for: the same payload, if the list lengths match. */
  lemma {:induction false} AcceptsOnlyItsPayload(o: Outside, c: Capability, purpose: Text, p: Payload, q: Payload)
    requires CollisionFree(o) && AuthorizedFor(o, c, purpose, p) && ScopesFit(o, c.subject, purpose, p, q)
    ensures ValidateUnfilteredPayload(o, c, q).None? <==> c.envelopeDigest.None? && ContentParts(p) == ContentParts(q)
    ensures Representable(p) && Representable(q) && SameCounts(p, q)
        ==> (ValidateUnfilteredPayload(o, c, q).None? <==> c.envelopeDigest.None? && p == q)
  {
    hide Encode, Short, ContentParts, CollisionFree, Representable;
    var head := [PAYLOAD_LABEL, o.material(c.subject), purpose];
    SameDigest(o, head + ContentParts(p), head + ContentParts(q));
    assert (head + ContentParts(p))[3..] == ContentParts(p) && (head + ContentParts(q))[3..] == ContentParts(q);
    if Representable(p) && Representable(q) && SameCounts(p, q) && ContentParts(p) == ContentParts(q) {
      PayloadFromParts(p, q);
    }
  }

  /** Authorising again is granted exactly for the same subject text, purpose and part list, and then
      changes nothing. */
  lemma {:induction false} AuthorizesOnlyItsPayload(o: Outside, c: Capability, purpose: Text, p: Payload,
                                                    purpose': Text, userText: Text, q: Payload)
    requires CollisionFree(o) && AuthorizedFor(o, c, purpose, p) && ScopesFit(o, c.subject, purpose, p, q)
    ensures var r := AuthorizeDerivedPayload(o, c, purpose', userText, q);
      && (r.Granted? <==> SubjectRefusal(o, c, userText).None? && purpose' == purpose && ContentParts(p) == ContentParts(q))
      && (r.Granted? ==> r.capability == c)
  {
    hide Encode, Short, ContentParts, CollisionFree;
    if purpose' == purpose {
      var head := [PAYLOAD_LABEL, o.material(c.subject), purpose];
      SameDigest(o, head + ContentParts(p), head + ContentParts(q));
      assert (head + ContentParts(p))[3..] == ContentParts(p) && (head + ContentParts(q))[3..] == ContentParts(q);
    }
  }

  /** A capability bound to an envelope validates no payload any more, and a request only if it has the
      envelope's part list, through every later chain. */
  lemma {:induction false} BoundForGood(o: Outside, c: Capability, e: Envelope, steps: seq<Step>, f: Envelope, p: Payload,
                                        networkDigest: Text, networkAllows: bool)
    requires CollisionFree(o) && Short(EnvelopeScope(e)) && Short(EnvelopeScope(f))
    requires BindPreparedEnvelope(o, c, e).Granted?
    ensures var d := Run(o, BindPreparedEnvelope(o, c, e).capability, steps);
      && ValidateUnfilteredPayload(o, d, p) == Some(AlreadyBound)
      && BindPreparedEnvelope(o, d, f) == Refused(EnvelopeRebound)
      && (ValidateForRequest(o, d, f, networkDigest, networkAllows).None? ==> EnvelopeScope(f) == EnvelopeScope(e))
      && (ValidateForRequest(o, d, f, networkDigest, networkAllows) == Some(EnvelopeMismatch) ==> EnvelopeScope(f) != EnvelopeScope(e))
  {
    hide Encode, Short, EnvelopeScope, CollisionFree, PayloadDigest, ProbeTargetMatches, Run;
    ChainLaw(o, BindPreparedEnvelope(o, c, e).capability, steps);
    SameDigest(o, EnvelopeScope(f), EnvelopeScope(e));
  }

  // ------------------------------------------------ when a capability says yes

  /** The subject a capability was issued for allows this user text: it binds none, or this one; a probe
      allows none. */
  predicate Allows(o: Outside, subject: Subject, userText: Text) {
    match subject
    case Nobody => true
    case CurrentUser(_, digest) => o.digest(userText) == digest
    case Probe(_, _, _, _, _, _) => false
  }

  /** Authorising is granted exactly if the subject allows the user text and no scope is set yet, or the same
      one; it then sets purpose and payload digest and nothing else. The digest is of the label, the subject,
      the purpose and the content, in this order. */
  lemma {:induction false} AuthorizedExactly(o: Outside, c: Capability, purpose: Text, userText: Text, p: Payload)
    requires Sound(c)
    ensures var digest := o.digest(Encode([Ascii("provider_unfiltered_payload_v1"), o.material(c.subject), purpose] + ContentParts(p)));
      AuthorizeDerivedPayload(o, c, purpose, userText, p)
      == if !Allows(o, c.subject, userText) then Refused(if c.subject.Probe? then NoBoundSubject else SubjectMismatch)
         else if c.purpose == None || (c.purpose == Some(purpose) && c.payloadDigest == Some(digest))
         then Granted(Capability(c.decisionId, c.policyVersion, c.route, c.authority, c.restriction, c.subject,
                                 Some(purpose), Some(digest), c.envelopeDigest))
         else Refused(ScopeRebound)
  {
    hide Encode, ContentParts, Ascii;
  }

  /** A payload is valid exactly if a scope is set, no envelope is bound, and its digest is the one set. */
  lemma {:induction false} ValidExactly(o: Outside, c: Capability, p: Payload)
    requires Sound(c)
    ensures ValidateUnfilteredPayload(o, c, p)
      == if c.envelopeDigest != None then Some(AlreadyBound)
         else if c.purpose == None then Some(ScopeMissing)
         else if c.payloadDigest == Some(PayloadDigest(o, c.subject, c.purpose.value, p)) then None
         else Some(PayloadMismatch)
  {
    hide PayloadDigest;
  }

  /** The network of a probe: nothing is asked of other subjects. */
  ghost predicate Reaches(o: Outside, s: Subject, e: Envelope, networkDigest: Text, networkAllows: bool) {
    match s
    case Probe(_, provider, model, endpoint, network, _) =>
      && o.digest(o.trim(e.provider)) == provider && o.digest(o.trim(e.model)) == model
      && o.digest(o.trim(e.endpoint)) == endpoint && networkDigest == network && networkAllows
    case _ => true
  }

  /** A request passes exactly if the capability is complete, the manifest names its decision, a probe goes where
      it was authorised to go, and the envelope is the one bound: the errors for an open route cannot come. */
  lemma {:induction false} RequestExactly(o: Outside, c: Capability, e: Envelope, networkDigest: Text, networkAllows: bool)
    requires Sound(c)
    ensures ValidateForRequest(o, c, e, networkDigest, networkAllows)
      == if o.trim(c.decisionId) == [] || o.trim(c.policyVersion) == [] then Some(Incomplete)
         else if e.manifest.privacyDecisionId != c.decisionId then Some(ManifestMismatch)
         else if !Reaches(o, c.subject, e, networkDigest, networkAllows) then Some(ProbeMismatch)
         else if c.envelopeDigest == Some(EnvelopeDigest(o, e)) then None
         else Some(EnvelopeMismatch)
  {
    hide EnvelopeDigest;
  }

  /** A restriction sets route and reason alone; a binding is granted exactly once, and sets the envelope's
      digest alone. */
  lemma {:induction false} SetExactly(o: Outside, c: Capability, reason: Reason, e: Envelope)
    ensures RestrictToLocal(c, reason)
      == Capability(c.decisionId, c.policyVersion, LocalOnly, c.authority, Some(reason), c.subject, c.purpose, c.payloadDigest, c.envelopeDigest)
    ensures BindPreparedEnvelope(o, c, e)
      == if c.envelopeDigest == None
         then Granted(Capability(c.decisionId, c.policyVersion, c.route, c.authority, c.restriction, c.subject,
                                 c.purpose, c.payloadDigest, Some(EnvelopeDigest(o, e))))
         else Refused(EnvelopeRebound)
  {
    hide EnvelopeDigest;
  }

  /** What was issued for sensitive text, or fail-closed, stays local through every chain; what was issued for
      other text stays open until a step restricts it. */
  lemma {:induction false} IssuedRoute(o: Outside, id: Text, text: Text, sensitive: bool, decision: Text, version: Text,
                                       reason: Reason, tag: Text, steps: seq<Step>)
    ensures Run(o, FailClosed(o, reason, tag, version), steps).route == LocalOnly
    ensures var c := Run(o, ForUserMessage(o, id, text, sensitive, decision, version), steps);
      && c.subject == CurrentUser(id, o.digest(text)) && c.decisionId == decision && c.policyVersion == version
      && (c.route == PolicyAllowed <==> !sensitive && forall s | s in steps :: !s.Restrict?)
  {
    hide Run;
    ChainLaw(o, FailClosed(o, reason, tag, version), steps);
    ChainLaw(o, ForUserMessage(o, id, text, sensitive, decision, version), steps);
  }

  /** A probe's capability is its own for good: for its subject, purpose and payload, under the decision that
      authorised it, and no later step authorises another payload. */
  lemma {:induction false} ProbeForGood(o: Outside, subject: Subject, purpose: Text, p: Payload, version: Text, steps: seq<Step>,
                                        purpose': Text, userText: Text, q: Payload)
    requires subject.Probe?
    ensures var c := Run(o, ForProbe(o, subject, purpose, p, version), steps);
      && c.decisionId == subject.authorizationId && c.policyVersion == version && c.authority == ExplicitProbePolicy
      && c.subject == subject && AuthorizedFor(o, c, purpose, p)
      && AuthorizeDerivedPayload(o, c, purpose', userText, q) == Refused(NoBoundSubject)
      && (c.route == PolicyAllowed <==> forall s | s in steps :: !s.Restrict?)
  {
    hide Run, PayloadDigest;
    ChainLaw(o, ForProbe(o, subject, purpose, p, version), steps);
  }

  // ------------------------------------------------- what the digests bind

  lemma {:induction false} SameHead(p: seq<Text>, q: seq<Text>, t: seq<Text>, u: seq<Text>)
    requires p + t == q + u && |p| == |q|
    ensures p == q && t == u
  {
    assert (p + t)[..|p|] == p && (q + u)[..|q|] == q;
    assert (p + t)[|p|..] == t && (q + u)[|q|..] == u;
  }

  /** Without collisions a payload digest binds subject, purpose and content. */
  lemma {:induction false} DigestBindsScope(o: Outside, s: Subject, t: Subject, purpose: Text, purpose': Text, p: Payload, q: Payload)
    requires CollisionFree(o) && Short(PayloadScope(o, s, purpose, p)) && Short(PayloadScope(o, t, purpose', q))
    ensures PayloadDigest(o, s, purpose, p) == PayloadDigest(o, t, purpose', q)
       <==> o.material(s) == o.material(t) && purpose == purpose' && ContentParts(p) == ContentParts(q)
  {
    hide Encode, Short, ContentParts, CollisionFree;
    SameDigest(o, PayloadScope(o, s, purpose, p), PayloadScope(o, t, purpose', q));
    var a, b := [PAYLOAD_LABEL, o.material(s), purpose], [PAYLOAD_LABEL, o.material(t), purpose'];
    if a + ContentParts(p) == b + ContentParts(q) {
      SameHead(a, b, ContentParts(p), ContentParts(q));
      assert a[1] == b[1] && a[2] == b[2];
    }
  }

  lemma {:induction false} ProvenanceLength(provenance: seq<Provenance>)
    ensures |ProvenanceParts(provenance)| == 3 * |provenance|
  {
    if provenance != [] {
      ProvenanceLength(provenance[1..]);
    }
  }

  lemma {:induction false} ProvenanceFromParts(a: seq<Provenance>, b: seq<Provenance>)
    requires ProvenanceParts(a) == ProvenanceParts(b)
    ensures a == b
  {
    ProvenanceLength(a);
    ProvenanceLength(b);
    if a != [] {
      var x, y := [a[0].kind, a[0].referenceId, a[0].digest], [b[0].kind, b[0].referenceId, b[0].digest];
      SameHead(x, y, ProvenanceParts(a[1..]), ProvenanceParts(b[1..]));
      assert x[0] == y[0] && x[1] == y[1] && x[2] == y[2];
      ProvenanceFromParts(a[1..], b[1..]);
      assert a == [a[0]] + a[1..] && b == [b[0]] + b[1..];
    }
  }

  predicate SameShape(e: Envelope, f: Envelope) {
    && |e.manifest.contextRefs| == |f.manifest.contextRefs|
    && |e.manifest.includedCategories| == |f.manifest.includedCategories|
    && |e.manifest.declaredCategories| == |f.manifest.declaredCategories|
    && |e.manifest.provenance| == |f.manifest.provenance| && SameCounts(e.payload, f.payload)
  }

  /** The part of an envelope's scope between its provenance and its content. */
  function Middle(e: Envelope): seq<Text> {
    [[Bit(e.manifest.rawLifeModel), Bit(e.manifest.rawMemory)], e.provider, e.model, e.endpoint, e.generation,
     BigEndian(e.credentialVersion, 8), [Bit(e.toolsRequired)]]
  }

  lemma {:induction false} SameMiddle(e: Envelope, f: Envelope)
    requires Middle(e) == Middle(f) && e.credentialVersion < Power(8) && f.credentialVersion < Power(8)
    ensures e.manifest.rawLifeModel == f.manifest.rawLifeModel && e.manifest.rawMemory == f.manifest.rawMemory
    ensures e.provider == f.provider && e.model == f.model && e.endpoint == f.endpoint && e.generation == f.generation
    ensures e.credentialVersion == f.credentialVersion && e.toolsRequired == f.toolsRequired
  {
    hide BigEndian, FromBigEndian, Power;
    var a, b := Middle(e), Middle(f);
    assert a[0] == b[0] && a[0][0] == b[0][0] && a[0][1] == b[0][1];
    assert a[1] == b[1] && a[2] == b[2] && a[3] == b[3] && a[4] == b[4] && a[5] == b[5] && a[6] == b[6] && a[6][0] == b[6][0];
    BigEndianRoundTrip(e.credentialVersion, 8);
    BigEndianRoundTrip(f.credentialVersion, 8);
  }

  lemma {:induction false} ScopeGroups(e: Envelope)
    ensures EnvelopeScope(e)
      == [ENVELOPE_LABEL, e.manifest.requestId, e.manifest.privacyDecisionId]
         + (e.manifest.contextRefs + (e.manifest.includedCategories + (e.manifest.declaredCategories
         + (ProvenanceParts(e.manifest.provenance) + (Middle(e) + ContentParts(e.payload))))))
  {
    hide ProvenanceParts, ContentParts, BigEndian;
  }

  /** Envelopes with the same parts are the same, if their lists have the same lengths: no field of an envelope
      is left out of its scope. */
  lemma {:induction false} EnvelopeFromParts(e: Envelope, f: Envelope)
    requires EnvelopeScope(e) == EnvelopeScope(f) && SameShape(e, f) && Representable(e.payload) && Representable(f.payload)
    requires e.credentialVersion < Power(8) && f.credentialVersion < Power(8)
    ensures e == f
  {
    hide ProvenanceParts, ContentParts, BigEndian, EnvelopeScope, Representable, Power, SameCounts;
    ScopeGroups(e);
    ScopeGroups(f);
    var m, n := e.manifest, f.manifest;
    var a5, b5 := Middle(e) + ContentParts(e.payload), Middle(f) + ContentParts(f.payload);
    var a4, b4 := ProvenanceParts(m.provenance) + a5, ProvenanceParts(n.provenance) + b5;
    var a3, b3 := m.declaredCategories + a4, n.declaredCategories + b4;
    var a2, b2 := m.includedCategories + a3, n.includedCategories + b3;
    var head, head' := [ENVELOPE_LABEL, m.requestId, m.privacyDecisionId], [ENVELOPE_LABEL, n.requestId, n.privacyDecisionId];
    SameHead(head, head', m.contextRefs + a2, n.contextRefs + b2);
    assert head[1] == head'[1] && head[2] == head'[2];
    SameHead(m.contextRefs, n.contextRefs, a2, b2);
    SameHead(m.includedCategories, n.includedCategories, a3, b3);
    SameHead(m.declaredCategories, n.declaredCategories, a4, b4);
    ProvenanceLength(m.provenance);
    ProvenanceLength(n.provenance);
    SameHead(ProvenanceParts(m.provenance), ProvenanceParts(n.provenance), a5, b5);
    ProvenanceFromParts(m.provenance, n.provenance);
    SameHead(Middle(e), Middle(f), ContentParts(e.payload), ContentParts(f.payload));
    SameMiddle(e, f);
    PayloadFromParts(e.payload, f.payload);
  }
}
