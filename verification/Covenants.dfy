/** Activating a covenant, authorizing its action, and recording the outcome. Times are in milliseconds. */
module Covenants {
  import opened CodeUnits
  import opened Json
  import opened CompactJws
  import opened CovenantRecords
  import opened Policies

  // ---- what the schemas read out of the JSON -----------------------------------------

  datatype Requirement = Requirement(id: Text, evidenceType: Text, maxAgeSeconds: int)

  datatype Invalidation = Invalidation(id: Text, signalType: Text, pattern: seq<(Text, Value)>)

  datatype Forbidden = Forbidden(id: Text, effectType: Text, target: Option<Text>)

  datatype Draft = Draft(
    action: JsonValue, principal: Text, authority: Authority, requirements: seq<Requirement>, rules: seq<Invalidation>,
    forbidden: seq<Forbidden>, draftedAt: Text, expiresAt: Text)

  datatype Acceptance = Acceptance(acceptedBy: Text, acceptedAt: Text, draftHash: Text)

  datatype Observation = Observation(requirementId: Text, evidenceType: Text, observedAt: Text)

  datatype Signal = Signal(signalType: Text, attributes: map<Text, Value>)

  datatype Effect = Effect(effectType: Text, target: Text)

  datatype Execution = Execution(startedAt: Text, finishedAt: Text, effects: seq<Effect>)

  /** `hash` is sha256 of the canonical text, or None when canonicalize throws. */
  datatype World = World(
    hash: JsonValue -> Option<Text>, sha: Text -> Text, iso: int -> Text, parseDate: Text -> int,
    draft: JsonValue -> Draft, acceptance: JsonValue -> Acceptance, action: JsonValue -> ActionView,
    evidence: JsonValue -> seq<Observation>, signals: JsonValue -> seq<Signal>, execution: JsonValue -> Execution,
    ruleText: Rule -> Text, reasonText: Reason -> Text, risk: seq<PolicyResult> -> Number)

  /** Hashes tell contents apart, up to key order, and a date survives being written and read. */
  ghost predicate Sound(w: World) {
    && (forall u: JsonValue, v: JsonValue :: w.hash(u).Some? && w.hash(v).Some? ==> (w.hash(u) == w.hash(v) <==> Same(u, v)))
    && (forall time :: w.parseDate(w.iso(time)) == time)
  }

  // ---- activation ------------------------------------------------------------------------

  datatype Problem =
    | Unhashable | NoSigningKey
    | ACCEPTANCE_PRINCIPAL_MISMATCH | DRAFT_HASH_MISMATCH | ACCEPTANCE_TIME_INVALID | DRAFT_EXPIRED
    | AUTHORIZATION_RECEIPT_INVALID | AUTHORIZATION_ISSUER_MISMATCH | ACTION_NOT_AUTHORIZED | COVENANT_RECEIPT_MISMATCH
    | OUTCOME_TIME_INVALID | AUTHORIZATION_EXPIRED_BEFORE_EXECUTION

  datatype Result<T> = Done(value: T) | Refused(why: Problem)

  function ActivateActionCovenant(draft: JsonValue, acceptance: JsonValue, now: int, skew: int, id: Text, w: World): Result<Covenant> {
    var d, a := w.draft(draft), w.acceptance(acceptance);
    if a.acceptedBy != d.principal then Refused(ACCEPTANCE_PRINCIPAL_MISMATCH)
    else if w.hash(draft).None? then Refused(Unhashable)
    else if a.draftHash != w.hash(draft).value then Refused(DRAFT_HASH_MISMATCH)
    else if w.parseDate(a.acceptedAt) > now + skew then Refused(ACCEPTANCE_TIME_INVALID)
    else if w.parseDate(a.acceptedAt) < w.parseDate(d.draftedAt) then Refused(ACCEPTANCE_TIME_INVALID)
    else if w.parseDate(d.expiresAt) <= now then Refused(DRAFT_EXPIRED)
    else
      var c := Covenant(id, w.iso(now), draft, acceptance, []);
      match w.hash(CovenantBody(c))
      case None => Refused(Unhashable)
      case Some(hash) => Done(c.(hash := hash))
  }

  /**
   A draft is activated exactly when its own principal accepted this very draft after it was made and not in the
   future, and it has not expired; each refusal names the first of these that fails.
   */
  lemma ActivatesExactly(draft: JsonValue, acceptance: JsonValue, now: int, skew: int, id: Text, w: World)
    ensures var d, a, r := w.draft(draft), w.acceptance(acceptance), ActivateActionCovenant(draft, acceptance, now, skew, id, w);
            var own := a.acceptedBy == d.principal;
            var bound := own && w.hash(draft) == Some(a.draftHash);
            var timely := bound && w.parseDate(d.draftedAt) <= w.parseDate(a.acceptedAt) <= now + skew;
            var body := CovenantBody(Covenant(id, w.iso(now), draft, acceptance, []));
            && (r.Done? <==> timely && now < w.parseDate(d.expiresAt) && w.hash(body).Some?)
            && (r.Done? ==> w.hash(body) == Some(r.value.hash) && r.value.(hash := []) == Covenant(id, w.iso(now), draft, acceptance, []))
            && (r == Refused(ACCEPTANCE_PRINCIPAL_MISMATCH) <==> !own)
            && (r == Refused(DRAFT_HASH_MISMATCH) <==> own && w.hash(draft).Some? && !bound)
            && (r == Refused(ACCEPTANCE_TIME_INVALID) <==> bound && !timely)
            && (r == Refused(DRAFT_EXPIRED) <==> timely && now >= w.parseDate(d.expiresAt))
  {
  }

  // ---- authorization -----------------------------------------------------------------------

  datatype AuthorizationOptions = AuthorizationOptions(
    key: PrivateKey, issuer: Text, ttlSeconds: int, sensitiveActions: seq<Text>, grantMode: GrantMode, trustedAuthority: bool)

  datatype Authorization = Authorization(decision: Decision, results: seq<PolicyResult>, payload: AuthorizationPayload, token: Text)

  function IntegrityResult(valid: bool): PolicyResult {
    if valid then Passed(CovenantIntegrity) else Failed(CovenantIntegrity, COVENANT_INTEGRITY_INVALID)
  }

  function ExpiryResult(expiresAt: int, now: int): PolicyResult {
    if expiresAt > now then Passed(CovenantTime) else Failed(CovenantTime, COVENANT_EXPIRED)
  }

  function ExactActionResult(expected: Text, actual: Text): PolicyResult {
    if expected == actual then Passed(CovenantAction) else Failed(CovenantAction, ACTION_COVENANT_MISMATCH)
  }

  /** evidence.find(...). */
  function FindObservation(observations: seq<Observation>, id: Text): Option<Observation> {
    if observations == [] then None
    else if observations[0].requirementId == id then Some(observations[0])
    else FindObservation(observations[1..], id)
  }

  function EvidenceResult(w: World, r: Requirement, observations: seq<Observation>, now: int): PolicyResult {
    var rule := EvidenceCurrent(Some(r.id));
    match FindObservation(observations, r.id)
    case None => Held(rule, EVIDENCE_MISSING)
    case Some(o) =>
      if o.evidenceType != r.evidenceType then Held(rule, EVIDENCE_TYPE_MISMATCH)
      else if w.parseDate(o.observedAt) > now then Held(rule, EVIDENCE_FROM_FUTURE)
      else if (now - w.parseDate(o.observedAt)) as real / 1000.0 > r.maxAgeSeconds as real then Held(rule, EVIDENCE_STALE)
      else Passed(rule)
  }

  function EachEvidence(w: World, rs: seq<Requirement>, observations: seq<Observation>, now: int): seq<PolicyResult> {
    if rs == [] then [] else [EvidenceResult(w, rs[0], observations, now)] + EachEvidence(w, rs[1..], observations, now)
  }

  function EvaluateEvidence(w: World, rs: seq<Requirement>, observations: seq<Observation>, now: int): seq<PolicyResult> {
    if rs == [] then [Passed(EvidenceCurrent(None))] else EachEvidence(w, rs, observations, now)
  }

  /** Object.entries(rule.pattern).every(...). */
  predicate EveryEntry(pattern: seq<(Text, Value)>, attributes: map<Text, Value>) {
    pattern == [] ||
    (pattern[0].0 in attributes && attributes[pattern[0].0] == pattern[0].1 && EveryEntry(pattern[1..], attributes))
  }

  /** signals.find(...) finds one. */
  predicate SomeSignal(signals: seq<Signal>, rule: Invalidation) {
    signals != [] &&
    ((signals[0].signalType == rule.signalType && EveryEntry(rule.pattern, signals[0].attributes)) || SomeSignal(signals[1..], rule))
  }

  /** A signal of the rule's type that has every attribute of its pattern. */
  predicate SignalMatches(s: Signal, rule: Invalidation) {
    s.signalType == rule.signalType &&
    forall i :: 0 <= i < |rule.pattern| ==> rule.pattern[i].0 in s.attributes && s.attributes[rule.pattern[i].0] == rule.pattern[i].1
  }

  predicate Invalidates(signals: seq<Signal>, rule: Invalidation) {
    exists i :: 0 <= i < |signals| && SignalMatches(signals[i], rule)
  }

  function EachInvalidation(rules: seq<Invalidation>, signals: seq<Signal>): seq<PolicyResult> {
    if rules == [] then []
    else
      [if SomeSignal(signals, rules[0]) then Failed(InvalidationClear(Some(rules[0].id)), COVENANT_INVALIDATED)
       else Passed(InvalidationClear(Some(rules[0].id)))] + EachInvalidation(rules[1..], signals)
  }

  function EvaluateInvalidation(rules: seq<Invalidation>, signals: seq<Signal>): seq<PolicyResult> {
    if rules == [] then [Passed(InvalidationClear(None))] else EachInvalidation(rules, signals)
  }

  function PolicyRequest(w: World, r: AuthorizationRequest): Request {
    Request(true, w.action(r.action), w.draft(r.covenant.draft).authority)
  }

  function PolicyOptions(o: AuthorizationOptions): Options {
    Options(o.sensitiveActions, o.trustedAuthority, o.grantMode, None, None, None, None, None, [])
  }

  function HeadResults(valid: bool, expiresAt: int, now: int, expected: Text, actual: Text): seq<PolicyResult> {
    [IntegrityResult(valid), Passed(CovenantStatus), ExpiryResult(expiresAt, now), ExactActionResult(expected, actual)]
  }

  /** All results, given the hashes of the covenant, the drafted action and the action. */
  function CovenantResults(w: World, r: AuthorizationRequest, o: AuthorizationOptions, now: int, covenantHash: Text, expected: Text, actual: Text): seq<PolicyResult> {
    var d := w.draft(r.covenant.draft);
    HeadResults(covenantHash == r.covenant.hash, w.parseDate(d.expiresAt), now, expected, actual) +
    EvaluateEvidence(w, d.requirements, w.evidence(r.evidence), now) + EvaluateInvalidation(d.rules, w.signals(r.signals)) +
    PolicyResults(PolicyRequest(w, r), PolicyOptions(o))
  }

  function RuleTexts(w: World, rs: seq<PolicyResult>): seq<Text> {
    if rs == [] then [] else [w.ruleText(rs[0].rule)] + RuleTexts(w, rs[1..])
  }

  function ReasonTexts(w: World, rs: seq<PolicyResult>): seq<Text> {
    if rs == [] then []
    else (match rs[0].reason case None => [] case Some(reason) => [w.reasonText(reason)]) + ReasonTexts(w, rs[1..])
  }

  function Earlier(a: int, b: int): int { if a < b then a else b }

  /** The last moment an action authorized now may start. */
  function Deadline(w: World, r: AuthorizationRequest, o: AuthorizationOptions, now: int): int {
    Earlier(w.parseDate(w.draft(r.covenant.draft).expiresAt), now + o.ttlSeconds * 1000)
  }

  predicate Hashable(w: World, r: AuthorizationRequest) {
    w.hash(CovenantBody(r.covenant)).Some? && w.hash(w.draft(r.covenant.draft).action).Some? && w.hash(r.action).Some? &&
    w.hash(RequestValue(r)).Some? && w.hash(r.evidence).Some? && w.hash(r.signals).Some?
  }

  function ResultsOf(w: World, r: AuthorizationRequest, o: AuthorizationOptions, now: int): seq<PolicyResult>
    requires Hashable(w, r)
  {
    CovenantResults(w, r, o, now, w.hash(CovenantBody(r.covenant)).value,
                    w.hash(w.draft(r.covenant.draft).action).value, w.hash(r.action).value)
  }

  function PayloadOf(w: World, r: AuthorizationRequest, o: AuthorizationOptions, now: int, id: Text): AuthorizationPayload
    requires Hashable(w, r)
  {
    var rs := ResultsOf(w, r, o, now);
    AuthorizationPayload(
      id, o.issuer, w.iso(now), w.iso(Deadline(w, r, o, now)), r.covenant.id, r.covenant.hash, w.hash(RequestValue(r)).value,
      w.hash(r.action).value, w.hash(r.evidence).value, w.hash(r.signals).value, AggregateDecision(rs), w.risk(rs),
      RuleTexts(w, rs), ReasonTexts(w, rs))
  }

  function AuthorizeActionCovenant(r: AuthorizationRequest, o: AuthorizationOptions, now: int, id: Text, w: World, signer: Signer): Result<Authorization> {
    if !Hashable(w, r) then Refused(Unhashable)
    else
      var payload := PayloadOf(w, r, o, now, id);
      match signer.sign(AuthorizationValue(payload), o.key, AUTHORIZATION_TYP)
      case None => Refused(NoSigningKey)
      case Some(token) => Done(Authorization(payload.decision, ResultsOf(w, r, o, now), payload, token))
  }

  // ---- outcome -----------------------------------------------------------------------------------

  datatype OutcomeRequest = OutcomeRequest(covenant: Covenant, payload: AuthorizationPayload, token: Text, outcome: JsonValue)

  datatype OutcomeOptions = OutcomeOptions(key: PrivateKey, issuer: Text, skew: int)

  predicate Matched(rule: Forbidden, effects: seq<Effect>) {
    exists i :: 0 <= i < |effects| && effects[i].effectType == rule.effectType && (rule.target.None? || effects[i].target == rule.target.value)
  }

  /** effects.some(...). */
  predicate SomeEffect(rule: Forbidden, effects: seq<Effect>) {
    effects != [] &&
    ((effects[0].effectType == rule.effectType && (rule.target.None? || effects[0].target == rule.target.value)) ||
     SomeEffect(rule, effects[1..]))
  }

  function Violations(rules: seq<Forbidden>, effects: seq<Effect>): seq<Text> {
    if rules == [] then []
    else (if SomeEffect(rules[0], effects) then [FORBIDDEN_OUTCOME + rules[0].id] else []) + Violations(rules[1..], effects)
  }

  /** The checks after the receipt's signature, in order. */
  function OutcomeProblem(q: OutcomeRequest, o: OutcomeOptions, now: int, w: World): Option<Problem> {
    var covenantHash := w.hash(CovenantBody(q.covenant));
    var execution := w.execution(q.outcome);
    var startedAt := w.parseDate(execution.startedAt);
    if q.payload.issuer != o.issuer then Some(AUTHORIZATION_ISSUER_MISMATCH)
    else if q.payload.decision != ALLOW then Some(ACTION_NOT_AUTHORIZED)
    else if covenantHash.None? then Some(Unhashable)
    else if covenantHash.value != q.covenant.hash || q.payload.covenantHash != q.covenant.hash || q.payload.covenantId != q.covenant.id then
      Some(COVENANT_RECEIPT_MISMATCH)
    else if startedAt < w.parseDate(q.payload.issuedAt) - o.skew then Some(OUTCOME_TIME_INVALID)
    else if startedAt > w.parseDate(q.payload.expiresAt) then Some(AUTHORIZATION_EXPIRED_BEFORE_EXECUTION)
    else if w.parseDate(execution.finishedAt) > now + o.skew then Some(OUTCOME_TIME_INVALID)
    else None
  }

  function OutcomeOf(q: OutcomeRequest, o: OutcomeOptions, now: int, id: Text, w: World): OutcomePayload
    requires w.hash(q.outcome).Some?
  {
    var codes := Violations(w.draft(q.covenant.draft).forbidden, w.execution(q.outcome).effects);
    OutcomePayload(id, o.issuer, w.iso(now), q.payload.id, w.sha(q.token), q.covenant.id, q.covenant.hash, w.hash(q.outcome).value,
                   codes == [], codes)
  }

  predicate ReceiptVerifies(q: OutcomeRequest, o: OutcomeOptions, signer: Signer) {
    signer.verify(q.token, AuthorizationValue(q.payload), o.key, AUTHORIZATION_TYP)
  }

  function RecordActionOutcome(q: OutcomeRequest, o: OutcomeOptions, now: int, id: Text, w: World, signer: Signer): Result<(OutcomePayload, Text)> {
    if !ReceiptVerifies(q, o, signer) then Refused(AUTHORIZATION_RECEIPT_INVALID)
    else if OutcomeProblem(q, o, now, w).Some? then Refused(OutcomeProblem(q, o, now, w).value)
    else if w.hash(q.outcome).None? then Refused(Unhashable)
    else
      var payload := OutcomeOf(q, o, now, id, w);
      match signer.sign(OutcomeValue(payload), o.key, OUTCOME_TYP)
      case None => Refused(NoSigningKey)
      case Some(token) => Done((payload, token))
  }

  /** Which check of a presented receipt and outcome is the first to fail. */
  lemma OutcomeRefusal(q: OutcomeRequest, o: OutcomeOptions, now: int, id: Text, w: World, signer: Signer)
    ensures var r := RecordActionOutcome(q, o, now, id, w, signer);
            var started, finished := w.parseDate(w.execution(q.outcome).startedAt), w.parseDate(w.execution(q.outcome).finishedAt);
            var genuine := ReceiptVerifies(q, o, signer);
            var issued := genuine && q.payload.issuer == o.issuer;
            var allowed := issued && q.payload.decision == ALLOW && w.hash(CovenantBody(q.covenant)).Some?;
            var same := allowed && w.hash(CovenantBody(q.covenant)) == Some(q.covenant.hash) &&
              q.payload.covenantHash == q.covenant.hash && q.payload.covenantId == q.covenant.id;
            var begun := same && w.parseDate(q.payload.issuedAt) - o.skew <= started;
            && (r == Refused(AUTHORIZATION_RECEIPT_INVALID) <==> !genuine)
            && (r == Refused(AUTHORIZATION_ISSUER_MISMATCH) <==> genuine && !issued)
            && (r == Refused(ACTION_NOT_AUTHORIZED) <==> issued && q.payload.decision != ALLOW)
            && (r == Refused(COVENANT_RECEIPT_MISMATCH) <==> allowed && !same)
            && (r == Refused(AUTHORIZATION_EXPIRED_BEFORE_EXECUTION) <==> begun && started > w.parseDate(q.payload.expiresAt))
            && (r == Refused(OUTCOME_TIME_INVALID) <==>
                  (same && !begun) || (begun && started <= w.parseDate(q.payload.expiresAt) && finished > now + o.skew))
  {
    hide CovenantBody, OutcomeOf, OutcomeValue, ReceiptVerifies;
  }

  // ---- when an action is allowed --------------------------------------------------------------------

  /** The observation made for the requirement is of its type, not from the future and not too old. */
  predicate FreshEvidence(w: World, r: Requirement, observations: seq<Observation>, now: int) {
    exists i :: 0 <= i < |observations| && FirstFor(observations, r.id, i) && observations[i].evidenceType == r.evidenceType &&
      0 <= now - w.parseDate(observations[i].observedAt) <= 1000 * r.maxAgeSeconds
  }

  predicate FirstFor(observations: seq<Observation>, id: Text, i: nat)
    requires i < |observations|
  {
    observations[i].requirementId == id && forall j :: 0 <= j < i ==> observations[j].requirementId != id
  }

  lemma {:induction false} FindIsFirst(observations: seq<Observation>, id: Text)
    ensures match FindObservation(observations, id)
            case None => forall i :: 0 <= i < |observations| ==> observations[i].requirementId != id
            case Some(o) => exists i :: 0 <= i < |observations| && FirstFor(observations, id, i) && observations[i] == o
  {
    if observations != [] {
      if observations[0].requirementId == id {
        assert FirstFor(observations, id, 0);
      } else {
        FindIsFirst(observations[1..], id);
        assert forall i :: 1 <= i < |observations| ==> observations[i] == observations[1..][i - 1];
        if FindObservation(observations[1..], id).Some? {
          var i :| 0 <= i < |observations[1..]| && FirstFor(observations[1..], id, i) && observations[1..][i] == FindObservation(observations[1..], id).value;
          assert FirstFor(observations, id, i + 1);
        }
      }
    }
  }

  lemma EvidencePasses(w: World, r: Requirement, observations: seq<Observation>, now: int)
    ensures EvidenceResult(w, r, observations, now).verdict == PASS <==> FreshEvidence(w, r, observations, now)
  {
    FindIsFirst(observations, r.id);
    if FreshEvidence(w, r, observations, now) {
      var i :| 0 <= i < |observations| && FirstFor(observations, r.id, i) && observations[i].evidenceType == r.evidenceType &&
        0 <= now - w.parseDate(observations[i].observedAt) <= 1000 * r.maxAgeSeconds;
      assert FindObservation(observations, r.id).Some?;
      var j :| 0 <= j < |observations| && FirstFor(observations, r.id, j) && observations[j] == FindObservation(observations, r.id).value;
      assert i == j;
    }
  }

  lemma {:induction false} AllEvidencePasses(w: World, rs: seq<Requirement>, observations: seq<Observation>, now: int)
    ensures AggregateDecision(EachEvidence(w, rs, observations, now)) == ALLOW <==>
            forall i :: 0 <= i < |rs| ==> FreshEvidence(w, rs[i], observations, now)
  {
    if rs != [] {
      AllEvidencePasses(w, rs[1..], observations, now);
      DecisionOfBoth([EvidenceResult(w, rs[0], observations, now)], EachEvidence(w, rs[1..], observations, now));
      DecisionOfOne(EvidenceResult(w, rs[0], observations, now));
      EvidencePasses(w, rs[0], observations, now);
      assert forall i :: 1 <= i < |rs| ==> rs[i] == rs[1..][i - 1];
      assert forall i :: 0 <= i < |rs[1..]| ==> rs[1..][i] == rs[i + 1];
    }
  }

  lemma {:induction false} EveryEntryHolds(pattern: seq<(Text, Value)>, attributes: map<Text, Value>)
    ensures EveryEntry(pattern, attributes) <==>
            forall i :: 0 <= i < |pattern| ==> pattern[i].0 in attributes && attributes[pattern[i].0] == pattern[i].1
  {
    if pattern != [] {
      EveryEntryHolds(pattern[1..], attributes);
      assert forall i :: 1 <= i < |pattern| ==> pattern[i] == pattern[1..][i - 1];
      assert forall i :: 0 <= i < |pattern[1..]| ==> pattern[1..][i] == pattern[i + 1];
    }
  }

  lemma {:induction false} SomeSignalInvalidates(signals: seq<Signal>, rule: Invalidation)
    ensures SomeSignal(signals, rule) <==> Invalidates(signals, rule)
  {
    if signals != [] {
      EveryEntryHolds(rule.pattern, signals[0].attributes);
      SomeSignalInvalidates(signals[1..], rule);
      assert forall i :: 1 <= i < |signals| ==> signals[i] == signals[1..][i - 1];
      assert forall i :: 0 <= i < |signals[1..]| ==> signals[1..][i] == signals[i + 1];
    }
  }

  lemma {:induction false} SomeEffectMatches(rule: Forbidden, effects: seq<Effect>)
    ensures SomeEffect(rule, effects) <==> Matched(rule, effects)
  {
    if effects != [] {
      SomeEffectMatches(rule, effects[1..]);
      assert forall i :: 1 <= i < |effects| ==> effects[i] == effects[1..][i - 1];
      assert forall i :: 0 <= i < |effects[1..]| ==> effects[1..][i] == effects[i + 1];
    }
  }

  lemma {:induction false} AllInvalidationsClear(rules: seq<Invalidation>, signals: seq<Signal>)
    ensures AggregateDecision(EachInvalidation(rules, signals)) == ALLOW <==>
            forall i :: 0 <= i < |rules| ==> !Invalidates(signals, rules[i])
  {
    if rules != [] {
      AllInvalidationsClear(rules[1..], signals);
      SomeSignalInvalidates(signals, rules[0]);
      var first := EachInvalidation(rules, signals)[0];
      DecisionOfBoth([first], EachInvalidation(rules[1..], signals));
      DecisionOfOne(first);
      assert forall i :: 1 <= i < |rules| ==> rules[i] == rules[1..][i - 1];
      assert forall i :: 0 <= i < |rules[1..]| ==> rules[1..][i] == rules[i + 1];
    }
  }

  /** Everything an ALLOW rests on. */
  ghost predicate Allowed(w: World, r: AuthorizationRequest, o: AuthorizationOptions, now: int) {
    w.hash(CovenantBody(r.covenant)) == Some(r.covenant.hash) && TermsMet(w, r, o, now)
  }

  /** What the draft and the deployment ask of an action. */
  ghost predicate TermsMet(w: World, r: AuthorizationRequest, o: AuthorizationOptions, now: int) {
    var d := w.draft(r.covenant.draft);
    && w.parseDate(d.expiresAt) > now
    && Same(d.action, r.action)
    && (forall i :: 0 <= i < |d.requirements| ==> FreshEvidence(w, d.requirements[i], w.evidence(r.evidence), now))
    && (forall i :: 0 <= i < |d.rules| ==> !Invalidates(w.signals(r.signals), d.rules[i]))
    && o.trustedAuthority && o.grantMode == OPTIONAL
    && WithinAuthority(w.action(r.action), d.authority) && Unattended(w.action(r.action), d.authority, o.sensitiveActions)
  }

  /**
   The decision is ALLOW exactly when the covenant is intact and unexpired, the action is the drafted one, every
   requirement has fresh evidence, no signal invalidates, and the policies allow the action; a
   deployment that requires signed grants allows nothing here, as none is passed on.
   */
  lemma AllowedExactly(w: World, r: AuthorizationRequest, o: AuthorizationOptions, now: int)
    requires Sound(w) && Hashable(w, r)
    ensures AggregateDecision(ResultsOf(w, r, o, now)) == ALLOW <==> Allowed(w, r, o, now)
  {
    var d := w.draft(r.covenant.draft);
    var valid := w.hash(CovenantBody(r.covenant)).value == r.covenant.hash;
    var expected, actual := w.hash(d.action).value, w.hash(r.action).value;
    var head := HeadResults(valid, w.parseDate(d.expiresAt), now, expected, actual);
    var evidence := EvaluateEvidence(w, d.requirements, w.evidence(r.evidence), now);
    var invalidation := EvaluateInvalidation(d.rules, w.signals(r.signals));
    var policies := PolicyResults(PolicyRequest(w, r), PolicyOptions(o));
    DecisionOfBoth(head + evidence + invalidation, policies);
    DecisionOfBoth(head + evidence, invalidation);
    DecisionOfBoth(head, evidence);
    HeadAllow(valid, w.parseDate(d.expiresAt), now, expected, actual);
    EvidenceAllow(w, d.requirements, w.evidence(r.evidence), now);
    InvalidationAllow(d.rules, w.signals(r.signals));
    AllowedExactlyWhenAllowable(PolicyRequest(w, r), PolicyOptions(o));
  }

  /**
   Under the hash of an activated covenant, an action is allowed exactly when the covenant presented is the
   activated one, up to key order, and the action meets its terms; its principal accepted that draft, in time.
   */
  lemma ActivatedThenAllowed(
    draft: JsonValue, acceptance: JsonValue, at: int, skew: int, id: Text, w: World,
    r: AuthorizationRequest, o: AuthorizationOptions, now: int)
    requires Sound(w) && Hashable(w, r)
    requires var activation := ActivateActionCovenant(draft, acceptance, at, skew, id, w);
             activation.Done? && r.covenant.hash == activation.value.hash
    ensures var c := ActivateActionCovenant(draft, acceptance, at, skew, id, w).value;
            AggregateDecision(ResultsOf(w, r, o, now)) == ALLOW <==> Same(CovenantBody(r.covenant), CovenantBody(c)) && TermsMet(w, r, o, now)
    ensures var d, a := w.draft(draft), w.acceptance(acceptance);
            && a.acceptedBy == d.principal && w.hash(draft) == Some(a.draftHash)
            && w.parseDate(d.draftedAt) <= w.parseDate(a.acceptedAt) <= at + skew && at < w.parseDate(d.expiresAt)
  {
    hide Same, TermsMet, ResultsOf, AggregateDecision;
    var c := ActivateActionCovenant(draft, acceptance, at, skew, id, w).value;
    AllowedExactly(w, r, o, now);
    assert CovenantBody(c) == CovenantBody(Covenant(id, w.iso(at), draft, acceptance, []));
  }

  lemma HeadAllow(valid: bool, expiresAt: int, now: int, expected: Text, actual: Text)
    ensures AggregateDecision(HeadResults(valid, expiresAt, now, expected, actual)) == ALLOW <==>
            valid && expiresAt > now && expected == actual
  {
    var head := HeadResults(valid, expiresAt, now, expected, actual);
    AllowMeansAllPass(head);
    assert (forall i :: 0 <= i < |head| ==> head[i].verdict == PASS) <==>
           head[0].verdict == PASS && head[1].verdict == PASS && head[2].verdict == PASS && head[3].verdict == PASS;
  }

  lemma EvidenceAllow(w: World, rs: seq<Requirement>, observations: seq<Observation>, now: int)
    ensures AggregateDecision(EvaluateEvidence(w, rs, observations, now)) == ALLOW <==>
            forall i :: 0 <= i < |rs| ==> FreshEvidence(w, rs[i], observations, now)
  {
    AllEvidencePasses(w, rs, observations, now);
    DecisionOfOne(Passed(EvidenceCurrent(None)));
  }

  lemma InvalidationAllow(rules: seq<Invalidation>, signals: seq<Signal>)
    ensures AggregateDecision(EvaluateInvalidation(rules, signals)) == ALLOW <==>
            forall i :: 0 <= i < |rules| ==> !Invalidates(signals, rules[i])
  {
    AllInvalidationsClear(rules, signals);
    DecisionOfOne(Passed(InvalidationClear(None)));
  }

  // ---- violation codes ---------------------------------------------------------------------------------

  /** The codes are those of the rules the effects match, and no others. */
  lemma {:induction false} ViolationsAreMatches(rules: seq<Forbidden>, effects: seq<Effect>, code: Text)
    ensures code in Violations(rules, effects) <==>
            exists i :: 0 <= i < |rules| && Matched(rules[i], effects) && code == FORBIDDEN_OUTCOME + rules[i].id
  {
    if rules != [] {
      ViolationsAreMatches(rules[1..], effects, code);
      SomeEffectMatches(rules[0], effects);
      assert forall i :: 1 <= i < |rules| ==> rules[i] == rules[1..][i - 1];
      assert forall i :: 0 <= i < |rules[1..]| ==> rules[1..][i] == rules[i + 1];
    }
  }

  /** An outcome is compliant exactly when no forbidden rule is matched. */
  lemma {:induction false} CompliantExactly(rules: seq<Forbidden>, effects: seq<Effect>)
    ensures Violations(rules, effects) == [] <==> forall i :: 0 <= i < |rules| ==> !Matched(rules[i], effects)
  {
    if rules != [] {
      CompliantExactly(rules[1..], effects);
      SomeEffectMatches(rules[0], effects);
      assert forall i :: 1 <= i < |rules| ==> rules[i] == rules[1..][i - 1];
      assert forall i :: 0 <= i < |rules[1..]| ==> rules[1..][i] == rules[i + 1];
    }
  }
}
