/** Every run of a service that authorizes actions, records outcomes and signs other things with the same keys. */
module CovenantRuns {
  import opened CodeUnits
  import opened Json
  import opened CanonicalPrinter
  import opened CompactJws
  import opened CovenantRecords
  import opened Policies
  import opened Covenants

  datatype Event =
    | Authorize(authorization: AuthorizationRequest, authorizer: AuthorizationOptions, now: int, id: Text)
    | Record(outcome: OutcomeRequest, recorder: OutcomeOptions, now: int, id: Text)
    | Attest(payload: JsonValue, key: PrivateKey, typ: Text)

  function Authorizes(e: Event, w: World, signer: Signer): Result<Authorization>
    requires e.Authorize?
  {
    AuthorizeActionCovenant(e.authorization, e.authorizer, e.now, e.id, w, signer)
  }

  function Records(e: Event, w: World, signer: Signer): Result<(OutcomePayload, Text)>
    requires e.Record?
  {
    RecordActionOutcome(e.outcome, e.recorder, e.now, e.id, w, signer)
  }

  /** A payload signed under a key and a type. */
  datatype Signing = Signing(payload: JsonValue, key: PrivateKey, typ: Text)

  /** What a successful event signs; nothing but authorizations is signed under their type. */
  function SigningOf(e: Event, w: World, signer: Signer): Option<Signing> {
    match e
    case Authorize(_, o, _, _) =>
      if Authorizes(e, w, signer).Done?
      then Some(Signing(AuthorizationValue(Authorizes(e, w, signer).value.payload), o.key, AUTHORIZATION_TYP)) else None
    case Record(_, o, _, _) =>
      if Records(e, w, signer).Done? then Some(Signing(OutcomeValue(Records(e, w, signer).value.0), o.key, OUTCOME_TYP)) else None
    case Attest(payload, key, typ) =>
      if typ != AUTHORIZATION_TYP && signer.sign(payload, key, typ).Some? then Some(Signing(payload, key, typ)) else None
  }

  datatype Logged = Logged(event: Event, signing: Signing)

  /** The successful events of a run with what they signed, newest first. */
  function Run(events: List<Event>, w: World, signer: Signer): List<Logged> {
    match events
    case Nil => Nil
    case Cons(e, before) =>
      match SigningOf(e, w, signer)
      case None => Run(before, w, signer)
      case Some(signing) => Cons(Logged(e, signing), Run(before, w, signer))
  }

  /** The same payload, up to key order, signed under the key and the type. */
  ghost predicate Matches(s: Signing, payload: JsonValue, key: PrivateKey, typ: Text) {
    s.key == key && s.typ == typ && Same(Strip(payload), Strip(s.payload))
  }

  ghost predicate SignedIn(log: List<Logged>, payload: JsonValue, key: PrivateKey, typ: Text) {
    log.Cons? && (Matches(log.head.signing, payload, key, typ) || SignedIn(log.tail, payload, key, typ))
  }

  /** Receipts are unforgeable: one that verifies when it is presented was signed before. */
  ghost predicate Unforged(events: List<Event>, w: World, signer: Signer) {
    events.Cons? ==>
      && Unforged(events.tail, w, signer)
      && (events.head.Record? && ReceiptVerifies(events.head.outcome, events.head.recorder, signer) ==>
            SignedIn(Run(events.tail, w, signer), AuthorizationValue(events.head.outcome.payload), events.head.recorder.key, AUTHORIZATION_TYP))
  }

  // ---- what backs an outcome ------------------------------------------------------------------

  /** The authorization an outcome rests on: same key and issuer, same covenant content, allowed, and started in time. */
  ghost predicate Backs(a: Event, o: Event, w: World)
    requires o.Record?
  {
    var startedAt := w.parseDate(w.execution(o.outcome.outcome).startedAt);
    && a.Authorize? && a.authorizer.key == o.recorder.key && a.authorizer.issuer == o.recorder.issuer
    && Same(CovenantBody(a.authorization.covenant), CovenantBody(o.outcome.covenant))
    && Allowed(w, a.authorization, a.authorizer, a.now)
    && a.now - o.recorder.skew <= startedAt <= w.parseDate(w.draft(a.authorization.covenant.draft).expiresAt)
    && startedAt <= a.now + 1000 * a.authorizer.ttlSeconds
  }

  ghost predicate Backed(o: Event, earlier: List<Logged>, w: World)
    requires o.Record?
  {
    earlier.Cons? && (Backs(earlier.head.event, o, w) || Backed(o, earlier.tail, w))
  }

  ghost predicate AllBacked(log: List<Logged>, w: World) {
    log.Cons? ==> AllBacked(log.tail, w) && (log.head.event.Record? ==> Backed(log.head.event, log.tail, w))
  }

  /** What recording checked of the receipt, the covenant and the times. */
  predicate RecordChecks(q: OutcomeRequest, o: OutcomeOptions, w: World) {
    var startedAt := w.parseDate(w.execution(q.outcome).startedAt);
    && q.payload.issuer == o.issuer && q.payload.decision == ALLOW
    && w.hash(CovenantBody(q.covenant)) == Some(q.covenant.hash) && q.payload.covenantHash == q.covenant.hash
    && w.parseDate(q.payload.issuedAt) - o.skew <= startedAt <= w.parseDate(q.payload.expiresAt)
  }

  lemma NoProblemMeansChecks(q: OutcomeRequest, o: OutcomeOptions, now: int, w: World)
    ensures OutcomeProblem(q, o, now, w).None? <==>
            RecordChecks(q, o, w) && q.payload.covenantId == q.covenant.id &&
            w.parseDate(w.execution(q.outcome).finishedAt) <= now + o.skew
  {
  }

  lemma AuthorizationBacks(a: Event, o: Event, w: World)
    requires Sound(w) && a.Authorize? && o.Record? && Hashable(w, a.authorization) && a.authorizer.key == o.recorder.key
    requires RecordChecks(o.outcome, o.recorder, w)
    requires Same(Strip(AuthorizationValue(o.outcome.payload)),
                  Strip(AuthorizationValue(PayloadOf(w, a.authorization, a.authorizer, a.now, a.id))))
    ensures Backs(a, o, w)
  {
    hide AuthorizationValue, CovenantBody, Same, Strip, ResultsOf;
    SameReceipt(o.outcome.payload, PayloadOf(w, a.authorization, a.authorizer, a.now, a.id));
    AllowedExactly(w, a.authorization, a.authorizer, a.now);
  }

  /** Every entry of a run is there for what its event signed. */
  predicate Genuine(log: List<Logged>, w: World, signer: Signer) {
    log.Cons? ==> Genuine(log.tail, w, signer) && SigningOf(log.head.event, w, signer) == Some(log.head.signing)
  }

  lemma {:induction false} RunIsGenuine(events: List<Event>, w: World, signer: Signer)
    ensures Genuine(Run(events, w, signer), w, signer)
  {
    if events.Cons? { RunIsGenuine(events.tail, w, signer); }
  }

  /** A receipt is never some other token of the service: the type tells them apart. */
  lemma OnlyAuthorizationsHaveType(e: Event, s: Signing, w: World, signer: Signer)
    requires SigningOf(e, w, signer) == Some(s) && s.typ == AUTHORIZATION_TYP
    ensures e.Authorize? && s.key == e.authorizer.key && Hashable(w, e.authorization)
    ensures s.payload == AuthorizationValue(PayloadOf(w, e.authorization, e.authorizer, e.now, e.id))
  {
    assert |OUTCOME_TYP| != |AUTHORIZATION_TYP|;
  }

  lemma {:induction false} SignedBacks(o: Event, log: List<Logged>, w: World, signer: Signer)
    requires Sound(w) && Genuine(log, w, signer) && o.Record? && RecordChecks(o.outcome, o.recorder, w)
    requires SignedIn(log, AuthorizationValue(o.outcome.payload), o.recorder.key, AUTHORIZATION_TYP)
    ensures Backed(o, log, w)
  {
    hide RecordChecks, SigningOf, AuthorizationValue, PayloadOf, Hashable, Same, Strip;
    if Matches(log.head.signing, AuthorizationValue(o.outcome.payload), o.recorder.key, AUTHORIZATION_TYP) {
      OnlyAuthorizationsHaveType(log.head.event, log.head.signing, w, signer);
      AuthorizationBacks(log.head.event, o, w);
    } else {
      SignedBacks(o, log.tail, w, signer);
    }
  }

  lemma RecordedPassed(o: Event, w: World, signer: Signer)
    requires o.Record? && Records(o, w, signer).Done?
    ensures ReceiptVerifies(o.outcome, o.recorder, signer) && RecordChecks(o.outcome, o.recorder, w)
  {
    NoProblemMeansChecks(o.outcome, o.recorder, o.now, w);
  }

  /** In every run without forged receipts, each recorded outcome rests on an earlier ALLOW. */
  lemma {:induction false} RecordedOutcomesWereAuthorized(events: List<Event>, w: World, signer: Signer)
    requires Sound(w) && Unforged(events, w, signer)
    ensures AllBacked(Run(events, w, signer), w)
  {
    hide ReceiptVerifies, RecordChecks, OutcomeProblem, AuthorizationValue, OutcomeValue, Same, Strip;
    if events.Cons? {
      RecordedOutcomesWereAuthorized(events.tail, w, signer);
      if events.head.Record? && SigningOf(events.head, w, signer).Some? {
        RecordedPassed(events.head, w, signer);
        RunIsGenuine(events.tail, w, signer);
        SignedBacks(events.head, Run(events.tail, w, signer), w, signer);
      }
    }
  }

  /**
   What an issued receipt says: it begins now and ends with the draft or the authorization's lifetime, whichever is
   first; it is about this covenant, request, action, evidence and signals; and it is ALLOW exactly when all is met.
   */
  lemma IssuedReceipt(a: Event, w: World, signer: Signer)
    requires Sound(w) && a.Authorize? && Authorizes(a, w, signer).Done?
    ensures var p, r := Authorizes(a, w, signer).value.payload, a.authorization;
            var ends, lasts := w.parseDate(w.draft(r.covenant.draft).expiresAt), a.now + 1000 * a.authorizer.ttlSeconds;
            && w.parseDate(p.issuedAt) == a.now && w.parseDate(p.expiresAt) in {ends, lasts}
            && w.parseDate(p.expiresAt) <= ends && w.parseDate(p.expiresAt) <= lasts
            && p.id == a.id && p.issuer == a.authorizer.issuer && p.covenantId == r.covenant.id && p.covenantHash == r.covenant.hash
            && w.hash(RequestValue(r)) == Some(p.requestHash) && w.hash(r.action) == Some(p.actionHash)
            && w.hash(r.evidence) == Some(p.evidenceHash) && w.hash(r.signals) == Some(p.signalsHash)
            && (p.decision == ALLOW <==> Allowed(w, r, a.authorizer, a.now))
  {
    hide AuthorizationValue, RequestValue, CovenantBody, Same, Allowed, ResultsOf;
    AllowedExactly(w, a.authorization, a.authorizer, a.now);
  }

  // ---- and an authorized action can be recorded ----------------------------------------------------

  /** A signed token verifies against what it was signed for. */
  ghost predicate RoundTrips(signer: Signer) {
    forall v: JsonValue, k: PrivateKey, t: Text :: signer.sign(v, k, t).Some? ==> signer.verify(signer.sign(v, k, t).value, v, k, t)
  }

  /** With its own receipt and covenant, an outcome is recorded exactly when its action was allowed, it ran in time and it can be signed. */
  lemma AuthorizedThenRecorded(a: Event, o: Event, w: World, signer: Signer)
    requires Sound(w) && RoundTrips(signer) && a.Authorize? && o.Record? && Authorizes(a, w, signer).Done?
    requires o.outcome.covenant == a.authorization.covenant && o.recorder.key == a.authorizer.key && o.recorder.issuer == a.authorizer.issuer
    requires o.outcome.payload == Authorizes(a, w, signer).value.payload && o.outcome.token == Authorizes(a, w, signer).value.token
    ensures var execution := w.execution(o.outcome.outcome);
            Records(o, w, signer).Done? <==>
              && Allowed(w, a.authorization, a.authorizer, a.now)
              && a.now - o.recorder.skew <= w.parseDate(execution.startedAt) <= a.now + 1000 * a.authorizer.ttlSeconds
              && w.parseDate(execution.startedAt) <= w.parseDate(w.draft(a.authorization.covenant.draft).expiresAt)
              && w.parseDate(execution.finishedAt) <= o.now + o.recorder.skew
              && w.hash(o.outcome.outcome).Some?
              && signer.sign(OutcomeValue(OutcomeOf(o.outcome, o.recorder, o.now, o.id, w)), o.recorder.key, OUTCOME_TYP).Some?
    ensures Records(o, w, signer).Done? ==>
              Records(o, w, signer).value.0.violationCodes ==
                Violations(w.draft(o.outcome.covenant.draft).forbidden, w.execution(o.outcome.outcome).effects)
  {
    hide AuthorizationValue, OutcomeValue, Same, CovenantBody, ResultsOf, Allowed;
    NoProblemMeansChecks(o.outcome, o.recorder, o.now, w);
    ChecksOfOwnReceipt(a, o, w);
  }

  /** What a recorded outcome says: about which receipt and covenant, and compliant exactly when no forbidden rule is matched. */
  lemma RecordedReceipt(o: Event, w: World, signer: Signer)
    requires Sound(w) && o.Record? && Records(o, w, signer).Done?
    ensures var p, q := Records(o, w, signer).value.0, o.outcome;
            var rules, effects := w.draft(q.covenant.draft).forbidden, w.execution(q.outcome).effects;
            && p.id == o.id && p.issuer == o.recorder.issuer == q.payload.issuer && w.parseDate(p.issuedAt) == o.now
            && p.receiptId == q.payload.id && p.tokenHash == w.sha(q.token)
            && p.covenantId == q.covenant.id == q.payload.covenantId && p.covenantHash == q.covenant.hash == q.payload.covenantHash
            && w.hash(q.outcome) == Some(p.outcomeHash)
            && (p.compliant <==> forall i :: 0 <= i < |rules| ==> !Matched(rules[i], effects))
            && p.violationCodes == Violations(rules, effects)
  {
    hide OutcomeValue, CovenantBody, Matched, Violations;
    CompliantExactly(w.draft(o.outcome.covenant.draft).forbidden, w.execution(o.outcome.outcome).effects);
  }

  lemma ChecksOfOwnReceipt(a: Event, o: Event, w: World)
    requires Sound(w) && a.Authorize? && o.Record? && Hashable(w, a.authorization)
    requires o.outcome.covenant == a.authorization.covenant && o.recorder.issuer == a.authorizer.issuer
    requires o.outcome.payload == PayloadOf(w, a.authorization, a.authorizer, a.now, a.id)
    ensures o.outcome.payload.covenantId == o.outcome.covenant.id
    ensures RecordChecks(o.outcome, o.recorder, w) <==>
              Allowed(w, a.authorization, a.authorizer, a.now) &&
              a.now - o.recorder.skew <= w.parseDate(w.execution(o.outcome.outcome).startedAt) <= a.now + 1000 * a.authorizer.ttlSeconds &&
              w.parseDate(w.execution(o.outcome.outcome).startedAt) <= w.parseDate(w.draft(a.authorization.covenant.draft).expiresAt)
  {
    hide CovenantBody, AuthorizationValue, ResultsOf, Same;
    AllowedExactly(w, a.authorization, a.authorizer, a.now);
  }
}
