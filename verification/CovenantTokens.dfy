/**
 Covenants hashed by SHA-256 of their canonical text, and receipts as compact JWS.

 `CovenantRuns` speaks of hashes that tell contents apart and of receipts that are
 not forged. Here both follow from what is assumed of the primitives: that SHA-256
 is injective on texts, and that a signature presented with a token holds only on
 bytes the service has signed before, for whatever purpose.
 */
module CovenantTokens {
  import opened CodeUnits
  import opened Json
  import opened CanonicalPrinter
  import opened JsonParser
  import opened Base64Url
  import opened Utf8
  import opened CompactJws
  import opened CovenantRecords
  import opened Covenants
  import opened CovenantRuns

  /** sha256(canonicalize(v)); None when canonicalize throws. */
  function CanonicalHash(sha: Text -> Text, v: JsonValue): Option<Text> {
    match Canonicalize(v) case None => None case Some(text) => Some(sha(text))
  }

  ghost predicate HashesCanonicalText(w: World) {
    && (forall v: JsonValue :: w.hash(v) == CanonicalHash(w.sha, v))
    && (forall s, t :: w.sha(s) == w.sha(t) ==> s == t)
    && (forall time :: w.parseDate(w.iso(time)) == time)
  }

  function DateText(time: int): Text {
    if time >= 0 then seq(time, _ => 0) else seq(-time, _ => 1)
  }

  function DateOf(text: Text): int {
    if text != [] && text[0] == 1 then -|text| else |text|
  }

  /** What is assumed of hashes and dates can be met. */
  lemma HashingWorldExists(w: World) returns (v: World)
    ensures HashesCanonicalText(v) && v.draft == w.draft && v.execution == w.execution
  {
    var sha: Text -> Text := (text: Text) => text;
    v := w.(hash := (u: JsonValue) => CanonicalHash(sha, u), sha := sha, iso := DateText, parseDate := DateOf);
  }

  /** With an injective SHA-256, hashes of canonical texts tell contents apart exactly up to key order. */
  lemma CanonicalHashesAreSound(w: World)
    requires HashesCanonicalText(w)
    ensures Sound(w)
  {
    forall u: JsonValue, v: JsonValue | w.hash(u).Some? && w.hash(v).Some?
      ensures w.hash(u) == w.hash(v) <==> Same(u, v)
    {
      assert w.hash(u) == CanonicalHash(w.sha, u) && w.hash(v) == CanonicalHash(w.sha, v);
      CanonicalTextIsInjective(u, v);
    }
  }

  /** The bytes are what was signed with the key pair. */
  predicate Covers(s: Signing, pair: nat, bytes: seq<Byte>) {
    s.key.pair == pair && JwsSerializable(s.payload) && bytes == Utf8Encode(TokenInput(s.payload, s.key, s.typ))
  }

  predicate BytesSigned(log: List<Logged>, pair: nat, bytes: seq<Byte>) {
    log.Cons? && (Covers(log.head.signing, pair, bytes) || BytesSigned(log.tail, pair, bytes))
  }

  /** The signature in a token is one of the key pair on the token's bytes. */
  predicate SignatureHolds(token: Text, pair: nat, suite: Suite) {
    |Split(token)| == 3 && Decode(Split(token)[2]).Some? &&
    suite.verify(pair, SignedBytes(token), Decode(Split(token)[2]).value)
  }

  /** Signatures are unforgeable: a presented one holds only on bytes signed before. */
  predicate Unforgeable(events: List<Event>, w: World, suite: Suite) {
    events.Cons? ==>
      && Unforgeable(events.tail, w, suite)
      && (events.head.Record? && SignatureHolds(events.head.outcome.token, events.head.recorder.key.pair, suite) ==>
            BytesSigned(Run(events.tail, w, JwsSigner(suite)), events.head.recorder.key.pair, SignedBytes(events.head.outcome.token)))
  }

  /** A token that verifies on bytes that were signed was signed for this payload, key and type. */
  lemma BytesNameSigning(token: Text, payload: JsonValue, key: PrivateKey, typ: Text, s: Signing, suite: Suite)
    requires JwsSigner(suite).verify(token, payload, key, typ) && Covers(s, key.pair, SignedBytes(token))
    ensures Matches(s, payload, key, typ)
  {
    var accepts := (m, x) => suite.verify(key.pair, m, x);
    VerifiedNames(token, payload, key, typ, accepts, s.payload, s.key, s.typ);
  }

  lemma {:induction false} SignedBytesAreSigned(log: List<Logged>, token: Text, payload: JsonValue, key: PrivateKey, typ: Text, suite: Suite)
    requires JwsSigner(suite).verify(token, payload, key, typ) && BytesSigned(log, key.pair, SignedBytes(token))
    ensures SignedIn(log, payload, key, typ)
  {
    hide VerifyCompactJws, Covers, SignedBytes, Matches;
    if Covers(log.head.signing, key.pair, SignedBytes(token)) {
      BytesNameSigning(token, payload, key, typ, log.head.signing, suite);
    } else {
      SignedBytesAreSigned(log.tail, token, payload, key, typ, suite);
    }
  }

  lemma VerifiedSignatureHolds(token: Text, payload: JsonValue, key: PrivateKey, typ: Text, suite: Suite)
    requires JwsSigner(suite).verify(token, payload, key, typ)
    ensures SignatureHolds(token, key.pair, suite)
  {
  }

  /** If signatures on bytes are unforgeable, so are receipts, and no other token of the service is taken for one. */
  lemma {:induction false} ReceiptsAreUnforged(events: List<Event>, w: World, suite: Suite)
    requires Unforgeable(events, w, suite)
    ensures Unforged(events, w, JwsSigner(suite))
  {
    hide VerifyCompactJws, SignatureHolds, SignedBytes, Covers, Matches, SigningOf, AuthorizationValue, JwsSigner;
    if events.Cons? {
      ReceiptsAreUnforged(events.tail, w, suite);
      var e := events.head;
      if e.Record? && ReceiptVerifies(e.outcome, e.recorder, JwsSigner(suite)) {
        var payload := AuthorizationValue(e.outcome.payload);
        VerifiedSignatureHolds(e.outcome.token, payload, e.recorder.key, AUTHORIZATION_TYP, suite);
        SignedBytesAreSigned(Run(events.tail, w, JwsSigner(suite)), e.outcome.token, payload, e.recorder.key, AUTHORIZATION_TYP, suite);
      }
    }
  }

  /** In every run with unforgeable signatures, each recorded outcome rests on an earlier ALLOW. */
  lemma OutcomesWereAuthorized(events: List<Event>, w: World, suite: Suite)
    requires HashesCanonicalText(w) && Unforgeable(events, w, suite)
    ensures AllBacked(Run(events, w, JwsSigner(suite)), w)
  {
    CanonicalHashesAreSound(w);
    ReceiptsAreUnforged(events, w, suite);
    RecordedOutcomesWereAuthorized(events, w, JwsSigner(suite));
  }

  /** Compact JWS verifies what it signed. */
  lemma JwsRoundTrips(suite: Suite)
    requires Correct(suite)
    ensures RoundTrips(JwsSigner(suite))
  {
    forall v: JsonValue, k: PrivateKey, t: Text | JwsSigner(suite).sign(v, k, t).Some?
      ensures JwsSigner(suite).verify(JwsSigner(suite).sign(v, k, t).value, v, k, t)
    {
      SignThenVerify(v, k, t, suite, v, t);
      SameReflexive(Strip(v));
    }
  }

  lemma RecordSerializable(keys: seq<Text>, values: seq<Value>)
    requires |keys| == |values| && forall i :: 0 <= i < |values| ==> JwsSerializable(values[i])
    ensures JwsSerializable(Obj(CovenantRecords.Record(keys, values)))
  {
  }

  lemma AuthorizationSerializable(p: AuthorizationPayload)
    ensures JwsSerializable(AuthorizationValue(p))
  {
    RecordSerializable(AUTHORIZATION_KEYS, AuthorizationFields(p));
  }

  lemma OutcomeSerializable(q: OutcomePayload)
    ensures JwsSerializable(OutcomeValue(q))
  {
    RecordSerializable(OUTCOME_KEYS, OutcomeFields(q));
  }

  /** Over compact JWS, an authorization is issued exactly when its request can be hashed and its key has a name. */
  lemma AuthorizationIssuedExactly(a: Event, w: World, suite: Suite)
    requires a.Authorize?
    ensures Authorizes(a, w, JwsSigner(suite)).Done? <==> Hashable(w, a.authorization) && a.authorizer.key.kid != []
  {
    hide AuthorizationValue, ResultsOf, JwsSerializable, Hashable;
    if Hashable(w, a.authorization) {
      AuthorizationSerializable(PayloadOf(w, a.authorization, a.authorizer, a.now, a.id));
    }
  }

  /** An action allowed and done in time can always be recorded: the outcome receipt is never refused by the signer. */
  lemma OutcomeSigned(o: Event, w: World, suite: Suite)
    requires o.Record? && o.recorder.key.kid != [] && w.hash(o.outcome.outcome).Some?
    ensures JwsSigner(suite).sign(OutcomeValue(OutcomeOf(o.outcome, o.recorder, o.now, o.id, w)), o.recorder.key, OUTCOME_TYP).Some?
  {
    hide OutcomeValue, OutcomeOf, JwsSerializable;
    OutcomeSerializable(OutcomeOf(o.outcome, o.recorder, o.now, o.id, w));
  }

  /**
   Over compact JWS and hashes of canonical text, an outcome presented with the receipt of its own authorization
   is recorded exactly when the action was allowed, it ran in time and the outcome can be hashed.
   */
  lemma TokensAreRecorded(a: Event, o: Event, w: World, suite: Suite)
    requires HashesCanonicalText(w) && Correct(suite) && a.Authorize? && o.Record? && Authorizes(a, w, JwsSigner(suite)).Done?
    requires o.outcome.covenant == a.authorization.covenant && o.recorder.key == a.authorizer.key && o.recorder.issuer == a.authorizer.issuer
    requires var r := Authorizes(a, w, JwsSigner(suite)).value; o.outcome.payload == r.payload && o.outcome.token == r.token
    ensures var execution := w.execution(o.outcome.outcome);
            Records(o, w, JwsSigner(suite)).Done? <==>
              && Allowed(w, a.authorization, a.authorizer, a.now)
              && a.now - o.recorder.skew <= w.parseDate(execution.startedAt) <= a.now + 1000 * a.authorizer.ttlSeconds
              && w.parseDate(execution.startedAt) <= w.parseDate(w.draft(a.authorization.covenant.draft).expiresAt)
              && w.parseDate(execution.finishedAt) <= o.now + o.recorder.skew
              && w.hash(o.outcome.outcome).Some?
  {
    hide HashesCanonicalText, Correct, RoundTrips, Sound, JwsSigner, Allowed, Authorizes, Records, OutcomeValue, OutcomeOf, Hashable;
    CanonicalHashesAreSound(w);
    JwsRoundTrips(suite);
    AuthorizationIssuedExactly(a, w, suite);
    AuthorizedThenRecorded(a, o, w, JwsSigner(suite));
    if w.hash(o.outcome.outcome).Some? { OutcomeSigned(o, w, suite); }
  }
}
