/**
 Delegation grants: a principal mints a signed grant, the service verifies it and
 binds it to the authority in a request.

 `MintThenVerify` says exactly when a minted grant verifies. `ExactAuthorityBinding`
 says what any token that verifies must have been minted for, however it was put
 together. Both rest on the round trips of `CompactJws`: the claims a verifier reads
 are the ones that were signed, up to the order of keys.
 */
module Grants {
  import opened CodeUnits
  import opened Json
  import opened CanonicalPrinter
  import opened JsonParser
  import opened Base64Url
  import opened Utf8
  import opened CompactJws
  import opened Decimal

  const MAX_GRANT_TOKEN_CHARS: nat := 8_192
  const MAX_GRANT_LIFETIME_SECONDS: nat := 365 * 24 * 60 * 60
  const CLOCK_SKEW_SECONDS: nat := 60
  const MAX_NUMERIC_DATE: nat := 4_102_444_800
  const MAX_IDENTIFIER: nat := 256

  const DELEGATION_GRANT_TYP: Text := ['v' as int, 'i' as int, 'z' as int, 'i' as int, 'e' as int, 'r' as int, '-' as int, 'd' as int, 'e' as int, 'l' as int, 'e' as int, 'g' as int, 'a' as int, 't' as int, 'i' as int, 'o' as int, 'n' as int, '+' as int, 'j' as int, 'w' as int, 's' as int]
  const ISS: Text := ['i' as int, 's' as int, 's' as int]
  const SUB: Text := ['s' as int, 'u' as int, 'b' as int]
  const AUD: Text := ['a' as int, 'u' as int, 'd' as int]
  const JTI: Text := ['j' as int, 't' as int, 'i' as int]
  const IAT: Text := ['i' as int, 'a' as int, 't' as int]
  const NBF: Text := ['n' as int, 'b' as int, 'f' as int]
  const EXP: Text := ['e' as int, 'x' as int, 'p' as int]
  const AUTHORITY: Text := ['a' as int, 'u' as int, 't' as int, 'h' as int, 'o' as int, 'r' as int, 'i' as int, 't' as int, 'y' as int]
  const CLAIM_KEYS: seq<Text> := [ISS, SUB, JTI, IAT, EXP, AUTHORITY, AUD, NBF]

  datatype Claims = Claims(
    iss: Text, sub: Text, aud: Option<Text>, jti: Text, iat: nat, nbf: Option<nat>, exp: nat, authority: Value)

  /**
   The authority schema: what it makes of a value, or nothing. Only this much of
   it matters here: its outputs are objects with distinct keys, and an output
   that travelled through JSON is accepted again, unchanged up to key order.
   */
  type Schema = Value -> Option<Value>

  ghost predicate Stable(schema: Schema) {
    forall a :: schema(a).Some? ==>
      var b := schema(a).value;
      b.Obj? && WellFormed(b) && forall c :: WellFormed(c) && JwsSerializable(b) && Same(c, Strip(b)) ==>
        schema(c).Some? && WellFormed(schema(c).value) && Serializable(schema(c).value) && Same(schema(c).value, c)
  }

  /** What is assumed of the schema can be met: by one that accepts every serializable object as it is. */
  lemma StableSchemaExists() returns (schema: Schema)
    ensures Stable(schema) && forall a: Value :: a.Obj? && WellFormed(a) && Serializable(a) ==> schema(a) == Some(a)
  {
    hide Same, WellFormed, Serializable, JwsSerializable, Strip;
    schema := (a: Value) => if a.Obj? && WellFormed(a) && Serializable(a) then Some(a) else None;
    forall a: Value, c: Value | schema(a).Some? && WellFormed(c) && JwsSerializable(a) && Same(c, Strip(a))
      ensures c.Obj? && Serializable(c) && Same(c, c)
    {
      KeptThroughStrip(a, c);
    }
  }

  lemma KeptThroughStrip(a: Value, c: Value)
    requires a.Obj? && WellFormed(a) && Serializable(a) && WellFormed(c) && JwsSerializable(a) && Same(c, Strip(a))
    ensures c.Obj? && Serializable(c) && Same(c, c)
  {
    JwsPrintIsPrintOfStrip(a);
    SameSymmetric(c, Strip(a));
    SameSerializable(Strip(a), c);
    SameReflexive(c);
  }

  function Identifier(v: Value): (r: Option<Text>)
    ensures r.Some? ==> Trimmed(r.value) && 1 <= |r.value| <= MAX_IDENTIFIER
  {
    if v.Str? && 1 <= |Trim(v.text)| <= MAX_IDENTIFIER then Some(Trim(v.text)) else None
  }

  function NumericDate(v: Value): (r: Option<nat>)
    ensures r.Some? ==> r.value <= MAX_NUMERIC_DATE
  {
    if v.Num? && NatValue(v.number).Some? && NatValue(v.number).value <= MAX_NUMERIC_DATE then NatValue(v.number) else None
  }

  function Optional<T>(v: Value, parsed: Option<T>): Option<Option<T>> {
    if v.Undefined? then Some(None) else match parsed case Some(t) => Some(Some(t)) case None => None
  }

  predicate OnlyKeys(ms: seq<Member>, keys: seq<Text>) {
    forall i :: 0 <= i < |ms| ==> ms[i].key in keys
  }

  /** The claims in eight property values, in the order of `CLAIM_KEYS`. */
  function ParseFields(
    iss: Value, sub: Value, jti: Value, iat: Value, exp: Value, authority: Value, aud: Value, nbf: Value, schema: Schema): (r: Option<Claims>)
    ensures r.Some? ==> Canonical(r.value) && schema(authority) == Some(r.value.authority)
    ensures r.Some? ==> NumericDate(iat) == Some(r.value.iat) && NumericDate(exp) == Some(r.value.exp)
  {
    var audience := Optional(aud, Identifier(aud));
    var notBefore := Optional(nbf, NumericDate(nbf));
    if Identifier(iss).None? || Identifier(sub).None? || Identifier(jti).None? then None
    else if NumericDate(iat).None? || NumericDate(exp).None? || schema(authority).None? then None
    else if audience.None? || notBefore.None? then None
    else Some(Claims(
      Identifier(iss).value, Identifier(sub).value, audience.value, Identifier(jti).value,
      NumericDate(iat).value, notBefore.value, NumericDate(exp).value, schema(authority).value))
  }

  /** delegationGrantPayloadSchema.safeParse. */
  function SafeParse(payload: Value, schema: Schema): (r: Option<Claims>)
    ensures r.Some? ==> payload.Obj? && Canonical(r.value)
    ensures r.Some? ==> schema(Get(payload.members, AUTHORITY)) == Some(r.value.authority)
    ensures r.Some? ==> NumericDate(Get(payload.members, IAT)) == Some(r.value.iat)
    ensures r.Some? ==> NumericDate(Get(payload.members, EXP)) == Some(r.value.exp)
  {
    if !payload.Obj? || !OnlyKeys(payload.members, CLAIM_KEYS) then None
    else
      var ms := payload.members;
      ParseFields(Get(ms, ISS), Get(ms, SUB), Get(ms, JTI), Get(ms, IAT), Get(ms, EXP), Get(ms, AUTHORITY), Get(ms, AUD), Get(ms, NBF), schema)
  }

  /** A payload record; an absent optional claim is an undefined property, which no printer emits. */
  function Payload(iss: Text, sub: Text, jti: Text, iat: int, exp: int, authority: Value, aud: Option<Text>, nbf: Option<int>): seq<Member> {
    [ Member(ISS, Str(iss)), Member(SUB, Str(sub)), Member(JTI, Str(jti)),
      Member(IAT, Num(IntText(iat))), Member(EXP, Num(IntText(exp))), Member(AUTHORITY, authority),
      Member(AUD, match aud case Some(a) => Str(a) case None => Undefined),
      Member(NBF, match nbf case Some(n) => Num(IntText(n)) case None => Undefined) ]
  }

  function ClaimsPayload(c: Claims): seq<Member> {
    Payload(c.iss, c.sub, c.jti, c.iat, c.exp, c.authority, c.aud,
            match c.nbf case Some(n) => Some(n as int) case None => None)
  }

  // ---- minting -----------------------------------------------------------------

  datatype MintInput = MintInput(
    key: PrivateKey, issuer: Text, subject: Text, authority: Value, ttlSeconds: int,
    audience: Option<Text>, jti: Text, issuedAtMs: int, notBeforeMs: Option<int>)

  function MintPayload(m: MintInput): seq<Member> {
    var issuedAt := m.issuedAtMs / 1000;
    Payload(m.issuer, m.subject, m.jti, issuedAt, issuedAt + m.ttlSeconds, m.authority, m.audience,
            match m.notBeforeMs case Some(ms) => Some(ms / 1000) case None => None)
  }

  /** The claims a mint call signs, when its arguments pass validation. */
  function MintedClaims(m: MintInput, schema: Schema): Option<Claims> {
    if m.ttlSeconds <= 0 || m.ttlSeconds > MAX_GRANT_LIFETIME_SECONDS then None
    else SafeParse(Obj(MintPayload(m)), schema)
  }

  /** mintDelegationGrant; `None` stands for a thrown error. */
  function Mint(m: MintInput, schema: Schema, suite: Suite): Option<Text>
    requires Stable(schema)
  {
    match MintedClaims(m, schema)
    case None => None
    case Some(c) =>
      PayloadWellFormed(c);
      SignCompactJws(Obj(ClaimsPayload(c)), m.key, DELEGATION_GRANT_TYP, suite)
  }

  // ---- verification ------------------------------------------------------------

  datatype FailureCode =
    | GRANT_MALFORMED | GRANT_PRINCIPAL_UNKNOWN | GRANT_KEY_UNKNOWN | GRANT_SIGNATURE_INVALID
    | GRANT_NOT_YET_VALID | GRANT_EXPIRED | GRANT_LIFETIME_EXCESSIVE | GRANT_ISSUER_MISMATCH
    | GRANT_SUBJECT_MISMATCH | GRANT_AUDIENCE_MISMATCH | GRANT_AUTHORITY_MISMATCH

  datatype VerifiedGrant = VerifiedGrant(jti: Text, issuer: Text, subject: Text, keyId: Text, issuedAt: nat, expiresAt: nat)

  datatype GrantVerification = Verified(grant: VerifiedGrant) | Refused(code: FailureCode) | Threw

  type Registry = map<Text, seq<PublicKey>>

  datatype VerifyInput = VerifyInput(
    token: Text, registry: Registry, principalId: Option<Text>, agentId: Text, authority: Value,
    audience: Option<Text>, nowMs: int)

  /** keys.find((candidate) => candidate.kid === kid). */
  function FindKey(keys: seq<PublicKey>, kid: Text): (r: Option<PublicKey>)
    ensures r.Some? ==> r.value in keys && r.value.kid == kid
  {
    if keys == [] then None else if keys[0].kid == kid then Some(keys[0]) else FindKey(keys[1..], kid)
  }

  function NotBefore(c: Claims): nat {
    match c.nbf case Some(n) => n case None => c.iat
  }

  /** Lifetime, clock, audience, issuer and subject; the first failing check. */
  function CheckScope(c: Claims, input: VerifyInput): Option<FailureCode> {
    var now := input.nowMs / 1000;
    if c.exp <= c.iat then Some(GRANT_MALFORMED)
    else if c.exp - c.iat > MAX_GRANT_LIFETIME_SECONDS then Some(GRANT_LIFETIME_EXCESSIVE)
    else if now + CLOCK_SKEW_SECONDS < NotBefore(c) then Some(GRANT_NOT_YET_VALID)
    else if now - CLOCK_SKEW_SECONDS >= c.exp then Some(GRANT_EXPIRED)
    else if input.audience.Some? && c.aud.Some? && c.aud != input.audience then Some(GRANT_AUDIENCE_MISMATCH)
    else if input.principalId != Some(c.iss) then Some(GRANT_ISSUER_MISMATCH)
    else if c.sub != input.agentId then Some(GRANT_SUBJECT_MISMATCH)
    else None
  }

  /** Everything after the signature check. */
  function CheckClaims(c: Claims, kid: Text, input: VerifyInput): GrantVerification {
    match CheckScope(c, input)
    case Some(code) => Refused(code)
    case None =>
      var requested, granted := Canonicalize(input.authority), Canonicalize(c.authority);
      if requested.None? then Refused(GRANT_AUTHORITY_MISMATCH)
      else if granted.None? then Threw
      else if granted != requested then Refused(GRANT_AUTHORITY_MISMATCH)
      else Verified(VerifiedGrant(c.jti, c.iss, c.sub, kid, c.iat, c.exp))
  }

  /** Key lookup and signature, then the verified claims. */
  function CheckSigned(parts: JwsParts, c: Claims, kid: Text, input: VerifyInput, suite: Suite): GrantVerification {
    if c.iss !in input.registry then Refused(GRANT_PRINCIPAL_UNKNOWN)
    else match FindKey(input.registry[c.iss], kid)
      case None => Refused(GRANT_KEY_UNKNOWN)
      case Some(key) =>
        if !VerifyJwsSignature(parts, key, suite) then Refused(GRANT_SIGNATURE_INVALID)
        else CheckClaims(c, kid, input)
  }

  /** Everything after the token is decoded. */
  function CheckParts(parts: JwsParts, input: VerifyInput, schema: Schema, suite: Suite): GrantVerification {
    var kid := Get(parts.header, KID);
    if !WithinLimits(parts.payload) then Refused(GRANT_MALFORMED)
    else if Get(parts.header, ALG) != Str(ES256) || Get(parts.header, TYP) != Str(DELEGATION_GRANT_TYP) then Refused(GRANT_MALFORMED)
    else if !kid.Str? || kid.text == [] then Refused(GRANT_MALFORMED)
    else match SafeParse(parts.payload, schema)
      case None => Refused(GRANT_MALFORMED)
      case Some(c) => CheckSigned(parts, c, kid.text, input, suite)
  }

  /** verifyDelegationGrant. */
  function Verify(input: VerifyInput, schema: Schema, suite: Suite): GrantVerification {
    if |input.token| > MAX_GRANT_TOKEN_CHARS then Refused(GRANT_MALFORMED)
    else match DecodeCompactJws(input.token)
      case None => Refused(GRANT_MALFORMED)
      case Some(parts) => CheckParts(parts, input, schema, suite)
  }

  // ---- payload records -----------------------------------------------------------

  lemma ClaimKeysDistinct()
    ensures Distinct(CLAIM_KEYS)
  {
    assert ISS[0] == 'i' as int && SUB[0] == 's' as int && JTI[0] == 'j' as int && IAT[0] == 'i' as int;
    assert EXP[0] == 'e' as int && AUTHORITY[0] == 'a' as int && AUD[0] == 'a' as int && NBF[0] == 'n' as int;
    assert ISS[1] != IAT[1] && |AUTHORITY| != |AUD|;
  }

  lemma PayloadShape(iss: Text, sub: Text, jti: Text, iat: int, exp: int, authority: Value, aud: Option<Text>, nbf: Option<int>)
    ensures var ms := Payload(iss, sub, jti, iat, exp, authority, aud, nbf);
            |ms| == 8 && KeysOf(ms) == CLAIM_KEYS && ms[3].value == Num(IntText(iat)) && ms[4].value == Num(IntText(exp))
  {
  }

  lemma PayloadKeys(c: Claims)
    ensures KeysOf(ClaimsPayload(c)) == CLAIM_KEYS && Distinct(CLAIM_KEYS)
  {
    ClaimKeysDistinct();
  }

  lemma PayloadWellFormed(c: Claims)
    requires WellFormed(c.authority)
    ensures WellFormed(Obj(ClaimsPayload(c)))
    ensures JwsSerializable(Obj(ClaimsPayload(c))) <==> c.authority.Undefined? || JwsSerializable(c.authority)
  {
    PayloadKeys(c);
    assert ClaimsPayload(c)[5].value == c.authority;
  }

  /** Claims as a schema leaves them: identifiers trimmed, dates in range. */
  predicate Canonical(c: Claims) {
    && Identifier(Str(c.iss)) == Some(c.iss) && Identifier(Str(c.sub)) == Some(c.sub) && Identifier(Str(c.jti)) == Some(c.jti)
    && c.iat <= MAX_NUMERIC_DATE && c.exp <= MAX_NUMERIC_DATE
    && (c.aud.Some? ==> Identifier(Str(c.aud.value)) == Some(c.aud.value))
    && (c.nbf.Some? ==> c.nbf.value <= MAX_NUMERIC_DATE)
  }

  lemma GetNormalized(ms: seq<Member>, k: Text)
    requires Distinct(KeysOf(ms))
    ensures Get(NormalizeFields(ms, SortedKeys(ms)), k) == Normalize(Get(ms, k))
  {
    var ks := SortedKeys(ms);
    var ns := NormalizeFields(ms, ks);
    assert KeysOf(ns) == ks;
    assert k in ks <==> k in KeysOf(ms);
    if k in ks {
      var j := IndexOf(ns, k);
      assert ns[j] == Member(ks[j], Normalize(ms[IndexOf(ms, ks[j])].value)) && ks[j] == k;
    }
  }

  lemma GetStripped(ms: seq<Member>, k: Text)
    requires Distinct(KeysOf(ms))
    ensures Get(StripMembers(ms), k) == Strip(Get(ms, k))
  {
    DefinedKeysLookup(ms);
    if k in DefinedKeys(ms) {
      StripLookup(ms, k);
    } else if k in KeysOf(ms) {
      assert ms[IndexOf(ms, k)].value.Undefined?;
    }
  }

  /** The payload as the verifier decodes it. */
  function Received(c: Claims): seq<Member> {
    var sent := StripMembers(ClaimsPayload(c));
    NormalizeFields(sent, SortedKeys(sent))
  }

  lemma GetAt(ms: seq<Member>, i: nat)
    requires KeysOf(ms) == CLAIM_KEYS && i < |ms|
    ensures Distinct(KeysOf(ms)) && Get(ms, CLAIM_KEYS[i]) == ms[i].value
  {
    ClaimKeysDistinct();
    DistinctKeys(ms, i);
  }

  lemma GetReceived(c: Claims, i: nat)
    requires i < |CLAIM_KEYS|
    ensures Get(Received(c), CLAIM_KEYS[i]) == Normalize(Strip(ClaimsPayload(c)[i].value))
  {
    var ms := ClaimsPayload(c);
    PayloadKeys(c);
    GetAt(ms, i);
    GetStripped(ms, CLAIM_KEYS[i]);
    DefinedKeysDistinct(ms);
    GetNormalized(StripMembers(ms), CLAIM_KEYS[i]);
  }

  lemma ReceivedKeys(c: Claims)
    ensures OnlyKeys(Received(c), CLAIM_KEYS)
  {
    var ms := ClaimsPayload(c);
    var sent := StripMembers(ms);
    var r := Received(c);
    PayloadKeys(c);
    forall i | 0 <= i < |r| ensures r[i].key in CLAIM_KEYS {
      assert SortedKeys(sent)[i] in SortedKeys(sent);
      assert r[i].key in DefinedKeys(ms);
      var j :| 0 <= j < |ms| && ms[j].key == r[i].key;
      assert KeysOf(ms)[j] == CLAIM_KEYS[j];
    }
  }

  lemma ReceivedNames(c: Claims)
    ensures var r := Received(c);
            Get(r, ISS) == Str(c.iss) && Get(r, SUB) == Str(c.sub) && Get(r, JTI) == Str(c.jti)
  {
    hide Received, Trim;
    GetReceived(c, 0);
    GetReceived(c, 1);
    GetReceived(c, 2);
    var ms := ClaimsPayload(c);
    assert ms[0].value == Str(c.iss) && ms[1].value == Str(c.sub) && ms[2].value == Str(c.jti);
  }

  lemma ReceivedDates(c: Claims)
    ensures Get(Received(c), IAT) == Num(IntText(c.iat)) && Get(Received(c), EXP) == Num(IntText(c.exp))
  {
    hide Received;
    GetReceived(c, 3);
    GetReceived(c, 4);
  }

  lemma ReceivedAuthority(c: Claims)
    ensures Get(Received(c), AUTHORITY) == Normalize(Strip(c.authority))
  {
    hide Received;
    GetReceived(c, 5);
  }

  lemma ReceivedAudience(c: Claims)
    ensures Get(Received(c), AUD) == (match c.aud case Some(a) => Str(a) case None => Undefined)
  {
    hide Received;
    GetReceived(c, 6);
  }

  lemma ReceivedNotBefore(c: Claims)
    ensures Get(Received(c), NBF) == (match c.nbf case Some(n) => Num(IntText(n)) case None => Undefined)
  {
    hide Received;
    GetReceived(c, 7);
  }

  lemma DateRoundTrip(n: int)
    ensures NumericDate(Num(IntText(n))) == if 0 <= n <= MAX_NUMERIC_DATE then Some(n) else None
  {
    IntTextRoundTrip(n);
  }

  /** A validated authority is accepted again after the journey. */
  lemma AuthorityRevalidates(authority: Value, schema: Schema)
    requires Stable(schema) && JwsSerializable(authority)
    requires exists a :: schema(a) == Some(authority)
    ensures var r := Normalize(Strip(authority));
            && WellFormed(r) && Serializable(r) && schema(r).Some?
            && WellFormed(schema(r).value) && Serializable(schema(r).value)
            && Same(schema(r).value, r) && Same(Strip(authority), r)
  {
    StripWellFormed(authority);
    NormalizeSame(Strip(authority));
    SameSymmetric(Strip(authority), Normalize(Strip(authority)));
  }

  lemma FieldsRoundTrip(c: Claims, sent: Value, schema: Schema)
    requires Canonical(c) && schema(sent).Some?
    ensures ParseFields(
              Str(c.iss), Str(c.sub), Str(c.jti), Num(IntText(c.iat)), Num(IntText(c.exp)), sent,
              match c.aud case Some(a) => Str(a) case None => Undefined,
              match c.nbf case Some(n) => Num(IntText(n)) case None => Undefined, schema) ==
            Some(c.(authority := schema(sent).value))
  {
    hide Identifier, NumericDate, IntText;
    DateRoundTrip(c.iat);
    DateRoundTrip(c.exp);
    if c.nbf.Some? { DateRoundTrip(c.nbf.value); }
  }

  /** What the verifier reads from a payload that carries validated claims. */
  lemma SafeParseReceived(c: Claims, schema: Schema)
    requires Canonical(c) && schema(Normalize(Strip(c.authority))).Some?
    ensures SafeParse(Obj(Received(c)), schema) == Some(c.(authority := schema(Normalize(Strip(c.authority))).value))
  {
    ReceivedKeys(c);
    ReceivedNames(c);
    ReceivedDates(c);
    ReceivedAuthority(c);
    ReceivedAudience(c);
    ReceivedNotBefore(c);
    FieldsRoundTrip(c, Normalize(Strip(c.authority)), schema);
  }

  lemma ReceivedIsNormalPayload(c: Claims)
    ensures Normalize(Strip(Obj(ClaimsPayload(c)))) == Obj(Received(c))
  {
  }

  /** The authority comparison, on an authority that travelled. */
  lemma AuthorityBinds(c: Claims, schema: Schema, requested: Value)
    requires Stable(schema) && JwsSerializable(c.authority) && WellFormed(requested)
    requires exists a :: schema(a) == Some(c.authority)
    requires WithinLimits(Obj(Received(c)))
    ensures schema(Normalize(Strip(c.authority))).Some?
    ensures var seen := schema(Normalize(Strip(c.authority))).value;
            && Canonicalize(seen).Some?
            && (Canonicalize(requested).Some? ==> (Canonicalize(seen) == Canonicalize(requested) <==> Same(Strip(c.authority), requested)))
  {
    AuthorityRevalidates(c.authority, schema);
    var sent := Normalize(Strip(c.authority));
    var seen := schema(sent).value;
    ReceivedAuthorityWithinLimits(c);
    SameNormalForm(seen, sent);
    NormalizeKeepsLimits(seen);
    NormalizeKeepsLimits(sent);
    if Canonicalize(requested).Some? {
      CanonicalTextIsInjective(seen, requested);
      SameSymmetric(seen, sent);
      SameSymmetric(Strip(c.authority), sent);
      if Same(seen, requested) {
        SameTransitive(sent, seen, requested);
        SameTransitive(Strip(c.authority), sent, requested);
      }
      if Same(Strip(c.authority), requested) {
        SameTransitive(sent, Strip(c.authority), requested);
        SameTransitive(seen, sent, requested);
      }
    }
  }

  lemma StaysDefined(v: Value)
    requires !v.Undefined?
    ensures !Normalize(Strip(v)).Undefined?
  {
  }

  lemma ReceivedAuthorityWithinLimits(c: Claims)
    requires WithinLimits(Obj(Received(c))) && !c.authority.Undefined?
    ensures WithinLimits(Normalize(Strip(c.authority)))
  {
    ReceivedAuthority(c);
    StaysDefined(c.authority);
    PropertyWithinLimits(Received(c), AUTHORITY);
  }

  // ---- the two guarantees ----------------------------------------------------------

  /** The floored clock lies within the grant's lifetime, give or take the skew. */
  predicate InTime(c: Claims, nowMs: int) {
    NotBefore(c) - CLOCK_SKEW_SECONDS <= nowMs / 1000 < c.exp + CLOCK_SKEW_SECONDS
  }

  /** The right moment, audience, principal and agent. */
  predicate InScope(c: Claims, v: VerifyInput) {
    && InTime(c, v.nowMs)
    && (v.audience.Some? && c.aud.Some? ==> c.aud == v.audience)
    && v.principalId == Some(c.iss)
    && v.agentId == c.sub
  }

  /** The request the claims were granted for. */
  ghost predicate BoundTo(c: Claims, v: VerifyInput) {
    InScope(c, v) && Canonicalize(v.authority).Some? && Same(Strip(c.authority), v.authority)
  }

  lemma ScopeChecked(c: Claims, d: Claims, v: VerifyInput)
    requires c.iat < c.exp <= c.iat + MAX_GRANT_LIFETIME_SECONDS && d == c.(authority := d.authority)
    ensures CheckScope(d, v).None? <==> InScope(c, v)
  {
  }

  function GrantOf(c: Claims, kid: Text): VerifiedGrant {
    VerifiedGrant(c.jti, c.iss, c.sub, kid, c.iat, c.exp)
  }

  lemma MintedShape(m: MintInput, schema: Schema, suite: Suite)
    requires Stable(schema) && Mint(m, schema, suite).Some?
    ensures var c := MintedClaims(m, schema).value;
            && Canonical(c) && JwsSerializable(c.authority) && WellFormed(c.authority) && m.key.kid != []
            && (exists a :: schema(a) == Some(c.authority))
            && c.iat < c.exp <= c.iat + MAX_GRANT_LIFETIME_SECONDS
            && WellFormed(Obj(ClaimsPayload(c)))
            && Mint(m, schema, suite) == SignCompactJws(Obj(ClaimsPayload(c)), m.key, DELEGATION_GRANT_TYP, suite)
  {
    var c := MintedClaims(m, schema).value;
    PayloadWellFormed(c);
    MintedDates(m, schema);
  }

  lemma MintPayloadDates(m: MintInput)
    ensures Get(MintPayload(m), IAT) == Num(IntText(m.issuedAtMs / 1000))
    ensures Get(MintPayload(m), EXP) == Num(IntText(m.issuedAtMs / 1000 + m.ttlSeconds))
  {
    var issuedAt := m.issuedAtMs / 1000;
    PayloadShape(m.issuer, m.subject, m.jti, issuedAt, issuedAt + m.ttlSeconds, m.authority, m.audience,
                 match m.notBeforeMs case Some(ms) => Some(ms / 1000) case None => None);
    GetAt(MintPayload(m), 3);
    GetAt(MintPayload(m), 4);
  }

  lemma ParsedDates(ms: seq<Member>, schema: Schema, iat: int, exp: int)
    requires SafeParse(Obj(ms), schema).Some?
    requires Get(ms, IAT) == Num(IntText(iat)) && Get(ms, EXP) == Num(IntText(exp))
    ensures SafeParse(Obj(ms), schema).value.iat == iat && SafeParse(Obj(ms), schema).value.exp == exp
  {
    DateRoundTrip(iat);
    DateRoundTrip(exp);
  }

  lemma MintedDates(m: MintInput, schema: Schema)
    requires MintedClaims(m, schema).Some?
    ensures var c := MintedClaims(m, schema).value; c.exp == c.iat + m.ttlSeconds && 0 < m.ttlSeconds <= MAX_GRANT_LIFETIME_SECONDS
  {
    hide SafeParse, MintPayload;
    MintPayloadDates(m);
    ParsedDates(MintPayload(m), schema, m.issuedAtMs / 1000, m.issuedAtMs / 1000 + m.ttlSeconds);
  }

  predicate NameFits(name: Text) {
    1 <= |Trim(name)| <= 256
  }

  predicate DateFits(seconds: int) {
    0 <= seconds <= 4_102_444_800
  }

  lemma ClaimNames()
    ensures ISS == Units("iss") && SUB == Units("sub") && JTI == Units("jti") && IAT == Units("iat") && EXP == Units("exp")
    ensures AUTHORITY == Units("authority") && AUD == Units("aud") && NBF == Units("nbf")
    ensures DELEGATION_GRANT_TYP == Units("vizier-delegation+jws")
  {
  }

  /** A payload with any other property is refused. */
  lemma StrictPayload(ms: seq<Member>, schema: Schema, i: nat)
    requires SafeParse(Obj(ms), schema).Some? && i < |ms|
    ensures ms[i].key in
              {Units("iss"), Units("sub"), Units("aud"), Units("jti"), Units("iat"), Units("nbf"), Units("exp"), Units("authority")}
  {
    hide Units, ParseFields;
    ClaimNames();
  }

  /** What a mint call hands to the schema, by the names of the claims. */
  lemma MintFields(m: MintInput)
    ensures var ms, issuedAt := MintPayload(m), m.issuedAtMs / 1000;
            && OnlyKeys(ms, CLAIM_KEYS)
            && Get(ms, ISS) == Str(m.issuer) && Get(ms, SUB) == Str(m.subject) && Get(ms, JTI) == Str(m.jti)
            && Get(ms, IAT) == Num(IntText(issuedAt)) && Get(ms, EXP) == Num(IntText(issuedAt + m.ttlSeconds))
            && Get(ms, AUTHORITY) == m.authority
            && Get(ms, AUD) == (match m.audience case Some(a) => Str(a) case None => Undefined)
            && Get(ms, NBF) == (match m.notBeforeMs case Some(t) => Num(IntText(t / 1000)) case None => Undefined)
  {
    var ms, issuedAt := MintPayload(m), m.issuedAtMs / 1000;
    PayloadShape(m.issuer, m.subject, m.jti, issuedAt, issuedAt + m.ttlSeconds, m.authority, m.audience,
                 match m.notBeforeMs case Some(t) => Some(t / 1000) case None => None);
    hide MintPayload, Get;
    forall i: nat | i < 8 ensures Get(ms, CLAIM_KEYS[i]) == ms[i].value { GetAt(ms, i); }
    forall i | 0 <= i < |ms| ensures ms[i].key in CLAIM_KEYS { assert KeysOf(ms)[i] == CLAIM_KEYS[i]; }
    assert Get(ms, CLAIM_KEYS[0]) == ms[0].value && Get(ms, CLAIM_KEYS[1]) == ms[1].value && Get(ms, CLAIM_KEYS[2]) == ms[2].value;
    assert Get(ms, CLAIM_KEYS[3]) == ms[3].value && Get(ms, CLAIM_KEYS[4]) == ms[4].value && Get(ms, CLAIM_KEYS[5]) == ms[5].value;
    assert Get(ms, CLAIM_KEYS[6]) == ms[6].value && Get(ms, CLAIM_KEYS[7]) == ms[7].value;
    MintedValues(m);
  }

  lemma MintedValues(m: MintInput)
    ensures var ms, issuedAt := MintPayload(m), m.issuedAtMs / 1000;
            && |ms| == 8 && ms[0].value == Str(m.issuer) && ms[1].value == Str(m.subject) && ms[2].value == Str(m.jti)
            && ms[3].value == Num(IntText(issuedAt)) && ms[4].value == Num(IntText(issuedAt + m.ttlSeconds)) && ms[5].value == m.authority
            && ms[6].value == (match m.audience case Some(a) => Str(a) case None => Undefined)
            && ms[7].value == (match m.notBeforeMs case Some(t) => Num(IntText(t / 1000)) case None => Undefined)
  {
  }

  /** A lifetime of up to a year, names of 1 to 256 units once trimmed, dates up to the year 2100, an accepted authority. */
  predicate Mintable(m: MintInput, schema: Schema) {
    && 0 < m.ttlSeconds <= 31_536_000 && DateFits(m.issuedAtMs / 1000) && DateFits(m.issuedAtMs / 1000 + m.ttlSeconds)
    && NameFits(m.issuer) && NameFits(m.subject) && NameFits(m.jti) && (m.audience.Some? ==> NameFits(m.audience.value))
    && (m.notBeforeMs.Some? ==> DateFits(m.notBeforeMs.value / 1000))
    && schema(m.authority).Some?
  }

  /** The claims a mint call is meant to sign. */
  function Intended(m: MintInput, schema: Schema): Claims
    requires Mintable(m, schema)
  {
    Claims(
      Trim(m.issuer), Trim(m.subject), match m.audience case Some(a) => Some(Trim(a)) case None => None, Trim(m.jti),
      m.issuedAtMs / 1000, match m.notBeforeMs case Some(t) => Some(t / 1000) case None => None,
      m.issuedAtMs / 1000 + m.ttlSeconds, schema(m.authority).value)
  }

  lemma NameRead(name: Text)
    ensures Identifier(Str(name)) == if NameFits(name) then Some(Trim(name)) else None
  {
  }

  lemma OptionalName(name: Option<Text>)
    ensures var v: Value := match name case Some(a) => Str(a) case None => Undefined;
            Optional(v, Identifier(v)) ==
              if name.None? then Some(None) else if NameFits(name.value) then Some(Some(Trim(name.value))) else None
  {
    if name.Some? { NameRead(name.value); }
  }

  lemma DateRead(seconds: int)
    ensures NumericDate(Num(IntText(seconds))) == if DateFits(seconds) then Some(seconds) else None
  {
    DateRoundTrip(seconds);
  }

  lemma OptionalDate(ms: Option<int>)
    ensures var v: Value := match ms case Some(t) => Num(IntText(t / 1000)) case None => Undefined;
            Optional(v, NumericDate(v)) ==
              if ms.None? then Some(None) else if DateFits(ms.value / 1000) then Some(Some(ms.value / 1000)) else None
  {
    if ms.Some? { DateRead(ms.value / 1000); }
  }

  /** The fields of a mint call, as the schema reads them. */
  lemma FieldsOfMint(m: MintInput, schema: Schema)
    requires 0 < m.ttlSeconds <= 31_536_000
    ensures ParseFields(
              Str(m.issuer), Str(m.subject), Str(m.jti), Num(IntText(m.issuedAtMs / 1000)), Num(IntText(m.issuedAtMs / 1000 + m.ttlSeconds)),
              m.authority, match m.audience case Some(a) => Str(a) case None => Undefined,
              match m.notBeforeMs case Some(t) => Num(IntText(t / 1000)) case None => Undefined, schema) ==
            if Mintable(m, schema) then Some(Intended(m, schema)) else None
  {
    hide IntText, NumericDate, Trim, Identifier, NameFits, Optional, DateFits;
    NameRead(m.issuer);
    NameRead(m.subject);
    NameRead(m.jti);
    OptionalName(m.audience);
    DateRead(m.issuedAtMs / 1000);
    DateRead(m.issuedAtMs / 1000 + m.ttlSeconds);
    OptionalDate(m.notBeforeMs);
  }

  lemma ClaimsExactly(m: MintInput, schema: Schema)
    ensures MintedClaims(m, schema) == if Mintable(m, schema) then Some(Intended(m, schema)) else None
  {
    hide MintPayload, IntText, Get, OnlyKeys, ParseFields, Intended, NameFits, DateFits;
    MintFields(m);
    if 0 < m.ttlSeconds <= 31_536_000 { FieldsOfMint(m, schema); }
  }

  /** A mint call succeeds exactly for such arguments, an authority that can be serialized and a named key, and signs those claims. */
  lemma MintSucceedsExactly(m: MintInput, schema: Schema, suite: Suite)
    requires Stable(schema)
    ensures Mint(m, schema, suite).Some? <==> Mintable(m, schema) && JwsSerializable(schema(m.authority).value) && m.key.kid != []
    ensures Mint(m, schema, suite).Some? ==> MintedClaims(m, schema) == Some(Intended(m, schema))
  {
    hide Intended, MintedClaims, JwsSerializable, ClaimsPayload;
    ClaimsExactly(m, schema);
    if Mintable(m, schema) {
      IntendedAuthority(m, schema);
      PayloadSerializable(Intended(m, schema), schema, m.authority);
    }
  }

  lemma IntendedAuthority(m: MintInput, schema: Schema)
    requires Mintable(m, schema)
    ensures Intended(m, schema).authority == schema(m.authority).value
  {
  }

  lemma PayloadSerializable(c: Claims, schema: Schema, a: Value)
    requires Stable(schema) && schema(a) == Some(c.authority)
    ensures WellFormed(c.authority) && WellFormed(Obj(ClaimsPayload(c)))
    ensures JwsSerializable(Obj(ClaimsPayload(c))) <==> JwsSerializable(c.authority)
  {
    PayloadWellFormed(c);
  }

  /** CheckClaims on received claims, spelled out. */
  lemma CheckReceivedClaims(c: Claims, schema: Schema, kid: Text, v: VerifyInput)
    requires Stable(schema) && JwsSerializable(c.authority) && WellFormed(v.authority)
    requires exists a :: schema(a) == Some(c.authority)
    requires WithinLimits(Obj(Received(c))) && c.iat < c.exp <= c.iat + MAX_GRANT_LIFETIME_SECONDS
    ensures schema(Normalize(Strip(c.authority))).Some?
    ensures var seen := c.(authority := schema(Normalize(Strip(c.authority))).value);
            && (CheckClaims(seen, kid, v).Verified? <==> BoundTo(c, v))
            && (CheckClaims(seen, kid, v).Verified? ==> CheckClaims(seen, kid, v).grant == GrantOf(c, kid))
            && !CheckClaims(seen, kid, v).Threw?
  {
    AuthorityBinds(c, schema, v.authority);
    ScopeChecked(c, c.(authority := schema(Normalize(Strip(c.authority))).value), v);
  }

  /** The registry holds the minting key, as the first of its principal's keys with that kid. */
  predicate Registered(registry: Registry, principal: Text, key: PrivateKey) {
    principal in registry && FindKey(registry[principal], key.kid) == Some(PublicKey(key.kid, key.pair))
  }

  function KeysFor(registry: Registry, principal: Text): seq<PublicKey> {
    if principal in registry then registry[principal] else []
  }

  /** A signature made by `key` passes exactly when `key` is the registered one. */
  lemma SignedByRegisteredKey(c: Claims, key: PrivateKey, parts: JwsParts, v: VerifyInput, suite: Suite)
    requires forall k :: k in KeysFor(v.registry, c.iss) ==> (VerifyJwsSignature(parts, k, suite) <==> k.pair == key.pair)
    ensures CheckSigned(parts, c, key.kid, v, suite).Verified? <==>
            Registered(v.registry, c.iss, key) && CheckClaims(c, key.kid, v).Verified?
    ensures CheckSigned(parts, c, key.kid, v, suite).Verified? ==>
            CheckSigned(parts, c, key.kid, v, suite) == CheckClaims(c, key.kid, v)
  {
  }

  /** CheckParts on the parts of a minted token. */
  lemma CheckMintedParts(c: Claims, key: PrivateKey, parts: JwsParts, v: VerifyInput, schema: Schema, suite: Suite)
    requires Stable(schema) && JwsSerializable(c.authority) && WellFormed(v.authority) && Canonical(c) && key.kid != []
    requires exists a :: schema(a) == Some(c.authority)
    requires c.iat < c.exp <= c.iat + MAX_GRANT_LIFETIME_SECONDS
    requires parts.header == ProtectedHeader(key.kid, DELEGATION_GRANT_TYP) && parts.payload == Obj(Received(c))
    requires forall k :: k in KeysFor(v.registry, c.iss) ==> (VerifyJwsSignature(parts, k, suite) <==> k.pair == key.pair)
    ensures var r := CheckParts(parts, v, schema, suite);
            && (r.Verified? <==> WithinLimits(Obj(Received(c))) && Registered(v.registry, c.iss, key) && BoundTo(c, v))
            && (r.Verified? ==> r.grant == GrantOf(c, key.kid))
  {
    hide WithinLimits, Received, SafeParse, CheckClaims, ProtectedHeader;
    if WithinLimits(Obj(Received(c))) {
      HeaderFields(key.kid, DELEGATION_GRANT_TYP);
      CheckReceivedClaims(c, schema, key.kid, v);
      var seen := c.(authority := schema(Normalize(Strip(c.authority))).value);
      SafeParseReceived(c, schema);
      SignedByRegisteredKey(seen, key, parts, v, suite);
      assert CheckParts(parts, v, schema, suite) == CheckSigned(parts, seen, key.kid, v, suite);
    }
  }

  /** The bytes a mint call signs. */
  function MintedBytes(m: MintInput, schema: Schema): seq<Byte>
    requires Stable(schema)
  {
    match MintedClaims(m, schema)
    case None => []
    case Some(c) =>
      PayloadWellFormed(c);
      if JwsSerializable(Obj(ClaimsPayload(c))) then Utf8Encode(TokenInput(Obj(ClaimsPayload(c)), m.key, DELEGATION_GRANT_TYP)) else []
  }

  /** The parts of a minted token; among these keys its signature verifies for the minting pair only. */
  lemma MintedTokenDecodes(m: MintInput, token: Text, keys: seq<PublicKey>, schema: Schema, suite: Suite)
    requires Stable(schema) && Correct(suite)
    requires Mint(m, schema, suite) == Some(token) && Separates(suite, m.key.pair, MintedBytes(m, schema), keys)
    ensures DecodeCompactJws(token).Some?
    ensures var c, parts := MintedClaims(m, schema).value, DecodeCompactJws(token).value;
            && parts.header == ProtectedHeader(m.key.kid, DELEGATION_GRANT_TYP)
            && parts.payload == Normalize(Strip(Obj(ClaimsPayload(c))))
            && Utf8Encode(parts.signingInput) == MintedBytes(m, schema)
            && forall k :: k in keys ==> (VerifyJwsSignature(parts, k, suite) <==> k.pair == m.key.pair)
  {
    hide ClaimsPayload, ProtectedHeader, TokenInput, DecodeCompactJws, Strip;
    MintedShape(m, schema, suite);
    SignThenDecode(Obj(ClaimsPayload(MintedClaims(m, schema).value)), m.key, DELEGATION_GRANT_TYP, suite);
  }

  /**
   A minted grant verifies exactly when it is short and shallow enough, its key is
   registered for its issuer, and the request is the one it was granted for; its signature
   is assumed to pass under no other key of that issuer.
   */
  lemma MintThenVerify(m: MintInput, v: VerifyInput, schema: Schema, suite: Suite)
    requires Stable(schema) && Correct(suite) && WellFormed(v.authority)
    requires Mint(m, schema, suite) == Some(v.token)
    requires Separates(suite, m.key.pair, MintedBytes(m, schema), KeysFor(v.registry, MintedClaims(m, schema).value.iss))
    ensures var c := MintedClaims(m, schema).value;
            && (Verify(v, schema, suite).Verified? <==>
                  && |v.token| <= 8192
                  && WithinLimits(Obj(Received(c)))
                  && Registered(v.registry, c.iss, m.key)
                  && BoundTo(c, v))
            && (Verify(v, schema, suite).Verified? ==> Verify(v, schema, suite).grant == GrantOf(c, m.key.kid))
  {
    hide WellFormed, JwsSerializable, DecodeCompactJws, CheckParts, Received, BoundTo, ClaimsPayload, ProtectedHeader, SignCompactJws,
      Normalize, Strip, Canonical, MintedBytes, MintedClaims, WithinLimits, VerifyJwsSignature;
    MintedShape(m, schema, suite);
    var c := MintedClaims(m, schema).value;
    MintedTokenDecodes(m, v.token, KeysFor(v.registry, c.iss), schema, suite);
    ReceivedIsNormalPayload(c);
    CheckMintedParts(c, m.key, DecodeCompactJws(v.token).value, v, schema, suite);
  }

  /** Which check of times, audience, principal and agent is the first to fail. */
  lemma ScopeAnswer(c: Claims, v: VerifyInput)
    requires c.iat < c.exp <= c.iat + 31_536_000
    ensures var r, now := CheckScope(c, v), v.nowMs / 1000;
            var early, late := now + 60 < NotBefore(c), now >= c.exp + 60;
            var misdirected := v.audience.Some? && c.aud.Some? && c.aud != v.audience;
            && (r == Some(GRANT_NOT_YET_VALID) <==> early)
            && (r == Some(GRANT_EXPIRED) <==> !early && late)
            && (r == Some(GRANT_AUDIENCE_MISMATCH) <==> InTime(c, v.nowMs) && misdirected)
            && (r == Some(GRANT_ISSUER_MISMATCH) <==> InTime(c, v.nowMs) && !misdirected && v.principalId != Some(c.iss))
            && (r == Some(GRANT_SUBJECT_MISMATCH) <==> InTime(c, v.nowMs) && !misdirected && v.principalId == Some(c.iss) && c.sub != v.agentId)
            && (r == None <==> InScope(c, v))
    ensures InTime(c, v.nowMs) <==> NotBefore(c) - 60 <= v.nowMs / 1000 < c.exp + 60
    ensures NotBefore(c) == (match c.nbf case Some(n) => n case None => c.iat)
  {
  }

  /**
   What the verifier answers for a minted grant within the limits: the first thing wrong with the principal, the key,
   its signature, the scope or the authority.
   */
  lemma MintedGrantAnswer(m: MintInput, v: VerifyInput, schema: Schema, suite: Suite)
    requires Stable(schema) && Correct(suite) && WellFormed(v.authority)
    requires Mint(m, schema, suite) == Some(v.token)
    requires Separates(suite, m.key.pair, MintedBytes(m, schema), KeysFor(v.registry, MintedClaims(m, schema).value.iss))
    requires |v.token| <= 8192 && WithinLimits(Obj(Received(MintedClaims(m, schema).value)))
    ensures var c, r := MintedClaims(m, schema).value, Verify(v, schema, suite);
            if c.iss !in v.registry then r == Refused(GRANT_PRINCIPAL_UNKNOWN)
            else if FindKey(v.registry[c.iss], m.key.kid).None? then r == Refused(GRANT_KEY_UNKNOWN)
            else if FindKey(v.registry[c.iss], m.key.kid).value.pair != m.key.pair then r == Refused(GRANT_SIGNATURE_INVALID)
            else if CheckScope(c, v).Some? then r == Refused(CheckScope(c, v).value)
            else r == if BoundTo(c, v) then Verified(GrantOf(c, m.key.kid)) else Refused(GRANT_AUTHORITY_MISMATCH)
  {
    hide WellFormed, JwsSerializable, DecodeCompactJws, Received, ClaimsPayload, ProtectedHeader, SignCompactJws, SafeParse, InScope,
      Normalize, Strip, Canonical, MintedBytes, MintedClaims, WithinLimits, VerifyJwsSignature, Same, Canonicalize;
    MintedShape(m, schema, suite);
    var c := MintedClaims(m, schema).value;
    MintedTokenDecodes(m, v.token, KeysFor(v.registry, c.iss), schema, suite);
    ReceivedIsNormalPayload(c);
    var parts := DecodeCompactJws(v.token).value;
    HeaderFields(m.key.kid, DELEGATION_GRANT_TYP);
    CheckReceivedClaims(c, schema, m.key.kid, v);
    SafeParseReceived(c, schema);
    var seen := c.(authority := schema(Normalize(Strip(c.authority))).value);
    ScopeSeen(c, seen, v);
    assert Verify(v, schema, suite) == CheckSigned(parts, seen, m.key.kid, v, suite);
  }

  lemma ScopeSeen(c: Claims, seen: Claims, v: VerifyInput)
    requires seen == c.(authority := seen.authority)
    ensures CheckScope(seen, v) == CheckScope(c, v)
  {
  }

  lemma SameMessageSamePayload(parts: JwsParts, token: Text, payload: Value, key: PrivateKey)
    requires DecodeCompactJws(token) == Some(parts) && WellFormed(payload) && JwsSerializable(payload)
    requires Utf8Encode(parts.signingInput) == Utf8Encode(TokenInput(payload, key, DELEGATION_GRANT_TYP))
    ensures parts.payload == Normalize(Strip(payload)) && parts.header == ProtectedHeader(key.kid, DELEGATION_GRANT_TYP)
  {
    DecodedInput(token);
    var halves := Split(token);
    EncodeDecode(halves[1]);
    InputNames(halves[0], halves[1], payload, key, DELEGATION_GRANT_TYP);
  }

  /** The keys registered for the principal the token names as its issuer. */
  function ClaimedKeys(v: VerifyInput, parts: JwsParts, schema: Schema): seq<PublicKey> {
    match SafeParse(parts.payload, schema)
    case None => []
    case Some(c) => KeysFor(v.registry, c.iss)
  }

  /**
   Unforgeability, of the token presented only: if its signature holds under a key of its
   issuer, then one of these mint calls signed its bytes with that key pair.
   */
  ghost predicate PresentedWasMinted(v: VerifyInput, minted: iset<MintInput>, schema: Schema, suite: Suite)
    requires Stable(schema)
  {
    DecodeCompactJws(v.token).Some? ==>
      var parts := DecodeCompactJws(v.token).value;
      forall k: PublicKey :: k in ClaimedKeys(v, parts, schema) && VerifyJwsSignature(parts, k, suite) ==>
        exists m: MintInput :: m in minted && Mints(m, k.pair, Utf8Encode(parts.signingInput), schema, suite)
  }

  /** The call succeeds, with this pair, and these are the bytes it signs. */
  predicate Mints(m: MintInput, pair: nat, message: seq<Byte>, schema: Schema, suite: Suite)
    requires Stable(schema)
  {
    Mint(m, schema, suite).Some? && m.key.pair == pair && message == MintedBytes(m, schema)
  }

  /** The hypothesis holds of the tokens that mint calls return. */
  lemma MintedTokenWasMinted(m: MintInput, v: VerifyInput, minted: iset<MintInput>, schema: Schema, suite: Suite)
    requires Stable(schema) && Correct(suite) && m in minted
    requires Mint(m, schema, suite) == Some(v.token)
    requires Separates(suite, m.key.pair, MintedBytes(m, schema), KeysFor(v.registry, MintedClaims(m, schema).value.iss))
    ensures PresentedWasMinted(v, minted, schema, suite)
  {
    hide MintedBytes, DecodeCompactJws, ClaimsPayload, Received, SafeParse, SignCompactJws, ProtectedHeader, VerifyJwsSignature,
      Normalize, Strip, WellFormed, JwsSerializable, Canonical;
    MintedShape(m, schema, suite);
    var c := MintedClaims(m, schema).value;
    MintedTokenDecodes(m, v.token, KeysFor(v.registry, c.iss), schema, suite);
    ReceivedIsNormalPayload(c);
    AuthorityRevalidates(c.authority, schema);
    SafeParseReceived(c, schema);
    assert Mints(m, m.key.pair, MintedBytes(m, schema), schema, suite);
  }

  /**
   Exact authority binding: a token that verifies, however it was put together, carries
   the claims of a mint call by its principal, for this agent, with this authority up to
   key order, and within its lifetime; only the presented signature is assumed not forged.
   */
  lemma ExactAuthorityBinding(v: VerifyInput, minted: iset<MintInput>, schema: Schema, suite: Suite) returns (m: MintInput)
    requires Stable(schema) && WellFormed(v.authority)
    requires Verify(v, schema, suite).Verified?
    requires PresentedWasMinted(v, minted, schema, suite)
    ensures m in minted && Mint(m, schema, suite).Some?
    ensures var c := MintedClaims(m, schema).value;
            && BoundTo(c, v)
            && Verify(v, schema, suite).grant == GrantOf(c, m.key.kid)
            && c.iss in v.registry && PublicKey(m.key.kid, m.key.pair) in v.registry[c.iss]
  {
    var parts := DecodeCompactJws(v.token).value;
    var seen := SafeParse(parts.payload, schema).value;
    var kid := Get(parts.header, KID).text;
    var key := FindKey(v.registry[seen.iss], kid).value;
    var message := Utf8Encode(parts.signingInput);
    assert key in ClaimedKeys(v, parts, schema) && VerifyJwsSignature(parts, key, suite);
    m :| m in minted && Mints(m, key.pair, message, schema, suite);
    MintedShape(m, schema, suite);
    var c := MintedClaims(m, schema).value;
    SameMessageSamePayload(parts, v.token, Obj(ClaimsPayload(c)), m.key);
    ReceivedIsNormalPayload(c);
    HeaderFields(m.key.kid, DELEGATION_GRANT_TYP);
    AuthorityRevalidates(c.authority, schema);
    SafeParseReceived(c, schema);
    CheckReceivedClaims(c, schema, kid, v);
  }
}
