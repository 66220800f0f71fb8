/**
 The records of an action covenant's life, and the JSON they are hashed and signed as.

 Receipts are objects with a fixed list of distinct keys, so two receipts that are
 the same JSON have the same fields.
 */
module CovenantRecords {
  import opened CodeUnits
  import opened Json
  import opened CanonicalPrinter
  import Policies

  const ACCEPTANCE: Text := ['a' as int, 'c' as int, 'c' as int, 'e' as int, 'p' as int, 't' as int, 'a' as int, 'n' as int, 'c' as int, 'e' as int]
  const ACTION: Text := ['a' as int, 'c' as int, 't' as int, 'i' as int, 'o' as int, 'n' as int]
  const ACTION_HASH: Text := ['a' as int, 'c' as int, 't' as int, 'i' as int, 'o' as int, 'n' as int, '_' as int, 'h' as int, 'a' as int, 's' as int, 'h' as int]
  const ACTIVATED_AT: Text := ['a' as int, 'c' as int, 't' as int, 'i' as int, 'v' as int, 'a' as int, 't' as int, 'e' as int, 'd' as int, '_' as int, 'a' as int, 't' as int]
  const AUTHORIZATION_RECEIPT_ID: Text := ['a' as int, 'u' as int, 't' as int, 'h' as int, 'o' as int, 'r' as int, 'i' as int, 'z' as int, 'a' as int, 't' as int, 'i' as int, 'o' as int, 'n' as int, '_' as int, 'r' as int, 'e' as int, 'c' as int, 'e' as int, 'i' as int, 'p' as int, 't' as int, '_' as int, 'i' as int, 'd' as int]
  const AUTHORIZATION_TOKEN_HASH: Text := ['a' as int, 'u' as int, 't' as int, 'h' as int, 'o' as int, 'r' as int, 'i' as int, 'z' as int, 'a' as int, 't' as int, 'i' as int, 'o' as int, 'n' as int, '_' as int, 't' as int, 'o' as int, 'k' as int, 'e' as int, 'n' as int, '_' as int, 'h' as int, 'a' as int, 's' as int, 'h' as int]
  const COMPLIANCE: Text := ['c' as int, 'o' as int, 'm' as int, 'p' as int, 'l' as int, 'i' as int, 'a' as int, 'n' as int, 'c' as int, 'e' as int]
  const CONTEXT: Text := ['c' as int, 'o' as int, 'n' as int, 't' as int, 'e' as int, 'x' as int, 't' as int]
  const COVENANT: Text := ['c' as int, 'o' as int, 'v' as int, 'e' as int, 'n' as int, 'a' as int, 'n' as int, 't' as int]
  const COVENANT_HASH: Text := ['c' as int, 'o' as int, 'v' as int, 'e' as int, 'n' as int, 'a' as int, 'n' as int, 't' as int, '_' as int, 'h' as int, 'a' as int, 's' as int, 'h' as int]
  const COVENANT_ID: Text := ['c' as int, 'o' as int, 'v' as int, 'e' as int, 'n' as int, 'a' as int, 'n' as int, 't' as int, '_' as int, 'i' as int, 'd' as int]
  const DECISION: Text := ['d' as int, 'e' as int, 'c' as int, 'i' as int, 's' as int, 'i' as int, 'o' as int, 'n' as int]
  const DRAFT: Text := ['d' as int, 'r' as int, 'a' as int, 'f' as int, 't' as int]
  const EVIDENCE: Text := ['e' as int, 'v' as int, 'i' as int, 'd' as int, 'e' as int, 'n' as int, 'c' as int, 'e' as int]
  const EVIDENCE_HASH: Text := ['e' as int, 'v' as int, 'i' as int, 'd' as int, 'e' as int, 'n' as int, 'c' as int, 'e' as int, '_' as int, 'h' as int, 'a' as int, 's' as int, 'h' as int]
  const EXPIRES_AT: Text := ['e' as int, 'x' as int, 'p' as int, 'i' as int, 'r' as int, 'e' as int, 's' as int, '_' as int, 'a' as int, 't' as int]
  const ID: Text := ['i' as int, 'd' as int]
  const ISSUED_AT: Text := ['i' as int, 's' as int, 's' as int, 'u' as int, 'e' as int, 'd' as int, '_' as int, 'a' as int, 't' as int]
  const ISSUER: Text := ['i' as int, 's' as int, 's' as int, 'u' as int, 'e' as int, 'r' as int]
  const OUTCOME_HASH: Text := ['o' as int, 'u' as int, 't' as int, 'c' as int, 'o' as int, 'm' as int, 'e' as int, '_' as int, 'h' as int, 'a' as int, 's' as int, 'h' as int]
  const POLICY_RULE_IDS: Text := ['p' as int, 'o' as int, 'l' as int, 'i' as int, 'c' as int, 'y' as int, '_' as int, 'r' as int, 'u' as int, 'l' as int, 'e' as int, '_' as int, 'i' as int, 'd' as int, 's' as int]
  const REASON_CODES: Text := ['r' as int, 'e' as int, 'a' as int, 's' as int, 'o' as int, 'n' as int, '_' as int, 'c' as int, 'o' as int, 'd' as int, 'e' as int, 's' as int]
  const REQUEST_HASH: Text := ['r' as int, 'e' as int, 'q' as int, 'u' as int, 'e' as int, 's' as int, 't' as int, '_' as int, 'h' as int, 'a' as int, 's' as int, 'h' as int]
  const RISK_SCORE: Text := ['r' as int, 'i' as int, 's' as int, 'k' as int, '_' as int, 's' as int, 'c' as int, 'o' as int, 'r' as int, 'e' as int]
  const SIGNALS: Text := ['s' as int, 'i' as int, 'g' as int, 'n' as int, 'a' as int, 'l' as int, 's' as int]
  const SIGNALS_HASH: Text := ['s' as int, 'i' as int, 'g' as int, 'n' as int, 'a' as int, 'l' as int, 's' as int, '_' as int, 'h' as int, 'a' as int, 's' as int, 'h' as int]
  const STATUS: Text := ['s' as int, 't' as int, 'a' as int, 't' as int, 'u' as int, 's' as int]
  const TYPE: Text := ['t' as int, 'y' as int, 'p' as int, 'e' as int]
  const VERSION: Text := ['v' as int, 'e' as int, 'r' as int, 's' as int, 'i' as int, 'o' as int, 'n' as int]
  const VIOLATION_CODES: Text := ['v' as int, 'i' as int, 'o' as int, 'l' as int, 'a' as int, 't' as int, 'i' as int, 'o' as int, 'n' as int, '_' as int, 'c' as int, 'o' as int, 'd' as int, 'e' as int, 's' as int]
  const AUTHORIZATION_TYP: Text := ['V' as int, 'I' as int, 'Z' as int, 'I' as int, 'E' as int, 'R' as int, '-' as int, 'A' as int, 'C' as int, 'T' as int, 'I' as int, 'O' as int, 'N' as int, '-' as int, 'A' as int, 'U' as int, 'T' as int, 'H' as int, 'O' as int, 'R' as int, 'I' as int, 'Z' as int, 'A' as int, 'T' as int, 'I' as int, 'O' as int, 'N' as int, '+' as int, 'J' as int, 'W' as int, 'S' as int]
  const OUTCOME_TYP: Text := ['V' as int, 'I' as int, 'Z' as int, 'I' as int, 'E' as int, 'R' as int, '-' as int, 'O' as int, 'U' as int, 'T' as int, 'C' as int, 'O' as int, 'M' as int, 'E' as int, '-' as int, 'R' as int, 'E' as int, 'C' as int, 'E' as int, 'I' as int, 'P' as int, 'T' as int, '+' as int, 'J' as int, 'W' as int, 'S' as int]
  const ACTION_AUTHORIZATION: Text := ['A' as int, 'C' as int, 'T' as int, 'I' as int, 'O' as int, 'N' as int, '_' as int, 'A' as int, 'U' as int, 'T' as int, 'H' as int, 'O' as int, 'R' as int, 'I' as int, 'Z' as int, 'A' as int, 'T' as int, 'I' as int, 'O' as int, 'N' as int]
  const OUTCOME_RECEIPT: Text := ['O' as int, 'U' as int, 'T' as int, 'C' as int, 'O' as int, 'M' as int, 'E' as int, '_' as int, 'R' as int, 'E' as int, 'C' as int, 'E' as int, 'I' as int, 'P' as int, 'T' as int]
  const ACTIVE: Text := ['A' as int, 'C' as int, 'T' as int, 'I' as int, 'V' as int, 'E' as int]
  const COMPLIANT: Text := ['C' as int, 'O' as int, 'M' as int, 'P' as int, 'L' as int, 'I' as int, 'A' as int, 'N' as int, 'T' as int]
  const VIOLATION: Text := ['V' as int, 'I' as int, 'O' as int, 'L' as int, 'A' as int, 'T' as int, 'I' as int, 'O' as int, 'N' as int]
  const ALLOW_TEXT: Text := ['A' as int, 'L' as int, 'L' as int, 'O' as int, 'W' as int]
  const REVIEW_TEXT: Text := ['R' as int, 'E' as int, 'V' as int, 'I' as int, 'E' as int, 'W' as int]
  const BLOCK_TEXT: Text := ['B' as int, 'L' as int, 'O' as int, 'C' as int, 'K' as int]
  const FORBIDDEN_OUTCOME: Text := ['F' as int, 'O' as int, 'R' as int, 'B' as int, 'I' as int, 'D' as int, 'D' as int, 'E' as int, 'N' as int, '_' as int, 'O' as int, 'U' as int, 'T' as int, 'C' as int, 'O' as int, 'M' as int, 'E' as int, ':' as int]

  const ONE: Text := ['1' as int]

  const COVENANT_KEYS: seq<Text> := [ID, DRAFT, STATUS, VERSION, ACCEPTANCE, ACTIVATED_AT]
  const REQUEST_KEYS: seq<Text> := [ACTION, SIGNALS, CONTEXT, EVIDENCE, COVENANT]
  const AUTHORIZATION_KEYS: seq<Text> :=
    [ID, TYPE, ISSUER, VERSION, DECISION, ISSUED_AT, EXPIRES_AT, RISK_SCORE, ACTION_HASH, COVENANT_ID, REASON_CODES, SIGNALS_HASH, REQUEST_HASH, EVIDENCE_HASH, COVENANT_HASH, POLICY_RULE_IDS]
  const OUTCOME_KEYS: seq<Text> :=
    [ID, TYPE, ISSUER, VERSION, ISSUED_AT, COMPLIANCE, COVENANT_ID, OUTCOME_HASH, COVENANT_HASH, VIOLATION_CODES, AUTHORIZATION_RECEIPT_ID, AUTHORIZATION_TOKEN_HASH]

  datatype Covenant = Covenant(id: Text, activatedAt: Text, draft: JsonValue, acceptance: JsonValue, hash: Text)

  datatype AuthorizationRequest = AuthorizationRequest(
    covenant: Covenant, action: JsonValue, evidence: JsonValue, signals: JsonValue, context: JsonValue)

  datatype AuthorizationPayload = AuthorizationPayload(
    id: Text, issuer: Text, issuedAt: Text, expiresAt: Text, covenantId: Text, covenantHash: Text, requestHash: Text,
    actionHash: Text, evidenceHash: Text, signalsHash: Text, decision: Policies.Decision, riskScore: Number,
    ruleIds: seq<Text>, reasonCodes: seq<Text>)

  datatype OutcomePayload = OutcomePayload(
    id: Text, issuer: Text, issuedAt: Text, receiptId: Text, tokenHash: Text, covenantId: Text, covenantHash: Text,
    outcomeHash: Text, compliant: bool, violationCodes: seq<Text>)

  // ---- as JSON -------------------------------------------------------------------------

  /** An object literal with these keys. */
  function Record(keys: seq<Text>, values: seq<Value>): seq<Member>
    requires |keys| == |values|
  {
    seq(|keys|, i requires 0 <= i < |keys| => Member(keys[i], values[i]))
  }

  function Texts(ts: seq<Text>): Value {
    Arr(seq(|ts|, i requires 0 <= i < |ts| => Str(ts[i])))
  }

  function DecisionText(d: Policies.Decision): Text {
    match d case ALLOW => ALLOW_TEXT case REVIEW => REVIEW_TEXT case BLOCK => BLOCK_TEXT
  }

  /** What the covenant hash covers. */
  function CovenantBody(c: Covenant): JsonValue {
    CovenantKeysDistinct();
    RecordWellFormed(COVENANT_KEYS, [Str(c.id), c.draft, Str(ACTIVE), Num(ONE), c.acceptance, Str(c.activatedAt)]);
    Obj(Record(COVENANT_KEYS, [Str(c.id), c.draft, Str(ACTIVE), Num(ONE), c.acceptance, Str(c.activatedAt)]))
  }

  function CovenantValue(c: Covenant): JsonValue {
    CovenantKeysDistinct();
    RecordWellFormed(COVENANT_KEYS + [COVENANT_HASH],
                     [Str(c.id), c.draft, Str(ACTIVE), Num(ONE), c.acceptance, Str(c.activatedAt), Str(c.hash)]);
    Obj(Record(COVENANT_KEYS + [COVENANT_HASH],
               [Str(c.id), c.draft, Str(ACTIVE), Num(ONE), c.acceptance, Str(c.activatedAt), Str(c.hash)]))
  }

  function RequestValue(r: AuthorizationRequest): JsonValue {
    RequestKeysDistinct();
    RecordWellFormed(REQUEST_KEYS, [r.action, r.signals, r.context, r.evidence, CovenantValue(r.covenant)]);
    Obj(Record(REQUEST_KEYS, [r.action, r.signals, r.context, r.evidence, CovenantValue(r.covenant)]))
  }

  function AuthorizationFields(p: AuthorizationPayload): (r: seq<Value>)
    ensures |r| == |AUTHORIZATION_KEYS|
  {
    [Str(p.id), Str(ACTION_AUTHORIZATION), Str(p.issuer), Num(ONE), Str(DecisionText(p.decision)), Str(p.issuedAt), Str(p.expiresAt),
     Num(p.riskScore), Str(p.actionHash), Str(p.covenantId), Texts(p.reasonCodes), Str(p.signalsHash), Str(p.requestHash),
     Str(p.evidenceHash), Str(p.covenantHash), Texts(p.ruleIds)]
  }

  function AuthorizationValue(p: AuthorizationPayload): JsonValue {
    AuthorizationKeysDistinct();
    RecordWellFormed(AUTHORIZATION_KEYS, AuthorizationFields(p));
    Obj(Record(AUTHORIZATION_KEYS, AuthorizationFields(p)))
  }

  function OutcomeFields(p: OutcomePayload): (r: seq<Value>)
    ensures |r| == |OUTCOME_KEYS|
  {
    [Str(p.id), Str(OUTCOME_RECEIPT), Str(p.issuer), Num(ONE), Str(p.issuedAt), Str(if p.compliant then COMPLIANT else VIOLATION),
     Str(p.covenantId), Str(p.outcomeHash), Str(p.covenantHash), Texts(p.violationCodes), Str(p.receiptId), Str(p.tokenHash)]
  }

  function OutcomeValue(p: OutcomePayload): JsonValue {
    OutcomeKeysDistinct();
    RecordWellFormed(OUTCOME_KEYS, OutcomeFields(p));
    Obj(Record(OUTCOME_KEYS, OutcomeFields(p)))
  }

  // ---- keys are distinct -----------------------------------------------------------------

  /** Tells the keys apart. */
  function Rank(k: Text): int {
    1000 * |k| + if |k| < 3 then 0 else if |k| == 24 then k[14] else k[2]
  }

  predicate Ranked(ks: seq<Text>, ranks: seq<int>) {
    |ks| == |ranks| && forall i :: 0 <= i < |ks| ==> Rank(ks[i]) == ranks[i]
  }

  lemma RankedDistinct(ks: seq<Text>, ranks: seq<int>)
    requires Ranked(ks, ranks) && forall i :: 0 < i < |ranks| ==> ranks[i - 1] < ranks[i]
    ensures Distinct(ks)
  {
    forall i, j | 0 <= i < j < |ks| ensures ks[i] != ks[j] {
      RanksRise(ranks, i, j);
    }
  }

  lemma {:induction false} RanksRise(ranks: seq<int>, i: nat, j: nat)
    requires i < j < |ranks| && forall k :: 0 < k < |ranks| ==> ranks[k - 1] < ranks[k]
    ensures ranks[i] < ranks[j]
  {
    if i + 1 < j { RanksRise(ranks, i, j - 1); }
  }

  lemma CovenantKeysDistinct()
    ensures Distinct(COVENANT_KEYS) && Distinct(COVENANT_KEYS + [COVENANT_HASH])
  {
    RankedDistinct(COVENANT_KEYS, [2000, 5097, 6097, 7114, 10099, 12116]);
    RankedDistinct(COVENANT_KEYS + [COVENANT_HASH], [2000, 5097, 6097, 7114, 10099, 12116, 13118]);
  }

  lemma RequestKeysDistinct()
    ensures Distinct(REQUEST_KEYS)
  {
    RankedDistinct(REQUEST_KEYS, [6116, 7103, 7110, 8105, 8118]);
  }

  lemma AuthorizationKeysDistinct()
    ensures Distinct(AUTHORIZATION_KEYS)
  {
    RankedDistinct(AUTHORIZATION_KEYS, [2000, 4112, 6115, 7114, 8099, 9115, 10112, 10115, 11116, 11118, 12097, 12103, 12113, 13105, 13118, 15108]);
  }

  lemma OutcomeKeysDistinct()
    ensures Distinct(OUTCOME_KEYS)
  {
    RankedDistinct(OUTCOME_KEYS, [2000, 4112, 6115, 7114, 9115, 10109, 11118, 12116, 13118, 15111, 24114, 24116]);
  }

  lemma RecordWellFormed(keys: seq<Text>, values: seq<Value>)
    requires |keys| == |values| && Distinct(keys) && forall i :: 0 <= i < |values| ==> WellFormed(values[i])
    ensures KeysOf(Record(keys, values)) == keys && WellFormed(Obj(Record(keys, values)))
  {
  }

  // ---- what equal payloads agree on ----------------------------------------------------------

  /** Records signed as the same JSON have the same fields. */
  lemma SameRecordSameField(keys: seq<Text>, vs: seq<Value>, ws: seq<Value>, i: nat)
    requires |keys| == |vs| == |ws| && i < |keys| && Distinct(keys)
    requires !vs[i].Undefined? && !ws[i].Undefined?
    requires Same(Strip(Obj(Record(keys, vs))), Strip(Obj(Record(keys, ws))))
    ensures Same(Strip(vs[i]), Strip(ws[i]))
  {
    var ms, ns, k := Record(keys, vs), Record(keys, ws), keys[i];
    assert KeysOf(ms) == keys && KeysOf(ns) == keys;
    DistinctKeys(ms, i);
    DistinctKeys(ns, i);
    assert ms[i].key == k && ns[i].key == k;
    StripLookup(ms, k);
    StripLookup(ns, k);
  }

  /** The text fields of two receipts agree, one by one. */
  predicate TextsAgree(p: AuthorizationPayload, q: AuthorizationPayload) {
    var vs, ws := AuthorizationFields(p), AuthorizationFields(q);
    forall i :: 0 <= i < |AUTHORIZATION_KEYS| && vs[i].Str? && ws[i].Str? ==> vs[i] == ws[i]
  }

  lemma SameTexts(p: AuthorizationPayload, q: AuthorizationPayload)
    requires Same(Strip(AuthorizationValue(p)), Strip(AuthorizationValue(q)))
    ensures TextsAgree(p, q)
  {
    var vs, ws := AuthorizationFields(p), AuthorizationFields(q);
    AuthorizationKeysDistinct();
    forall i | 0 <= i < |AUTHORIZATION_KEYS| && vs[i].Str? && ws[i].Str? ensures vs[i] == ws[i] {
      SameRecordSameField(AUTHORIZATION_KEYS, vs, ws, i);
    }
  }

  lemma DecisionTexts(a: Policies.Decision, b: Policies.Decision)
    requires DecisionText(a) == DecisionText(b)
    ensures a == b
  {
    assert |ALLOW_TEXT| == 5 && |REVIEW_TEXT| == 6 && |BLOCK_TEXT| == 5 && ALLOW_TEXT[0] != BLOCK_TEXT[0];
  }

  lemma TextsAgreeFields(p: AuthorizationPayload, q: AuthorizationPayload)
    requires TextsAgree(p, q)
    ensures p.issuer == q.issuer && p.decision == q.decision && p.issuedAt == q.issuedAt && p.expiresAt == q.expiresAt
    ensures p.covenantHash == q.covenantHash
  {
    var vs, ws := AuthorizationFields(p), AuthorizationFields(q);
    assert vs[2] == ws[2] && vs[4] == ws[4] && vs[5] == ws[5] && vs[6] == ws[6] && vs[14] == ws[14];
    DecisionTexts(p.decision, q.decision);
  }

  /** Receipts that are the same JSON agree on what recording an outcome reads. */
  lemma SameReceipt(p: AuthorizationPayload, q: AuthorizationPayload)
    requires Same(Strip(AuthorizationValue(p)), Strip(AuthorizationValue(q)))
    ensures p.issuer == q.issuer && p.decision == q.decision && p.issuedAt == q.issuedAt && p.expiresAt == q.expiresAt
    ensures p.covenantHash == q.covenantHash
  {
    SameTexts(p, q);
    TextsAgreeFields(p, q);
  }
}
