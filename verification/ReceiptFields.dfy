/**
 The receipts of a covenant's life, property by property, under the names they
 travel with.

 `CovenantRecords` builds them from lists of keys and values; here each name is
 written out and each receipt is shown whole.
 */
module ReceiptFields {
  import opened CodeUnits
  import opened Json
  import opened CanonicalPrinter
  import opened CovenantRecords
  import Policies

  lemma CovenantNames()
    ensures ID == Units("id") && DRAFT == Units("draft") && STATUS == Units("status") && VERSION == Units("version")
  {
  }

  lemma ActivationNames()
    ensures ACCEPTANCE == Units("acceptance") && ACTIVATED_AT == Units("activated_at") && COVENANT_HASH == Units("covenant_hash")
  {
  }

  lemma CovenantValues()
    ensures ACTIVE == Units("ACTIVE") && ONE == Units("1")
  {
  }

  lemma RequestNames()
    ensures ACTION == Units("action") && SIGNALS == Units("signals") && CONTEXT == Units("context")
    ensures EVIDENCE == Units("evidence") && COVENANT == Units("covenant")
  {
  }

  lemma ReceiptNames()
    ensures TYPE == Units("type") && ISSUER == Units("issuer") && ISSUED_AT == Units("issued_at")
    ensures EXPIRES_AT == Units("expires_at") && COVENANT_ID == Units("covenant_id") && DECISION == Units("decision")
  {
  }

  lemma AuthorizationHashNames()
    ensures ACTION_HASH == Units("action_hash") && SIGNALS_HASH == Units("signals_hash") && REQUEST_HASH == Units("request_hash")
    ensures EVIDENCE_HASH == Units("evidence_hash")
  {
  }

  lemma AuthorizationListNames()
    ensures REASON_CODES == Units("reason_codes") && POLICY_RULE_IDS == Units("policy_rule_ids") && RISK_SCORE == Units("risk_score")
  {
  }

  lemma OutcomeNames()
    ensures COMPLIANCE == Units("compliance") && OUTCOME_HASH == Units("outcome_hash") && VIOLATION_CODES == Units("violation_codes")
  {
  }

  lemma OutcomeReceiptNames()
    ensures AUTHORIZATION_RECEIPT_ID == Units("authorization_receipt_id") && AUTHORIZATION_TOKEN_HASH == Units("authorization_token_hash")
  {
  }

  lemma Decisions()
    ensures ALLOW_TEXT == Units("ALLOW") && REVIEW_TEXT == Units("REVIEW") && BLOCK_TEXT == Units("BLOCK")
    ensures COMPLIANT == Units("COMPLIANT") && VIOLATION == Units("VIOLATION")
  {
  }

  lemma ReceiptTypes()
    ensures ACTION_AUTHORIZATION == Units("ACTION_AUTHORIZATION") && OUTCOME_RECEIPT == Units("OUTCOME_RECEIPT")
  {
  }

  lemma AuthorizationTyp()
    ensures AUTHORIZATION_TYP == Units("VIZIER-ACTION-AUTHORIZATION+JWS")
  {
  }

  lemma OutcomeTyp()
    ensures OUTCOME_TYP == Units("VIZIER-OUTCOME-RECEIPT+JWS")
  {
  }

  lemma ForbiddenPrefix()
    ensures FORBIDDEN_OUTCOME == Units("FORBIDDEN_OUTCOME:")
  {
  }

  function DecisionName(d: Policies.Decision): Text {
    match d case ALLOW => Units("ALLOW") case REVIEW => Units("REVIEW") case BLOCK => Units("BLOCK")
  }

  /** An authorization receipt, with its keys as the lemmas above spell them. */
  lemma AuthorizationSays(p: AuthorizationPayload)
    ensures AuthorizationValue(p) == Obj(
              [ Member(ID, Str(p.id)), Member(TYPE, Str(ACTION_AUTHORIZATION)), Member(ISSUER, Str(p.issuer)), Member(VERSION, Num(ONE)),
                Member(DECISION, Str(DecisionName(p.decision))), Member(ISSUED_AT, Str(p.issuedAt)), Member(EXPIRES_AT, Str(p.expiresAt)),
                Member(RISK_SCORE, Num(p.riskScore)), Member(ACTION_HASH, Str(p.actionHash)), Member(COVENANT_ID, Str(p.covenantId)),
                Member(REASON_CODES, Texts(p.reasonCodes)), Member(SIGNALS_HASH, Str(p.signalsHash)), Member(REQUEST_HASH, Str(p.requestHash)),
                Member(EVIDENCE_HASH, Str(p.evidenceHash)), Member(COVENANT_HASH, Str(p.covenantHash)), Member(POLICY_RULE_IDS, Texts(p.ruleIds)) ])
  {
    hide Units;
    Decisions();
    AuthorizationOrder();
  }

  lemma AuthorizationOrder()
    ensures var ks := AUTHORIZATION_KEYS;
            && |ks| == 16 && ks[0] == ID && ks[1] == TYPE && ks[2] == ISSUER && ks[3] == VERSION && ks[4] == DECISION && ks[5] == ISSUED_AT
            && ks[6] == EXPIRES_AT && ks[7] == RISK_SCORE && ks[8] == ACTION_HASH && ks[9] == COVENANT_ID && ks[10] == REASON_CODES
            && ks[11] == SIGNALS_HASH && ks[12] == REQUEST_HASH && ks[13] == EVIDENCE_HASH && ks[14] == COVENANT_HASH && ks[15] == POLICY_RULE_IDS
  {
  }

  /** An outcome receipt. */
  lemma OutcomeSays(p: OutcomePayload)
    ensures OutcomeValue(p) == Obj(
              [ Member(ID, Str(p.id)), Member(TYPE, Str(OUTCOME_RECEIPT)), Member(ISSUER, Str(p.issuer)), Member(VERSION, Num(ONE)),
                Member(ISSUED_AT, Str(p.issuedAt)), Member(COMPLIANCE, Str(Units(if p.compliant then "COMPLIANT" else "VIOLATION"))),
                Member(COVENANT_ID, Str(p.covenantId)), Member(OUTCOME_HASH, Str(p.outcomeHash)), Member(COVENANT_HASH, Str(p.covenantHash)),
                Member(VIOLATION_CODES, Texts(p.violationCodes)), Member(AUTHORIZATION_RECEIPT_ID, Str(p.receiptId)),
                Member(AUTHORIZATION_TOKEN_HASH, Str(p.tokenHash)) ])
  {
    hide Units;
    Decisions();
    OutcomeOrder();
  }

  lemma OutcomeOrder()
    ensures var ks := OUTCOME_KEYS;
            && |ks| == 12 && ks[0] == ID && ks[1] == TYPE && ks[2] == ISSUER && ks[3] == VERSION && ks[4] == ISSUED_AT && ks[5] == COMPLIANCE
            && ks[6] == COVENANT_ID && ks[7] == OUTCOME_HASH && ks[8] == COVENANT_HASH && ks[9] == VIOLATION_CODES
            && ks[10] == AUTHORIZATION_RECEIPT_ID && ks[11] == AUTHORIZATION_TOKEN_HASH
  {
  }

  /** What the covenant hash covers: everything but the hash. */
  lemma CovenantSays(c: Covenant)
    ensures CovenantBody(c) == Obj(
              [ Member(ID, Str(c.id)), Member(DRAFT, c.draft), Member(STATUS, Str(ACTIVE)), Member(VERSION, Num(ONE)),
                Member(ACCEPTANCE, c.acceptance), Member(ACTIVATED_AT, Str(c.activatedAt)) ])
    ensures CovenantValue(c) == Obj(CovenantBody(c).members + [Member(COVENANT_HASH, Str(c.hash))])
  {
  }

  /** What the request hash covers. */
  lemma RequestSays(r: AuthorizationRequest)
    ensures RequestValue(r) == Obj(
              [ Member(ACTION, r.action), Member(SIGNALS, r.signals), Member(CONTEXT, r.context), Member(EVIDENCE, r.evidence),
                Member(COVENANT, CovenantValue(r.covenant)) ])
  {
  }
}
