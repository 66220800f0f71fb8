/** The policy rules of a verification request and the decision they add up to. */
module Policies {
  import opened CodeUnits

  datatype Verdict = PASS | REVIEW | FAIL

  datatype Decision = ALLOW | REVIEW | BLOCK

  /** The rules by name; custom policies and requirements carry their own identifiers. */
  datatype Rule =
    | AuthorityTrusted | PrincipalVerified | ActionAllowed | AmountWithinLimit | TargetAllowed | SensitiveAllowed
    | ReversibilityNotRequired | ReversibilityProvided | GrantRequired | GrantVerified | CircuitBreaker
    | Sanctions | Sanctions50Rule | Dlp | Quorum
    | CovenantIntegrity | CovenantStatus | CovenantTime | CovenantAction
    | EvidenceCurrent(requirement: Option<Text>) | InvalidationClear(invalidation: Option<Text>) | Custom(id: Text)

  datatype Reason =
    | AUTHORITY_SOURCE_UNTRUSTED | PRINCIPAL_UNVERIFIED | ACTION_NOT_DELEGATED | AMOUNT_UNVERIFIED | CURRENCY_UNVERIFIED
    | AUTHORITY_LIMIT_EXCEEDED | TARGET_BLOCKED | TARGET_NOT_ALLOWED | SENSITIVE_ACTION_REVIEW | IRREVERSIBLE_ACTION_REVIEW
    | GRANT_POLICY_MISCONFIGURED | GRANT_REQUIRED
    | COVENANT_INTEGRITY_INVALID | COVENANT_EXPIRED | ACTION_COVENANT_MISMATCH | EVIDENCE_MISSING | EVIDENCE_TYPE_MISMATCH
    | EVIDENCE_FROM_FUTURE | EVIDENCE_STALE | COVENANT_INVALIDATED | Reported(code: Text)

  datatype PolicyResult = PolicyResult(rule: Rule, verdict: Verdict, reason: Option<Reason>)

  /** `amount` is Some for a finite number, `currency` for a string. */
  datatype ActionView = ActionView(kind: Text, target: Text, amount: Option<real>, currency: Option<Text>, reversible: bool)

  datatype Authority = Authority(
    allowedActions: seq<Text>, maxAmount: Option<real>, currency: Option<Text>, allowedTargets: Option<seq<Text>>,
    blockedTargets: Option<seq<Text>>, allowedSensitive: Option<seq<Text>>, reviewIrreversible: bool)

  datatype Request = Request(hasPrincipal: bool, action: ActionView, authority: Authority)

  datatype GrantMode = OPTIONAL | REQUIRED | INVALID

  /** The outcome of a check made before the policies: whether it went well, and its reason code otherwise. */
  datatype Check = Check(ok: bool, code: Text)

  /** A screening fails when it is not clean and has something to show for it. */
  datatype Screening = Screening(clean: bool, found: bool, rule: Rule, code: Text)

  datatype QuorumCheck = QuorumCheck(required: bool, satisfied: bool, code: Text)

  datatype Options = Options(
    sensitiveActions: seq<Text>, trustedAuthority: bool, grantMode: GrantMode, grant: Option<Check>, breaker: Option<Check>,
    sanctions: Option<Screening>, dlp: Option<Screening>, quorum: Option<QuorumCheck>, custom: seq<Request -> seq<PolicyResult>>)

  // ---- decisions ----------------------------------------------------------------------

  function AggregateDecision(rs: seq<PolicyResult>): Decision {
    if exists i :: 0 <= i < |rs| && rs[i].verdict == FAIL then BLOCK
    else if exists i :: 0 <= i < |rs| && rs[i].verdict == Verdict.REVIEW then Decision.REVIEW
    else ALLOW
  }

  function Worst(a: Decision, b: Decision): Decision {
    if a == BLOCK || b == BLOCK then BLOCK
    else if a == Decision.REVIEW || b == Decision.REVIEW then Decision.REVIEW
    else ALLOW
  }

  /** More results decide as the worst of both: a rule can only tighten, wherever it stands. */
  lemma DecisionOfBoth(a: seq<PolicyResult>, b: seq<PolicyResult>)
    ensures AggregateDecision(a + b) == Worst(AggregateDecision(a), AggregateDecision(b))
  {
    forall i | 0 <= i < |a| ensures (a + b)[i] == a[i] {}
    forall i | 0 <= i < |b| ensures (a + b)[|a| + i] == b[i] {}
  }

  lemma DecisionOfOne(r: PolicyResult)
    ensures AggregateDecision([r]) ==
            match r.verdict case PASS => ALLOW case REVIEW => Decision.REVIEW case FAIL => BLOCK
  {
    assert [r][0] == r;
  }

  // ---- the rules ------------------------------------------------------------------------

  function Passed(rule: Rule): PolicyResult { PolicyResult(rule, PASS, None) }

  function Held(rule: Rule, reason: Reason): PolicyResult { PolicyResult(rule, Verdict.REVIEW, Some(reason)) }

  function Failed(rule: Rule, reason: Reason): PolicyResult { PolicyResult(rule, FAIL, Some(reason)) }

  function EvaluateAuthorityProvenance(trusted: bool): PolicyResult {
    if trusted then Passed(AuthorityTrusted) else Held(AuthorityTrusted, AUTHORITY_SOURCE_UNTRUSTED)
  }

  function EvaluatePrincipal(q: Request, grant: Option<Check>, trusted: bool): PolicyResult {
    if !q.hasPrincipal then Held(PrincipalVerified, PRINCIPAL_UNVERIFIED)
    else if grant.Some? && grant.value.ok then Passed(PrincipalVerified)
    else if trusted then Passed(PrincipalVerified)
    else Held(PrincipalVerified, PRINCIPAL_UNVERIFIED)
  }

  function EvaluateDelegatedAction(q: Request): PolicyResult {
    if q.action.kind in q.authority.allowedActions then Passed(ActionAllowed)
    else Failed(ActionAllowed, ACTION_NOT_DELEGATED)
  }

  function EvaluateAmount(q: Request): PolicyResult {
    if q.authority.maxAmount.None? then Passed(AmountWithinLimit)
    else if q.action.amount.None? || q.action.amount.value < 0.0 then Held(AmountWithinLimit, AMOUNT_UNVERIFIED)
    else if q.authority.currency.Some? && q.action.currency != q.authority.currency then
      Held(AmountWithinLimit, CURRENCY_UNVERIFIED)
    else if q.action.amount.value <= q.authority.maxAmount.value then Passed(AmountWithinLimit)
    else Failed(AmountWithinLimit, AUTHORITY_LIMIT_EXCEEDED)
  }

  function EvaluateTarget(q: Request): PolicyResult {
    if q.authority.blockedTargets.Some? && q.action.target in q.authority.blockedTargets.value then
      Failed(TargetAllowed, TARGET_BLOCKED)
    else if q.authority.allowedTargets.Some? && q.action.target !in q.authority.allowedTargets.value then
      Failed(TargetAllowed, TARGET_NOT_ALLOWED)
    else Passed(TargetAllowed)
  }

  function EvaluateSensitiveAction(q: Request, sensitive: seq<Text>): PolicyResult {
    if q.action.kind !in sensitive then Passed(SensitiveAllowed)
    else if q.authority.allowedSensitive.Some? && q.action.kind in q.authority.allowedSensitive.value then
      Passed(SensitiveAllowed)
    else Held(SensitiveAllowed, SENSITIVE_ACTION_REVIEW)
  }

  function EvaluateReversibility(q: Request): PolicyResult {
    if !q.authority.reviewIrreversible then Passed(ReversibilityNotRequired)
    else if q.action.reversible then Passed(ReversibilityProvided)
    else Held(ReversibilityProvided, IRREVERSIBLE_ACTION_REVIEW)
  }

  function GrantRequirement(mode: GrantMode, grant: Option<Check>): seq<PolicyResult> {
    match mode
    case OPTIONAL => []
    case INVALID => [Failed(GrantRequired, GRANT_POLICY_MISCONFIGURED)]
    case REQUIRED =>
      if grant.Some? && grant.value.ok then [Passed(GrantRequired)]
      else [Failed(GrantRequired, GRANT_REQUIRED)]
  }

  function CheckResult(rule: Rule, check: Option<Check>): seq<PolicyResult> {
    if check.None? then [] else if check.value.ok then [Passed(rule)] else [Failed(rule, Reported(check.value.code))]
  }

  function ScreeningResult(rule: Rule, s: Option<Screening>): seq<PolicyResult> {
    if s.None? then []
    else if !s.value.clean && s.value.found then [Failed(s.value.rule, Reported(s.value.code))]
    else [Passed(rule)]
  }

  function QuorumResult(c: Option<QuorumCheck>): seq<PolicyResult> {
    if c.None? || !c.value.required then []
    else if c.value.satisfied then [Passed(Quorum)]
    else [Failed(Quorum, Reported(c.value.code))]
  }

  function CustomResults(q: Request, custom: seq<Request -> seq<PolicyResult>>): seq<PolicyResult> {
    if custom == [] then [] else custom[0](q) + CustomResults(q, custom[1..])
  }

  function BaseResults(q: Request, o: Options): seq<PolicyResult> {
    [EvaluateAuthorityProvenance(o.trustedAuthority), EvaluatePrincipal(q, o.grant, o.trustedAuthority), EvaluateDelegatedAction(q),
     EvaluateAmount(q), EvaluateTarget(q), EvaluateSensitiveAction(q, o.sensitiveActions), EvaluateReversibility(q)]
  }

  function PolicyResults(q: Request, o: Options): seq<PolicyResult> {
    BaseResults(q, o) + GrantRequirement(o.grantMode, o.grant) + CheckResult(GrantVerified, o.grant) +
    CheckResult(CircuitBreaker, o.breaker) + ScreeningResult(Sanctions, o.sanctions) +
    ScreeningResult(Dlp, o.dlp) + QuorumResult(o.quorum) + CustomResults(q, o.custom)
  }

  /** evaluatePolicies. */
  method EvaluatePolicies(q: Request, o: Options) returns (results: seq<PolicyResult>)
    ensures results == PolicyResults(q, o)
  {
    results := BaseResults(q, o);
    results := results + GrantRequirement(o.grantMode, o.grant);
    results := results + CheckResult(GrantVerified, o.grant);
    results := results + CheckResult(CircuitBreaker, o.breaker);
    results := results + ScreeningResult(Sanctions, o.sanctions);
    results := results + ScreeningResult(Dlp, o.dlp);
    results := results + QuorumResult(o.quorum);
    ghost var before := results;
    for i := 0 to |o.custom|
      invariant results + CustomResults(q, o.custom[i..]) == before + CustomResults(q, o.custom)
    {
      assert o.custom[i..][0] == o.custom[i] && o.custom[i..][1..] == o.custom[i + 1..];
      Assoc(results, o.custom[i](q), CustomResults(q, o.custom[i + 1..]));
      results := results + o.custom[i](q);
    }
    assert o.custom[|o.custom|..] == [];
    assert results + [] == results;
  }

  // ---- when everything is allowed ---------------------------------------------------------

  /** The action is one the authority delegates, of a permitted amount, to a permitted target. */
  predicate WithinAuthority(a: ActionView, authority: Authority) {
    && a.kind in authority.allowedActions
    && (authority.maxAmount.Some? ==>
          a.amount.Some? && 0.0 <= a.amount.value <= authority.maxAmount.value &&
          (authority.currency.Some? ==> a.currency == authority.currency))
    && (authority.blockedTargets.Some? ==> a.target !in authority.blockedTargets.value)
    && (authority.allowedTargets.Some? ==> a.target in authority.allowedTargets.value)
  }

  /** Nothing about the action calls for a human. */
  predicate Unattended(a: ActionView, authority: Authority, sensitive: seq<Text>) {
    && (a.kind in sensitive ==> authority.allowedSensitive.Some? && a.kind in authority.allowedSensitive.value)
    && (authority.reviewIrreversible ==> a.reversible)
  }

  predicate GrantSuffices(mode: GrantMode, grant: Option<Check>) {
    match mode
    case OPTIONAL => grant.Some? ==> grant.value.ok
    case REQUIRED => grant.Some? && grant.value.ok
    case INVALID => false
  }

  predicate Clear(s: Option<Screening>) {
    s.Some? ==> s.value.clean || !s.value.found
  }

  predicate CustomPass(q: Request, custom: seq<Request -> seq<PolicyResult>>) {
    forall i :: 0 <= i < |custom| ==> AggregateDecision(custom[i](q)) == ALLOW
  }

  lemma {:induction false} CustomAllow(q: Request, custom: seq<Request -> seq<PolicyResult>>)
    ensures AggregateDecision(CustomResults(q, custom)) == ALLOW <==> CustomPass(q, custom)
  {
    if custom != [] {
      CustomAllow(q, custom[1..]);
      DecisionOfBoth(custom[0](q), CustomResults(q, custom[1..]));
      assert custom == [custom[0]] + custom[1..];
    }
  }

  lemma AllowMeansAllPass(rs: seq<PolicyResult>)
    ensures AggregateDecision(rs) == ALLOW <==> forall i :: 0 <= i < |rs| ==> rs[i].verdict == PASS
  {
  }

  lemma RulesPass(q: Request, o: Options)
    ensures EvaluateDelegatedAction(q).verdict == EvaluateAmount(q).verdict == EvaluateTarget(q).verdict == PASS
            <==> WithinAuthority(q.action, q.authority)
    ensures EvaluateSensitiveAction(q, o.sensitiveActions).verdict == EvaluateReversibility(q).verdict == PASS
            <==> Unattended(q.action, q.authority, o.sensitiveActions)
    ensures EvaluateAuthorityProvenance(o.trustedAuthority).verdict == EvaluatePrincipal(q, o.grant, o.trustedAuthority).verdict == PASS
            <==> o.trustedAuthority && q.hasPrincipal
  {
  }

  lemma BaseAllow(q: Request, o: Options)
    ensures AggregateDecision(BaseResults(q, o)) == ALLOW <==>
            o.trustedAuthority && q.hasPrincipal && WithinAuthority(q.action, q.authority) &&
            Unattended(q.action, q.authority, o.sensitiveActions)
  {
    var rs := BaseResults(q, o);
    AllowMeansAllPass(rs);
    RulesPass(q, o);
    assert (forall i :: 0 <= i < |rs| ==> rs[i].verdict == PASS) <==>
           rs[0].verdict == PASS && rs[1].verdict == PASS && rs[2].verdict == PASS && rs[3].verdict == PASS &&
           rs[4].verdict == PASS && rs[5].verdict == PASS && rs[6].verdict == PASS;
  }

  /** The guards of a request, each holding on its own. */
  predicate Allowable(q: Request, o: Options) {
    && o.trustedAuthority && q.hasPrincipal
    && WithinAuthority(q.action, q.authority) && Unattended(q.action, q.authority, o.sensitiveActions)
    && GrantSuffices(o.grantMode, o.grant)
    && (o.breaker.Some? ==> o.breaker.value.ok)
    && Clear(o.sanctions) && Clear(o.dlp)
    && (o.quorum.Some? && o.quorum.value.required ==> o.quorum.value.satisfied)
    && CustomPass(q, o.custom)
  }

  lemma AtMostOne(rs: seq<PolicyResult>)
    requires |rs| <= 1
    ensures AggregateDecision(rs) == ALLOW <==> rs == [] || rs[0].verdict == PASS
  {
  }

  lemma GuardAllow(o: Options)
    ensures AggregateDecision(GrantRequirement(o.grantMode, o.grant)) == AggregateDecision(CheckResult(GrantVerified, o.grant)) == ALLOW
            <==> GrantSuffices(o.grantMode, o.grant)
    ensures AggregateDecision(CheckResult(CircuitBreaker, o.breaker)) == ALLOW <==> (o.breaker.Some? ==> o.breaker.value.ok)
    ensures AggregateDecision(ScreeningResult(Sanctions, o.sanctions)) == ALLOW <==> Clear(o.sanctions)
    ensures AggregateDecision(ScreeningResult(Dlp, o.dlp)) == ALLOW <==> Clear(o.dlp)
    ensures AggregateDecision(QuorumResult(o.quorum)) == ALLOW <==>
            (o.quorum.Some? && o.quorum.value.required ==> o.quorum.value.satisfied)
  {
    AtMostOne(GrantRequirement(o.grantMode, o.grant));
    AtMostOne(CheckResult(GrantVerified, o.grant));
    AtMostOne(CheckResult(CircuitBreaker, o.breaker));
    AtMostOne(ScreeningResult(Sanctions, o.sanctions));
    AtMostOne(ScreeningResult(Dlp, o.dlp));
    AtMostOne(QuorumResult(o.quorum));
  }

  /** A request is allowed exactly when every guard holds. */
  lemma AllowedExactlyWhenAllowable(q: Request, o: Options)
    ensures AggregateDecision(PolicyResults(q, o)) == ALLOW <==> Allowable(q, o)
  {
    BaseAllow(q, o);
    GuardAllow(o);
    CustomAllow(q, o.custom);
    var a := BaseResults(q, o) + GrantRequirement(o.grantMode, o.grant);
    var b := a + CheckResult(GrantVerified, o.grant);
    var c := b + CheckResult(CircuitBreaker, o.breaker);
    var d := c + ScreeningResult(Sanctions, o.sanctions);
    var e := d + ScreeningResult(Dlp, o.dlp);
    var f := e + QuorumResult(o.quorum);
    DecisionOfBoth(BaseResults(q, o), GrantRequirement(o.grantMode, o.grant));
    DecisionOfBoth(a, CheckResult(GrantVerified, o.grant));
    DecisionOfBoth(b, CheckResult(CircuitBreaker, o.breaker));
    DecisionOfBoth(c, ScreeningResult(Sanctions, o.sanctions));
    DecisionOfBoth(d, ScreeningResult(Dlp, o.dlp));
    DecisionOfBoth(e, QuorumResult(o.quorum));
    DecisionOfBoth(f, CustomResults(q, o.custom));
  }

  // ---- when a request is blocked, and why ------------------------------------------------

  /** The amount is known, in the delegated currency, and above the limit. */
  predicate OverLimit(a: ActionView, authority: Authority) {
    && authority.maxAmount.Some? && a.amount.Some? && a.amount.value >= 0.0
    && (authority.currency.Some? ==> a.currency == authority.currency)
    && a.amount.value > authority.maxAmount.value
  }

  predicate Forbidden(a: ActionView, authority: Authority) {
    || a.kind !in authority.allowedActions
    || OverLimit(a, authority)
    || (authority.blockedTargets.Some? && a.target in authority.blockedTargets.value)
    || (authority.allowedTargets.Some? && a.target !in authority.allowedTargets.value)
  }

  /** Something a human could not wave through either. */
  predicate Blocking(q: Request, o: Options) {
    || Forbidden(q.action, q.authority)
    || o.grantMode == INVALID || (o.grantMode == REQUIRED && !(o.grant.Some? && o.grant.value.ok))
    || (o.grant.Some? && !o.grant.value.ok)
    || (o.breaker.Some? && !o.breaker.value.ok)
    || (o.sanctions.Some? && !o.sanctions.value.clean && o.sanctions.value.found)
    || (o.dlp.Some? && !o.dlp.value.clean && o.dlp.value.found)
    || (o.quorum.Some? && o.quorum.value.required && !o.quorum.value.satisfied)
    || exists i :: 0 <= i < |o.custom| && AggregateDecision(o.custom[i](q)) == BLOCK
  }

  lemma {:induction false} CustomBlock(q: Request, custom: seq<Request -> seq<PolicyResult>>)
    ensures AggregateDecision(CustomResults(q, custom)) == BLOCK <==>
            exists i :: 0 <= i < |custom| && AggregateDecision(custom[i](q)) == BLOCK
  {
    if custom != [] {
      CustomBlock(q, custom[1..]);
      DecisionOfBoth(custom[0](q), CustomResults(q, custom[1..]));
      assert forall i :: 1 <= i < |custom| ==> custom[i] == custom[1..][i - 1];
      assert forall i :: 0 <= i < |custom[1..]| ==> custom[1..][i] == custom[i + 1];
    }
  }

  lemma BaseBlock(q: Request, o: Options)
    ensures AggregateDecision(BaseResults(q, o)) == BLOCK <==> Forbidden(q.action, q.authority)
  {
    var rs := BaseResults(q, o);
    assert (exists i :: 0 <= i < |rs| && rs[i].verdict == FAIL) <==>
           rs[0].verdict == FAIL || rs[1].verdict == FAIL || rs[2].verdict == FAIL || rs[3].verdict == FAIL ||
           rs[4].verdict == FAIL || rs[5].verdict == FAIL || rs[6].verdict == FAIL;
  }

  lemma OneBlock(rs: seq<PolicyResult>)
    requires |rs| <= 1
    ensures AggregateDecision(rs) == BLOCK <==> rs != [] && rs[0].verdict == FAIL
  {
  }

  lemma GuardBlock(o: Options)
    ensures AggregateDecision(GrantRequirement(o.grantMode, o.grant)) == BLOCK <==>
            o.grantMode == INVALID || (o.grantMode == REQUIRED && !(o.grant.Some? && o.grant.value.ok))
    ensures AggregateDecision(CheckResult(GrantVerified, o.grant)) == BLOCK <==> o.grant.Some? && !o.grant.value.ok
    ensures AggregateDecision(CheckResult(CircuitBreaker, o.breaker)) == BLOCK <==> o.breaker.Some? && !o.breaker.value.ok
    ensures AggregateDecision(ScreeningResult(Sanctions, o.sanctions)) == BLOCK <==>
            o.sanctions.Some? && !o.sanctions.value.clean && o.sanctions.value.found
    ensures AggregateDecision(ScreeningResult(Dlp, o.dlp)) == BLOCK <==> o.dlp.Some? && !o.dlp.value.clean && o.dlp.value.found
    ensures AggregateDecision(QuorumResult(o.quorum)) == BLOCK <==> o.quorum.Some? && o.quorum.value.required && !o.quorum.value.satisfied
  {
    OneBlock(GrantRequirement(o.grantMode, o.grant));
    OneBlock(CheckResult(GrantVerified, o.grant));
    OneBlock(CheckResult(CircuitBreaker, o.breaker));
    OneBlock(ScreeningResult(Sanctions, o.sanctions));
    OneBlock(ScreeningResult(Dlp, o.dlp));
    OneBlock(QuorumResult(o.quorum));
  }

  /** A request is blocked exactly when something about it is blocking; otherwise what is not allowed is up for review. */
  lemma BlockedExactly(q: Request, o: Options)
    ensures AggregateDecision(PolicyResults(q, o)) == BLOCK <==> Blocking(q, o)
    ensures AggregateDecision(PolicyResults(q, o)) == Decision.REVIEW <==> !Allowable(q, o) && !Blocking(q, o)
  {
    hide AggregateDecision, BaseResults, GrantRequirement, CheckResult, ScreeningResult, QuorumResult, CustomResults, Allowable, Forbidden;
    AllowedExactlyWhenAllowable(q, o);
    BaseBlock(q, o);
    CustomBlock(q, o.custom);
    GuardBlock(o);
    DecisionOfAll(q, o);
  }

  /** The decision is the worst of the parts. */
  lemma DecisionOfAll(q: Request, o: Options)
    ensures AggregateDecision(PolicyResults(q, o)) == BLOCK <==>
            || AggregateDecision(BaseResults(q, o)) == BLOCK || AggregateDecision(GrantRequirement(o.grantMode, o.grant)) == BLOCK
            || AggregateDecision(CheckResult(GrantVerified, o.grant)) == BLOCK || AggregateDecision(CheckResult(CircuitBreaker, o.breaker)) == BLOCK
            || AggregateDecision(ScreeningResult(Sanctions, o.sanctions)) == BLOCK || AggregateDecision(ScreeningResult(Dlp, o.dlp)) == BLOCK
            || AggregateDecision(QuorumResult(o.quorum)) == BLOCK || AggregateDecision(CustomResults(q, o.custom)) == BLOCK
  {
    hide AggregateDecision, BaseResults, GrantRequirement, CheckResult, ScreeningResult, QuorumResult, CustomResults;
    var a := BaseResults(q, o) + GrantRequirement(o.grantMode, o.grant);
    var b := a + CheckResult(GrantVerified, o.grant);
    var c := b + CheckResult(CircuitBreaker, o.breaker);
    var d := c + ScreeningResult(Sanctions, o.sanctions);
    var e := d + ScreeningResult(Dlp, o.dlp);
    var f := e + QuorumResult(o.quorum);
    DecisionOfBoth(BaseResults(q, o), GrantRequirement(o.grantMode, o.grant));
    DecisionOfBoth(a, CheckResult(GrantVerified, o.grant));
    DecisionOfBoth(b, CheckResult(CircuitBreaker, o.breaker));
    DecisionOfBoth(c, ScreeningResult(Sanctions, o.sanctions));
    DecisionOfBoth(d, ScreeningResult(Dlp, o.dlp));
    DecisionOfBoth(e, QuorumResult(o.quorum));
    DecisionOfBoth(f, CustomResults(q, o.custom));
  }

  predicate Reports(rs: seq<PolicyResult>, reason: Reason) {
    exists i :: 0 <= i < |rs| && rs[i].reason == Some(reason)
  }

  /** Each reason code of the fixed rules is given exactly in its own case. */
  lemma ReasonsExactly(q: Request, o: Options)
    ensures var rs, a, c := BaseResults(q, o), q.action, q.authority;
            && (Reports(rs, AUTHORITY_SOURCE_UNTRUSTED) <==> !o.trustedAuthority)
            && (Reports(rs, PRINCIPAL_UNVERIFIED) <==> !q.hasPrincipal || !(o.trustedAuthority || (o.grant.Some? && o.grant.value.ok)))
            && (Reports(rs, ACTION_NOT_DELEGATED) <==> a.kind !in c.allowedActions)
            && (Reports(rs, AMOUNT_UNVERIFIED) <==> c.maxAmount.Some? && (a.amount.None? || a.amount.value < 0.0))
            && (Reports(rs, CURRENCY_UNVERIFIED) <==>
                  c.maxAmount.Some? && a.amount.Some? && a.amount.value >= 0.0 && c.currency.Some? && a.currency != c.currency)
            && (Reports(rs, AUTHORITY_LIMIT_EXCEEDED) <==> OverLimit(a, c))
            && (Reports(rs, TARGET_BLOCKED) <==> c.blockedTargets.Some? && a.target in c.blockedTargets.value)
            && (Reports(rs, TARGET_NOT_ALLOWED) <==>
                  !(c.blockedTargets.Some? && a.target in c.blockedTargets.value) && c.allowedTargets.Some? && a.target !in c.allowedTargets.value)
            && (Reports(rs, SENSITIVE_ACTION_REVIEW) <==>
                  a.kind in o.sensitiveActions && !(c.allowedSensitive.Some? && a.kind in c.allowedSensitive.value))
            && (Reports(rs, IRREVERSIBLE_ACTION_REVIEW) <==> c.reviewIrreversible && !a.reversible)
  {
    var rs := BaseResults(q, o);
    forall reason: Reason
      ensures Reports(rs, reason) <==>
              || rs[0].reason == Some(reason) || rs[1].reason == Some(reason) || rs[2].reason == Some(reason) || rs[3].reason == Some(reason)
              || rs[4].reason == Some(reason) || rs[5].reason == Some(reason) || rs[6].reason == Some(reason)
    {
    }
  }

  /** The rules in order, and what the fixed ones are called. */
  lemma RulesInOrder(q: Request, o: Options)
    ensures var rs := BaseResults(q, o);
            && |rs| == 7 && rs[0].rule == AuthorityTrusted && rs[1].rule == PrincipalVerified && rs[2].rule == ActionAllowed
            && rs[3].rule == AmountWithinLimit && rs[4].rule == TargetAllowed && rs[5].rule == SensitiveAllowed
            && rs[6].rule == (if q.authority.reviewIrreversible then ReversibilityProvided else ReversibilityNotRequired)
            && forall i :: 0 <= i < |rs| ==> (rs[i].verdict == PASS <==> rs[i].reason == None)
  {
  }

  /** The checks made before the policies: a failed one fails the request, under its own reason. */
  lemma GuardReasons(o: Options, reason: Reason)
    ensures Reports(GrantRequirement(o.grantMode, o.grant), reason) <==>
            (o.grantMode == INVALID && reason == GRANT_POLICY_MISCONFIGURED) ||
            (o.grantMode == REQUIRED && !(o.grant.Some? && o.grant.value.ok) && reason == GRANT_REQUIRED)
    ensures Reports(CheckResult(GrantVerified, o.grant), reason) <==>
            o.grant.Some? && !o.grant.value.ok && reason == Reported(o.grant.value.code)
    ensures Reports(CheckResult(CircuitBreaker, o.breaker), reason) <==>
            o.breaker.Some? && !o.breaker.value.ok && reason == Reported(o.breaker.value.code)
    ensures Reports(ScreeningResult(Sanctions, o.sanctions), reason) <==>
            o.sanctions.Some? && !o.sanctions.value.clean && o.sanctions.value.found && reason == Reported(o.sanctions.value.code)
    ensures Reports(ScreeningResult(Dlp, o.dlp), reason) <==>
            o.dlp.Some? && !o.dlp.value.clean && o.dlp.value.found && reason == Reported(o.dlp.value.code)
    ensures Reports(QuorumResult(o.quorum), reason) <==>
            o.quorum.Some? && o.quorum.value.required && !o.quorum.value.satisfied && reason == Reported(o.quorum.value.code)
  {
    OneReason(GrantRequirement(o.grantMode, o.grant), reason);
    OneReason(CheckResult(GrantVerified, o.grant), reason);
    OneReason(CheckResult(CircuitBreaker, o.breaker), reason);
    OneReason(ScreeningResult(Sanctions, o.sanctions), reason);
    OneReason(ScreeningResult(Dlp, o.dlp), reason);
    OneReason(QuorumResult(o.quorum), reason);
  }

  lemma OneReason(rs: seq<PolicyResult>, reason: Reason)
    requires |rs| <= 1
    ensures Reports(rs, reason) <==> rs != [] && rs[0].reason == Some(reason)
  {
  }
}
