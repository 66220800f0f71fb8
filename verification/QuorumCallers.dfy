/** The two callers that spend proposals: the verification endpoint, after ALLOW, and the chat proxy, tool call by tool call. */
module QuorumCallers {
  import opened CodeUnits
  import opened Quorum

  // ---- POST /v1/verify ---------------------------------------------------------

  datatype VerifyRequest = VerifyRequest(
    constraints: Option<Constraints>, proposalId: Option<Text>, approvals: seq<Approval>,
    agent: Agent, hash: Text, otherPoliciesPass: bool, now: Time, putLock: Io, putProposal: Io)

  function SourceOf(r: VerifyRequest): Source {
    if Truthy(r.proposalId) then FromProposal(r.proposalId.value) else Inline(r.approvals)
  }

  /** evaluateQuorum's verdict, as its contract states it. */
  ghost predicate QuorumHolds(s: Store, c: Constraints, source: Source, agent: Agent, hash: Text, now: Time) {
    && (source.FromProposal? ==> ProposalUsable(s, source.id, hash, now))
    && Clean(ApprovalsFor(s, source, now), c, agent, hash, now)
    && |Approvers(ApprovalsFor(s, source, now), c, agent, now)| >= c.minApprovals
  }

  ghost predicate Allows(s: Store, r: VerifyRequest) {
    r.otherPoliciesPass && (r.constraints.Some? ==> QuorumHolds(s, r.constraints.value, SourceOf(r), r.agent, r.hash, r.now))
  }

  /** The response is ALLOW, carries a quorum constraint and names a proposal. */
  predicate Spends(r: VerifyRequest) {
    r.constraints.Some? && Truthy(r.proposalId)
  }

  /** handleVerify from the decision on: the store, and whether the answer is ALLOW. */
  ghost function Verify(s: Store, r: VerifyRequest): (Store, bool) {
    if !Allows(s, r) then (s, false)
    else if Spends(r) then Consume(s, r.proposalId.value, Some(r.hash), r.now, r.putLock, r.putProposal)
    else (s, true)
  }

  /** The endpoint's code. */
  method HandleVerify(store: ProposalStore, r: VerifyRequest) returns (allowed: bool)
    modifies store
    ensures (store.Contents(), allowed) == Verify(old(store.Contents()), r)
  {
    var quorum := EvaluateQuorum(Store(store.kv, store.proposals, store.locks), r.constraints, SourceOf(r), r.agent, r.hash, r.now);
    if !r.otherPoliciesPass || (r.constraints.Some? && !quorum.Satisfied?) { return false; }
    allowed := true;
    if r.constraints.Some? && Truthy(r.proposalId) {
      allowed := store.ConsumeProposal(r.proposalId.value, Some(r.hash), r.now, r.putLock, r.putProposal);
    }
  }

  // ---- the proxy ------------------------------------------------------------------

  /** A tool call: whether it gets past the other gates, whether it is sensitive, its action hash, when it is looked at. */
  datatype ToolCall = ToolCall(clean: bool, sensitive: bool, hash: Text, now: Time, putLock: Io, putProposal: Io)

  const DUAL_CONTROL := Constraints(2, None, false, None)

  /** A proposal is created for a refused sensitive call, when there is a namespace to keep it in. */
  function Propose(s: Store, call: ToolCall, session: Text, freshId: Text): Store {
    if s.kv then Create(s, freshId, session, None, call.hash, DUAL_CONTROL, 900, call.now) else s
  }

  /** The gate on one tool call: the store, and whether the loop goes on. */
  function Gate(s: Store, call: ToolCall, header: Option<Text>, session: Text, freshId: Text): (Store, bool) {
    if !call.clean then (s, false)
    else if !call.sensitive then (s, true)
    else if Truthy(header) && s.kv then
      match Get(s, header.value, call.now)
      case None => (s, false)
      case Some(p) =>
        if p.status == CONSUMED || p.status == EXPIRED || p.expiresAt < call.now || p.actionHash != call.hash then (s, false)
        else if p.status == APPROVED then Consume(s, header.value, Some(call.hash), call.now, call.putLock, call.putProposal)
        else (Propose(s, call, session, freshId), false)
    else (Propose(s, call, session, freshId), false)
  }

  /** All the tool calls of a response; false as soon as one is refused. */
  function GateAll(s: Store, calls: seq<ToolCall>, header: Option<Text>, session: Text, freshId: Text): (Store, bool)
    decreases |calls|
  {
    if calls == [] then (s, true)
    else
      var (next, ok) := Gate(s, calls[0], header, session, freshId);
      if ok then GateAll(next, calls[1..], header, session, freshId) else (next, false)
  }

  function Flatten(choices: seq<seq<ToolCall>>): seq<ToolCall> {
    if choices == [] then [] else choices[0] + Flatten(choices[1..])
  }

  lemma {:induction false} GateAllAppend(s: Store, a: seq<ToolCall>, b: seq<ToolCall>, header: Option<Text>, session: Text, freshId: Text)
    ensures GateAll(s, a + b, header, session, freshId) ==
            var (next, ok) := GateAll(s, a, header, session, freshId);
            if ok then GateAll(next, b, header, session, freshId) else (next, false)
    decreases |a|
  {
    if a == [] {
      assert a + b == b;
    } else {
      assert (a + b)[0] == a[0] && (a + b)[1..] == a[1..] + b;
      GateAllAppend(Gate(s, a[0], header, session, freshId).0, a[1..], b, header, session, freshId);
    }
  }

  method GateCall(store: ProposalStore, call: ToolCall, header: Option<Text>, session: Text, freshId: Text) returns (goOn: bool)
    modifies store
    ensures (store.Contents(), goOn) == Gate(old(store.Contents()), call, header, session, freshId)
  {
    if !call.clean { return false; }
    if !call.sensitive { return true; }
    var quorumApproved := false;
    if Truthy(header) && store.kv {
      var prop := Get(Store(store.kv, store.proposals, store.locks), header.value, call.now);
      if prop.None? || prop.value.status == CONSUMED { return false; }
      if prop.value.status == EXPIRED || prop.value.expiresAt < call.now || prop.value.actionHash != call.hash { return false; }
      if prop.value.status == APPROVED {
        quorumApproved := store.ConsumeProposal(header.value, Some(call.hash), call.now, call.putLock, call.putProposal);
        if !quorumApproved { return false; }
      }
    }
    if !quorumApproved && store.kv {
      store.CreateProposal(freshId, session, None, call.hash, DUAL_CONTROL, 900, call.now);
    }
    goOn := quorumApproved;
  }

  /** The nested loops of handleChatCompletions over choices and their tool calls. */
  method GateResponse(store: ProposalStore, choices: seq<seq<ToolCall>>, header: Option<Text>, session: Text, freshId: Text) returns (passed: bool)
    modifies store
    ensures (store.Contents(), passed) == GateAll(old(store.Contents()), Flatten(choices), header, session, freshId)
  {
    ghost var start := store.Contents();
    ghost var whole := GateAll(start, Flatten(choices), header, session, freshId);
    for c := 0 to |choices|
      invariant GateAll(store.Contents(), Flatten(choices[c..]), header, session, freshId) == whole
    {
      var calls := choices[c];
      assert choices[c..][0] == calls && choices[c..][1..] == choices[c + 1..];
      GateAllAppend(store.Contents(), calls, Flatten(choices[c + 1..]), header, session, freshId);
      ghost var entry := store.Contents();
      for t := 0 to |calls|
        invariant GateAll(store.Contents(), calls[t..], header, session, freshId) == GateAll(entry, calls, header, session, freshId)
      {
        assert calls[t..][0] == calls[t] && calls[t..][1..] == calls[t + 1..];
        var goOn := GateCall(store, calls[t], header, session, freshId);
        if !goOn { return false; }
      }
    }
    passed := true;
  }

  // ---- what a pass costs ------------------------------------------------------------

  function Sensitive(calls: seq<ToolCall>): seq<ToolCall> {
    if calls == [] then []
    else if calls[0].sensitive then [calls[0]] + Sensitive(calls[1..])
    else Sensitive(calls[1..])
  }

  /** The proposal is gone or spent, whatever the time. */
  predicate Spent(s: Store, id: Text) {
    id in s.proposals ==> s.proposals[id].value.status == CONSUMED
  }

  lemma ConsumeSpends(s: Store, id: Text, expected: Option<Text>, now: Time, putLock: Io, putProposal: Io)
    requires Consume(s, id, expected, now, putLock, putProposal).1
    ensures Spent(Consume(s, id, expected, now, putLock, putProposal).0, id)
    ensures Consumable(s, id, expected, now) && !Spent(s, id)
  {
  }

  lemma {:induction false} SpentPassesNothingSensitive(s: Store, calls: seq<ToolCall>, header: Option<Text>, session: Text, freshId: Text)
    requires Truthy(header) && Spent(s, header.value) && GateAll(s, calls, header, session, freshId).1
    ensures Sensitive(calls) == [] && GateAll(s, calls, header, session, freshId).0 == s
  {
    if calls != [] { SpentPassesNothingSensitive(s, calls[1..], header, session, freshId); }
  }

  /**
   A response that passes contains at most one sensitive tool call; if it contains
   one, the proposal named in the header was approved for exactly that action, could
   still be consumed, and is spent afterwards; if none, the store is untouched.
   */
  lemma {:induction false} PassedResponse(s: Store, calls: seq<ToolCall>, header: Option<Text>, session: Text, freshId: Text)
    requires GateAll(s, calls, header, session, freshId).1
    ensures |Sensitive(calls)| <= 1
    ensures Sensitive(calls) == [] ==> GateAll(s, calls, header, session, freshId).0 == s
    ensures Sensitive(calls) != [] ==>
              var call := Sensitive(calls)[0];
              && Truthy(header) && Consumable(s, header.value, Some(call.hash), call.now) && !Spent(s, header.value)
              && (GateAll(s, calls, header, session, freshId).0, true) ==
                   Consume(s, header.value, Some(call.hash), call.now, call.putLock, call.putProposal)
  {
    if calls != [] {
      var call := calls[0];
      var next := Gate(s, call, header, session, freshId).0;
      if call.sensitive {
        ConsumeSpends(s, header.value, Some(call.hash), call.now, call.putLock, call.putProposal);
        SpentPassesNothingSensitive(next, calls[1..], header, session, freshId);
      } else {
        PassedResponse(s, calls[1..], header, session, freshId);
      }
    }
  }

  /** An approval behind every consumption: enough distinct voters, none the proposer, all for this very action. */
  lemma ConsumptionIsBacked(s: Store, id: Text, hash: Text, now: Time)
    requires StoreOk(s) && Consumable(s, id, Some(hash), now)
    ensures var p := Get(s, id, now).value;
            && p.actionHash == hash && CountApprove(p.approvals) == |p.approvals| >= p.constraints.minApprovals
            && DistinctVoters(p.approvals)
            && forall i :: 0 <= i < |p.approvals| ==> p.approvals[i].approverId != p.proposerId && p.approvals[i].actionHash == hash
  {
    var p := Get(s, id, now).value;
    assert ProposalOk(s.proposals[id].value);
    assert forall i :: 0 <= i < |p.approvals| ==> VoteOk(p, p.approvals[i]);
    AllApprove(p.approvals);
  }

  lemma {:induction false} AllApprove(approvals: seq<Approval>)
    requires !HasReject(approvals)
    ensures CountApprove(approvals) == |approvals|
  {
    if approvals != [] {
      assert forall i :: 0 <= i < |approvals[1..]| ==> approvals[1..][i] == approvals[i + 1];
      assert approvals[0].decision != REJECT;
      AllApprove(approvals[1..]);
    }
  }

  // ---- whole runs ---------------------------------------------------------------------

  datatype Action =
    | ProposeAction(id: Text, proposerId: Text, proposerOwner: Option<Text>, hash: Text, constraints: Constraints, ttlSeconds: nat, now: Time)
    | VoteAction(id: Text, approval: Approval, now: Time, systemNow: Time)
    | SpendAction(id: Text, expected: Option<Text>, now: Time, putLock: Io, putProposal: Io)
    | VerifyAction(request: VerifyRequest)
    | ProxyAction(choices: seq<seq<ToolCall>>, header: Option<Text>, session: Text, freshId: Text)

  /** The store, every proposal id ever given out, and the ids spent by a successful response (newest first). */
  datatype System = System(store: Store, used: set<Text>, successes: List<Text>)

  /** One request, start to finish; an id that was given out before is never given out again. */
  ghost function Step(s: System, a: Action): System {
    match a
    case ProposeAction(id, proposer, owner, hash, c, ttl, now) =>
      if id in s.used then s
      else System(Create(s.store, id, proposer, owner, hash, c, ttl, now), s.used + {id}, s.successes)
    case VoteAction(id, approval, now, systemNow) => s.(store := Record(s.store, id, approval, now, systemNow).0)
    case SpendAction(id, expected, now, l, p) =>
      var (store, ok) := Consume(s.store, id, expected, now, l, p);
      s.(store := store, successes := if ok then Cons(id, s.successes) else s.successes)
    case VerifyAction(r) =>
      var (store, ok) := Verify(s.store, r);
      s.(store := store, successes := if ok && Spends(r) then Cons(r.proposalId.value, s.successes) else s.successes)
    case ProxyAction(choices, header, session, freshId) =>
      if freshId in s.used then s
      else
        var (store, ok) := GateAll(s.store, Flatten(choices), header, session, freshId);
        System(store, s.used + {freshId},
               if ok && Sensitive(Flatten(choices)) != [] then Cons(if header.Some? then header.value else [], s.successes) else s.successes)
  }

  ghost function Run(kv: bool, actions: List<Action>): System {
    match actions
    case Nil => System(Store(kv, map[], map[]), {}, Nil)
    case Cons(a, earlier) => Step(Run(kv, earlier), a)
  }

  function CountId(ids: List<Text>, id: Text): nat {
    match ids
    case Nil => 0
    case Cons(x, rest) => CountId(rest, id) + if x == id then 1 else 0
  }

  /** Spent once means spent for good. */
  ghost predicate Inv(s: System) {
    && StoreOk(s.store)
    && (forall id :: id in s.store.proposals ==> id in s.used)
    && (forall id :: CountId(s.successes, id) <= 1)
    && (forall id :: CountId(s.successes, id) == 1 ==> id in s.used && Spent(s.store, id))
  }

  lemma SpendKeepsInv(s: System, id: Text, expected: Option<Text>, now: Time, l: Io, p: Io)
    requires Inv(s)
    ensures Inv(Step(s, SpendAction(id, expected, now, l, p)))
  {
    var (store, ok) := Consume(s.store, id, expected, now, l, p);
    ConsumeKeepsStore(s.store, id, expected, now, l, p);
    if ok { ConsumeSpends(s.store, id, expected, now, l, p); }
    forall x | CountId(s.successes, x) == 1 ensures x in s.used && Spent(store, x) {
      ConsumeKeepsSpent(s.store, id, expected, now, l, p, x);
    }
  }

  lemma ConsumeKeepsSpent(s: Store, id: Text, expected: Option<Text>, now: Time, l: Io, p: Io, x: Text)
    requires Spent(s, x)
    ensures Spent(Consume(s, id, expected, now, l, p).0, x)
    ensures forall y :: y in Consume(s, id, expected, now, l, p).0.proposals ==> y in s.proposals
  {
  }

  lemma VoteKeepsInv(s: System, id: Text, a: Approval, now: Time, systemNow: Time)
    requires Inv(s)
    ensures Inv(Step(s, VoteAction(id, a, now, systemNow)))
  {
    RecordKeepsStore(s.store, id, a, now, systemNow);
  }

  /** A proxy request changes the store by at most one consumption or one new proposal. */
  lemma {:induction false} GateAllKeeps(s: Store, calls: seq<ToolCall>, header: Option<Text>, session: Text, freshId: Text)
    requires StoreOk(s)
    ensures var (next, ok) := GateAll(s, calls, header, session, freshId);
            && StoreOk(next)
            && (forall id :: id in next.proposals ==> id in s.proposals || id == freshId)
            && (forall id :: id != freshId && Spent(s, id) ==> Spent(next, id))
    decreases |calls|
  {
    if calls != [] {
      GateKeeps(s, calls[0], header, session, freshId);
      GateAllKeeps(Gate(s, calls[0], header, session, freshId).0, calls[1..], header, session, freshId);
    }
  }

  lemma GateKeeps(s: Store, call: ToolCall, header: Option<Text>, session: Text, freshId: Text)
    requires StoreOk(s)
    ensures var (next, ok) := Gate(s, call, header, session, freshId);
            && StoreOk(next)
            && (forall id :: id in next.proposals ==> id in s.proposals || id == freshId)
            && (forall id :: id != freshId && Spent(s, id) ==> Spent(next, id))
  {
    if Truthy(header) { ConsumeKeepsStore(s, header.value, Some(call.hash), call.now, call.putLock, call.putProposal); }
    CreateKeepsStore(s, freshId, session, None, call.hash, DUAL_CONTROL, 900, call.now);
  }

  lemma ProxyKeepsInv(s: System, choices: seq<seq<ToolCall>>, header: Option<Text>, session: Text, freshId: Text)
    requires Inv(s) && freshId !in s.used
    ensures Inv(Step(s, ProxyAction(choices, header, session, freshId)))
  {
    var calls := Flatten(choices);
    GateAllKeeps(s.store, calls, header, session, freshId);
    if GateAll(s.store, calls, header, session, freshId).1 {
      PassedResponse(s.store, calls, header, session, freshId);
      if Sensitive(calls) != [] {
        var call := Sensitive(calls)[0];
        ConsumeSpends(s.store, header.value, Some(call.hash), call.now, call.putLock, call.putProposal);
      }
    }
  }

  lemma StepKeepsInv(s: System, a: Action)
    requires Inv(s)
    ensures Inv(Step(s, a))
  {
    match a
    case ProposeAction(id, proposer, owner, hash, c, ttl, now) =>
      if id !in s.used { CreateKeepsStore(s.store, id, proposer, owner, hash, c, ttl, now); }
    case VoteAction(id, approval, now, systemNow) => VoteKeepsInv(s, id, approval, now, systemNow);
    case SpendAction(id, expected, now, l, p) => SpendKeepsInv(s, id, expected, now, l, p);
    case VerifyAction(r) =>
      if Allows(s.store, r) && Spends(r) {
        SpendKeepsInv(s, r.proposalId.value, Some(r.hash), r.now, r.putLock, r.putProposal);
      }
    case ProxyAction(choices, header, session, freshId) =>
      if freshId !in s.used { ProxyKeepsInv(s, choices, header, session, freshId); }
  }

  lemma {:induction false} RunKeepsInv(kv: bool, actions: List<Action>)
    ensures Inv(Run(kv, actions))
  {
    if actions.Cons? {
      RunKeepsInv(kv, actions.tail);
      StepKeepsInv(Run(kv, actions.tail), actions.head);
    }
  }

  /** Every proposal a run ever stores is well-voted. */
  lemma StoredProposalsOk(kv: bool, actions: List<Action>, id: Text)
    requires id in Run(kv, actions).store.proposals
    ensures ProposalOk(Run(kv, actions).store.proposals[id].value)
  {
    RunKeepsInv(kv, actions);
  }

  /** Over any sequence of requests, with expiry and failed writes, a proposal backs at most one success. */
  lemma AtMostOneSuccess(kv: bool, actions: List<Action>, id: Text)
    ensures CountId(Run(kv, actions).successes, id) <= 1
  {
    RunKeepsInv(kv, actions);
  }
}
