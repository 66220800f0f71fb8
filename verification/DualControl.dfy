/** The proxy's four-eyes rule: what a sensitive tool call meets, and what stands behind one that passes. */
module DualControl {
  import opened CodeUnits
  import opened Quorum
  import opened QuorumCallers

  /** The named proposal is shown, neither spent nor expired, and for this action. */
  predicate Matches(s: Store, id: Text, hash: Text, now: Time) {
    match Get(s, id, now)
    case None => false
    case Some(p) => p.status !in {CONSUMED, EXPIRED} && now <= p.expiresAt && p.actionHash == hash
  }

  /** The proposal a refused call leaves behind: two approvals, for 900 s. */
  function NewProposal(call: ToolCall, session: Text): Entry<Proposal> {
    Entry(Proposal(session, None, call.hash, Constraints(2, None, false, None), call.now + 900_000, PENDING, []), Some(call.now + 900_000))
  }

  /**
   What one tool call meets. It goes on exactly if no other gate stops it and, when it is sensitive, the named
   proposal matches, is approved, is not locked, and both writes are acknowledged. A sensitive call without a matching
   or with an undecided or rejected proposal leaves a new one.
   */
  lemma GateExactly(s: Store, call: ToolCall, header: Option<Text>, session: Text, freshId: Text)
    ensures var (next, ok) := Gate(s, call, header, session, freshId);
            var named := header.Some? && header.value != [] && s.kv;
            var approved := named && Matches(s, header.value, call.hash, call.now) && Get(s, header.value, call.now).value.status == APPROVED;
            && (ok <==> call.clean && (call.sensitive ==>
                  approved && Live(s.locks, header.value, call.now).None? && call.putLock == Done && call.putProposal == Done))
            && (!call.clean || !call.sensitive ==> next == s)
            && (call.clean && call.sensitive && !approved ==>
                  next == if s.kv && (named ==> Matches(s, header.value, call.hash, call.now))
                          then s.(proposals := s.proposals[freshId := NewProposal(call, session)]) else s)
            && (call.clean && call.sensitive && ok ==>
                  && header.value in next.proposals
                  && next.proposals == s.proposals[header.value := next.proposals[header.value]]
                  && next.proposals[header.value].value == s.proposals[header.value].value.(status := CONSUMED))
  {
  }

  // ---- two voters -----------------------------------------------------------------

  /** The ids the proxy has given out. */
  ghost function GivenByProxy(kv: bool, actions: List<Action>): set<Text> {
    match actions
    case Nil => {}
    case Cons(a, earlier) =>
      GivenByProxy(kv, earlier) + if a.ProxyAction? && a.freshId !in Run(kv, earlier).used then {a.freshId} else {}
  }

  /** Every proposal under one of these ids asks for two approvals. */
  ghost predicate TwoNeeded(s: Store, ids: set<Text>) {
    forall id :: id in ids && id in s.proposals ==> s.proposals[id].value.constraints.minApprovals == 2
  }

  lemma {:induction false} GateAllKeepsTwo(s: Store, calls: seq<ToolCall>, header: Option<Text>, session: Text, freshId: Text, ids: set<Text>)
    requires TwoNeeded(s, ids)
    ensures TwoNeeded(GateAll(s, calls, header, session, freshId).0, ids)
    decreases |calls|
  {
    if calls != [] {
      var next := Gate(s, calls[0], header, session, freshId).0;
      assert TwoNeeded(next, ids);
      GateAllKeepsTwo(next, calls[1..], header, session, freshId, ids);
    }
  }

  lemma StepKeepsTwo(s: System, a: Action, ids: set<Text>)
    requires TwoNeeded(s.store, ids) && ids <= s.used
    ensures TwoNeeded(Step(s, a).store, ids)
  {
    if a.ProxyAction? && a.freshId !in s.used { GateAllKeepsTwo(s.store, Flatten(a.choices), a.header, a.session, a.freshId, ids); }
  }

  lemma {:induction false} RunKeepsTwo(kv: bool, actions: List<Action>)
    ensures TwoNeeded(Run(kv, actions).store, GivenByProxy(kv, actions)) && GivenByProxy(kv, actions) <= Run(kv, actions).used
  {
    if actions.Cons? {
      var s, a := Run(kv, actions.tail), actions.head;
      var ids := GivenByProxy(kv, actions.tail);
      RunKeepsTwo(kv, actions.tail);
      RunKeepsInv(kv, actions.tail);
      if a.ProxyAction? && a.freshId !in s.used {
        assert TwoNeeded(s.store, ids + {a.freshId});
        GateAllKeepsTwo(s.store, Flatten(a.choices), a.header, a.session, a.freshId, ids + {a.freshId});
      } else {
        StepKeepsTwo(s, a, ids);
      }
    }
  }

  /**
   In every run, behind a response that passes with a sensitive call, under a proposal of the proxy's, stand two
   different voters who approved that very action, neither of them the session the proposal was made for.
   */
  lemma TwoVotersBehindPass(kv: bool, actions: List<Action>, calls: seq<ToolCall>, header: Option<Text>, session: Text, freshId: Text)
    returns (a: Approval, b: Approval)
    requires GateAll(Run(kv, actions).store, calls, header, session, freshId).1 && Sensitive(calls) != []
    requires header.Some? && header.value in GivenByProxy(kv, actions)
    ensures var s := Run(kv, actions).store;
            && header.value in s.proposals
            && (var p := s.proposals[header.value].value;
                && a in p.approvals && b in p.approvals && a.approverId != b.approverId
                && a.approverId != p.proposerId && b.approverId != p.proposerId
                && a.decision == APPROVE && b.decision == APPROVE
                && a.actionHash == b.actionHash == Sensitive(calls)[0].hash)
  {
    var s, call := Run(kv, actions).store, Sensitive(calls)[0];
    PassedResponse(s, calls, header, session, freshId);
    RunKeepsInv(kv, actions);
    RunKeepsTwo(kv, actions);
    ConsumptionIsBacked(s, header.value, call.hash, call.now);
    var p := Get(s, header.value, call.now).value;
    assert p.approvals == s.proposals[header.value].value.approvals && p.constraints == s.proposals[header.value].value.constraints;
    AllAreApprovals(p.approvals);
    a, b := p.approvals[0], p.approvals[1];
  }

  lemma {:induction false} AllAreApprovals(approvals: seq<Approval>)
    requires CountApprove(approvals) == |approvals|
    ensures forall a :: a in approvals ==> a.decision == APPROVE
  {
    if approvals != [] {
      CountAtMost(approvals[1..]);
      AllAreApprovals(approvals[1..]);
      assert approvals == [approvals[0]] + approvals[1..];
    }
  }

  lemma {:induction false} CountAtMost(approvals: seq<Approval>)
    ensures CountApprove(approvals) <= |approvals|
  {
    if approvals != [] { CountAtMost(approvals[1..]); }
  }

  // ---- and two voters are enough ---------------------------------------------------

  /** An approval of the call by this voter. */
  function Yes(voter: Text, call: ToolCall): Approval {
    Approval(voter, None, call.hash, call.now, APPROVE)
  }

  /** The proposal a call leaves, with these votes, as it is stored at `at`. */
  function Voted(call: ToolCall, session: Text, votes: seq<Approval>, status: Status, at: Time): Entry<Proposal> {
    var p := NewProposal(call, session).value;
    Entry(p.(approvals := votes, status := status), Some(at + Max((p.expiresAt - at) / 1000, 60) * 1000))
  }

  lemma FirstVote(s: Store, call: ToolCall, session: Text, id: Text, a: Text, t: Time)
    requires s.kv && id in s.proposals && s.proposals[id] == NewProposal(call, session) && a != session
    requires call.now <= t < call.now + 900_000
    ensures var once := Record(s, id, Yes(a, call), t, t);
            once.1.Some? && once.0 == s.(proposals := s.proposals[id := Voted(call, session, [Yes(a, call)], PENDING, t)])
  {
    assert WithoutVoter([], a) == [] && [] + [Yes(a, call)] == [Yes(a, call)];
    assert CountApprove([Yes(a, call)]) == 1;
  }

  lemma SecondVote(s: Store, call: ToolCall, session: Text, id: Text, a: Text, b: Text, t: Time, u: Time)
    requires s.kv && id in s.proposals && s.proposals[id] == Voted(call, session, [Yes(a, call)], PENDING, t) && a != b && b != session
    requires call.now <= t <= u <= call.now + 899_000
    ensures var twice := Record(s, id, Yes(b, call), u, u);
            twice.1.Some? && twice.0 == s.(proposals := s.proposals[id := Voted(call, session, [Yes(a, call), Yes(b, call)], APPROVED, u)])
  {
    assert WithoutVoter([Yes(a, call)], b) == [Yes(a, call)];
    var votes := [Yes(a, call)] + [Yes(b, call)];
    assert votes == [Yes(a, call), Yes(b, call)];
    assert votes[1..] == [Yes(b, call)] && CountApprove([Yes(b, call)]) == 1 && CountApprove(votes) == 2;
  }

  /**
   A refused call, repeated with the proposal it left: with one approval by another it is refused still, with two
   by different others it passes, once. Each vote cuts the stored lifetime to whole seconds, so the last of the 900 s
   may be lost.
   */
  lemma TwoApprovalsPass(s: Store, call: ToolCall, session: Text, id: Text, a: Text, b: Text, t: Time, u: Time, retry: ToolCall, otherId: Text)
    requires s.kv && Live(s.locks, id, retry.now).None?
    requires call.clean && call.sensitive && retry.clean && retry.sensitive && retry.hash == call.hash
    requires retry.putLock == Done && retry.putProposal == Done
    requires a != b && a != session && b != session && otherId != id
    requires call.now <= t <= u <= retry.now <= call.now + 899_000
    ensures var refused := Gate(s, call, None, session, id);
            var once := Record(refused.0, id, Yes(a, call), t, t);
            var twice := Record(once.0, id, Yes(b, call), u, u);
            var passed := Gate(twice.0, retry, Some(id), session, otherId);
            && !refused.1 && once.1.Some? && twice.1.Some?
            && !Gate(once.0, retry, Some(id), session, otherId).1
            && (id != [] ==> passed.1 && !Gate(passed.0, retry, Some(id), session, otherId).1)
  {
    hide Record, Gate, Consume;
    GateExactly(s, call, None, session, id);
    var refused := Gate(s, call, None, session, id).0;
    FirstVote(refused, call, session, id, a, t);
    var once := Record(refused, id, Yes(a, call), t, t).0;
    SecondVote(once, call, session, id, a, b, t, u);
    var twice := Record(once, id, Yes(b, call), u, u).0;
    GateExactly(once, retry, Some(id), session, otherId);
    GateExactly(twice, retry, Some(id), session, otherId);
    GateExactly(Gate(twice, retry, Some(id), session, otherId).0, retry, Some(id), session, otherId);
  }
}

