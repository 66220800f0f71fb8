/**
 Quorum proposals: creation, votes, single-use consumption, and the evaluation of
 approvals for a request.
 */
module Quorum {
  import opened CodeUnits

  /** Milliseconds. */
  type Time = int

  datatype Vote = APPROVE | REJECT

  datatype Approval = Approval(approverId: Text, approverOwner: Option<Text>, actionHash: Text, timestamp: Time, decision: Vote)

  /** min_approvals lies between 1 and 10. */
  type Minimum = n: nat | 1 <= n <= 10 witness 1

  datatype Constraints = Constraints(
    minApprovals: Minimum, allowedApprovers: Option<seq<Text>>, requireDistinctOwners: bool, maxAgeSeconds: Option<nat>)

  datatype Status = PENDING | APPROVED | REJECTED | EXPIRED | CONSUMED

  datatype Proposal = Proposal(
    proposerId: Text, proposerOwner: Option<Text>, actionHash: Text, constraints: Constraints,
    expiresAt: Time, status: Status, approvals: seq<Approval>)

  /** A stored value, readable before `until`; forever in the in-memory store. */
  datatype Entry<+T> = Entry(value: T, until: Option<Time>)

  /** `kv` tells the key/value namespace from the in-memory map; only the former has locks. */
  datatype Store = Store(kv: bool, proposals: map<Text, Entry<Proposal>>, locks: map<Text, Entry<()>>)

  function Live<T>(m: map<Text, Entry<T>>, id: Text, now: Time): Option<T> {
    if id in m && (m[id].until.None? || now < m[id].until.value) then Some(m[id].value) else None
  }

  function Max(a: int, b: int): int {
    if a > b then a else b
  }

  function Until(s: Store, now: Time, seconds: int): Option<Time> {
    if s.kv then Some(now + seconds * 1000) else None
  }

  /** getQuorumProposal: a pending proposal past its time is shown, not stored, as expired. */
  function Get(s: Store, id: Text, now: Time): Option<Proposal> {
    match Live(s.proposals, id, now)
    case None => None
    case Some(p) => Some(if p.expiresAt < now && p.status == PENDING then p.(status := EXPIRED) else p)
  }

  /** createQuorumProposal. */
  function Create(s: Store, id: Text, proposerId: Text, proposerOwner: Option<Text>, actionHash: Text, c: Constraints, ttlSeconds: nat, now: Time): Store {
    var p := Proposal(proposerId, proposerOwner, actionHash, c, now + ttlSeconds * 1000, PENDING, []);
    s.(proposals := s.proposals[id := Entry(p, Until(s, now, Max(ttlSeconds, 60)))])
  }

  function WithoutVoter(approvals: seq<Approval>, approverId: Text): seq<Approval> {
    if approvals == [] then []
    else if approvals[0].approverId == approverId then WithoutVoter(approvals[1..], approverId)
    else [approvals[0]] + WithoutVoter(approvals[1..], approverId)
  }

  function CountApprove(approvals: seq<Approval>): nat {
    if approvals == [] then 0 else (if approvals[0].decision == APPROVE then 1 else 0) + CountApprove(approvals[1..])
  }

  predicate Truthy(owner: Option<Text>) {
    owner.Some? && owner.value != []
  }

  predicate SharesOwner(a: Approval, owner: Option<Text>) {
    Truthy(owner) && Truthy(a.approverOwner) && a.approverOwner == owner
  }

  predicate AllowedBy(c: Constraints, approverId: Text) {
    c.allowedApprovers.Some? ==> approverId in c.allowedApprovers.value
  }

  /** The vote may be recorded on this proposal. */
  predicate Acceptable(p: Proposal, a: Approval, now: Time) {
    && p.expiresAt >= now
    && (p.status == PENDING || p.status == APPROVED)
    && a.approverId != p.proposerId
    && a.actionHash == p.actionHash
    && AllowedBy(p.constraints, a.approverId)
    && !(p.constraints.requireDistinctOwners && SharesOwner(a, p.proposerOwner))
  }

  function WithVote(p: Proposal, a: Approval): Proposal {
    var approvals := WithoutVoter(p.approvals, a.approverId) + [a];
    p.(approvals := approvals,
       status := if a.decision == REJECT then REJECTED
                 else if CountApprove(approvals) >= p.constraints.minApprovals then APPROVED
                 else p.status)
  }

  /** Remaining lifetime in whole seconds, at least a minute. */
  function Remaining(p: Proposal, now: Time): int {
    Max((p.expiresAt - now) / 1000, 60)
  }

  /** recordQuorumApproval; the store is unchanged and nothing returned when it throws. `systemNow` is Date.now(). */
  function Record(s: Store, id: Text, a: Approval, now: Time, systemNow: Time): (Store, Option<Proposal>) {
    match Get(s, id, systemNow)
    case None => (s, None)
    case Some(p) =>
      if !Acceptable(p, a, now) then (s, None)
      else (s.(proposals := s.proposals[id := Entry(WithVote(p, a), Until(s, now, Remaining(p, now)))]), Some(WithVote(p, a)))
  }

  /** How one storage write ends. */
  datatype Io = Done | Failed | FailedAfterWrite

  predicate Consumable(s: Store, id: Text, expected: Option<Text>, now: Time) {
    match Get(s, id, now)
    case None => false
    case Some(p) =>
      && p.status == APPROVED && (expected.Some? ==> p.actionHash == expected.value)
      && (s.kv ==> Live(s.locks, id, now).None?)
  }

  /** consumeQuorumProposal; true only when every write was acknowledged. */
  function Consume(s: Store, id: Text, expected: Option<Text>, now: Time, putLock: Io, putProposal: Io): (Store, bool) {
    if !Consumable(s, id, expected, now) then (s, false)
    else
      var p := Get(s, id, now).value;
      var until := Until(s, now, Remaining(p, now));
      var proposals := s.proposals[id := Entry(p.(status := CONSUMED), until)];
      if !s.kv then (s.(proposals := proposals), true)
      else
        (s.(locks := if putLock.Failed? then s.locks else s.locks[id := Entry((), until)],
            proposals := if putProposal.Failed? then s.proposals else proposals),
         putLock.Done? && putProposal.Done?)
  }

  // ---- what every stored proposal satisfies ------------------------------------

  predicate DistinctVoters(approvals: seq<Approval>) {
    forall i, j :: 0 <= i < j < |approvals| ==> approvals[i].approverId != approvals[j].approverId
  }

  predicate HasReject(approvals: seq<Approval>) {
    exists i :: 0 <= i < |approvals| && approvals[i].decision == REJECT
  }

  predicate VoteOk(p: Proposal, a: Approval) {
    && a.approverId != p.proposerId && a.actionHash == p.actionHash && AllowedBy(p.constraints, a.approverId)
    && !(p.constraints.requireDistinctOwners && SharesOwner(a, p.proposerOwner))
  }

  predicate ProposalOk(p: Proposal) {
    && DistinctVoters(p.approvals)
    && (forall i :: 0 <= i < |p.approvals| ==> VoteOk(p, p.approvals[i]))
    && match p.status
       case PENDING => CountApprove(p.approvals) < p.constraints.minApprovals && !HasReject(p.approvals)
       case APPROVED => CountApprove(p.approvals) >= p.constraints.minApprovals && !HasReject(p.approvals)
       case CONSUMED => CountApprove(p.approvals) >= p.constraints.minApprovals && !HasReject(p.approvals)
       case REJECTED => HasReject(p.approvals)
       case EXPIRED => false
  }

  ghost predicate StoreOk(s: Store) {
    forall id :: id in s.proposals ==> ProposalOk(s.proposals[id].value)
  }

  lemma {:induction false} WithoutVoterKeeps(approvals: seq<Approval>, id: Text)
    ensures forall a :: a in WithoutVoter(approvals, id) <==> a in approvals && a.approverId != id
  {
    if approvals != [] {
      WithoutVoterKeeps(approvals[1..], id);
      assert approvals == [approvals[0]] + approvals[1..];
    }
  }

  lemma {:induction false} WithoutVoterDistinct(approvals: seq<Approval>, id: Text)
    requires DistinctVoters(approvals)
    ensures DistinctVoters(WithoutVoter(approvals, id))
  {
    if approvals != [] {
      var rest := approvals[1..];
      assert forall i :: 0 <= i < |rest| ==> rest[i] == approvals[i + 1];
      WithoutVoterDistinct(rest, id);
      WithoutVoterKeeps(rest, id);
      var kept := WithoutVoter(rest, id);
      forall i | 0 <= i < |kept| ensures kept[i].approverId != approvals[0].approverId {
        assert kept[i] in rest;
      }
    }
  }

  /** Replacing a voter's earlier vote by a new approval never lowers the count. */
  lemma {:induction false} RevoteKeepsCount(approvals: seq<Approval>, id: Text)
    requires DistinctVoters(approvals)
    ensures CountApprove(WithoutVoter(approvals, id)) + 1 >= CountApprove(approvals)
    ensures (forall i :: 0 <= i < |approvals| ==> approvals[i].approverId != id) ==> WithoutVoter(approvals, id) == approvals
  {
    if approvals != [] {
      var rest := approvals[1..];
      assert forall i :: 0 <= i < |rest| ==> rest[i] == approvals[i + 1];
      RevoteKeepsCount(rest, id);
    }
  }

  lemma {:induction false} CountAppend(approvals: seq<Approval>, a: Approval)
    ensures CountApprove(approvals + [a]) == CountApprove(approvals) + if a.decision == APPROVE then 1 else 0
  {
    if approvals == [] {
      assert approvals + [a] == [a];
    } else {
      CountAppend(approvals[1..], a);
      assert (approvals + [a])[1..] == approvals[1..] + [a];
    }
  }

  lemma KeptVotes(p: Proposal, a: Approval, now: Time, i: nat)
    requires ProposalOk(p) && Acceptable(p, a, now) && i < |WithoutVoter(p.approvals, a.approverId)|
    ensures var v := WithoutVoter(p.approvals, a.approverId)[i];
            VoteOk(p, v) && v.approverId != a.approverId && v.decision == APPROVE
  {
    WithoutVoterKeeps(p.approvals, a.approverId);
    var v := WithoutVoter(p.approvals, a.approverId)[i];
    assert v in WithoutVoter(p.approvals, a.approverId);
    var j :| 0 <= j < |p.approvals| && p.approvals[j] == v;
  }

  lemma VoteKeepsProposal(p: Proposal, a: Approval, now: Time)
    requires ProposalOk(p) && Acceptable(p, a, now)
    ensures ProposalOk(WithVote(p, a))
    ensures p.status == APPROVED && a.decision == APPROVE ==> WithVote(p, a).status == APPROVED
  {
    var kept := WithoutVoter(p.approvals, a.approverId);
    var q := WithVote(p, a);
    WithoutVoterDistinct(p.approvals, a.approverId);
    RevoteKeepsCount(p.approvals, a.approverId);
    CountAppend(kept, a);
    forall i | 0 <= i < |kept| ensures VoteOk(q, kept[i]) && kept[i].approverId != a.approverId && kept[i].decision == APPROVE {
      KeptVotes(p, a, now, i);
    }
    assert q.approvals == kept + [a] && q.approvals[|kept|] == a;
  }

  lemma CreateKeepsStore(s: Store, id: Text, proposerId: Text, owner: Option<Text>, hash: Text, c: Constraints, ttl: nat, now: Time)
    requires StoreOk(s)
    ensures StoreOk(Create(s, id, proposerId, owner, hash, c, ttl, now))
  {
  }

  lemma RecordKeepsStore(s: Store, id: Text, a: Approval, now: Time, systemNow: Time)
    requires StoreOk(s)
    ensures StoreOk(Record(s, id, a, now, systemNow).0)
  {
    if Record(s, id, a, now, systemNow).1.Some? {
      VoteKeepsProposal(Get(s, id, systemNow).value, a, now);
    }
  }

  lemma ConsumeKeepsStore(s: Store, id: Text, expected: Option<Text>, now: Time, putLock: Io, putProposal: Io)
    requires StoreOk(s)
    ensures StoreOk(Consume(s, id, expected, now, putLock, putProposal).0)
  {
  }

  // ---- how long a proposal is shown ------------------------------------------------

  /** A new proposal in the key/value store: pending up to its expiry, then expired, and gone after at least a minute. */
  lemma NewProposalShown(s: Store, id: Text, proposerId: Text, owner: Option<Text>, hash: Text, c: Constraints, ttl: nat, at: Time, now: Time)
    requires s.kv
    ensures var shown := Get(Create(s, id, proposerId, owner, hash, c, ttl, at), id, now);
            && (shown == None <==> now >= at + 1000 * ttl && now >= at + 60_000)
            && (shown.Some? ==>
                  && shown.value.(status := PENDING) == Proposal(proposerId, owner, hash, c, at + 1000 * ttl, PENDING, [])
                  && shown.value.status == if now <= at + 1000 * ttl then PENDING else EXPIRED)
  {
  }

  /**
   After a vote a proposal is shown for the whole seconds left to it, and at least a minute; one decided by then does
   not turn expired, so an approval may be read up to a minute past its expiry.
   */
  lemma VotedProposalShown(s: Store, id: Text, a: Approval, at: Time, systemNow: Time, now: Time)
    requires s.kv && Record(s, id, a, at, systemNow).1.Some?
    ensures var q := Record(s, id, a, at, systemNow).1.value;
            var shown := Get(Record(s, id, a, at, systemNow).0, id, now);
            && (shown == None <==> now >= at + (q.expiresAt - at) / 1000 * 1000 && now >= at + 60_000)
            && (shown.Some? ==> shown.value == if q.status == PENDING && q.expiresAt < now then q.(status := EXPIRED) else q)
            && q.approvals != [] && q.approvals[|q.approvals| - 1] == a
            && (q.status == REJECTED <==> a.decision == REJECT)
            && (a.decision == APPROVE ==>
                  (CountApprove(q.approvals) >= q.constraints.minApprovals ==> q.status == APPROVED))
  {
    var p := Get(s, id, systemNow).value;
    assert Acceptable(p, a, at);
  }

  /** A vote costs no part of the time to expiry exactly if whole seconds are left, or a minute at most. */
  lemma ShownToTheEnd(s: Store, id: Text, a: Approval, at: Time, systemNow: Time)
    requires s.kv && Record(s, id, a, at, systemNow).1.Some?
    ensures var left := Record(s, id, a, at, systemNow).1.value.expiresAt - at;
            (forall now :: at <= now < at + left ==> Get(Record(s, id, a, at, systemNow).0, id, now).Some?) <==>
              left % 1000 == 0 || left <= 60_000
  {
    var q := Record(s, id, a, at, systemNow).1.value;
    var stored := Record(s, id, a, at, systemNow).0;
    var left := q.expiresAt - at;
    hide Record;
    forall now ensures Get(stored, id, now) == None <==> now >= at + left / 1000 * 1000 && now >= at + 60_000 {
      VotedProposalShown(s, id, a, at, systemNow, now);
    }
    if left % 1000 != 0 && left > 60_000 {
      assert Get(stored, id, at + left - 1).None?;
    }
  }

  /**
   A vote is recorded exactly on a proposal that is shown, undecided or approved and not past its expiry, by another than
   the proposer, for its action, by an allowed voter and, where owners must differ, of another owner; it takes the
   place of the voter's earlier one.
   */
  lemma VoteRecordedExactly(s: Store, id: Text, a: Approval, now: Time, systemNow: Time)
    ensures var r := Record(s, id, a, now, systemNow);
            && (r.1.Some? <==>
                  && Get(s, id, systemNow).Some?
                  && var p := Get(s, id, systemNow).value;
                     && now <= p.expiresAt && p.status in {PENDING, APPROVED}
                     && a.approverId != p.proposerId && a.actionHash == p.actionHash
                     && (p.constraints.allowedApprovers.Some? ==> a.approverId in p.constraints.allowedApprovers.value)
                     && (p.constraints.requireDistinctOwners && p.proposerOwner.Some? && p.proposerOwner.value != [] ==>
                           a.approverOwner != p.proposerOwner))
            && (r.1.None? ==> r.0 == s)
            && (r.1.Some? ==> forall v :: v in r.1.value.approvals <==>
                  v == a || (v in Get(s, id, systemNow).value.approvals && v.approverId != a.approverId))
  {
    if Get(s, id, systemNow).Some? { WithoutVoterKeeps(Get(s, id, systemNow).value.approvals, a.approverId); }
  }

  // ---- evaluating approvals for a request -----------------------------------------

  datatype Failure =
    | QUORUM_NOT_MET | QUORUM_REJECTED | SELF_APPROVAL_DISALLOWED | QUORUM_ACTION_MISMATCH
    | PROPOSAL_EXPIRED | PROPOSAL_NOT_FOUND | PROPOSAL_ALREADY_CONSUMED | UNAUTHORIZED_APPROVER

  datatype Evaluation = NotRequired | Satisfied(approvers: set<Text>) | Unsatisfied(reason: Failure)

  datatype Agent = Agent(id: Text, owner: Option<Text>)

  function MaxAgeMs(c: Constraints): int {
    (match c.maxAgeSeconds case Some(n) => n case None => 900) * 1000
  }

  predicate Fresh(a: Approval, c: Constraints, now: Time) {
    now - a.timestamp <= MaxAgeMs(c)
  }

  /** The approval counts towards the quorum. */
  predicate Counts(a: Approval, c: Constraints, agent: Agent, now: Time) {
    a.decision == APPROVE && Fresh(a, c, now) && !(c.requireDistinctOwners && SharesOwner(a, agent.owner))
  }

  /** The approval alone makes the evaluation fail. */
  predicate Spoils(a: Approval, c: Constraints, hash: Text, now: Time) {
    a.decision == APPROVE && (a.actionHash != hash || (Fresh(a, c, now) && !AllowedBy(c, a.approverId)))
  }

  ghost function Approvers(approvals: seq<Approval>, c: Constraints, agent: Agent, now: Time): set<Text> {
    set i | 0 <= i < |approvals| && Counts(approvals[i], c, agent, now) :: approvals[i].approverId
  }

  /** No vote by the agent itself, no rejection, no approval that spoils the evaluation. */
  predicate Clean(approvals: seq<Approval>, c: Constraints, agent: Agent, hash: Text, now: Time) {
    forall i :: 0 <= i < |approvals| ==>
      approvals[i].approverId != agent.id && approvals[i].decision != REJECT && !Spoils(approvals[i], c, hash, now)
  }

  /** The part of evaluateQuorum that looks at approvals, loop by loop. */
  method EvaluateApprovals(approvals: seq<Approval>, c: Constraints, agent: Agent, hash: Text, now: Time) returns (r: Evaluation)
    ensures r.Satisfied? <==> Clean(approvals, c, agent, hash, now) && |Approvers(approvals, c, agent, now)| >= c.minApprovals
    ensures r.Satisfied? ==> r.approvers == Approvers(approvals, c, agent, now)
    ensures r != NotRequired
    ensures r == Unsatisfied(QUORUM_NOT_MET) ==> Clean(approvals, c, agent, hash, now)
    ensures r == Unsatisfied(SELF_APPROVAL_DISALLOWED) <==> exists i :: 0 <= i < |approvals| && approvals[i].approverId == agent.id
    ensures r == Unsatisfied(QUORUM_REJECTED) ==> HasReject(approvals)
    ensures HasReject(approvals) ==> r == Unsatisfied(QUORUM_REJECTED) || r == Unsatisfied(SELF_APPROVAL_DISALLOWED)
    ensures r == Unsatisfied(QUORUM_ACTION_MISMATCH) ==>
              exists i :: 0 <= i < |approvals| && approvals[i].decision == APPROVE && approvals[i].actionHash != hash
    ensures r == Unsatisfied(UNAUTHORIZED_APPROVER) ==>
              exists i :: 0 <= i < |approvals| && approvals[i].decision == APPROVE && Fresh(approvals[i], c, now) && !AllowedBy(c, approvals[i].approverId)
    ensures r.Unsatisfied? ==>
              r.reason in {SELF_APPROVAL_DISALLOWED, QUORUM_REJECTED, QUORUM_ACTION_MISMATCH, UNAUTHORIZED_APPROVER, QUORUM_NOT_MET}
  {
    for i := 0 to |approvals|
      invariant forall j :: 0 <= j < i ==> approvals[j].approverId != agent.id
    {
      if approvals[i].approverId == agent.id { return Unsatisfied(SELF_APPROVAL_DISALLOWED); }
    }
    for i := 0 to |approvals|
      invariant forall j :: 0 <= j < i ==> approvals[j].decision != REJECT
    {
      if approvals[i].decision == REJECT { return Unsatisfied(QUORUM_REJECTED); }
    }
    var validApprovers: set<Text> := {};
    for i := 0 to |approvals|
      invariant forall j :: 0 <= j < i ==> !Spoils(approvals[j], c, hash, now)
      invariant validApprovers == set j | 0 <= j < i && Counts(approvals[j], c, agent, now) :: approvals[j].approverId
    {
      var a := approvals[i];
      if a.decision != APPROVE { continue; }
      if a.actionHash != hash { return Unsatisfied(QUORUM_ACTION_MISMATCH); }
      if now - a.timestamp > MaxAgeMs(c) { continue; }
      if !AllowedBy(c, a.approverId) { return Unsatisfied(UNAUTHORIZED_APPROVER); }
      if c.requireDistinctOwners && SharesOwner(a, agent.owner) { continue; }
      validApprovers := validApprovers + {a.approverId};
    }
    r := if |validApprovers| < c.minApprovals then Unsatisfied(QUORUM_NOT_MET) else Satisfied(validApprovers);
  }

  /** Where a request's approvals come from. */
  datatype Source = FromProposal(id: Text) | Inline(approvals: seq<Approval>)

  /** The proposal a request names is there, unconsumed, unexpired and for this action. */
  predicate ProposalUsable(s: Store, id: Text, hash: Text, now: Time) {
    match Get(s, id, now)
    case None => false
    case Some(p) => p.status != CONSUMED && p.status != EXPIRED && p.expiresAt >= now && p.actionHash == hash
  }

  function ApprovalsFor(s: Store, source: Source, now: Time): seq<Approval> {
    match source
    case FromProposal(id) => (match Get(s, id, now) case Some(p) => p.approvals case None => [])
    case Inline(approvals) => approvals
  }

  /** evaluateQuorum. */
  method EvaluateQuorum(s: Store, c: Option<Constraints>, source: Source, agent: Agent, hash: Text, now: Time) returns (r: Evaluation)
    ensures r == NotRequired <==> c.None?
    ensures c.Some? ==>
              (r.Satisfied? <==>
                 && (source.FromProposal? ==> ProposalUsable(s, source.id, hash, now))
                 && Clean(ApprovalsFor(s, source, now), c.value, agent, hash, now)
                 && |Approvers(ApprovalsFor(s, source, now), c.value, agent, now)| >= c.value.minApprovals)
    ensures r.Satisfied? ==> c.Some? && r.approvers == Approvers(ApprovalsFor(s, source, now), c.value, agent, now)
    ensures c.Some? && source.FromProposal? ==>
              && (r == Unsatisfied(PROPOSAL_NOT_FOUND) <==> Get(s, source.id, now).None?)
              && (r == Unsatisfied(PROPOSAL_ALREADY_CONSUMED) <==> Get(s, source.id, now).Some? && Get(s, source.id, now).value.status == CONSUMED)
              && (r == Unsatisfied(PROPOSAL_EXPIRED) <==>
                    Get(s, source.id, now).Some? && Get(s, source.id, now).value.status != CONSUMED &&
                    (Get(s, source.id, now).value.status == EXPIRED || Get(s, source.id, now).value.expiresAt < now))
              && (Get(s, source.id, now).Some? && Get(s, source.id, now).value.status !in {CONSUMED, EXPIRED} &&
                  Get(s, source.id, now).value.expiresAt >= now && Get(s, source.id, now).value.actionHash != hash ==>
                    r == Unsatisfied(QUORUM_ACTION_MISMATCH))
  {
    if c.None? { return NotRequired; }
    match source
    case FromProposal(id) =>
      var found := Get(s, id, now);
      if found.None? { return Unsatisfied(PROPOSAL_NOT_FOUND); }
      var p := found.value;
      if p.status == CONSUMED { return Unsatisfied(PROPOSAL_ALREADY_CONSUMED); }
      if p.status == EXPIRED || p.expiresAt < now { return Unsatisfied(PROPOSAL_EXPIRED); }
      if p.actionHash != hash { return Unsatisfied(QUORUM_ACTION_MISMATCH); }
      r := EvaluateApprovals(p.approvals, c.value, agent, hash, now);
    case Inline(approvals) =>
      if approvals == [] {
        assert Approvers(approvals, c.value, agent, now) == {};
        return Unsatisfied(QUORUM_NOT_MET);
      }
      r := EvaluateApprovals(approvals, c.value, agent, hash, now);
  }

  /** No older than the maximum age, which is 15 minutes unless it is given. */
  predicate Recent(a: Approval, c: Constraints, now: Time) {
    now - a.timestamp <= if c.maxAgeSeconds.Some? then 1000 * c.maxAgeSeconds.value else 900_000
  }

  /** Of another owner than the agent, where owners must differ and both are known. */
  predicate Independent(a: Approval, c: Constraints, agent: Agent) {
    c.requireDistinctOwners && a.approverOwner.Some? && a.approverOwner.value != [] && agent.owner.Some? ==> a.approverOwner != agent.owner
  }

  /** An approval counts exactly if it approves, is recent and independent. */
  lemma CountsExactly(a: Approval, c: Constraints, agent: Agent, now: Time)
    ensures Counts(a, c, agent, now) <==> a.decision == APPROVE && Recent(a, c, now) && Independent(a, c, agent)
  {
  }

  /** What a satisfied quorum rests on: that many approvers, none of them the agent, each with a fresh, allowed, matching approval. */
  lemma SatisfiedRestsOn(approvals: seq<Approval>, c: Constraints, agent: Agent, hash: Text, now: Time)
    requires Clean(approvals, c, agent, hash, now) && |Approvers(approvals, c, agent, now)| >= c.minApprovals
    ensures agent.id !in Approvers(approvals, c, agent, now)
    ensures forall id :: id in Approvers(approvals, c, agent, now) ==>
              AllowedBy(c, id) &&
              exists i :: 0 <= i < |approvals| && approvals[i].approverId == id && approvals[i].decision == APPROVE &&
                          approvals[i].actionHash == hash && Recent(approvals[i], c, now) && Independent(approvals[i], c, agent)
  {
    forall id | id in Approvers(approvals, c, agent, now)
      ensures AllowedBy(c, id) && id != agent.id &&
              exists i :: 0 <= i < |approvals| && approvals[i].approverId == id && approvals[i].decision == APPROVE &&
                          approvals[i].actionHash == hash && Recent(approvals[i], c, now) && Independent(approvals[i], c, agent)
    {
      var i :| 0 <= i < |approvals| && Counts(approvals[i], c, agent, now) && approvals[i].approverId == id;
      assert !Spoils(approvals[i], c, hash, now);
    }
  }

  /** The proposal store as the module keeps it. */
  class ProposalStore {
    const kv: bool
    var proposals: map<Text, Entry<Proposal>>
    var locks: map<Text, Entry<()>>

    ghost function Contents(): Store
      reads this
    {
      Store(kv, proposals, locks)
    }

    constructor (kv: bool)
      ensures Contents() == Store(kv, map[], map[])
    {
      this.kv, proposals, locks := kv, map[], map[];
    }

    method CreateProposal(id: Text, proposerId: Text, proposerOwner: Option<Text>, actionHash: Text, c: Constraints, ttlSeconds: nat, now: Time)
      modifies this
      ensures Contents() == Create(old(Contents()), id, proposerId, proposerOwner, actionHash, c, ttlSeconds, now)
    {
      var p := Proposal(proposerId, proposerOwner, actionHash, c, now + ttlSeconds * 1000, PENDING, []);
      proposals := proposals[id := Entry(p, if kv then Some(now + Max(ttlSeconds, 60) * 1000) else None)];
    }

    method RecordApproval(id: Text, a: Approval, now: Time, systemNow: Time) returns (updated: Option<Proposal>)
      modifies this
      ensures (Contents(), updated) == Record(old(Contents()), id, a, now, systemNow)
    {
      var found := Get(Store(kv, proposals, locks), id, systemNow);
      if found.None? { return None; }
      var p := found.value;
      if p.expiresAt < now || p.status == CONSUMED || p.status == EXPIRED || p.status == REJECTED { return None; }
      if a.approverId == p.proposerId || a.actionHash != p.actionHash { return None; }
      if p.constraints.allowedApprovers.Some? && a.approverId !in p.constraints.allowedApprovers.value { return None; }
      if p.constraints.requireDistinctOwners && SharesOwner(a, p.proposerOwner) { return None; }
      var approvals := WithoutVoter(p.approvals, a.approverId) + [a];
      var status := p.status;
      if a.decision == REJECT {
        status := REJECTED;
      } else if CountApprove(approvals) >= p.constraints.minApprovals {
        status := APPROVED;
      }
      var q := p.(status := status, approvals := approvals);
      proposals := proposals[id := Entry(q, if kv then Some(now + Max((p.expiresAt - now) / 1000, 60) * 1000) else None)];
      updated := Some(q);
    }

    method ConsumeProposal(id: Text, expected: Option<Text>, now: Time, putLock: Io, putProposal: Io) returns (ok: bool)
      modifies this
      ensures (Contents(), ok) == Consume(old(Contents()), id, expected, now, putLock, putProposal)
    {
      var found := Get(Store(kv, proposals, locks), id, now);
      if found.None? || found.value.status != APPROVED { return false; }
      var p := found.value;
      if expected.Some? && p.actionHash != expected.value { return false; }
      var consumed := p.(status := CONSUMED);
      if !kv {
        proposals := proposals[id := Entry(consumed, None)];
        return true;
      }
      if Live(locks, id, now).Some? { return false; }
      var until := Some(now + Max((p.expiresAt - now) / 1000, 60) * 1000);
      if !putLock.Failed? { locks := locks[id := Entry((), until)]; }
      if !putProposal.Failed? { proposals := proposals[id := Entry(consumed, until)]; }
      ok := putLock.Done? && putProposal.Done?;
    }
  }
}
