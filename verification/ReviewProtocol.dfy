/** Review handlers as concurrent processes: each reads a row, checks it, stamps the time, and only then runs its UPDATE. */
module ReviewProtocol {
  import opened CodeUnits
  import opened ReviewStore

  const APPROVAL_SECONDS: Time := 300
  const RETENTION_SECONDS: Time := 7 * 86400

  datatype Request =
    | DecideRequest(id: nat, requestHash: Text, approve: bool, reason: Text, origin: Text)
    | ConsumeRequest(id: nat, token: Token, requestHash: Text, audience: Text, origin: Text)
    | CancelRequest(id: nat, requestHash: Text, reason: Text)

  /**
   A handler: started at `now`; with the row it read and found in order; with the
   stamp (and, for a decision, the token) it will bind into its UPDATE; finished.
   */
  datatype Process =
    | Started(request: Request, now: Time)
    | Checked(request: Request, now: Time, row: Row)
    | Bound(request: Request, now: Time, row: Row, stamp: Time, nonce: nat)
    | Finished(request: Request, ok: bool)

  datatype Win = Win(id: nat, token: Token)

  /** `wins` lists every approval whose UPDATE changed a row, newest first. */
  datatype System = System(db: Db, processes: map<nat, Process>, clock: Time, wins: List<Win>)

  datatype Action =
    | Tick(clock: Time)
    | Submit(id: nat, requestHash: Text, audience: Text, now: Time, expiresInSeconds: nat)
    | Begin(p: nat, request: Request)
    | Read(p: nat, held: bool)
    | Stamp(p: nat, nonce: nat)
    | Execute(p: nat)
    | Abort(p: nat)

  function Decision(r: Request): Status
    requires r.DecideRequest?
  {
    if r.approve then APPROVED else REJECTED
  }

  function MinTime(a: Time, b: Time): Time {
    if a < b then a else b
  }

  /** claims(row, issuer). */
  function ClaimsOf(id: nat, row: Row, issuer: Text): Claims {
    Claims(issuer, row.audience, id, row.requestHash, if row.status == REJECTED then REJECTED else APPROVED,
           row.reason, row.decidedAt, row.tokenExpiresAt)
  }

  /** The checks between reading the row and the UPDATE. */
  predicate Passes(r: Request, now: Time, row: Row) {
    match r
    case DecideRequest(id, hash, _, _, _) => hash == row.requestHash && row.status == PENDING && row.expiresAt > now
    case ConsumeRequest(id, token, hash, audience, origin) =>
      && row.status == APPROVED && row.tokenExpiresAt.Some? && row.tokenExpiresAt.value > now
      && hash == row.requestHash && audience == row.audience && row.token == Some(token)
      && Verifies(token, ClaimsOf(id, row, origin))
    case CancelRequest(_, _, _) => true
  }

  /** The row a decision signs. */
  function Decided(b: Process): Row
    requires b.Bound? && b.request.DecideRequest?
  {
    b.row.(status := Decision(b.request), reason := Some(b.request.reason), decidedAt := Some(b.now),
           tokenExpiresAt := Some(MinTime(b.now + APPROVAL_SECONDS, b.row.expiresAt)))
  }

  function DecisionToken(b: Process): Token
    requires b.Bound? && b.request.DecideRequest?
  {
    Signed(ClaimsOf(b.request.id, Decided(b), b.request.origin), b.nonce)
  }

  /** The handler's UPDATE. */
  function RunUpdate(db: Db, b: Process): (Db, bool)
    requires b.Bound?
  {
    match b.request
    case DecideRequest(id, _, _, reason, _) =>
      SqlDecide(db, id, Decision(b.request), reason, b.now, DecisionToken(b), Decided(b).tokenExpiresAt.value, b.stamp)
    case ConsumeRequest(id, token, _, _, _) => SqlConsume(db, id, token, b.stamp)
    case CancelRequest(id, hash, reason) => SqlCancel(db, id, hash, reason, b.now)
  }

  /** Retention, or a financial hold, decides whether the row is still visible. */
  predicate Visible(db: Db, id: nat, now: Time, held: bool) {
    id in db.rows && (db.rows[id].createdAt > now - RETENTION_SECONDS || held)
  }

  /** One atomic step of one process, or of the clock; nothing, when the action does not apply. */
  function Step(s: System, a: Action): System {
    match a
    case Tick(clock) => if clock < s.clock then s else s.(clock := clock)
    case Submit(id, hash, audience, now, expires) =>
      if id in s.db.rows || now > s.clock then s
      else s.(db := SqlInsert(s.db, id, hash, audience, now, now + expires))
    case Begin(p, request) =>
      if p in s.processes then s else s.(processes := s.processes[p := Started(request, s.clock)])
    case Read(p, held) =>
      if p !in s.processes || !s.processes[p].Started? then s
      else
        var b := s.processes[p];
        var id := b.request.id;
        s.(processes := s.processes[p :=
             if Visible(s.db, id, b.now, held) && Passes(b.request, b.now, s.db.rows[id])
             then Checked(b.request, b.now, s.db.rows[id]) else Finished(b.request, false)])
    case Stamp(p, nonce) =>
      if p !in s.processes || !s.processes[p].Checked? then s
      else var b := s.processes[p]; s.(processes := s.processes[p := Bound(b.request, b.now, b.row, s.clock, nonce)])
    case Execute(p) =>
      if p !in s.processes || !s.processes[p].Bound? then s
      else
        var b := s.processes[p];
        var (db, ok) := RunUpdate(s.db, b);
        System(db, s.processes[p := Finished(b.request, ok)], s.clock,
               if ok && b.request.DecideRequest? && b.request.approve then Cons(Win(b.request.id, DecisionToken(b)), s.wins) else s.wins)
    case Abort(p) =>
      if p !in s.processes then s else s.(processes := s.processes[p := Finished(s.processes[p].request, false)])
  }

  function Initial(clock: Time): System {
    System(Db(map[], Nil), map[], clock, Nil)
  }

  function Run(clock: Time, actions: List<Action>): System {
    match actions
    case Nil => Initial(clock)
    case Cons(a, earlier) => Step(Run(clock, earlier), a)
  }

  // ---- the invariant ---------------------------------------------------------

  /** The states a review has gone through, newest first. */
  function Trail(events: List<AuditEvent>, id: nat): List<Status> {
    match events
    case Nil => Nil
    case Cons(e, older) => if e.review == id then Cons(e.state, Trail(older, id)) else Trail(older, id)
  }

  function WinsOf(wins: List<Win>, id: nat): List<Token> {
    match wins
    case Nil => Nil
    case Cons(w, older) => if w.id == id then Cons(w.token, WinsOf(older, id)) else WinsOf(older, id)
  }

  const ONLY_PENDING: List<Status> := Cons(PENDING, Nil)
  const ONCE_APPROVED: List<Status> := Cons(APPROVED, ONLY_PENDING)

  /** An approval in force: decided in the past, with a token that says so and expires in time. */
  predicate InForce(id: nat, row: Row, clock: Time) {
    && row.decidedAt.Some? && row.decidedAt.value <= clock
    && row.tokenExpiresAt == Some(MinTime(row.decidedAt.value + APPROVAL_SECONDS, row.expiresAt))
    && row.token.Some? && row.token.value.Signed?
    && row.token.value.claims == ApprovalClaims(id, row, row.token.value.claims.iss)
  }

  /** What a token says of an approved row. */
  function ApprovalClaims(id: nat, row: Row, issuer: Text): Claims {
    Claims(issuer, row.audience, id, row.requestHash, APPROVED, row.reason, row.decidedAt, row.tokenExpiresAt)
  }

  predicate RowOk(id: nat, row: Row, clock: Time) {
    match row.status
    case PENDING => row.decidedAt.None? && row.token.None? && row.consumedAt.None?
    case APPROVED => InForce(id, row, clock) && row.consumedAt.None?
    case CONSUMED =>
      && InForce(id, row, clock) && row.consumedAt.Some?
      && row.decidedAt.value <= row.consumedAt.value < row.tokenExpiresAt.value
    case REJECTED => row.consumedAt.None?
  }

  /** A review's history, its winning approvals and its row tell the same story. */
  predicate StoryOk(row: Row, trail: List<Status>, wins: List<Token>) {
    match row.status
    case PENDING => trail == ONLY_PENDING && wins == Nil
    case APPROVED => trail == ONCE_APPROVED && row.token.Some? && wins == Cons(row.token.value, Nil)
    case CONSUMED => trail == Cons(CONSUMED, ONCE_APPROVED) && row.token.Some? && wins == Cons(row.token.value, Nil)
    case REJECTED =>
      || (trail == Cons(REJECTED, ONLY_PENDING) && wins == Nil)
      || (trail == Cons(REJECTED, ONCE_APPROVED) && wins.Cons? && wins.tail == Nil)
  }

  /** What never changes about a row. */
  predicate SameReview(a: Row, b: Row) {
    a.requestHash == b.requestHash && a.audience == b.audience && a.createdAt == b.createdAt && a.expiresAt == b.expiresAt
  }

  predicate ProcessOk(db: Db, b: Process, clock: Time) {
    match b
    case Started(_, now) => now <= clock
    case Checked(r, now, row) => now <= clock && r.id in db.rows && SameReview(row, db.rows[r.id]) && SnapshotOk(r, row, clock)
    case Bound(r, now, row, stamp, _) => now <= stamp <= clock && r.id in db.rows && SameReview(row, db.rows[r.id]) && SnapshotOk(r, row, stamp)
    case Finished(_, _) => true
  }

  /** A consumer saw an approval in force with the token it presents. */
  predicate SnapshotOk(r: Request, row: Row, clock: Time) {
    match r
    case ConsumeRequest(id, token, hash, audience, _) =>
      row.token == Some(token) && InForce(id, row, clock) && hash == row.requestHash && audience == row.audience
    case DecideRequest(_, hash, _, _, _) => hash == row.requestHash
    case CancelRequest(_, _, _) => true
  }

  ghost predicate Inv(s: System) {
    && (forall id :: id in s.db.rows ==>
          RowOk(id, s.db.rows[id], s.clock) && StoryOk(s.db.rows[id], Trail(s.db.events, id), WinsOf(s.wins, id)))
    && (forall id :: id !in s.db.rows ==> Trail(s.db.events, id) == Nil && WinsOf(s.wins, id) == Nil)
    && (forall p :: p in s.processes ==> ProcessOk(s.db, s.processes[p], s.clock))
  }

  // ---- every step keeps it ------------------------------------------------------

  /** A statement changed this one row, from pending or approved, as its process intended. */
  lemma UpdateKeepsRow(s: System, b: Process)
    requires Inv(s) && b.Bound? && ProcessOk(s.db, b, s.clock)
    ensures var (db, ok) := RunUpdate(s.db, b);
            var id := b.request.id;
            && (!ok ==> db == s.db)
            && (ok ==>
                  && id in s.db.rows && id in db.rows && (s.db.rows[id].status == PENDING || s.db.rows[id].status == APPROVED)
                  && db.rows == s.db.rows[id := db.rows[id]]
                  && RowOk(id, db.rows[id], s.clock) && SameReview(s.db.rows[id], db.rows[id])
                  && db.events.Cons? && db.events.tail == s.db.events
                  && db.events.head.review == id && db.events.head.state == db.rows[id].status)
  {
  }

  lemma UpdateKeepsStory(s: System, b: Process)
    requires Inv(s) && b.Bound? && ProcessOk(s.db, b, s.clock) && RunUpdate(s.db, b).1
    ensures var db := RunUpdate(s.db, b).0;
            var id := b.request.id;
            var wins := if b.request.DecideRequest? && b.request.approve then Cons(Win(id, DecisionToken(b)), s.wins) else s.wins;
            id in db.rows && StoryOk(db.rows[id], Trail(db.events, id), WinsOf(wins, id))
  {
    UpdateKeepsRow(s, b);
  }

  lemma ExecuteKeepsInv(s: System, p: nat)
    requires Inv(s) && p in s.processes && s.processes[p].Bound?
    ensures Inv(Step(s, Execute(p)))
  {
    var b := s.processes[p];
    var next := Step(s, Execute(p));
    UpdateKeepsRow(s, b);
    if RunUpdate(s.db, b).1 {
      UpdateKeepsStory(s, b);
      forall id | id in next.db.rows
        ensures RowOk(id, next.db.rows[id], next.clock) && StoryOk(next.db.rows[id], Trail(next.db.events, id), WinsOf(next.wins, id))
      {
        if id != b.request.id {
          assert next.db.rows[id] == s.db.rows[id];
        }
      }
    }
  }

  lemma TickKeepsInv(s: System, clock: Time)
    requires Inv(s) && s.clock <= clock
    ensures Inv(s.(clock := clock))
  {
    forall id | id in s.db.rows ensures RowOk(id, s.db.rows[id], clock) {
      assert RowOk(id, s.db.rows[id], s.clock);
    }
    forall p | p in s.processes ensures ProcessOk(s.db, s.processes[p], clock) {
      assert ProcessOk(s.db, s.processes[p], s.clock);
    }
  }

  lemma SubmitKeepsInv(s: System, a: Action)
    requires Inv(s) && a.Submit? && a.id !in s.db.rows && a.now <= s.clock
    ensures Inv(Step(s, a))
  {
    var next := Step(s, a);
    forall p | p in next.processes ensures ProcessOk(next.db, next.processes[p], next.clock) {
      assert ProcessOk(s.db, s.processes[p], s.clock);
    }
  }

  lemma ProcessStepKeepsInv(s: System, a: Action)
    requires Inv(s) && (a.Begin? || a.Read? || a.Stamp? || a.Abort?)
    ensures Inv(Step(s, a))
  {
    var next := Step(s, a);
    forall p | p in next.processes ensures ProcessOk(next.db, next.processes[p], next.clock) {
      assert p in s.processes ==> ProcessOk(s.db, s.processes[p], s.clock);
      if a.Read? && p == a.p && s.processes[p].Started? && s.processes[p].request.id in s.db.rows {
        assert RowOk(s.processes[p].request.id, s.db.rows[s.processes[p].request.id], s.clock);
      }
    }
  }

  lemma StepKeepsInv(s: System, a: Action)
    requires Inv(s)
    ensures Inv(Step(s, a))
  {
    match a
    case Tick(clock) => if s.clock <= clock { TickKeepsInv(s, clock); }
    case Submit(id, _, _, now, _) => if id !in s.db.rows && now <= s.clock { SubmitKeepsInv(s, a); }
    case Execute(p) => if p in s.processes && s.processes[p].Bound? { ExecuteKeepsInv(s, p); }
    case _ => ProcessStepKeepsInv(s, a);
  }

  lemma {:induction false} RunKeepsInv(clock: Time, actions: List<Action>)
    ensures Inv(Run(clock, actions))
  {
    if actions.Cons? {
      RunKeepsInv(clock, actions.tail);
      StepKeepsInv(Run(clock, actions.tail), actions.head);
    }
  }

  // ---- safety over every interleaving ----------------------------------------------

  function Count(trail: List<Status>, status: Status): nat {
    match trail
    case Nil => 0
    case Cons(x, older) => Count(older, status) + if x == status then 1 else 0
  }

  /**
   However the handlers interleave, a review is approved at most once and consumed at
   most once, never consumed without having been approved, and never both consumed
   and rejected; its audit trail is one of six.
   */
  lemma AuditTrail(clock: Time, actions: List<Action>, id: nat)
    ensures var trail := Trail(Run(clock, actions).db.events, id);
            && Count(trail, APPROVED) <= 1 && Count(trail, CONSUMED) + Count(trail, REJECTED) <= 1
            && (Count(trail, CONSUMED) == 1 ==> trail == Cons(CONSUMED, ONCE_APPROVED))
            && trail in {Nil, ONLY_PENDING, ONCE_APPROVED, Cons(REJECTED, ONLY_PENDING), Cons(REJECTED, ONCE_APPROVED), Cons(CONSUMED, ONCE_APPROVED)}
  {
    RunKeepsInv(clock, actions);
    var s := Run(clock, actions);
    if id in s.db.rows { assert StoryOk(s.db.rows[id], Trail(s.db.events, id), WinsOf(s.wins, id)); }
  }

  /** The times on a consumed review. */
  lemma ConsumedInTime(clock: Time, actions: List<Action>, id: nat)
    requires id in Run(clock, actions).db.rows && Run(clock, actions).db.rows[id].status == CONSUMED
    ensures var row := Run(clock, actions).db.rows[id];
            && row.decidedAt.Some? && row.consumedAt.Some? && row.tokenExpiresAt.Some?
            && row.decidedAt.value <= row.consumedAt.value < row.tokenExpiresAt.value
            && row.tokenExpiresAt.value <= row.decidedAt.value + 300
            && row.tokenExpiresAt.value <= row.expiresAt
  {
    RunKeepsInv(clock, actions);
    assert RowOk(id, Run(clock, actions).db.rows[id], Run(clock, actions).clock);
  }

  lemma StepKeepsResolved(s: System, a: Action, id: nat)
    requires id in s.db.rows && (s.db.rows[id].status == CONSUMED || s.db.rows[id].status == REJECTED)
    ensures id in Step(s, a).db.rows && Step(s, a).db.rows[id] == s.db.rows[id]
    ensures Trail(Step(s, a).db.events, id) == Trail(s.db.events, id)
  {
  }

  /** Further actions, newest first. */
  function After(s: System, more: List<Action>): System {
    match more
    case Nil => s
    case Cons(a, earlier) => Step(After(s, earlier), a)
  }

  /** A consumed or rejected review never changes again, whatever the handlers in flight go on to do. */
  lemma {:induction false} Absorbing(s: System, more: List<Action>, id: nat)
    requires id in s.db.rows && (s.db.rows[id].status == CONSUMED || s.db.rows[id].status == REJECTED)
    ensures id in After(s, more).db.rows && After(s, more).db.rows[id] == s.db.rows[id]
    ensures Trail(After(s, more).db.events, id) == Trail(s.db.events, id)
  {
    if more.Cons? {
      Absorbing(s, more.tail, id);
      StepKeepsResolved(After(s, more.tail), more.head, id);
    }
  }

  /**
   A consume that succeeds presents the token of the one approval that ever won, for
   the same request and audience, and takes the review from approved to consumed.
   */
  lemma ConsumePresentsTheApproval(clock: Time, actions: List<Action>, p: nat)
    requires var s := Run(clock, actions);
             p in s.processes && s.processes[p].Bound? && s.processes[p].request.ConsumeRequest? &&
             Step(s, Execute(p)).processes[p] == Finished(s.processes[p].request, true)
    ensures var s := Run(clock, actions);
            var r := s.processes[p].request;
            var next := Step(s, Execute(p));
            && r.id in s.db.rows && s.db.rows[r.id].status == APPROVED && next.db.rows[r.id].status == CONSUMED
            && WinsOf(s.wins, r.id) == Cons(r.token, Nil) && WinsOf(next.wins, r.id) == Cons(r.token, Nil)
            && r.requestHash == s.db.rows[r.id].requestHash && r.audience == s.db.rows[r.id].audience
            && r.token.Signed? && r.token.claims.decision == APPROVED && r.token.claims.requestHash == r.requestHash
            && Trail(next.db.events, r.id) == Cons(CONSUMED, ONCE_APPROVED)
  {
    RunKeepsInv(clock, actions);
    var s := Run(clock, actions);
    var r := s.processes[p].request;
    assert ProcessOk(s.db, s.processes[p], s.clock);
    assert StoryOk(s.db.rows[r.id], Trail(s.db.events, r.id), WinsOf(s.wins, r.id));
  }

  /**
   Exactly when a consumer that has come this far succeeds: the approval it saw is
   still the one in force and its stamp is before the token's end. The separate test
   on the review's own expiry never decides.
   */
  lemma ConsumeSucceedsExactly(clock: Time, actions: List<Action>, p: nat)
    requires var s := Run(clock, actions);
             p in s.processes && s.processes[p].Bound? && s.processes[p].request.ConsumeRequest?
    ensures var s := Run(clock, actions);
            var b := s.processes[p];
            var id := b.request.id;
            id in s.db.rows && b.row.tokenExpiresAt.Some? &&
            (RunUpdate(s.db, b).1 <==>
               s.db.rows[id].status == APPROVED && s.db.rows[id].token == b.row.token && b.stamp < b.row.tokenExpiresAt.value)
  {
    RunKeepsInv(clock, actions);
    var s := Run(clock, actions);
    var id := s.processes[p].request.id;
    assert ProcessOk(s.db, s.processes[p], s.clock);
    assert RowOk(id, s.db.rows[id], s.clock);
  }

  /** Successful consumes of a review, among all the actions so far. */
  function Consumes(clock: Time, actions: List<Action>, id: nat): nat {
    match actions
    case Nil => 0
    case Cons(a, earlier) =>
      var s := Run(clock, earlier);
      Consumes(clock, earlier, id) +
      if a.Execute? && a.p in s.processes && s.processes[a.p].Bound? && s.processes[a.p].request.ConsumeRequest? &&
         s.processes[a.p].request.id == id && RunUpdate(s.db, s.processes[a.p]).1 then 1 else 0
  }

  lemma {:induction false} ConsumesAreLogged(clock: Time, actions: List<Action>, id: nat)
    ensures Consumes(clock, actions, id) == Count(Trail(Run(clock, actions).db.events, id), CONSUMED)
  {
    if actions.Cons? {
      ConsumesAreLogged(clock, actions.tail, id);
    }
  }

  /** At most one consume of a review is ever answered with success. */
  lemma ConsumedAtMostOnce(clock: Time, actions: List<Action>, id: nat)
    ensures Consumes(clock, actions, id) <= 1
  {
    ConsumesAreLogged(clock, actions, id);
    AuditTrail(clock, actions, id);
  }
}
