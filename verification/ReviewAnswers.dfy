/** What each review handler answers, from its start to its UPDATE, with anything of other handlers in between. */
module ReviewAnswers {
  import opened CodeUnits
  import opened ReviewStore
  import opened ReviewProtocol

  /** None of the actions is a step of this process. */
  predicate Apart(actions: List<Action>, p: nat) {
    match actions
    case Nil => true
    case Cons(a, earlier) =>
      Apart(earlier, p) &&
      match a
      case Begin(q, _) => q != p
      case Read(q, _) => q != p
      case Stamp(q, _) => q != p
      case Execute(q) => q != p
      case Abort(q) => q != p
      case _ => true
  }

  lemma {:induction false} OthersLeave(s: System, more: List<Action>, p: nat)
    requires Apart(more, p) && p in s.processes
    ensures p in After(s, more).processes && After(s, more).processes[p] == s.processes[p]
  {
    hide RunUpdate, Passes;
    if more.Cons? { OthersLeave(s, more.tail, p); }
  }

  /** The states in which a handler reads its row, takes its stamp, runs its UPDATE, and has answered. */
  datatype Life = Life(read: System, stamp: System, update: System, end: System)

  /** A handler started in `s`, with the actions of others before each of its steps. */
  function Handled(s: System, p: nat, r: Request, a: List<Action>, held: bool, b: List<Action>, nonce: nat, c: List<Action>): Life {
    var read := After(Step(s, Begin(p, r)), a);
    var stamp := After(Step(read, Read(p, held)), b);
    var update := After(Step(stamp, Stamp(p, nonce)), c);
    Life(read, stamp, update, Step(update, Execute(p)))
  }

  /** The answer: success exactly if the row it read was visible and in order, and its UPDATE changed one. */
  lemma Answer(s: System, p: nat, r: Request, a: List<Action>, held: bool, b: List<Action>, nonce: nat, c: List<Action>) returns (ok: bool)
    requires p !in s.processes && Apart(a, p) && Apart(b, p) && Apart(c, p)
    ensures var l := Handled(s, p, r, a, held, b, nonce, c);
            && p in l.end.processes && l.end.processes[p] == Finished(r, ok)
            && if Visible(l.read.db, r.id, s.clock, held) && Passes(r, s.clock, l.read.db.rows[r.id])
               then (l.end.db, ok) == RunUpdate(l.update.db, Bound(r, s.clock, l.read.db.rows[r.id], l.stamp.clock, nonce))
               else !ok && l.end.db == l.update.db
  {
    hide RunUpdate, Passes, Visible;
    var l := Handled(s, p, r, a, held, b, nonce, c);
    OthersLeave(Step(s, Begin(p, r)), a, p);
    OthersLeave(Step(l.read, Read(p, held)), b, p);
    OthersLeave(Step(l.stamp, Stamp(p, nonce)), c, p);
    ok := l.end.processes[p].ok;
  }

  /** Less than seven days old when the handler started, or held by a financial reservation. */
  predicate Shown(db: Db, id: nat, now: Time, held: bool) {
    id in db.rows && (now - db.rows[id].createdAt < 604_800 || held)
  }

  /**
   A decision is answered with success exactly when the row it read was shown, pending, unexpired and of the
   displayed hash, and its UPDATE still found it pending and unexpired at the stamp; then the row holds the
   decision and a token that says so for at most 300 s, and otherwise nothing has changed.
   */
  lemma DecisionSucceedsExactly(
    s: System, p: nat, id: nat, hash: Text, approve: bool, reason: Text, origin: Text,
    a: List<Action>, held: bool, b: List<Action>, nonce: nat, c: List<Action>) returns (ok: bool)
    requires p !in s.processes && Apart(a, p) && Apart(b, p) && Apart(c, p)
    ensures var r := DecideRequest(id, hash, approve, reason, origin);
            var l := Handled(s, p, r, a, held, b, nonce, c);
            && p in l.end.processes && l.end.processes[p] == Finished(r, ok)
            && (ok <==>
                  && Shown(l.read.db, id, s.clock, held)
                  && (var seen := l.read.db.rows[id]; seen.requestHash == hash && seen.status == PENDING && s.clock < seen.expiresAt)
                  && id in l.update.db.rows
                  && (var found := l.update.db.rows[id]; found.status == PENDING && l.stamp.clock < found.expiresAt))
            && (!ok ==> l.end.db == l.update.db)
            && (ok ==>
                  var row := l.update.db.rows[id];
                  var until := l.read.db.rows[id].expiresAt;
                  var end := if s.clock + 300 < until then s.clock + 300 else until;
                  var status := if approve then APPROVED else REJECTED;
                  var claims := Claims(origin, l.read.db.rows[id].audience, id, hash, status, Some(reason), Some(s.clock), Some(end));
                  && l.end.db.rows == l.update.db.rows[id :=
                       row.(status := status, reason := Some(reason), decidedAt := Some(s.clock),
                            token := Some(Signed(claims, nonce)), tokenExpiresAt := Some(end))]
                  && l.end.db.events == Cons(AuditEvent(id, status, OrElse(row.consumedAt, Some(s.clock)), true), l.update.db.events))
  {
    ok := Answer(s, p, DecideRequest(id, hash, approve, reason, origin), a, held, b, nonce, c);
    hide Handled;
  }

  /** A cancel succeeds exactly when the row was shown when read and its UPDATE finds it of the hash, pending or approved. */
  lemma CancelSucceedsExactly(
    s: System, p: nat, id: nat, hash: Text, reason: Text,
    a: List<Action>, held: bool, b: List<Action>, nonce: nat, c: List<Action>) returns (ok: bool)
    requires p !in s.processes && Apart(a, p) && Apart(b, p) && Apart(c, p)
    ensures var r := CancelRequest(id, hash, reason);
            var l := Handled(s, p, r, a, held, b, nonce, c);
            && p in l.end.processes && l.end.processes[p] == Finished(r, ok)
            && (ok <==>
                  && Shown(l.read.db, id, s.clock, held)
                  && id in l.update.db.rows
                  && (var found := l.update.db.rows[id]; found.requestHash == hash && found.status in {PENDING, APPROVED}))
            && (!ok ==> l.end.db == l.update.db)
            && (ok ==>
                  l.end.db.rows == l.update.db.rows[id :=
                    l.update.db.rows[id].(status := REJECTED, reason := Some(reason), decidedAt := Some(s.clock), token := None, tokenExpiresAt := None)])
  {
    ok := Answer(s, p, CancelRequest(id, hash, reason), a, held, b, nonce, c);
    hide Handled;
  }

  lemma {:induction false} AfterKeepsInv(s: System, more: List<Action>)
    requires Inv(s)
    ensures Inv(After(s, more))
  {
    if more.Cons? {
      AfterKeepsInv(s, more.tail);
      StepKeepsInv(After(s, more.tail), more.head);
    }
  }

  /**
   After any run, a consume is answered with success exactly when the row it read was shown, approved, for the
   same request and audience, with this token, issued here and not yet over, and its UPDATE finds it still approved
   with this token and time left at the stamp.
   */
  lemma ConsumeAnsweredExactly(
    clock: Time, actions: List<Action>, p: nat, id: nat, token: Token, hash: Text, audience: Text, origin: Text,
    a: List<Action>, held: bool, b: List<Action>, nonce: nat, c: List<Action>) returns (ok: bool)
    requires p !in Run(clock, actions).processes && Apart(a, p) && Apart(b, p) && Apart(c, p)
    ensures var s := Run(clock, actions);
            var r := ConsumeRequest(id, token, hash, audience, origin);
            var l := Handled(s, p, r, a, held, b, nonce, c);
            && p in l.end.processes && l.end.processes[p] == Finished(r, ok)
            && (ok <==>
                  && Shown(l.read.db, id, s.clock, held)
                  && (var seen := l.read.db.rows[id];
                      && seen.status == APPROVED && seen.requestHash == hash && seen.audience == audience
                      && seen.token == Some(token) && token.Signed? && token.claims.iss == origin
                      && seen.tokenExpiresAt.Some? && s.clock < seen.tokenExpiresAt.value)
                  && id in l.update.db.rows
                  && (var found := l.update.db.rows[id];
                      && found.status == APPROVED && found.token == Some(token)
                      && found.tokenExpiresAt.Some? && l.stamp.clock < found.tokenExpiresAt.value))
            && (!ok ==> l.end.db == l.update.db)
            && (ok ==>
                  l.end.db.rows == l.update.db.rows[id :=
                    l.update.db.rows[id].(status := CONSUMED, consumedAt := Some(l.stamp.clock))])
  {
    var s := Run(clock, actions);
    var r := ConsumeRequest(id, token, hash, audience, origin);
    var l := Handled(s, p, r, a, held, b, nonce, c);
    ok := Answer(s, p, r, a, held, b, nonce, c);
    RunKeepsInv(clock, actions);
    InvOfLife(s, p, r, a, held, b, nonce, c);
    hide Handled;
    if id in l.read.db.rows { assert RowOk(id, l.read.db.rows[id], l.read.clock); }
    if id in l.update.db.rows { assert RowOk(id, l.update.db.rows[id], l.update.clock); }
  }

  lemma InvOfLife(s: System, p: nat, r: Request, a: List<Action>, held: bool, b: List<Action>, nonce: nat, c: List<Action>)
    requires Inv(s)
    ensures var l := Handled(s, p, r, a, held, b, nonce, c); Inv(l.read) && Inv(l.stamp) && Inv(l.update)
  {
    hide Inv, Step;
    var l := Handled(s, p, r, a, held, b, nonce, c);
    StepKeepsInv(s, Begin(p, r));
    AfterKeepsInv(Step(s, Begin(p, r)), a);
    StepKeepsInv(l.read, Read(p, held));
    AfterKeepsInv(Step(l.read, Read(p, held)), b);
    StepKeepsInv(l.stamp, Stamp(p, nonce));
    AfterKeepsInv(Step(l.stamp, Stamp(p, nonce)), c);
  }

  /** A handler that nothing disturbs. */
  function Alone(s: System, p: nat, r: Request, nonce: nat): System {
    Handled(s, p, r, Nil, false, Nil, nonce, Nil).end
  }

  /**
   Undisturbed, a review that is submitted and approved can be consumed with its token until 300 s have passed
   or the review expires, whichever is first.
   */
  lemma ApprovedThenConsumed(
    s: System, id: nat, hash: Text, audience: Text, seconds: nat, p: nat, reason: Text, origin: Text, n: nat, later: Time, q: nat, m: nat)
    returns (token: Token)
    requires id !in s.db.rows && p !in s.processes && q !in s.processes && p != q
    requires s.clock <= later < s.clock + 300 && later < s.clock + seconds
    ensures var approved := Alone(Step(s, Submit(id, hash, audience, s.clock, seconds)), p, DecideRequest(id, hash, true, reason, origin), n);
            var end := Alone(Step(approved, Tick(later)), q, ConsumeRequest(id, token, hash, audience, origin), m);
            && id in approved.db.rows && approved.db.rows[id].status == APPROVED && approved.db.rows[id].token == Some(token)
            && q in end.processes && end.processes[q] == Finished(ConsumeRequest(id, token, hash, audience, origin), true)
            && id in end.db.rows && end.db.rows[id].status == CONSUMED && end.db.rows[id].consumedAt == Some(later)
            && end.db.events == Cons(AuditEvent(id, CONSUMED, Some(later), false), Cons(AuditEvent(id, APPROVED, Some(s.clock), true),
                                Cons(AuditEvent(id, PENDING, Some(s.clock), false), s.db.events)))
  {
    var submitted := Step(s, Submit(id, hash, audience, s.clock, seconds));
    var ok := DecisionSucceedsExactly(submitted, p, id, hash, true, reason, origin, Nil, false, Nil, n, Nil);
    AloneUntilUpdate(submitted, p, DecideRequest(id, hash, true, reason, origin), n);
    var approved := Alone(submitted, p, DecideRequest(id, hash, true, reason, origin), n);
    token := approved.db.rows[id].token.value;
    var r := ConsumeRequest(id, token, hash, audience, origin);
    var ticked := Step(approved, Tick(later));
    ok := Answer(ticked, q, r, Nil, false, Nil, m, Nil);
    AloneUntilUpdate(ticked, q, r, m);
  }

  lemma AloneUntilUpdate(s: System, p: nat, r: Request, nonce: nat)
    ensures var l := Handled(s, p, r, Nil, false, Nil, nonce, Nil);
            && l.read.db == l.stamp.db == l.update.db == s.db && l.read.clock == l.stamp.clock == l.end.clock == s.clock
            && forall x :: x != p && x !in s.processes ==> x !in l.end.processes
  {
    hide RunUpdate, Passes, Visible;
  }
}
