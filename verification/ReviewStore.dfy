/**
 The human-review table: its rows, its audit events, and the conditional UPDATE
 statements that are the only ways a row changes.
 */
module ReviewStore {
  import opened CodeUnits

  /** Whole seconds. */
  type Time = int

  datatype Status = PENDING | APPROVED | REJECTED | CONSUMED

  /** What a review attestation says. */
  datatype Claims = Claims(
    iss: Text, aud: Text, jti: nat, requestHash: Text, decision: Status, reason: Option<Text>,
    iat: Option<Time>, exp: Option<Time>)

  /** A token signed by the service, told apart from others with the same claims by `nonce`; or any other text. */
  datatype Token = Signed(claims: Claims, nonce: nat) | Other(text: Text)

  /** verifyCompactJws under ideal signatures. */
  predicate Verifies(t: Token, c: Claims) {
    t.Signed? && t.claims == c
  }

  datatype Row = Row(
    requestHash: Text, audience: Text, status: Status, createdAt: Time, expiresAt: Time,
    decidedAt: Option<Time>, reason: Option<Text>, token: Option<Token>,
    tokenExpiresAt: Option<Time>, consumedAt: Option<Time>)

  datatype AuditEvent = AuditEvent(review: nat, state: Status, occurredAt: Option<Time>, byReviewer: bool)

  /** The table, and the audit table its triggers fill (newest event first). */
  datatype Db = Db(rows: map<nat, Row>, events: List<AuditEvent>)

  function OrElse<T>(a: Option<T>, b: Option<T>): Option<T> {
    if a.Some? then a else b
  }

  /** A row update together with the trigger human_review_transition. */
  function WithRow(db: Db, id: nat, r: Row): Db
    requires id in db.rows
  {
    Db(db.rows[id := r],
       if r.status != db.rows[id].status
       then Cons(AuditEvent(id, r.status, OrElse(r.consumedAt, r.decidedAt), r.status != CONSUMED), db.events)
       else db.events)
  }

  /** INSERT, with the trigger human_review_created. */
  function SqlInsert(db: Db, id: nat, requestHash: Text, audience: Text, now: Time, expiresAt: Time): Db
    requires id !in db.rows
  {
    Db(db.rows[id := Row(requestHash, audience, PENDING, now, expiresAt, None, None, None, None, None)],
       Cons(AuditEvent(id, PENDING, Some(now), false), db.events))
  }

  /** UPDATE ... SET status, reason, decided_at, token, token_expires_at WHERE id AND status='PENDING' AND expires_at > stamp. */
  function SqlDecide(db: Db, id: nat, status: Status, reason: Text, now: Time, token: Token, tokenExpiresAt: Time, stamp: Time): (Db, bool) {
    if id in db.rows && db.rows[id].status == PENDING && db.rows[id].expiresAt > stamp then
      (WithRow(db, id, db.rows[id].(status := status, reason := Some(reason), decidedAt := Some(now),
                                    token := Some(token), tokenExpiresAt := Some(tokenExpiresAt))), true)
    else (db, false)
  }

  /** UPDATE ... SET status='CONSUMED', consumed_at=stamp WHERE id AND status='APPROVED' AND token AND token_expires_at > stamp AND expires_at > stamp. */
  function SqlConsume(db: Db, id: nat, token: Token, stamp: Time): (Db, bool) {
    if id in db.rows && db.rows[id].status == APPROVED && db.rows[id].token == Some(token) &&
       db.rows[id].tokenExpiresAt.Some? && db.rows[id].tokenExpiresAt.value > stamp && db.rows[id].expiresAt > stamp then
      (WithRow(db, id, db.rows[id].(status := CONSUMED, consumedAt := Some(stamp))), true)
    else (db, false)
  }

  /** UPDATE ... SET status='REJECTED', ..., token=NULL WHERE id AND request_hash AND status IN ('PENDING','APPROVED'). */
  function SqlCancel(db: Db, id: nat, requestHash: Text, reason: Text, now: Time): (Db, bool) {
    if id in db.rows && db.rows[id].requestHash == requestHash && (db.rows[id].status == PENDING || db.rows[id].status == APPROVED) then
      (WithRow(db, id, db.rows[id].(status := REJECTED, reason := Some(reason), decidedAt := Some(now),
                                    token := None, tokenExpiresAt := None)), true)
    else (db, false)
  }

  /** The statements as they run against the database. */
  class ReviewTable {
    var rows: map<nat, Row>
    var events: List<AuditEvent>

    ghost function Contents(): Db
      reads this
    {
      Db(rows, events)
    }

    constructor ()
      ensures Contents() == Db(map[], Nil)
    {
      rows, events := map[], Nil;
    }

    method Log(id: nat, before: Status, r: Row)
      requires id in rows && rows[id] == r
      modifies this`events
      ensures events == if r.status != before
                        then Cons(AuditEvent(id, r.status, OrElse(r.consumedAt, r.decidedAt), r.status != CONSUMED), old(events))
                        else old(events)
    {
      if r.status != before {
        events := Cons(AuditEvent(id, r.status, if r.consumedAt.Some? then r.consumedAt else r.decidedAt, r.status != CONSUMED), events);
      }
    }

    method Insert(id: nat, requestHash: Text, audience: Text, now: Time, expiresAt: Time)
      requires id !in rows
      modifies this
      ensures Contents() == SqlInsert(old(Contents()), id, requestHash, audience, now, expiresAt)
    {
      rows := rows[id := Row(requestHash, audience, PENDING, now, expiresAt, None, None, None, None, None)];
      events := Cons(AuditEvent(id, PENDING, Some(now), false), events);
    }

    method Decide(id: nat, status: Status, reason: Text, now: Time, token: Token, tokenExpiresAt: Time, stamp: Time) returns (changed: bool)
      modifies this
      ensures (Contents(), changed) == SqlDecide(old(Contents()), id, status, reason, now, token, tokenExpiresAt, stamp)
    {
      changed := id in rows && rows[id].status == PENDING && rows[id].expiresAt > stamp;
      if changed {
        var before := rows[id];
        var r := before.(status := status, reason := Some(reason), decidedAt := Some(now),
                         token := Some(token), tokenExpiresAt := Some(tokenExpiresAt));
        rows := rows[id := r];
        Log(id, before.status, r);
      }
    }

    method Consume(id: nat, token: Token, stamp: Time) returns (changed: bool)
      modifies this
      ensures (Contents(), changed) == SqlConsume(old(Contents()), id, token, stamp)
    {
      changed := id in rows && rows[id].status == APPROVED && rows[id].token == Some(token) &&
                 rows[id].tokenExpiresAt.Some? && rows[id].tokenExpiresAt.value > stamp && rows[id].expiresAt > stamp;
      if changed {
        var before := rows[id];
        var r := before.(status := CONSUMED, consumedAt := Some(stamp));
        rows := rows[id := r];
        Log(id, before.status, r);
      }
    }

    method Cancel(id: nat, requestHash: Text, reason: Text, now: Time) returns (changed: bool)
      modifies this
      ensures (Contents(), changed) == SqlCancel(old(Contents()), id, requestHash, reason, now)
    {
      changed := id in rows && rows[id].requestHash == requestHash && (rows[id].status == PENDING || rows[id].status == APPROVED);
      if changed {
        var before := rows[id];
        var r := before.(status := REJECTED, reason := Some(reason), decidedAt := Some(now), token := None, tokenExpiresAt := None);
        rows := rows[id := r];
        Log(id, before.status, r);
      }
    }
  }
}
