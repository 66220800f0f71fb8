/** Monthly quotas of tenant API keys, over every interleaving of lookups, updates, second reads, increments and revocations. */
module ApiKeys {
  import opened CodeUnits

  /** A key's row, named by its id: the key's hash is injective. Months are integers. */
  datatype KeyRow = KeyRow(org: Text, quota: int, usage: int, month: int, revokedAt: Option<int>)

  datatype AuthResult =
    | Master
    | Authenticated(consumed: bool, usage: int)
    | InvalidKey
    | KeyRevoked
    | QuotaExceeded(usage: int)

  const TENANT_PREFIX: Text := ['v' as int, 'z' as int, '_' as int, 'l' as int, 'i' as int, 'v' as int, 'e' as int, '_' as int]

  /** options.apiKey && trimmed === options.apiKey.trim(). */
  predicate IsMaster(providedKey: Text, apiKey: Option<Text>) {
    apiKey.Some? && apiKey.value != [] && Trim(providedKey) == Trim(apiKey.value)
  }

  /** The trimmed key starts with the tenant prefix. */
  predicate IsTenantKey(providedKey: Text) {
    Units("vz_live_") <= Trim(providedKey)
  }

  // ---- the statements ---------------------------------------------------------------

  /** The WHERE clause of the consuming UPDATE. */
  predicate Admits(row: KeyRow, month: int) {
    row.revokedAt.None? &&
    (row.quota <= 0 || (row.month == month && row.usage < row.quota) || (row.month != month && row.quota > 0))
  }

  function SqlConsume(rows: map<nat, KeyRow>, id: nat, month: int): (map<nat, KeyRow>, bool) {
    if id in rows && Admits(rows[id], month) then
      (rows[id := rows[id].(usage := if rows[id].month == month then rows[id].usage + 1 else 1, month := month)], true)
    else (rows, false)
  }

  function SqlRevoke(rows: map<nat, KeyRow>, id: nat, org: Option<Text>, at: int): (map<nat, KeyRow>, bool) {
    if id in rows && rows[id].revokedAt.None? && (org.None? || rows[id].org == org.value) then
      (rows[id := rows[id].(revokedAt := Some(at))], true)
    else (rows, false)
  }

  function SqlCreate(rows: map<nat, KeyRow>, id: nat, org: Text, quota: int, month: int): map<nat, KeyRow>
    requires id !in rows
  {
    rows[id := KeyRow(org, quota, 0, month, None)]
  }

  // ---- one call, step by step -----------------------------------------------------------

  function EffectiveUsage(row: KeyRow, month: int): int {
    if row.month == month then row.usage else 0
  }

  /** What is known after the first SELECT: the answer, or None when the UPDATE comes next. */
  function AfterLookup(row: Option<KeyRow>, month: int, consume: bool): Option<AuthResult> {
    if row.None? then Some(InvalidKey)
    else if row.value.revokedAt.Some? then Some(KeyRevoked)
    else if consume then None
    else if row.value.quota > 0 && EffectiveUsage(row.value, month) >= row.value.quota then
      Some(QuotaExceeded(EffectiveUsage(row.value, month)))
    else Some(Authenticated(false, EffectiveUsage(row.value, month)))
  }

  /** The answer after an UPDATE that changed the row; the usage is reckoned from the row first read. */
  function AfterUpdate(read: KeyRow, month: int): AuthResult {
    Authenticated(true, if read.month == month then read.usage + 1 else 1)
  }

  /** The answer after an UPDATE that changed nothing, from a second read. */
  function AfterRefusal(again: Option<KeyRow>, month: int): AuthResult {
    if again.None? || again.value.revokedAt.Some? then KeyRevoked
    else QuotaExceeded(EffectiveUsage(again.value, month))
  }

  function Row(rows: map<nat, KeyRow>, id: nat): Option<KeyRow> {
    if id in rows then Some(rows[id]) else None
  }

  // ---- the table, and a call that nothing interleaves with -----------------------------------

  class ApiKeyTable {
    var rows: map<nat, KeyRow>

    /** The UNIQUE column key_hash: the row of each hash. */
    var ids: map<Text, nat>

    ghost predicate Valid()
      reads this
    {
      forall hash :: hash in ids ==> ids[hash] in rows
    }

    constructor ()
      ensures Valid() && rows == map[] && ids == map[]
    {
      rows, ids := map[], map[];
    }

    method GenerateApiKey(id: nat, hash: Text, org: Text, quota: int, month: int)
      requires Valid() && id !in rows && hash !in ids
      modifies this
      ensures Valid() && rows == SqlCreate(old(rows), id, org, quota, month) && ids == old(ids)[hash := id]
    {
      rows := rows[id := KeyRow(org, quota, 0, month, None)];
      ids := ids[hash := id];
    }

    method IncrementKeyUsage(id: nat, month: int) returns (changed: bool)
      modifies this`rows
      ensures (rows, changed) == SqlConsume(old(rows), id, month)
      ensures old(Valid()) ==> Valid()
    {
      changed := id in rows && Admits(rows[id], month);
      if changed {
        var row := rows[id];
        row := row.(usage := if row.month == month then row.usage + 1 else 1);
        rows := rows[id := row.(month := month)];
      }
    }

    method RevokeApiKey(id: nat, org: Option<Text>, at: int) returns (changed: bool)
      modifies this`rows
      ensures (rows, changed) == SqlRevoke(old(rows), id, org, at)
      ensures old(Valid()) ==> Valid()
    {
      changed := id in rows && rows[id].revokedAt.None? && (org.None? || rows[id].org == org.value);
      if changed { rows := rows[id := rows[id].(revokedAt := Some(at))]; }
    }

    /** The row a tenant key names, if it has the prefix, there is a database and its hash is on file. */
    ghost function RowOf(providedKey: Text, hasDb: bool, sha: Text -> Text): Option<nat>
      reads this
    {
      if IsTenantKey(providedKey) && hasDb && sha(Trim(providedKey)) in ids then Some(ids[sha(Trim(providedKey))]) else None
    }

    /**
     The master key is let through and touches nothing. Undisturbed, a tenant key succeeds exactly when its row
     admits one more call, and is told the usage that leaves; every other key is invalid and touches nothing.
     */
    method AuthenticateKey(providedKey: Text, apiKey: Option<Text>, hasDb: bool, sha: Text -> Text, month: int, consume: bool)
      returns (r: AuthResult)
      requires Valid()
      modifies this`rows
      ensures Valid()
      ensures r == Master <==> IsMaster(providedKey, apiKey)
      ensures r == InvalidKey <==> !IsMaster(providedKey, apiKey) && old(RowOf(providedKey, hasDb, sha)).None?
      ensures r in {Master, InvalidKey} ==> rows == old(rows)
      ensures r !in {Master, InvalidKey} ==>
                var id := old(RowOf(providedKey, hasDb, sha)).value;
                && id in old(rows) && rows == (if consume then SqlConsume(old(rows), id, month).0 else old(rows))
                && (r == KeyRevoked <==> old(rows)[id].revokedAt.Some?)
                && (r.Authenticated? <==> Admits(old(rows)[id], month))
                && (r.Authenticated? ==> r.consumed == consume && r.usage == EffectiveUsage(rows[id], month))
                && (r.QuotaExceeded? ==> r.usage == EffectiveUsage(rows[id], month) >= rows[id].quota > 0)
    {
      var trimmed := Trim(providedKey);
      if apiKey.Some? && apiKey.value != [] && trimmed == Trim(apiKey.value) { return Master; }
      if !(TENANT_PREFIX <= trimmed) || !hasDb { return InvalidKey; }
      var keyHash := sha(trimmed);
      if keyHash !in ids { return InvalidKey; }
      var id := ids[keyHash];
      var read := Row(rows, id);
      var answer := AfterLookup(read, month, consume);
      if answer.Some? { return answer.value; }
      var changed := IncrementKeyUsage(id, month);
      r := if changed then AfterUpdate(read.value, month) else AfterRefusal(Row(rows, id), month);
    }
  }

  // ---- interleavings ----------------------------------------------------------------------------

  /** A call between its steps: the UPDATE is next, or the second read is. */
  datatype Call =
    | Reading(id: nat, month: int, read: KeyRow)
    | Refused(id: nat, month: int)
    | Answered(id: nat, result: AuthResult)

  /** What happened to the table, newest first. `caller` is the call, or None for incrementKeyUsage; a key that does not exist has no attempts. */
  datatype Entry =
    | Attempt(id: nat, month: int, caller: Option<nat>, ok: bool)
    | Revocation(id: nat)

  datatype State = State(rows: map<nat, KeyRow>, calls: map<nat, Call>, log: List<Entry>)

  datatype Event =
    | Create(id: nat, org: Text, quota: int, month: int)
    | Lookup(call: nat, id: nat, month: int, consume: bool)
    | Update(call: nat)
    | SecondRead(call: nat)
    | Increment(id: nat, month: int)
    | Revoke(id: nat, within: Option<Text>, at: int)

  function Step(s: State, e: Event): State {
    match e
    case Create(id, org, quota, month) =>
      if id in s.rows then s else s.(rows := SqlCreate(s.rows, id, org, quota, month))
    case Lookup(call, id, month, consume) =>
      if call in s.calls then s
      else
        var answer := AfterLookup(Row(s.rows, id), month, consume);
        s.(calls := s.calls[call := if answer.Some? then Answered(id, answer.value) else Reading(id, month, s.rows[id])])
    case Update(call) =>
      if call !in s.calls || !s.calls[call].Reading? || s.calls[call].id !in s.rows then s
      else
        var c := s.calls[call];
        var (rows, ok) := SqlConsume(s.rows, c.id, c.month);
        State(rows, s.calls[call := if ok then Answered(c.id, AfterUpdate(c.read, c.month)) else Refused(c.id, c.month)],
              Cons(Attempt(c.id, c.month, Some(call), ok), s.log))
    case SecondRead(call) =>
      if call !in s.calls || !s.calls[call].Refused? then s
      else s.(calls := s.calls[call := Answered(s.calls[call].id, AfterRefusal(Row(s.rows, s.calls[call].id), s.calls[call].month))])
    case Increment(id, month) =>
      if id !in s.rows then s
      else
      var (rows, ok) := SqlConsume(s.rows, id, month);
      State(rows, s.calls, Cons(Attempt(id, month, None, ok), s.log))
    case Revoke(id, org, at) =>
      var (rows, ok) := SqlRevoke(s.rows, id, org, at);
      if ok then s.(rows := rows, log := Cons(Revocation(id), s.log)) else s
  }

  /** The state after a run, newest event first. */
  function Run(events: List<Event>): State {
    match events
    case Nil => State(map[], map[], Nil)
    case Cons(e, before) => Step(Run(before), e)
  }

  // ---- the log -------------------------------------------------------------------------------------

  predicate Revoked(log: List<Entry>, id: nat) {
    log.Cons? && ((log.head.Revocation? && log.head.id == id) || Revoked(log.tail, id))
  }

  predicate For(e: Entry, id: nat, month: int) {
    e.Attempt? && e.id == id && e.month == month
  }

  function Successes(log: List<Entry>, id: nat, month: int): nat {
    if log.Nil? then 0
    else (if For(log.head, id, month) && log.head.ok then 1 else 0) + Successes(log.tail, id, month)
  }

  /** Attempts made before any revocation. */
  function LiveAttempts(log: List<Entry>, id: nat, month: int): nat {
    if log.Nil? then 0
    else (if For(log.head, id, month) && !Revoked(log.tail, id) then 1 else 0) + LiveAttempts(log.tail, id, month)
  }

  /** Successes in a month since the last success in another one. */
  function Streak(log: List<Entry>, id: nat, month: int): nat {
    if log.Nil? then 0
    else if log.head.Attempt? && log.head.id == id && log.head.ok then
      if log.head.month == month then 1 + Streak(log.tail, id, month) else 0
    else Streak(log.tail, id, month)
  }

  /** The month of the latest attempt. */
  function Latest(log: List<Entry>, id: nat): Option<int> {
    if log.Nil? then None
    else if log.head.Attempt? && log.head.id == id then Some(log.head.month)
    else Latest(log.tail, id)
  }

  /** The months of the attempts never go back. */
  predicate Ordered(log: List<Entry>, id: nat) {
    log.Nil? ||
    (Ordered(log.tail, id) &&
     (log.head.Attempt? && log.head.id == id && Latest(log.tail, id).Some? ==> Latest(log.tail, id).value <= log.head.month))
  }

  // ---- every attempt, in every run --------------------------------------------------------------------

  /** The use of a key in a month, as its row has it. */
  function Usage(rows: map<nat, KeyRow>, id: nat, month: int): int {
    if id in rows then EffectiveUsage(rows[id], month) else 0
  }

  predicate RevokedInTable(rows: map<nat, KeyRow>, id: nat) {
    id in rows && rows[id].revokedAt.Some?
  }

  /** In every run, a key's row holds the streak of its month, and whether the key was revoked. */
  lemma {:induction false} RowsMatchLog(events: List<Event>, id: nat, month: int)
    ensures Usage(Run(events).rows, id, month) == Streak(Run(events).log, id, month)
    ensures RevokedInTable(Run(events).rows, id) <==> Revoked(Run(events).log, id)
  {
    if events.Cons? {
      RowsMatchLog(events.tail, id, month);
      StepMatchesLog(Run(events.tail), events.head, id, month);
    }
  }

  lemma StepMatchesLog(s: State, e: Event, id: nat, month: int)
    requires Usage(s.rows, id, month) == Streak(s.log, id, month)
    requires RevokedInTable(s.rows, id) <==> Revoked(s.log, id)
    ensures Usage(Step(s, e).rows, id, month) == Streak(Step(s, e).log, id, month)
    ensures RevokedInTable(Step(s, e).rows, id) <==> Revoked(Step(s, e).log, id)
  {
  }

  /** The quota of a key, fixed when it is created. */
  function Quota(s: State, id: nat): int {
    if id in s.rows then s.rows[id].quota else 0
  }

  /** An attempt may succeed: the key is not revoked, and has no quota or a streak below it. */
  predicate MaySucceed(log: List<Entry>, id: nat, month: int, quota: int) {
    !Revoked(log, id) && (quota <= 0 || Streak(log, id, month) < quota)
  }

  /** Every attempt at the key succeeded exactly when it might. */
  predicate AllDecided(log: List<Entry>, id: nat, quota: int) {
    log.Nil? ||
    (AllDecided(log.tail, id, quota) &&
     (log.head.Attempt? && log.head.id == id ==> (log.head.ok <==> MaySucceed(log.tail, id, log.head.month, quota))))
  }

  /** Whatever the interleaving and the order of months, an attempt succeeds exactly when the log before it allows. */
  lemma {:induction false} AttemptsDecidedByLog(events: List<Event>, id: nat)
    ensures AllDecided(Run(events).log, id, Quota(Run(events), id))
    ensures id !in Run(events).rows ==> forall quota :: AllDecided(Run(events).log, id, quota)
  {
    if events.Cons? {
      var s, e := Run(events.tail), events.head;
      AttemptsDecidedByLog(events.tail, id);
      if e.Update? && e.call in s.calls && s.calls[e.call].Reading? {
        RowsMatchLog(events.tail, id, s.calls[e.call].month);
      } else if e.Increment? {
        RowsMatchLog(events.tail, id, e.month);
      }
    }
  }

  // ---- the quota of a month -------------------------------------------------------------------------------

  function Min(a: int, b: int): int { if a < b then a else b }

  /** Live attempts for a month since the last one for another month. */
  function Visit(log: List<Entry>, id: nat, month: int): nat {
    if log.Nil? then 0
    else if log.head.Attempt? && log.head.id == id && !Revoked(log.tail, id) then
      if log.head.month == month then 1 + Visit(log.tail, id, month) else 0
    else Visit(log.tail, id, month)
  }

  /** What a month is granted if every visit to it has the whole quota: a count of attempts, not of their results. */
  function Granted(log: List<Entry>, id: nat, month: int, quota: int): nat {
    if log.Nil? then 0
    else
      var earlier := Granted(log.tail, id, month, quota);
      if For(log.head, id, month) && !Revoked(log.tail, id) && Visit(log.tail, id, month) < quota then earlier + 1 else earlier
  }

  /** The live attempts for a month follow each other, with none for another month between. */
  predicate Together(log: List<Entry>, id: nat, month: int) {
    log.Nil? ||
    (Together(log.tail, id, month) &&
     (For(log.head, id, month) && !Revoked(log.tail, id) && LiveAttempts(log.tail, id, month) > 0 ==> Latest(log.tail, id) == Some(month)))
  }

  /** A row has one period: a month with a streak leaves none to any other. */
  lemma {:induction false} OneStreak(log: List<Entry>, id: nat, month: int, other: int)
    requires month != other && Streak(log, id, month) > 0
    ensures Streak(log, id, other) == 0
  {
    if !(log.head.Attempt? && log.head.id == id && log.head.ok) { OneStreak(log.tail, id, month, other); }
  }

  /** The streak of a month is its current visit, up to the quota: an attempt for another month ends both. */
  lemma {:induction false} StreakIsVisit(log: List<Entry>, id: nat, month: int, quota: int)
    requires AllDecided(log, id, quota) && quota > 0
    ensures Streak(log, id, month) == Min(Visit(log, id, month), quota)
  {
    if log.Cons? {
      StreakIsVisit(log.tail, id, month, quota);
      var e := log.head;
      if e.Attempt? && e.id == id && e.month != month && !Revoked(log.tail, id) && !e.ok {
        OneStreak(log.tail, id, e.month, month);
      }
    }
  }

  lemma {:induction false} GrantedSucceed(log: List<Entry>, id: nat, month: int, quota: int)
    requires AllDecided(log, id, quota) && quota > 0
    ensures Successes(log, id, month) == Granted(log, id, month, quota)
  {
    if log.Cons? {
      GrantedSucceed(log.tail, id, month, quota);
      if For(log.head, id, month) { StreakIsVisit(log.tail, id, month, quota); }
    }
  }

  /** With the latest live attempt, the visit starts over or goes on. */
  lemma {:induction false} VisitOfLatest(log: List<Entry>, id: nat, month: int)
    requires !Revoked(log, id)
    ensures Visit(log, id, month) > 0 <==> Latest(log, id) == Some(month)
  {
    if log.Cons? { VisitOfLatest(log.tail, id, month); }
  }

  /** The live attempts are one visit, or it is over, exactly when they are together; otherwise there is more than one. */
  lemma {:induction false} TogetherIsOneVisit(log: List<Entry>, id: nat, month: int)
    ensures Visit(log, id, month) <= LiveAttempts(log, id, month)
    ensures Together(log, id, month) ==> Visit(log, id, month) in {0, LiveAttempts(log, id, month)}
    ensures !Together(log, id, month) ==> Visit(log, id, month) < LiveAttempts(log, id, month)
  {
    if log.Cons? {
      TogetherIsOneVisit(log.tail, id, month);
      if For(log.head, id, month) && !Revoked(log.tail, id) { VisitOfLatest(log.tail, id, month); }
    }
  }

  lemma {:induction false} GrantedExactly(log: List<Entry>, id: nat, month: int, quota: int)
    requires quota > 0
    ensures var n, g := LiveAttempts(log, id, month), Granted(log, id, month, quota);
            && Min(n, quota) <= g <= n
            && (g <= quota <==> n <= quota || Together(log, id, month))
  {
    if log.Cons? {
      GrantedExactly(log.tail, id, month, quota);
      TogetherIsOneVisit(log.tail, id, month);
      if For(log.head, id, month) && !Revoked(log.tail, id) { VisitOfLatest(log.tail, id, month); }
    }
  }

  /** In every run, the successes of a month are those its visits are granted, each visit the whole quota. */
  lemma SuccessesAreGranted(events: List<Event>, id: nat, month: int)
    requires Quota(Run(events), id) > 0
    ensures var s := Run(events); Successes(s.log, id, month) == Granted(s.log, id, month, Quota(s, id))
  {
    AttemptsDecidedByLog(events, id);
    GrantedSucceed(Run(events).log, id, month, Quota(Run(events), id));
  }

  /**
   In every run, a key keeps to its quota in a month, and then uses all of it that is asked for, if and only if
   no more is asked for or the live attempts for the month follow each other.
   */
  lemma QuotaKeptExactly(events: List<Event>, id: nat, month: int)
    requires Quota(Run(events), id) > 0
    ensures var s := Run(events);
            var n, q := LiveAttempts(s.log, id, month), Quota(s, id);
            && (Successes(s.log, id, month) <= q <==> n <= q || Together(s.log, id, month))
            && (Successes(s.log, id, month) == Min(n, q) <==> n <= q || Together(s.log, id, month))
  {
    SuccessesAreGranted(events, id, month);
    GrantedExactly(Run(events).log, id, month, Quota(Run(events), id));
  }

  lemma {:induction false} NothingAfterLatest(log: List<Entry>, id: nat, month: int)
    requires Ordered(log, id)
    requires Latest(log, id).Some? ==> Latest(log, id).value < month
    ensures LiveAttempts(log, id, month) == 0
  {
    if log.Cons? { NothingAfterLatest(log.tail, id, month); }
  }

  lemma {:induction false} OrderedIsTogether(log: List<Entry>, id: nat, month: int)
    requires Ordered(log, id)
    ensures Together(log, id, month)
  {
    if log.Cons? {
      OrderedIsTogether(log.tail, id, month);
      if For(log.head, id, month) && Latest(log.tail, id) != Some(month) { NothingAfterLatest(log.tail, id, month); }
    }
  }

  lemma {:induction false} UnlimitedSucceed(log: List<Entry>, id: nat, month: int, quota: int)
    requires AllDecided(log, id, quota) && quota <= 0
    ensures Successes(log, id, month) == LiveAttempts(log, id, month)
  {
    if log.Cons? { UnlimitedSucceed(log.tail, id, month, quota); }
  }

  /**
   In particular when months do not go back: a key with quota q succeeds exactly min(attempts, q) times a month,
   counting the attempts before it is revoked; with no quota, each of those succeeds, in any order.
   */
  lemma QuotaPerMonth(events: List<Event>, id: nat, month: int)
    requires Quota(Run(events), id) > 0 ==> Ordered(Run(events).log, id)
    ensures var s := Run(events);
            Successes(s.log, id, month) ==
              if Quota(s, id) <= 0 then LiveAttempts(s.log, id, month) else Min(LiveAttempts(s.log, id, month), Quota(s, id))
  {
    if Quota(Run(events), id) > 0 {
      OrderedIsTogether(Run(events).log, id, month);
      QuotaKeptExactly(events, id, month);
    } else {
      AttemptsDecidedByLog(events, id);
      UnlimitedSucceed(Run(events).log, id, month, Quota(Run(events), id));
    }
  }

  /** In any order of months, the counter of a key with a quota never exceeds it. */
  lemma {:induction false} CounterWithinQuota(events: List<Event>, id: nat)
    requires id in Run(events).rows && Run(events).rows[id].quota > 0
    ensures 0 <= Run(events).rows[id].usage <= Run(events).rows[id].quota
  {
    var s, e := Run(events.tail), events.head;
    if id in s.rows { CounterWithinQuota(events.tail, id); }
  }

  /** Attempts newer than a revocation all fail. */
  predicate FailsOnceRevoked(log: List<Entry>, id: nat) {
    log.Nil? ||
    (FailsOnceRevoked(log.tail, id) &&
     (log.head.Attempt? && log.head.id == id && Revoked(log.tail, id) ==> !log.head.ok))
  }

  lemma {:induction false} NeverAfterRevocation(events: List<Event>, id: nat)
    ensures FailsOnceRevoked(Run(events).log, id)
  {
    AttemptsDecidedByLog(events, id);
    DecidedFailsOnceRevoked(Run(events).log, id, Quota(Run(events), id));
  }

  lemma {:induction false} DecidedFailsOnceRevoked(log: List<Entry>, id: nat, quota: int)
    requires AllDecided(log, id, quota)
    ensures FailsOnceRevoked(log, id)
  {
    if log.Cons? { DecidedFailsOnceRevoked(log.tail, id, quota); }
  }

  /**
   When months may go back, there is no bound: an attempt for a month other than that of the latest success
   succeeds however often its month has succeeded before.
   */
  lemma ReturningMonthRefills(events: List<Event>, id: nat, month: int)
    requires id in Run(events).rows && !Revoked(Run(events).log, id) && Run(events).rows[id].month != month
    ensures var s, t := Run(events), Run(Cons(Increment(id, month), events));
            Successes(t.log, id, month) == Successes(s.log, id, month) + 1
  {
    RowsMatchLog(events, id, month);
  }

  /** Two calls on either side of midnight: three successes of a key with quota 1 in two months. */
  lemma QuotaExceededAcrossMidnight()
    ensures exists events: List<Event> :: Quota(Run(events), 0) == 1 && Successes(Run(events).log, 0, 8) == 2
  {
    var e0 := Cons(Create(0, [], 1, 8), Nil);
    var e1 := Cons(Increment(0, 8), e0);
    var e2 := Cons(Increment(0, 9), e1);
    var e3 := Cons(Increment(0, 8), e2);
    assert Run(e1).log == Cons(Attempt(0, 8, None, true), Nil);
    assert Run(e2).log == Cons(Attempt(0, 9, None, true), Run(e1).log);
    assert Run(e3).log == Cons(Attempt(0, 8, None, true), Run(e2).log);
    assert Successes(Run(e3).log, 0, 8) == 2;
  }

  // ---- what callers are told -----------------------------------------------------------------------------------

  function AttemptsBy(log: List<Entry>, call: nat): nat {
    if log.Nil? then 0
    else (if log.head.Attempt? && log.head.caller == Some(call) then 1 else 0) + AttemptsBy(log.tail, call)
  }

  function SuccessesBy(log: List<Entry>, call: nat): nat {
    if log.Nil? then 0
    else (if log.head.Attempt? && log.head.caller == Some(call) && log.head.ok then 1 else 0) + SuccessesBy(log.tail, call)
  }

  /** A call's answer agrees with its one attempt, if it made one. */
  predicate AnswerAgrees(s: State, call: nat) {
    if call !in s.calls then AttemptsBy(s.log, call) == 0 == SuccessesBy(s.log, call)
    else match s.calls[call]
      case Reading(_, _, _) => AttemptsBy(s.log, call) == 0 == SuccessesBy(s.log, call)
      case Refused(_, _) => AttemptsBy(s.log, call) == 1 && SuccessesBy(s.log, call) == 0
      case Answered(_, result) =>
        AttemptsBy(s.log, call) <= 1 && SuccessesBy(s.log, call) == if result.Authenticated? && result.consumed then 1 else 0
  }

  /** Over every interleaving, the calls told they consumed are exactly those whose one attempt succeeded. */
  lemma {:induction false} AnswersAgree(events: List<Event>, call: nat)
    ensures AnswerAgrees(Run(events), call)
  {
    if events.Cons? { AnswersAgree(events.tail, call); }
  }

  /** The call's attempt was at this key and failed. */
  predicate FailedAt(log: List<Entry>, call: nat, id: nat) {
    log.Cons? &&
    if log.head.Attempt? && log.head.caller == Some(call) then log.head.id == id && !log.head.ok
    else FailedAt(log.tail, call, id)
  }

  /** And it came when the key was live and its month already had as many successes as the quota. */
  predicate Exhausted(log: List<Entry>, call: nat, id: nat, quota: int) {
    log.Cons? &&
    if log.head.Attempt? && log.head.caller == Some(call)
    then log.head.id == id && !Revoked(log.tail, id) && Successes(log.tail, id, log.head.month) >= quota > 0
    else Exhausted(log.tail, call, id, quota)
  }

  lemma {:induction false} StreakAtMostSuccesses(log: List<Entry>, id: nat, month: int)
    ensures Streak(log, id, month) <= Successes(log, id, month)
  {
    if log.Cons? { StreakAtMostSuccesses(log.tail, id, month); }
  }

  lemma {:induction false} FailedLiveIsExhausted(log: List<Entry>, call: nat, id: nat, quota: int)
    requires FailedAt(log, call, id) && AllDecided(log, id, quota) && !Revoked(log, id)
    ensures Exhausted(log, call, id, quota)
  {
    if log.head.Attempt? && log.head.caller == Some(call) {
      StreakAtMostSuccesses(log.tail, id, log.head.month);
    } else {
      FailedLiveIsExhausted(log.tail, call, id, quota);
    }
  }

  predicate RefusalExplained(s: State, call: nat) {
    call in s.calls ==>
      match s.calls[call]
      case Reading(id, _, _) => id in s.rows
      case Refused(id, _) => id in s.rows && FailedAt(s.log, call, id)
      case Answered(id, result) =>
        result.QuotaExceeded? && AttemptsBy(s.log, call) == 1 ==>
          id in s.rows && Exhausted(s.log, call, id, Quota(s, id))
  }

  /** Over every interleaving, a call told after its attempt that the quota is exceeded found it used up. */
  lemma {:induction false} ExceededMeansExhausted(events: List<Event>, call: nat)
    ensures RefusalExplained(Run(events), call)
  {
    if events.Cons? {
      var s, e := Run(events.tail), events.head;
      ExceededMeansExhausted(events.tail, call);
      AnswersAgree(events.tail, call);
      if e == SecondRead(call) && call in s.calls && s.calls[call].Refused? {
        var id := s.calls[call].id;
        RowsMatchLog(events.tail, id, 0);
        AttemptsDecidedByLog(events.tail, id);
        if !Revoked(s.log, id) { FailedLiveIsExhausted(s.log, call, id, Quota(s, id)); }
      }
    }
  }
}
