/**
 The edge circuit breaker: one evaluation or reset as a step on a key/value store
 whose entries expire and whose operations may fail.
 */
module EdgeBreaker {
  import opened CodeUnits

  /** Milliseconds. */
  type Time = real

  /** Constraint values the request schema lets through are at least one second. */
  type Seconds = r: real | r >= 1.0 witness 1.0

  function Ceil(x: real): int {
    -((-x).Floor)
  }

  function MaxInt(a: int, b: int): int {
    if a > b then a else b
  }

  /** `at` is when the entry was put; it can be read strictly before `expiresAt`. */
  datatype Entry<+T> = Entry(value: T, at: Time, expiresAt: Time)

  datatype Reason = LOOP_DETECTED | BUDGET_EXCEEDED

  datatype Trip = Trip(code: Reason, trippedAt: Time)

  /** The current epoch is the time of the last reset; "0" before any. */
  type Epoch = Time

  datatype BudgetKey = BudgetKey(session: Text, epoch: Epoch)

  datatype LoopKey = LoopKey(session: Text, epoch: Epoch, signature: Text)

  datatype Store = Store(
    tripped: map<Text, Entry<Trip>>,
    epochs: map<Text, Entry<Epoch>>,
    budgets: map<BudgetKey, Entry<nat>>,
    loops: map<LoopKey, Entry<seq<Time>>>)

  /** kv.get: the value, unless it is missing or has expired. */
  function Live<K, V>(m: map<K, Entry<V>>, k: K, now: Time): Option<V> {
    if k in m && now < m[k].expiresAt then Some(m[k].value) else None
  }

  function Put<V>(v: V, now: Time, ttlSeconds: int): Entry<V> {
    Entry(v, now, now + 1000.0 * ttlSeconds as real)
  }

  /** How one storage operation ends; a failed write may or may not have happened. */
  datatype Io = Done | Failed | FailedAfterWrite

  datatype Faults = Faults(
    getTripped: Io, getEpoch: Io, getBudget: Io, getLoop: Io, putTripped: Io, putLoop: Io, putBudget: Io)

  const NO_FAULTS := Faults(Done, Done, Done, Done, Done, Done, Done)

  /** A request, reduced to what the breaker looks at; no signature when hashing its parameters throws. */
  datatype Call = Call(
    session: Text, signature: Option<Text>, now: Time,
    maxRepeats: nat, windowSeconds: Seconds, coolOffSeconds: Seconds, maxSessionActions: nat)

  datatype Outcome = Admitted | CoolingOff | Tripped(code: Reason) | StorageError

  function TripTtl(c: Call): int { MaxInt(60, Ceil(c.coolOffSeconds)) }

  function LoopTtl(c: Call): int { MaxInt(60, Ceil(c.windowSeconds * 2.0)) }

  function BudgetTtl(c: Call): int { MaxInt(3600, Ceil(c.coolOffSeconds * 2.0)) }

  /** timestamps.filter((ts) => ts >= cutoffMs). */
  function Since(ts: seq<Time>, cut: Time): seq<Time> {
    if ts == [] then []
    else if ts[0] >= cut then [ts[0]] + Since(ts[1..], cut)
    else Since(ts[1..], cut)
  }

  function GetOr<V>(o: Option<V>, d: V): V {
    match o case Some(v) => v case None => d
  }

  function CurrentEpoch(kv: Store, session: Text, now: Time): Epoch {
    GetOr(Live(kv.epochs, session, now), 0.0)
  }

  function BudgetKeyOf(kv: Store, c: Call): BudgetKey {
    BudgetKey(c.session, CurrentEpoch(kv, c.session, c.now))
  }

  function LoopKeyOf(kv: Store, c: Call): LoopKey
    requires c.signature.Some?
  {
    LoopKey(c.session, CurrentEpoch(kv, c.session, c.now), c.signature.value)
  }

  /** The recent timestamps of this call's signature, as read and pruned. */
  function Recent(kv: Store, c: Call): seq<Time>
    requires c.signature.Some?
  {
    Since(GetOr(Live(kv.loops, LoopKeyOf(kv, c), c.now), []), c.now - c.windowSeconds * 1000.0)
  }

  function Budget(kv: Store, c: Call): nat {
    GetOr(Live(kv.budgets, BudgetKeyOf(kv, c), c.now), 0)
  }

  predicate Cooling(kv: Store, c: Call) {
    match Live(kv.tripped, c.session, c.now)
    case Some(trip) => (c.now - trip.trippedAt) / 1000.0 < c.coolOffSeconds
    case None => false
  }

  /** Putting the trip record, or failing to. */
  function TripWith(kv: Store, c: Call, code: Reason, io: Io): (Store, Outcome) {
    var trip := kv.tripped[c.session := Put(Trip(code, c.now), c.now, TripTtl(c))];
    match io
    case Done => (kv.(tripped := trip), Tripped(code))
    case Failed => (kv, StorageError)
    case FailedAfterWrite => (kv.(tripped := trip), StorageError)
  }

  /** The two writes at the end of an evaluation; both are started, each may fail. */
  function Record(kv: Store, c: Call, f: Faults): (Store, Outcome)
    requires c.signature.Some?
  {
    var loops := kv.loops[LoopKeyOf(kv, c) := Put(Recent(kv, c) + [c.now], c.now, LoopTtl(c))];
    var budgets := kv.budgets[BudgetKeyOf(kv, c) := Put(Budget(kv, c) + 1, c.now, BudgetTtl(c))];
    (kv.(loops := if f.putLoop.Failed? then kv.loops else loops,
         budgets := if f.putBudget.Failed? then kv.budgets else budgets),
     if f.putLoop.Done? && f.putBudget.Done? then Admitted else StorageError)
  }

  /** The evaluation gets as far as recording the call. */
  predicate Reaches(kv: Store, c: Call, f: Faults) {
    && f.getTripped.Done? && !Cooling(kv, c)
    && f.getEpoch.Done? && f.getBudget.Done? && Budget(kv, c) < c.maxSessionActions
    && c.signature.Some? && f.getLoop.Done? && |Recent(kv, c)| < c.maxRepeats
  }

  /** evaluateEdgeCircuitBreaker. */
  function EvaluateStep(kv: Store, c: Call, f: Faults): (Store, Outcome) {
    if !f.getTripped.Done? then (kv, StorageError)
    else if Cooling(kv, c) then (kv, CoolingOff)
    else if !f.getEpoch.Done? || !f.getBudget.Done? then (kv, StorageError)
    else if Budget(kv, c) >= c.maxSessionActions then TripWith(kv, c, BUDGET_EXCEEDED, f.putTripped)
    else if c.signature.None? || !f.getLoop.Done? then (kv, StorageError)
    else if |Recent(kv, c)| >= c.maxRepeats then TripWith(kv, c, LOOP_DETECTED, f.putTripped)
    else Record(kv, c, f)
  }

  const EPOCH_TTL: int := 86400

  /** resetEdgeCircuitBreaker: both operations are started, each may fail. */
  function ResetStep(kv: Store, session: Text, now: Time, deleteTripped: Io, putEpoch: Io): Store {
    kv.(tripped := if deleteTripped.Failed? then kv.tripped else kv.tripped - {session},
        epochs := if putEpoch.Failed? then kv.epochs else kv.epochs[session := Put(now, now, EPOCH_TTL)])
  }

  /** The Worker's breaker over its namespace, statement by statement. */
  class EdgeCircuitBreaker {
    var tripped: map<Text, Entry<Trip>>
    var epochs: map<Text, Entry<Epoch>>
    var budgets: map<BudgetKey, Entry<nat>>
    var loops: map<LoopKey, Entry<seq<Time>>>

    ghost function Kv(): Store
      reads this
    {
      Store(tripped, epochs, budgets, loops)
    }

    constructor ()
      ensures Kv() == Store(map[], map[], map[], map[])
    {
      tripped, epochs, budgets, loops := map[], map[], map[], map[];
    }

    method PutTripped(c: Call, code: Reason, io: Io) returns (r: Outcome)
      modifies this
      ensures (Kv(), r) == TripWith(old(Kv()), c, code, io)
    {
      if !io.Failed? { tripped := tripped[c.session := Put(Trip(code, c.now), c.now, TripTtl(c))]; }
      r := if io.Done? then Tripped(code) else StorageError;
    }

    method Evaluate(c: Call, f: Faults) returns (r: Outcome)
      modifies this
      ensures (Kv(), r) == EvaluateStep(old(Kv()), c, f)
    {
      if !f.getTripped.Done? { return StorageError; }
      var tripData := Live(tripped, c.session, c.now);
      if tripData.Some? {
        var elapsedSec := (c.now - tripData.value.trippedAt) / 1000.0;
        if elapsedSec < c.coolOffSeconds { return CoolingOff; }
      }
      if !f.getEpoch.Done? { return StorageError; }
      var epoch := GetOr(Live(epochs, c.session, c.now), 0.0);
      var budgetKey := BudgetKey(c.session, epoch);
      if !f.getBudget.Done? { return StorageError; }
      var currentBudget := GetOr(Live(budgets, budgetKey, c.now), 0);
      if currentBudget >= c.maxSessionActions {
        r := PutTripped(c, BUDGET_EXCEEDED, f.putTripped);
        return;
      }
      if c.signature.None? { return StorageError; }
      var loopKey := LoopKey(c.session, epoch, c.signature.value);
      if !f.getLoop.Done? { return StorageError; }
      var timestamps := Since(GetOr(Live(loops, loopKey, c.now), []), c.now - c.windowSeconds * 1000.0);
      if |timestamps| >= c.maxRepeats {
        r := PutTripped(c, LOOP_DETECTED, f.putTripped);
        return;
      }
      timestamps := timestamps + [c.now];
      if !f.putLoop.Failed? { loops := loops[loopKey := Put(timestamps, c.now, LoopTtl(c))]; }
      if !f.putBudget.Failed? { budgets := budgets[budgetKey := Put(currentBudget + 1, c.now, BudgetTtl(c))]; }
      r := if f.putLoop.Done? && f.putBudget.Done? then Admitted else StorageError;
    }

    method Reset(session: Text, now: Time, deleteTripped: Io, putEpoch: Io)
      modifies this
      ensures Kv() == ResetStep(old(Kv()), session, now, deleteTripped, putEpoch)
    {
      if !deleteTripped.Failed? { tripped := tripped - {session}; }
      if !putEpoch.Failed? { epochs := epochs[session := Put(now, now, EPOCH_TTL)]; }
    }
  }
}
