/** The Python SDK's circuit breaker: a pruned deque of at most 100 calls per session, against the log of every recorded call. */
module PythonBreaker {
  import opened CodeUnits

  type Time = real

  const MAXLEN: nat := 100

  datatype Item = Item(at: Time, signature: Text)

  datatype Code = LOOP_DETECTED | BUDGET_EXCEEDED

  datatype Trip = Trip(at: Time, code: Code)

  datatype Config = Config(maxRepeatedCalls: int, timeWindowSeconds: Time, maxSessionCalls: int, coolOffSeconds: Time)

  datatype Status = Status(tripped: bool, code: Option<Code>, consecutiveRepeats: nat, sessionCallsCount: int)

  /** What the breaker keeps for one session; the deque is written newest call first. */
  datatype Session = Session(history: seq<Item>, total: nat, trip: Option<Trip>)

  const EMPTY := Session([], 0, None)

  /** while history and history[0][0] < cutoff: history.popleft() */
  function PopOld(d: seq<Item>, cutoff: Time): seq<Item> {
    if d != [] && d[|d| - 1].at < cutoff then PopOld(d[..|d| - 1], cutoff) else d
  }

  /** append on a deque with a maximum length: the oldest entry makes room. */
  function Append(d: seq<Item>, x: Item): seq<Item> {
    if |d| < MAXLEN then [x] + d else [x] + d[..|d| - 1]
  }

  /** Identical calls from the newest on. */
  function Repeats(d: seq<Item>, signature: Text): nat {
    if d == [] || d[0].signature != signature then 0 else 1 + Repeats(d[1..], signature)
  }

  predicate Cooling(cfg: Config, s: Session, now: Time) {
    s.trip.Some? && now - s.trip.value.at < cfg.coolOffSeconds
  }

  /** The call is recorded: neither cooling off nor over budget. */
  predicate Records(cfg: Config, s: Session, now: Time) {
    !Cooling(cfg, s, now) && s.total + 1 <= cfg.maxSessionCalls
  }

  /** check_and_record on the state of one session. */
  function Check(cfg: Config, s: Session, signature: Text, now: Time): (Session, Status) {
    if Cooling(cfg, s, now) then (s, Status(true, Some(s.trip.value.code), 0, s.total))
    else if s.total + 1 > cfg.maxSessionCalls then
      (s.(trip := Some(Trip(now, BUDGET_EXCEEDED))), Status(true, Some(BUDGET_EXCEEDED), 0, s.total + 1))
    else
      var recent := PopOld(s.history, now - cfg.timeWindowSeconds);
      var n := Repeats(recent, signature) + 1;
      var tripped := n >= cfg.maxRepeatedCalls;
      (Session(Append(recent, Item(now, signature)), s.total + 1, if tripped then Some(Trip(now, LOOP_DETECTED)) else None),
       Status(tripped, if tripped then Some(LOOP_DETECTED) else None, n, s.total + 1))
  }

  /** The breaker object: dictionaries by session, a missing key meaning the default. */
  class CircuitBreaker {
    const cfg: Config
    var history: map<Text, seq<Item>>
    var sessionTotals: map<Text, nat>
    var trippedSessions: map<Text, Trip>

    ghost function State(session: Text): Session
      reads this
    {
      Session(if session in history then history[session] else [],
              if session in sessionTotals then sessionTotals[session] else 0,
              if session in trippedSessions then Some(trippedSessions[session]) else None)
    }

    constructor (cfg: Config)
      ensures this.cfg == cfg && forall s :: State(s) == EMPTY
    {
      this.cfg := cfg;
      history, sessionTotals, trippedSessions := map[], map[], map[];
    }

    method CheckAndRecord(signature: Text, session: Text, now: Time) returns (status: Status)
      modifies this
      ensures (State(session), status) == Check(cfg, old(State(session)), signature, now)
      ensures forall s :: s != session ==> State(s) == old(State(s))
    {
      if session in trippedSessions {
        var trip := trippedSessions[session];
        if now - trip.at < cfg.coolOffSeconds {
          return Status(true, Some(trip.code), 0, if session in sessionTotals then sessionTotals[session] else 0);
        }
        trippedSessions := trippedSessions - {session};
      }
      status := CheckBudget(signature, session, now);
    }

    /** Step 2 of check_and_record: the session budget. */
    method CheckBudget(signature: Text, session: Text, now: Time) returns (status: Status)
      requires State(session).trip.None?
      modifies this
      ensures (State(session), status) == Check(cfg, old(State(session)), signature, now)
      ensures forall s :: s != session ==> State(s) == old(State(s))
    {
      var total := (if session in sessionTotals then sessionTotals[session] else 0) + 1;
      if total > cfg.maxSessionCalls {
        trippedSessions := trippedSessions[session := Trip(now, BUDGET_EXCEEDED)];
        return Status(true, Some(BUDGET_EXCEEDED), 0, total);
      }
      status := CheckRepeats(signature, session, now, total);
    }

    /** Step 3 of check_and_record: repeated calls in the window. */
    method CheckRepeats(signature: Text, session: Text, now: Time, total: nat) returns (status: Status)
      requires State(session).trip.None? && total == State(session).total + 1 && total <= cfg.maxSessionCalls
      modifies this
      ensures (State(session), status) == Check(cfg, old(State(session)), signature, now)
      ensures forall s :: s != session ==> State(s) == old(State(s))
    {
      var deque := if session in history then history[session] else [];
      deque := DropOld(deque, now - cfg.timeWindowSeconds);
      var consecutive := CountRepeats(deque, signature);
      history := history[session := Append(deque, Item(now, signature))];
      sessionTotals := sessionTotals[session := total];
      if consecutive + 1 >= cfg.maxRepeatedCalls {
        trippedSessions := trippedSessions[session := Trip(now, LOOP_DETECTED)];
        return Status(true, Some(LOOP_DETECTED), consecutive + 1, total);
      }
      status := Status(false, None, consecutive + 1, total);
    }

    /** reset(); with no session, every session. */
    method Reset(session: Option<Text>)
      modifies this
      ensures forall s :: State(s) == if session.None? || session.value == s then EMPTY else old(State(s))
    {
      match session
      case None => history, sessionTotals, trippedSessions := map[], map[], map[];
      case Some(s) => history, sessionTotals, trippedSessions := history - {s}, sessionTotals - {s}, trippedSessions - {s};
    }
  }

  /** The popleft loop. */
  method DropOld(d: seq<Item>, cutoff: Time) returns (r: seq<Item>)
    ensures r == PopOld(d, cutoff)
    ensures r <= d && (r != [] ==> r[|r| - 1].at >= cutoff)
  {
    r := d;
    while r != [] && r[|r| - 1].at < cutoff
      invariant r <= d && PopOld(r, cutoff) == PopOld(d, cutoff)
      decreases |r|
    {
      r := r[..|r| - 1];
    }
  }

  /** for _, prev_sig in reversed(history): count until the first different one. */
  method CountRepeats(d: seq<Item>, signature: Text) returns (consecutive: nat)
    ensures consecutive == Repeats(d, signature)
    ensures consecutive <= |d| && forall i :: 0 <= i < consecutive ==> d[i].signature == signature
    ensures consecutive < |d| ==> d[consecutive].signature != signature
  {
    consecutive := 0;
    assert d[0..] == d;
    while consecutive < |d| && d[consecutive].signature == signature
      invariant consecutive <= |d|
      invariant forall i :: 0 <= i < consecutive ==> d[i].signature == signature
      invariant Repeats(d, signature) == consecutive + Repeats(d[consecutive..], signature)
    {
      assert d[consecutive..][1..] == d[consecutive + 1..];
      consecutive := consecutive + 1;
    }
  }

  // ---- against the full log -----------------------------------------------------

  /** Identical calls from the newest of the full log on, no older than `cutoff`. */
  function LogRepeats(log: seq<Item>, signature: Text, cutoff: Time): nat {
    if log == [] || log[0].signature != signature || log[0].at < cutoff then 0
    else 1 + LogRepeats(log[1..], signature, cutoff)
  }

  /** One session since its last reset: its state, every recorded call (newest first), and the last clock reading. */
  datatype Trace = Trace(session: Session, log: seq<Item>, clock: Time)

  datatype Request = Request(signature: Text, now: Time)

  function Step(cfg: Config, t: Trace, r: Request): Trace {
    Trace(Check(cfg, t.session, r.signature, r.now).0,
          if Records(cfg, t.session, r.now) then [Item(r.now, r.signature)] + t.log else t.log,
          r.now)
  }

  function Start(clock: Time): Trace {
    Trace(EMPTY, [], clock)
  }

  /** Requests newest first. */
  function Run(cfg: Config, clock: Time, requests: List<Request>): Trace {
    match requests
    case Nil => Start(clock)
    case Cons(r, earlier) => Step(cfg, Run(cfg, clock, earlier), r)
  }

  predicate InOrder(cfg: Config, clock: Time, requests: List<Request>) {
    match requests
    case Nil => true
    case Cons(r, earlier) => InOrder(cfg, clock, earlier) && Run(cfg, clock, earlier).clock <= r.now
  }

  /** Times do not increase from the newest entry on. */
  predicate Ordered(log: seq<Item>, clock: Time) {
    log == [] || (log[0].at <= clock && Ordered(log[1..], log[0].at))
  }

  function MaxTotal(cfg: Config): nat {
    if cfg.maxSessionCalls > 0 then cfg.maxSessionCalls else 0
  }

  /**
   The deque is the newest end of the log; what it no longer holds is either out of
   the window or pushed out by a full deque.
   */
  ghost predicate Holds(d: seq<Item>, log: seq<Item>, cutoff: Time) {
    d <= log && |d| <= MAXLEN && (|d| < |log| && |d| < MAXLEN ==> log[|d|].at < cutoff)
  }

  ghost predicate Inv(cfg: Config, t: Trace) {
    && Holds(t.session.history, t.log, t.clock - cfg.timeWindowSeconds)
    && Ordered(t.log, t.clock)
    && |t.log| == t.session.total && t.session.total <= MaxTotal(cfg)
  }

  lemma {:induction false} OrderedAt(log: seq<Item>, clock: Time, i: nat)
    requires Ordered(log, clock) && i < |log|
    ensures log[i].at <= clock
    ensures forall j :: 0 <= j <= i ==> log[j].at >= log[i].at
  {
    if i > 0 {
      OrderedAt(log[1..], log[0].at, i - 1);
      forall j | 0 <= j <= i ensures log[j].at >= log[i].at {
        if j > 0 { assert log[j] == log[1..][j - 1]; }
      }
    }
  }

  /** Popping leaves a newest end, all of it in the window, and pops only calls out of it. */
  lemma {:induction false} PopOldHolds(d: seq<Item>, log: seq<Item>, clock: Time, earlier: Time, cutoff: Time)
    requires Holds(d, log, earlier) && Ordered(log, clock) && earlier <= cutoff
    ensures Holds(PopOld(d, cutoff), log, cutoff)
    ensures forall i :: 0 <= i < |PopOld(d, cutoff)| ==> PopOld(d, cutoff)[i].at >= cutoff
    decreases |d|
  {
    if d != [] {
      var last := |d| - 1;
      assert d[last] == log[last];
      if d[last].at < cutoff {
        var shorter := d[..last];
        assert Holds(shorter, log, cutoff);
        PopOldHolds(shorter, log, clock, cutoff, cutoff);
      } else {
        OrderedAt(log, clock, last);
      }
    }
  }

  /** Counting in a newest end of the log, all of it in the window, counts at most its length. */
  lemma {:induction false} RepeatsOfPrefix(d: seq<Item>, log: seq<Item>, signature: Text, cutoff: Time)
    requires d <= log && forall i :: 0 <= i < |d| ==> d[i].at >= cutoff
    ensures var full := LogRepeats(log, signature, cutoff);
            Repeats(d, signature) == if full <= |d| then full else |d|
    ensures |d| < |log| && log[|d|].at < cutoff ==> LogRepeats(log, signature, cutoff) <= |d|
    ensures LogRepeats(log, signature, cutoff) <= |log|
    decreases |log|
  {
    if d != [] {
      RepeatsOfPrefix(d[1..], log[1..], signature, cutoff);
    } else if log != [] {
      RepeatsOfPrefix([], log[1..], signature, cutoff);
    }
  }

  lemma HeldCountsLog(d: seq<Item>, log: seq<Item>, signature: Text, cutoff: Time)
    requires Holds(d, log, cutoff) && forall i :: 0 <= i < |d| ==> d[i].at >= cutoff
    ensures var full := LogRepeats(log, signature, cutoff);
            Repeats(d, signature) == if full <= MAXLEN then full else MAXLEN
  {
    RepeatsOfPrefix(d, log, signature, cutoff);
  }

  /** On every call, the deque counts the repeats in the full log, up to its own maximum length. */
  lemma DequeCountsLog(cfg: Config, t: Trace, r: Request)
    requires Inv(cfg, t) && t.clock <= r.now
    ensures var cutoff := r.now - cfg.timeWindowSeconds;
            var full := LogRepeats(t.log, r.signature, cutoff);
            Repeats(PopOld(t.session.history, cutoff), r.signature) == if full <= MAXLEN then full else MAXLEN
  {
    var cutoff := r.now - cfg.timeWindowSeconds;
    PopOldHolds(t.session.history, t.log, t.clock, t.clock - cfg.timeWindowSeconds, cutoff);
    HeldCountsLog(PopOld(t.session.history, cutoff), t.log, r.signature, cutoff);
  }

  lemma AppendHolds(d: seq<Item>, log: seq<Item>, x: Item, cutoff: Time)
    requires Holds(d, log, cutoff)
    ensures Holds(Append(d, x), [x] + log, cutoff)
  {
    var e, longer := Append(d, x), [x] + log;
    assert forall i :: 0 <= i < |log| ==> longer[i + 1] == log[i];
  }

  lemma HoldsLater(d: seq<Item>, log: seq<Item>, cutoff: Time, later: Time)
    requires Holds(d, log, cutoff) && cutoff <= later
    ensures Holds(d, log, later)
  {
  }

  lemma OrderedLater(log: seq<Item>, clock: Time, later: Time)
    requires Ordered(log, clock) && clock <= later
    ensures Ordered(log, later)
  {
  }

  lemma StepKeepsInv(cfg: Config, t: Trace, r: Request)
    requires Inv(cfg, t) && t.clock <= r.now
    ensures Inv(cfg, Step(cfg, t, r))
  {
    var cutoff := r.now - cfg.timeWindowSeconds;
    OrderedLater(t.log, t.clock, r.now);
    if Records(cfg, t.session, r.now) {
      var x := Item(r.now, r.signature);
      PopOldHolds(t.session.history, t.log, t.clock, t.clock - cfg.timeWindowSeconds, cutoff);
      AppendHolds(PopOld(t.session.history, cutoff), t.log, x, cutoff);
      assert ([x] + t.log)[1..] == t.log;
    } else {
      HoldsLater(t.session.history, t.log, t.clock - cfg.timeWindowSeconds, cutoff);
    }
  }

  lemma {:induction false} RunKeepsInv(cfg: Config, clock: Time, requests: List<Request>)
    requires InOrder(cfg, clock, requests)
    ensures Inv(cfg, Run(cfg, clock, requests))
  {
    if requests.Cons? {
      RunKeepsInv(cfg, clock, requests.tail);
      StepKeepsInv(cfg, Run(cfg, clock, requests.tail), requests.head);
    }
  }

  /** The verdict a breaker with the full log and no deque would give on a recorded call. */
  predicate FullVerdict(cfg: Config, t: Trace, r: Request) {
    LogRepeats(t.log, r.signature, r.now - cfg.timeWindowSeconds) + 1 >= cfg.maxRepeatedCalls
  }

  predicate Verdict(cfg: Config, t: Trace, r: Request) {
    Check(cfg, t.session, r.signature, r.now).1.tripped
  }

  /** The deque can count as far as any limit it is asked for, or the limit is out of reach of the budget and the window. */
  predicate WithinReach(cfg: Config) {
    cfg.maxRepeatedCalls <= MAXLEN + 1 || cfg.maxSessionCalls < cfg.maxRepeatedCalls || cfg.timeWindowSeconds < 0.0
  }

  lemma VerdictOfLog(cfg: Config, t: Trace, r: Request)
    requires WithinReach(cfg) && Inv(cfg, t) && t.clock <= r.now && Records(cfg, t.session, r.now)
    ensures Verdict(cfg, t, r) <==> FullVerdict(cfg, t, r)
  {
    DequeCountsLog(cfg, t, r);
    RepeatsOfPrefix([], t.log, r.signature, r.now - cfg.timeWindowSeconds);
  }

  /** On every recorded call of every run with a clock that does not run backwards, the deque trips exactly when the full log would. */
  ghost predicate DequeAgrees(cfg: Config) {
    forall clock: Time, requests: List<Request>, r: Request ::
      var t := Run(cfg, clock, requests);
      InOrder(cfg, clock, requests) && t.clock <= r.now && Records(cfg, t.session, r.now) ==> (Verdict(cfg, t, r) <==> FullVerdict(cfg, t, r))
  }

  /** Every status, in terms of the log: while cooling off, over budget, and otherwise by the repeats the deque can count. */
  lemma StatusExactly(cfg: Config, clock: Time, requests: List<Request>, r: Request)
    requires InOrder(cfg, clock, requests) && Run(cfg, clock, requests).clock <= r.now
    ensures var t := Run(cfg, clock, requests);
            var status := Check(cfg, t.session, r.signature, r.now).1;
            var repeats := LogRepeats(t.log, r.signature, r.now - cfg.timeWindowSeconds);
            var n := (if repeats <= 100 then repeats else 100) + 1;
            if t.session.trip.Some? && r.now < t.session.trip.value.at + cfg.coolOffSeconds then
              status == Status(true, Some(t.session.trip.value.code), 0, |t.log|)
            else if |t.log| >= cfg.maxSessionCalls then
              status == Status(true, Some(BUDGET_EXCEEDED), 0, |t.log| + 1)
            else
              status == Status(n >= cfg.maxRepeatedCalls, if n >= cfg.maxRepeatedCalls then Some(LOOP_DETECTED) else None, n, |t.log| + 1)
  {
    hide PopOld, Repeats, LogRepeats, Append, Holds, Ordered, Run, InOrder;
    RunKeepsInv(cfg, clock, requests);
    DequeCountsLog(cfg, Run(cfg, clock, requests), r);
  }

  function Identical(signature: Text, n: nat): List<Request> {
    if n == 0 then Nil else Cons(Request(signature, 0.0), Identical(signature, n - 1))
  }

  function Repeated(signature: Text, n: nat): seq<Item> {
    if n == 0 then [] else [Item(0.0, signature)] + Repeated(signature, n - 1)
  }

  lemma {:induction false} RepeatedRepeats(signature: Text, n: nat, cutoff: Time)
    requires cutoff <= 0.0
    ensures LogRepeats(Repeated(signature, n), signature, cutoff) == n
  {
    if n > 0 { RepeatedRepeats(signature, n - 1, cutoff); }
  }

  /** With a limit above 101, identical calls never trip the deque. */
  lemma {:induction false} IdenticalCalls(cfg: Config, signature: Text, n: nat)
    requires cfg.maxRepeatedCalls > 101 && cfg.timeWindowSeconds >= 0.0 && n <= cfg.maxSessionCalls
    ensures var t := Run(cfg, 0.0, Identical(signature, n));
            && InOrder(cfg, 0.0, Identical(signature, n)) && t.clock == 0.0
            && t.log == Repeated(signature, n) && t.session.total == n && t.session.trip.None?
  {
    if n > 0 {
      IdenticalCalls(cfg, signature, n - 1);
      var before := Run(cfg, 0.0, Identical(signature, n - 1));
      RunKeepsInv(cfg, 0.0, Identical(signature, n - 1));
      StepUntripped(cfg, before, Request(signature, 0.0));
    }
  }

  lemma StepUntripped(cfg: Config, t: Trace, r: Request)
    requires cfg.maxRepeatedCalls > 101 && Inv(cfg, t) && t.clock <= r.now
    requires t.session.trip.None? && t.session.total < cfg.maxSessionCalls
    ensures !Verdict(cfg, t, r)
    ensures var e := Step(cfg, t, r);
            e.session.trip.None? && e.session.total == t.session.total + 1 && e.log == [Item(r.now, r.signature)] + t.log && e.clock == r.now
  {
    DequeCountsLog(cfg, t, r);
  }

  /** For every limit above 101 within the session budget there is a run on which the full log trips and the deque does not. */
  lemma LargerLimitsDisagree(cfg: Config, signature: Text)
    requires cfg.maxRepeatedCalls > 101 && cfg.timeWindowSeconds >= 0.0 && cfg.maxSessionCalls >= cfg.maxRepeatedCalls
    ensures var requests := Identical(signature, cfg.maxRepeatedCalls - 1);
            var t := Run(cfg, 0.0, requests);
            var r := Request(signature, 0.0);
            && InOrder(cfg, 0.0, requests) && t.clock <= r.now && Records(cfg, t.session, r.now)
            && FullVerdict(cfg, t, r) && !Verdict(cfg, t, r)
  {
    var n := cfg.maxRepeatedCalls - 1;
    IdenticalCalls(cfg, signature, n);
    RunKeepsInv(cfg, 0.0, Identical(signature, n));
    RepeatedRepeats(signature, n, 0.0 - cfg.timeWindowSeconds);
    StepUntripped(cfg, Run(cfg, 0.0, Identical(signature, n)), Request(signature, 0.0));
  }

  /**
   The pruned 100-entry deque agrees with the full log in every run if and only if the limit is at
   most 101, or above the session budget, or the window is negative.
   */
  lemma DequeAgreesExactly(cfg: Config)
    ensures DequeAgrees(cfg) <==> WithinReach(cfg)
  {
    if WithinReach(cfg) {
      forall clock: Time, requests: List<Request>, r: Request
        | InOrder(cfg, clock, requests) && Run(cfg, clock, requests).clock <= r.now && Records(cfg, Run(cfg, clock, requests).session, r.now)
        ensures Verdict(cfg, Run(cfg, clock, requests), r) <==> FullVerdict(cfg, Run(cfg, clock, requests), r)
      {
        RunKeepsInv(cfg, clock, requests);
        VerdictOfLog(cfg, Run(cfg, clock, requests), r);
      }
    } else {
      LargerLimitsDisagree(cfg, []);
    }
  }

  /**
   So for every limit up to 101 the deque trips on exactly the recorded calls on which the full log
   would; and no session records more calls than its budget between resets.
   */
  lemma DequeAgreesWithLog(cfg: Config, clock: Time, requests: List<Request>, r: Request)
    requires cfg.maxRepeatedCalls <= 101
    requires InOrder(cfg, clock, requests) && Run(cfg, clock, requests).clock <= r.now
    ensures var t := Run(cfg, clock, requests);
            && (Records(cfg, t.session, r.now) ==> (Verdict(cfg, t, r) <==> FullVerdict(cfg, t, r)))
            && |t.log| == t.session.total <= MaxTotal(cfg)
  {
    hide Verdict, FullVerdict, Records;
    DequeAgreesExactly(cfg);
    RunKeepsInv(cfg, clock, requests);
  }
}
