/** Whole runs of the edge circuit breaker: calls and resets, with expiry and arbitrary storage failures. */
module EdgeBreakerRuns {
  import opened CodeUnits
  import opened EdgeBreaker

  datatype Event =
    | CallEvent(call: Call, faults: Faults)
    | ResetEvent(session: Text, at: Time, deleteTripped: Io, putEpoch: Io)
  {
    function Now(): Time {
      match this
      case CallEvent(c, _) => c.now
      case ResetEvent(_, at, _, _) => at
    }
  }

  /** A call that got as far as being recorded: where, with which limits, and which writes happened. */
  datatype Attempt = Attempt(loop: LoopKey, budget: BudgetKey, call: Call, loopPut: bool, budgetPut: bool, admitted: bool)

  /** The store, every attempt so far (newest first), and the time of the last event. */
  datatype State = State(kv: Store, log: List<Attempt>, clock: Time)

  const START := State(Store(map[], map[], map[], map[]), Nil, 0.0)

  function AttemptOf(kv: Store, c: Call, f: Faults): Attempt
    requires c.signature.Some?
  {
    Attempt(LoopKeyOf(kv, c), BudgetKeyOf(kv, c), c, !f.putLoop.Failed?, !f.putBudget.Failed?, f.putLoop.Done? && f.putBudget.Done?)
  }

  function Step(st: State, e: Event): State {
    match e
    case CallEvent(c, f) =>
      State(EvaluateStep(st.kv, c, f).0,
            if Reaches(st.kv, c, f) then Cons(AttemptOf(st.kv, c, f), st.log) else st.log,
            c.now)
    case ResetEvent(session, at, d, p) => State(ResetStep(st.kv, session, at, d, p), st.log, at)
  }

  function Run(events: List<Event>): State {
    match events
    case Nil => START
    case Cons(e, earlier) => Step(Run(earlier), e)
  }

  /** Events newest first, on a clock that never runs backwards. */
  predicate InOrder(events: List<Event>) {
    match events
    case Nil => true
    case Cons(e, earlier) => InOrder(earlier) && Run(earlier).clock <= e.Now()
  }

  // ---- what the log says -----------------------------------------------------

  /** Recorded calls of a signature at or after `cut`. */
  function CountSince(log: List<Attempt>, k: LoopKey, cut: Time): nat {
    match log
    case Nil => 0
    case Cons(a, older) => CountSince(older, k, cut) + if a.loopPut && a.loop == k && a.call.now >= cut then 1 else 0
  }

  /** The newest counted call of an epoch of a session. */
  function LastCounted(log: List<Attempt>, k: BudgetKey): Option<Attempt> {
    match log
    case Nil => None
    case Cons(a, older) => if a.budgetPut && a.budget == k then Some(a) else LastCounted(older, k)
  }

  function BudgetExpiry(a: Attempt): Time {
    a.call.now + 1000.0 * BudgetTtl(a.call) as real
  }

  /** Length of the newest unbroken chain of counted calls, each before the budget of the one before it expired. */
  function Chain(log: List<Attempt>, k: BudgetKey): nat {
    match log
    case Nil => 0
    case Cons(a, older) =>
      if !(a.budgetPut && a.budget == k) then Chain(older, k)
      else if LastCounted(older, k).Some? && a.call.now < BudgetExpiry(LastCounted(older, k).value) then Chain(older, k) + 1
      else 1
  }

  predicate NotAfter(log: List<Attempt>, t: Time) {
    match log
    case Nil => true
    case Cons(a, older) => a.call.now <= t && NotAfter(older, a.call.now)
  }

  // ---- the store, replayed from the log ----------------------------------------

  function Window(c: Call): Time { c.windowSeconds * 1000.0 }

  function LoopExpiry(a: Attempt): Time {
    a.call.now + 1000.0 * LoopTtl(a.call) as real
  }

  predicate Recorded(a: Attempt, k: LoopKey) {
    a.loopPut && a.loop == k
  }

  /** The timestamps a reader at `now` finds: each recorded call pruned what it read and added itself. */
  function TimesAt(log: List<Attempt>, k: LoopKey, now: Time): seq<Time> {
    match log
    case Nil => []
    case Cons(a, older) =>
      if !Recorded(a, k) then TimesAt(older, k, now)
      else if now < LoopExpiry(a) then Since(TimesAt(older, k, a.call.now), a.call.now - Window(a.call)) + [a.call.now]
      else []
  }

  function LiveTimes(kv: Store, k: LoopKey, now: Time): seq<Time> {
    GetOr(Live(kv.loops, k, now), [])
  }

  function MaxTime(a: Time, b: Time): Time { if a > b then a else b }

  /** How many calls at or after `cut` that reader still finds. */
  function Held(log: List<Attempt>, k: LoopKey, now: Time, cut: Time): nat {
    match log
    case Nil => 0
    case Cons(a, older) =>
      if !Recorded(a, k) then Held(older, k, now, cut)
      else if now < LoopExpiry(a) then
        Held(older, k, a.call.now, MaxTime(cut, a.call.now - Window(a.call))) + if a.call.now >= cut then 1 else 0
      else 0
  }

  function CountTimes(ts: seq<Time>, cut: Time): nat {
    if ts == [] then 0 else (if ts[0] >= cut then 1 else 0) + CountTimes(ts[1..], cut)
  }

  lemma {:induction false} SinceCounts(ts: seq<Time>, cut: Time)
    ensures |Since(ts, cut)| == CountTimes(ts, cut)
  {
    if ts != [] { SinceCounts(ts[1..], cut); }
  }

  lemma {:induction false} SinceThenCount(ts: seq<Time>, since: Time, cut: Time)
    ensures CountTimes(Since(ts, since), cut) == CountTimes(ts, MaxTime(cut, since))
  {
    if ts != [] { SinceThenCount(ts[1..], since, cut); }
  }

  lemma {:induction false} CountAppend(ts: seq<Time>, t: Time, cut: Time)
    ensures CountTimes(ts + [t], cut) == CountTimes(ts, cut) + if t >= cut then 1 else 0
  {
    if ts == [] {
      assert ts + [t] == [t];
    } else {
      CountAppend(ts[1..], t, cut);
      assert (ts + [t])[1..] == ts[1..] + [t];
    }
  }

  lemma {:induction false} HeldCountsTimes(log: List<Attempt>, k: LoopKey, now: Time, cut: Time)
    ensures CountTimes(TimesAt(log, k, now), cut) == Held(log, k, now, cut)
  {
    if log.Cons? {
      var a := log.head;
      if Recorded(a, k) {
        var since := a.call.now - Window(a.call);
        HeldCountsTimes(log.tail, k, a.call.now, MaxTime(cut, since));
        SinceThenCount(TimesAt(log.tail, k, a.call.now), since, cut);
        CountAppend(Since(TimesAt(log.tail, k, a.call.now), since), a.call.now, cut);
      } else {
        HeldCountsTimes(log.tail, k, now, cut);
      }
    }
  }

  /** In every state of every run, in order or not, the stored history is the replayed one. */
  lemma {:induction false} StoredHistoryIsReplayed(events: List<Event>, k: LoopKey, now: Time)
    ensures LiveTimes(Run(events).kv, k, now) == TimesAt(Run(events).log, k, now)
  {
    if events.Cons? {
      var st, e := Run(events.tail), events.head;
      StoredHistoryIsReplayed(events.tail, k, now);
      if e.CallEvent? && Reaches(st.kv, e.call, e.faults) {
        StoredHistoryIsReplayed(events.tail, k, e.call.now);
        AttemptReplays(st, e.call, e.faults, k, now);
      }
    }
  }

  lemma AttemptReplays(st: State, c: Call, f: Faults, k: LoopKey, now: Time)
    requires Reaches(st.kv, c, f)
    requires LiveTimes(st.kv, k, now) == TimesAt(st.log, k, now) && LiveTimes(st.kv, k, c.now) == TimesAt(st.log, k, c.now)
    ensures var next := Step(st, CallEvent(c, f)); LiveTimes(next.kv, k, now) == TimesAt(next.log, k, now)
  {
  }

  // ---- when pruning and expiry lose nothing ---------------------------------------

  /** No recorded call of the signature from `from` up to, but not at, `to`. */
  predicate NoneBetween(log: List<Attempt>, k: LoopKey, from: Time, to: Time) {
    match log
    case Nil => true
    case Cons(a, older) => NoneBetween(older, k, from, to) && !(Recorded(a, k) && from <= a.call.now < to)
  }

  /**
   Nothing at or after `cut` has been lost to a reader at `now`: the newest recorded
   call has not expired, no call in question was older than the window it pruned by,
   and nothing had been lost to it either.
   */
  predicate Kept(log: List<Attempt>, k: LoopKey, now: Time, cut: Time) {
    match log
    case Nil => true
    case Cons(a, older) =>
      if !Recorded(a, k) then Kept(older, k, now, cut)
      else a.call.now >= cut ==>
        && now < LoopExpiry(a)
        && NoneBetween(older, k, cut, a.call.now - Window(a.call))
        && Kept(older, k, a.call.now, MaxTime(cut, a.call.now - Window(a.call)))
  }

  lemma {:induction false} NothingAfter(log: List<Attempt>, k: LoopKey, t: Time, cut: Time)
    requires NotAfter(log, t) && t < cut
    ensures CountSince(log, k, cut) == 0
  {
    if log.Cons? { NothingAfter(log.tail, k, log.head.call.now, cut); }
  }

  lemma {:induction false} LaterCutCountsLess(log: List<Attempt>, k: LoopKey, from: Time, to: Time)
    ensures CountSince(log, k, MaxTime(from, to)) <= CountSince(log, k, from)
    ensures CountSince(log, k, MaxTime(from, to)) == CountSince(log, k, from) <==> NoneBetween(log, k, from, to)
  {
    if log.Cons? { LaterCutCountsLess(log.tail, k, from, to); }
  }

  /** A reader never finds more calls than were recorded, and finds them all exactly when nothing was lost. */
  lemma {:induction false} HeldExactly(log: List<Attempt>, k: LoopKey, now: Time, cut: Time, t: Time)
    requires NotAfter(log, t)
    ensures Held(log, k, now, cut) <= CountSince(log, k, cut)
    ensures Held(log, k, now, cut) == CountSince(log, k, cut) <==> Kept(log, k, now, cut)
  {
    if log.Cons? {
      var a := log.head;
      if Recorded(a, k) {
        var since := a.call.now - Window(a.call);
        HeldExactly(log.tail, k, a.call.now, MaxTime(cut, since), a.call.now);
        LaterCutCountsLess(log.tail, k, cut, since);
        if a.call.now < cut { NothingAfter(log.tail, k, a.call.now, cut); }
      } else {
        HeldExactly(log.tail, k, now, cut, a.call.now);
      }
    }
  }

  /** Every recorded call of the signature looked back at least `span` milliseconds. */
  predicate LooksBack(log: List<Attempt>, k: LoopKey, span: Time) {
    match log
    case Nil => true
    case Cons(a, older) => LooksBack(older, k, span) && (Recorded(a, k) ==> Window(a.call) >= span)
  }

  lemma {:induction false} LooksBackLess(log: List<Attempt>, k: LoopKey, span: Time, less: Time)
    requires LooksBack(log, k, span) && less <= span
    ensures LooksBack(log, k, less)
  {
    if log.Cons? { LooksBackLess(log.tail, k, span, less); }
  }

  lemma LoopTtlCoversWindow(c: Call)
    ensures 1000.0 * LoopTtl(c) as real >= 2.0 * Window(c) >= 2000.0
  {
  }

  lemma {:induction false} NoneInNothing(log: List<Attempt>, k: LoopKey, from: Time, to: Time)
    requires to <= from
    ensures NoneBetween(log, k, from, to)
  {
    if log.Cons? { NoneInNothing(log.tail, k, from, to); }
  }

  /** If every recorded call looked back as far as the reader does, nothing is lost. */
  lemma {:induction false} LookingBackKeeps(log: List<Attempt>, k: LoopKey, now: Time, cut: Time, t: Time)
    requires NotAfter(log, t) && t <= now && LooksBack(log, k, now - cut)
    ensures Kept(log, k, now, cut)
  {
    if log.Cons? {
      var a := log.head;
      if !Recorded(a, k) {
        LookingBackKeeps(log.tail, k, now, cut, a.call.now);
      } else if a.call.now >= cut {
        LoopTtlCoversWindow(a.call);
        NoneInNothing(log.tail, k, cut, a.call.now - Window(a.call));
        LooksBackLess(log.tail, k, now - cut, a.call.now - cut);
        LookingBackKeeps(log.tail, k, a.call.now, cut, a.call.now);
      }
    }
  }

  // ---- what holds in every state ----------------------------------------------------

  /** The stored budget is the length of the newest chain, and expires when the chain does. */
  ghost predicate BudgetCounts(st: State, k: BudgetKey) {
    match LastCounted(st.log, k)
    case None => k !in st.kv.budgets
    case Some(a) => k in st.kv.budgets && st.kv.budgets[k] == Entry(Chain(st.log, k), a.call.now, BudgetExpiry(a))
  }

  /** What holds of every attempt at the moment it is logged. */
  predicate Justified(a: Attempt, older: List<Attempt>) {
    && (a.admitted ==> a.loopPut && a.budgetPut)
    && (a.admitted ==> Chain(Cons(a, older), a.budget) <= a.call.maxSessionActions)
    && (a.admitted ==> Held(older, a.loop, a.call.now, a.call.now - Window(a.call)) < a.call.maxRepeats)
  }

  predicate AllJustified(log: List<Attempt>) {
    match log
    case Nil => true
    case Cons(a, older) => Justified(a, older) && AllJustified(older)
  }

  lemma LaterIsNotAfter(log: List<Attempt>, t: Time, later: Time)
    requires NotAfter(log, t) && t <= later
    ensures NotAfter(log, later)
  {
  }

  lemma {:induction false} RunIsNotAfter(events: List<Event>)
    requires InOrder(events)
    ensures NotAfter(Run(events).log, Run(events).clock)
  {
    if events.Cons? {
      RunIsNotAfter(events.tail);
      LaterIsNotAfter(Run(events.tail).log, Run(events.tail).clock, events.head.Now());
    }
  }

  lemma StepKeepsBudget(st: State, e: Event, k: BudgetKey)
    requires BudgetCounts(st, k)
    requires e.CallEvent? && e.call.signature.Some? && BudgetKeyOf(st.kv, e.call) != k ==> BudgetCounts(st, BudgetKeyOf(st.kv, e.call))
    ensures BudgetCounts(Step(st, e), k)
  {
  }

  lemma {:induction false} RunKeepsBudget(events: List<Event>, k: BudgetKey)
    ensures BudgetCounts(Run(events), k)
  {
    if events.Cons? {
      RunKeepsBudget(events.tail, k);
      if events.head.CallEvent? { RunKeepsBudget(events.tail, BudgetKeyOf(Run(events.tail).kv, events.head.call)); }
      StepKeepsBudget(Run(events.tail), events.head, k);
    }
  }

  lemma AttemptJustified(events: List<Event>, c: Call, f: Faults)
    requires Reaches(Run(events).kv, c, f)
    ensures Justified(AttemptOf(Run(events).kv, c, f), Run(events).log)
  {
    var st := Run(events);
    var k, cut := LoopKeyOf(st.kv, c), c.now - Window(c);
    RunKeepsBudget(events, BudgetKeyOf(st.kv, c));
    StoredHistoryIsReplayed(events, k, c.now);
    SinceCounts(LiveTimes(st.kv, k, c.now), cut);
    HeldCountsTimes(st.log, k, c.now, cut);
  }

  lemma {:induction false} RunIsJustified(events: List<Event>)
    ensures AllJustified(Run(events).log)
  {
    if events.Cons? {
      RunIsJustified(events.tail);
      var e := events.head;
      if e.CallEvent? && Reaches(Run(events.tail).kv, e.call, e.faults) { AttemptJustified(events.tail, e.call, e.faults); }
    }
  }

  // ---- the store agrees with the full log, exactly when -------------------------------

  /** The pruned, expiring history holds exactly the logged calls of the window if and only if nothing was lost. */
  lemma HistoryAgreesExactly(events: List<Event>, c: Call)
    requires InOrder(events) && c.signature.Some?
    ensures var st := Run(events);
            var k, cut := LoopKeyOf(st.kv, c), c.now - Window(c);
            && |Recent(st.kv, c)| <= CountSince(st.log, k, cut)
            && (|Recent(st.kv, c)| == CountSince(st.log, k, cut) <==> Kept(st.log, k, c.now, cut))
  {
    var st := Run(events);
    var k, cut := LoopKeyOf(st.kv, c), c.now - Window(c);
    StoredHistoryIsReplayed(events, k, c.now);
    SinceCounts(LiveTimes(st.kv, k, c.now), cut);
    HeldCountsTimes(st.log, k, c.now, cut);
    RunIsNotAfter(events);
    HeldExactly(st.log, k, c.now, cut, st.clock);
  }

  /** In particular if no recorded call of the signature looked back less far. */
  lemma HistoryAgreesWithLog(events: List<Event>, c: Call)
    requires InOrder(events) && Run(events).clock <= c.now && c.signature.Some?
    requires LooksBack(Run(events).log, LoopKeyOf(Run(events).kv, c), Window(c))
    ensures |Recent(Run(events).kv, c)| == CountSince(Run(events).log, LoopKeyOf(Run(events).kv, c), c.now - Window(c))
  {
    hide Recent, Kept, CountSince, LooksBack;
    RunIsNotAfter(events);
    LookingBackKeeps(Run(events).log, LoopKeyOf(Run(events).kv, c), c.now, c.now - Window(c), Run(events).clock);
    HistoryAgreesExactly(events, c);
  }

  /** So a call is stopped as a loop at every limit at which the full log stops it, if and only if nothing was lost. */
  lemma LoopVerdictsAgreeExactly(events: List<Event>, c: Call)
    requires InOrder(events) && c.signature.Some?
    requires !Cooling(Run(events).kv, c) && Budget(Run(events).kv, c) < c.maxSessionActions
    ensures var st := Run(events);
            var k, cut := LoopKeyOf(st.kv, c), c.now - Window(c);
            Kept(st.log, k, c.now, cut) <==>
              forall limit: nat :: EvaluateStep(st.kv, c.(maxRepeats := limit), NO_FAULTS).1 == Tripped(LOOP_DETECTED)
                                   <==> CountSince(st.log, k, cut) >= limit
  {
    hide EvaluateStep, Recent, Kept, CountSince;
    HistoryAgreesExactly(events, c);
    var st := Run(events);
    var k, cut := LoopKeyOf(st.kv, c), c.now - Window(c);
    forall limit: nat
      ensures EvaluateStep(st.kv, c.(maxRepeats := limit), NO_FAULTS).1 == Tripped(LOOP_DETECTED) <==> |Recent(st.kv, c)| >= limit
    {
      LoopVerdict(st.kv, c, limit);
    }
    LoopVerdict(st.kv, c, CountSince(st.log, k, cut));
  }

  lemma LoopVerdict(kv: Store, c: Call, limit: nat)
    requires c.signature.Some? && !Cooling(kv, c) && Budget(kv, c) < c.maxSessionActions
    ensures EvaluateStep(kv, c.(maxRepeats := limit), NO_FAULTS).1 == Tripped(LOOP_DETECTED) <==> |Recent(kv, c)| >= limit
  {
    var d := c.(maxRepeats := limit);
    assert !Cooling(kv, d) && Budget(kv, d) == Budget(kv, c) && Recent(kv, d) == Recent(kv, c);
  }

  /** The chain of counted calls that a reader at `now` finds unbroken. */
  function ChainAt(log: List<Attempt>, k: BudgetKey, now: Time): nat {
    match LastCounted(log, k)
    case None => 0
    case Some(a) => if now < BudgetExpiry(a) then Chain(log, k) else 0
  }

  /** The stored budget is always exactly the unbroken chain of counted calls, whatever limits and lifetimes they carried. */
  lemma BudgetAgreesWithLog(events: List<Event>, c: Call)
    ensures Budget(Run(events).kv, c) == ChainAt(Run(events).log, BudgetKeyOf(Run(events).kv, c), c.now)
  {
    RunKeepsBudget(events, BudgetKeyOf(Run(events).kv, c));
  }

  // ---- windows and budgets over whole runs -------------------------------------------

  /** The log loses no admitted call: an evaluation admits exactly when it logs an admitted attempt. */
  lemma AdmittedIffLogged(st: State, c: Call, f: Faults)
    ensures EvaluateStep(st.kv, c, f).1 == Admitted <==>
            Reaches(st.kv, c, f) && Step(st, CallEvent(c, f)).log.head.admitted
    ensures !Reaches(st.kv, c, f) ==> Step(st, CallEvent(c, f)).log == st.log
  {
  }

  predicate Within(part: List<Attempt>, log: List<Attempt>) {
    part == log || (log.Cons? && Within(part, log.tail))
  }

  lemma {:induction false} JustifiedWithin(log: List<Attempt>, a: Attempt, older: List<Attempt>, t: Time)
    requires AllJustified(log) && NotAfter(log, t) && Within(Cons(a, older), log)
    ensures Justified(a, older) && NotAfter(older, a.call.now)
  {
    if Cons(a, older) != log { JustifiedWithin(log.tail, a, older, log.head.call.now); }
  }

  /**
   Whatever limits the calls of a run carried, an admitted call leaves at most its own
   `maxRepeats` recorded calls of its signature in its own window, unless some of them had been
   lost; and a chain of counted calls no longer than its own `maxSessionActions`.
   */
  lemma AdmittedWithinOwnLimits(events: List<Event>, a: Attempt, older: List<Attempt>)
    requires InOrder(events) && Within(Cons(a, older), Run(events).log) && a.admitted
    ensures var cut := a.call.now - Window(a.call);
            Kept(older, a.loop, a.call.now, cut) ==> CountSince(Cons(a, older), a.loop, cut) <= a.call.maxRepeats
    ensures Chain(Cons(a, older), a.budget) <= a.call.maxSessionActions
  {
    RunIsJustified(events);
    RunIsNotAfter(events);
    JustifiedWithin(Run(events).log, a, older, Run(events).clock);
    HeldExactly(older, a.loop, a.call.now, a.call.now - Window(a.call), a.call.now);
  }

  /** An admitted call of a signature in the closed window from `from` to `to`. */
  predicate AdmittedIn(a: Attempt, k: LoopKey, from: Time, to: Time) {
    a.admitted && a.loop == k && from <= a.call.now <= to
  }

  function AdmittedBetween(log: List<Attempt>, k: LoopKey, from: Time, to: Time): nat {
    match log
    case Nil => 0
    case Cons(a, older) => AdmittedBetween(older, k, from, to) + if AdmittedIn(a, k, from, to) then 1 else 0
  }

  /** The limit of the newest admitted call in the window; none are needed if there is none. */
  function NewestLimit(log: List<Attempt>, k: LoopKey, from: Time, to: Time): nat {
    match log
    case Nil => 0
    case Cons(a, older) => if AdmittedIn(a, k, from, to) then a.call.maxRepeats else NewestLimit(older, k, from, to)
  }

  /** The newest admitted call in the window looked back that far, and nothing that recent had been lost to it. */
  predicate NewestSees(log: List<Attempt>, k: LoopKey, from: Time, to: Time) {
    match log
    case Nil => true
    case Cons(a, older) =>
      if AdmittedIn(a, k, from, to)
      then Window(a.call) >= to - from && Kept(older, k, a.call.now, a.call.now - (to - from))
      else NewestSees(older, k, from, to)
  }

  lemma {:induction false} BetweenIsSince(log: List<Attempt>, k: LoopKey, from: Time, to: Time, cut: Time)
    requires AllJustified(log) && cut <= from
    ensures AdmittedBetween(log, k, from, to) <= CountSince(log, k, cut)
  {
    if log.Cons? { BetweenIsSince(log.tail, k, from, to, cut); }
  }

  lemma {:induction false} EarlierCutHoldsMore(log: List<Attempt>, k: LoopKey, now: Time, cut: Time, later: Time)
    requires cut <= later
    ensures Held(log, k, now, later) <= Held(log, k, now, cut)
  {
    if log.Cons? {
      var a := log.head;
      if Recorded(a, k) {
        var since := a.call.now - Window(a.call);
        EarlierCutHoldsMore(log.tail, k, a.call.now, MaxTime(cut, since), MaxTime(later, since));
      } else {
        EarlierCutHoldsMore(log.tail, k, now, cut, later);
      }
    }
  }

  lemma {:induction false} WindowWithinNewestLimit(log: List<Attempt>, k: LoopKey, from: Time, to: Time, t: Time)
    requires AllJustified(log) && NotAfter(log, t) && from <= to && NewestSees(log, k, from, to)
    ensures AdmittedBetween(log, k, from, to) <= NewestLimit(log, k, from, to)
  {
    if log.Cons? {
      var a := log.head;
      if AdmittedIn(a, k, from, to) {
        var cut := a.call.now - (to - from);
        EarlierCutHoldsMore(log.tail, k, a.call.now, a.call.now - Window(a.call), cut);
        HeldExactly(log.tail, k, a.call.now, cut, a.call.now);
        BetweenIsSince(log.tail, k, from, to, cut);
      } else {
        WindowWithinNewestLimit(log.tail, k, from, to, a.call.now);
      }
    }
  }

  /**
   Loop detection over every run, with expiry, resets, storage failures and any mix of limits:
   a closed window within one epoch holds at most as many admitted calls of a signature as the
   newest of them allows, if that one looked back far enough and nothing had been lost to it.
   */
  lemma SlidingWindow(events: List<Event>, k: LoopKey, from: Time, to: Time)
    requires InOrder(events) && from <= to && NewestSees(Run(events).log, k, from, to)
    ensures AdmittedBetween(Run(events).log, k, from, to) <= NewestLimit(Run(events).log, k, from, to)
  {
    RunIsJustified(events);
    RunIsNotAfter(events);
    WindowWithinNewestLimit(Run(events).log, k, from, to, Run(events).clock);
  }

  lemma {:induction false} LookingBackSees(log: List<Attempt>, k: LoopKey, from: Time, to: Time, t: Time)
    requires AllJustified(log) && NotAfter(log, t) && from <= to && LooksBack(log, k, to - from)
    ensures NewestSees(log, k, from, to)
  {
    if log.Cons? {
      var a := log.head;
      if AdmittedIn(a, k, from, to) {
        LookingBackKeeps(log.tail, k, a.call.now, a.call.now - (to - from), a.call.now);
      } else {
        LookingBackSees(log.tail, k, from, to, a.call.now);
      }
    }
  }

  /** That is so for every window no longer than the narrowest recorded one, and one second is always such. */
  lemma NarrowestWindow(events: List<Event>, k: LoopKey, from: Time, to: Time)
    requires InOrder(events) && from <= to && (LooksBack(Run(events).log, k, to - from) || to - from <= 1000.0)
    ensures AdmittedBetween(Run(events).log, k, from, to) <= NewestLimit(Run(events).log, k, from, to)
  {
    RunIsJustified(events);
    RunIsNotAfter(events);
    if to - from <= 1000.0 { AllLookBackASecond(Run(events).log, k, to - from); }
    LookingBackSees(Run(events).log, k, from, to, Run(events).clock);
    SlidingWindow(events, k, from, to);
  }

  lemma {:induction false} AllLookBackASecond(log: List<Attempt>, k: LoopKey, span: Time)
    requires span <= 1000.0
    ensures LooksBack(log, k, span)
  {
    if log.Cons? { AllLookBackASecond(log.tail, k, span); }
  }

  predicate UniformLoop(log: List<Attempt>, k: LoopKey, windowSeconds: Seconds, maxRepeats: nat) {
    match log
    case Nil => true
    case Cons(a, older) =>
      UniformLoop(older, k, windowSeconds, maxRepeats) &&
      (a.loop == k ==> a.call.windowSeconds == windowSeconds && a.call.maxRepeats <= maxRepeats)
  }

  lemma {:induction false} UniformLooksBack(log: List<Attempt>, k: LoopKey, from: Time, to: Time, windowSeconds: Seconds, maxRepeats: nat)
    requires UniformLoop(log, k, windowSeconds, maxRepeats)
    ensures LooksBack(log, k, windowSeconds * 1000.0) && NewestLimit(log, k, from, to) <= maxRepeats
  {
    if log.Cons? { UniformLooksBack(log.tail, k, from, to, windowSeconds, maxRepeats); }
  }

  /** With one window and limit for a signature, any closed window of that length holds at most `maxRepeats` admitted calls. */
  lemma UniformSlidingWindow(events: List<Event>, k: LoopKey, from: Time, windowSeconds: Seconds, maxRepeats: nat)
    requires InOrder(events) && UniformLoop(Run(events).log, k, windowSeconds, maxRepeats)
    ensures AdmittedBetween(Run(events).log, k, from, from + windowSeconds * 1000.0) <= maxRepeats
  {
    UniformLooksBack(Run(events).log, k, from, from + windowSeconds * 1000.0, windowSeconds, maxRepeats);
    NarrowestWindow(events, k, from, from + windowSeconds * 1000.0);
  }

  function CallOf(session: Text, now: Time, windowSeconds: Seconds): Call {
    Call(session, Some([]), now, 2, windowSeconds, 60.0, 100)
  }

  /** A narrower window in between prunes the history: three calls pass where two are allowed. */
  lemma NarrowerWindowForgets(session: Text)
    ensures var e := Cons(CallEvent(CallOf(session, 20_000.0, 60.0), NO_FAULTS),
                     Cons(CallEvent(CallOf(session, 10_000.0, 1.0), NO_FAULTS),
                     Cons(CallEvent(CallOf(session, 0.0, 60.0), NO_FAULTS), Nil)));
            InOrder(e) && AdmittedBetween(Run(e).log, LoopKey(session, 0.0, []), 0.0, 60_000.0) == 3
  {
    var c0, c1, c2 := CallOf(session, 0.0, 60.0), CallOf(session, 10_000.0, 1.0), CallOf(session, 20_000.0, 60.0);
    var e0 := Cons(CallEvent(c0, NO_FAULTS), Nil);
    var e1 := Cons(CallEvent(c1, NO_FAULTS), e0);
    var e2 := Cons(CallEvent(c2, NO_FAULTS), e1);
    var k, b := LoopKey(session, 0.0, []), BudgetKey(session, 0.0);
    assert Run(Nil) == START && Run(e0) == Step(START, e0.head);
    assert Run(e1) == Step(Run(e0), e1.head) && Run(e2) == Step(Run(e1), e2.head);
    assert Since([], -60_000.0) == [];
    assert Reaches(START.kv, c0, NO_FAULTS);
    assert Run(e0).kv.loops[k].value == [0.0] && Run(e0).kv.budgets[b].value == 1;
    assert AdmittedBetween(Run(e0).log, k, 0.0, 60_000.0) == 1;
    assert Since([0.0], 9_000.0) == [];
    assert Run(e1).kv.loops[k].value == [10_000.0] && Run(e1).kv.budgets[b].value == 2;
    assert AdmittedBetween(Run(e1).log, k, 0.0, 60_000.0) == 2;
    assert Since([10_000.0], -40_000.0) == [10_000.0];
    assert InOrder(Nil) && Run(Nil).clock == 0.0 && e0.head.Now() == 0.0;
    assert InOrder(e0) && Run(e0).clock == 0.0;
    assert InOrder(e1) && Run(e1).clock == 10_000.0;
    assert InOrder(e2);
    assert Run(e2).log == Cons(AttemptOf(Run(e1).kv, c2, NO_FAULTS), Run(e1).log);
  }

  /** The newest admitted call of an epoch of a session. */
  function LastAdmitted(log: List<Attempt>, k: BudgetKey): Option<Attempt> {
    match log
    case Nil => None
    case Cons(a, older) => if a.admitted && a.budget == k then Some(a) else LastAdmitted(older, k)
  }

  /** Length of the newest chain of admitted calls, each less than `ttl` seconds after the one before. */
  function AdmittedChain(log: List<Attempt>, k: BudgetKey, ttl: int): nat {
    match log
    case Nil => 0
    case Cons(a, older) =>
      if !(a.admitted && a.budget == k) then AdmittedChain(older, k, ttl)
      else if LastAdmitted(older, k).Some? && a.call.now < LastAdmitted(older, k).value.call.now + 1000.0 * ttl as real
      then AdmittedChain(older, k, ttl) + 1
      else 1
  }

  /** Every counted call of the epoch leaves a budget that lives at least `ttl` seconds. */
  predicate LivesAtLeast(log: List<Attempt>, k: BudgetKey, ttl: int) {
    match log
    case Nil => true
    case Cons(a, older) => LivesAtLeast(older, k, ttl) && (a.budgetPut && a.budget == k ==> BudgetTtl(a.call) >= ttl)
  }

  lemma {:induction false} AdmittedChainIsCounted(log: List<Attempt>, k: BudgetKey, ttl: int, clock: Time)
    requires AllJustified(log) && NotAfter(log, clock) && LivesAtLeast(log, k, ttl)
    ensures LastAdmitted(log, k).None? ==> AdmittedChain(log, k, ttl) == 0
    ensures LastAdmitted(log, k).Some? ==>
              && AdmittedChain(log, k, ttl) <= LastAdmitted(log, k).value.call.maxSessionActions
              && LastCounted(log, k).Some? && LastAdmitted(log, k).value.call.now <= LastCounted(log, k).value.call.now <= clock
    ensures LastCounted(log, k).Some? ==> BudgetTtl(LastCounted(log, k).value.call) >= ttl
    ensures AdmittedChain(log, k, ttl) <= Chain(log, k) ||
            (LastCounted(log, k).Some? && LastAdmitted(log, k).Some? &&
             LastAdmitted(log, k).value.call.now + 1000.0 * ttl as real <= LastCounted(log, k).value.call.now)
  {
    if log.Cons? {
      AdmittedChainIsCounted(log.tail, k, ttl, log.head.call.now);
    }
  }

  lemma {:induction false} AllLiveAnHour(log: List<Attempt>, k: BudgetKey, ttl: int)
    requires ttl <= 3600
    ensures LivesAtLeast(log, k, ttl)
  {
    if log.Cons? { AllLiveAnHour(log.tail, k, ttl); }
  }

  /**
   Session budgets over every run and any mix of limits: within one epoch, a chain of admitted calls
   each less than `ttl` apart has at most as many members as the newest of them allows, if no budget
   counted in between lives shorter than `ttl`; and none ever lives shorter than an hour.
   */
  lemma SessionBudget(events: List<Event>, k: BudgetKey, ttl: int)
    requires InOrder(events) && (LivesAtLeast(Run(events).log, k, ttl) || ttl <= 3600)
    ensures match LastAdmitted(Run(events).log, k)
            case None => AdmittedChain(Run(events).log, k, ttl) == 0
            case Some(a) => AdmittedChain(Run(events).log, k, ttl) <= a.call.maxSessionActions
  {
    RunIsJustified(events);
    RunIsNotAfter(events);
    if ttl <= 3600 { AllLiveAnHour(Run(events).log, k, ttl); }
    AdmittedChainIsCounted(Run(events).log, k, ttl, Run(events).clock);
  }

  // ---- cool-off ----------------------------------------------------------------------

  function RunFrom(st: State, events: List<Event>): State {
    match events
    case Nil => st
    case Cons(e, earlier) => Step(RunFrom(st, earlier), e)
  }

  predicate InOrderFrom(st: State, events: List<Event>) {
    match events
    case Nil => true
    case Cons(e, earlier) => InOrderFrom(st, earlier) && RunFrom(st, earlier).clock <= e.Now()
  }

  /** The evaluation puts a trip record, whether or not the write then reports a failure. */
  predicate PutsTrip(kv: Store, c: Call, f: Faults) {
    && f.getTripped.Done? && !Cooling(kv, c) && f.getEpoch.Done? && f.getBudget.Done? && !f.putTripped.Failed?
    && (Budget(kv, c) >= c.maxSessionActions || (c.signature.Some? && f.getLoop.Done? && |Recent(kv, c)| >= c.maxRepeats))
  }

  /** The newest call of the session to put a trip record since the last reset that deleted one. */
  function LastTrip(events: List<Event>, session: Text): Option<Call> {
    match events
    case Nil => None
    case Cons(e, earlier) =>
      match e
      case CallEvent(c, f) =>
        if c.session == session && PutsTrip(Run(earlier).kv, c, f) then Some(c) else LastTrip(earlier, session)
      case ResetEvent(s, _, d, _) => if s == session && !d.Failed? then None else LastTrip(earlier, session)
  }

  ghost predicate TripStored(kv: Store, session: Text, last: Option<Call>) {
    match last
    case None => session !in kv.tripped
    case Some(t) =>
      session in kv.tripped && kv.tripped[session].value.trippedAt == t.now &&
      kv.tripped[session].expiresAt == t.now + 1000.0 * TripTtl(t) as real
  }

  lemma {:induction false} RunKeepsTrip(events: List<Event>, session: Text)
    ensures TripStored(Run(events).kv, session, LastTrip(events, session))
  {
    hide Recent, Budget, Reaches;
    if events.Cons? { RunKeepsTrip(events.tail, session); }
  }

  lemma TripTtlCovers(t: Call)
    ensures TripTtl(t) as real >= t.coolOffSeconds && TripTtl(t) as real >= 60.0
  {
  }

  /** In every run, a call finds its session cooling off exactly while the newest trip is younger than its own cool-off and not expired. */
  lemma CoolingExactly(events: List<Event>, c: Call)
    ensures Cooling(Run(events).kv, c) <==>
            match LastTrip(events, c.session)
            case None => false
            case Some(t) => c.now < t.now + 1000.0 * c.coolOffSeconds && c.now < t.now + 1000.0 * TripTtl(t) as real
  {
    RunKeepsTrip(events, c.session);
  }

  /** No reset of the session, and no call of it with a shorter cool-off. */
  predicate NoShorter(events: List<Event>, session: Text, coolOffSeconds: Seconds) {
    match events
    case Nil => true
    case Cons(e, earlier) =>
      NoShorter(earlier, session, coolOffSeconds) &&
      match e
      case CallEvent(c, _) => c.session == session ==> c.coolOffSeconds >= coolOffSeconds
      case ResetEvent(s, _, _, _) => s != session
  }

  /** The session is cooling off until `until` for every call with at least this cool-off. */
  ghost predicate CoolingUntil(kv: Store, session: Text, coolOffSeconds: Seconds, until: Time) {
    session in kv.tripped &&
    kv.tripped[session].value.trippedAt + 1000.0 * coolOffSeconds >= until && kv.tripped[session].expiresAt >= until
  }

  lemma StillCooling(st: State, e: Event, session: Text, coolOffSeconds: Seconds, until: Time)
    requires CoolingUntil(st.kv, session, coolOffSeconds, until) && e.Now() < until
    requires match e
             case CallEvent(c, _) => c.session == session ==> c.coolOffSeconds >= coolOffSeconds
             case ResetEvent(s, _, _, _) => s != session
    ensures CoolingUntil(Step(st, e).kv, session, coolOffSeconds, until)
  {
    if e.CallEvent? && e.call.session == session { assert Cooling(st.kv, e.call); }
  }

  lemma {:induction false} RunKeepsCooling(st: State, events: List<Event>, session: Text, coolOffSeconds: Seconds, until: Time)
    requires CoolingUntil(st.kv, session, coolOffSeconds, until) && NoShorter(events, session, coolOffSeconds)
    requires InOrderFrom(st, events) && RunFrom(st, events).clock < until
    ensures CoolingUntil(RunFrom(st, events).kv, session, coolOffSeconds, until)
  {
    if events.Cons? {
      RunKeepsCooling(st, events.tail, session, coolOffSeconds, until);
      StillCooling(RunFrom(st, events.tail), events.head, session, coolOffSeconds, until);
    }
  }

  /**
   After a call trips the breaker, and through any run without a reset of the session in which no call of it has a
   cool-off below `coolOffSeconds`, no such call is admitted for that long. The record must live so long: it
   does for the cool-off of the tripping call, and for a minute in any case.
   */
  lemma CoolOffHolds(before: State, t: Call, g: Faults, events: List<Event>, c: Call, f: Faults, coolOffSeconds: Seconds)
    requires EvaluateStep(before.kv, t, g).1.Tripped? && coolOffSeconds <= TripTtl(t) as real
    requires var st := Step(before, CallEvent(t, g));
             InOrderFrom(st, events) && NoShorter(events, t.session, coolOffSeconds) && RunFrom(st, events).clock <= c.now
    requires c.session == t.session && c.coolOffSeconds >= coolOffSeconds && c.now < t.now + 1000.0 * coolOffSeconds
    ensures var kv := RunFrom(Step(before, CallEvent(t, g)), events).kv;
            EvaluateStep(kv, c, f) == (kv, if f.getTripped.Done? then CoolingOff else StorageError)
  {
    var st := Step(before, CallEvent(t, g));
    var until := t.now + 1000.0 * coolOffSeconds;
    TripTtlCovers(t);
    assert CoolingUntil(st.kv, t.session, coolOffSeconds, until);
    RunKeepsCooling(st, events, t.session, coolOffSeconds, until);
    assert Cooling(RunFrom(st, events).kv, c);
  }

  /** A trip puts a record that lasts at least a minute and at least its own cool-off, and is in force at once. */
  lemma TripIsRecorded(kv: Store, c: Call, f: Faults)
    requires EvaluateStep(kv, c, f).1.Tripped?
    ensures var kv' := EvaluateStep(kv, c, f).0;
            && c.session in kv'.tripped && kv'.tripped[c.session].value.trippedAt == c.now
            && kv'.tripped[c.session].expiresAt >= c.now + 1000.0 * c.coolOffSeconds
            && kv'.tripped[c.session].expiresAt >= c.now + 60_000.0
            && Cooling(kv', c)
  {
    TripTtlCovers(c);
  }

  function TripCall(session: Text, now: Time, coolOffSeconds: Seconds): Call {
    Call(session, Some([]), now, 1, 30.0, coolOffSeconds, 100)
  }

  /** Admitted at 0 s, tripped for 1000 s at 1 s, tripped again by a call with a cool-off of 1 s at 10 s. */
  function TwoTrips(session: Text): List<Event> {
    Cons(CallEvent(TripCall(session, 10_000.0, 1.0), NO_FAULTS),
    Cons(CallEvent(TripCall(session, 1_000.0, 1000.0), NO_FAULTS),
    Cons(CallEvent(TripCall(session, 0.0, 1000.0), NO_FAULTS), Nil)))
  }

  /**
   A shorter cool-off in between loses the trip: the second trip leaves a record of a minute only,
   and 80 s into the first trip's 1000 s a call with that very cool-off is admitted.
   */
  lemma ShorterCoolOffForgets(session: Text)
    ensures var e := TwoTrips(session);
            && InOrder(e)
            && EvaluateStep(Run(e.tail.tail).kv, e.tail.head.call, NO_FAULTS).1 == Tripped(LOOP_DETECTED)
            && EvaluateStep(Run(e).kv, TripCall(session, 80_000.0, 1000.0), NO_FAULTS).1 == Admitted
  {
    var c0, c1, c2, c3 :=
      TripCall(session, 0.0, 1000.0), TripCall(session, 1_000.0, 1000.0), TripCall(session, 10_000.0, 1.0), TripCall(session, 80_000.0, 1000.0);
    var e2 := TwoTrips(session);
    var e1 := e2.tail;
    var e0 := e1.tail;
    var k := LoopKey(session, 0.0, []);
    assert Run(Nil) == START && Run(e0) == Step(START, e0.head);
    assert Run(e1) == Step(Run(e0), e1.head) && Run(e2) == Step(Run(e1), e2.head);
    assert InOrder(Nil) && Run(Nil).clock == 0.0 && InOrder(e0) && Run(e0).clock == 0.0;
    assert InOrder(e1) && Run(e1).clock == 1_000.0 && InOrder(e2);
    assert Since([], -30_000.0) == [] && Reaches(START.kv, c0, NO_FAULTS);
    assert [] + [0.0] == [0.0] && Run(e0).kv.loops[k].value == [0.0];
    assert Since([0.0], -29_000.0) == [0.0] && Since([0.0], -20_000.0) == [0.0];
    assert Recent(Run(e0).kv, c1) == [0.0] && Recent(Run(e1).kv, c2) == [0.0];
    assert TripTtl(c2) == 60 && Run(e2).kv.tripped[session].expiresAt == 70_000.0;
    assert Recent(Run(e2).kv, c3) == [];
  }

  /** Every verdict in terms of the log and the trips of the run; without storage failures there is no other. */
  lemma VerdictsExactly(events: List<Event>, c: Call)
    ensures var st := Run(events);
            var r := EvaluateStep(st.kv, c, NO_FAULTS).1;
            var cooling := (match LastTrip(events, c.session)
                            case None => false
                            case Some(t) => c.now < t.now + 1000.0 * c.coolOffSeconds && c.now < t.now + 1000.0 * TripTtl(t) as real);
            var spent := ChainAt(st.log, BudgetKeyOf(st.kv, c), c.now) >= c.maxSessionActions;
            var looping := c.signature.Some? && Held(st.log, LoopKeyOf(st.kv, c), c.now, c.now - 1000.0 * c.windowSeconds) >= c.maxRepeats;
            && (r == CoolingOff <==> cooling)
            && (r == Tripped(BUDGET_EXCEEDED) <==> !cooling && spent)
            && (r == StorageError <==> !cooling && !spent && c.signature.None?)
            && (r == Tripped(LOOP_DETECTED) <==> !cooling && !spent && looping)
            && (r == Admitted <==> !cooling && !spent && !looping && c.signature.Some?)
  {
    hide Cooling, Recent, Budget, Held, ChainAt, LastTrip;
    CoolingExactly(events, c);
    BudgetAgreesWithLog(events, c);
    if c.signature.Some? { RecentIsHeld(events, c); }
  }

  lemma RecentIsHeld(events: List<Event>, c: Call)
    requires c.signature.Some?
    ensures var st := Run(events);
            |Recent(st.kv, c)| == Held(st.log, LoopKeyOf(st.kv, c), c.now, c.now - 1000.0 * c.windowSeconds)
  {
    var st := Run(events);
    var k, cut := LoopKeyOf(st.kv, c), c.now - Window(c);
    StoredHistoryIsReplayed(events, k, c.now);
    SinceCounts(LiveTimes(st.kv, k, c.now), cut);
    HeldCountsTimes(st.log, k, c.now, cut);
  }

  // ---- reset ----------------------------------------------------------------------------

  /** No entry is younger than the clock, and none belongs to an epoch that began after it was put. */
  ghost predicate EpochsPast(st: State) {
    && (forall s :: s in st.kv.epochs ==>
          && st.kv.epochs[s].value == st.kv.epochs[s].at
          && 0.0 <= st.kv.epochs[s].at <= st.clock
          && st.kv.epochs[s].expiresAt == st.kv.epochs[s].at + 86_400_000.0)
    && (forall k :: k in st.kv.budgets ==> 0.0 <= k.epoch <= st.kv.budgets[k].at <= st.clock)
    && (forall k :: k in st.kv.loops ==> 0.0 <= k.epoch <= st.kv.loops[k].at <= st.clock)
    && st.clock >= 0.0
  }

  lemma CurrentEpochIsPast(st: State, session: Text, now: Time)
    requires EpochsPast(st) && st.clock <= now
    ensures 0.0 <= CurrentEpoch(st.kv, session, now) <= now
  {
  }

  lemma RecordKeepsEpochs(st: State, c: Call, f: Faults)
    requires EpochsPast(st) && st.clock <= c.now && Reaches(st.kv, c, f)
    ensures EpochsPast(Step(st, CallEvent(c, f)))
  {
    CurrentEpochIsPast(st, c.session, c.now);
    var next := Step(st, CallEvent(c, f));
    var lk, bk := LoopKeyOf(st.kv, c), BudgetKeyOf(st.kv, c);
    forall k | k in next.kv.budgets ensures 0.0 <= k.epoch <= next.kv.budgets[k].at <= next.clock {
      assert k != bk ==> k in st.kv.budgets && next.kv.budgets[k] == st.kv.budgets[k];
    }
    forall k | k in next.kv.loops ensures 0.0 <= k.epoch <= next.kv.loops[k].at <= next.clock {
      assert k != lk ==> k in st.kv.loops && next.kv.loops[k] == st.kv.loops[k];
    }
  }

  lemma StepKeepsEpochs(st: State, e: Event)
    requires EpochsPast(st) && st.clock <= e.Now()
    ensures EpochsPast(Step(st, e))
  {
    if e.CallEvent? && Reaches(st.kv, e.call, e.faults) {
      RecordKeepsEpochs(st, e.call, e.faults);
    } else if e.CallEvent? {
      var kv := EvaluateStep(st.kv, e.call, e.faults).0;
      assert kv.epochs == st.kv.epochs && kv.budgets == st.kv.budgets && kv.loops == st.kv.loops;
    }
  }

  lemma {:induction false} RunKeepsEpochs(events: List<Event>)
    requires InOrder(events)
    ensures EpochsPast(Run(events))
  {
    if events.Cons? {
      RunKeepsEpochs(events.tail);
      StepKeepsEpochs(Run(events.tail), events.head);
    }
  }

  /** A reset strictly after everything before it clears the way: the next call is admitted. */
  lemma ResetThenAdmitted(events: List<Event>, session: Text, at: Time, c: Call)
    requires InOrder(events) && Run(events).clock < at
    requires c.session == session && at <= c.now < at + 86_400_000.0
    requires c.signature.Some? && c.maxRepeats >= 1 && c.maxSessionActions >= 1
    ensures EvaluateStep(ResetStep(Run(events).kv, session, at, Done, Done), c, NO_FAULTS).1 == Admitted
  {
    RunKeepsEpochs(events);
  }

  const DAY: Time := 86_400_000.0

  /** Counters of the session put before `at` outside any epoch are gone a day after it. */
  ghost predicate OldGone(kv: Store, session: Text, at: Time) {
    && (var k := BudgetKey(session, 0.0); k in kv.budgets && kv.budgets[k].at < at ==> kv.budgets[k].expiresAt <= at + DAY)
    && (forall k :: k in kv.loops && k.session == session && k.epoch == 0.0 && kv.loops[k].at < at ==> kv.loops[k].expiresAt <= at + DAY)
  }

  ghost predicate AfterReset(st: State, session: Text, at: Time) {
    && EpochsPast(st) && OldGone(st.kv, session, at) && at <= st.clock
    && session in st.kv.epochs && at <= st.kv.epochs[session].at
  }

  lemma StepKeepsAfterReset(st: State, e: Event, session: Text, at: Time)
    requires AfterReset(st, session, at) && st.clock <= e.Now()
    ensures AfterReset(Step(st, e), session, at)
  {
    StepKeepsEpochs(st, e);
    OldEntriesUntouched(st, e, at);
  }

  lemma OldEntriesUntouched(st: State, e: Event, at: Time)
    requires at <= e.Now()
    ensures var kv := Step(st, e).kv;
            && (forall k :: k in kv.budgets && kv.budgets[k].at < at ==> k in st.kv.budgets && kv.budgets[k] == st.kv.budgets[k])
            && (forall k :: k in kv.loops && kv.loops[k].at < at ==> k in st.kv.loops && kv.loops[k] == st.kv.loops[k])
  {
  }

  lemma {:induction false} RunKeepsAfterReset(st: State, events: List<Event>, session: Text, at: Time)
    requires AfterReset(st, session, at) && InOrderFrom(st, events)
    ensures AfterReset(RunFrom(st, events), session, at)
  {
    if events.Cons? {
      RunKeepsAfterReset(st, events.tail, session, at);
      StepKeepsAfterReset(RunFrom(st, events.tail), events.head, session, at);
    }
  }

  /** The call finds a counter put before `at`. */
  ghost predicate ReadsOld(kv: Store, c: Call, at: Time)
    requires c.signature.Some?
  {
    (Live(kv.budgets, BudgetKeyOf(kv, c), c.now).Some? && kv.budgets[BudgetKeyOf(kv, c)].at < at) ||
    (Live(kv.loops, LoopKeyOf(kv, c), c.now).Some? && kv.loops[LoopKeyOf(kv, c)].at < at)
  }

  /** However the run goes on, no call of the session finds one. */
  ghost predicate NeverReadsOld(st: State, session: Text, at: Time) {
    forall more: List<Event>, c: Call ::
      InOrderFrom(st, more) && RunFrom(st, more).clock <= c.now && c.session == session && c.signature.Some? ==>
        !ReadsOld(RunFrom(st, more).kv, c, at)
  }

  /** The newest recorded call of a signature in an epoch. */
  function LastRecorded(log: List<Attempt>, k: LoopKey): Option<Attempt> {
    match log
    case Nil => None
    case Cons(a, older) => if Recorded(a, k) then Some(a) else LastRecorded(older, k)
  }

  /**
   Of the calls recorded outside any epoch before `at`, the newest counted one and the newest of
   each signature left counters that expire at most a day after `at`.
   */
  ghost predicate OldExpire(log: List<Attempt>, session: Text, at: Time) {
    && (match LastCounted(log, BudgetKey(session, 0.0)) case None => true case Some(a) => a.call.now < at ==> BudgetExpiry(a) <= at + DAY)
    && (forall signature: Text ::
          match LastRecorded(log, LoopKey(session, 0.0, signature)) case None => true case Some(a) => a.call.now < at ==> LoopExpiry(a) <= at + DAY)
  }

  ghost predicate LoopStored(st: State, k: LoopKey) {
    match LastRecorded(st.log, k)
    case None => k !in st.kv.loops
    case Some(a) => k in st.kv.loops && st.kv.loops[k].at == a.call.now && st.kv.loops[k].expiresAt == LoopExpiry(a)
  }

  lemma StepKeepsLoop(st: State, e: Event, k: LoopKey)
    requires LoopStored(st, k)
    ensures LoopStored(Step(st, e), k)
  {
    hide Recent, Budget;
  }

  lemma {:induction false} RunKeepsLoop(events: List<Event>, k: LoopKey)
    ensures LoopStored(Run(events), k)
  {
    if events.Cons? {
      RunKeepsLoop(events.tail, k);
      StepKeepsLoop(Run(events.tail), events.head, k);
    }
  }

  lemma OldGoneInLog(events: List<Event>, session: Text, at: Time)
    ensures OldGone(Run(events).kv, session, at) <==> OldExpire(Run(events).log, session, at)
  {
    hide LastCounted, LastRecorded, BudgetExpiry, LoopExpiry, Chain;
    var st := Run(events);
    RunKeepsBudget(events, BudgetKey(session, 0.0));
    forall k: LoopKey ensures LoopStored(st, k) { RunKeepsLoop(events, k); }
    if OldGone(st.kv, session, at) {
      forall signature: Text
        ensures match LastRecorded(st.log, LoopKey(session, 0.0, signature)) case None => true case Some(a) => a.call.now < at ==> LoopExpiry(a) <= at + DAY
      {
        assert LoopStored(st, LoopKey(session, 0.0, signature));
      }
    }
    if OldExpire(st.log, session, at) {
      forall k | k in st.kv.loops && k.session == session && k.epoch == 0.0 && st.kv.loops[k].at < at
        ensures st.kv.loops[k].expiresAt <= at + DAY
      {
        assert LoopStored(st, k) && k == LoopKey(session, 0.0, k.signature);
      }
    }
  }

  /** A call of the session a day after the reset, when its epoch record has just expired. */
  function CallADayAfter(session: Text, signature: Text, at: Time): Call {
    Call(session, Some(signature), at + DAY, 1, 1.0, 1.0, 1)
  }

  /**
   A reset holds for good if and only if the counters it leaves behind expire before its epoch record
   does: otherwise a call a day later finds one of them.
   */
  lemma ResetHoldsExactly(events: List<Event>, session: Text, at: Time, d: Io, p: Io)
    requires InOrder(events) && Run(events).clock <= at && !p.Failed?
    ensures NeverReadsOld(Step(Run(events), ResetEvent(session, at, d, p)), session, at) <==> OldExpire(Run(events).log, session, at)
  {
    hide OldExpire;
    OldGoneInLog(events, session, at);
    RunKeepsEpochs(events);
    var st, reset := Run(events), ResetEvent(session, at, d, p);
    var after := Step(st, reset);
    if OldGone(st.kv, session, at) {
      StepKeepsEpochs(st, reset);
      forall more: List<Event>, c: Call
        | InOrderFrom(after, more) && RunFrom(after, more).clock <= c.now && c.session == session && c.signature.Some?
        ensures !ReadsOld(RunFrom(after, more).kv, c, at)
      {
        RunKeepsAfterReset(after, more, session, at);
        AfterResetReadsNew(RunFrom(after, more), c, at);
      }
    }
    if NeverReadsOld(after, session, at) {
      assert RunFrom(after, Nil) == after;
      forall signature: Text ensures !ReadsOld(after.kv, CallADayAfter(session, signature, at), at) {
        assert !ReadsOld(RunFrom(after, Nil).kv, CallADayAfter(session, signature, at), at);
      }
      ADayAfterReset(st, session, at, d, p);
    }
  }

  lemma AfterResetReadsNew(st: State, c: Call, at: Time)
    requires AfterReset(st, c.session, at) && st.clock <= c.now && c.signature.Some?
    ensures !ReadsOld(st.kv, c, at)
  {
  }

  lemma ADayAfterReset(st: State, session: Text, at: Time, d: Io, p: Io)
    requires !p.Failed?
    requires forall signature: Text :: !ReadsOld(Step(st, ResetEvent(session, at, d, p)).kv, CallADayAfter(session, signature, at), at)
    ensures OldGone(st.kv, session, at)
  {
    var kv := Step(st, ResetEvent(session, at, d, p)).kv;
    assert CurrentEpoch(kv, session, at + DAY) == 0.0;
    assert !ReadsOld(kv, CallADayAfter(session, [], at), at);
    forall k | k in kv.loops && k.session == session && k.epoch == 0.0 && kv.loops[k].at < at
      ensures kv.loops[k].expiresAt <= at + DAY
    {
      assert !ReadsOld(kv, CallADayAfter(session, k.signature, at), at);
      assert k == LoopKeyOf(kv, CallADayAfter(session, k.signature, at));
    }
  }

  /** Every call of the session has a cool-off and a window of at most half a day. */
  predicate ShortCalls(events: List<Event>, session: Text) {
    match events
    case Nil => true
    case Cons(e, earlier) =>
      ShortCalls(earlier, session) &&
      (e.CallEvent? && e.call.session == session ==> e.call.coolOffSeconds <= 43_200.0 && e.call.windowSeconds <= 43_200.0)
  }

  /** A call's counters live at most a day exactly when its cool-off is at most half a day and its window too. */
  lemma CountersLiveADay(c: Call)
    ensures BudgetTtl(c) <= 86_400 <==> c.coolOffSeconds <= 43_200.0
    ensures LoopTtl(c) <= 86_400 <==> c.windowSeconds <= 43_200.0
  {
  }

  /** Counters of the session put before `at` expire within a day of being put. */
  ghost predicate ShortLived(st: State, session: Text, at: Time) {
    && (forall k :: k in st.kv.budgets && k.session == session && st.kv.budgets[k].at < at ==>
          st.kv.budgets[k].expiresAt <= st.kv.budgets[k].at + DAY)
    && (forall k :: k in st.kv.loops && k.session == session && st.kv.loops[k].at < at ==>
          st.kv.loops[k].expiresAt <= st.kv.loops[k].at + DAY)
  }

  /** A counter lives twice its cool-off or window, in whole seconds, and an hour or a minute at least. */
  lemma CounterLifetimes(c: Call)
    ensures var ttl := BudgetTtl(c); ttl >= 3600 && ttl as real >= 2.0 * c.coolOffSeconds && (ttl == 3600 || ttl as real < 2.0 * c.coolOffSeconds + 1.0)
    ensures var ttl := LoopTtl(c); ttl >= 60 && ttl as real >= 2.0 * c.windowSeconds && (ttl == 60 || ttl as real < 2.0 * c.windowSeconds + 1.0)
    ensures var ttl := TripTtl(c); ttl >= 60 && ttl as real >= c.coolOffSeconds && (ttl == 60 || ttl as real < c.coolOffSeconds + 1.0)
  {
  }

  lemma ShortCallKeepsShort(st: State, e: Event, session: Text, at: Time)
    requires ShortLived(st, session, at)
    requires e.CallEvent? && e.call.session == session ==> e.call.coolOffSeconds <= 43_200.0 && e.call.windowSeconds <= 43_200.0
    ensures ShortLived(Step(st, e), session, at)
  {
    hide Recent, Budget, Cooling, BudgetTtl, LoopTtl;
    if e.CallEvent? && Reaches(st.kv, e.call, e.faults) { CountersLiveADay(e.call); }
  }

  lemma {:induction false} ShortCallsLeaveShortCounters(events: List<Event>, session: Text, at: Time)
    requires ShortCalls(events, session)
    ensures ShortLived(Run(events), session, at)
  {
    if events.Cons? {
      ShortCallsLeaveShortCounters(events.tail, session, at);
      ShortCallKeepsShort(Run(events.tail), events.head, session, at);
    }
  }

  /**
   In particular if no earlier call of the session had a cool-off or a window of more than half a day: then
   counters from before a reset are never read again, even after the epoch record has itself expired.
   */
  lemma OldCountersAreDead(events: List<Event>, session: Text, at: Time, d: Io, p: Io)
    requires InOrder(events) && Run(events).clock <= at && !p.Failed?
    requires ShortCalls(events, session)
    ensures NeverReadsOld(Step(Run(events), ResetEvent(session, at, d, p)), session, at)
  {
    hide NeverReadsOld, OldExpire;
    ShortCallsLeaveShortCounters(events, session, at);
    OldGoneInLog(events, session, at);
    ResetHoldsExactly(events, session, at, d, p);
  }

  /** A call at time 0, a reset a millisecond later, and the same call once the epoch record has expired. */
  function OldThenReset(c: Call): List<Event> {
    Cons(ResetEvent(c.session, 1.0, Done, Done), Cons(CallEvent(c, NO_FAULTS), Nil))
  }

  function ADayLater(c: Call): Call { c.(now := 86_400_001.0) }

  /** Half a day is exact: a reset is undone a day later for every longer cool-off, and for every longer window. */
  lemma LongCoolOffRevives(c: Call)
    requires c.now == 0.0 && c.signature.Some? && c.maxRepeats >= 1 && c.maxSessionActions >= 1
    ensures var events, late := OldThenReset(c), ADayLater(c);
            var kv := Run(events).kv;
            && InOrder(events)
            && (c.coolOffSeconds > 43_200.0 <==>
                  Live(kv.budgets, BudgetKeyOf(kv, late), late.now).Some? && kv.budgets[BudgetKeyOf(kv, late)].at < 1.0)
            && (c.windowSeconds > 43_200.0 <==>
                  Live(kv.loops, LoopKeyOf(kv, late), late.now).Some? && kv.loops[LoopKeyOf(kv, late)].at < 1.0)
            && (c.coolOffSeconds > 43_200.0 ==> Budget(kv, late) == 1)
  {
    var e0 := Cons(CallEvent(c, NO_FAULTS), Nil);
    var k, l := BudgetKey(c.session, 0.0), LoopKey(c.session, 0.0, c.signature.value);
    CountersLiveADay(c);
    assert Run(Nil) == START && Run(e0) == Step(START, e0.head);
    assert Since([], -(c.windowSeconds * 1000.0)) == [];
    assert Reaches(START.kv, c, NO_FAULTS);
    assert Recent(START.kv, c) == [] && Recent(START.kv, c) + [0.0] == [0.0];
    assert Run(e0).kv.budgets == map[k := Put(1, 0.0, BudgetTtl(c))];
    assert Run(e0).kv.loops == map[l := Put([0.0], 0.0, LoopTtl(c))];
    assert Run(OldThenReset(c)) == Step(Run(e0), ResetEvent(c.session, 1.0, Done, Done));
    assert CurrentEpoch(Run(OldThenReset(c)).kv, c.session, 86_400_001.0) == 0.0;
    assert InOrder(Nil) && Run(Nil).clock == 0.0 && InOrder(e0) && Run(e0).clock == 0.0;
  }
}
