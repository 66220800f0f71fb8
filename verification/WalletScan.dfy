/** The collection of a wallet's history over JSON-RPC: batches, shared retries, checks and sums. */
module WalletScan {
  import opened CodeUnits
  import opened WalletHistory

  // ---- requests and retries ----------------------------------------------------------------------

  function Indices(n: nat): (r: set<nat>)
    ensures forall i: nat :: i in r <==> i < n
  {
    if n == 0 then {} else Indices(n - 1) + {n - 1}
  }

  /** The answer came from the provider, at some attempt. */
  ghost predicate Given(net: Net, request: Request, answer: Answer) {
    exists n: nat :: net(n, request) == answer
  }

  /**
   Promise.all over historyRpc: all requests are sent at once, complete in any order, and
   share the spare retries. Requests outlive the failure of another one, so all of them are run to their end.
   */
  method FetchAll(net: Net, requests: seq<Request>, spareCalls: nat, made: nat)
    returns (answers: seq<Answer>, spare: nat, attempts: nat)
    ensures |answers| == |requests|
    ensures forall i :: 0 <= i < |requests| ==> Given(net, requests[i], answers[i])
    ensures forall i :: 0 <= i < |requests| && answers[i] == Failed(true) ==> spare == 0
    ensures spare <= spareCalls && attempts == made + |requests| + (spareCalls - spare)
  {
    spare, attempts := spareCalls, made + |requests|;
    var tickets: seq<nat> := seq(|requests|, i requires 0 <= i < |requests| => made + i);
    var pending := Indices(|requests|);
    answers := seq(|requests|, i requires 0 <= i < |requests| => Failed(false));
    while pending != {}
      invariant |answers| == |requests|
      invariant |tickets| == |requests|
      invariant forall i: nat :: i in pending ==> i < |requests|
      invariant forall i :: 0 <= i < |requests| && i !in pending ==> Given(net, requests[i], answers[i])
      invariant forall i :: 0 <= i < |requests| && answers[i] == Failed(true) ==> spare == 0
      invariant spare <= spareCalls && attempts == made + |requests| + (spareCalls - spare)
      decreases spare, |pending|
    {
      var i: nat :| i in pending;
      var answer := net(tickets[i], requests[i]);
      if answer.Failed? && answer.transient && spare > 0 {
        spare := spare - 1;
        tickets := tickets[i := attempts];
        attempts := attempts + 1;
      } else {
        assert Given(net, requests[i], answer);
        answers := answers[i := answer];
        pending := pending - {i};
      }
    }
  }

  method Fetch(net: Net, request: Request, spareCalls: nat, made: nat)
    returns (answer: Answer, spare: nat, attempts: nat)
    ensures Given(net, request, answer) && (answer == Failed(true) ==> spare == 0)
    ensures spare <= spareCalls && attempts == made + 1 + (spareCalls - spare)
  {
    var answers;
    answers, spare, attempts := FetchAll(net, [request], spareCalls, made);
    answer := answers[0];
    assert [request][0] == request;
  }

  // ---- the scan ------------------------------------------------------------------------------------

  method BuildRanges(first: nat, end: nat, span: nat) returns (ranges: seq<Range>)
    requires span > 0
    ensures ranges == Ranges(first, end, span)
  {
    ranges := [];
    var from := first;
    while from <= end
      invariant ranges + Ranges(from, end, span) == Ranges(first, end, span)
      decreases end + 1 - from
    {
      ranges := ranges + [Range(from, if from + span - 1 < end then from + span - 1 else end)];
      from := from + span;
    }
  }

  /** The entries of one answer, added up. */
  method AddLogs(q: Query, range: Range, raw: seq<Option<Log>>, seenBefore: set<(Text, nat)>, before: nat)
    returns (failure: Option<Failure>, seen: set<(Text, nat)>, outgoing: nat, ghost taken: seq<Log>)
    requires before <= MAX_SPEND
    ensures failure.None? <==> Accepted(q, range, raw, seenBefore) && before + Total(raw) <= MAX_SPEND
    ensures failure.None? ==> outgoing == before + Total(raw)
    ensures failure.Some? ==> failure.value in {InvalidLog, TooLarge}
    ensures failure == Some(InvalidLog) ==> !Accepted(q, range, raw, seenBefore)
    ensures failure == Some(TooLarge) ==> Taken(q, range, raw, taken) && before + Sum(taken) > MAX_SPEND
    ensures Taken(q, range, raw, taken) && forall k :: k in seen ==> k in seenBefore || exists l :: l in taken && Key(l) == k
  {
    failure, seen, outgoing, taken := None, seenBefore, before, [];
    for i := 0 to |raw|
      invariant Accepted(q, range, raw, seenBefore) == Accepted(q, range, raw[i..], seen)
      invariant outgoing <= MAX_SPEND && outgoing + Total(raw[i..]) == before + Total(raw)
      invariant Taken(q, range, raw, taken) && outgoing == before + Sum(taken)
      invariant forall l :: l in taken ==> Key(l) in seen
      invariant forall k :: k in seen ==> k in seenBefore || exists l :: l in taken && Key(l) == k
    {
      assert raw[i..][0] == raw[i] && raw[i..][1..] == raw[i + 1..];
      TotalCons(raw[i..]);
      if raw[i].None? { return Some(InvalidLog), seen, outgoing, taken; }
      var entry := raw[i].value;
      if Lower(entry.address) != q.contract || entry.kind != q.transfer || entry.sender != q.sender
        || entry.height < range.from || entry.height > range.to || Key(entry) in seen {
        return Some(InvalidLog), seen, outgoing, taken;
      }
      EntryAt(raw, i);
      assert ([raw[i].value] + taken)[1..] == taken;
      taken := [raw[i].value] + taken;
      assert raw[i].value in taken;
      seen := seen + {Key(raw[i].value)};
      outgoing := outgoing + raw[i].value.amount;
      if outgoing > MAX_SPEND { return Some(TooLarge), seen, outgoing, taken; }
    }
    assert raw[|raw|..] == [];
  }

  /** An answer given for a range, when the provider is faithful. */
  lemma GivenIsFaithful(net: Net, q: Query, chain: seq<Log>, range: Range, answer: Answer)
    requires Faithful(net, q, chain) && Given(net, GetLogs(range.from, range.to), answer) && answer.Logs?
    ensures FaithfulAnswer(q, chain, range.from, range.to, answer.entries)
  {
    var n: nat :| net(n, GetLogs(range.from, range.to)) == answer;
    assert net(n, GetLogs(range.from, range.to)).Logs?;
  }

  lemma SeenGrows(q: Query, chain: seq<Log>, range: Range, raw: seq<Option<Log>>, before: set<(Text, nat)>, taken: seq<Log>, seen: set<(Text, nat)>)
    requires FaithfulAnswer(q, chain, range.from, range.to, raw) && |raw| < MAX_LOGS && range.from <= range.to
    requires SeenBelow(chain, before, range.from) && Taken(q, range, raw, taken)
    requires forall k :: k in seen ==> k in before || exists l :: l in taken && Key(l) == k
    ensures SeenBelow(chain, seen, range.to + 1)
  {
    forall k | k in seen ensures exists l :: l in chain && Key(l) == k && l.height < range.to + 1 {
      if k in before {
        var l :| l in chain && Key(l) == k && l.height < range.from;
        assert l.height < range.to + 1;
      } else {
        var l :| l in taken && Key(l) == k;
        assert l in chain;
      }
    }
  }

  /** What one uncapped answer of a faithful provider does to the sum, or why it is turned down. */
  lemma RangeAdded(q: Query, chain: seq<Log>, range: Range, raw: seq<Option<Log>>, seenBefore: set<(Text, nat)>, before: nat, end: int,
                   failure: Option<Failure>, taken: seq<Log>, seen: set<(Text, nat)>)
    requires DistinctKeys(chain) && FaithfulAnswer(q, chain, range.from, range.to, raw) && |raw| < MAX_LOGS
    requires SeenBelow(chain, seenBefore, range.from) && range.from <= range.to <= end && Taken(q, range, raw, taken)
    requires forall k :: k in seen ==> k in seenBefore || exists l :: l in taken && Key(l) == k
    requires failure.None? ==> Accepted(q, range, raw, seenBefore)
    requires failure == Some(TooLarge) ==> before + Sum(taken) > MAX_SPEND
    requires failure == Some(InvalidLog) ==> !Accepted(q, range, raw, seenBefore)
    ensures failure.None? ==>
              && before + Total(raw) + Spent(q, chain, range.to + 1, end) == before + Spent(q, chain, range.from, end)
              && SeenBelow(chain, seen, range.to + 1)
    ensures failure == Some(TooLarge) ==> before + Spent(q, chain, range.from, end) > MAX_SPEND
    ensures failure == Some(InvalidLog) ==> !Accepted(q, range, raw, {})
  {
    SpentSplits(q, chain, range.from, range.to, end);
    if failure.None? {
      AcceptedTotal(q, chain, range, raw, seenBefore);
      SeenGrows(q, chain, range, raw, seenBefore, taken, seen);
    } else if failure == Some(TooLarge) {
      TakenTotal(q, chain, range, raw, taken);
    } else if failure == Some(InvalidLog) && Accepted(q, range, raw, {}) {
      AcceptedAfterOthers(q, chain, range, raw, seenBefore);
    }
  }

  /** A refusal of the scan has a cause in an answer, the clock or the chain; transient failures count once retries are spent. */
  ghost predicate ScanCause(net: Net, clock: nat -> int, q: Query, timeout: int, chain: seq<Log>, lo: int, end: int, before: nat, spare: nat, why: Failure) {
    match why
    case RpcFailed => exists request: Request, t: bool :: Given(net, request, Failed(t)) && (t ==> spare == 0)
    case TimedOut => exists n: nat :: clock(n) - clock(0) > timeout
    case Incomplete => exists range: Range, a: Answer ::
      Given(net, GetLogs(range.from, range.to), a) && !(a.Logs? && |a.entries| < 1000)
    case InvalidLog => Faithful(net, q, chain) ==> exists range: Range, raw: seq<Option<Log>> ::
      Given(net, GetLogs(range.from, range.to), Logs(raw)) && !Accepted(q, range, raw, {})
    case TooLarge => Faithful(net, q, chain) ==> before + Spent(q, chain, lo, end) > 1_000_000_000_000
    case _ => false
  }

  /** `outgoing` is `before` and what was spent from `lo` up to `next`, and only keys of those blocks were seen. */
  ghost predicate Progress(net: Net, q: Query, chain: seq<Log>, lo: int, before: nat, next: int, outgoing: nat, end: int, seen: set<(Text, nat)>) {
    Faithful(net, q, chain) ==>
      outgoing + Spent(q, chain, next, end) == before + Spent(q, chain, lo, end) && SeenBelow(chain, seen, next)
  }

  /** The answer for one range. */
  method AddRange(net: Net, clock: nat -> int, timeout: int, q: Query, range: Range, answer: Answer, seenBefore: set<(Text, nat)>, before: nat,
                  ghost chain: seq<Log>, ghost end: int, ghost spare: nat)
    returns (failure: Option<Failure>, seen: set<(Text, nat)>, outgoing: nat)
    requires before <= MAX_SPEND && range.from <= range.to <= end
    requires Given(net, GetLogs(range.from, range.to), answer)
    requires Faithful(net, q, chain) ==> SeenBelow(chain, seenBefore, range.from)
    ensures failure.None? ==>
              outgoing <= MAX_SPEND && Progress(net, q, chain, range.from, before, range.to + 1, outgoing, end, seen)
    ensures failure.Some? ==> ScanCause(net, clock, q, timeout, chain, range.from, end, before, spare, failure.value)
  {
    if !answer.Logs? || |answer.entries| >= MAX_LOGS {
      return Some(Incomplete), seenBefore, before;
    }
    assert Given(net, GetLogs(range.from, range.to), Logs(answer.entries));
    ghost var taken;
    failure, seen, outgoing, taken := AddLogs(q, range, answer.entries, seenBefore, before);
    if Faithful(net, q, chain) {
      GivenIsFaithful(net, q, chain, range, answer);
      RangeAdded(q, chain, range, answer.entries, seenBefore, before, end, failure, taken, seen);
    }
  }

  /** The answers of one batch, in order. */
  method AddBatch(net: Net, clock: nat -> int, timeout: int, q: Query, batch: seq<Range>, answers: seq<Answer>, seenBefore: set<(Text, nat)>, before: nat,
                  ghost chain: seq<Log>, ghost lo: int, ghost end: int, ghost rest: seq<Range>, ghost spare: nat)
    returns (failure: Option<Failure>, seen: set<(Text, nat)>, outgoing: nat, ghost next: int)
    requires before <= MAX_SPEND && |answers| == |batch|
    requires forall i :: 0 <= i < |batch| ==> Given(net, GetLogs(batch[i].from, batch[i].to), answers[i])
    requires Tiles(batch + rest, lo, end)
    requires Faithful(net, q, chain) ==> SeenBelow(chain, seenBefore, lo)
    ensures failure.None? ==>
              outgoing <= MAX_SPEND && Tiles(rest, next, end) && Progress(net, q, chain, lo, before, next, outgoing, end, seen)
    ensures failure.Some? ==> ScanCause(net, clock, q, timeout, chain, lo, end, before, spare, failure.value)
  {
    hide Accepted, Spent, Given, FaithfulAnswer, Faithful;
    failure, seen, outgoing, next := None, seenBefore, before, lo;
    for i := 0 to |batch|
      invariant failure.None? && outgoing <= MAX_SPEND && Tiles(batch[i..] + rest, next, end)
      invariant Progress(net, q, chain, lo, before, next, outgoing, end, seen)
    {
      assert (batch[i..] + rest)[0] == batch[i] && (batch[i..] + rest)[1..] == batch[i + 1..] + rest;
      failure, seen, outgoing := AddRange(net, clock, timeout, q, batch[i], answers[i], seen, outgoing, chain, end, spare);
      if failure.Some? { return; }
      next := batch[i].to + 1;
    }
    assert batch[|batch|..] + rest == rest;
  }

  /** The readings of the clock before the batches were all in time. */
  ghost predicate InTime(clock: nat -> int, readings: nat, timeout: int) {
    forall n :: 2 <= n < readings ==> clock(n) - clock(0) <= timeout
  }

  /** The answers for the ranges of one batch; when one of the requests failed, in what way. */
  method FetchBatch(net: Net, batch: seq<Range>, spareCalls: nat, made: nat)
    returns (failed: bool, answers: seq<Answer>, spare: nat, attempts: nat)
    ensures |answers| == |batch| && forall i :: 0 <= i < |batch| ==> Given(net, GetLogs(batch[i].from, batch[i].to), answers[i])
    ensures failed ==> exists request: Request, t: bool :: Given(net, request, Failed(t)) && (t ==> spare == 0)
    ensures spare <= spareCalls && attempts == made + |batch| + (spareCalls - spare)
  {
    var requests := seq(|batch|, i requires 0 <= i < |batch| => GetLogs(batch[i].from, batch[i].to));
    answers, spare, attempts := FetchAll(net, requests, spareCalls, made);
    failed := exists i :: 0 <= i < |answers| && answers[i].Failed?;
    if failed {
      ghost var i :| 0 <= i < |answers| && answers[i].Failed?;
      assert Given(net, requests[i], Failed(answers[i].transient));
    }
  }

  /** How many batches that many requests take. */
  function Batches(requests: nat, concurrency: nat): nat
    requires concurrency > 0
  {
    if requests <= concurrency then (if requests == 0 then 0 else 1) else 1 + Batches(requests - concurrency, concurrency)
  }

  /** All ranges, in batches. */
  method ScanLogs(net: Net, clock: nat -> int, q: Query, ranges: seq<Range>, concurrency: nat, timeout: int,
                  spareCalls: nat, made: nat, ghost chain: seq<Log>, ghost lo: int, ghost end: int)
    returns (failure: Option<Failure>, outgoing: nat, spare: nat, attempts: nat, readings: nat)
    requires concurrency > 0 && Tiles(ranges, lo, end)
    ensures spare <= spareCalls && attempts <= made + |ranges| + (spareCalls - spare)
    ensures failure.None? ==> outgoing <= MAX_SPEND && (Faithful(net, q, chain) ==> outgoing == Spent(q, chain, lo, end))
    ensures failure.None? ==> readings == 2 + Batches(|ranges|, concurrency)
    ensures failure.None? ==> InTime(clock, readings, timeout)
    ensures failure.Some? ==> ScanCause(net, clock, q, timeout, chain, lo, end, 0, spare, failure.value)
  {
    hide Spent, FaithfulAnswer, Accepted, Given;
    failure, outgoing, spare, attempts, readings := None, 0, spareCalls, made, 2;
    var seen: set<(Text, nat)> := {};
    ghost var next := lo;
    var offset := 0;
    while offset < |ranges|
      invariant offset <= |ranges| && failure.None? && outgoing <= MAX_SPEND
      invariant readings + Batches(|ranges| - offset, concurrency) == 2 + Batches(|ranges|, concurrency)
      invariant InTime(clock, readings, timeout)
      invariant Tiles(ranges[offset..], next, end)
      invariant Progress(net, q, chain, lo, 0, next, outgoing, end, seen)
      invariant spare <= spareCalls && attempts == made + offset + (spareCalls - spare)
    {
      if clock(readings) - clock(0) > timeout { return Some(TimedOut), outgoing, spare, attempts, readings; }
      readings := readings + 1;
      var size := if concurrency < |ranges| - offset then concurrency else |ranges| - offset;
      var batch := ranges[offset..offset + size];
      var failed, answers;
      failed, answers, spare, attempts := FetchBatch(net, batch, spare, attempts);
      if failed { return Some(RpcFailed), outgoing, spare, attempts, readings; }
      assert batch + ranges[offset + size..] == ranges[offset..];
      failure, seen, outgoing, next :=
        AddBatch(net, clock, timeout, q, batch, answers, seen, outgoing, chain, next, end, ranges[offset + size..], spare);
      if failure.Some? { return; }
      offset := offset + size;
    }
    if Faithful(net, q, chain) { NothingSpentInNoBlocks(q, chain, next, end); }
  }

  /** The start block is the one asked for, and a day or more older than a fresh anchor. */
  predicate Covers(start: Block, anchor: Block, first: int, now: int) {
    start.number == first && anchor.timestamp < 0x20_0000_0000_0000 &&
    -60 <= now - anchor.timestamp <= 3600 && start.timestamp <= anchor.timestamp - 86400
  }

  function Timeout(monitor: bool): int { if monitor then 180000 else 120000 }

  /** A refusal before the scan has a cause. */
  ghost predicate HeadCause(net: Net, clock: nat -> int, monitor: bool, anchor: Block, start: Block, spare: nat, why: Failure) {
    var first := anchor.number - Lookback(monitor, anchor.number);
    match why
    case RpcFailed => exists request: Request, t: bool :: Given(net, request, Failed(t)) && (t ==> spare == 0)
    case WrongChain => exists a: Answer :: Given(net, GetChainId, a) && a != Chain(8453)
    case BadBlock => exists request: Request, a: Answer ::
      Given(net, request, a) && (request.GetFinalized? || request.GetBlock?) && !a.Found?
    case TooShort => Seen(net, GetFinalized, anchor) && first < 0
    case NotCovered => Seen(net, GetFinalized, anchor) && first >= 0 && Seen(net, GetBlock(first), start) &&
      !Covers(start, anchor, first, clock(1) / 1000)
    case _ => false
  }

  /** Every refusal has a cause: a bad answer, an unsuitable anchor, the clock, or too much spent. */
  ghost predicate Cause(net: Net, clock: nat -> int, q: Query, monitor: bool, chain: seq<Log>, anchor: Block, start: Block, spare: nat, why: Failure) {
    || HeadCause(net, clock, monitor, anchor, start, spare, why)
    || ScanCause(net, clock, q, if monitor then 180_000 else 120_000, chain, anchor.number - Lookback(monitor, anchor.number), anchor.number, 0, spare, why)
    || (why == AnchorChanged && Changed(net, anchor.number, anchor.hash))
  }

  /** The block was given in answer to the request. */
  ghost predicate Seen(net: Net, request: Request, b: Block) {
    Given(net, request, Found(b))
  }

  /** The requests before the scan: chain id, finalized anchor and start block. */
  method ReadAnchor(net: Net, clock: nat -> int, monitor: bool)
    returns (failure: Option<Failure>, anchor: Block, start: Block, spare: nat, attempts: nat)
    ensures spare <= 2 && attempts <= 3 + (2 - spare)
    ensures failure.None? ==>
              var first := anchor.number - Lookback(monitor, anchor.number);
              && Given(net, GetChainId, Chain(8453)) && Seen(net, GetFinalized, anchor)
              && first >= 0 && Seen(net, GetBlock(first), start) && Covers(start, anchor, first, clock(1) / 1000)
    ensures failure.Some? ==> HeadCause(net, clock, monitor, anchor, start, spare, failure.value)
  {
    anchor, start := Block(0, [], 0), Block(0, [], 0);
    var head;
    head, spare, attempts := FetchAll(net, [GetChainId, GetFinalized], SPARE_CALLS, 0);
    assert [GetChainId, GetFinalized][0] == GetChainId && [GetChainId, GetFinalized][1] == GetFinalized;
    if head[0].Failed? || head[1].Failed? {
      assert head[0].Failed? ==> Given(net, GetChainId, Failed(head[0].transient));
      return Some(RpcFailed), anchor, start, spare, attempts;
    }
    if head[0] != Chain(BASE_CHAIN) { return Some(WrongChain), anchor, start, spare, attempts; }
    if !head[1].Found? { return Some(BadBlock), anchor, start, spare, attempts; }
    anchor := head[1].block;
    var lookback := Lookback(monitor, anchor.number);
    if anchor.number < lookback { return Some(TooShort), anchor, start, spare, attempts; }
    var first := anchor.number - lookback;
    var reply;
    reply, spare, attempts := Fetch(net, GetBlock(first), spare, attempts);
    if reply.Failed? {
      assert Given(net, GetBlock(first), Failed(reply.transient));
      return Some(RpcFailed), anchor, start, spare, attempts;
    }
    if !reply.Found? { return Some(BadBlock), anchor, start, spare, attempts; }
    start := reply.block;
    var now := clock(1) / 1000;
    if start.number != first || anchor.timestamp > MAX_SAFE || anchor.timestamp > now + 60
      || now - anchor.timestamp > 3600 || start.timestamp > anchor.timestamp - 86400 {
      return Some(NotCovered), anchor, start, spare, attempts;
    }
    failure := None;
  }

  /** The block was read again with this number and hash. */
  ghost predicate Confirmed(net: Net, number: nat, hash: Text) {
    exists again: Block :: Seen(net, GetBlock(number), again) && again.number == number && again.hash == hash
  }

  /** The block was read again with another number or hash. */
  ghost predicate Changed(net: Net, number: nat, hash: Text) {
    exists again: Block :: Seen(net, GetBlock(number), again) && (again.number != number || again.hash != hash)
  }

  /** The request after the scan: the anchor again. */
  method ConfirmAnchor(net: Net, clock: nat -> int, monitor: bool, anchor: Block, ghost start: Block, spareCalls: nat, made: nat)
    returns (failure: Option<Failure>, spare: nat, attempts: nat)
    ensures failure.None? ==> Confirmed(net, anchor.number, anchor.hash)
    ensures failure.Some? ==>
              HeadCause(net, clock, monitor, anchor, start, spare, failure.value) ||
              (failure.value == AnchorChanged && Changed(net, anchor.number, anchor.hash))
    ensures spare <= spareCalls && attempts == made + 1 + (spareCalls - spare)
  {
    var reply;
    reply, spare, attempts := Fetch(net, GetBlock(anchor.number), spareCalls, made);
    if reply.Failed? {
      assert Given(net, GetBlock(anchor.number), Failed(reply.transient));
      return Some(RpcFailed), spare, attempts;
    }
    if !reply.Found? { return Some(BadBlock), spare, attempts; }
    assert Seen(net, GetBlock(anchor.number), reply.block);
    if reply.block.hash != anchor.hash || reply.block.number != anchor.number { return Some(AnchorChanged), spare, attempts; }
    failure := None;
  }

  /**
   collectWalletHistory. The clock is read in milliseconds: at the start, after the start block, before each batch and at the end.
   A returned history is what the wallet spent in exactly the blocks from `endBlock - lookback` to `endBlock`,
   under an anchor that is fresh, a day younger than the start block and unchanged after the scan.
   */
  method CollectWalletHistory(net: Net, clock: nat -> int, q: Query, paced: bool, monitor: bool, ghost chain: seq<Log>)
    returns (r: Outcome, attempts: nat, spare: nat, anchor: Block, start: Block)
    ensures attempts <= 50 && spare <= 2
    ensures r.History? && Faithful(net, q, chain) ==> r.outgoing == Spent(q, chain, r.startBlock, r.endBlock)
    ensures r.History? ==>
              && Given(net, GetChainId, Chain(8453))
              && r.startBlock == r.endBlock - Lookback(monitor, r.endBlock) && r.outgoing <= 1_000_000_000_000
              && Seen(net, GetFinalized, anchor) && anchor.number == r.endBlock && anchor.hash == r.endHash
              && Seen(net, GetBlock(r.startBlock), start) && start.number == r.startBlock
              && Covers(start, anchor, r.startBlock, clock(1) / 1000)
              && Confirmed(net, r.endBlock, r.endHash)
    ensures r.History? ==>
              var batches := Batches(|Ranges(r.startBlock, r.endBlock, if monitor then 10_000 else 1024)|, if paced then 1 else 6);
              r.observedAt == clock(2 + batches) / 1000 && InTime(clock, 2 + batches, if monitor then 180_000 else 120_000)
    ensures r.Rejected? ==> Cause(net, clock, q, monitor, chain, anchor, start, spare, r.why)
  {
    hide Spent, FaithfulAnswer, Accepted, Tiles, Batches, InTime, Faithful, Confirmed, Changed, HeadCause, ScanCause, Covers;
    var failure;
    failure, anchor, start, spare, attempts := ReadAnchor(net, clock, monitor);
    if failure.Some? { return Rejected(failure.value), attempts, spare, anchor, start; }
    var end := anchor.number;
    var first := end - Lookback(monitor, end);
    var ranges := BuildRanges(first, end, Span(monitor));
    FewRanges(monitor, end);
    RangesTile(first, end, Span(monitor));
    var outgoing, readings;
    failure, outgoing, spare, attempts, readings :=
      ScanLogs(net, clock, q, ranges, if paced then 1 else CONCURRENCY, Timeout(monitor),
               spare, attempts, chain, first, end);
    if failure.Some? { return Rejected(failure.value), attempts, spare, anchor, start; }
    failure, spare, attempts := ConfirmAnchor(net, clock, monitor, anchor, start, spare, attempts);
    if failure.Some? { return Rejected(failure.value), attempts, spare, anchor, start; }
    r := History(outgoing, clock(readings) / 1000, first, end, anchor.hash);
  }
}
