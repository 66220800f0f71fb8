/** A wallet's finalized transfer history: how far back it reaches, its block ranges, and what faithful answers add up to. */
module WalletHistory {
  import opened CodeUnits

  datatype Block = Block(number: nat, hash: Text, timestamp: nat)

  /** An event that parsed: contract, first two topics, amount, block, log index and transaction. */
  datatype Log = Log(address: Text, kind: Text, sender: Text, amount: nat, height: nat, index: nat, transaction: Text)

  datatype Request = GetChainId | GetFinalized | GetBlock(height: nat) | GetLogs(from: nat, to: nat)

  /** `transient` failures are rate limits, server errors and invalid envelopes; an entry of None does not parse. */
  datatype Answer =
    | Failed(transient: bool)
    | Chain(id: nat)
    | Found(block: Block)
    | Logs(entries: seq<Option<Log>>)
    | Malformed

  /** The n-th attempt at a request is answered by `net(n, request)`: an answer may depend on when it is asked for. */
  type Net = (nat, Request) -> Answer

  datatype Range = Range(from: nat, to: nat)

  datatype Query = Query(contract: Text, transfer: Text, sender: Text)

  datatype Failure =
    | RpcFailed | WrongChain | BadBlock | TooShort | NotCovered | TimedOut
    | Incomplete | InvalidLog | TooLarge | AnchorChanged

  datatype Outcome =
    | Rejected(why: Failure)
    | History(outgoing: nat, observedAt: int, startBlock: nat, endBlock: nat, endHash: Text)

  const BASE_CHAIN := 0x2105
  const LOOKBACK := 45000
  const LOG_SPAN := 1024
  const MONITOR_LOG_SPAN := 10000
  const ACTIVATION := 53_556_127
  const DENIM_DAY := 432_000
  const CONCURRENCY := 6
  const SPARE_CALLS := 2
  const MAX_LOGS := 1000
  const MAX_SPEND := 1_000_000_000_000
  const MAX_SAFE := 0x1F_FFFF_FFFF_FFFF

  // ---- how far back -------------------------------------------------------------------

  function MonitorLookbackBlocks(end: int): int {
    if end <= ACTIVATION then LOOKBACK
    else
      var denim := end - ACTIVATION;
      if denim >= DENIM_DAY then DENIM_DAY
      else
        var legacy := (DENIM_DAY - denim + 9) / 10;
        if denim + legacy > LOOKBACK then denim + legacy else LOOKBACK
  }

  /** Milliseconds at a block: one every 2 s up to the activation block, one every 0.2 s after it. */
  function BlockTime(height: int): int {
    if height <= 53_556_127 then 2000 * height else 2000 * 53_556_127 + 200 * (height - 53_556_127)
  }

  predicate SpansADay(end: int, lookback: int) {
    BlockTime(end) - BlockTime(end - lookback) >= 86_400_000
  }

  /** The lookback is the shortest one of at least 45000 blocks that spans a day, and at most 432000. */
  lemma LookbackIsShortestDay(end: int, shorter: int)
    ensures 45_000 <= MonitorLookbackBlocks(end) <= 432_000
    ensures SpansADay(end, MonitorLookbackBlocks(end))
    ensures 45_000 <= shorter < MonitorLookbackBlocks(end) ==> !SpansADay(end, shorter)
  {
    var denim := end - ACTIVATION;
    if 0 < denim < DENIM_DAY {
      var legacy := (DENIM_DAY - denim + 9) / 10;
      assert 10 * legacy >= DENIM_DAY - denim > 10 * (legacy - 1);
    }
  }

  // ---- the ranges -----------------------------------------------------------------------

  function Ranges(from: nat, end: nat, span: nat): seq<Range>
    requires span > 0
    decreases end + 1 - from
  {
    if from > end then []
    else [Range(from, if from + span - 1 < end then from + span - 1 else end)] + Ranges(from + span, end, span)
  }

  /** Contiguous, disjoint and nonempty ranges covering exactly the blocks from `lo` to `hi`. */
  predicate Tiles(ranges: seq<Range>, lo: int, hi: int) {
    if ranges == [] then lo > hi
    else ranges[0].from == lo <= ranges[0].to <= hi && Tiles(ranges[1..], ranges[0].to + 1, hi)
  }

  lemma {:induction false} RangesTile(from: nat, end: nat, span: nat)
    requires span > 0
    ensures Tiles(Ranges(from, end, span), from, end)
    ensures from <= end ==> |Ranges(from, end, span)| * span < end - from + 1 + span
    ensures from > end ==> Ranges(from, end, span) == []
    ensures forall i :: 0 <= i < |Ranges(from, end, span)| ==>
              var r := Ranges(from, end, span)[i]; r.to - r.from < span && (i + 1 < |Ranges(from, end, span)| ==> r.to - r.from + 1 == span)
    decreases end + 1 - from
  {
    if from <= end {
      RangesTile(from + span, end, span);
      if from + span > end {
        assert |Ranges(from, end, span)| == 1;
      } else {
        assert |Ranges(from, end, span)| * span == |Ranges(from + span, end, span)| * span + span;
      }
    }
  }

  function Span(monitor: bool): nat { if monitor then MONITOR_LOG_SPAN else LOG_SPAN }

  function Lookback(monitor: bool, end: nat): nat {
    LookbackIsShortestDay(end, 0);
    if monitor then MonitorLookbackBlocks(end) else LOOKBACK
  }

  /** Either provider needs at most 44 ranges, each as long as it permits but the last. */
  lemma FewRanges(monitor: bool, end: nat)
    requires Lookback(monitor, end) <= end
    ensures var ranges, permitted := Ranges(end - Lookback(monitor, end), end, Span(monitor)), if monitor then 10_000 else 1024;
            && |ranges| <= 44
            && forall i :: 0 <= i < |ranges| ==>
                 ranges[i].to - ranges[i].from < permitted && (i + 1 < |ranges| ==> ranges[i].to - ranges[i].from + 1 == permitted)
    ensures !monitor ==> Lookback(monitor, end) == 45_000
  {
    RangesTile(end - Lookback(monitor, end), end, Span(monitor));
    LookbackIsShortestDay(end, 0);
  }

  // ---- what the wallet spent --------------------------------------------------------------

  function Lower(t: Text): Text {
    seq(|t|, i requires 0 <= i < |t| => if 'A' as int <= t[i] <= 'Z' as int then t[i] + 32 else t[i])
  }

  /** Alike but for the case of the letters A to Z in the first, which are lower in the second. */
  predicate LowerCased(t: Text, lower: Text) {
    |t| == |lower| && forall i :: 0 <= i < |t| ==> lower[i] == if 0x41 <= t[i] <= 0x5A then t[i] + 0x20 else t[i]
  }

  /** A transfer out of the wallet, by the contract, in the blocks. */
  predicate Wanted(q: Query, l: Log, lo: int, hi: int) {
    LowerCased(l.address, q.contract) && l.kind == q.transfer && l.sender == q.sender && lo <= l.height <= hi
  }

  function Select(q: Query, chain: seq<Log>, lo: int, hi: int): seq<Log> {
    if chain == [] then []
    else if Wanted(q, chain[0], lo, hi) then [chain[0]] + Select(q, chain[1..], lo, hi)
    else Select(q, chain[1..], lo, hi)
  }

  function Sum(logs: seq<Log>): nat {
    if logs == [] then 0 else logs[0].amount + Sum(logs[1..])
  }

  /** The wallet's transfers in the blocks from `lo` to `hi` of the chain. */
  function Spent(q: Query, chain: seq<Log>, lo: int, hi: int): nat {
    Sum(Select(q, chain, lo, hi))
  }

  lemma {:induction false} SpentSplits(q: Query, chain: seq<Log>, lo: int, mid: int, hi: int)
    requires lo <= mid + 1 && mid <= hi
    ensures Spent(q, chain, lo, mid) + Spent(q, chain, mid + 1, hi) == Spent(q, chain, lo, hi)
  {
    if chain != [] {
      SpentSplits(q, chain[1..], lo, mid, hi);
      SpentCons(q, chain, lo, mid);
      SpentCons(q, chain, mid + 1, hi);
      SpentCons(q, chain, lo, hi);
    }
  }

  lemma SpentCons(q: Query, chain: seq<Log>, lo: int, hi: int)
    requires chain != []
    ensures Spent(q, chain, lo, hi) ==
            (if Wanted(q, chain[0], lo, hi) then chain[0].amount else 0) + Spent(q, chain[1..], lo, hi)
  {
    assert Wanted(q, chain[0], lo, hi) ==> Select(q, chain, lo, hi)[1..] == Select(q, chain[1..], lo, hi);
  }

  lemma {:induction false} NothingSpentInNoBlocks(q: Query, chain: seq<Log>, lo: int, hi: int)
    requires lo > hi
    ensures Spent(q, chain, lo, hi) == 0
  {
    if chain != [] { NothingSpentInNoBlocks(q, chain[1..], lo, hi); }
  }

  lemma {:induction false} SelectKeepsWanted(q: Query, chain: seq<Log>, lo: int, hi: int, l: Log)
    ensures l in Select(q, chain, lo, hi) <==> l in chain && Wanted(q, l, lo, hi)
  {
    if chain != [] {
      SelectKeepsWanted(q, chain[1..], lo, hi, l);
      assert l in chain <==> l == chain[0] || l in chain[1..];
    }
  }

  // ---- a faithful provider ------------------------------------------------------------------

  function Key(l: Log): (Text, nat) { (l.transaction, l.index) }

  predicate KeyUnused(logs: seq<Log>, key: (Text, nat)) {
    logs == [] || (Key(logs[0]) != key && KeyUnused(logs[1..], key))
  }

  /** A transaction hash and a log index name one event of the chain. */
  predicate DistinctKeys(logs: seq<Log>) {
    logs == [] || (KeyUnused(logs[1..], Key(logs[0])) && DistinctKeys(logs[1..]))
  }

  function Entries(raw: seq<Option<Log>>): seq<Log> {
    if raw == [] then [] else (if raw[0].Some? then [raw[0].value] else []) + Entries(raw[1..])
  }

  /** An answer short of the provider's cap is complete, and reports only events of the chain. */
  ghost predicate FaithfulAnswer(q: Query, chain: seq<Log>, from: nat, to: nat, raw: seq<Option<Log>>) {
    |raw| < 1000 ==>
      && (forall l :: l in Entries(raw) ==> l in chain)
      && (forall l :: l in Select(q, chain, from, to) ==> l in Entries(raw))
  }

  ghost predicate Faithful(net: Net, q: Query, chain: seq<Log>) {
    DistinctKeys(chain) &&
    forall n: nat, from: nat, to: nat ::
      net(n, GetLogs(from, to)).Logs? ==> FaithfulAnswer(q, chain, from, to, net(n, GetLogs(from, to)).entries)
  }

  // ---- what the checks accept -----------------------------------------------------------------

  /** Every entry is a wanted event of the range and its key is new. */
  predicate Accepted(q: Query, range: Range, raw: seq<Option<Log>>, seen: set<(Text, nat)>) {
    raw == [] ||
    (raw[0].Some? && Wanted(q, raw[0].value, range.from, range.to) && Key(raw[0].value) !in seen &&
     Accepted(q, range, raw[1..], seen + {Key(raw[0].value)}))
  }

  function Total(raw: seq<Option<Log>>): nat {
    Sum(Entries(raw))
  }

  lemma TotalCons(raw: seq<Option<Log>>)
    requires raw != []
    ensures Total(raw) == (if raw[0].Some? then raw[0].value.amount else 0) + Total(raw[1..])
  {
    assert raw[0].Some? ==> Entries(raw)[1..] == Entries(raw[1..]);
    assert raw[0].None? ==> Entries(raw) == Entries(raw[1..]);
  }

  lemma {:induction false} AcceptedEntry(q: Query, range: Range, raw: seq<Option<Log>>, seen: set<(Text, nat)>, l: Log)
    requires Accepted(q, range, raw, seen) && l in Entries(raw)
    ensures Wanted(q, l, range.from, range.to) && Key(l) !in seen
  {
    var first := raw[0].value;
    assert Entries(raw) == [first] + Entries(raw[1..]);
    if l != first { AcceptedEntry(q, range, raw[1..], seen + {Key(first)}, l); }
  }

  /** No entry twice. */
  predicate NoRepeats(logs: seq<Log>) {
    logs == [] || (logs[0] !in logs[1..] && NoRepeats(logs[1..]))
  }

  lemma {:induction false} AcceptedNoRepeats(q: Query, range: Range, raw: seq<Option<Log>>, seen: set<(Text, nat)>)
    requires Accepted(q, range, raw, seen)
    ensures NoRepeats(Entries(raw))
  {
    if raw != [] {
      var first := raw[0].value;
      AcceptedNoRepeats(q, range, raw[1..], seen + {Key(first)});
      assert Entries(raw)[1..] == Entries(raw[1..]);
      if first in Entries(raw[1..]) { AcceptedEntry(q, range, raw[1..], seen + {Key(first)}, first); }
    }
  }

  lemma {:induction false} UnusedNotIn(logs: seq<Log>, l: Log)
    requires KeyUnused(logs, Key(l))
    ensures l !in logs
  {
    if logs != [] { UnusedNotIn(logs[1..], l); }
  }

  lemma {:induction false} SelectNoRepeats(q: Query, chain: seq<Log>, lo: int, hi: int)
    requires DistinctKeys(chain)
    ensures NoRepeats(Select(q, chain, lo, hi))
  {
    if chain != [] {
      SelectNoRepeats(q, chain[1..], lo, hi);
      UnusedNotIn(chain[1..], chain[0]);
      SelectKeepsWanted(q, chain[1..], lo, hi, chain[0]);
      if Wanted(q, chain[0], lo, hi) {
        assert Select(q, chain, lo, hi)[1..] == Select(q, chain[1..], lo, hi);
      }
    }
  }

  // ---- the same events in another order have the same sum ---------------------------------------

  function Without(logs: seq<Log>, l: Log): seq<Log> {
    if logs == [] then [] else if logs[0] == l then logs[1..] else [logs[0]] + Without(logs[1..], l)
  }

  lemma {:induction false} WithoutSum(logs: seq<Log>, l: Log)
    requires l in logs
    ensures Sum(logs) == l.amount + Sum(Without(logs, l))
  {
    if logs[0] != l {
      WithoutSum(logs[1..], l);
      assert Without(logs, l)[1..] == Without(logs[1..], l);
    }
  }

  lemma {:induction false} WithoutMembers(logs: seq<Log>, l: Log, m: Log)
    requires m in logs && m != l
    ensures m in Without(logs, l)
  {
    if logs[0] != l {
      if logs[0] != m { WithoutMembers(logs[1..], l, m); }
      assert Without(logs, l) == [logs[0]] + Without(logs[1..], l);
    }
  }

  lemma {:induction false} FewerEventsSmallerSum(a: seq<Log>, b: seq<Log>)
    requires NoRepeats(a) && forall l :: l in a ==> l in b
    ensures Sum(a) <= Sum(b)
  {
    if a != [] {
      var l := a[0];
      assert l in a;
      WithoutSum(b, l);
      forall m | m in a[1..] ensures m in Without(b, l) {
        assert m in a;
        WithoutMembers(b, l, m);
      }
      FewerEventsSmallerSum(a[1..], Without(b, l));
    }
  }

  /** An accepted, uncapped answer of a faithful provider adds exactly what was spent in its range. */
  lemma AcceptedTotal(q: Query, chain: seq<Log>, range: Range, raw: seq<Option<Log>>, seen: set<(Text, nat)>)
    requires DistinctKeys(chain) && FaithfulAnswer(q, chain, range.from, range.to, raw)
    requires |raw| < MAX_LOGS && Accepted(q, range, raw, seen)
    ensures Total(raw) == Spent(q, chain, range.from, range.to)
  {
    var a, b := Entries(raw), Select(q, chain, range.from, range.to);
    AcceptedNoRepeats(q, range, raw, seen);
    SelectNoRepeats(q, chain, range.from, range.to);
    forall l | l in a ensures l in b {
      SelectKeepsWanted(q, chain, range.from, range.to, l);
      AcceptedEntry(q, range, raw, seen, l);
    }
    FewerEventsSmallerSum(a, b);
    FewerEventsSmallerSum(b, a);
  }

  /** Every key seen belongs to an event of the chain in an earlier block. */
  ghost predicate SeenBelow(chain: seq<Log>, seen: set<(Text, nat)>, next: int) {
    forall k :: k in seen ==> exists l :: l in chain && Key(l) == k && l.height < next
  }

  lemma {:induction false} KeyNamesEvent(chain: seq<Log>, l: Log, m: Log)
    requires DistinctKeys(chain) && l in chain && m in chain && Key(l) == Key(m)
    ensures l == m
  {
    if l == chain[0] {
      if m != l { KeyUsed(chain[1..], m); }
    } else if m == chain[0] {
      KeyUsed(chain[1..], l);
    } else {
      KeyNamesEvent(chain[1..], l, m);
    }
  }

  lemma {:induction false} KeyUsed(logs: seq<Log>, l: Log)
    requires l in logs
    ensures !KeyUnused(logs, Key(l))
  {
    if logs[0] != l { KeyUsed(logs[1..], l); }
  }

  lemma {:induction false} AcceptedWithMore(q: Query, range: Range, raw: seq<Option<Log>>, seen: set<(Text, nat)>, more: set<(Text, nat)>)
    requires Accepted(q, range, raw, seen)
    requires forall l :: l in Entries(raw) ==> Key(l) !in more
    ensures Accepted(q, range, raw, seen + more)
  {
    if raw != [] {
      var first := raw[0].value;
      assert Entries(raw) == [first] + Entries(raw[1..]);
      assert first in Entries(raw);
      forall l | l in Entries(raw[1..]) ensures Key(l) !in more { assert l in Entries(raw); }
      AcceptedWithMore(q, range, raw[1..], seen + {Key(first)}, more);
      assert seen + {Key(first)} + more == seen + more + {Key(first)};
    }
  }

  /** An answer acceptable by itself is not turned down for what earlier ranges reported. */
  lemma AcceptedAfterOthers(q: Query, chain: seq<Log>, range: Range, raw: seq<Option<Log>>, seen: set<(Text, nat)>)
    requires DistinctKeys(chain) && FaithfulAnswer(q, chain, range.from, range.to, raw) && |raw| < MAX_LOGS
    requires SeenBelow(chain, seen, range.from) && Accepted(q, range, raw, {})
    ensures Accepted(q, range, raw, seen)
  {
    forall l | l in Entries(raw) ensures Key(l) !in seen {
      AcceptedEntry(q, range, raw, {}, l);
      if Key(l) in seen {
        var m :| m in chain && Key(m) == Key(l) && m.height < range.from;
        KeyNamesEvent(chain, l, m);
      }
    }
    AcceptedWithMore(q, range, raw, {}, seen);
    assert {} + seen == seen;
  }

  /** Events taken from an uncapped answer of a faithful provider, none twice, are no more than was spent in its range. */
  ghost predicate Taken(q: Query, range: Range, raw: seq<Option<Log>>, taken: seq<Log>) {
    NoRepeats(taken) && forall l :: l in taken ==> l in Entries(raw) && Wanted(q, l, range.from, range.to)
  }

  lemma TakenTotal(q: Query, chain: seq<Log>, range: Range, raw: seq<Option<Log>>, taken: seq<Log>)
    requires FaithfulAnswer(q, chain, range.from, range.to, raw)
    requires |raw| < MAX_LOGS && Taken(q, range, raw, taken)
    ensures Sum(taken) <= Spent(q, chain, range.from, range.to)
  {
    forall l | l in taken ensures l in Select(q, chain, range.from, range.to) {
      SelectKeepsWanted(q, chain, range.from, range.to, l);
    }
    FewerEventsSmallerSum(taken, Select(q, chain, range.from, range.to));
  }

  lemma {:induction false} EntryAt(raw: seq<Option<Log>>, i: nat)
    requires i < |raw| && raw[i].Some?
    ensures raw[i].value in Entries(raw)
  {
    if i > 0 { EntryAt(raw[1..], i - 1); }
  }
}
