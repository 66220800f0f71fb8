/** The OFAC 50 % rule over an ownership tree; name normalization and the sanctions lookup are given, percentages exact reals. */
module Sanctions50 {
  import opened CodeUnits

  datatype Match = Match(list: Text, source: Text)

  /** normalizeEntityName and lookupDirectSanctions. */
  datatype Oracle = Oracle(norm: Text -> Text, listed: Text -> Option<Match>)

  /** A holder without nested shareholders has an empty list of them. */
  datatype Shareholder = Shareholder(name: Text, percentage: real, shareholders: seq<Shareholder>)

  const DEFAULT_THRESHOLD := 50.0

  /** graph.threshold_percentage ?? 50.0. */
  function ThresholdOf(thresholdPercentage: Option<real>): real {
    if thresholdPercentage.Some? then thresholdPercentage.value else DEFAULT_THRESHOLD
  }

  const DEEMED: Match := Match(Units("OFAC_50_PERCENT_DEEMED"), Units("built_in"))

  datatype Detail = Detail(
    name: Text, direct: real, effective: real, hit: Match, path: seq<Text>, deemed: bool)

  datatype Result = Result(
    violation: bool, directMatch: Option<Match>, aggregate: real, threshold: real, blocked: seq<Detail>)

  function Clamp(p: real): real {
    if p < 0.0 then 0.0 else if p > 100.0 then 100.0 else p
  }

  /** Math.round(x * 100) / 100. */
  function Round2(x: real): real {
    (x * 100.0 + 0.5).Floor as real / 100.0
  }

  // ---- the rule, declaratively ---------------------------------------------------

  /** A holder is blocked when it is listed, or when its own holders make it violate the rule. */
  predicate Blocked(o: Oracle, h: Shareholder, threshold: real)
    decreases h, 0
  {
    o.listed(Trim(h.name)).Some? ||
    (h.shareholders != [] && OwnersViolate(o, Trim(h.name), h.shareholders, threshold))
  }

  /** What a holder adds to the blocked stake in `entity`: nothing, if it is named like the entity. */
  function Share(o: Oracle, entity: Text, h: Shareholder, threshold: real): (r: real)
    ensures r >= 0.0
    decreases h, 1
  {
    if o.norm(Trim(h.name)) != o.norm(entity) && Blocked(o, h, threshold) then Clamp(h.percentage) else 0.0
  }

  function Aggregate(o: Oracle, entity: Text, holders: seq<Shareholder>, threshold: real): (r: real)
    ensures r >= 0.0
    decreases holders, 0
  {
    if holders == [] then 0.0 else Share(o, entity, holders[0], threshold) + Aggregate(o, entity, holders[1..], threshold)
  }

  /** The rounded blocked stake reaches the threshold. */
  predicate OwnersViolate(o: Oracle, entity: Text, holders: seq<Shareholder>, threshold: real)
    decreases holders, 1
  {
    Round2(Aggregate(o, entity, holders, threshold)) >= threshold
  }

  predicate Violates(o: Oracle, entity: Text, holders: seq<Shareholder>, threshold: real) {
    o.listed(Trim(entity)).Some? || OwnersViolate(o, Trim(entity), holders, threshold)
  }

  // ---- what is reported ------------------------------------------------------------

  function Portion(percentage: real, effective: real): real {
    percentage * effective / 100.0
  }

  /** A blocked holder found below a holder that is not blocked itself. */
  function Lift(entity: Text, holder: Text, percentage: real, d: Detail): Detail {
    d.(effective := Round2(Portion(percentage, d.effective)),
       path := [entity, holder] + (if d.path == [] then [] else d.path[1..]),
       deemed := false)
  }

  function LiftAll(entity: Text, holder: Text, percentage: real, ds: seq<Detail>): seq<Detail> {
    if ds == [] then [] else [Lift(entity, holder, percentage, ds[0])] + LiftAll(entity, holder, percentage, ds[1..])
  }

  /** What one holder adds to the report. */
  function Reported(o: Oracle, entity: Text, h: Shareholder, threshold: real): seq<Detail>
    decreases h, 1
  {
    var name, stake := Trim(h.name), Clamp(h.percentage);
    if o.norm(name) == o.norm(entity) then []
    else if o.listed(name).Some? then [Detail(name, stake, stake, o.listed(name).value, [entity, name], false)]
    else if h.shareholders == [] then []
    else if OwnersViolate(o, name, h.shareholders, threshold) then [Detail(name, stake, stake, DEEMED, [entity, name], true)]
    else if Round2(Aggregate(o, name, h.shareholders, threshold)) > 0.0 then
      LiftAll(entity, name, stake, ReportedAll(o, name, h.shareholders, threshold))
    else []
  }

  function ReportedAll(o: Oracle, entity: Text, holders: seq<Shareholder>, threshold: real): seq<Detail>
    decreases holders
  {
    if holders == [] then [] else Reported(o, entity, holders[0], threshold) + ReportedAll(o, entity, holders[1..], threshold)
  }

  // ---- the recursive loop ---------------------------------------------------------------

  /** for (const subBlocked of subGraphResult.blocked_shareholders) push(...) */
  method PushLifted(blocked: seq<Detail>, entity: Text, holder: Text, percentage: real, ds: seq<Detail>) returns (r: seq<Detail>)
    ensures r == blocked + LiftAll(entity, holder, percentage, ds)
  {
    r := blocked;
    for i := 0 to |ds|
      invariant r + LiftAll(entity, holder, percentage, ds[i..]) == blocked + LiftAll(entity, holder, percentage, ds)
    {
      assert ds[i..][0] == ds[i] && ds[i..][1..] == ds[i + 1..];
      Assoc(r, [Lift(entity, holder, percentage, ds[i])], LiftAll(entity, holder, percentage, ds[i + 1..]));
      r := r + [Lift(entity, holder, percentage, ds[i])];
    }
    assert LiftAll(entity, holder, percentage, ds[|ds|..]) == [];
  }

  /** What the holders from the `i`th on add, taken one by one. */
  lemma OneByOne(o: Oracle, entity: Text, holders: seq<Shareholder>, threshold: real, i: nat)
    requires i < |holders|
    ensures Aggregate(o, entity, holders[i..], threshold)
         == Share(o, entity, holders[i], threshold) + Aggregate(o, entity, holders[i + 1..], threshold)
    ensures ReportedAll(o, entity, holders[i..], threshold)
         == Reported(o, entity, holders[i], threshold) + ReportedAll(o, entity, holders[i + 1..], threshold)
  {
    assert holders[i..][0] == holders[i] && holders[i..][1..] == holders[i + 1..];
  }

  /** evaluateSanctions50Rule, with its accumulator and its visited set. */
  method EvaluateSanctions50Rule(o: Oracle, entityName: Text, holders: seq<Shareholder>, thresholdPercentage: Option<real>) returns (r: Result)
    ensures r.threshold == if thresholdPercentage.Some? then thresholdPercentage.value else 50.0
    ensures r.violation <==> Violates(o, entityName, holders, r.threshold)
    ensures r.directMatch == o.listed(Trim(entityName))
    ensures r.directMatch.Some? ==>
              r.aggregate == 100.0 &&
              r.blocked == [Detail(Trim(entityName), 100.0, 100.0, r.directMatch.value, [Trim(entityName)], false)]
    ensures r.directMatch.None? ==>
              && r.aggregate == Round2(Aggregate(o, Trim(entityName), holders, r.threshold))
              && r.blocked == ReportedAll(o, Trim(entityName), holders, r.threshold)
    decreases holders
  {
    hide Round2, Clamp, Trim, Lift, LiftAll;
    var threshold := ThresholdOf(thresholdPercentage);
    var entity := Trim(entityName);
    var directMatch := o.listed(entity);
    if directMatch.Some? {
      return Result(true, directMatch, 100.0, threshold, [Detail(entity, 100.0, 100.0, directMatch.value, [entity], false)]);
    }
    var blocked: seq<Detail> := [];
    var visited := {o.norm(entity)};
    var aggregate := 0.0;
    for i := 0 to |holders|
      invariant visited == {o.norm(entity)}
      invariant aggregate + Aggregate(o, entity, holders[i..], threshold) == Aggregate(o, entity, holders, threshold)
      invariant blocked + ReportedAll(o, entity, holders[i..], threshold) == ReportedAll(o, entity, holders, threshold)
    {
      var sh := holders[i];
      var shName := Trim(sh.name);
      var normalized := o.norm(shName);
      var directPct := Clamp(sh.percentage);
      OneByOne(o, entity, holders, threshold, i);
      Assoc(blocked, Reported(o, entity, sh, threshold), ReportedAll(o, entity, holders[i + 1..], threshold));
      if normalized in visited {
        assert blocked + [] == blocked;
        continue;
      }
      var shMatch := o.listed(shName);
      if shMatch.Some? {
        aggregate := aggregate + directPct;
        blocked := blocked + [Detail(shName, directPct, directPct, shMatch.value, [entity, shName], false)];
        continue;
      }
      if sh.shareholders != [] {
        visited := visited + {normalized};
        var sub := EvaluateSanctions50Rule(o, shName, sh.shareholders, Some(threshold));
        if sub.violation || sub.aggregate >= threshold {
          aggregate := aggregate + directPct;
          blocked := blocked + [Detail(shName, directPct, directPct, DEEMED, [entity, shName], true)];
        } else if sub.aggregate > 0.0 {
          blocked := PushLifted(blocked, entity, shName, directPct, sub.blocked);
        } else {
          assert blocked + [] == blocked;
        }
        visited := visited - {normalized};
      } else {
        assert blocked + [] == blocked;
      }
    }
    assert holders[|holders|..] == [];
    assert blocked + [] == blocked;
    var rounded := Round2(aggregate);
    r := Result(rounded >= threshold, None, rounded, threshold, blocked);
  }

  // ---- reported paths are real chains, and all of them --------------------------------------

  /**
   A chain from the entity down to a blocked holder: each step a holder not named like
   what it holds, none blocked before the last, and each of those with some
   blocked stake in it.
   */
  predicate Chain(o: Oracle, entity: Text, holders: seq<Shareholder>, threshold: real, path: seq<Text>)
    decreases holders
  {
    |path| >= 2 && path[0] == entity &&
    exists i :: 0 <= i < |holders| && LinkTo(o, entity, holders[i], threshold, path)
  }

  predicate LinkTo(o: Oracle, entity: Text, h: Shareholder, threshold: real, path: seq<Text>)
    requires |path| >= 2
    decreases h, 1
  {
    && Trim(h.name) == path[1] && o.norm(path[1]) != o.norm(entity)
    && if |path| == 2 then Blocked(o, h, threshold)
       else
         && !Blocked(o, h, threshold)
         && Round2(Aggregate(o, path[1], h.shareholders, threshold)) > 0.0
         && Chain(o, path[1], h.shareholders, threshold, path[1..])
  }

  predicate HasPath(ds: seq<Detail>, path: seq<Text>) {
    exists i :: 0 <= i < |ds| && ds[i].path == path
  }

  lemma HasPathAppend(a: seq<Detail>, b: seq<Detail>, path: seq<Text>)
    ensures HasPath(a + b, path) <==> HasPath(a, path) || HasPath(b, path)
  {
    if HasPath(a, path) {
      var i :| 0 <= i < |a| && a[i].path == path;
      assert (a + b)[i].path == path;
    }
    if HasPath(b, path) {
      var i :| 0 <= i < |b| && b[i].path == path;
      assert (a + b)[|a| + i].path == path;
    }
  }

  lemma {:induction false} HasPathLift(entity: Text, holder: Text, percentage: real, ds: seq<Detail>, path: seq<Text>)
    requires forall i :: 0 <= i < |ds| ==> |ds[i].path| >= 2 && ds[i].path[0] == holder
    ensures HasPath(LiftAll(entity, holder, percentage, ds), path) <==>
            |path| >= 3 && path[0] == entity && HasPath(ds, path[1..])
  {
    if ds != [] {
      var d := ds[0];
      var lifted := Lift(entity, holder, percentage, d);
      HasPathLift(entity, holder, percentage, ds[1..], path);
      HasPathAppend([lifted], LiftAll(entity, holder, percentage, ds[1..]), path);
      assert lifted.path == [entity] + d.path;
      assert [lifted][0] == lifted;
      assert HasPath([lifted], path) <==> path == [entity] + d.path;
      assert path == [entity] + d.path <==> |path| >= 3 && path[0] == entity && path[1..] == d.path;
      if |path| >= 3 {
        assert ds == [d] + ds[1..];
        HasPathAppend([d], ds[1..], path[1..]);
        assert [d][0] == d;
      }
    }
  }

  lemma {:induction false} ReportedPathsStart(o: Oracle, entity: Text, holders: seq<Shareholder>, threshold: real)
    ensures forall i :: 0 <= i < |ReportedAll(o, entity, holders, threshold)| ==>
              var path := ReportedAll(o, entity, holders, threshold)[i].path; |path| >= 2 && path[0] == entity
    decreases holders
  {
    if holders != [] {
      ReportedPathStarts(o, entity, holders[0], threshold);
      ReportedPathsStart(o, entity, holders[1..], threshold);
    }
  }

  lemma {:induction false} LiftedPathsStart(entity: Text, holder: Text, percentage: real, ds: seq<Detail>)
    ensures forall i :: 0 <= i < |LiftAll(entity, holder, percentage, ds)| ==>
              var path := LiftAll(entity, holder, percentage, ds)[i].path; |path| >= 2 && path[0] == entity
  {
    if ds != [] { LiftedPathsStart(entity, holder, percentage, ds[1..]); }
  }

  lemma ReportedPathStarts(o: Oracle, entity: Text, h: Shareholder, threshold: real)
    ensures forall i :: 0 <= i < |Reported(o, entity, h, threshold)| ==>
              var path := Reported(o, entity, h, threshold)[i].path; |path| >= 2 && path[0] == entity
  {
    LiftedPathsStart(entity, Trim(h.name), Clamp(h.percentage), ReportedAll(o, Trim(h.name), h.shareholders, threshold));
  }

  lemma {:induction false} ReportedLinks(o: Oracle, entity: Text, h: Shareholder, threshold: real, path: seq<Text>)
    ensures HasPath(Reported(o, entity, h, threshold), path) <==>
            |path| >= 2 && path[0] == entity && LinkTo(o, entity, h, threshold, path)
    decreases h, 1
  {
    var name := Trim(h.name);
    var ds := Reported(o, entity, h, threshold);
    if o.norm(name) != o.norm(entity) && Blocked(o, h, threshold) {
      assert |ds| == 1 && ds[0].path == [entity, name];
      assert HasPath(ds, path) <==> path == [entity, name];
    } else if o.norm(name) != o.norm(entity) && h.shareholders != [] && Round2(Aggregate(o, name, h.shareholders, threshold)) > 0.0 {
      ReportedPathsStart(o, name, h.shareholders, threshold);
      HasPathLift(entity, name, Clamp(h.percentage), ReportedAll(o, name, h.shareholders, threshold), path);
      if |path| >= 3 {
        ReportedChains(o, name, h.shareholders, threshold, path[1..]);
      }
    } else {
      assert ds == [];
      if h.shareholders == [] { assert Round2(0.0) == 0.0; }
    }
  }

  /** The paths in a report are exactly the chains from the entity to the blocked holders behind it. */
  lemma {:induction false} ReportedChains(o: Oracle, entity: Text, holders: seq<Shareholder>, threshold: real, path: seq<Text>)
    ensures HasPath(ReportedAll(o, entity, holders, threshold), path) <==> Chain(o, entity, holders, threshold, path)
    decreases holders
  {
    if holders != [] {
      ReportedLinks(o, entity, holders[0], threshold, path);
      ReportedChains(o, entity, holders[1..], threshold, path);
      HasPathAppend(Reported(o, entity, holders[0], threshold), ReportedAll(o, entity, holders[1..], threshold), path);
      ChainCons(o, entity, holders, threshold, path);
    }
  }

  lemma ChainCons(o: Oracle, entity: Text, holders: seq<Shareholder>, threshold: real, path: seq<Text>)
    requires holders != []
    ensures Chain(o, entity, holders, threshold, path) <==>
            |path| >= 2 && path[0] == entity &&
            (LinkTo(o, entity, holders[0], threshold, path) || Chain(o, entity, holders[1..], threshold, path))
  {
    if Chain(o, entity, holders, threshold, path) {
      var i :| 0 <= i < |holders| && LinkTo(o, entity, holders[i], threshold, path);
      if i > 0 { assert holders[1..][i - 1] == holders[i]; }
    }
    if Chain(o, entity, holders[1..], threshold, path) {
      var i :| 0 <= i < |holders[1..]| && LinkTo(o, entity, holders[1..][i], threshold, path);
      assert holders[i + 1] == holders[1..][i];
    }
  }

  // ---- the rule in its own words ---------------------------------------------------------

  /** The multiple of 0.01 nearest to `x`, the higher of two, is this many hundredths. */
  predicate Nearest(x: real, hundredths: int) {
    -0.5 < hundredths as real - 100.0 * x <= 0.5
  }

  /** A stake as a percentage: no less than nothing, no more than all. */
  predicate Percentage(given: real, counted: real) {
    (given < 0.0 ==> counted == 0.0) && (0.0 <= given <= 100.0 ==> counted == given) && (given > 100.0 ==> counted == 100.0)
  }

  function Sum(xs: seq<real>): real {
    if xs == [] then 0.0 else xs[0] + Sum(xs[1..])
  }

  /** A blocked person: listed, or owned to the threshold by such persons. */
  ghost predicate IsBlocked(o: Oracle, h: Shareholder, threshold: real)
    decreases h, 0
  {
    o.listed(Trim(h.name)).Some? || (h.shareholders != [] && IsOwned(o, Trim(h.name), h.shareholders, threshold))
  }

  /** The stakes of its blocked holders, other than those named like it, add up to the threshold after rounding. */
  ghost predicate IsOwned(o: Oracle, entity: Text, holders: seq<Shareholder>, threshold: real)
    decreases holders, 2
  {
    exists stakes: seq<real>, total: int ::
      && StakesOf(o, entity, holders, threshold, stakes)
      && Nearest(Sum(stakes), total) && total as real >= 100.0 * threshold
  }

  ghost predicate StakesOf(o: Oracle, entity: Text, holders: seq<Shareholder>, threshold: real, stakes: seq<real>)
    decreases holders, 1
  {
    |stakes| == |holders| &&
    forall i :: 0 <= i < |holders| ==>
      if o.norm(Trim(holders[i].name)) != o.norm(entity) && IsBlocked(o, holders[i], threshold)
      then Percentage(holders[i].percentage, stakes[i])
      else stakes[i] == 0.0
  }

  lemma Round2IsNearest(x: real, total: int)
    ensures Nearest(x, total) <==> Round2(x) == total as real / 100.0
  {
    FloorIs(x * 100.0 + 0.5, total);
    SameHundredths((x * 100.0 + 0.5).Floor, total);
  }

  lemma FloorIs(y: real, n: int)
    ensures n as real <= y < n as real + 1.0 <==> y.Floor == n
  {
  }

  lemma SameHundredths(a: int, b: int)
    ensures a as real / 100.0 == b as real / 100.0 <==> a == b
  {
  }

  lemma {:induction false} BlockedIsBlocked(o: Oracle, h: Shareholder, threshold: real)
    ensures Blocked(o, h, threshold) <==> IsBlocked(o, h, threshold)
    decreases h, 0
  {
    if h.shareholders != [] { OwnedIsViolating(o, Trim(h.name), h.shareholders, threshold); }
  }

  /** The stakes are determined, and add up to the blocked stake. */
  lemma {:induction false} StakesAdd(o: Oracle, entity: Text, holders: seq<Shareholder>, threshold: real, stakes: seq<real>)
    requires StakesOf(o, entity, holders, threshold, stakes)
    ensures Sum(stakes) == Aggregate(o, entity, holders, threshold)
    decreases holders, 1
  {
    if holders != [] {
      assert StakesOf(o, entity, holders[1..], threshold, stakes[1..]);
      StakesAdd(o, entity, holders[1..], threshold, stakes[1..]);
      BlockedIsBlocked(o, holders[0], threshold);
    }
  }

  lemma {:induction false} StakesExist(o: Oracle, entity: Text, holders: seq<Shareholder>, threshold: real) returns (stakes: seq<real>)
    ensures StakesOf(o, entity, holders, threshold, stakes)
    decreases holders, 1
  {
    if holders == [] {
      stakes := [];
    } else {
      var rest := StakesExist(o, entity, holders[1..], threshold);
      stakes := [Share(o, entity, holders[0], threshold)] + rest;
      BlockedIsBlocked(o, holders[0], threshold);
    }
  }

  lemma {:induction false} OwnedIsViolating(o: Oracle, entity: Text, holders: seq<Shareholder>, threshold: real)
    ensures OwnersViolate(o, entity, holders, threshold) <==> IsOwned(o, entity, holders, threshold)
    decreases holders, 2
  {
    var sum := Aggregate(o, entity, holders, threshold);
    var rounded := (sum * 100.0 + 0.5).Floor;
    Round2IsNearest(sum, rounded);
    var stakes := StakesExist(o, entity, holders, threshold);
    StakesAdd(o, entity, holders, threshold, stakes);
    if IsOwned(o, entity, holders, threshold) {
      var others, total :| StakesOf(o, entity, holders, threshold, others) && Nearest(Sum(others), total) && total as real >= 100.0 * threshold;
      StakesAdd(o, entity, holders, threshold, others);
      Round2IsNearest(sum, total);
    }
  }

  /** The sum of the stakes as they are given, when each is a percentage. */
  ghost function GivenStakes(o: Oracle, entity: Text, holders: seq<Shareholder>, threshold: real): real {
    if holders == [] then 0.0
    else
      var others := GivenStakes(o, entity, holders[1..], threshold);
      if o.norm(Trim(holders[0].name)) != o.norm(entity) && IsBlocked(o, holders[0], threshold)
      then holders[0].percentage + others else others
  }

  /**
   An entity violates the rule exactly when it is listed or its blocked holders' stakes add up to the threshold after
   rounding; and when all of them are percentages, the rounded aggregate is that of the stakes as they are given.
   */
  lemma ViolationIsOwnership(o: Oracle, entity: Text, holders: seq<Shareholder>, threshold: real)
    ensures Violates(o, entity, holders, threshold) <==>
            o.listed(Trim(entity)).Some? || IsOwned(o, Trim(entity), holders, threshold)
    ensures (forall i :: 0 <= i < |holders| ==> 0.0 <= holders[i].percentage <= 100.0) ==>
              exists total :: Nearest(GivenStakes(o, Trim(entity), holders, threshold), total) &&
                (OwnersViolate(o, Trim(entity), holders, threshold) <==> total as real >= 100.0 * threshold)
  {
    OwnedIsViolating(o, Trim(entity), holders, threshold);
    if forall i :: 0 <= i < |holders| ==> 0.0 <= holders[i].percentage <= 100.0 {
      GivenIsAggregate(o, Trim(entity), holders, threshold);
      var sum := Aggregate(o, Trim(entity), holders, threshold);
      Round2IsNearest(sum, (sum * 100.0 + 0.5).Floor);
    }
  }

  lemma {:induction false} GivenIsAggregate(o: Oracle, entity: Text, holders: seq<Shareholder>, threshold: real)
    requires forall i :: 0 <= i < |holders| ==> 0.0 <= holders[i].percentage <= 100.0
    ensures GivenStakes(o, entity, holders, threshold) == Aggregate(o, entity, holders, threshold)
  {
    if holders != [] {
      BlockedIsBlocked(o, holders[0], threshold);
      GivenIsAggregate(o, entity, holders[1..], threshold);
    }
  }

  // ---- what a report says, entry by entry -------------------------------------------------

  /** Some hundredth of the entity is held by blocked holders. */
  ghost predicate PartlyOwned(o: Oracle, entity: Text, holders: seq<Shareholder>, threshold: real) {
    exists stakes: seq<real>, total: int ::
      StakesOf(o, entity, holders, threshold, stakes) && Nearest(Sum(stakes), total) && total > 0
  }

  /** The entry is about one of these holders, or about a blocked holder behind one. */
  ghost predicate IsReported(o: Oracle, entity: Text, holders: seq<Shareholder>, threshold: real, d: Detail)
    decreases holders
  {
    exists i :: 0 <= i < |holders| && ReportedFor(o, entity, holders[i], threshold, d)
  }

  /** A blocked holder is reported with its own stake; through any other, those behind it, with their part of its stake. */
  ghost predicate ReportedFor(o: Oracle, entity: Text, h: Shareholder, threshold: real, d: Detail)
    decreases h, 1
  {
    var name := Trim(h.name);
    && o.norm(name) != o.norm(entity)
    && if IsBlocked(o, h, threshold) then
         && d.name == name && Percentage(h.percentage, d.direct) && d.effective == d.direct && d.path == [entity, name]
         && d.deemed == o.listed(name).None?
         && d.hit == if d.deemed then Match(Units("OFAC_50_PERCENT_DEEMED"), Units("built_in")) else o.listed(name).value
       else
         && PartlyOwned(o, name, h.shareholders, threshold)
         && exists e: Detail, stake: real, part: int ::
              IsReported(o, name, h.shareholders, threshold, e) && PassedOn(entity, h.percentage, e, stake, part, d)
  }

  /** An entry behind a holder, as the entity reports it. */
  predicate PassedOn(entity: Text, percentage: real, e: Detail, stake: real, part: int, d: Detail) {
    && Percentage(percentage, stake) && PartOf(stake, e.effective, part)
    && d == e.(effective := part as real / 100.0, path := [entity] + e.path, deemed := false)
  }

  /** So many hundredths are the part of a stake that is held through a holder with this one. */
  predicate PartOf(stake: real, effective: real, hundredths: int) {
    Nearest(stake * effective / 100.0, hundredths)
  }

  lemma ClampIsPercentage(p: real, counted: real)
    ensures Percentage(p, counted) <==> counted == Clamp(p)
  {
  }

  lemma PartlyOwnedIsPositive(o: Oracle, entity: Text, holders: seq<Shareholder>, threshold: real)
    ensures PartlyOwned(o, entity, holders, threshold) <==> Round2(Aggregate(o, entity, holders, threshold)) > 0.0
  {
    var sum := Aggregate(o, entity, holders, threshold);
    var rounded := (sum * 100.0 + 0.5).Floor;
    Round2IsNearest(sum, rounded);
    var stakes := StakesExist(o, entity, holders, threshold);
    StakesAdd(o, entity, holders, threshold, stakes);
    if PartlyOwned(o, entity, holders, threshold) {
      var others, total :| StakesOf(o, entity, holders, threshold, others) && Nearest(Sum(others), total) && total > 0;
      StakesAdd(o, entity, holders, threshold, others);
      Round2IsNearest(sum, total);
    }
  }

  lemma {:induction false} LiftedEntries(entity: Text, holder: Text, percentage: real, ds: seq<Detail>, d: Detail)
    ensures d in LiftAll(entity, holder, percentage, ds) <==> exists i :: 0 <= i < |ds| && d == Lift(entity, holder, percentage, ds[i])
  {
    if ds != [] {
      LiftedEntries(entity, holder, percentage, ds[1..], d);
      assert forall i :: 0 <= i < |ds[1..]| ==> ds[1..][i] == ds[i + 1];
      assert forall i :: 1 <= i < |ds| ==> ds[i] == ds[1..][i - 1];
    }
  }

  lemma PortionIsPart(stake: real, effective: real, hundredths: int)
    ensures PartOf(stake, effective, hundredths) <==> Round2(Portion(stake, effective)) == hundredths as real / 100.0
  {
    Round2IsNearest(Portion(stake, effective), hundredths);
  }

  /** Lifting is passing on. */
  lemma LiftPasses(entity: Text, h: Shareholder, e: Detail, d: Detail)
    requires |e.path| >= 2 && e.path[0] == Trim(h.name)
    ensures d == Lift(entity, Trim(h.name), Clamp(h.percentage), e) <==>
            exists stake, part :: PassedOn(entity, h.percentage, e, stake, part, d)
  {
    hide Clamp, PartOf, Round2, Percentage, Portion;
    var stake := Clamp(h.percentage);
    var x := Portion(stake, e.effective);
    var part := (x * 100.0 + 0.5).Floor;
    Round2Floor(x);
    PortionIsPart(stake, e.effective, part);
    ClampIsPercentage(h.percentage, stake);
    assert [entity, Trim(h.name)] + e.path[1..] == [entity] + e.path;
    if d == Lift(entity, Trim(h.name), stake, e) { assert PassedOn(entity, h.percentage, e, stake, part, d); }
    if exists given, q :: PassedOn(entity, h.percentage, e, given, q, d) {
      var given, q :| PassedOn(entity, h.percentage, e, given, q, d);
      ClampIsPercentage(h.percentage, given);
      PortionIsPart(stake, e.effective, q);
    }
  }

  lemma Round2Floor(x: real)
    ensures Round2(x) == (x * 100.0 + 0.5).Floor as real / 100.0
  {
  }

  lemma {:induction false} HolderReportedExactly(o: Oracle, entity: Text, h: Shareholder, threshold: real, d: Detail)
    ensures d in Reported(o, entity, h, threshold) <==> ReportedFor(o, entity, h, threshold, d)
    decreases h, 1
  {
    hide Clamp, Round2, Lift, LiftAll, ReportedAll;
    var name := Trim(h.name);
    BlockedIsBlocked(o, h, threshold);
    ClampIsPercentage(h.percentage, d.direct);
    PartlyOwnedIsPositive(o, name, h.shareholders, threshold);
    if o.norm(name) != o.norm(entity) && !Blocked(o, h, threshold) {
      NothingBehindNobody(o, name, threshold);
      var ds := ReportedAll(o, name, h.shareholders, threshold);
      LiftedEntries(entity, name, Clamp(h.percentage), ds, d);
      ReportedPathsStart(o, name, h.shareholders, threshold);
      forall e: Detail ensures e in ds <==> IsReported(o, name, h.shareholders, threshold, e) {
        ReportedExactly(o, name, h.shareholders, threshold, e);
      }
      forall e: Detail | e in ds
        ensures d == Lift(entity, name, Clamp(h.percentage), e) <==>
                exists stake, part :: PassedOn(entity, h.percentage, e, stake, part, d)
      {
        LiftPasses(entity, h, e, d);
      }
    }
  }

  lemma NothingBehindNobody(o: Oracle, entity: Text, threshold: real)
    ensures Round2(Aggregate(o, entity, [], threshold)) == 0.0
  {
  }

  /** The entries of a report are exactly those the rule gives. */
  lemma {:induction false} ReportedExactly(o: Oracle, entity: Text, holders: seq<Shareholder>, threshold: real, d: Detail)
    ensures d in ReportedAll(o, entity, holders, threshold) <==> IsReported(o, entity, holders, threshold, d)
    decreases holders
  {
    if holders != [] {
      HolderReportedExactly(o, entity, holders[0], threshold, d);
      ReportedExactly(o, entity, holders[1..], threshold, d);
      assert forall i :: 0 <= i < |holders[1..]| ==> holders[1..][i] == holders[i + 1];
      assert forall i :: 1 <= i < |holders| ==> holders[i] == holders[1..][i - 1];
    }
  }

  // ---- monotonicity -------------------------------------------------------------------------

  lemma Round2Monotone(x: real, y: real)
    requires x <= y
    ensures Round2(x) <= Round2(y)
  {
    var a, b := (x * 100.0 + 0.5).Floor, (y * 100.0 + 0.5).Floor;
    FloorMonotone(x * 100.0 + 0.5, y * 100.0 + 0.5);
    Hundredths(a, b);
  }

  lemma FloorMonotone(x: real, y: real)
    requires x <= y
    ensures x.Floor <= y.Floor
  {
  }

  lemma Hundredths(a: int, b: int)
    requires a <= b
    ensures a as real / 100.0 <= b as real / 100.0
  {
  }

  /** At least as many names listed, under the same normalization. */
  ghost predicate ListsMore(o: Oracle, p: Oracle) {
    o.norm == p.norm && forall name :: o.listed(name).Some? ==> p.listed(name).Some?
  }

  /** The same holders, each with at least the stake, at every level; more may follow at the end. */
  predicate Raised(xs: seq<Shareholder>, ys: seq<Shareholder>)
    decreases xs
  {
    xs == [] || (ys != [] && RaisedHolder(xs[0], ys[0]) && Raised(xs[1..], ys[1..]))
  }

  predicate RaisedHolder(x: Shareholder, y: Shareholder)
    decreases x, 1
  {
    x.name == y.name && x.percentage <= y.percentage && Raised(x.shareholders, y.shareholders)
  }

  lemma {:induction false} BlockedMonotone(o: Oracle, p: Oracle, x: Shareholder, y: Shareholder, t: real, u: real)
    requires ListsMore(o, p) && RaisedHolder(x, y) && u <= t && Blocked(o, x, t)
    ensures Blocked(p, y, u)
    decreases x, 1
  {
    if o.listed(Trim(x.name)).None? {
      AggregateMonotone(o, p, Trim(x.name), x.shareholders, y.shareholders, t, u);
      Round2Monotone(Aggregate(o, Trim(x.name), x.shareholders, t), Aggregate(p, Trim(x.name), y.shareholders, u));
    }
  }

  lemma {:induction false} AggregateMonotone(o: Oracle, p: Oracle, entity: Text, xs: seq<Shareholder>, ys: seq<Shareholder>, t: real, u: real)
    requires ListsMore(o, p) && Raised(xs, ys) && u <= t
    ensures Aggregate(o, entity, xs, t) <= Aggregate(p, entity, ys, u)
    decreases xs
  {
    if xs != [] {
      if Blocked(o, xs[0], t) { BlockedMonotone(o, p, xs[0], ys[0], t, u); }
      AggregateMonotone(o, p, entity, xs[1..], ys[1..], t, u);
    }
  }

  /** Listing more names, raising stakes, adding holders or lowering the threshold never clears a violation. */
  lemma ViolationIsMonotone(o: Oracle, p: Oracle, entity: Text, xs: seq<Shareholder>, ys: seq<Shareholder>, t: real, u: real)
    requires ListsMore(o, p) && Raised(xs, ys) && u <= t
    requires Violates(o, entity, xs, t)
    ensures Violates(p, entity, ys, u)
  {
    AggregateMonotone(o, p, Trim(entity), xs, ys, t, u);
    Round2Monotone(Aggregate(o, Trim(entity), xs, t), Aggregate(p, Trim(entity), ys, u));
  }

  // ---- sibling order --------------------------------------------------------------------------

  /** The same holders in any order, at every level. */
  ghost predicate Shuffled(xs: seq<Shareholder>, ys: seq<Shareholder>)
    decreases xs
  {
    if xs == [] then ys == []
    else exists j :: 0 <= j < |ys| && ShuffledHolder(xs[0], ys[j]) && Shuffled(xs[1..], ys[..j] + ys[j + 1..])
  }

  ghost predicate ShuffledHolder(x: Shareholder, y: Shareholder)
    decreases x, 1
  {
    x.name == y.name && x.percentage == y.percentage && Shuffled(x.shareholders, y.shareholders)
  }

  lemma {:induction false} AggregateWithout(o: Oracle, entity: Text, ys: seq<Shareholder>, j: nat, t: real)
    requires j < |ys|
    ensures Aggregate(o, entity, ys, t) == Share(o, entity, ys[j], t) + Aggregate(o, entity, ys[..j] + ys[j + 1..], t)
  {
    var rest := ys[..j] + ys[j + 1..];
    if j == 0 {
      assert rest == ys[1..];
    } else {
      AggregateWithout(o, entity, ys[1..], j - 1, t);
      assert rest[1..] == ys[1..][..j - 1] + ys[1..][j..];
    }
  }

  lemma {:induction false} ShareIgnoresOrder(o: Oracle, entity: Text, x: Shareholder, y: Shareholder, t: real)
    requires ShuffledHolder(x, y)
    ensures Share(o, entity, x, t) == Share(o, entity, y, t)
    decreases x, 1
  {
    AggregateIgnoresOrder(o, Trim(x.name), x.shareholders, y.shareholders, t);
    assert x.shareholders == [] <==> y.shareholders == [];
    assert Blocked(o, x, t) == Blocked(o, y, t);
  }

  /** The blocked stake does not depend on the order of siblings, at any level. */
  lemma {:induction false} AggregateIgnoresOrder(o: Oracle, entity: Text, xs: seq<Shareholder>, ys: seq<Shareholder>, t: real)
    requires Shuffled(xs, ys)
    ensures Aggregate(o, entity, xs, t) == Aggregate(o, entity, ys, t)
    decreases xs, 0
  {
    if xs != [] {
      var j :| 0 <= j < |ys| && ShuffledHolder(xs[0], ys[j]) && Shuffled(xs[1..], ys[..j] + ys[j + 1..]);
      ShareIgnoresOrder(o, entity, xs[0], ys[j], t);
      AggregateIgnoresOrder(o, entity, xs[1..], ys[..j] + ys[j + 1..], t);
      AggregateWithout(o, entity, ys, j, t);
    }
  }

  /** Nor does the verdict. */
  lemma VerdictIgnoresOrder(o: Oracle, entity: Text, xs: seq<Shareholder>, ys: seq<Shareholder>, t: real)
    requires Shuffled(xs, ys)
    ensures Violates(o, entity, xs, t) <==> Violates(o, entity, ys, t)
  {
    AggregateIgnoresOrder(o, Trim(entity), xs, ys, t);
  }

  lemma Without<T>(s: seq<T>, j: nat)
    requires j < |s|
    ensures multiset(s[..j] + s[j + 1..]) == multiset(s) - multiset{s[j]}
  {
    assert s == s[..j] + ([s[j]] + s[j + 1..]);
  }

  lemma Among<T>(x: T, t: seq<T>) returns (j: nat)
    requires x in multiset(t)
    ensures j < |t| && t[j] == x
  {
    j :| 0 <= j < |t| && t[j] == x;
  }

  /** Where the first of some elements is among the same elements in another order. */
  lemma FirstAmong<T>(s: seq<T>, t: seq<T>) returns (j: nat)
    requires multiset(s) == multiset(t) && s != []
    ensures j < |t| && t[j] == s[0] && multiset(s[1..]) == multiset(t[..j] + t[j + 1..])
  {
    assert s[0] in multiset(s);
    j := Among(s[0], t);
    Without(s, 0);
    Without(t, j);
    assert s[..0] + s[1..] == s[1..];
  }

  lemma {:induction false} LiftWithout(entity: Text, holder: Text, percentage: real, ds: seq<Detail>, j: nat)
    requires j < |ds|
    ensures multiset(LiftAll(entity, holder, percentage, ds)) ==
            multiset{Lift(entity, holder, percentage, ds[j])} + multiset(LiftAll(entity, holder, percentage, ds[..j] + ds[j + 1..]))
  {
    hide Lift;
    var rest := ds[..j] + ds[j + 1..];
    if j == 0 {
      assert rest == ds[1..];
    } else {
      LiftWithout(entity, holder, percentage, ds[1..], j - 1);
      assert rest[1..] == ds[1..][..j - 1] + ds[1..][j..];
      assert rest[0] == ds[0];
    }
  }

  /** Lifting the same details in another order gives the same lifted details. */
  lemma {:induction false} LiftIgnoresOrder(entity: Text, holder: Text, percentage: real, ds: seq<Detail>, es: seq<Detail>)
    requires multiset(ds) == multiset(es)
    ensures multiset(LiftAll(entity, holder, percentage, ds)) == multiset(LiftAll(entity, holder, percentage, es))
  {
    hide Lift;
    if ds == [] {
      assert |es| == |multiset(ds)|;
    } else {
      var j := FirstAmong(ds, es);
      LiftIgnoresOrder(entity, holder, percentage, ds[1..], es[..j] + es[j + 1..]);
      LiftWithout(entity, holder, percentage, es, j);
    }
  }

  lemma {:induction false} ReportWithout(o: Oracle, entity: Text, ys: seq<Shareholder>, j: nat, t: real)
    requires j < |ys|
    ensures multiset(ReportedAll(o, entity, ys, t)) ==
            multiset(Reported(o, entity, ys[j], t)) + multiset(ReportedAll(o, entity, ys[..j] + ys[j + 1..], t))
  {
    var rest := ys[..j] + ys[j + 1..];
    if j == 0 {
      assert rest == ys[1..];
    } else {
      ReportWithout(o, entity, ys[1..], j - 1, t);
      assert rest[1..] == ys[1..][..j - 1] + ys[1..][j..];
    }
  }

  lemma {:induction false} HolderReportIgnoresOrder(o: Oracle, entity: Text, x: Shareholder, y: Shareholder, t: real)
    requires ShuffledHolder(x, y)
    ensures multiset(Reported(o, entity, x, t)) == multiset(Reported(o, entity, y, t))
    decreases x, 1
  {
    hide Round2, Lift, LiftAll, ReportedAll, Aggregate, Clamp, Trim;
    var name, stake := Trim(x.name), Clamp(x.percentage);
    AggregateIgnoresOrder(o, name, x.shareholders, y.shareholders, t);
    ReportIgnoresOrder(o, name, x.shareholders, y.shareholders, t);
    LiftIgnoresOrder(entity, name, stake, ReportedAll(o, name, x.shareholders, t), ReportedAll(o, name, y.shareholders, t));
    assert x.shareholders == [] <==> y.shareholders == [];
  }

  /** Nor does the report: another order of siblings, at any level, reports the same details, paths and rounded stakes. */
  lemma {:induction false} ReportIgnoresOrder(o: Oracle, entity: Text, xs: seq<Shareholder>, ys: seq<Shareholder>, t: real)
    requires Shuffled(xs, ys)
    ensures multiset(ReportedAll(o, entity, xs, t)) == multiset(ReportedAll(o, entity, ys, t))
    decreases xs, 0
  {
    if xs != [] {
      var j :| 0 <= j < |ys| && ShuffledHolder(xs[0], ys[j]) && Shuffled(xs[1..], ys[..j] + ys[j + 1..]);
      HolderReportIgnoresOrder(o, entity, xs[0], ys[j], t);
      ReportIgnoresOrder(o, entity, xs[1..], ys[..j] + ys[j + 1..], t);
      ReportWithout(o, entity, ys, j, t);
    }
  }
}
