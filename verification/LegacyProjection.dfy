/** Projection of the consented legacy restores into the plan: one terminal outcome per lane. */
module LegacyProjection {
  import opened ConfigPlan
  import opened Identity
  import opened Collisions
  import opened Ordering

  datatype ResultStatus = ItemRestored | ItemFailed | ItemUpToDate | ItemSourceMissing | ItemUnsupported

  datatype LegacyLane = LegacyLane(captureID: string, moduleID: string, selected: bool, targets: seq<Target>)

  function Lanes(lanes: seq<LegacyLane>): (claims: seq<LaneTargets>)
    ensures |claims| == |lanes|
    ensures forall k :: 0 <= k < |lanes| ==>
      claims[k] == LaneTargets(lanes[k].captureID, lanes[k].selected, lanes[k].targets)
  {
    seq(|lanes|, k requires 0 <= k < |lanes| => LaneTargets(lanes[k].captureID, lanes[k].selected, lanes[k].targets))
  }

  datatype Terminal = Terminal(status: Status, reason: Option<Reason>)

  /** What a lane's results mean: any failure dominates, a failure beside a real change is a partial
    * change, and only an all-current lane is reported as already up to date. */
  function TerminalOutcome(dryRun: bool, results: seq<ResultStatus>): Option<Terminal> {
    if ItemUnsupported in results then None
    else if ItemFailed in results then
      Some(Terminal(if !dryRun && ItemRestored in results then RollbackFailed else Failed, None))
    else if ItemRestored in results then Some(Terminal(if dryRun then Planned else Restored, None))
    else Some(Terminal(Skipped, if ItemSourceMissing in results then None else Some(AlreadyUpToDate)))
  }

  method LegacyTerminalOutcome(dryRun: bool, results: seq<ResultStatus>) returns (outcome: Option<Terminal>)
    ensures outcome == TerminalOutcome(dryRun, results)
  {
    var restored, failed, allUpToDate := false, false, true;
    for k := 0 to |results|
      invariant ItemUnsupported !in results[..k]
      invariant restored <==> ItemRestored in results[..k]
      invariant failed <==> ItemFailed in results[..k]
      invariant allUpToDate <==> forall i :: 0 <= i < k ==> results[i] == ItemUpToDate
    {
      assert results[..k + 1] == results[..k] + [results[k]];
      match results[k] {
        case ItemRestored => restored, allUpToDate := true, false;
        case ItemFailed => failed, allUpToDate := true, false;
        case ItemUpToDate =>
        case ItemSourceMissing => allUpToDate := false;
        case ItemUnsupported =>
          assert results[k] in results;
          return None;
      }
    }
    assert results[..|results|] == results;
    if failed {
      return Some(Terminal(if !dryRun && restored then RollbackFailed else Failed, None));
    }
    if restored {
      return Some(Terminal(if dryRun then Planned else Restored, None));
    }
    return Some(Terminal(Skipped, if allUpToDate then Some(AlreadyUpToDate) else None));
  }

  predicate HasOwnID(lane: LegacyLane) {
    lane.captureID == LegacyCaptureID(lane.moduleID)
  }

  /** Lanes as the input reader builds them: canonical identity, no capture ID twice. */
  ghost predicate Canonical(lanes: seq<LegacyLane>) {
    && (forall l :: l in lanes ==> HasOwnID(l))
    && (forall j, k :: 0 <= j < k < |lanes| ==> lanes[j].captureID != lanes[k].captureID)
  }

  function LaneSet(lane: LegacyLane, status: Status, reason: Option<Reason>): PlanSet {
    PlanSet(lane.captureID, lane.moduleID, LegacyUnverified, reason, status, false)
  }

  ghost predicate LaneRan(lane: LegacyLane, enabled: bool, blocked: map<string, Reason>) {
    lane.selected && enabled && lane.captureID !in blocked
  }

  ghost predicate HasOutcome(lane: LegacyLane, dryRun: bool, results: map<string, seq<ResultStatus>>) {
    lane.captureID in results && results[lane.captureID] != [] &&
    TerminalOutcome(dryRun, results[lane.captureID]).Some?
  }

  function ProjectLane(lane: LegacyLane, enabled: bool, dryRun: bool,
    results: map<string, seq<ResultStatus>>, blocked: map<string, Reason>): Option<PlanSet>
  {
    if !lane.selected then Some(LaneSet(lane, Skipped, Some(RestoreFiltered)))
    else if !enabled then Some(LaneSet(lane, Skipped, Some(RestoreNotEnabled)))
    else if lane.captureID in blocked then Some(LaneSet(lane, Failed, Some(blocked[lane.captureID])))
    else if lane.captureID !in results || results[lane.captureID] == [] then None
    else match TerminalOutcome(dryRun, results[lane.captureID])
      case None => None
      case Some(t) => Some(LaneSet(lane, t.status, t.reason))
  }

  method CheckLanes(lanes: seq<LegacyLane>) returns (ok: bool, known: set<string>)
    ensures ok <==> Canonical(lanes)
    ensures ok ==> known == CaptureIDs(lanes)
  {
    ok, known := false, {};
    for k := 0 to |lanes|
      invariant Canonical(lanes[..k]) && known == CaptureIDs(lanes[..k])
    {
      assert lanes[..k + 1] == lanes[..k] + [lanes[k]];
      CanonicalNext(lanes[..k], lanes[k]);
      CanonicalPrefix(lanes, k + 1);
      if !HasOwnID(lanes[k]) || lanes[k].captureID in known {
        return;
      }
      known := known + {lanes[k].captureID};
    }
    assert lanes[..|lanes|] == lanes;
    ok := true;
  }

  lemma CanonicalPrefix(lanes: seq<LegacyLane>, k: nat)
    requires k <= |lanes|
    ensures Canonical(lanes) ==> Canonical(lanes[..k])
  {
    assert forall l :: l in lanes[..k] ==> l in lanes;
  }

  lemma CanonicalNext(lanes: seq<LegacyLane>, lane: LegacyLane)
    requires Canonical(lanes)
    ensures Canonical(lanes + [lane]) <==> HasOwnID(lane) && lane.captureID !in CaptureIDs(lanes)
  {
    var more := lanes + [lane];
    if Canonical(more) {
      assert lane in more;
      forall l | l in lanes ensures l.captureID != lane.captureID {
        var i :| 0 <= i < |lanes| && lanes[i] == l;
        assert more[i] == l && more[|lanes|] == lane;
      }
    }
  }

  function CaptureIDs(lanes: seq<LegacyLane>): set<string> {
    set l | l in lanes :: l.captureID
  }

  /** Every lane that ran has a classifiable, non-empty result. */
  ghost predicate AllHaveOutcomes(lanes: seq<LegacyLane>, enabled: bool, dryRun: bool,
    results: map<string, seq<ResultStatus>>, blocked: map<string, Reason>)
  {
    forall l :: l in lanes && LaneRan(l, enabled, blocked) ==> HasOutcome(l, dryRun, results)
  }

  ghost predicate Projects(lanes: seq<LegacyLane>, enabled: bool, dryRun: bool,
    results: map<string, seq<ResultStatus>>, blocked: map<string, Reason>, sets: seq<PlanSet>)
  {
    |sets| == |lanes| && forall k :: 0 <= k < |lanes| ==>
      Some(sets[k]) == ProjectLane(lanes[k], enabled, dryRun, results, blocked)
  }

  method ProjectLanes(lanes: seq<LegacyLane>, enabled: bool, dryRun: bool,
    results: map<string, seq<ResultStatus>>, blocked: map<string, Reason>) returns (projected: Option<seq<PlanSet>>)
    ensures projected.Some? <==> AllHaveOutcomes(lanes, enabled, dryRun, results, blocked)
    ensures projected.Some? ==> Projects(lanes, enabled, dryRun, results, blocked, projected.value)
  {
    var sets: seq<PlanSet> := [];
    for k := 0 to |lanes|
      invariant AllHaveOutcomes(lanes[..k], enabled, dryRun, results, blocked)
      invariant Projects(lanes[..k], enabled, dryRun, results, blocked, sets)
    {
      assert lanes[..k + 1] == lanes[..k] + [lanes[k]] && lanes[k] in lanes;
      var one := ProjectLane(lanes[k], enabled, dryRun, results, blocked);
      if one.None? {
        assert LaneRan(lanes[k], enabled, blocked) && !HasOutcome(lanes[k], dryRun, results);
        return None;
      }
      sets := sets + [one.value];
    }
    assert lanes[..|lanes|] == lanes;
    return Some(sets);
  }

  ghost predicate ByCaptureID(lanes: seq<LegacyLane>) {
    forall i, j :: 0 <= i < j < |lanes| ==> Less(lanes[i].captureID, lanes[j].captureID)
  }

  lemma SortedAreAscending(lanes: seq<LegacyLane>, sorted: seq<LegacyLane>)
    requires Canonical(lanes) && multiset(sorted) == multiset(lanes)
    requires forall i, j :: 0 <= i < j < |sorted| ==> !Less(sorted[j].captureID, sorted[i].captureID)
    ensures ByCaptureID(sorted)
  {
    assert NoRepeats(lanes);
    PermutationRepeats(lanes, sorted);
    PermutationElements(lanes, sorted);
    forall i, j | 0 <= i < j < |sorted| ensures Less(sorted[i].captureID, sorted[j].captureID) {
      LessTotal(sorted[i].captureID, sorted[j].captureID);
      assert sorted[i] in Elements(lanes) && sorted[j] in Elements(lanes);
    }
  }

  /** The projection succeeds exactly when the lanes are canonical, every result belongs to a lane and
    * every lane that ran has a classifiable, non-empty result; success is never invented. The sets come
    * in the order of their capture IDs, one for each lane. */
  method ProjectLegacy(lanes: seq<LegacyLane>, enabled: bool, dryRun: bool,
    results: map<string, seq<ResultStatus>>, blocked: map<string, Reason>)
    returns (projected: Option<seq<PlanSet>>, ghost order: seq<LegacyLane>)
    ensures projected.Some? <==>
      && Canonical(lanes)
      && (forall c :: c in results ==> exists k :: 0 <= k < |lanes| && lanes[k].captureID == c)
      && AllHaveOutcomes(lanes, enabled, dryRun, results, blocked)
    ensures projected.Some? ==> multiset(order) == multiset(lanes) && ByCaptureID(order)
    ensures projected.Some? ==> Projects(order, enabled, dryRun, results, blocked, projected.value)
  {
    order := [];
    var ok, known := CheckLanes(lanes);
    if !ok || exists c :: c in results && c !in known {
      return None, order;
    }
    var sorted := Sort(lanes, (l: LegacyLane) => l.captureID);
    order := sorted;
    SortedAreAscending(lanes, sorted);
    assert forall l :: l in lanes <==> l in Elements(lanes);
    assert forall l :: l in sorted <==> l in Elements(sorted);
    projected := ProjectLanes(sorted, enabled, dryRun, results, blocked);
  }

  /** Lane `k` has a set, and any set under its capture ID is its own. */
  lemma ItsSet(lanes: seq<LegacyLane>, sets: seq<PlanSet>, order: seq<LegacyLane>, enabled: bool, dryRun: bool,
    results: map<string, seq<ResultStatus>>, blocked: map<string, Reason>, k: nat) returns (i: nat)
    requires Canonical(lanes) && multiset(order) == multiset(lanes) && k < |lanes|
    requires Projects(order, enabled, dryRun, results, blocked, sets)
    ensures i < |sets| && sets[i].captureID == lanes[k].captureID
    ensures forall j :: 0 <= j < |sets| && sets[j].captureID == lanes[k].captureID ==>
      Some(sets[j]) == ProjectLane(lanes[k], enabled, dryRun, results, blocked)
  {
    PermutationElements(lanes, order);
    assert lanes[k] in Elements(order);
    i :| 0 <= i < |order| && order[i] == lanes[k];
    assert Some(sets[i]) == ProjectLane(order[i], enabled, dryRun, results, blocked);
    forall j | 0 <= j < |sets| && sets[j].captureID == lanes[k].captureID ensures order[j] == lanes[k] {
      assert Some(sets[j]) == ProjectLane(order[j], enabled, dryRun, results, blocked);
      assert order[j] in Elements(lanes);
    }
  }

  /** The projected sets in the order of the lanes they were projected from. */
  method InLaneOrder(lanes: seq<LegacyLane>, sets: seq<PlanSet>, ghost order: seq<LegacyLane>,
    ghost enabled: bool, ghost dryRun: bool, ghost results: map<string, seq<ResultStatus>>,
    ghost blocked: map<string, Reason>)
    returns (aligned: seq<PlanSet>)
    requires Canonical(lanes) && multiset(order) == multiset(lanes)
    requires Projects(order, enabled, dryRun, results, blocked, sets)
    ensures Projects(lanes, enabled, dryRun, results, blocked, aligned)
  {
    aligned := [];
    for k := 0 to |lanes|
      invariant Projects(lanes[..k], enabled, dryRun, results, blocked, aligned)
    {
      ghost var i := ItsSet(lanes, sets, order, enabled, dryRun, results, blocked, k);
      var j :| 0 <= j < |sets| && sets[j].captureID == lanes[k].captureID;
      assert lanes[..k + 1] == lanes[..k] + [lanes[k]];
      aligned := aligned + [sets[j]];
    }
    assert lanes[..|lanes|] == lanes;
  }

  // ----- what a lane's results come to -----

  predicate Among(results: seq<ResultStatus>, status: ResultStatus) {
    exists k :: 0 <= k < |results| && results[k] == status
  }

  /** Each terminal, and exactly which results a lane gets it for. */
  lemma TerminalExactly(dryRun: bool, results: seq<ResultStatus>)
    ensures var t, failed, restored := TerminalOutcome(dryRun, results), Among(results, ItemFailed),
        Among(results, ItemRestored);
      && (t == None <==> Among(results, ItemUnsupported))
      && (t != None ==>
        && (t == Some(Terminal(RollbackFailed, None)) <==> failed && restored && !dryRun)
        && (t == Some(Terminal(Failed, None)) <==> failed && (dryRun || !restored))
        && (t == Some(Terminal(Restored, None)) <==> !failed && restored && !dryRun)
        && (t == Some(Terminal(Planned, None)) <==> !failed && restored && dryRun)
        && (t == Some(Terminal(Skipped, None)) <==> !failed && !restored && Among(results, ItemSourceMissing))
        && (t == Some(Terminal(Skipped, Some(AlreadyUpToDate))) <==>
             forall k :: 0 <= k < |results| ==> results[k] == ItemUpToDate))
  {
    forall status ensures Among(results, status) <==> status in results { }
    if !Among(results, ItemUnsupported) && !Among(results, ItemFailed) && !Among(results, ItemRestored) &&
      !Among(results, ItemSourceMissing)
    {
      forall k | 0 <= k < |results| ensures results[k] == ItemUpToDate { }
    }
  }

  /** Each lane's set carries its lane's identity; a lane left out of the run says why, and one that ran
    * says what its results came to. */
  lemma LaneSetExactly(lanes: seq<LegacyLane>, enabled: bool, dryRun: bool,
    results: map<string, seq<ResultStatus>>, blocked: map<string, Reason>, sets: seq<PlanSet>, k: nat)
    requires Projects(lanes, enabled, dryRun, results, blocked, sets) && k < |lanes|
    ensures var lane, p := lanes[k], sets[k];
      && p == PlanSet(lane.captureID, lane.moduleID, LegacyUnverified, p.reason, p.status, false)
      && (!lane.selected ==> p.status == Skipped && p.reason == Some(RestoreFiltered))
      && (lane.selected && !enabled ==> p.status == Skipped && p.reason == Some(RestoreNotEnabled))
      && (lane.selected && enabled && lane.captureID in blocked ==>
           p.status == Failed && p.reason == Some(blocked[lane.captureID]))
      && (lane.selected && enabled && lane.captureID !in blocked ==>
           && lane.captureID in results && results[lane.captureID] != []
           && TerminalOutcome(dryRun, results[lane.captureID]) == Some(Terminal(p.status, p.reason)))
  {
    assert Some(sets[k]) == ProjectLane(lanes[k], enabled, dryRun, results, blocked);
  }
}
