/** The configuration-restore executor. One object is one run: it owns the plan whose sets are updated
  * in place, the legacy preview, and the trace of everything it emitted, opened, ran and closed.
  * Every answer of the host is a fact of the run's world, so the final plan is determined by inputs and
  * world, and the methods say exactly how. */
module RestoreRun {
  import opened ConfigPlan
  import opened RestoreTrace
  import opened Claims
  import opened Collisions
  import opened LegacyProjection
  import opened RestoreWorld

  datatype Final = FinalFailed | FinalPlan(sets: seq<PlanSet>)

  datatype Inputs = Inputs(knownCaptures: set<string>, lanes: seq<LegacyLane>, ordinary: seq<Target>)

  datatype Prepared = Prepared(index: nat, targets: seq<Target>)

  datatype Exit =
    | FinalPlanFailed | NotEnabled | DryRunDone | DryRunFailed | NothingToDo | GuardRefused
    | IntentFailed | StoppedEarly | LegacyFailed | JournalFailed | Completed
  {
    /** The run left before staging anything. */
    predicate BeforeRun() {
      FinalPlanFailed? || NotEnabled? || NothingToDo? || GuardRefused?
    }

    /** The run went through the guarded phase. */
    predicate Ran() {
      IntentFailed? || StoppedEarly? || LegacyFailed? || JournalFailed? || Completed?
    }
  }

  predicate Has(prepared: seq<Prepared>, i: nat) {
    exists m :: 0 <= m < |prepared| && prepared[m].index == i
  }

  predicate Increasing(prepared: seq<Prepared>) {
    forall m, n :: 0 <= m < n < |prepared| ==> prepared[m].index < prepared[n].index
  }

  /** An execution order: plan indices, each once, ascending. */
  predicate Ascending(order: seq<nat>) {
    forall m, n :: 0 <= m < n < |order| ==> order[m] < order[n]
  }

  lemma HasAppend(prepared: seq<Prepared>, p: Prepared)
    ensures forall i :: Has(prepared + [p], i) <==> Has(prepared, i) || p.index == i
  {
    forall i ensures Has(prepared + [p], i) <==> Has(prepared, i) || p.index == i {
      var more := prepared + [p];
      assert more[|prepared|] == p;
      if Has(prepared, i) {
        var m :| 0 <= m < |prepared| && prepared[m].index == i;
        assert more[m].index == i;
      }
    }
  }

  function TargetsOf(prepared: seq<Prepared>): (targets: seq<PreparedTargets>)
    ensures |targets| == |prepared|
    ensures forall m :: 0 <= m < |prepared| ==> targets[m] == PreparedTargets(prepared[m].index, prepared[m].targets)
  {
    seq(|prepared|, m requires 0 <= m < |prepared| => PreparedTargets(prepared[m].index, prepared[m].targets))
  }

  function ClaimsOf(prepared: seq<Prepared>, inputs: Inputs): seq<OwnedClaim> {
    AllClaims(TargetsOf(prepared), Lanes(inputs.lanes), inputs.ordinary)
  }

  /** What staging made of the plan. */
  ghost predicate StageApplied(w: World, known: set<string>, before: seq<PlanSet>, after: seq<PlanSet>) {
    && |after| == |before|
    && forall i: nat :: i < |before| ==> after[i] == StagedSet(before[i], known, w.stage(i))
  }

  ghost predicate BlockApplied(claims: seq<OwnedClaim>, before: seq<PlanSet>, after: seq<PlanSet>) {
    && |after| == |before|
    && forall i: nat :: i < |before| ==> after[i] == BlockedSet(before[i], Contested(claims, Generation(i)))
  }

  ghost predicate InspectApplied(w: World, before: seq<PlanSet>, after: seq<PlanSet>) {
    && |after| == |before|
    && forall i: nat :: i < |before| ==> after[i] == InspectedSet(before[i], w.inspect(i))
  }

  /** The prepared sets: the ones staging let through, with the targets they were materialized to. */
  ghost predicate PreparedFrom(w: World, prepared: seq<Prepared>, staged: seq<PlanSet>) {
    && Increasing(prepared)
    && (forall m :: 0 <= m < |prepared| ==>
         prepared[m].index < |staged| && w.stage(prepared[m].index) == Materialized(prepared[m].targets))
    && (forall i: nat :: i < |staged| ==> (staged[i].Selected() <==> Has(prepared, i)))
  }

  /** What became of every set of the plan, as a function of the world, of the contested owners and of the
    * stops before it. */
  ghost predicate FinalPlanIs(w: World, known: set<string>, claims: seq<OwnedClaim>, t: Trace,
    start: seq<PlanSet>, after: seq<PlanSet>)
  {
    && |start| == |after|
    && forall i: nat {:trigger FinalSet(w, known, claims, t, i, start[i], after[i])} :: i < |start| ==>
         FinalSet(w, known, claims, t, i, start[i], after[i])
  }

  ghost predicate FinalSet(w: World, known: set<string>, claims: seq<OwnedClaim>, t: Trace, i: nat, p: PlanSet,
    q: PlanSet) {
    Decided(w, t, i, ReadySet(w, i, p, known, Contested(claims, Generation(i))), q)
  }

  /** The claims are those of the sets that staging let through, with their materialized targets, of the
    * lanes and of the ordinary actions. */
  ghost predicate StagedRight(w: World, staged: seq<Prepared>, claims: seq<OwnedClaim>, inputs: Inputs,
    start: seq<PlanSet>) {
    && claims == ClaimsOf(staged, inputs) && Increasing(staged)
    && (forall m: nat {:trigger StagedAt(w, |start|, staged, m)} :: m < |staged| ==> StagedAt(w, |start|, staged, m))
    && (forall i: nat {:trigger LetThrough(w, inputs.knownCaptures, staged, i, start[i])} :: i < |start| ==>
         LetThrough(w, inputs.knownCaptures, staged, i, start[i]))
  }

  predicate StagedAt(w: World, count: nat, staged: seq<Prepared>, m: nat)
    requires m < |staged|
  {
    staged[m].index < count && w.stage(staged[m].index) == Materialized(staged[m].targets)
  }

  predicate LetThrough(w: World, known: set<string>, staged: seq<Prepared>, i: nat, p: PlanSet) {
    StagedSet(p, known, w.stage(i)).Selected() <==> Has(staged, i)
  }

  /** The first index of the plan that position `m` of the prepared sets has not passed. */
  function Next(prepared: seq<Prepared>, m: nat, count: nat): nat
    requires m <= |prepared|
  {
    if m < |prepared| then prepared[m].index else count
  }

  /** Between two prepared sets, and before the first, nothing is selected. */
  lemma GapUnselected(prepared: seq<Prepared>, m: nat, plan: seq<PlanSet>)
    requires Increasing(prepared) && m < |prepared|
    requires forall i: nat :: i < |plan| && plan[i].Selected() ==> Has(prepared, i)
    ensures forall i: nat :: prepared[m].index < i < |plan| && i < Next(prepared, m + 1, |plan|) ==> !plan[i].Selected()
  {
  }

  lemma StartUnselected(prepared: seq<Prepared>, plan: seq<PlanSet>)
    requires Increasing(prepared) && forall i: nat :: i < |plan| && plan[i].Selected() ==> Has(prepared, i)
    ensures forall i: nat :: i < |plan| && i < Next(prepared, 0, |plan|) ==> !plan[i].Selected()
  {
  }

  /** Every stage, root and the guard has been given back. */
  ghost predicate Clean(t: Trace) {
    StagesClosed(t) && RootsDiscarded(t) && (AcquireGuard in t ==> ReleaseGuard in t)
  }

  ghost predicate AllResolved(t: Trace, count: nat) {
    forall i: nat :: i < count ==> Resolved(i) in t
  }

  ghost predicate LaneBlocked(claims: seq<OwnedClaim>, lane: LegacyLane) {
    lane.selected && (Contested(claims, Legacy(lane.captureID)) || Invalid in lane.targets)
  }

  /** The legacy preview lists the lanes of the inputs, one set per lane, no capture ID twice. */
  ghost predicate PreviewOf(preview: seq<PlanSet>, lanes: seq<LegacyLane>) {
    && |preview| == |lanes|
    && (forall k :: 0 <= k < |lanes| ==> preview[k].captureID == lanes[k].captureID)
    && forall j, k :: 0 <= j < k < |lanes| ==> lanes[j].captureID != lanes[k].captureID
  }

  function AfterBlock(preview: PlanSet, state: CollisionState): PlanSet {
    if preview.captureID in state.legacy then preview.With(Failed, Some(state.legacy[preview.captureID])) else preview
  }

  /** After the collision pass a lane is failed exactly when it is blocked, and untouched otherwise. */
  ghost predicate LanesAfterCollisions(claims: seq<OwnedClaim>, lanes: seq<LegacyLane>,
    before: seq<PlanSet>, after: seq<PlanSet>, state: CollisionState)
  {
    && PreviewOf(after, lanes) && |before| == |after|
    && forall k: nat :: k < |lanes| ==>
         && (lanes[k].captureID in state.legacy <==> LaneBlocked(claims, lanes[k]))
         && after[k] == AfterBlock(before[k], state)
  }

  /** The events that belong to one generation set's own execution. */
  predicate OfSet(e: Event, i: nat) {
    (e.Resolved? || e.Starting? || e.Items? || e.Intent? || e.Transact? || e.Stop?) && e.item == i
  }

  ghost predicate Untouched(t: Trace, i: nat) {
    forall e :: OfSet(e, i) ==> e !in t
  }

  /** Only events of set `i` were added. */
  ghost predicate OnlyOwn(before: Trace, after: Trace, i: nat) {
    forall e :: e in after <==> e in before || (e in after && OfSet(e, i))
  }

  /** Events that no set's own turn emits. */
  predicate Background(e: Event) {
    e.LaneResolved? || e.OpenStage? || e.CloseStage? || e.AcquireGuard? || e.ReleaseGuard? ||
    e.CreateRoot? || e.DiscardRoot? || e.RunLegacy? || e.RunOrdinary? || e.JournalLegacy?
  }

  ghost predicate SameBackground(before: Trace, after: Trace) {
    forall e :: Background(e) ==> (e in before <==> e in after)
  }

  /** What every other set sees of a turn taken by set `i`. */
  ghost predicate OthersKept(before: Trace, after: Trace, i: nat) {
    && (forall j: nat, e :: j != i && OfSet(e, j) ==> (e in after <==> e in before))
    && (LegacyBegan(after) ==> LegacyBegan(before))
    && (Held(before) ==> Held(after))
  }

  lemma OwnEventsLeaveOthers(before: Trace, after: Trace, i: nat)
    requires OnlyOwn(before, after, i)
    ensures SameBackground(before, after) && OthersKept(before, after, i)
  {
  }

  /** Set `i` is next in line and nothing of it has run yet. */
  ghost predicate MayRun(t: Trace, i: nat) {
    && Protocol(t) && Held(t) && StageOpen(t, i) && RootOpen(t, i)
    && !Stopped(t) && !LegacyBegan(t)
    && Untouched(t, i)
    && forall j: nat :: Transact(j) in t ==> j < i
  }

  /** From `before` to `after` only live or dry runs of lane `k`'s first `count` actions were added. */
  ghost predicate LaneEvents(before: Trace, after: Trace, k: nat, count: nat, live: bool) {
    && (forall e :: e in before ==> e in after)
    && (forall e :: e in after && e !in before ==> e.RunLegacy? && e.lane == k && e.action < count && e.live == live)
  }

  ghost predicate OrdinaryEvents(before: Trace, after: Trace, count: nat, state: CollisionState, live: bool) {
    && (forall e :: e in before ==> e in after)
    && (forall e :: e in after && e !in before ==>
         e.RunOrdinary? && e.action < count && e.action !in state.ordinary && e.live == live)
  }

  /** Every legacy action that ran belongs to a selected lane the collision pass let through. */
  ghost predicate LanesRan(t: Trace, lanes: seq<LegacyLane>, count: nat, state: CollisionState, live: bool) {
    forall e :: e in t && e.RunLegacy? ==>
      && e.lane < |lanes| && e.lane < count && e.action < |lanes[e.lane].targets| && e.live == live
      && lanes[e.lane].selected && lanes[e.lane].captureID !in state.legacy
  }

  ghost predicate LaneComplete(t: Trace, lanes: seq<LegacyLane>, k: nat, state: CollisionState, live: bool)
    requires k < |lanes|
  {
    lanes[k].selected && lanes[k].captureID !in state.legacy ==>
      forall a: nat :: a < |lanes[k].targets| ==> RunLegacy(k, a, live) in t
  }

  ghost predicate OrdinaryRan(t: Trace, count: nat, state: CollisionState, live: bool) {
    forall e :: e in t && e.RunOrdinary? ==> e.action < count && e.action !in state.ordinary && e.live == live
  }

  predicate DistinctLanes(lanes: seq<LegacyLane>) {
    forall j, k :: 0 <= j < k < |lanes| ==> lanes[j].captureID != lanes[k].captureID
  }

  /** Every lane that ran is recorded with the results of all its actions. */
  ghost predicate LaneResultsKnown(w: World, lanes: seq<LegacyLane>, count: nat, state: CollisionState,
    results: map<string, seq<ResultStatus>>)
    requires count <= |lanes|
  {
    forall k: nat :: k < count && lanes[k].selected && lanes[k].captureID !in state.legacy ==>
      lanes[k].captureID in results && LaneResults(w, k, |lanes[k].targets|) == Some(results[lanes[k].captureID])
  }

  /** The final projection of one lane: filtered, blocked, or a terminal outcome. */
  ghost predicate LaneSettled(w: World, k: nat, p: PlanSet, lane: LegacyLane, state: CollisionState, live: bool) {
    if !lane.selected then p == LaneSet(lane, Skipped, Some(RestoreFiltered))
    else if lane.captureID in state.legacy then p == LaneSet(lane, Failed, Some(state.legacy[lane.captureID]))
    else
      var results := LaneResults(w, k, |lane.targets|);
      results.Some? && HasSettledAs(p, lane, results.value, live)
  }

  ghost predicate HasSettledAs(p: PlanSet, lane: LegacyLane, results: seq<ResultStatus>, live: bool) {
    var outcome := TerminalOutcome(!live, results);
    results != [] && outcome.Some? && p == LaneSet(lane, outcome.value.status, outcome.value.reason)
  }

  // ----- which legacy and ordinary actions act, and when that phase succeeds -----

  /** A lane that the filter selects and the collision pass lets through. */
  predicate Runs(lanes: seq<LegacyLane>, k: nat, state: CollisionState) {
    k < |lanes| && lanes[k].selected && lanes[k].captureID !in state.legacy
  }

  /** The first `count` lanes run without an engine error. */
  ghost predicate LanesAnswer(w: World, lanes: seq<LegacyLane>, count: nat, state: CollisionState) {
    forall j: nat :: j < count && Runs(lanes, j, state) ==> LaneResults(w, j, |lanes[j].targets|).Some?
  }

  /** Action `a` of lane `k` has its turn: nothing before it failed the engine. */
  ghost predicate LaneActs(w: World, lanes: seq<LegacyLane>, state: CollisionState, k: nat, a: nat) {
    && Runs(lanes, k, state) && a < |lanes[k].targets|
    && LanesAnswer(w, lanes, k, state) && LaneResults(w, k, a).Some?
  }

  /** Of the first `count` lanes exactly the actions that have their turn acted, and of the others none. */
  ghost predicate LegacyActed(w: World, t: Trace, lanes: seq<LegacyLane>, count: nat, state: CollisionState,
    live: bool)
  {
    forall k: nat, a: nat :: RunLegacy(k, a, live) in t <==> k < count && LaneActs(w, lanes, state, k, a)
  }

  lemma NoMoreLanes(w: World, t: Trace, lanes: seq<LegacyLane>, count: nat, state: CollisionState, live: bool)
    requires LegacyActed(w, t, lanes, count, state, live) && count <= |lanes| && !LanesAnswer(w, lanes, count, state)
    ensures LegacyActed(w, t, lanes, |lanes|, state, live) && !LanesAnswer(w, lanes, |lanes|, state)
  {
  }

  /** The lanes run, and what they come to can be projected into the plan. */
  ghost predicate LanesSucceed(w: World, lanes: seq<LegacyLane>, state: CollisionState, live: bool) {
    && Canonical(lanes) && LanesAnswer(w, lanes, |lanes|, state)
    && forall k: nat :: Runs(lanes, k, state) ==> Classifiable(LaneResults(w, k, |lanes[k].targets|), live)
  }

  ghost predicate Classifiable(results: Option<seq<ResultStatus>>, live: bool) {
    results.Some? && results.value != [] && TerminalOutcome(!live, results.value).Some?
  }

  /** The unblocked ordinary actions before `count` run without an engine error. */
  ghost predicate OrdinaryAnswer(w: World, count: nat, state: CollisionState) {
    forall b: nat :: b < count && b !in state.ordinary ==> w.ordinary(b).Some?
  }

  ghost predicate OrdinaryActs(w: World, count: nat, state: CollisionState, a: nat) {
    a < count && a !in state.ordinary && OrdinaryAnswer(w, a, state)
  }

  /** The whole phase succeeds. */
  ghost predicate LegacySucceeds(w: World, inputs: Inputs, state: CollisionState, live: bool) {
    LanesSucceed(w, inputs.lanes, state, live) && OrdinaryAnswer(w, |inputs.ordinary|, state)
  }

  /** What the phase left in the trace. */
  ghost predicate PhaseActed(w: World, t: Trace, inputs: Inputs, state: CollisionState, live: bool) {
    && LegacyActed(w, t, inputs.lanes, |inputs.lanes|, state, live)
    && forall a: nat :: RunOrdinary(a, live) in t <==>
         LanesSucceed(w, inputs.lanes, state, live) && OrdinaryActs(w, |inputs.ordinary|, state, a)
  }

  /** Among the results of the lanes that ran. */
  ghost predicate FromLanes(w: World, lanes: seq<LegacyLane>, count: nat, state: CollisionState, r: ResultStatus) {
    exists j: nat :: j < count && Runs(lanes, j, state) && Reports(LaneResults(w, j, |lanes[j].targets|), r)
  }

  /** Among the results of the ordinary actions, a blocked one counting as failed. */
  ghost predicate FromOrdinary(w: World, count: nat, state: CollisionState, r: ResultStatus) {
    exists a: nat :: a < count && if a in state.ordinary then r == ItemFailed else Reports(w.ordinary(a), r)
  }

  predicate Reports(results: Option<seq<ResultStatus>>, r: ResultStatus) {
    results.Some? && r in results.value
  }

  /** Something was done that a journal can undo or report. */
  ghost predicate NeedsJournal(w: World, inputs: Inputs, state: CollisionState) {
    exists r: ResultStatus :: r != ItemUpToDate &&
      (FromLanes(w, inputs.lanes, |inputs.lanes|, state, r) || FromOrdinary(w, |inputs.ordinary|, state, r))
  }

  /** How a live run that no set stopped ends, and what it did. */
  ghost predicate PhaseEnds(w: World, exit: Exit, t: Trace, inputs: Inputs, state: CollisionState) {
    var succeeds, needed := LegacySucceeds(w, inputs, state, true), NeedsJournal(w, inputs, state);
    && PhaseActed(w, t, inputs, state, true)
    && (exit == LegacyFailed <==> !succeeds)
    && (exit == Completed <==> succeeds && (needed ==> w.journalWritten && w.journalRegistered))
    && (JournalLegacy in t <==> succeeds && needed && w.journalWritten)
  }

  lemma PhaseKept(w: World, exit: Exit, t: Trace, u: Trace, inputs: Inputs, state: CollisionState)
    requires PhaseEnds(w, exit, t, inputs, state)
    requires forall e: Event :: KindOf(e) == LegacyKind ==> (e in t <==> e in u)
    ensures PhaseEnds(w, exit, u, inputs, state)
  {
    PhaseActedKept(w, t, u, inputs, state, true);
    assert KindOf(JournalLegacy) == LegacyKind;
  }

  lemma PhaseActedKept(w: World, t: Trace, u: Trace, inputs: Inputs, state: CollisionState, live: bool)
    requires PhaseActed(w, t, inputs, state, live)
    requires forall e: Event :: KindOf(e) == LegacyKind && e != JournalLegacy ==> (e in t <==> e in u)
    ensures PhaseActed(w, u, inputs, state, live)
  {
    forall k: nat, a: nat ensures RunLegacy(k, a, live) in t <==> RunLegacy(k, a, live) in u {
      assert KindOf(RunLegacy(k, a, live)) == LegacyKind;
    }
    forall a: nat ensures RunOrdinary(a, live) in t <==> RunOrdinary(a, live) in u {
      assert KindOf(RunOrdinary(a, live)) == LegacyKind;
    }
  }

  ghost predicate NoOrdinary(t: Trace) {
    forall e :: e in t ==> !e.RunOrdinary?
  }

  /** The first `count` lanes have had their turns, and nothing but legacy actions was added. */
  ghost predicate LanesRanSoFar(before: Trace, after: Trace, lanes: seq<LegacyLane>, count: nat, state: CollisionState,
    live: bool)
  {
    && OnlyKind(before, after, LegacyKind) && !Stopped(after)
    && LanesRan(after, lanes, count, state, live) && NoOrdinary(after) && JournalLegacy !in after
  }

  ghost predicate LanesSoFar(before: Trace, after: Trace, lanes: seq<LegacyLane>, count: nat, state: CollisionState,
    live: bool)
  {
    && LanesRanSoFar(before, after, lanes, count, state, live) && count <= |lanes|
    && forall j: nat :: j < count ==> LaneComplete(after, lanes, j, state, live)
  }

  lemma LaneCompleteGrows(before: Trace, after: Trace, lanes: seq<LegacyLane>, k: nat, state: CollisionState,
    live: bool)
    requires k < |lanes| && LaneComplete(before, lanes, k, state, live)
    requires forall e :: e in before ==> e in after
    ensures LaneComplete(after, lanes, k, state, live)
  {
  }

  /** Events of the run's scaffolding: stages, transaction roots, the guard. */
  predicate Infrastructure(e: Event) {
    e.OpenStage? || e.CloseStage? || e.CreateRoot? || e.DiscardRoot? || e.AcquireGuard? || e.ReleaseGuard?
  }

  ghost predicate SameInfrastructure(before: Trace, after: Trace) {
    forall e :: Infrastructure(e) ==> (e in before <==> e in after)
  }

  /** The preview before the sets run: filtered lanes skipped, blocked lanes failed, the rest planned. */
  ghost predicate LanesReady(preview: seq<PlanSet>, lanes: seq<LegacyLane>, state: CollisionState) {
    |preview| == |lanes| && forall k: nat :: k < |lanes| ==> LaneReady(preview[k], lanes[k], state, Planned, None)
  }

  /** A filtered lane is skipped, a blocked one failed, and any other one waiting as said. */
  ghost predicate LaneReady(p: PlanSet, lane: LegacyLane, state: CollisionState, status: Status,
    reason: Option<Reason>)
  {
    && p.captureID == lane.captureID && p.moduleID == lane.moduleID && p.resolution == LegacyUnverified && !p.pinned
    && (!lane.selected ==> p.status == Skipped && p.reason == Some(RestoreFiltered))
    && (lane.selected && lane.captureID in state.legacy ==>
         p.status == Failed && p.reason == Some(state.legacy[lane.captureID]))
    && (lane.selected && lane.captureID !in state.legacy ==> p.status == status && p.reason == reason)
  }

  function AfterStop(preview: PlanSet, lane: LegacyLane): PlanSet {
    if lane.selected && preview.status == Planned then preview.With(Skipped, Some(RecoveryRequired)) else preview
  }

  /** After a stop no selected lane is planned, and exactly the lanes that had already been settled
    * (filtered or blocked) were announced: a lane that was still planned gets no resolution event. */
  ghost predicate StoppedLanes(t: Trace, lanes: seq<LegacyLane>, preview: seq<PlanSet>, state: CollisionState) {
    && |preview| == |lanes|
    && forall k: nat :: k < |lanes| ==>
         var waiting := lanes[k].selected && lanes[k].captureID !in state.legacy;
         && LaneReady(preview[k], lanes[k], state, Skipped, Some(RecoveryRequired))
         && (LaneResolved(k) in t <==> !waiting)
  }

  /** A completed run executed every action of every owner the collision pass let through. */
  ghost predicate SettledRun(w: World, t: Trace, inputs: Inputs, preview: seq<PlanSet>, state: CollisionState,
    live: bool) {
    && |preview| == |inputs.lanes|
    && (forall k: nat :: k < |inputs.lanes| ==>
         LaneComplete(t, inputs.lanes, k, state, live) && LaneSettled(w, k, preview[k], inputs.lanes[k], state, live))
    && (forall a: nat :: a < |inputs.ordinary| && a !in state.ordinary ==> RunOrdinary(a, live) in t)
  }

  /** A set stopped the run because its intent could not be made durable. */
  ghost predicate IntentStop(w: World, t: Trace) {
    exists s: nat :: Stop(s) in t && LiveOutcome(w.live(s)).reason == Some(JournalIntentFailed)
  }

  /** How a run under the guard can end: stopped, or with the legacy and ordinary restores reached. */
  ghost predicate RunEnded(w: World, exit: Exit, t: Trace,
    inputs: Inputs, preview: seq<PlanSet>, state: CollisionState)
  {
    match exit
    case IntentFailed | StoppedEarly =>
      && Stopped(t) && !LegacyBegan(t) && (exit == IntentFailed <==> IntentStop(w, t))
      && StoppedLanes(t, inputs.lanes, preview, state)
    case LegacyFailed | JournalFailed | Completed =>
      && !Stopped(t) && (forall k: nat :: k < |inputs.lanes| ==> LaneResolved(k) in t)
      && LanesRan(t, inputs.lanes, |inputs.lanes|, state, true) && OrdinaryRan(t, |inputs.ordinary|, state, true)
      && (exit in {Completed, JournalFailed} ==> SettledRun(w, t, inputs, preview, state, true))
      && PhaseEnds(w, exit, t, inputs, state)
    case _ => false
  }

  /** How a set of the final plan enters the run. */
  function Started(p: PlanSet, enabled: bool): PlanSet {
    if enabled then MarkPlanned(p) else MarkNotEnabled(MarkPlanned(p))
  }

  function StartedPlan(sets: seq<PlanSet>, enabled: bool): seq<PlanSet> {
    seq(|sets|, i requires 0 <= i < |sets| => Started(sets[i], enabled))
  }

  function PreviewLane(lane: LegacyLane, enabled: bool): PlanSet {
    if !lane.selected then LaneSet(lane, Skipped, Some(RestoreFiltered))
    else if !enabled then LaneSet(lane, Skipped, Some(RestoreNotEnabled))
    else LaneSet(lane, Planned, None)
  }

  /** Nothing is selected and there is no ordinary action: the run needs no guard. */
  ghost predicate Idle(plan: seq<PlanSet>, inputs: Inputs) {
    && (forall i :: 0 <= i < |plan| ==> !plan[i].Selected())
    && (forall k :: 0 <= k < |inputs.lanes| ==> !inputs.lanes[k].selected)
    && inputs.ordinary == []
  }

  /** What inspection, roots and the sets' turns made of the blocked plan. */
  ghost predicate BlockedRan(w: World, t: Trace, blocked: seq<PlanSet>, after: seq<PlanSet>) {
    && |blocked| == |after|
    && forall i: nat :: i < |blocked| ==>
         Decided(w, t, i, RootedSet(InspectedSet(blocked[i], w.inspect(i)), w.root(i)), after[i])
  }

  /** A dry run stages, blocks and inspects. */
  ghost predicate DryPlanIs(w: World, known: set<string>, claims: seq<OwnedClaim>, start: seq<PlanSet>,
    after: seq<PlanSet>) {
    && |start| == |after|
    && forall i: nat {:trigger DrySet(w, known, claims, i, start[i], after[i])} :: i < |start| ==>
         DrySet(w, known, claims, i, start[i], after[i])
  }

  ghost predicate DrySet(w: World, known: set<string>, claims: seq<OwnedClaim>, i: nat, p: PlanSet, q: PlanSet) {
    q == InspectedSet(BlockedSet(StagedSet(p, known, w.stage(i)), Contested(claims, Generation(i))), w.inspect(i))
  }

  /** No guard, root, intent, transaction or live action. */
  ghost predicate NothingLive(t: Trace) {
    forall e :: e in t ==>
      && KindOf(e) !in {GuardKind, RootKind, SetKind} && e != JournalLegacy
      && (e.RunLegacy? || e.RunOrdinary? ==> !e.live)
  }

  ghost predicate OnlyAnnounced(t: Trace) {
    forall e :: e in t ==> KindOf(e) in {ResolutionKind, LaneKind}
  }

  ghost predicate DryEnded(w: World, exit: Exit, t: Trace, inputs: Inputs, preview: seq<PlanSet>,
    state: CollisionState) {
    && exit in {DryRunDone, DryRunFailed}
    && (forall k: nat :: k < |inputs.lanes| ==> LaneResolved(k) in t)
    && LanesRan(t, inputs.lanes, |inputs.lanes|, state, false) && OrdinaryRan(t, |inputs.ordinary|, state, false)
    && (exit == DryRunDone ==> SettledRun(w, t, inputs, preview, state, false))
    && (exit == DryRunDone <==> LegacySucceeds(w, inputs, state, false)) && PhaseActed(w, t, inputs, state, false)
  }

  /** Nothing but closed stages, discarded roots and a released guard was added. */
  ghost predicate OnlyCleanup(before: Trace, after: Trace) {
    forall e: Event :: !e.CloseStage? && !e.DiscardRoot? && !e.ReleaseGuard? ==> (e in before <==> e in after)
  }

  ghost predicate LanesPreviewed(preview: seq<PlanSet>, lanes: seq<LegacyLane>)
    requires |preview| == |lanes|
  {
    forall k: nat :: k < |lanes| ==>
      preview[k] == LaneSet(lanes[k], if lanes[k].selected then Planned else Skipped,
        if lanes[k].selected then None else Some(RestoreFiltered))
  }

  /** The collision state blocks exactly the owners with a conflicting or refused claim. */
  ghost predicate StateReports(state: CollisionState, claims: seq<OwnedClaim>, inputs: Inputs) {
    forall owner {:trigger state.Blocks(owner)} ::
      && (state.Blocks(owner) <==>
          Contested(claims, owner) || RefusedOwner(Lanes(inputs.lanes), inputs.ordinary, owner))
      && (state.Blocks(owner) ==>
          state.ReasonFor(owner) == if Contested(claims, owner) then TargetCollision else StagingValidationFailed)
  }

  /** State of staging after the first `n` sets of the plan. */
  ghost predicate StagedUpTo(w: World, known: set<string>, n: nat, prepared: seq<Prepared>,
    plan: seq<PlanSet>, log: Trace, plan0: seq<PlanSet>, log0: Trace)
  {
    && Protocol(log) && OnlyKind(log0, log, StageKind)
    && |plan| == |plan0| && n <= |plan| && Increasing(prepared)
    && (forall i: nat :: i < |plan| ==> plan[i] == if i < n then StagedSet(plan0[i], known, w.stage(i)) else plan0[i])
    && (forall m :: 0 <= m < |prepared| ==>
         prepared[m].index < n && w.stage(prepared[m].index) == Materialized(prepared[m].targets))
    && (forall i: nat :: i < n ==> (plan[i].Selected() <==> Has(prepared, i)))
    && (forall i: nat :: OpenStage(i) in log || CloseStage(i) in log ==> i < n)
    && (forall i: nat :: StageOpen(log, i) <==> Has(prepared, i))
  }

  /** State of inspection below index `next`; `early` are the sets that left the selection. */
  ghost predicate InspectedUpTo(w: World, next: nat, early: set<nat>, plan: seq<PlanSet>, plan0: seq<PlanSet>) {
    && |plan| == |plan0|
    && (forall i: nat :: i < |plan| ==> plan[i] == if i < next then InspectedSet(plan0[i], w.inspect(i)) else plan0[i])
    && (forall i: nat :: i in early <==> i < next && i < |plan| && plan0[i].Selected() && !plan[i].Selected())
  }

  /** State of root creation below index `next`; `roots` are the sets holding one. */
  ghost predicate RootedUpTo(w: World, next: nat, roots: set<nat>,
    plan: seq<PlanSet>, log: Trace, plan0: seq<PlanSet>, log0: Trace)
  {
    && Protocol(log) && Held(log) && OnlyKind(log0, log, RootKind) && |plan| == |plan0|
    && (forall i: nat :: i < |plan| ==> plan[i] == if i < next then RootedSet(plan0[i], w.root(i)) else plan0[i])
    && (forall i: nat :: i in roots <==> i < next && i < |plan| && plan[i].Selected())
    && (forall i: nat :: (CreateRoot(i) in log <==> i in roots) && DiscardRoot(i) !in log)
  }

  /** Every set of the order holds its stage and its root. */
  ghost predicate AllOpen(order: seq<nat>, t: Trace) {
    forall i {:trigger StageOpen(t, i)} :: i in order ==> StageOpen(t, i) && RootOpen(t, i)
  }

  /** State of the main loop after the sets of `order` below `bound` have had their turn. */
  ghost predicate Turned(w: World, order: seq<nat>, resolved: set<nat>, bound: nat, stopped: bool,
    plan: seq<PlanSet>, log: Trace, plan0: seq<PlanSet>, log0: Trace)
  {
    && Protocol(log) && SameBackground(log0, log)
    && |plan| == |plan0| && !LegacyBegan(log)
    && (forall i :: i in order ==> i < |plan|)
    && (forall i :: i in order && i < bound ==> Resolved(i) in log)
    && (forall i: nat {:trigger SetEnded(w, log, i, plan0[i], plan[i])} :: i in order && i < bound ==>
         SetEnded(w, log, i, plan0[i], plan[i]))
    && (forall i :: i in order && i >= bound ==> Untouched(log, i) && plan[i] == plan0[i])
    && (forall i: nat :: i < |plan| && i !in order ==> plan[i] == plan0[i] && (i in resolved <==> Resolved(i) in log))
    && (stopped <==> Stopped(log))
    && (forall s: nat :: Stop(s) in log ==> s in order && s < bound)
    && (forall j: nat :: Transact(j) in log ==> j in order && j < bound)
    && OthersShown(order, log0, log)
  }

  /** What was shown of the sets that have no turn stays as it is. */
  ghost predicate OthersShown(order: seq<nat>, before: Trace, after: Trace) {
    forall i: nat :: i !in order ==>
      (Items(i) in after <==> Items(i) in before) && (Starting(i) in after <==> Starting(i) in before)
  }

  ghost predicate SameItems(before: Trace, after: Trace) {
    forall e: Event :: KindOf(e) == ItemKind ==> (e in before <==> e in after)
  }

  /** Of the sets that have no turn the items of the early ones are shown, and nothing else. */
  ghost predicate EarlyShown(t: Trace, order: seq<nat>, early: set<nat>) {
    forall i: nat :: i !in order ==> (Items(i) in t <==> i in early) && Starting(i) !in t
  }

  lemma EarlyStillShown(t: Trace, u: Trace, order: seq<nat>, early: set<nat>)
    requires EarlyShown(t, order, early) && (SameItems(t, u) || OthersShown(order, t, u))
    ensures EarlyShown(u, order, early)
  {
    assert forall i: nat :: KindOf(Items(i)) == KindOf(Starting(i)) == ItemKind;
  }

  /** A set found current or without backup shows its items without having started; one that fails otherwise,
    * or is not taken up, shows nothing. What a set with a turn shows is part of its turn. */
  ghost predicate ItemsOf(w: World, t: Trace, i: nat, blocked: PlanSet) {
    && (blocked.Selected() && w.inspect(i) != Ready ==> Items(i) in t && Starting(i) !in t)
    && (!blocked.Selected() || (w.inspect(i) == Ready && !w.root(i)) ==> Items(i) !in t && Starting(i) !in t)
  }

  ghost predicate BlockedItems(w: World, t: Trace, blocked: seq<PlanSet>) {
    forall i: nat {:trigger ItemsOf(w, t, i, blocked[i])} :: i < |blocked| ==> ItemsOf(w, t, i, blocked[i])
  }

  /** What every set of the plan shows. */
  ghost predicate ItemsShown(w: World, known: set<string>, claims: seq<OwnedClaim>, t: Trace, start: seq<PlanSet>) {
    forall i: nat {:trigger ItemsShownOf(w, known, claims, t, i, start[i])} :: i < |start| ==>
      ItemsShownOf(w, known, claims, t, i, start[i])
  }

  ghost predicate ItemsShownOf(w: World, known: set<string>, claims: seq<OwnedClaim>, t: Trace, i: nat, p: PlanSet) {
    ItemsOf(w, t, i, BlockedSet(StagedSet(p, known, w.stage(i)), Contested(claims, Generation(i))))
  }

  /** A dry run shows start and items of exactly the sets it could stage and nothing contests. */
  ghost predicate DryItems(w: World, known: set<string>, claims: seq<OwnedClaim>, t: Trace, start: seq<PlanSet>) {
    forall i: nat {:trigger DryItemsOf(w, known, claims, t, i, start[i])} :: i < |start| ==>
      DryItemsOf(w, known, claims, t, i, start[i])
  }

  ghost predicate DryItemsOf(w: World, known: set<string>, claims: seq<OwnedClaim>, t: Trace, i: nat, p: PlanSet) {
    var shown := BlockedSet(StagedSet(p, known, w.stage(i)), Contested(claims, Generation(i))).Selected();
    (Items(i) in t <==> shown) && (Starting(i) in t <==> shown)
  }

  lemma DryItemsStill(w: World, known: set<string>, claims: seq<OwnedClaim>, t: Trace, u: Trace, start: seq<PlanSet>)
    requires DryItems(w, known, claims, t, start) && SameItems(t, u)
    ensures DryItems(w, known, claims, u, start)
  {
    forall i: nat | i < |start| ensures DryItemsOf(w, known, claims, u, i, start[i]) {
      assert DryItemsOf(w, known, claims, t, i, start[i]);
      assert KindOf(Items(i)) == KindOf(Starting(i)) == ItemKind;
    }
  }

  lemma ItemsStillShown(w: World, known: set<string>, claims: seq<OwnedClaim>, t: Trace, u: Trace,
    start: seq<PlanSet>)
    requires ItemsShown(w, known, claims, t, start) && SameItems(t, u)
    ensures ItemsShown(w, known, claims, u, start)
  {
    forall i: nat | i < |start| ensures ItemsShownOf(w, known, claims, u, i, start[i]) {
      assert ItemsShownOf(w, known, claims, t, i, start[i]);
      assert KindOf(Items(i)) == KindOf(Starting(i)) == ItemKind;
    }
  }

  /** The owner's actions reached the host (or, in a dry run, were walked through). */
  ghost predicate Acted(t: Trace, inputs: Inputs, owner: Owner) {
    match owner
    case Generation(i) => Transact(i) in t
    case Legacy(c) => exists k: nat, a: nat, l ::
      k < |inputs.lanes| && inputs.lanes[k].captureID == c && RunLegacy(k, a, l) in t
    case Ordinary(a) => exists l :: RunOrdinary(a, l) in t
  }

  /** What a run promises implies that two owners that acted never share a location. */
  lemma ActedOwnersNeverMeet(t: Trace, claims: seq<OwnedClaim>, inputs: Inputs, state: CollisionState, live: bool,
    a: Owner, b: Owner, place: Location)
    requires StateReports(state, claims, inputs)
    requires forall i: nat :: Transact(i) in t ==> !Contested(claims, Generation(i))
    requires LanesRan(t, inputs.lanes, |inputs.lanes|, state, live) && OrdinaryRan(t, |inputs.ordinary|, state, live)
    requires Acted(t, inputs, a) && Acted(t, inputs, b) && a != b
    ensures !(Holds(claims, a, place) && Holds(claims, b, place))
  {
    if a.Legacy? { assert !state.Blocks(a); }
    if a.Ordinary? { assert !state.Blocks(a); }
    SurvivorsDisjoint(claims, a, b, place);
  }

  /** A set whose host answers well at every step. */
  predicate GoesWell(w: World, i: nat) {
    && w.stage(i).Materialized? && w.inspect(i) == Ready && w.root(i) && Transacts(w.live(i))
    && w.live(i).transaction.Some? && w.live(i).transaction.value.status == Restored
  }

  /** If no set's outcome forbids going on, no set is stopped. */
  lemma {:induction false} NoStops(w: World, known: set<string>, claims: seq<OwnedClaim>, t: Trace,
    start: seq<PlanSet>, after: seq<PlanSet>, n: nat)
    requires FinalPlanIs(w, known, claims, t, start, after) && n <= |start|
    requires forall i: nat :: i < |start| ==> LiveOutcome(w.live(i)).canContinue
    ensures forall s: nat :: s < n ==> Stop(s) !in t
  {
    if n > 0 {
      var i := n - 1;
      NoStops(w, known, claims, t, start, after, i);
      assert FinalSet(w, known, claims, t, i, start[i], after[i]);
      assert !StoppedBefore(t, i);
    }
  }

  /** And then every selected, uncontested set whose host answers well is transacted and restored. */
  lemma WellBehavedSetsAreRestored(w: World, known: set<string>, claims: seq<OwnedClaim>, t: Trace,
    start: seq<PlanSet>, after: seq<PlanSet>, i: nat)
    requires FinalPlanIs(w, known, claims, t, start, after) && i < |start|
    requires forall j: nat :: j < |start| ==> LiveOutcome(w.live(j)).canContinue
    requires start[i].Selected() && start[i].captureID in known && !Contested(claims, Generation(i)) && GoesWell(w, i)
    ensures after[i] == start[i].With(Restored, None) && Transact(i) in t
  {
    NoStops(w, known, claims, t, start, after, i);
    assert FinalSet(w, known, claims, t, i, start[i], after[i]);
  }

  class RestoreRun {
    const world: World
    var plan: seq<PlanSet>
    var lanes: seq<PlanSet>
    var log: Trace
    ghost var staged: seq<Prepared>
    ghost var claims: seq<OwnedClaim>

    constructor (world: World)
      ensures this.world == world && plan == [] && lanes == [] && log == [] && staged == [] && claims == []
    {
      this.world := world;
      plan, lanes, log, staged, claims := [], [], [], [], [];
    }

    method Emit(e: Event)
      modifies this`log
      requires Protocol(log) && Permitted(log, e)
      ensures Protocol(log) && log == old(log) + [e]
      ensures forall x :: x in log <==> x in old(log) || x == e
    {
      ProtocolExtends(log, e);
      log := log + [e];
    }

    /** Emits one event of set `i`'s own execution. */
    method EmitOwn(e: Event, i: nat)
      modifies this`log
      requires Protocol(log) && Permitted(log, e) && OfSet(e, i)
      ensures Protocol(log) && forall x :: x in log <==> x in old(log) || x == e
      ensures OnlyOwn(old(log), log, i)
      ensures Stopped(log) <==> Stopped(old(log)) || e.Stop?
      ensures LegacyBegan(log) <==> LegacyBegan(old(log))
    {
      Emit(e);
      assert Stopped(old(log)) ==> Stopped(log) by {
        if s: nat :| Stop(s) in old(log) { assert Stop(s) in log; }
      }
      assert e.Stop? ==> Stop(e.item) in log;
    }

    // ----- resolutions -----

    method EmitMissingResolutions(resolved: set<nat>)
      modifies this`log
      requires Protocol(log)
      requires forall i: nat :: i < |plan| ==> (i in resolved <==> Resolved(i) in log)
      ensures Protocol(log) && OnlyKind(old(log), log, ResolutionKind)
      ensures AllResolved(log, |plan|)
    {
      for n := 0 to |plan|
        invariant Protocol(log) && OnlyKind(old(log), log, ResolutionKind)
        invariant AllResolved(log, n)
        invariant forall i: nat :: n <= i < |plan| ==> (i in resolved <==> Resolved(i) in log)
      {
        if n !in resolved {
          Emit(Resolved(n));
        }
      }
    }

    method EmitLanes(lanesToEmit: seq<bool>)
      modifies this`log
      requires Protocol(log)
      requires forall k: nat :: k < |lanesToEmit| && lanesToEmit[k] ==> LaneResolved(k) !in log
      ensures Protocol(log) && OnlyKind(old(log), log, LaneKind)
      ensures forall k: nat :: LaneResolved(k) in log <==>
        LaneResolved(k) in old(log) || (k < |lanesToEmit| && lanesToEmit[k])
    {
      for n := 0 to |lanesToEmit|
        invariant Protocol(log) && OnlyKind(old(log), log, LaneKind)
        invariant forall k: nat :: LaneResolved(k) in log <==>
          LaneResolved(k) in old(log) || (k < n && lanesToEmit[k])
      {
        if lanesToEmit[n] {
          Emit(LaneResolved(n));
        }
      }
    }

    method EmitAllLanes()
      modifies this`log
      requires Protocol(log) && forall k: nat :: LaneResolved(k) !in log
      ensures Protocol(log) && OnlyKind(old(log), log, LaneKind)
      ensures forall k: nat :: k < |lanes| ==> LaneResolved(k) in log
    {
      var count := |lanes|;
      var all := seq(count, k => true);
      EmitLanes(all);
      assert forall k: nat :: k < count ==> all[k];
    }

    // ----- staging, collisions, inspection, transaction roots -----

    /** One selected set: stage its payload, then materialize it; a stage that is not handed on is closed. */
    method StageOne(n: nat, known: set<string>) returns (prepared: Option<seq<Target>>)
      modifies this`plan, this`log
      requires n < |plan| && plan[n].Selected()
      requires Protocol(log) && OpenStage(n) !in log && CloseStage(n) !in log
      ensures Protocol(log)
      ensures forall e :: e in log <==>
        e in old(log) || (e == OpenStage(n) && e in log) || (e == CloseStage(n) && e in log)
      ensures plan == old(plan)[n := StagedSet(old(plan)[n], known, world.stage(n))]
      ensures prepared.Some? <==> plan[n].Selected()
      ensures prepared.Some? ==> world.stage(n) == Materialized(prepared.value)
      ensures StageOpen(log, n) <==> prepared.Some?
    {
      var facts := world.stage(n);
      if plan[n].captureID !in known || facts.NotStaged? {
        var reason := if plan[n].captureID in known && facts.integrity then PayloadIntegrityFailed
          else StagingValidationFailed;
        plan := plan[n := plan[n].With(Failed, Some(reason))];
        return None;
      }
      Emit(OpenStage(n));
      if facts.Materialized? {
        return Some(facts.targets);
      }
      Emit(CloseStage(n));
      plan := plan[n :=
        if facts.running then plan[n].With(Skipped, Some(AppRunning))
        else plan[n].With(Failed, Some(if facts.overlap then TargetCollision else StagingValidationFailed))];
      return None;
    }

    method StageAndMaterialize(known: set<string>) returns (prepared: seq<Prepared>)
      modifies this`plan, this`log, this`staged
      requires Protocol(log) && forall e :: e in log ==> KindOf(e) != StageKind
      ensures Protocol(log) && OnlyKind(old(log), log, StageKind)
      ensures StageApplied(world, known, old(plan), plan)
      ensures PreparedFrom(world, prepared, plan) && staged == prepared
      ensures forall i: nat :: StageOpen(log, i) <==> Has(prepared, i)
    {
      prepared := [];
      for n := 0 to |plan|
        invariant StagedUpTo(world, known, n, prepared, plan, log, old(plan), old(log))
      {
        if plan[n].Selected() {
          prepared := StageNext(n, known, prepared, old(plan), old(log));
        }
      }
      staged := prepared;
    }

    method StageNext(n: nat, known: set<string>, prepared: seq<Prepared>,
      ghost plan0: seq<PlanSet>, ghost log0: Trace) returns (more: seq<Prepared>)
      modifies this`plan, this`log
      requires n < |plan| && plan[n].Selected() && StagedUpTo(world, known, n, prepared, plan, log, plan0, log0)
      ensures StagedUpTo(world, known, n + 1, more, plan, log, plan0, log0)
    {
      var targets := StageOne(n, known);
      more := prepared;
      if targets.Some? {
        HasAppend(prepared, Prepared(n, targets.value));
        more := prepared + [Prepared(n, targets.value)];
      }
    }

    /** Blocks every owner the collision pass reports, in the plan and in the legacy preview. */
    method Collide(prepared: seq<Prepared>, inputs: Inputs) returns (state: CollisionState)
      modifies this`plan, this`lanes, this`claims
      requires PreviewOf(lanes, inputs.lanes)
      ensures claims == ClaimsOf(prepared, inputs)
      ensures StateReports(state, claims, inputs)
      ensures BlockApplied(claims, old(plan), plan)
      ensures LanesAfterCollisions(claims, inputs.lanes, old(lanes), lanes, state)
    {
      claims := ClaimsOf(prepared, inputs);
      state := ApplyUnifiedCollisions(TargetsOf(prepared), Lanes(inputs.lanes), inputs.ordinary);
      forall i: nat ensures i in state.generations <==> Contested(claims, Generation(i)) {
        assert state.Blocks(Generation(i)) <==> i in state.generations;
      }
      BlockSets(state);
      forall k: nat | k < |inputs.lanes|
        ensures inputs.lanes[k].captureID in state.legacy <==> LaneBlocked(claims, inputs.lanes[k])
      {
        LaneBlockedMeansState(prepared, inputs, state, k);
      }
      BlockLanes(state);
    }

    method BlockSets(state: CollisionState)
      modifies this`plan
      ensures |plan| == |old(plan)| && forall i: nat :: i < |plan| ==>
        plan[i] == if i in state.generations then old(plan)[i].With(Failed, Some(TargetCollision)) else old(plan)[i]
    {
      for n := 0 to |plan|
        invariant |plan| == |old(plan)|
        invariant forall i: nat :: i < |plan| ==>
          plan[i] ==
            if i < n && i in state.generations then old(plan)[i].With(Failed, Some(TargetCollision)) else old(plan)[i]
      {
        if n in state.generations {
          plan := plan[n := plan[n].With(Failed, Some(TargetCollision))];
        }
      }
    }

    method BlockLanes(state: CollisionState)
      modifies this`lanes
      ensures |lanes| == |old(lanes)| && forall k: nat :: k < |lanes| ==>
        lanes[k] == AfterBlock(old(lanes)[k], state)
    {
      for n := 0 to |lanes|
        invariant |lanes| == |old(lanes)|
        invariant forall k: nat :: k < |lanes| ==>
          lanes[k] == if k < n then AfterBlock(old(lanes)[k], state) else old(lanes)[k]
      {
        if lanes[n].captureID in state.legacy {
          lanes := lanes[n := lanes[n].With(Failed, Some(state.legacy[lanes[n].captureID]))];
        }
      }
    }

    lemma LaneBlockedMeansState(prepared: seq<Prepared>, inputs: Inputs, state: CollisionState, k: nat)
      requires k < |inputs.lanes|
      requires forall j, k :: 0 <= j < k < |inputs.lanes| ==> inputs.lanes[j].captureID != inputs.lanes[k].captureID
      requires forall owner :: state.Blocks(owner) <==>
        Contested(ClaimsOf(prepared, inputs), owner) ||
        RefusedOwner(Lanes(inputs.lanes), inputs.ordinary, owner)
      ensures inputs.lanes[k].captureID in state.legacy <==>
        LaneBlocked(ClaimsOf(prepared, inputs), inputs.lanes[k])
    {
      var all, ls := ClaimsOf(prepared, inputs), Lanes(inputs.lanes);
      var lane := inputs.lanes[k];
      var owner := Legacy(lane.captureID);
      assert inputs.lanes[k].captureID in state.legacy <==> state.Blocks(owner);
      if Refused(ls[k]) { assert RefusedOwner(ls, inputs.ordinary, owner); }
      if Contested(all, owner) { ContestedLaneIsSelected(TargetsOf(prepared), ls, inputs.ordinary, lane.captureID, k); }
    }

    /** Read-only inspection: sets already current or without snapshots leave the selection early. */
    method InspectPrepared(prepared: seq<Prepared>) returns (early: set<nat>)
      modifies this`plan
      requires Increasing(prepared) && forall m :: 0 <= m < |prepared| ==> prepared[m].index < |plan|
      requires forall i: nat :: i < |plan| && plan[i].Selected() ==> Has(prepared, i)
      ensures InspectApplied(world, old(plan), plan)
      ensures forall i: nat :: i in early <==> i < |plan| && old(plan)[i].Selected() && !plan[i].Selected()
    {
      early := {};
      ghost var plan0 := plan;
      StartUnselected(prepared, plan);
      for m := 0 to |prepared|
        invariant InspectedUpTo(world, Next(prepared, m, |plan|), early, plan, plan0)
      {
        var i := prepared[m].index;
        assert Next(prepared, m, |plan|) == i;
        GapUnselected(prepared, m, plan0);
        if plan[i].Selected() && world.inspect(i) != Ready {
          plan := plan[i :=
            if world.inspect(i) == AlreadyCurrent then plan[i].With(Skipped, Some(AlreadyUpToDate))
            else plan[i].With(Failed, Some(BackupFailed))];
          early := early + {i};
        }
      }
    }

    /** A transaction root for every set still selected; a set without one leaves the selection. */
    method CreateRoots(prepared: seq<Prepared>) returns (roots: set<nat>)
      modifies this`plan, this`log
      requires Protocol(log) && Held(log) && Increasing(prepared)
      requires forall m :: 0 <= m < |prepared| ==> prepared[m].index < |plan| && StageOpen(log, prepared[m].index)
      requires forall i: nat :: i < |plan| && plan[i].Selected() ==> Has(prepared, i)
      requires forall i: nat :: CreateRoot(i) !in log && DiscardRoot(i) !in log
      ensures RootedUpTo(world, |plan|, roots, plan, log, old(plan), old(log))
    {
      roots := {};
      ghost var plan0, log0 := plan, log;
      StartUnselected(prepared, plan);
      for m := 0 to |prepared|
        invariant RootedUpTo(world, Next(prepared, m, |plan|), roots, plan, log, plan0, log0)
      {
        var i := prepared[m].index;
        assert Next(prepared, m, |plan|) == i;
        GapUnselected(prepared, m, plan0);
        roots := CreateRootFor(i, Next(prepared, m + 1, |plan|), roots, plan0, log0);
      }
    }

    method CreateRootFor(i: nat, ghost next: nat, roots: set<nat>,
      ghost plan0: seq<PlanSet>, ghost log0: Trace) returns (more: set<nat>)
      modifies this`plan, this`log
      requires i < |plan| && i < next <= |plan| && RootedUpTo(world, i, roots, plan, log, plan0, log0)
      requires StageOpen(log0, i)
      requires forall j: nat :: i < j < next ==> !plan0[j].Selected()
      ensures RootedUpTo(world, next, more, plan, log, plan0, log0)
    {
      more := roots;
      if !plan[i].Selected() {
        return;
      }
      if world.root(i) {
        assert KindOf(OpenStage(i)) != RootKind && KindOf(CloseStage(i)) != RootKind;
        Emit(CreateRoot(i));
        more := roots + {i};
      } else {
        plan := plan[i := plan[i].With(Failed, Some(BackupFailed))];
      }
    }

    /** The prepared sets that are still selected, in plan order. */
    method Executable(prepared: seq<Prepared>) returns (order: seq<nat>)
      requires Increasing(prepared) && forall m :: 0 <= m < |prepared| ==> prepared[m].index < |plan|
      ensures Ascending(order)
      ensures forall i: nat :: i in order <==> i < |plan| && Has(prepared, i) && plan[i].Selected()
    {
      order := [];
      for m := 0 to |prepared|
        invariant Ascending(order)
        invariant forall i :: i in order ==> i < |plan| && Has(prepared, i) && plan[i].Selected()
        invariant forall k :: 0 <= k < |order| && m < |prepared| ==> order[k] < prepared[m].index
        invariant forall k :: 0 <= k < m && plan[prepared[k].index].Selected() ==> prepared[k].index in order
      {
        if plan[prepared[m].index].Selected() {
          order := order + [prepared[m].index];
        }
      }
    }

    method OfferDiscard(i: nat)
      modifies this`log
      requires Protocol(log) && Held(log) && RootOpen(log, i)
      ensures Protocol(log) && Held(log) && OnlyCleanup(old(log), log)
      ensures forall j: nat :: RootOpen(log, j) <==> j != i && RootOpen(old(log), j)
      ensures forall j: nat :: CloseStage(j) in log <==> CloseStage(j) in old(log)
    {
      Emit(DiscardRoot(i));
    }

    method GiveBackStage(i: nat)
      modifies this`log
      requires Protocol(log) && StageOpen(log, i)
      ensures Protocol(log) && OnlyCleanup(old(log), log)
      ensures forall j: nat :: StageOpen(log, j) <==> j != i && StageOpen(old(log), j)
      ensures forall j: nat :: DiscardRoot(j) in log <==> DiscardRoot(j) in old(log)
      ensures ReleaseGuard in log <==> ReleaseGuard in old(log)
    {
      Emit(CloseStage(i));
    }

    method DiscardRoots(order: seq<nat>, roots: set<nat>)
      modifies this`log
      requires Protocol(log) && Held(log)
      requires Ascending(order)
      requires forall i: nat :: RootOpen(log, i) <==> i in roots
      requires forall i :: i in roots ==> i in order
      ensures Protocol(log) && OnlyCleanup(old(log), log) && RootsDiscarded(log) && Held(log)
      ensures forall j: nat :: CloseStage(j) in log <==> CloseStage(j) in old(log)
    {
      for m := 0 to |order|
        invariant Protocol(log) && Held(log) && OnlyCleanup(old(log), log)
        invariant forall j: nat :: CloseStage(j) in log <==> CloseStage(j) in old(log)
        invariant forall k :: m <= k < |order| && order[k] in roots ==> RootOpen(log, order[k])
        invariant forall k :: 0 <= k < m ==> !RootOpen(log, order[k])
        invariant forall i: nat :: RootOpen(log, i) ==> i in roots
      {
        if order[m] in roots {
          OfferDiscard(order[m]);
        }
      }
      forall i: nat | CreateRoot(i) in log ensures DiscardRoot(i) in log { assert !RootOpen(log, i); }
    }

    method CloseStages(prepared: seq<Prepared>)
      modifies this`log
      requires Protocol(log) && Increasing(prepared)
      requires forall i: nat :: StageOpen(log, i) <==> Has(prepared, i)
      ensures Protocol(log) && OnlyCleanup(old(log), log) && StagesClosed(log)
      ensures forall j: nat :: DiscardRoot(j) in log <==> DiscardRoot(j) in old(log)
      ensures ReleaseGuard in log <==> ReleaseGuard in old(log)
    {
      for m := 0 to |prepared|
        invariant Protocol(log) && OnlyCleanup(old(log), log)
        invariant forall j: nat :: DiscardRoot(j) in log <==> DiscardRoot(j) in old(log)
        invariant ReleaseGuard in log <==> ReleaseGuard in old(log)
        invariant forall k :: m <= k < |prepared| ==> StageOpen(log, prepared[k].index)
        invariant forall k :: 0 <= k < m ==> !StageOpen(log, prepared[k].index)
        invariant forall i: nat :: StageOpen(log, i) ==> Has(prepared, i)
      {
        GiveBackStage(prepared[m].index);
      }
      forall i: nat | OpenStage(i) in log ensures CloseStage(i) in log { assert !StageOpen(log, i); }
    }

    // ----- running the sets -----

    /** Snapshots, durable intent, announcement, transaction: any step may end the set, and a set that
      * fails before its intent is durable has changed nothing. */
    method ExecuteLiveSet(i: nat) returns (outcome: SetOutcome, announced: bool)
      modifies this`log
      requires MayRun(log, i)
      ensures Protocol(log)
      ensures OnlyOwn(old(log), log, i)
      ensures outcome == LiveOutcome(world.live(i))
      ensures announced <==> Transacts(world.live(i))
      ensures announced <==> Resolved(i) in log
      ensures announced <==> Starting(i) in log
      ensures announced <==> Intent(i) in log
      ensures announced <==> Transact(i) in log
      ensures Items(i) !in log && !Stopped(log) && !LegacyBegan(log)
    {
      var facts := world.live(i);
      announced := false;
      if !facts.snapshotted {
        return SetOutcome(Failed, Some(BackupFailed), true), false;
      }
      var current := CheckUpToDate(facts.actions);
      if current {
        return SetOutcome(Skipped, Some(AlreadyUpToDate), true), false;
      }
      if !facts.intended {
        return SetOutcome(Failed, Some(JournalIntentFailed), false), false;
      }
      BeginTransaction(i);
      announced := true;
      if facts.transaction.None? {
        outcome := SetOutcome(Failed, Some(CommitFailed), false);
      } else {
        var report := facts.transaction.value;
        outcome := SetOutcome(report.status, report.reason, !report.failStop);
      }
    }

    /** The intent is durable, the set is announced, and only then does its transaction begin. */
    method BeginTransaction(i: nat)
      modifies this`log
      requires MayRun(log, i)
      ensures Protocol(log) && OnlyOwn(old(log), log, i) && !Stopped(log) && !LegacyBegan(log)
      ensures Intent(i) in log && Resolved(i) in log && Starting(i) in log && Transact(i) in log && Items(i) !in log
    {
      EmitOwn(Intent(i), i);
      EmitOwn(Resolved(i), i);
      EmitOwn(Starting(i), i);
      EmitOwn(Transact(i), i);
    }

    method RunOne(i: nat) returns (outcome: SetOutcome)
      modifies this`plan, this`log
      requires i < |plan| && MayRun(log, i)
      ensures outcome == LiveOutcome(world.live(i))
      ensures plan == old(plan)[i := old(plan)[i].With(outcome.status, outcome.reason)]
      ensures Protocol(log) && Resolved(i) in log && !LegacyBegan(log)
      ensures OnlyOwn(old(log), log, i)
      ensures Stop(i) in log <==> !outcome.canContinue
      ensures (Transact(i) in log <==> Transacts(world.live(i))) && (Intent(i) in log <==> Transacts(world.live(i)))
      ensures Starting(i) in log && Items(i) in log
    {
      var announced;
      outcome, announced := ExecuteLiveSet(i);
      plan := plan[i := plan[i].With(outcome.status, outcome.reason)];
      ReportOutcome(i, announced, outcome.canContinue);
    }

    /** Records a stop, announces the set unless it already was, and reports its items. */
    method ReportOutcome(i: nat, announced: bool, canContinue: bool)
      modifies this`log
      requires Protocol(log) && CreateRoot(i) in log && !Stopped(log) && !LegacyBegan(log) && Items(i) !in log
      requires (announced <==> Resolved(i) in log) && (announced <==> Starting(i) in log)
      ensures Protocol(log) && !LegacyBegan(log) && OnlyOwn(old(log), log, i)
      ensures Resolved(i) in log && Starting(i) in log && Items(i) in log && (Stop(i) in log <==> !canContinue)
      ensures (Transact(i) in log <==> Transact(i) in old(log)) && (Intent(i) in log <==> Intent(i) in old(log))
    {
      if !canContinue {
        EmitOwn(Stop(i), i);
      }
      if !announced {
        EmitOwn(Resolved(i), i);
        EmitOwn(Starting(i), i);
      }
      EmitOwn(Items(i), i);
    }

    /** One turn of the main loop: after a stop the set is only marked and announced. */
    method TakeTurn(i: nat, stopped: bool) returns (stop: bool, intentFailed: bool)
      modifies this`plan, this`log
      requires i < |plan| && (stopped <==> Stopped(log)) && forall s: nat :: Stop(s) in log ==> s < i
      requires if stopped then Protocol(log) && Untouched(log, i) else MayRun(log, i)
      ensures |plan| == |old(plan)| && forall j :: 0 <= j < |plan| && j != i ==> plan[j] == old(plan)[j]
      ensures SetEnded(world, log, i, old(plan)[i], plan[i])
      ensures Protocol(log) && Resolved(i) in log
      ensures stop <==> Stopped(log)
      ensures intentFailed <==> Stop(i) in log && LiveOutcome(world.live(i)).reason == Some(JournalIntentFailed)
      ensures intentFailed ==> stop
      ensures SameBackground(old(log), log)
      ensures OthersKept(old(log), log, i)
    {
      intentFailed := false;
      if stopped {
        plan := plan[i := plan[i].With(Skipped, Some(RecoveryRequired))];
        EmitOwn(Resolved(i), i);
        stop := true;
      } else {
        var outcome := RunOne(i);
        stop := !outcome.canContinue;
        intentFailed := outcome.reason == Some(JournalIntentFailed);
      }
      StopsAre(old(log), log, i);
      OwnEventsLeaveOthers(old(log), log, i);
    }

    lemma StopsAre(before: Trace, after: Trace, i: nat)
      requires OnlyOwn(before, after, i) && forall s: nat :: Stop(s) in before ==> s < i
      ensures StoppedBefore(after, i) <==> Stopped(before)
      ensures Stopped(after) <==> Stopped(before) || Stop(i) in after
    {
      if s: nat :| Stop(s) in before { assert Stop(s) in after; }
    }

    /** A set that has ended is not affected by a later set's turn. */
    lemma EndedKept(before: Trace, after: Trace, j: nat, i: nat, p: PlanSet, q: PlanSet)
      requires j < i && SetEnded(world, before, j, p, q) && OthersKept(before, after, i)
      ensures SetEnded(world, after, j, p, q)
    {
      assert forall s: nat :: s < j ==> OfSet(Stop(s), s);
      assert StoppedBefore(after, j) <==> StoppedBefore(before, j);
      assert OfSet(Transact(j), j) && OfSet(Intent(j), j) && OfSet(Stop(j), j);
      assert OfSet(Starting(j), j) && OfSet(Items(j), j);
    }

    method Turn(order: seq<nat>, n: nat, ghost resolved: set<nat>, ghost bound: nat, stopped: bool,
      ghost plan0: seq<PlanSet>, ghost log0: Trace) returns (stop: bool, intentFailed: bool)
      modifies this`plan, this`log
      requires n < |order| && Ascending(order)
      requires bound == if n == 0 then 0 else order[n - 1] + 1
      requires Turned(world, order, resolved, bound, stopped, plan, log, plan0, log0)
      requires Held(log0) && AllOpen(order, log0)
      ensures Turned(world, order, resolved, order[n] + 1, stop, plan, log, plan0, log0)
      ensures intentFailed ==> stop
      ensures IntentStop(world, log) <==> IntentStop(world, old(log)) || intentFailed
    {
      NextInOrder(order, n);
      StillOpen(order, n, log0, log);
      assert order[n] in order;
      label Before:
      stop, intentFailed := TakeTurn(order[n], stopped);
      TurnKeeps(order, order[n], resolved, bound, stopped, stop,
        old@Before(plan), plan, old@Before(log), log, plan0, log0);
      IntentStops(old@Before(log), log, order[n]);
    }

    lemma IntentStops(before: Trace, log: Trace, i: nat)
      requires OthersKept(before, log, i) && Untouched(before, i)
      ensures IntentStop(world, log) <==>
        (IntentStop(world, before) ||
         (Stop(i) in log && LiveOutcome(world.live(i)).reason == Some(JournalIntentFailed)))
    {
      assert forall s: nat :: s != i ==> OfSet(Stop(s), s);
      assert OfSet(Stop(i), i);
    }

    lemma OthersStillShown(order: seq<nat>, i: nat, log0: Trace, before: Trace, after: Trace)
      requires i in order && OthersKept(before, after, i) && OthersShown(order, log0, before)
      ensures OthersShown(order, log0, after)
    {
      forall j: nat | j !in order
        ensures (Items(j) in after <==> Items(j) in log0) && (Starting(j) in after <==> Starting(j) in log0)
      {
        assert OfSet(Items(j), j) && OfSet(Starting(j), j);
      }
    }

    lemma TurnKeeps(order: seq<nat>, i: nat, resolved: set<nat>, bound: nat, stopped: bool, stop: bool,
      reached: seq<PlanSet>, plan: seq<PlanSet>, before: Trace, log: Trace, plan0: seq<PlanSet>, log0: Trace)
      requires i in order && bound <= i && forall j :: j in order && j < i ==> j < bound
      requires Turned(world, order, resolved, bound, stopped, reached, before, plan0, log0)
      requires |plan| == |reached| && forall j :: 0 <= j < |plan| && j != i ==> plan[j] == reached[j]
      requires Protocol(log) && Resolved(i) in log && (stop <==> Stopped(log))
      requires SameBackground(before, log) && OthersKept(before, log, i)
      requires SetEnded(world, log, i, plan0[i], plan[i])
      ensures Turned(world, order, resolved, i + 1, stop, plan, log, plan0, log0)
    {
      OthersStillShown(order, i, log0, before, log);
      forall j | j in order && j < i ensures Resolved(j) in log { assert OfSet(Resolved(j), j); }
      forall j: nat | j in order && j < i ensures SetEnded(world, log, j, plan0[j], plan[j]) {
        EndedKept(before, log, j, i, plan0[j], plan[j]);
      }
      forall j | j in order && j > i ensures Untouched(log, j) { assert Untouched(before, j); }
      forall j: nat | j < |plan| && j !in order ensures j in resolved <==> Resolved(j) in log {
        assert OfSet(Resolved(j), j);
      }
      forall s: nat | Stop(s) in log ensures s in order && s <= i { assert s != i ==> OfSet(Stop(s), s); }
      forall j: nat | Transact(j) in log ensures j in order && j <= i { assert j != i ==> OfSet(Transact(j), j); }
    }

    method RunSets(order: seq<nat>, ghost resolved: set<nat>)
      returns (failStop: bool, intentFailed: bool, bound: nat)
      modifies this`plan, this`log
      requires Ascending(order)
      requires Turned(world, order, resolved, 0, false, plan, log, plan, log) && Held(log)
      requires AllOpen(order, log)
      ensures Turned(world, order, resolved, bound, failStop, plan, log, old(plan), old(log))
      requires !Stopped(log)
      ensures intentFailed ==> failStop
      ensures intentFailed <==> IntentStop(world, log)
      ensures !intentFailed ==> forall i :: i in order ==> i < bound
    {
      failStop, intentFailed, bound := false, false, 0;
      ghost var plan0, log0 := plan, log;
      var n: nat := 0;
      while n < |order| && !intentFailed
        invariant n <= |order| && bound == (if n == 0 then 0 else order[n - 1] + 1)
        invariant Turned(world, order, resolved, bound, failStop, plan, log, plan0, log0)
        invariant (intentFailed ==> failStop) && (intentFailed <==> IntentStop(world, log))
        decreases |order| - n
      {
        failStop, intentFailed := Turn(order, n, resolved, bound, failStop, plan0, log0);
        bound := order[n] + 1;
        n := n + 1;
      }
      if !intentFailed { LastInOrder(order); }
    }

    lemma StillOpen(order: seq<nat>, n: nat, log0: Trace, log: Trace)
      requires n < |order| && SameBackground(log0, log) && Held(log0)
      requires AllOpen(order, log0)
      ensures Held(log) && StageOpen(log, order[n]) && RootOpen(log, order[n])
    {
      var i := order[n];
      assert i in order && StageOpen(log0, i);
      assert Background(OpenStage(i)) && Background(CloseStage(i));
      assert Background(CreateRoot(i)) && Background(DiscardRoot(i));
      assert Background(AcquireGuard) && Background(ReleaseGuard);
    }

    lemma NextInOrder(order: seq<nat>, n: nat)
      requires n < |order| && Ascending(order)
      ensures n > 0 ==> order[n - 1] < order[n]
      ensures forall i :: i in order && i < order[n] ==> n > 0 && i <= order[n - 1]
    {
    }

    lemma LastInOrder(order: seq<nat>)
      requires Ascending(order)
      ensures forall i :: i in order ==> i <= order[|order| - 1]
    {
    }

    // ----- legacy lanes and ordinary actions -----

    /** Runs the actions of one lane in order; an engine error ends the whole run. */
    method RunLane(k: nat, count: nat, live: bool) returns (results: Option<seq<ResultStatus>>)
      modifies this`log
      requires Protocol(log) && !Stopped(log) && (live ==> Held(log)) && LaneResolved(k) in log
      requires forall a: nat, l :: RunOrdinary(a, l) !in log && RunLegacy(k, a, l) !in log
      ensures Protocol(log) && LaneEvents(old(log), log, k, count, live)
      ensures results == LaneResults(world, k, count)
      ensures results.Some? ==> ActedTo(log, k, count, live)
      ensures LaneActed(log, k, count, live)
    {
      var all: seq<ResultStatus> := [];
      for a := 0 to count
        invariant Protocol(log) && LaneEvents(old(log), log, k, a, live)
        invariant LaneResults(world, k, a) == Some(all)
        invariant ActedTo(log, k, a, live)
      {
        RunAction(k, a, live, old(log));
        var found := world.lane(k, a);
        if found.None? {
          NoLaneResults(world, k, a + 1, count);
          CutLane(log, k, a, count, live);
          return None;
        }
        all := all + found.value;
      }
      WholeLane(log, k, count, live);
      return Some(all);
    }

    /** The first `n` actions of a lane acted. */
    ghost predicate ActedTo(t: Trace, k: nat, n: nat, live: bool) {
      forall a: nat :: RunLegacy(k, a, live) in t <==> a < n
    }

    /** Of the first `count` actions of a lane those acted before which none failed the engine. */
    ghost predicate LaneActed(t: Trace, k: nat, count: nat, live: bool) {
      forall a: nat :: RunLegacy(k, a, live) in t <==> a < count && LaneResults(world, k, a).Some?
    }

    lemma CutLane(t: Trace, k: nat, a: nat, count: nat, live: bool)
      requires ActedTo(t, k, a + 1, live) && a < count
      requires LaneResults(world, k, a).Some? && LaneResults(world, k, a + 1).None?
      ensures LaneActed(t, k, count, live)
    {
      FirstFailure(world, k, a);
    }

    lemma WholeLane(t: Trace, k: nat, count: nat, live: bool)
      requires ActedTo(t, k, count, live) && LaneResults(world, k, count).Some?
      ensures LaneActed(t, k, count, live)
    {
      AllAnswered(world, k, count);
    }

    lemma AllAnswered(w: World, k: nat, count: nat)
      requires LaneResults(w, k, count).Some?
      ensures forall a: nat :: a <= count ==> LaneResults(w, k, a).Some?
    {
      forall a: nat | a <= count ensures LaneResults(w, k, a).Some? {
        if LaneResults(w, k, a).None? { NoLaneResults(w, k, a, count); }
      }
    }

    lemma FirstFailure(w: World, k: nat, a: nat)
      requires LaneResults(w, k, a).Some? && LaneResults(w, k, a + 1).None?
      ensures forall b: nat :: LaneResults(w, k, b).Some? <==> b <= a
    {
      AllAnswered(w, k, a);
      forall b: nat | b > a ensures LaneResults(w, k, b).None? { NoLaneResults(w, k, a + 1, b); }
    }

    method RunAction(k: nat, a: nat, live: bool, ghost log0: Trace)
      modifies this`log
      requires Protocol(log0) && !Stopped(log0) && (live ==> Held(log0)) && LaneResolved(k) in log0
      requires forall b: nat, l :: RunOrdinary(b, l) !in log0 && RunLegacy(k, b, l) !in log0
      requires Protocol(log) && LaneEvents(log0, log, k, a, live)
      ensures Protocol(log) && LaneEvents(log0, log, k, a + 1, live)
      ensures forall e :: e in log <==> e in old(log) || e == RunLegacy(k, a, live)
      ensures ActedTo(old(log), k, a, live) ==> ActedTo(log, k, a + 1, live)
    {
      LaneEventsKeep(log0, log, k, a, live);
      Emit(RunLegacy(k, a, live));
    }

    lemma {:induction false} NoLaneResults(w: World, k: nat, a: nat, count: nat)
      requires a <= count && LaneResults(w, k, a).None?
      ensures LaneResults(w, k, count).None?
    {
      if a < count { NoLaneResults(w, k, a, count - 1); }
    }

    lemma LaneEventsKeep(before: Trace, after: Trace, k: nat, count: nat, live: bool)
      requires LaneEvents(before, after, k, count, live)
      ensures Stopped(after) ==> Stopped(before)
      ensures OnlyKind(before, after, LegacyKind)
    {
    }

    method RunLanes(inputs: Inputs, state: CollisionState, live: bool)
      returns (ok: bool, results: map<string, seq<ResultStatus>>, all: seq<ResultStatus>)
      modifies this`log
      requires Protocol(log) && !Stopped(log) && (live ==> Held(log)) && !LegacyBegan(log)
      requires forall k: nat :: k < |inputs.lanes| ==> LaneResolved(k) in log
      ensures Protocol(log) && OnlyKind(old(log), log, LegacyKind) && !Stopped(log)
      ensures LanesRan(log, inputs.lanes, |inputs.lanes|, state, live) && NoOrdinary(log) && JournalLegacy !in log
      ensures ok ==> forall k: nat :: k < |inputs.lanes| ==> LaneComplete(log, inputs.lanes, k, state, live)
      ensures ok && DistinctLanes(inputs.lanes) ==>
        LaneResultsKnown(world, inputs.lanes, |inputs.lanes|, state, results)
      ensures ok ==> OfLanes(results.Keys, inputs.lanes)
      ensures LegacyActed(world, log, inputs.lanes, |inputs.lanes|, state, live)
      ensures ok <==> LanesAnswer(world, inputs.lanes, |inputs.lanes|, state)
      ensures ok ==> forall r: ResultStatus ::
        r in all <==> FromLanes(world, inputs.lanes, |inputs.lanes|, state, r)
    {
      ok, results, all := true, map[], [];
      assert KindOf(JournalLegacy) == LegacyKind;
      forall k: nat, a: nat ensures RunLegacy(k, a, live) !in log {
        assert KindOf(RunLegacy(k, a, live)) == LegacyKind;
      }
      for k := 0 to |inputs.lanes|
        invariant Protocol(log) && LanesSoFar(old(log), log, inputs.lanes, k, state, live)
        invariant LegacyActed(world, log, inputs.lanes, k, state, live)
        invariant ResultsSoFar(inputs.lanes, k, state, results, all)
      {
        var found := LaneTurn(k, inputs.lanes, state, live, old(log));
        if found.None? {
          NoMoreLanes(world, log, inputs.lanes, k + 1, state, live);
          return false, results, all;
        }
        results, all := Record(inputs.lanes, k, state, found.value, results, all);
      }
    }

    /** What the lanes so far came to, lane by lane and in one list. */
    ghost predicate ResultsSoFar(lanes: seq<LegacyLane>, k: nat, state: CollisionState,
      results: map<string, seq<ResultStatus>>, all: seq<ResultStatus>)
    {
      && k <= |lanes| && (DistinctLanes(lanes) ==> LaneResultsKnown(world, lanes, k, state, results))
      && OfLanes(results.Keys, lanes) && LanesAnswer(world, lanes, k, state)
      && forall r: ResultStatus :: r in all <==> FromLanes(world, lanes, k, state, r)
    }

    method Record(lanes: seq<LegacyLane>, k: nat, state: CollisionState, found: seq<ResultStatus>,
      before: map<string, seq<ResultStatus>>, any: seq<ResultStatus>)
      returns (results: map<string, seq<ResultStatus>>, all: seq<ResultStatus>)
      requires k < |lanes| && ResultsSoFar(lanes, k, state, before, any)
      requires Some(found) == if Runs(lanes, k, state) then LaneResults(world, k, |lanes[k].targets|) else Some([])
      ensures ResultsSoFar(lanes, k + 1, state, results, all)
    {
      MoreFromLanes(lanes, k, state, found);
      results, all := before, any + found;
      if lanes[k].selected && lanes[k].captureID !in state.legacy {
        KnownMore(lanes, k, state, results, found);
        results := results[lanes[k].captureID := found];
      }
    }

    /** Only lanes have results. */
    predicate OfLanes(ids: set<string>, lanes: seq<LegacyLane>) {
      forall c :: c in ids ==> exists k :: 0 <= k < |lanes| && lanes[k].captureID == c
    }

    lemma MoreFromLanes(lanes: seq<LegacyLane>, k: nat, state: CollisionState, found: seq<ResultStatus>)
      requires k < |lanes| && LanesAnswer(world, lanes, k, state)
      requires Some(found) ==
        if Runs(lanes, k, state) then LaneResults(world, k, |lanes[k].targets|) else Some([])
      ensures LanesAnswer(world, lanes, k + 1, state)
      ensures forall r: ResultStatus ::
        FromLanes(world, lanes, k + 1, state, r) <==> FromLanes(world, lanes, k, state, r) || r in found
    {
      forall r: ResultStatus ensures FromLanes(world, lanes, k + 1, state, r) <==>
        FromLanes(world, lanes, k, state, r) || r in found
      {
        if r in found { assert Runs(lanes, k, state) && Reports(LaneResults(world, k, |lanes[k].targets|), r); }
      }
    }

    /** The turn of one lane; a lane that is filtered or blocked runs nothing. */
    method LaneTurn(k: nat, lanes: seq<LegacyLane>, state: CollisionState, live: bool, ghost before: Trace)
      returns (found: Option<seq<ResultStatus>>)
      modifies this`log
      requires k < |lanes| && Protocol(log) && (live ==> Held(before)) && LaneResolved(k) in before
      requires LanesSoFar(before, log, lanes, k, state, live)
      requires LegacyActed(world, log, lanes, k, state, live) && LanesAnswer(world, lanes, k, state)
      ensures LegacyActed(world, log, lanes, k + 1, state, live)
      ensures found.Some? <==> LanesAnswer(world, lanes, k + 1, state)
      ensures Protocol(log) && LanesRanSoFar(before, log, lanes, k + 1, state, live)
      ensures found.Some? ==> LanesSoFar(before, log, lanes, k + 1, state, live)
      ensures found == if lanes[k].selected && lanes[k].captureID !in state.legacy
        then LaneResults(world, k, |lanes[k].targets|) else Some([])
    {
      assert KindOf(LaneResolved(k)) == LaneKind && KindOf(AcquireGuard) == KindOf(ReleaseGuard) == GuardKind;
      if lanes[k].selected && lanes[k].captureID !in state.legacy {
        found := RunLaneAt(k, lanes, state, live);
      } else {
        found := Some([]);
      }
    }

    /** One lane's turn: its actions are added, and the lanes before it stay complete. */
    method RunLaneAt(k: nat, lanes: seq<LegacyLane>, state: CollisionState, live: bool)
      returns (found: Option<seq<ResultStatus>>)
      modifies this`log
      requires k < |lanes| && lanes[k].selected && lanes[k].captureID !in state.legacy
      requires Protocol(log) && !Stopped(log) && (live ==> Held(log)) && LaneResolved(k) in log
      requires LanesRan(log, lanes, k, state, live) && NoOrdinary(log)
      requires forall j: nat :: j < k ==> LaneComplete(log, lanes, j, state, live)
      requires LegacyActed(world, log, lanes, k, state, live) && LanesAnswer(world, lanes, k, state)
      ensures LegacyActed(world, log, lanes, k + 1, state, live)
      ensures Protocol(log) && OnlyKind(old(log), log, LegacyKind) && !Stopped(log)
      ensures LanesRan(log, lanes, k + 1, state, live) && NoOrdinary(log)
      ensures JournalLegacy in log ==> JournalLegacy in old(log)
      ensures forall j: nat :: j < k ==> LaneComplete(log, lanes, j, state, live)
      ensures found == LaneResults(world, k, |lanes[k].targets|)
      ensures found.Some? ==> LaneComplete(log, lanes, k, state, live)
    {
      found := RunLane(k, |lanes[k].targets|, live);
      LaneEventsKeep(old(log), log, k, |lanes[k].targets|, live);
      forall j: nat | j < k ensures LaneComplete(log, lanes, j, state, live) {
        LaneCompleteGrows(old(log), log, lanes, j, state, live);
      }
    }

    lemma KnownMore(lanes: seq<LegacyLane>, k: nat, state: CollisionState,
      results: map<string, seq<ResultStatus>>, found: seq<ResultStatus>)
      requires k < |lanes| && LaneResults(world, k, |lanes[k].targets|) == Some(found)
      ensures DistinctLanes(lanes) && LaneResultsKnown(world, lanes, k, state, results) ==>
        LaneResultsKnown(world, lanes, k + 1, state, results[lanes[k].captureID := found])
    {
    }

    method RunOrdinaryActions(count: nat, state: CollisionState, live: bool)
      returns (ok: bool, items: seq<ResultStatus>)
      modifies this`log
      requires Protocol(log) && !Stopped(log) && (live ==> Held(log))
      requires forall a: nat, l :: RunOrdinary(a, l) !in log
      ensures Protocol(log) && OrdinaryEvents(old(log), log, count, state, live)
      ensures ok <==> OrdinaryAnswer(world, count, state)
      ensures ok ==> forall a: nat :: a < count && a !in state.ordinary ==> RunOrdinary(a, live) in log
      ensures OrdinaryActed(log, count, state, live) && (ok ==> ItemsSoFar(count, state, items))
    {
      ok, items := true, [];
      for a := 0 to count
        invariant Protocol(log) && OrdinaryEvents(old(log), log, a, state, live)
        invariant OrdinarySoFar(log, a, state, live) && ItemsSoFar(a, state, items)
      {
        ghost var t := log;
        if a in state.ordinary {
          MoreItems(a, state, items, [ItemFailed]);
          items := items + [ItemFailed];
        } else {
          OrdinaryEventsKeep(old(log), log, a, state, live);
          Emit(RunOrdinary(a, live));
          OneMoreOrdinary(t, log, a, state, live);
          var found := world.ordinary(a);
          if found.None? {
            NoMoreOrdinary(log, a, count, state, live);
            return false, items;
          }
          MoreItems(a, state, items, found.value);
          items := items + found.value;
        }
      }
      AllOrdinary(log, count, state, live);
    }

    /** The first `count` ordinary actions acted, the blocked ones aside. */
    ghost predicate OrdinaryDone(t: Trace, count: nat, state: CollisionState, live: bool) {
      forall a: nat :: RunOrdinary(a, live) in t <==> a < count && a !in state.ordinary
    }

    ghost predicate OrdinarySoFar(t: Trace, count: nat, state: CollisionState, live: bool) {
      OrdinaryDone(t, count, state, live) && OrdinaryAnswer(world, count, state)
    }

    ghost predicate OrdinaryActed(t: Trace, count: nat, state: CollisionState, live: bool) {
      forall a: nat :: RunOrdinary(a, live) in t <==> OrdinaryActs(world, count, state, a)
    }

    lemma OneMoreOrdinary(t: Trace, u: Trace, a: nat, state: CollisionState, live: bool)
      requires OrdinaryDone(t, a, state, live) && a !in state.ordinary
      requires forall e :: e in u <==> e in t || e == RunOrdinary(a, live)
      ensures OrdinaryDone(u, a + 1, state, live)
    {
    }

    lemma NoMoreOrdinary(t: Trace, a: nat, count: nat, state: CollisionState, live: bool)
      requires a < count && OrdinaryDone(t, a + 1, state, live) && OrdinaryAnswer(world, a, state)
      requires a !in state.ordinary && world.ordinary(a).None?
      ensures OrdinaryActed(t, count, state, live) && !OrdinaryAnswer(world, count, state)
    {
    }

    lemma AllOrdinary(t: Trace, count: nat, state: CollisionState, live: bool)
      requires OrdinarySoFar(t, count, state, live)
      ensures OrdinaryActed(t, count, state, live)
    {
    }

    ghost predicate ItemsSoFar(count: nat, state: CollisionState, items: seq<ResultStatus>) {
      forall r: ResultStatus :: r in items <==> FromOrdinary(world, count, state, r)
    }

    lemma MoreItems(a: nat, state: CollisionState, items: seq<ResultStatus>, found: seq<ResultStatus>)
      requires ItemsSoFar(a, state, items)
      requires if a in state.ordinary then found == [ItemFailed] else world.ordinary(a) == Some(found)
      ensures ItemsSoFar(a + 1, state, items + found)
    {
      forall r: ResultStatus ensures
        FromOrdinary(world, a + 1, state, r) <==> FromOrdinary(world, a, state, r) || r in found
      {
      }
    }

    lemma OrdinaryEventsKeep(before: Trace, after: Trace, count: nat, state: CollisionState, live: bool)
      requires OrdinaryEvents(before, after, count, state, live)
      ensures Stopped(after) ==> Stopped(before)
      ensures OnlyKind(before, after, LegacyKind)
    {
    }

    /** Legacy lanes in order, then their projection, then the ordinary actions. */
    method ExecuteLegacyAndOrdinary(inputs: Inputs, state: CollisionState, live: bool)
      returns (ok: bool, items: seq<ResultStatus>)
      modifies this`lanes, this`log
      requires Protocol(log) && !Stopped(log) && (live ==> Held(log)) && !LegacyBegan(log)
      requires forall k: nat :: k < |inputs.lanes| ==> LaneResolved(k) in log
      ensures Protocol(log) && OnlyKind(old(log), log, LegacyKind) && !Stopped(log)
      ensures LanesRan(log, inputs.lanes, |inputs.lanes|, state, live)
      ensures OrdinaryRan(log, |inputs.ordinary|, state, live) && JournalLegacy !in log
      ensures ok ==> forall k: nat :: k < |inputs.lanes| ==> LaneComplete(log, inputs.lanes, k, state, live)
      ensures ok ==> forall a: nat :: a < |inputs.ordinary| && a !in state.ordinary ==> RunOrdinary(a, live) in log
      ensures ok ==> |lanes| == |inputs.lanes| && forall k: nat :: k < |lanes| ==>
        LaneSettled(world, k, lanes[k], inputs.lanes[k], state, live)
      ensures PhaseActed(world, log, inputs, state, live) && (ok <==> LegacySucceeds(world, inputs, state, live))
      ensures ok ==> (NeedsJournal(world, inputs, state) <==> exists r :: r in items && r != ItemUpToDate)
    {
      var ran, results, fromLanes := RunLanes(inputs, state, live);
      if !ran {
        return false, [];
      }
      var sets := SettleLanes(inputs.lanes, state, live, results);
      if sets.None? {
        return false, [];
      }
      label Lanes:
      ok, items := RunOrdinaryActions(|inputs.ordinary|, state, live);
      OrdinaryEventsKeep(old@Lanes(log), log, |inputs.ordinary|, state, live);
      ActedStill(old@Lanes(log), log, inputs, state, live);
      if ok {
        forall k: nat | k < |inputs.lanes| ensures LaneComplete(log, inputs.lanes, k, state, live) {
          LaneCompleteGrows(old@Lanes(log), log, inputs.lanes, k, state, live);
        }
        lanes := sets.value;
        Gathered(inputs, state, fromLanes, items);
        items := fromLanes + items;
      }
    }

    /** The ordinary actions leave what the lanes did as it is. */
    lemma ActedStill(t: Trace, u: Trace, inputs: Inputs, state: CollisionState, live: bool)
      requires LegacyActed(world, t, inputs.lanes, |inputs.lanes|, state, live)
      requires OrdinaryEvents(t, u, |inputs.ordinary|, state, live) && LanesSucceed(world, inputs.lanes, state, live)
      requires OrdinaryActed(u, |inputs.ordinary|, state, live)
      ensures PhaseActed(world, u, inputs, state, live)
    {
      forall k: nat, a: nat ensures RunLegacy(k, a, live) in t <==> RunLegacy(k, a, live) in u { }
    }

    /** Projects what the lanes came to, set by set in the order of the lanes. */
    method SettleLanes(legacy: seq<LegacyLane>, state: CollisionState, live: bool,
      results: map<string, seq<ResultStatus>>) returns (sets: Option<seq<PlanSet>>)
      requires OfLanes(results.Keys, legacy) && LanesAnswer(world, legacy, |legacy|, state)
      requires DistinctLanes(legacy) ==> LaneResultsKnown(world, legacy, |legacy|, state, results)
      ensures sets.Some? <==> LanesSucceed(world, legacy, state, live)
      ensures sets.Some? ==> |sets.value| == |legacy| && forall k: nat :: k < |legacy| ==>
        LaneSettled(world, k, sets.value[k], legacy[k], state, live)
    {
      var projected, byCaptureID := ProjectLegacy(legacy, true, !live, results, state.legacy);
      OutcomesExactly(legacy, state, live, results);
      if projected.None? {
        return None;
      }
      var aligned := InLaneOrder(legacy, projected.value, byCaptureID, true, !live, results, state.legacy);
      forall k: nat | k < |legacy| ensures LaneSettled(world, k, aligned[k], legacy[k], state, live) {
        var lane := legacy[k];
        assert Some(aligned[k]) == ProjectLane(lane, true, !live, results, state.legacy);
        if LaneRan(lane, true, state.legacy) {
          assert LaneResults(world, k, |lane.targets|) == Some(results[lane.captureID]);
        }
      }
      return Some(aligned);
    }

    lemma OutcomesExactly(legacy: seq<LegacyLane>, state: CollisionState, live: bool,
      results: map<string, seq<ResultStatus>>)
      requires LanesAnswer(world, legacy, |legacy|, state)
      requires DistinctLanes(legacy) ==> LaneResultsKnown(world, legacy, |legacy|, state, results)
      ensures Canonical(legacy) ==>
        (AllHaveOutcomes(legacy, true, !live, results, state.legacy) <==> LanesSucceed(world, legacy, state, live))
    {
      if Canonical(legacy) {
        forall k: nat | Runs(legacy, k, state)
          ensures HasOutcome(legacy[k], !live, results) <==>
            Classifiable(LaneResults(world, k, |legacy[k].targets|), live)
        {
          assert LaneResults(world, k, |legacy[k].targets|) == Some(results[legacy[k].captureID]);
        }
        if LanesSucceed(world, legacy, state, live) {
          forall l | l in legacy && LaneRan(l, true, state.legacy) ensures HasOutcome(l, !live, results) {
            var k: nat :| k < |legacy| && legacy[k] == l;
            assert Runs(legacy, k, state);
          }
        }
        if AllHaveOutcomes(legacy, true, !live, results, state.legacy) {
          forall k: nat | Runs(legacy, k, state)
            ensures Classifiable(LaneResults(world, k, |legacy[k].targets|), live)
          {
            assert legacy[k] in legacy && LaneRan(legacy[k], true, state.legacy);
          }
        }
      }
    }

    lemma Gathered(inputs: Inputs, state: CollisionState, fromLanes: seq<ResultStatus>, items: seq<ResultStatus>)
      requires forall r: ResultStatus :: r in fromLanes <==> FromLanes(world, inputs.lanes, |inputs.lanes|, state, r)
      requires ItemsSoFar(|inputs.ordinary|, state, items)
      ensures NeedsJournal(world, inputs, state) <==> exists r :: r in fromLanes + items && r != ItemUpToDate
    {
      if NeedsJournal(world, inputs, state) {
        var r: ResultStatus :| r != ItemUpToDate && (FromLanes(world, inputs.lanes, |inputs.lanes|, state, r) ||
          FromOrdinary(world, |inputs.ordinary|, state, r));
        assert r in fromLanes + items;
      }
      if r :| r in fromLanes + items && r != ItemUpToDate {
        assert FromLanes(world, inputs.lanes, |inputs.lanes|, state, r) ||
          FromOrdinary(world, |inputs.ordinary|, state, r);
      }
    }

    // ----- one run under the guard -----

    method EmitUnselected() returns (resolved: set<nat>)
      modifies this`log
      requires Protocol(log) && forall i: nat :: Resolved(i) !in log
      ensures Protocol(log) && OnlyKind(old(log), log, ResolutionKind)
      ensures forall i: nat :: Resolved(i) in log <==> i in resolved
      ensures forall i: nat :: i in resolved <==> i < |plan| && !plan[i].Selected()
    {
      resolved := {};
      for n := 0 to |plan|
        invariant Protocol(log) && OnlyKind(old(log), log, ResolutionKind)
        invariant forall i: nat :: Resolved(i) in log <==> i in resolved
        invariant forall i: nat :: i in resolved <==> i < n && !plan[i].Selected()
      {
        if !plan[n].Selected() {
          Emit(Resolved(n));
          resolved := resolved + {n};
        }
      }
    }

    method EmitEarlyItems(early: set<nat>)
      modifies this`log
      requires Protocol(log) && forall i: nat :: Items(i) !in log
      requires forall i :: i in early ==> i < |plan| && Resolved(i) in log
      ensures Protocol(log) && OnlyKind(old(log), log, ItemKind)
      ensures forall i: nat :: Items(i) in log <==> i in early
      ensures forall i: nat :: Starting(i) in log <==> Starting(i) in old(log)
    {
      for n := 0 to |plan|
        invariant Protocol(log) && OnlyKind(old(log), log, ItemKind)
        invariant forall i: nat :: Items(i) in log <==> i in early && i < n
        invariant forall i: nat :: Starting(i) in log <==> Starting(i) in old(log)
      {
        if n in early {
          Emit(Items(n));
        }
      }
    }

    /** Every set still selected is closed off after a stop. */
    method MarkRecoveryRequired()
      modifies this`plan
      ensures |plan| == |old(plan)| && forall i: nat :: i < |plan| ==>
        plan[i] == if old(plan)[i].Selected() then old(plan)[i].With(Skipped, Some(RecoveryRequired)) else old(plan)[i]
    {
      for n := 0 to |plan|
        invariant |plan| == |old(plan)| && forall i: nat :: i < |plan| ==>
          plan[i] ==
            if i < n && old(plan)[i].Selected() then old(plan)[i].With(Skipped, Some(RecoveryRequired))
            else old(plan)[i]
      {
        if plan[n].Selected() {
          plan := plan[n := plan[n].With(Skipped, Some(RecoveryRequired))];
        }
      }
    }

    method OverlayLanesRecoveryRequired(inputs: Inputs)
      modifies this`lanes
      requires |lanes| == |inputs.lanes|
      ensures |lanes| == |old(lanes)| && forall k: nat :: k < |lanes| ==>
        lanes[k] == AfterStop(old(lanes)[k], inputs.lanes[k])
    {
      for n := 0 to |lanes|
        invariant |lanes| == |old(lanes)| && forall k: nat :: k < |lanes| ==>
          lanes[k] == if k < n then AfterStop(old(lanes)[k], inputs.lanes[k]) else old(lanes)[k]
      {
        lanes := lanes[n := AfterStop(lanes[n], inputs.lanes[n])];
      }
    }

    /** Announces everything already decided before the first set runs. */
    method Announce(order: seq<nat>, early: set<nat>) returns (resolved: set<nat>)
      modifies this`log
      requires Protocol(log) && forall e :: e in log ==> Infrastructure(e)
      requires forall i: nat :: i in order <==> i < |plan| && plan[i].Selected()
      requires forall i :: i in early ==> i < |plan| && !plan[i].Selected()
      ensures Protocol(log) && SameInfrastructure(old(log), log) && !LegacyBegan(log)
      ensures Turned(world, order, resolved, 0, false, plan, log, plan, log)
      ensures EarlyShown(log, order, early)
      ensures forall i :: i in order ==> i !in resolved
      ensures forall k: nat :: LaneResolved(k) in log <==> k < |lanes| && lanes[k].status != Planned
    {
      ghost var t0 := log;
      resolved := EmitUnselected();
      ghost var t1 := log;
      EmitEarlyItems(early);
      ghost var t2 := log;
      var settled := seq(|lanes|, k requires 0 <= k < |lanes| reads this => lanes[k].status != Planned);
      EmitLanes(settled);
      Announced(order, early, resolved, plan, t0, t1, t2, log);
    }

    lemma Announced(order: seq<nat>, early: set<nat>, resolved: set<nat>, plan: seq<PlanSet>,
      t0: Trace, t1: Trace, t2: Trace, t3: Trace)
      requires Protocol(t3) && forall e :: e in t0 ==> Infrastructure(e)
      requires forall i: nat :: i in order <==> i < |plan| && plan[i].Selected()
      requires forall i :: i in early ==> i < |plan| && !plan[i].Selected()
      requires OnlyKind(t0, t1, ResolutionKind) && OnlyKind(t1, t2, ItemKind) && OnlyKind(t2, t3, LaneKind)
      requires forall i: nat :: Resolved(i) in t1 <==> i in resolved
      requires forall i: nat :: i in resolved <==> i < |plan| && !plan[i].Selected()
      requires forall i: nat :: Items(i) in t2 <==> i in early
      requires forall i: nat :: Starting(i) in t2 <==> Starting(i) in t1
      ensures EarlyShown(t3, order, early)
      ensures SameInfrastructure(t0, t3) && !LegacyBegan(t3)
      ensures Turned(world, order, resolved, 0, false, plan, t3, plan, t3)
    {
      forall e | Infrastructure(e) ensures e in t0 <==> e in t3 {
        assert (e in t0 <==> e in t1) && (e in t1 <==> e in t2);
      }
      forall e | e in t3 ensures KindOf(e) != LegacyKind && KindOf(e) != SetKind {
        assert KindOf(e) in {LegacyKind, SetKind} ==> e in t2 && e in t1 && e in t0;
      }
      assert !Stopped(t3) && !LegacyBegan(t3);
      forall i | i in order ensures Untouched(t3, i) {
        forall e | OfSet(e, i) ensures e !in t3 {
          assert e in t3 ==> e in t2;
        }
      }
      forall i: nat ensures Resolved(i) in t3 <==> i in resolved {
        assert Resolved(i) in t2 <==> Resolved(i) in t1;
      }
      forall i: nat ensures (Items(i) in t3 <==> i in early) && Starting(i) !in t3 {
        assert KindOf(Items(i)) == KindOf(Starting(i)) == ItemKind;
        assert Starting(i) !in t0 && (Starting(i) in t1 ==> Starting(i) in t0);
      }
    }

    /** The exits after a stop: nothing more runs, everything still waiting is closed off. */
    method FinishStopped(order: seq<nat>, resolved: set<nat>, bound: nat, inputs: Inputs, ghost state: CollisionState,
      ghost plan0: seq<PlanSet>, ghost log0: Trace)
      modifies this`plan, this`lanes, this`log
      requires Turned(world, order, resolved, bound, true, plan, log, plan0, log0)
      requires forall i: nat :: i in order <==> i < |plan| && plan0[i].Selected()
      requires forall i :: i in order ==> i !in resolved
      requires forall i: nat :: CreateRoot(i) in log ==> i in order
      requires LanesReady(lanes, inputs.lanes, state)
      requires forall k: nat :: LaneResolved(k) in log <==> k < |lanes| && lanes[k].status != Planned
      ensures Protocol(log) && SameInfrastructure(old(log), log) && Stopped(log) && !LegacyBegan(log)
      ensures SameItems(old(log), log)
      ensures RunDecided(world, log, plan0, plan) && AllResolved(log, |plan|)
      ensures forall j: nat :: Transact(j) in log ==> j in order
      ensures StoppedLanes(log, inputs.lanes, lanes, state)
      ensures forall s: nat :: Stop(s) in log <==> Stop(s) in old(log)
    {
      ghost var reached := plan;
      MarkRecoveryRequired();
      ghost var t0 := log;
      EmitMissingResolutions(resolved + set i | i in order && i < bound);
      ghost var t1 := log;
      SettleStoppedLanes(inputs, state);
      StopSettled(order, bound, reached, plan, plan0, t0, t1, log);
    }

    /** Lanes that were still planned are skipped for recovery first, so none of them is announced. */
    method SettleStoppedLanes(inputs: Inputs, ghost state: CollisionState)
      modifies this`lanes, this`log
      requires Protocol(log) && LanesReady(lanes, inputs.lanes, state)
      requires forall k: nat :: LaneResolved(k) in log <==> k < |lanes| && lanes[k].status != Planned
      ensures Protocol(log) && OnlyKind(old(log), log, LaneKind)
      ensures StoppedLanes(log, inputs.lanes, lanes, state)
    {
      OverlayLanesRecoveryRequired(inputs);
      EmitLanes(seq(|lanes|, k requires 0 <= k < |lanes| reads this => lanes[k].status == Planned));
    }

    lemma StopSettled(order: seq<nat>, bound: nat, reached: seq<PlanSet>, plan: seq<PlanSet>, plan0: seq<PlanSet>,
      t0: Trace, t1: Trace, t2: Trace)
      requires |reached| == |plan| == |plan0|
      requires forall i: nat :: i in order <==> i < |plan| && plan0[i].Selected()
      requires forall i: nat :: i in order ==> i < |plan|
      requires forall i: nat {:trigger SetEnded(world, t0, i, plan0[i], reached[i])} :: i in order && i < bound ==>
        SetEnded(world, t0, i, plan0[i], reached[i])
      requires forall i :: i in order && i >= bound ==> Untouched(t0, i) && reached[i] == plan0[i]
      requires forall i: nat :: i < |plan| && i !in order ==> reached[i] == plan0[i]
      requires forall s: nat :: Stop(s) in t0 ==> s in order && s < bound
      requires forall j: nat :: Transact(j) in t0 ==> j in order
      requires forall i: nat :: i < |plan| ==>
        plan[i] == if reached[i].Selected() then reached[i].With(Skipped, Some(RecoveryRequired)) else reached[i]
      requires OnlyKind(t0, t1, ResolutionKind) && OnlyKind(t1, t2, LaneKind)
      requires Stopped(t0) && !LegacyBegan(t0) && AllResolved(t1, |plan|)
      ensures SameInfrastructure(t0, t2) && Stopped(t2) && !LegacyBegan(t2) && AllResolved(t2, |plan|)
      ensures RunDecided(world, t2, plan0, plan)
      ensures forall j: nat :: (Transact(j) in t2 <==> Transact(j) in t0) && (Stop(j) in t2 <==> Stop(j) in t0)
    {
      AnnouncedOnly(t0, t1, t2);
      forall j: nat ensures (Transact(j) in t2 <==> Transact(j) in t0) && (Stop(j) in t2 <==> Stop(j) in t0) {
        assert KindOf(Transact(j)) == KindOf(Stop(j)) == SetKind;
      }
      var s: nat :| Stop(s) in t0;
      assert Stop(s) in t2;
      forall i: nat | i < |plan| ensures Decided(world, t2, i, plan0[i], plan[i]) {
        if i in order && i < bound { assert SetEnded(world, t0, i, plan0[i], reached[i]); }
        SetSettled(t0, t2, i, i in order, i < bound, plan0[i], reached[i], plan[i]);
      }
      forall i: nat | i < |plan| ensures Resolved(i) in t2 { assert Resolved(i) in t1; }
    }

    lemma SetSettled(t0: Trace, t2: Trace, i: nat, ordered: bool, done: bool, p: PlanSet, r: PlanSet, q: PlanSet)
      requires forall e :: KindOf(e) in {SetKind, ItemKind} ==> (e in t0 <==> e in t2)
      requires ordered <==> p.Selected()
      requires ordered && done ==> SetEnded(world, t0, i, p, r)
      requires ordered && !done ==> StoppedBefore(t2, i) && Untouched(t0, i) && r == p
      requires !ordered ==> r == p && Transact(i) !in t0 && Stop(i) !in t0
      requires q == if r.Selected() then r.With(Skipped, Some(RecoveryRequired)) else r
      ensures Decided(world, t2, i, p, q)
    {
      assert KindOf(Transact(i)) == KindOf(Stop(i)) == KindOf(Intent(i)) == SetKind;
      if ordered && done {
        EndedMeans(world, t0, i, p, r);
        EndedSame(world, t0, t2, i, p, r);
      } else if ordered {
        assert OfSet(Transact(i), i) && OfSet(Intent(i), i) && OfSet(Stop(i), i);
      }
    }

    /** Announcements change nothing of what ran. */
    lemma AnnouncedOnly(t0: Trace, t1: Trace, t2: Trace)
      requires OnlyKind(t0, t1, ResolutionKind) && OnlyKind(t1, t2, LaneKind)
      ensures SameInfrastructure(t0, t2) && (LegacyBegan(t2) ==> LegacyBegan(t0)) && (Held(t0) ==> Held(t2))
      ensures forall e :: KindOf(e) in {SetKind, ItemKind} ==> (e in t0 <==> e in t2)
      ensures Stopped(t2) <==> Stopped(t0)
    {
      forall e | KindOf(e) in {StageKind, RootKind, GuardKind, SetKind, ItemKind, LegacyKind}
        ensures e in t0 <==> e in t2 {
        assert e in t0 <==> e in t1;
      }
      forall e | e in t2 ensures KindOf(e) == LegacyKind ==> e in t0 { }
      assert KindOf(AcquireGuard) == KindOf(ReleaseGuard) == GuardKind;
      assert forall s: nat :: KindOf(Stop(s)) == SetKind;
    }

    lemma EndedSame(w: World, t0: Trace, t2: Trace, i: nat, p: PlanSet, q: PlanSet)
      requires SetEnded(w, t0, i, p, q)
      requires forall e :: KindOf(e) in {SetKind, ItemKind} ==> (e in t0 <==> e in t2)
      ensures SetEnded(w, t2, i, p, q)
    {
      assert forall s: nat :: KindOf(Stop(s)) == SetKind;
      assert StoppedBefore(t0, i) <==> StoppedBefore(t2, i);
      assert KindOf(Transact(i)) == KindOf(Intent(i)) == SetKind && KindOf(Starting(i)) == KindOf(Items(i)) == ItemKind;
    }

    /** The exit without a stop: remaining lanes are announced, then legacy and ordinary restores run. */
    method FinishRunning(order: seq<nat>, resolved: set<nat>, bound: nat, inputs: Inputs, state: CollisionState,
      ghost plan0: seq<PlanSet>, ghost log0: Trace) returns (exit: Exit)
      modifies this`lanes, this`log
      requires Turned(world, order, resolved, bound, false, plan, log, plan0, log0) && Held(log)
      requires forall i: nat :: i in order <==> i < |plan| && plan0[i].Selected()
      requires forall i :: i in order ==> i < bound && i !in resolved
      requires LanesReady(lanes, inputs.lanes, state)
      requires forall k: nat :: LaneResolved(k) in log <==> k < |lanes| && lanes[k].status != Planned
      ensures Protocol(log) && SameInfrastructure(old(log), log) && !Stopped(log)
      ensures SameItems(old(log), log)
      ensures RunDecided(world, log, plan0, plan) && AllResolved(log, |plan|)
      ensures forall j: nat :: Transact(j) in log ==> j in order
      ensures forall k: nat :: k < |inputs.lanes| ==> LaneResolved(k) in log
      ensures LanesRan(log, inputs.lanes, |inputs.lanes|, state, true)
      ensures OrdinaryRan(log, |inputs.ordinary|, state, true)
      ensures exit in {LegacyFailed, JournalFailed, Completed}
      ensures exit in {Completed, JournalFailed} ==> SettledRun(world, log, inputs, lanes, state, true)
      ensures PhaseEnds(world, exit, log, inputs, state)
    {
      ghost var t0 := log;
      EmitMissingResolutions(resolved + set i | i in order && i < bound);
      ghost var t1 := log;
      EmitLanes(seq(|lanes|, k requires 0 <= k < |lanes| reads this => lanes[k].status == Planned));
      RunSettled(order, plan, plan0, t0, t1, log);
      ghost var t2 := log;
      exit := RunLegacyPhase(inputs, state);
      LegacyLeavesSets(t2, log, plan0, plan);
    }

    lemma LegacyLeavesSets(t: Trace, u: Trace, before: seq<PlanSet>, after: seq<PlanSet>)
      requires RunDecided(world, t, before, after) && OnlyKind(t, u, LegacyKind)
      ensures RunDecided(world, u, before, after) && SameInfrastructure(t, u)
      ensures forall j: nat :: Transact(j) in t <==> Transact(j) in u
      ensures forall i: nat :: Resolved(i) in t <==> Resolved(i) in u
      ensures forall k: nat :: LaneResolved(k) in t <==> LaneResolved(k) in u
    {
      forall i: nat | i < |before| ensures Decided(world, u, i, before[i], after[i]) {
        assert Decided(world, t, i, before[i], after[i]);
        if before[i].Selected() { EndedSame(world, t, u, i, before[i], after[i]); }
        assert KindOf(Transact(i)) == KindOf(Stop(i)) == SetKind;
      }
    }

    method RunLegacyPhase(inputs: Inputs, state: CollisionState) returns (exit: Exit)
      modifies this`lanes, this`log
      requires Protocol(log) && !Stopped(log) && Held(log) && !LegacyBegan(log)
      requires forall k: nat :: k < |inputs.lanes| ==> LaneResolved(k) in log
      ensures Protocol(log) && OnlyKind(old(log), log, LegacyKind) && !Stopped(log)
      ensures LanesRan(log, inputs.lanes, |inputs.lanes|, state, true)
      ensures OrdinaryRan(log, |inputs.ordinary|, state, true)
      ensures exit in {LegacyFailed, JournalFailed, Completed}
      ensures exit in {Completed, JournalFailed} ==> SettledRun(world, log, inputs, lanes, state, true)
      ensures PhaseEnds(world, exit, log, inputs, state)
    {
      assert KindOf(JournalLegacy) == LegacyKind;
      var ok, items := ExecuteLegacyAndOrdinary(inputs, state, true);
      if !ok {
        return LegacyFailed;
      }
      exit := Completed;
      if exists r :: r in items && r != ItemUpToDate {
        label Ran:
        exit := PublishJournal();
        PhaseActedKept(world, old@Ran(log), log, inputs, state, true);
        SettledRunKept(old@Ran(log), log, inputs, lanes, state);
      }
    }

    /** Writes and registers the legacy journal; either step may fail. */
    method PublishJournal() returns (exit: Exit)
      modifies this`log
      requires Protocol(log) && Held(log) && !Stopped(log) && JournalLegacy !in log
      ensures Protocol(log) && exit in {Completed, JournalFailed}
      ensures exit == Completed <==> world.journalWritten && world.journalRegistered
      ensures log == if world.journalWritten then old(log) + [JournalLegacy] else old(log)
    {
      if !world.journalWritten {
        return JournalFailed;
      }
      Emit(JournalLegacy);
      return if world.journalRegistered then Completed else JournalFailed;
    }

    lemma SettledRunKept(before: Trace, after: Trace, inputs: Inputs, preview: seq<PlanSet>, state: CollisionState)
      requires forall e :: e in after <==> e in before || (e == JournalLegacy && e in after)
      requires LanesRan(before, inputs.lanes, |inputs.lanes|, state, true)
      requires OrdinaryRan(before, |inputs.ordinary|, state, true)
      requires !Stopped(before)
      ensures LanesRan(after, inputs.lanes, |inputs.lanes|, state, true)
      ensures OrdinaryRan(after, |inputs.ordinary|, state, true)
      ensures !Stopped(after) && OnlyKind(before, after, LegacyKind)
      ensures SettledRun(world, before, inputs, preview, state, true) ==>
        SettledRun(world, after, inputs, preview, state, true)
    {
      if SettledRun(world, before, inputs, preview, state, true) {
        forall k: nat | k < |inputs.lanes| ensures LaneComplete(after, inputs.lanes, k, state, true) {
          LaneCompleteGrows(before, after, inputs.lanes, k, state, true);
        }
      }
    }

    lemma RunSettled(order: seq<nat>, plan: seq<PlanSet>, plan0: seq<PlanSet>, t0: Trace, t1: Trace, t2: Trace)
      requires |plan| == |plan0|
      requires forall i: nat :: i in order <==> i < |plan| && plan0[i].Selected()
      requires forall i: nat :: i in order ==> i < |plan|
      requires forall i: nat {:trigger SetEnded(world, t0, i, plan0[i], plan[i])} :: i in order ==>
        SetEnded(world, t0, i, plan0[i], plan[i])
      requires forall i: nat :: i < |plan| && i !in order ==> plan[i] == plan0[i]
      requires forall j: nat :: Transact(j) in t0 ==> j in order
      requires OnlyKind(t0, t1, ResolutionKind) && OnlyKind(t1, t2, LaneKind)
      requires !Stopped(t0) && !LegacyBegan(t0) && Held(t0) && AllResolved(t1, |plan|)
      ensures SameInfrastructure(t0, t2) && !Stopped(t2) && !LegacyBegan(t2) && Held(t2) && AllResolved(t2, |plan|)
      ensures RunDecided(world, t2, plan0, plan)
      ensures forall j: nat :: Transact(j) in t2 <==> Transact(j) in t0
    {
      AnnouncedOnly(t0, t1, t2);
      forall i: nat | i < |plan| ensures Decided(world, t2, i, plan0[i], plan[i]) {
        if i in order { EndedSame(world, t0, t2, i, plan0[i], plan[i]); }
        assert KindOf(Transact(i)) == KindOf(Stop(i)) == SetKind;
      }
      forall j: nat ensures Transact(j) in t2 <==> Transact(j) in t0 { assert KindOf(Transact(j)) == SetKind; }
      forall i: nat | i < |plan| ensures Resolved(i) in t2 { assert Resolved(i) in t1; }
    }

    method RunPrepared(order: seq<nat>, early: set<nat>, inputs: Inputs, state: CollisionState) returns (exit: Exit)
      modifies this`plan, this`lanes, this`log
      requires Protocol(log) && Held(log) && forall e :: e in log ==> Infrastructure(e)
      requires Ascending(order)
      requires forall i: nat :: i in order <==> i < |plan| && plan[i].Selected()
      requires AllOpen(order, log)
      requires forall i: nat :: CreateRoot(i) in log ==> i in order
      requires forall i :: i in early ==> i < |plan| && !plan[i].Selected()
      requires LanesReady(lanes, inputs.lanes, state)
      ensures Protocol(log) && SameInfrastructure(old(log), log)
      ensures RunDecided(world, log, old(plan), plan) && AllResolved(log, |plan|)
      ensures forall j: nat :: Transact(j) in log ==> j in order
      ensures RunEnded(world, exit, log, inputs, lanes, state) && EarlyShown(log, order, early)
    {
      var resolved := Announce(order, early);
      label Announced:
      OpenKept(order, old(log), log);
      var failStop, intentFailed, bound := RunSets(order, resolved);
      BackgroundCarries(old@Announced(log), log);
      EarlyStillShown(old@Announced(log), log, order, early);
      label Ran:
      exit := FinishRun(order, resolved, bound, failStop, intentFailed, inputs, state, old(plan), old@Announced(log));
      EarlyStillShown(old@Ran(log), log, order, early);
    }

    lemma OpenKept(order: seq<nat>, t: Trace, u: Trace)
      requires SameInfrastructure(t, u) && AllOpen(order, t)
      ensures AllOpen(order, u) && (Held(t) ==> Held(u))
      ensures forall i: nat :: CreateRoot(i) in t <==> CreateRoot(i) in u
    {
      ScaffoldKept(t, u);
      forall i | i in order ensures StageOpen(u, i) && RootOpen(u, i) { assert StageOpen(t, i); }
    }

    lemma BackgroundCarries(t: Trace, u: Trace)
      requires SameBackground(t, u)
      ensures SameInfrastructure(t, u) && (Held(t) ==> Held(u))
      ensures forall i: nat :: CreateRoot(i) in t <==> CreateRoot(i) in u
      ensures forall k: nat :: LaneResolved(k) in t <==> LaneResolved(k) in u
    {
    }

    /** After a stop everything left is settled without running; otherwise legacy restores follow. */
    method FinishRun(order: seq<nat>, resolved: set<nat>, bound: nat, failStop: bool, intentFailed: bool,
      inputs: Inputs, state: CollisionState, ghost plan0: seq<PlanSet>, ghost log0: Trace) returns (exit: Exit)
      modifies this`plan, this`lanes, this`log
      requires Turned(world, order, resolved, bound, failStop, plan, log, plan0, log0) && Held(log)
      requires intentFailed ==> failStop
      requires intentFailed <==> IntentStop(world, log)
      requires !intentFailed ==> forall i :: i in order ==> i < bound
      requires forall i: nat :: i in order <==> i < |plan| && plan0[i].Selected()
      requires forall i :: i in order ==> i !in resolved
      requires forall i: nat :: CreateRoot(i) in log ==> i in order
      requires LanesReady(lanes, inputs.lanes, state)
      requires forall k: nat :: LaneResolved(k) in log <==> k < |lanes| && lanes[k].status != Planned
      ensures Protocol(log) && SameInfrastructure(old(log), log) && SameItems(old(log), log)
      ensures RunDecided(world, log, plan0, plan) && AllResolved(log, |plan|)
      ensures forall j: nat :: Transact(j) in log ==> j in order
      ensures RunEnded(world, exit, log, inputs, lanes, state)
    {
      if failStop {
        FinishStopped(order, resolved, bound, inputs, state, plan0, log0);
        exit := if intentFailed then IntentFailed else StoppedEarly;
      } else {
        exit := FinishRunning(order, resolved, bound, inputs, state, plan0, log0);
      }
    }

    /** Stage everything, then block every owner in a collision. */
    method StageAndBlock(inputs: Inputs) returns (prepared: seq<Prepared>, state: CollisionState)
      modifies this`plan, this`lanes, this`log, this`claims, this`staged
      requires Protocol(log) && forall e :: e in log ==> KindOf(e) == GuardKind
      requires PreviewOf(lanes, inputs.lanes) && LanesPreviewed(lanes, inputs.lanes)
      ensures Protocol(log) && OnlyKind(old(log), log, StageKind)
      ensures Increasing(prepared) && forall m :: 0 <= m < |prepared| ==> prepared[m].index < |plan|
      ensures forall i: nat :: StageOpen(log, i) <==> Has(prepared, i)
      ensures forall i: nat :: i < |plan| && plan[i].Selected() ==>
        Has(prepared, i) && !Contested(claims, Generation(i))
      ensures LanesReady(lanes, inputs.lanes, state) && StateReports(state, claims, inputs)
      ensures StagedRight(world, staged, claims, inputs, old(plan))
      ensures |plan| == |old(plan)| && forall i: nat :: i < |plan| ==>
        plan[i] == BlockedSet(StagedSet(old(plan)[i], inputs.knownCaptures, world.stage(i)),
          Contested(claims, Generation(i)))
    {
      prepared := StageAndMaterialize(inputs.knownCaptures);
      assert PreparedFrom(world, prepared, plan);
      state := Collide(prepared, inputs);
    }

    /** Inspect what is left, give it transaction roots, and fix the execution order. */
    method InspectAndRoot(prepared: seq<Prepared>) returns (early: set<nat>, roots: set<nat>, order: seq<nat>)
      modifies this`plan, this`log
      requires Protocol(log) && Held(log) && Increasing(prepared)
      requires forall e :: e in log ==> KindOf(e) in {GuardKind, StageKind}
      requires forall m :: 0 <= m < |prepared| ==> prepared[m].index < |plan|
      requires forall i: nat :: StageOpen(log, i) <==> Has(prepared, i)
      requires forall i: nat :: i < |plan| && plan[i].Selected() ==> Has(prepared, i)
      ensures Protocol(log) && OnlyKind(old(log), log, RootKind) && Held(log)
      ensures |plan| == |old(plan)| && forall i: nat :: i < |plan| ==>
        plan[i] == RootedSet(InspectedSet(old(plan)[i], world.inspect(i)), world.root(i))
      ensures forall i: nat :: (CreateRoot(i) in log <==> i in roots) && DiscardRoot(i) !in log
      ensures forall i: nat :: i in roots <==> i < |plan| && plan[i].Selected()
      ensures forall i: nat :: i in order <==> i in roots
      ensures Ascending(order)
      ensures forall i :: i in early ==> i < |plan| && !plan[i].Selected()
      ensures forall i: nat :: i in early <==> i < |plan| && old(plan)[i].Selected() && world.inspect(i) != Ready
      ensures forall i: nat :: i in roots ==> Has(prepared, i)
    {
      early := InspectPrepared(prepared);
      assert forall m :: 0 <= m < |prepared| ==> Has(prepared, prepared[m].index);
      roots := CreateRoots(prepared);
      order := Executable(prepared);
    }

    /** Everything the run does while it holds the guard; the deferred cleanup runs on every way out. */
    method UnderGuard(inputs: Inputs) returns (exit: Exit, state: CollisionState)
      modifies this`plan, this`lanes, this`log, this`claims, this`staged
      requires Protocol(log) && Held(log) && forall e :: e in log ==> KindOf(e) == GuardKind
      requires PreviewOf(lanes, inputs.lanes) && LanesPreviewed(lanes, inputs.lanes)
      ensures Protocol(log) && Held(log) && StagesClosed(log) && RootsDiscarded(log)
      ensures FinalPlanIs(world, inputs.knownCaptures, claims, log, old(plan), plan) && AllResolved(log, |plan|)
      ensures ItemsShown(world, inputs.knownCaptures, claims, log, old(plan))
      ensures StagedRight(world, staged, claims, inputs, old(plan))
      ensures StateReports(state, claims, inputs)
      ensures forall j: nat :: Transact(j) in log ==>
        j < |plan| && old(plan)[j].Selected() && !Contested(claims, Generation(j))
      ensures RunEnded(world, exit, log, inputs, lanes, state)
    {
      var prepared;
      prepared, state := StageAndBlock(inputs);
      label Blocked:
      exit := RunBlocked(prepared, inputs, state);
      PhasesCompose(inputs.knownCaptures, claims, log, old(plan), old@Blocked(plan), plan);
    }

    /** The rest of the run once every owner in a collision is blocked. */
    method RunBlocked(prepared: seq<Prepared>, inputs: Inputs, state: CollisionState) returns (exit: Exit)
      modifies this`plan, this`lanes, this`log
      requires Protocol(log) && Held(log) && Increasing(prepared)
      requires forall e :: e in log ==> KindOf(e) in {GuardKind, StageKind}
      requires forall m :: 0 <= m < |prepared| ==> prepared[m].index < |plan|
      requires forall i: nat :: StageOpen(log, i) <==> Has(prepared, i)
      requires forall i: nat :: i < |plan| && plan[i].Selected() ==> Has(prepared, i)
      requires LanesReady(lanes, inputs.lanes, state)
      ensures Protocol(log) && Held(log) && StagesClosed(log) && RootsDiscarded(log)
      ensures BlockedRan(world, log, old(plan), plan) && AllResolved(log, |plan|)
      ensures BlockedItems(world, log, old(plan))
      ensures forall j: nat :: Transact(j) in log ==> j < |plan| && old(plan)[j].Selected()
      ensures RunEnded(world, exit, log, inputs, lanes, state)
    {
      var early, roots, order := InspectAndRoot(prepared);
      ghost var ready := plan;
      exit := RunAndGiveBack(prepared, early, roots, order, inputs, state);
      ReadyCompose(log, old(plan), ready, plan);
      ItemsCompose(log, old(plan), ready, order, early);
    }

    lemma ItemsCompose(t: Trace, blocked: seq<PlanSet>, ready: seq<PlanSet>, order: seq<nat>, early: set<nat>)
      requires |ready| == |blocked| && forall i: nat :: i < |blocked| ==>
        ready[i] == RootedSet(InspectedSet(blocked[i], world.inspect(i)), world.root(i))
      requires EarlyShown(t, order, early) && forall i: nat :: i in order <==> i < |ready| && ready[i].Selected()
      requires forall i: nat :: i in early <==> i < |blocked| && blocked[i].Selected() && world.inspect(i) != Ready
      ensures BlockedItems(world, t, blocked)
    {
      forall i: nat | i < |blocked| ensures ItemsOf(world, t, i, blocked[i]) {
        if i !in order { assert (Items(i) in t <==> i in early) && Starting(i) !in t; }
      }
    }

    lemma ReadyCompose(t: Trace, blocked: seq<PlanSet>, ready: seq<PlanSet>, after: seq<PlanSet>)
      requires |ready| == |blocked| && forall i: nat :: i < |blocked| ==>
        ready[i] == RootedSet(InspectedSet(blocked[i], world.inspect(i)), world.root(i))
      requires RunDecided(world, t, ready, after)
      ensures BlockedRan(world, t, blocked, after)
      ensures forall i: nat :: i < |blocked| && ready[i].Selected() ==> blocked[i].Selected()
    {
      forall i: nat | i < |blocked|
        ensures Decided(world, t, i, RootedSet(InspectedSet(blocked[i], world.inspect(i)), world.root(i)), after[i])
      {
        assert Decided(world, t, i, ready[i], after[i]);
      }
    }

    /** The phases one after the other make the final plan. */
    lemma PhasesCompose(known: set<string>, claims: seq<OwnedClaim>, t: Trace,
      start: seq<PlanSet>, blocked: seq<PlanSet>, after: seq<PlanSet>)
      requires |start| == |blocked| && forall i: nat :: i < |start| ==>
        blocked[i] == BlockedSet(StagedSet(start[i], known, world.stage(i)), Contested(claims, Generation(i)))
      requires BlockedRan(world, t, blocked, after) && BlockedItems(world, t, blocked)
      ensures FinalPlanIs(world, known, claims, t, start, after) && ItemsShown(world, known, claims, t, start)
      ensures forall i: nat :: i < |start| && blocked[i].Selected() ==>
        start[i].Selected() && !Contested(claims, Generation(i))
    {
      forall i: nat | i < |start|
        ensures FinalSet(world, known, claims, t, i, start[i], after[i])
      {
        assert Decided(world, t, i, RootedSet(InspectedSet(blocked[i], world.inspect(i)), world.root(i)), after[i]);
      }
      forall i: nat | i < |start| ensures ItemsShownOf(world, known, claims, t, i, start[i]) {
        assert ItemsOf(world, t, i, blocked[i]);
      }
    }

    /** Runs the executable sets, then offers every root for discard and closes every stage. */
    method RunAndGiveBack(prepared: seq<Prepared>, early: set<nat>, roots: set<nat>, order: seq<nat>,
      inputs: Inputs, state: CollisionState) returns (exit: Exit)
      modifies this`plan, this`lanes, this`log
      requires Protocol(log) && Held(log) && forall e :: e in log ==> Infrastructure(e)
      requires Increasing(prepared) && forall i: nat :: StageOpen(log, i) <==> Has(prepared, i)
      requires Ascending(order)
      requires forall i: nat :: i in order <==> i in roots
      requires forall i: nat :: i in roots <==> i < |plan| && plan[i].Selected()
      requires forall i: nat :: (CreateRoot(i) in log <==> i in roots) && DiscardRoot(i) !in log
      requires forall i :: i in roots ==> Has(prepared, i)
      requires forall i :: i in early ==> i < |plan| && !plan[i].Selected()
      requires LanesReady(lanes, inputs.lanes, state)
      ensures Protocol(log) && Held(log) && StagesClosed(log) && RootsDiscarded(log)
      ensures RunDecided(world, log, old(plan), plan) && AllResolved(log, |plan|)
      ensures forall j: nat :: Transact(j) in log ==> j in order
      ensures RunEnded(world, exit, log, inputs, lanes, state) && EarlyShown(log, order, early)
    {
      label Rooted:
      exit := RunPrepared(order, early, inputs, state);
      label Ended:
      ScaffoldKept(old@Rooted(log), log);
      GiveBack(prepared, roots, order, exit, inputs, state);
      DecidedKept(old@Ended(log), log, old(plan), plan);
      EarlyStillShown(old@Ended(log), log, order, early);
    }

    /** The deferred cleanup: it changes nothing of how the run ended. */
    method GiveBack(prepared: seq<Prepared>, roots: set<nat>, order: seq<nat>,
      ghost exit: Exit, ghost inputs: Inputs, ghost state: CollisionState)
      modifies this`log
      requires Protocol(log) && Held(log)
      requires Increasing(prepared) && forall i: nat :: StageOpen(log, i) <==> Has(prepared, i)
      requires Ascending(order)
      requires forall i: nat :: RootOpen(log, i) <==> i in roots
      requires forall i: nat :: i in order <==> i in roots
      requires RunEnded(world, exit, log, inputs, lanes, state) && AllResolved(log, |plan|)
      ensures Protocol(log) && Held(log) && StagesClosed(log) && RootsDiscarded(log)
      ensures RunEnded(world, exit, log, inputs, lanes, state) && AllResolved(log, |plan|)
      ensures OnlyCleanup(old(log), log)
    {
      ghost var t0 := log;
      DiscardRoots(order, roots);
      RunEndedKept(exit, t0, log, |plan|, inputs, lanes, state);
      ghost var t1 := log;
      assert forall i: nat :: StageOpen(t1, i) <==> StageOpen(t0, i);
      CloseStages(prepared);
      RunEndedKept(exit, t1, log, |plan|, inputs, lanes, state);
    }

    lemma ScaffoldKept(t0: Trace, t1: Trace)
      requires SameInfrastructure(t0, t1)
      ensures Held(t0) ==> Held(t1)
      ensures forall i: nat :: StageOpen(t0, i) <==> StageOpen(t1, i)
      ensures forall i: nat :: RootOpen(t0, i) <==> RootOpen(t1, i)
    {
    }

    /** The cleanup changes nothing of what the sets did. */
    lemma DecidedKept(t: Trace, u: Trace, before: seq<PlanSet>, after: seq<PlanSet>)
      requires RunDecided(world, t, before, after) && OnlyCleanup(t, u)
      ensures RunDecided(world, u, before, after)
      ensures forall j: nat :: Transact(j) in t <==> Transact(j) in u
    {
      forall e | KindOf(e) in {SetKind, ItemKind} ensures e in t <==> e in u { }
      forall i: nat | i < |before| ensures Decided(world, u, i, before[i], after[i]) {
        assert Decided(world, t, i, before[i], after[i]);
        if before[i].Selected() { EndedSame(world, t, u, i, before[i], after[i]); }
        assert KindOf(Transact(i)) == KindOf(Stop(i)) == SetKind;
      }
    }

    lemma CleanupKeeps(t: Trace, u: Trace)
      requires OnlyCleanup(t, u)
      ensures (Stopped(t) <==> Stopped(u)) && (LegacyBegan(u) ==> LegacyBegan(t))
      ensures forall s: nat :: Stop(s) in t <==> Stop(s) in u
      ensures forall e: Event :: KindOf(e) == LegacyKind ==> (e in t <==> e in u)
    {
      if s: nat :| Stop(s) in t { assert Stop(s) in u; }
      if s: nat :| Stop(s) in u { assert Stop(s) in t; }
    }

    lemma RunEndedKept(exit: Exit, t: Trace, u: Trace, count: nat,
      inputs: Inputs, preview: seq<PlanSet>, state: CollisionState)
      requires RunEnded(world, exit, t, inputs, preview, state) && OnlyCleanup(t, u)
      ensures RunEnded(world, exit, u, inputs, preview, state)
      ensures AllResolved(t, count) ==> AllResolved(u, count)
    {
      CleanupKeeps(t, u);
      if exit in {Completed, JournalFailed} { SettledCleanup(t, u, inputs, preview, state, true); }
      if exit in {LegacyFailed, JournalFailed, Completed} { PhaseKept(world, exit, t, u, inputs, state); }
    }

    lemma FinalPlanKept(known: set<string>, t: Trace, u: Trace, start: seq<PlanSet>, after: seq<PlanSet>)
      requires FinalPlanIs(world, known, claims, t, start, after) && OnlyCleanup(t, u)
      ensures FinalPlanIs(world, known, claims, u, start, after)
      ensures forall j: nat :: Transact(j) in t <==> Transact(j) in u
    {
      forall e | KindOf(e) in {SetKind, ItemKind} ensures e in t <==> e in u { }
      forall i: nat | i < |start|
        ensures FinalSet(world, known, claims, u, i, start[i], after[i])
      {
        var ready := ReadySet(world, i, start[i], known, Contested(claims, Generation(i)));
        assert FinalSet(world, known, claims, t, i, start[i], after[i]);
        if ready.Selected() { EndedSame(world, t, u, i, ready, after[i]); }
        assert KindOf(Transact(i)) == KindOf(Stop(i)) == SetKind;
      }
    }

    lemma SettledCleanup(t: Trace, u: Trace, inputs: Inputs, preview: seq<PlanSet>, state: CollisionState, live: bool)
      requires SettledRun(world, t, inputs, preview, state, live) && OnlyCleanup(t, u)
      ensures SettledRun(world, u, inputs, preview, state, live)
    {
      forall k: nat | k < |inputs.lanes| ensures LaneComplete(u, inputs.lanes, k, state, live) {
        assert LaneComplete(t, inputs.lanes, k, state, live);
      }
    }

    // ----- the whole run -----

    /** Takes the final plan and marks its compatible sets planned; without restore the overlay follows. */
    method StartPlan(sets: seq<PlanSet>, enabled: bool)
      modifies this`plan
      ensures plan == StartedPlan(sets, enabled)
    {
      plan := sets;
      for n := 0 to |plan|
        invariant |plan| == |sets|
        invariant forall i :: 0 <= i < |plan| ==> plan[i] == if i < n then MarkPlanned(sets[i]) else sets[i]
      {
        plan := plan[n := MarkPlanned(plan[n])];
      }
      if !enabled {
        for n := 0 to |plan|
          invariant |plan| == |sets|
          invariant forall i :: 0 <= i < |plan| ==>
            plan[i] == if i < n then MarkNotEnabled(MarkPlanned(sets[i])) else MarkPlanned(sets[i])
        {
          plan := plan[n := MarkNotEnabled(plan[n])];
        }
      }
    }

    method PreviewLegacy(inputs: Inputs, enabled: bool)
      modifies this`lanes
      ensures |lanes| == |inputs.lanes|
      ensures forall k: nat :: k < |lanes| ==> lanes[k] == PreviewLane(inputs.lanes[k], enabled)
      ensures enabled && DistinctLanes(inputs.lanes) ==>
        PreviewOf(lanes, inputs.lanes) && LanesPreviewed(lanes, inputs.lanes)
    {
      lanes := [];
      for n := 0 to |inputs.lanes|
        invariant |lanes| == n
        invariant forall k: nat :: k < n ==> lanes[k] == PreviewLane(inputs.lanes[k], enabled)
      {
        lanes := lanes + [PreviewLane(inputs.lanes[n], enabled)];
      }
    }

    /** A dry run stages, blocks and inspects like a live one but never takes the guard, and announces
      * everything before the first item. */
    method RunDry(inputs: Inputs) returns (exit: Exit, state: CollisionState)
      modifies this`plan, this`lanes, this`log, this`claims, this`staged
      requires log == [] && PreviewOf(lanes, inputs.lanes) && LanesPreviewed(lanes, inputs.lanes)
      ensures Protocol(log) && StagesClosed(log) && NothingLive(log)
      ensures DryPlanIs(world, inputs.knownCaptures, claims, old(plan), plan) && AllResolved(log, |plan|)
      ensures DryItems(world, inputs.knownCaptures, claims, log, old(plan))
      ensures StagedRight(world, staged, claims, inputs, old(plan)) && StateReports(state, claims, inputs)
      ensures DryEnded(world, exit, log, inputs, lanes, state)
    {
      var prepared;
      prepared, state := StageDry(inputs);
      label Shown:
      exit := FinishDry(prepared, inputs, state);
      DryItemsStill(world, inputs.knownCaptures, claims, old@Shown(log), log, old(plan));
    }

    method StageDry(inputs: Inputs) returns (prepared: seq<Prepared>, state: CollisionState)
      modifies this`plan, this`lanes, this`log, this`claims, this`staged
      requires log == [] && PreviewOf(lanes, inputs.lanes) && LanesPreviewed(lanes, inputs.lanes)
      ensures Protocol(log) && Increasing(prepared) && forall i: nat :: StageOpen(log, i) <==> Has(prepared, i)
      ensures forall e :: e in log ==> KindOf(e) !in {GuardKind, RootKind, SetKind, LegacyKind}
      ensures DryPlanIs(world, inputs.knownCaptures, claims, old(plan), plan) && AllResolved(log, |plan|)
      ensures DryItems(world, inputs.knownCaptures, claims, log, old(plan))
      ensures |lanes| == |inputs.lanes| && forall k: nat :: k < |lanes| ==> LaneResolved(k) in log
      ensures StagedRight(world, staged, claims, inputs, old(plan)) && StateReports(state, claims, inputs)
    {
      prepared, state := StageAndBlock(inputs);
      ghost var blocked := plan;
      var order := Executable(prepared);
      InspectDry(order);
      DryCompose(inputs.knownCaptures, claims, old(plan), blocked, plan);
      AnnounceDry(order);
      DryShown(inputs.knownCaptures, claims, old(plan), blocked, order, log);
    }

    lemma DryShown(known: set<string>, claims: seq<OwnedClaim>, start: seq<PlanSet>, blocked: seq<PlanSet>,
      order: seq<nat>, t: Trace)
      requires |start| == |blocked| && forall i: nat :: i < |start| ==>
        blocked[i] == BlockedSet(StagedSet(start[i], known, world.stage(i)), Contested(claims, Generation(i)))
      requires forall i: nat :: i in order <==> i < |blocked| && blocked[i].Selected()
      requires forall i: nat :: (Items(i) in t <==> i in order) && (Starting(i) in t <==> i in order)
      ensures DryItems(world, known, claims, t, start)
    {
    }

    lemma DryCompose(known: set<string>, claims: seq<OwnedClaim>, start: seq<PlanSet>, blocked: seq<PlanSet>,
      after: seq<PlanSet>)
      requires |start| == |blocked| && forall i: nat :: i < |start| ==>
        blocked[i] == BlockedSet(StagedSet(start[i], known, world.stage(i)), Contested(claims, Generation(i)))
      requires InspectApplied(world, blocked, after)
      ensures DryPlanIs(world, known, claims, start, after)
    {
    }

    method InspectDry(order: seq<nat>)
      modifies this`plan
      requires forall i: nat :: i in order <==> i < |plan| && plan[i].Selected()
      requires Ascending(order)
      ensures InspectApplied(world, old(plan), plan)
    {
      ghost var plan0 := plan;
      for m := 0 to |order|
        invariant |plan| == |plan0|
        invariant forall i: nat :: i < |plan| ==>
          plan[i] ==
            if i in order && (m == |order| || i < order[m]) then InspectedSet(plan0[i], world.inspect(i)) else plan0[i]
      {
        var i := order[m];
        assert i in order;
        if world.inspect(i) == AlreadyCurrent {
          plan := plan[i := plan[i].With(Skipped, Some(AlreadyUpToDate))];
        } else if world.inspect(i) == NotBackedUp {
          plan := plan[i := plan[i].With(Failed, Some(BackupFailed))];
        }
      }
    }

    method AnnounceDry(order: seq<nat>)
      modifies this`log
      requires Protocol(log) && forall e :: e in log ==> KindOf(e) == StageKind
      requires forall i :: i in order ==> i < |plan|
      requires Ascending(order)
      ensures Protocol(log) && AllResolved(log, |plan|)
      ensures forall k: nat :: k < |lanes| ==> LaneResolved(k) in log
      ensures forall e :: e in log ==> KindOf(e) !in {GuardKind, RootKind, SetKind, LegacyKind}
      ensures forall e :: KindOf(e) == StageKind ==> (e in log <==> e in old(log))
      ensures forall i: nat :: (Items(i) in log <==> i in order) && (Starting(i) in log <==> i in order)
    {
      EmitMissingResolutions({});
      EmitAllLanes();
      label Announced:
      assert forall i: nat :: KindOf(Items(i)) == KindOf(Starting(i)) == ItemKind;
      for m := 0 to |order|
        invariant Protocol(log) && OnlyKind(old@Announced(log), log, ItemKind) && ShownUpTo(order, m, log)
      {
        assert order[m] in order && Resolved(order[m]) in log;
        ShowOne(order, m);
      }
      forall i: nat ensures AmongFirst(order, |order|, i) <==> i in order { }
    }

    ghost predicate AmongFirst(order: seq<nat>, m: nat, i: nat)
      requires m <= |order|
    {
      exists k :: 0 <= k < m && order[k] == i
    }

    /** The first `m` sets of the order have shown start and items, and no other. */
    ghost predicate ShownUpTo(order: seq<nat>, m: nat, t: Trace) {
      m <= |order| && forall i: nat ::
        (Items(i) in t <==> AmongFirst(order, m, i)) && (Starting(i) in t <==> AmongFirst(order, m, i))
    }

    method ShowOne(order: seq<nat>, m: nat)
      modifies this`log
      requires Protocol(log) && m < |order| && Ascending(order) && ShownUpTo(order, m, log) && Resolved(order[m]) in log
      ensures Protocol(log) && OnlyKind(old(log), log, ItemKind) && ShownUpTo(order, m + 1, log)
    {
      assert !AmongFirst(order, m, order[m]);
      Emit(Starting(order[m]));
      Emit(Items(order[m]));
      forall i: nat ensures AmongFirst(order, m + 1, i) <==> AmongFirst(order, m, i) || i == order[m] { }
    }

    method FinishDry(prepared: seq<Prepared>, inputs: Inputs, state: CollisionState) returns (exit: Exit)
      modifies this`lanes, this`log
      requires Protocol(log) && AllResolved(log, |plan|) && Increasing(prepared)
      requires forall i: nat :: StageOpen(log, i) <==> Has(prepared, i)
      requires forall k: nat :: k < |inputs.lanes| ==> LaneResolved(k) in log
      requires forall e :: e in log ==> KindOf(e) !in {GuardKind, RootKind, SetKind, LegacyKind}
      ensures Protocol(log) && StagesClosed(log) && NothingLive(log) && AllResolved(log, |plan|)
      ensures SameItems(old(log), log)
      ensures DryEnded(world, exit, log, inputs, lanes, state)
    {
      label Start:
      var ok, _ := ExecuteLegacyAndOrdinary(inputs, state, false);
      exit := if ok then DryRunDone else DryRunFailed;
      label Ran:
      assert forall i: nat :: StageOpen(log, i) <==> StageOpen(old@Start(log), i);
      CloseStages(prepared);
      PhaseActedKept(world, old@Ran(log), log, inputs, state, false);
      if ok { SettledCleanup(old@Ran(log), log, inputs, lanes, state, false); }
    }

    /** The whole execution. */
    method Execute(final: Final, inputs: Inputs, enabled: bool, dryRun: bool)
      returns (exit: Exit, state: CollisionState)
      modifies this
      requires log == [] && DistinctLanes(inputs.lanes)
      ensures Protocol(log) && Clean(log)
      ensures exit == FinalPlanFailed <==> final.FinalFailed?
      ensures final.FinalPlan? ==> AllResolved(log, |final.sets|) && |plan| == |final.sets|
      ensures final.FinalPlan? && exit.BeforeRun() ==>
        OnlyAnnounced(log) && plan == StartedPlan(final.sets, enabled)
      ensures final.FinalPlan? && exit in {DryRunDone, DryRunFailed} ==>
        DryRan(exit, inputs, StartedPlan(final.sets, true), state)
      ensures final.FinalPlan? && exit.Ran() ==> LiveRan(exit, inputs, StartedPlan(final.sets, true), state)
      ensures exit == NotEnabled <==> final.FinalPlan? && !enabled
      ensures exit == NotEnabled ==>
        |lanes| == |inputs.lanes| && forall k: nat :: k < |lanes| ==> lanes[k] == PreviewLane(inputs.lanes[k], false)
      ensures exit in {DryRunDone, DryRunFailed} ==> enabled && dryRun
      ensures exit.Ran() ==> enabled && !dryRun
      ensures final.FinalPlan? && enabled && !dryRun ==> LeftEarly(exit, StartedPlan(final.sets, true), inputs)
    {
      state := CollisionState({}, map[], map[]);
      if final.FinalFailed? {
        exit := FinalPlanFailed;
      } else {
        StartPlan(final.sets, enabled);
        PreviewLegacy(inputs, enabled);
        if enabled {
          exit, state := ExecuteEnabled(inputs, dryRun);
        } else {
          EmitMissingResolutions({});
          EmitAllLanes();
          exit := NotEnabled;
        }
      }
    }

    /** A run with restore enabled, from the marked plan and the legacy preview. */
    method ExecuteEnabled(inputs: Inputs, dryRun: bool) returns (exit: Exit, state: CollisionState)
      modifies this`plan, this`lanes, this`log, this`claims, this`staged
      requires log == [] && PreviewOf(lanes, inputs.lanes) && LanesPreviewed(lanes, inputs.lanes)
      ensures Protocol(log) && Clean(log) && AllResolved(log, |plan|) && |plan| == |old(plan)|
      ensures exit !in {FinalPlanFailed, NotEnabled} && (dryRun <==> exit in {DryRunDone, DryRunFailed})
      ensures exit.BeforeRun() ==> OnlyAnnounced(log) && plan == old(plan)
      ensures exit in {DryRunDone, DryRunFailed} ==> DryRan(exit, inputs, old(plan), state)
      ensures exit.Ran() ==> LiveRan(exit, inputs, old(plan), state)
      ensures !dryRun ==> LeftEarly(exit, old(plan), inputs)
    {
      if dryRun {
        exit, state := RunDry(inputs);
      } else {
        exit, state := RunLive(inputs);
      }
    }

    /** What a dry run leaves behind. */
    ghost predicate DryRan(exit: Exit, inputs: Inputs, start: seq<PlanSet>, state: CollisionState)
      reads this
    {
      && NothingLive(log) && DryEnded(world, exit, log, inputs, lanes, state) && StateReports(state, claims, inputs)
      && StagedRight(world, staged, claims, inputs, start)
      && DryPlanIs(world, inputs.knownCaptures, claims, start, plan)
      && DryItems(world, inputs.knownCaptures, claims, log, start)
    }

    /** A live run leaves early only when there is nothing to do or the guard is refused. */
    ghost predicate LeftEarly(exit: Exit, start: seq<PlanSet>, inputs: Inputs) {
      && (exit == NothingToDo <==> Idle(start, inputs))
      && (exit == GuardRefused <==> !Idle(start, inputs) && !world.guard)
    }

    /** What a run under the guard leaves behind. */
    ghost predicate LiveRan(exit: Exit, inputs: Inputs, start: seq<PlanSet>, state: CollisionState)
      reads this
    {
      && RunEnded(world, exit, log, inputs, lanes, state) && StateReports(state, claims, inputs)
      && StagedRight(world, staged, claims, inputs, start)
      && FinalPlanIs(world, inputs.knownCaptures, claims, log, start, plan)
      && ItemsShown(world, inputs.knownCaptures, claims, log, start)
      && forall i: nat :: Transact(i) in log ==> i < |start| && start[i].Selected() && !Contested(claims, Generation(i))
    }

    method RunLive(inputs: Inputs) returns (exit: Exit, state: CollisionState)
      modifies this`plan, this`lanes, this`log, this`claims, this`staged
      requires log == [] && PreviewOf(lanes, inputs.lanes) && LanesPreviewed(lanes, inputs.lanes)
      ensures Protocol(log) && Clean(log) && AllResolved(log, |plan|)
      ensures exit in {NothingToDo, GuardRefused} || exit.Ran()
      ensures exit == NothingToDo <==> Idle(old(plan), inputs)
      ensures exit == GuardRefused <==> !Idle(old(plan), inputs) && !world.guard
      ensures exit.BeforeRun() ==> OnlyAnnounced(log) && plan == old(plan)
      ensures exit.Ran() ==>
        && RunEnded(world, exit, log, inputs, lanes, state) && StateReports(state, claims, inputs)
        && FinalPlanIs(world, inputs.knownCaptures, claims, log, old(plan), plan)
        && ItemsShown(world, inputs.knownCaptures, claims, log, old(plan))
        && StagedRight(world, staged, claims, inputs, old(plan))
        && (forall i: nat :: Transact(i) in log ==>
             i < |plan| && old(plan)[i].Selected() && !Contested(claims, Generation(i)))
      ensures |plan| == |old(plan)|
    {
      state := CollisionState({}, map[], map[]);
      var anySet := exists i :: 0 <= i < |plan| && plan[i].Selected();
      var anyLane := exists k :: 0 <= k < |inputs.lanes| && inputs.lanes[k].selected;
      if (anySet || anyLane || inputs.ordinary != []) && world.guard {
        exit, state := RunGuarded(inputs);
      } else {
        EmitMissingResolutions({});
        exit := if anySet || anyLane || inputs.ordinary != [] then GuardRefused else NothingToDo;
      }
    }

    method RunGuarded(inputs: Inputs) returns (exit: Exit, state: CollisionState)
      modifies this`plan, this`lanes, this`log, this`claims, this`staged
      requires log == [] && PreviewOf(lanes, inputs.lanes) && LanesPreviewed(lanes, inputs.lanes)
      ensures Protocol(log) && Clean(log) && AllResolved(log, |plan|)
      ensures exit.Ran() && RunEnded(world, exit, log, inputs, lanes, state) && StateReports(state, claims, inputs)
      ensures FinalPlanIs(world, inputs.knownCaptures, claims, log, old(plan), plan)
      ensures ItemsShown(world, inputs.knownCaptures, claims, log, old(plan))
      ensures StagedRight(world, staged, claims, inputs, old(plan))
      ensures forall i: nat :: Transact(i) in log ==>
        i < |plan| && old(plan)[i].Selected() && !Contested(claims, Generation(i))
    {
      Emit(AcquireGuard);
      exit, state := UnderGuard(inputs);
      Release(exit, inputs, state, old(plan));
    }

    /** Releasing the guard changes nothing of what happened under it. */
    method Release(ghost exit: Exit, ghost inputs: Inputs, ghost state: CollisionState, ghost start: seq<PlanSet>)
      modifies this`log
      requires Protocol(log) && Held(log) && StagesClosed(log) && RootsDiscarded(log)
      requires FinalPlanIs(world, inputs.knownCaptures, claims, log, start, plan) && AllResolved(log, |plan|)
      requires RunEnded(world, exit, log, inputs, lanes, state)
      requires ItemsShown(world, inputs.knownCaptures, claims, log, start)
      ensures ItemsShown(world, inputs.knownCaptures, claims, log, start)
      ensures Protocol(log) && Clean(log) && AllResolved(log, |plan|)
      ensures FinalPlanIs(world, inputs.knownCaptures, claims, log, start, plan)
      ensures RunEnded(world, exit, log, inputs, lanes, state)
      ensures forall j: nat :: Transact(j) in log <==> Transact(j) in old(log)
    {
      ghost var t := log;
      Emit(ReleaseGuard);
      RunEndedKept(exit, t, log, |plan|, inputs, lanes, state);
      FinalPlanKept(inputs.knownCaptures, t, log, start, plan);
      ItemsStillShown(world, inputs.knownCaptures, claims, t, log, start);
    }
  }
}
