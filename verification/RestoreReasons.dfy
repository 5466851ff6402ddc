/** Why a config set ends the way it does: for every status and reason of the final plan, exactly which
  * answers of the host lead to it. */
module RestoreReasons {
  import opened ConfigPlan
  import opened RestoreTrace
  import opened Claims
  import opened Collisions
  import opened LegacyProjection
  import opened Transaction
  import opened RestoreWorld
  import opened RestoreRun

  /** A set that a run takes up: planned, compatible, and with its target generation at hand. */
  predicate Chosen(p: PlanSet) {
    p.status == Planned && (p.resolution == Direct || p.resolution == Migrate) && p.pinned
  }

  /** Its payload was staged and its targets materialized, and no other owner writes there. */
  ghost predicate Prepares(w: World, known: set<string>, claims: seq<OwnedClaim>, p: PlanSet, i: nat) {
    p.captureID in known && w.stage(i).Materialized? && !Contested(claims, Generation(i))
  }

  /** It also has something to do, a backup and a transaction root, so it waits for its turn. */
  ghost predicate Waits(w: World, known: set<string>, claims: seq<OwnedClaim>, p: PlanSet, i: nat) {
    Prepares(w, known, claims, p, i) && w.inspect(i) == Ready && w.root(i)
  }

  /** Every action finds the kind and the digest it wants. */
  predicate NothingToChange(f: LiveFacts) {
    forall a :: a in f.actions ==> a.prior.kind == a.desired.kind && a.prior.digest == a.desired.digest
  }

  predicate Changes(f: LiveFacts) {
    f.snapshotted && !NothingToChange(f)
  }

  lemma ChangesTransacts(f: LiveFacts)
    ensures Transacts(f) <==> Changes(f) && f.intended
    ensures UpToDate(f.actions) <==> NothingToChange(f)
  {
    if NothingToChange(f) {
      forall k | 0 <= k < |f.actions| ensures f.actions[k].prior == f.actions[k].desired {
        assert f.actions[k] in f.actions;
      }
    }
  }

  /** Only a set that was taken up and materialized can be contested. */
  lemma ContestedWasPrepared(w: World, inputs: Inputs, staged: seq<Prepared>, claims: seq<OwnedClaim>,
    start: seq<PlanSet>, i: nat)
    requires StagedRight(w, staged, claims, inputs, start) && i < |start| && Contested(claims, Generation(i))
    ensures Chosen(start[i]) && start[i].captureID in inputs.knownCaptures && w.stage(i).Materialized?
  {
    ContestedGenerationsArePrepared(TargetsOf(staged), Lanes(inputs.lanes), inputs.ordinary, i);
    assert Has(staged, i) && LetThrough(w, inputs.knownCaptures, staged, i, start[i]);
  }

  // ----- before a set's turn, live or dry -----

  /** What staging, materialization and the collision pass report. */
  ghost predicate EarlyReasons(w: World, known: set<string>, claims: seq<OwnedClaim>, p: PlanSet, i: nat, q: PlanSet) {
    var facts, contested := w.stage(i), Contested(claims, Generation(i));
    && (q == p.(status := Failed, reason := Some(PayloadIntegrityFailed)) <==>
         p.captureID in known && facts == NotStaged(true))
    && (q == p.(status := Failed, reason := Some(StagingValidationFailed)) <==>
         p.captureID !in known || facts == NotStaged(false) || facts == NotMaterialized(false, false))
    && (q == p.(status := Skipped, reason := Some(AppRunning)) <==>
         p.captureID in known && facts.NotMaterialized? && facts.running)
    && (q == p.(status := Failed, reason := Some(TargetCollision)) <==>
         contested || (p.captureID in known && facts == NotMaterialized(false, true)))
  }

  /** A dry run reports a set it could restore as planned, and says exactly why it could not restore another. */
  lemma DryReasons(w: World, inputs: Inputs, staged: seq<Prepared>, claims: seq<OwnedClaim>,
    start: seq<PlanSet>, after: seq<PlanSet>, i: nat)
    requires StagedRight(w, staged, claims, inputs, start)
    requires DryPlanIs(w, inputs.knownCaptures, claims, start, after) && i < |start|
    ensures !Chosen(start[i]) ==> after[i] == start[i]
    ensures Chosen(start[i]) ==> EarlyReasons(w, inputs.knownCaptures, claims, start[i], i, after[i])
    ensures Chosen(start[i]) ==>
      var p, q, prepared := start[i], after[i], Prepares(w, inputs.knownCaptures, claims, start[i], i);
      && (q == p <==> prepared && w.inspect(i) == Ready)
      && (q == p.(status := Skipped, reason := Some(AlreadyUpToDate)) <==> prepared && w.inspect(i) == AlreadyCurrent)
      && (q == p.(status := Failed, reason := Some(BackupFailed)) <==> prepared && w.inspect(i) == NotBackedUp)
  {
    assert DrySet(w, inputs.knownCaptures, claims, i, start[i], after[i]);
    if Contested(claims, Generation(i)) { ContestedWasPrepared(w, inputs, staged, claims, start, i); }
  }

  // ----- a live run -----

  /** A live run leaves alone what it did not take up, and what a set ends with is explained by its
    * staging, by what inspection found, by its root and by its own turn. */
  lemma LiveReasons(w: World, inputs: Inputs, staged: seq<Prepared>, claims: seq<OwnedClaim>, t: Trace,
    start: seq<PlanSet>, after: seq<PlanSet>, i: nat)
    requires StagedRight(w, staged, claims, inputs, start)
    requires FinalPlanIs(w, inputs.knownCaptures, claims, t, start, after) && i < |start|
    ensures !Chosen(start[i]) ==> after[i] == start[i]
    ensures Chosen(start[i]) ==> EarlyReasons(w, inputs.knownCaptures, claims, start[i], i, after[i])
    ensures Chosen(start[i]) ==> TurnReasons(w, inputs.knownCaptures, claims, t, start[i], i, after[i])
    ensures Chosen(start[i]) && Waits(w, inputs.knownCaptures, claims, start[i], i) ==>
      TransactionReasons(w, t, start[i], i, after[i])
  {
    assert FinalSet(w, inputs.knownCaptures, claims, t, i, start[i], after[i]);
    if Contested(claims, Generation(i)) { ContestedWasPrepared(w, inputs, staged, claims, start, i); }
    if Chosen(start[i]) {
      EarlyFromFacts(w, inputs.knownCaptures, claims, t, start[i], i, after[i]);
      TurnFromFacts(w, inputs.knownCaptures, claims, t, start[i], i, after[i]);
      TransactionFromFacts(w, inputs.knownCaptures, claims, t, start[i], i, after[i]);
    }
  }

  /** A set that was taken up, and contested only if it was materialized. */
  ghost predicate TakesPart(w: World, known: set<string>, claims: seq<OwnedClaim>, t: Trace, p: PlanSet, i: nat,
    q: PlanSet)
  {
    && Chosen(p) && FinalSet(w, known, claims, t, i, p, q)
    && (Contested(claims, Generation(i)) ==> p.captureID in known && w.stage(i).Materialized?)
  }

  lemma EarlyFromFacts(w: World, known: set<string>, claims: seq<OwnedClaim>, t: Trace, p: PlanSet, i: nat, q: PlanSet)
    requires TakesPart(w, known, claims, t, p, i, q)
    ensures EarlyReasons(w, known, claims, p, i, q)
  {
  }

  lemma TurnFromFacts(w: World, known: set<string>, claims: seq<OwnedClaim>, t: Trace, p: PlanSet, i: nat, q: PlanSet)
    requires TakesPart(w, known, claims, t, p, i, q)
    ensures TurnReasons(w, known, claims, t, p, i, q)
  {
    ChangesTransacts(w.live(i));
  }

  lemma TransactionFromFacts(w: World, known: set<string>, claims: seq<OwnedClaim>, t: Trace, p: PlanSet, i: nat,
    q: PlanSet)
    requires TakesPart(w, known, claims, t, p, i, q)
    ensures Waits(w, known, claims, p, i) ==> TransactionReasons(w, t, p, i, q)
  {
    ChangesTransacts(w.live(i));
  }

  /** The reasons a set has for never reaching its transaction. */
  ghost predicate TurnReasons(w: World, known: set<string>, claims: seq<OwnedClaim>, t: Trace, p: PlanSet, i: nat,
    q: PlanSet)
  {
    var prepared, waits, f := Prepares(w, known, claims, p, i), Waits(w, known, claims, p, i), w.live(i);
    var stopped := exists s: nat :: s < i && Stop(s) in t;
    && (q == p.(status := Skipped, reason := Some(AlreadyUpToDate)) <==>
         (prepared && w.inspect(i) == AlreadyCurrent) ||
         (waits && !stopped && f.snapshotted && NothingToChange(f)))
    && (q == p.(status := Failed, reason := Some(BackupFailed)) <==>
         (prepared && w.inspect(i) == NotBackedUp) || (prepared && w.inspect(i) == Ready && !w.root(i)) ||
         (waits && !stopped && !f.snapshotted))
    && (q == p.(status := Skipped, reason := Some(RecoveryRequired)) <==> waits && stopped)
    && (q == p.(status := Failed, reason := Some(JournalIntentFailed)) <==>
         waits && !stopped && Changes(f) && !f.intended)
    && (Transact(i) in t <==> waits && !stopped && Changes(f) && f.intended)
    && (Stop(i) in t <==>
         waits && !stopped && Changes(f) &&
         (!f.intended || f.transaction == None || f.transaction.value.failStop))
  }

  /** A set whose transaction ran ends as the transaction says, and failed to commit if it says nothing. */
  ghost predicate TransactionReasons(w: World, t: Trace, p: PlanSet, i: nat, q: PlanSet) {
    Transact(i) in t ==>
      match w.live(i).transaction
      case None => q == p.(status := Failed, reason := Some(CommitFailed))
      case Some(r) => q == p.(status := r.status, reason := r.reason)
  }

  /** Which sets a run takes up: those the planner had planned, and every compatible set still without a
    * status or a reason, with its target generation at hand. */
  lemma TakenUp(sets: seq<PlanSet>, i: nat)
    requires i < |sets|
    ensures Chosen(StartedPlan(sets, true)[i]) <==>
      (sets[i].status == Planned || (sets[i].status == Unset && sets[i].reason == None)) &&
      (sets[i].resolution == Direct || sets[i].resolution == Migrate) && sets[i].pinned
    ensures StartedPlan(sets, true)[i] == sets[i].(status := StartedPlan(sets, true)[i].status)
    ensures StartedPlan(sets, false)[i] == if sets[i].reason == Some(RestoreFiltered) then sets[i]
      else sets[i].(status := Skipped, reason := Some(RestoreNotEnabled))
  {
  }

  /** Without restore every lane is skipped, a filtered one as filtered. */
  lemma LanesNotEnabled(lane: LegacyLane)
    ensures PreviewLane(lane, false) == PlanSet(lane.captureID, lane.moduleID, LegacyUnverified,
      Some(if lane.selected then RestoreNotEnabled else RestoreFiltered), Skipped, false)
  {
  }

  // ----- legacy lanes -----

  /** A lane that ran settles by its results; one that the filter or a collision took out says so. */
  lemma LaneReasons(w: World, k: nat, p: PlanSet, lane: LegacyLane, state: CollisionState, live: bool)
    requires LaneSettled(w, k, p, lane, state, live)
    ensures p.captureID == lane.captureID && p.moduleID == lane.moduleID && p.resolution == LegacyUnverified
    ensures !lane.selected ==> p.status == Skipped && p.reason == Some(RestoreFiltered)
    ensures lane.selected && lane.captureID in state.legacy ==>
      p.status == Failed && p.reason == Some(state.legacy[lane.captureID])
    ensures lane.selected && lane.captureID !in state.legacy ==>
      LaneResults(w, k, |lane.targets|).Some? && LaneOutcome(LaneResults(w, k, |lane.targets|).value, live, p)
  {
    if lane.selected && lane.captureID !in state.legacy {
      TerminalExactly(!live, LaneResults(w, k, |lane.targets|).value);
    }
  }

  predicate LaneOutcome(results: seq<ResultStatus>, live: bool, p: PlanSet) {
    var failed, restored := Among(results, ItemFailed), Among(results, ItemRestored);
    && !Among(results, ItemUnsupported) && results != []
    && (p.status == RollbackFailed <==> failed && restored && live)
    && (p.status == Failed <==> failed && !(restored && live))
    && (p.status == Restored <==> !failed && restored && live)
    && (p.status == Planned <==> !failed && restored && !live)
    && (p.status == Skipped <==> !failed && !restored)
    && (p.reason == Some(AlreadyUpToDate) <==> !failed && !restored && !Among(results, ItemSourceMissing))
    && (p.reason != None ==> p.reason == Some(AlreadyUpToDate))
  }

  /** The results of a lane are those of its actions, in order, as long as none fails the engine. */
  lemma LaneResultsNext(w: World, k: nat, count: nat)
    ensures LaneResults(w, k, 0) == Some([])
    ensures LaneResults(w, k, count + 1).Some? <==> LaneResults(w, k, count).Some? && w.lane(k, count).Some?
    ensures LaneResults(w, k, count + 1).Some? ==>
      LaneResults(w, k, count + 1).value == LaneResults(w, k, count).value + w.lane(k, count).value
  {
  }
}
