/** What the host answers during one restore run, and what each answer makes of a config set. Every
  * step of the executor that may go either way is a fact of the world, so a run is determined by
  * its inputs and its world. */
module RestoreWorld {
  import opened ConfigPlan
  import opened RestoreTrace
  import opened Collisions
  import opened LegacyProjection
  import opened Transaction

  datatype StageFacts =
    | NotStaged(integrity: bool)
    | NotMaterialized(running: bool, overlap: bool)
    | Materialized(targets: seq<Target>)

  datatype InspectFacts = Ready | AlreadyCurrent | NotBackedUp

  /** A target as recorded: what kind of thing is there, and its digest. */
  datatype Recorded = Recorded(kind: string, digest: string)

  datatype ActionState = ActionState(prior: Recorded, desired: Recorded)

  datatype LiveFacts = LiveFacts(
    snapshotted: bool, actions: seq<ActionState>, intended: bool, transaction: Option<Report>)

  datatype World = World(
    stage: nat -> StageFacts,
    inspect: nat -> InspectFacts,
    root: nat -> bool,
    live: nat -> LiveFacts,
    guard: bool,
    lane: (nat, nat) -> Option<seq<ResultStatus>>,
    ordinary: nat -> Option<seq<ResultStatus>>,
    journalWritten: bool,
    journalRegistered: bool)

  datatype SetOutcome = SetOutcome(status: Status, reason: Option<Reason>, canContinue: bool)

  // ----- before the sets run -----

  /** A selected set after staging and materialization. */
  function StagedSet(p: PlanSet, known: set<string>, f: StageFacts): PlanSet {
    if !p.Selected() then p
    else if p.captureID !in known then p.With(Failed, Some(StagingValidationFailed))
    else
      match f
      case NotStaged(integrity) =>
        p.With(Failed, Some(if integrity then PayloadIntegrityFailed else StagingValidationFailed))
      case NotMaterialized(running, overlap) =>
        if running then p.With(Skipped, Some(AppRunning))
        else p.With(Failed, Some(if overlap then TargetCollision else StagingValidationFailed))
      case Materialized(_) => p
  }

  function BlockedSet(p: PlanSet, contested: bool): PlanSet {
    if contested then p.With(Failed, Some(TargetCollision)) else p
  }

  function InspectedSet(p: PlanSet, f: InspectFacts): PlanSet {
    if !p.Selected() then p
    else
      match f
      case Ready => p
      case AlreadyCurrent => p.With(Skipped, Some(AlreadyUpToDate))
      case NotBackedUp => p.With(Failed, Some(BackupFailed))
  }

  function RootedSet(p: PlanSet, created: bool): PlanSet {
    if p.Selected() && !created then p.With(Failed, Some(BackupFailed)) else p
  }

  /** The set as it enters the execution phase. */
  function ReadySet(w: World, i: nat, p: PlanSet, known: set<string>, contested: bool): PlanSet {
    RootedSet(InspectedSet(BlockedSet(StagedSet(p, known, w.stage(i)), contested), w.inspect(i)), w.root(i))
  }

  // ----- running one set -----

  /** Nothing to do: every action already finds what it wants. */
  predicate UpToDate(actions: seq<ActionState>) {
    forall k :: 0 <= k < |actions| ==> actions[k].prior == actions[k].desired
  }

  method CheckUpToDate(actions: seq<ActionState>) returns (current: bool)
    ensures current <==> UpToDate(actions)
  {
    for k := 0 to |actions|
      invariant forall j :: 0 <= j < k ==> actions[j].prior == actions[j].desired
    {
      var prior, desired := actions[k].prior, actions[k].desired;
      if prior.kind != desired.kind || prior.digest != desired.digest {
        return false;
      }
    }
    return true;
  }

  /** The set gets as far as its transaction. */
  predicate Transacts(f: LiveFacts) {
    f.snapshotted && !UpToDate(f.actions) && f.intended
  }

  function LiveOutcome(f: LiveFacts): (o: SetOutcome)
    ensures o.status in {Restored, Skipped, Failed, RolledBack, RollbackFailed}
    ensures o.status in {Restored, RolledBack, RollbackFailed} ==> Transacts(f)
    ensures o.reason != Some(RecoveryRequired)
    ensures o.reason == Some(JournalIntentFailed) ==> !o.canContinue
    ensures o.canContinue <==>
      (f.snapshotted && !UpToDate(f.actions) ==> f.intended && f.transaction.Some? && !f.transaction.value.failStop)
  {
    if !f.snapshotted then SetOutcome(Failed, Some(BackupFailed), true)
    else if UpToDate(f.actions) then SetOutcome(Skipped, Some(AlreadyUpToDate), true)
    else if !f.intended then SetOutcome(Failed, Some(JournalIntentFailed), false)
    else
      match f.transaction
      case None => SetOutcome(Failed, Some(CommitFailed), false)
      case Some(r) => SetOutcome(r.status, r.reason, !r.failStop)
  }

  predicate Recovered(p: PlanSet) {
    p.status == Skipped && p.reason == Some(RecoveryRequired)
  }

  ghost predicate StoppedBefore(t: Trace, i: nat) {
    exists s: nat :: s < i && Stop(s) in t
  }

  /** How set `i` left its turn: skipped for recovery after an earlier stop, with nothing of it run; or
    * with its own outcome, its items reported, and stopping the run exactly when that outcome forbids
    * going on. */
  ghost predicate SetEnded(w: World, t: Trace, i: nat, before: PlanSet, after: PlanSet) {
    match LiveOutcome(w.live(i))
    case SetOutcome(status, reason, canContinue) =>
      if StoppedBefore(t, i) then
        && after == before.With(Skipped, Some(RecoveryRequired))
        && Transact(i) !in t && Intent(i) !in t && Stop(i) !in t && Starting(i) !in t && Items(i) !in t
      else
        && after == before.With(status, reason)
        && (Transact(i) in t <==> Transacts(w.live(i))) && (Intent(i) in t <==> Transacts(w.live(i)))
        && (Stop(i) in t <==> !canContinue)
        && Starting(i) in t && Items(i) in t
  }

  /** What that means for a reader of the plan: a final status, one that speaks of a mutation only when
    * there was one, and recovery exactly behind a stop. */
  lemma EndedMeans(w: World, t: Trace, i: nat, before: PlanSet, after: PlanSet)
    requires SetEnded(w, t, i, before, after)
    ensures after.status !in {Planned, Unset}
    ensures after.status in {Restored, RolledBack, RollbackFailed} ==> Transact(i) in t
    ensures Recovered(after) <==> StoppedBefore(t, i)
    ensures Recovered(after) ==> Transact(i) !in t
  {
  }

  /** The final plan, set by set: a set that enters the execution phase selected ends by its turn, every
    * other set as the earlier phases left it. */
  ghost predicate RunDecided(w: World, t: Trace, ready: seq<PlanSet>, after: seq<PlanSet>) {
    && |ready| == |after|
    && forall i: nat {:trigger Decided(w, t, i, ready[i], after[i])} :: i < |ready| ==>
      Decided(w, t, i, ready[i], after[i])
  }

  ghost predicate Decided(w: World, t: Trace, i: nat, ready: PlanSet, after: PlanSet) {
    if ready.Selected() then SetEnded(w, t, i, ready, after)
    else after == ready && Transact(i) !in t && Stop(i) !in t
  }

  // ----- legacy lanes and ordinary actions -----

  /** Results of the first `count` actions of a lane, unless one of them failed the engine. */
  function LaneResults(w: World, k: nat, count: nat): Option<seq<ResultStatus>> {
    if count == 0 then Some([])
    else
      match (LaneResults(w, k, count - 1), w.lane(k, count - 1))
      case (Some(before), Some(last)) => Some(before + last)
      case _ => None
  }
}
