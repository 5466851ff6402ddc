/** The planner's vocabulary shared by the restore modules. */
module ConfigPlan {

  datatype Option<+T> = None | Some(value: T)

  datatype Resolution = Direct | Migrate | Incompatible | Unknown | LegacyUnverified

  datatype Status = Unset | Planned | Restored | Skipped | Failed | RolledBack | RollbackFailed

  datatype Reason =
    | RestoreFiltered | RestoreNotEnabled | TargetDetectionFailed
    | StagingValidationFailed | PayloadIntegrityFailed | AppRunning | TargetCollision
    | BackupFailed | JournalIntentFailed | CommitFailed | TargetValidationFailed
    | JournalCompletionFailed | AlreadyUpToDate | RecoveryRequired
    | Unresolved(code: string)

  /** One captured config set with its resolution; `pinned` says a target generation is pinned. */
  datatype PlanSet = PlanSet(
    captureID: string, moduleID: string,
    resolution: Resolution, reason: Option<Reason>, status: Status, pinned: bool)
  {
    predicate Selected() {
      status == Planned && resolution in {Direct, Migrate} && pinned
    }

    /** The in-place status and reason update every outcome goes through. */
    function With(status: Status, reason: Option<Reason>): PlanSet {
      this.(status := status, reason := reason)
    }
  }

  /** What a restore entry does, apart from where it reads from and whom it belongs to. */
  datatype RestoreAction = RestoreAction(kind: string, target: string, key: string, valueName: string)

  /** A freshly resolved compatible set becomes planned; everything else is left alone. */
  function MarkPlanned(plan: PlanSet): PlanSet {
    if plan.status == Unset && plan.reason == None && plan.resolution in {Direct, Migrate}
    then plan.(status := Planned) else plan
  }

  /** The overlay for a run without restore: a filtered set keeps its own reason. */
  function MarkNotEnabled(plan: PlanSet): PlanSet {
    if plan.reason == Some(RestoreFiltered) then plan else plan.With(Skipped, Some(RestoreNotEnabled))
  }
}
