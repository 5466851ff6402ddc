/** What the executor's contract means where it meets its neighbours: the readers' lanes, the resolver's
  * plans, and a run that stops. */
module RestoreOutcomes {
  import opened ConfigPlan
  import opened RestoreTrace
  import opened Claims
  import opened Collisions
  import opened LegacyProjection
  import opened RestoreWorld
  import opened RestoreRun
  import opened Ordering
  import Identity
  import Reader = RestoreInputs

  // ----- the readers deliver lanes with distinct capture IDs -----

  /** The executor's lanes are the reader's, with resolved targets. */
  predicate LanesFrom(lanes: seq<LegacyLane>, read: seq<Reader.LaneInput>) {
    |lanes| == |read| && forall k :: 0 <= k < |lanes| ==>
      lanes[k].captureID == read[k].captureID && lanes[k].moduleID == read[k].moduleID
  }

  lemma V1LanesAreDistinct(inputs: Reader.Inputs, restores: seq<Reader.RestoreEntry>, filter: set<string>,
    lanes: seq<LegacyLane>)
    requires Reader.ReadsV1(inputs, restores, filter) && LanesFrom(lanes, inputs.lanes)
    ensures DistinctLanes(lanes) && Canonical(lanes)
  {
    forall l | l in lanes ensures l.captureID == Identity.LegacyCaptureID(l.moduleID) {
      var k :| 0 <= k < |lanes| && lanes[k] == l;
      assert Reader.V1Lane(inputs.lanes[k], restores, filter);
    }
    forall j, k | 0 <= j < k < |lanes| ensures lanes[j].captureID != lanes[k].captureID {
      var a, b := inputs.lanes[j], inputs.lanes[k];
      assert Reader.V1Lane(a, restores, filter) && Reader.V1Lane(b, restores, filter);
      LessTotal(a.moduleID, b.moduleID);
      if a.captureID == b.captureID { Identity.LegacyCaptureIDInjective(a.moduleID, b.moduleID); }
    }
  }

  lemma V2LanesAreDistinct(inputs: Reader.Inputs, m: Reader.Manifest, mappings: map<string, string>,
    filter: set<string>, lanes: seq<LegacyLane>)
    requires Reader.ReadsV2(inputs, m, mappings, filter) && LanesFrom(lanes, inputs.lanes)
    ensures DistinctLanes(lanes)
  {
    forall j, k | 0 <= j < k < |lanes| ensures lanes[j].captureID != lanes[k].captureID {
      LessTotal(inputs.lanes[j].captureID, inputs.lanes[k].captureID);
    }
  }

  // ----- nothing is left planned -----

  /** At return a set is still planned exactly when it was planned without ever being selected. */
  lemma PlannedAtReturn(w: World, known: set<string>, claims: seq<OwnedClaim>, t: Trace,
    start: seq<PlanSet>, after: seq<PlanSet>, i: nat)
    requires FinalPlanIs(w, known, claims, t, start, after) && i < |start|
    ensures after[i].status == Planned <==>
      start[i].status == Planned && !start[i].Selected() && !Contested(claims, Generation(i))
  {
    assert FinalSet(w, known, claims, t, i, start[i], after[i]);
  }

  /** The resolver's rule: only a direct or migrated set can be planned, and it has its target generation. */
  predicate FromResolver(p: PlanSet) {
    (p.resolution in {Direct, Migrate} ==> p.pinned) && (p.status == Planned ==> p.resolution in {Direct, Migrate})
  }

  /** So after a run under the guard nothing is planned any more, stopped or not. */
  lemma NothingLeftPlanned(w: World, known: set<string>, claims: seq<OwnedClaim>, t: Trace,
    sets: seq<PlanSet>, after: seq<PlanSet>)
    requires forall p :: p in sets ==> FromResolver(p)
    requires FinalPlanIs(w, known, claims, t, StartedPlan(sets, true), after)
    ensures forall i :: 0 <= i < |after| ==> after[i].status != Planned
  {
    var start := StartedPlan(sets, true);
    forall i: nat | i < |after| ensures after[i].status != Planned {
      PlannedAtReturn(w, known, claims, t, start, after, i);
      assert sets[i] in sets && start[i] == MarkPlanned(sets[i]);
    }
  }

  /** The final plan never claims a mutation that did not happen: only a set whose transaction began is
    * restored or rolled back, and a set is skipped for recovery exactly when it was ready behind a stop,
    * and then nothing of it ran. */
  lemma MutationsAreEarned(w: World, known: set<string>, claims: seq<OwnedClaim>, t: Trace,
    start: seq<PlanSet>, after: seq<PlanSet>, i: nat)
    requires FinalPlanIs(w, known, claims, t, start, after) && i < |start|
    requires start[i].status !in {Restored, RolledBack, RollbackFailed} && !Recovered(start[i])
    ensures after[i].status in {Restored, RolledBack, RollbackFailed} ==> Transact(i) in t
    ensures Recovered(after[i]) <==>
      StoppedBefore(t, i) && ReadySet(w, i, start[i], known, Contested(claims, Generation(i))).Selected()
    ensures Recovered(after[i]) ==> Transact(i) !in t && Intent(i) !in t
  {
    assert FinalSet(w, known, claims, t, i, start[i], after[i]);
  }

  // ----- a run that stops -----

  function OneSet(): PlanSet {
    PlanSet("c", "m", Direct, None, Unset, true)
  }

  function OneLane(): LegacyLane {
    LegacyLane("l", "n", true, [])
  }

  /** Everything answers well until the set's intent cannot be made durable. */
  function NoIntent(): World {
    World(
      (i: nat) => Materialized([]), (i: nat) => Ready, (i: nat) => true,
      (i: nat) => LiveFacts(true, [ActionState(Recorded("missing", ""), Recorded("file", "d"))], false, None),
      true, (k: nat, a: nat) => None, (a: nat) => None, true, true)
  }

  /** One set whose intent fails and one selected lane: the lane is skipped for recovery, and no event
    * ever announces it. */
  method StoppedLaneIsNotAnnounced() returns (exit: Exit, lanes: seq<PlanSet>, log: Trace)
    ensures exit == IntentFailed && |lanes| == 1 && Recovered(lanes[0]) && LaneResolved(0) !in log
  {
    var run := new RestoreRun(NoIntent());
    var inputs := Inputs({"c"}, [OneLane()], []);
    var state;
    exit, state := run.Execute(FinalPlan([OneSet()]), inputs, true, false);
    ghost var start := StartedPlan([OneSet()], true);
    assert start == [OneSet().With(Planned, None)] && start[0].Selected();
    assert exit.Ran() && run.LiveRan(exit, inputs, start, state);
    NoClaims(run.staged, run.claims, inputs, start);
    IntentStops(run.claims, run.log, start, run.plan);
    LaneWaits(run.claims, inputs, state);
    return exit, run.lanes, run.log;
  }

  lemma {:induction false} IndexAtLeast(staged: seq<Prepared>, m: nat)
    requires Increasing(staged) && m < |staged|
    ensures staged[m].index >= m
  {
    if m > 0 { IndexAtLeast(staged, m - 1); }
  }

  lemma NoClaims(staged: seq<Prepared>, claims: seq<OwnedClaim>, inputs: Inputs, start: seq<PlanSet>)
    requires StagedRight(NoIntent(), staged, claims, inputs, start) && |start| == 1
    requires inputs == Inputs({"c"}, [OneLane()], [])
    ensures claims == []
  {
    forall m: nat | m < |staged| ensures staged[m] == Prepared(0, []) {
      assert StagedAt(NoIntent(), 1, staged, m);
    }
    if |staged| > 1 { IndexAtLeast(staged, 1); }
    var prepared := TargetsOf(staged);
    assert GenerationClaims(prepared) == [] by {
      if prepared != [] {
        assert prepared == [PreparedTargets(0, [])] && prepared[..0] == [] && Owned(Generation(0), []) == [];
      }
    }
    var lanes := Lanes(inputs.lanes);
    assert lanes == [LaneTargets("l", true, [])] && lanes[..0] == [] && LegacyClaims(lanes[..0]) == [];
    assert !Refused(lanes[0]) && Owned(Legacy("l"), []) == [];
    assert LegacyClaims(lanes) == LegacyClaims(lanes[..0]) + Owned(Legacy("l"), []);
    assert claims == GenerationClaims(prepared) + LegacyClaims(lanes) + OrdinaryClaims(inputs.ordinary);
  }

  lemma IntentStops(claims: seq<OwnedClaim>, t: Trace, start: seq<PlanSet>, after: seq<PlanSet>)
    requires FinalPlanIs(NoIntent(), {"c"}, claims, t, start, after) && start == [OneSet().With(Planned, None)]
    requires claims == []
    ensures Stop(0) in t && IntentStop(NoIntent(), t)
  {
    assert FinalSet(NoIntent(), {"c"}, claims, t, 0, start[0], after[0]);
    assert !Contested(claims, Generation(0));
    var f := NoIntent().live(0);
    assert f.actions[0].prior != f.actions[0].desired;
    assert LiveOutcome(f) == SetOutcome(Failed, Some(JournalIntentFailed), false);
    assert !StoppedBefore(t, 0);
  }

  lemma LaneWaits(claims: seq<OwnedClaim>, inputs: Inputs, state: CollisionState)
    requires claims == [] && inputs == Inputs({"c"}, [OneLane()], []) && StateReports(state, claims, inputs)
    ensures "l" !in state.legacy
  {
    assert !state.Blocks(Legacy("l"));
  }
}
