/** What a planning pass says about each source, told from the sources, from what one look at the host found
  * and from what discovery and resolution answered. */
module PlanningPasses {
  import opened ConfigPlan
  import opened Text
  import opened Ordering
  import opened KeyOrder
  import opened RestoreInputs
  import opened Coordinator

  /** The targets of a module cannot be told: it was reported, or finding them fails. */
  predicate Fails(runtime: Runtime, e: Evidence, moduleID: string) {
    || moduleID in e.failedModules
    || (moduleID != "" && exists f :: f in e.failures && f.moduleID == moduleID)
    || ((exists s :: s in runtime.sources && s.selected && s.moduleID == moduleID) &&
        runtime.discover(moduleID, e) == None)
  }

  lemma FailsExactly(runtime: Runtime, e: Evidence, moduleID: string)
    ensures moduleID in FailedModules(runtime, e) <==> Fails(runtime, e, moduleID)
  {
    forall f | f in e.failures ensures exists k :: 0 <= k < |e.failures| && e.failures[k] == f { }
  }

  /** Resolution is asked about the selected sources in their order, */
  lemma SelectedNext(sources: seq<Source>, s: Source)
    ensures SelectedSources([]) == []
    ensures SelectedSources(sources + [s]) == SelectedSources(sources) + if s.selected then [s] else []
  {
    assert (sources + [s])[..|sources|] == sources;
  }

  /** with the targets found for their modules, and none for a module that fails. */
  lemma TargetsExactly(runtime: Runtime, e: Evidence, moduleID: string)
    ensures moduleID in TargetsFrom(runtime, e) <==>
      exists s :: s in runtime.sources && s.selected && s.moduleID == moduleID
    ensures moduleID in TargetsFrom(runtime, e) ==>
      TargetsFrom(runtime, e)[moduleID] ==
        if Fails(runtime, e, moduleID) then [] else runtime.discover(moduleID, e).value
  {
    FailsExactly(runtime, e, moduleID);
  }

  /** Of the sets resolved for one capture the last counts. */
  lemma {:induction false} LastSetCounts(sets: seq<PlanSet>, captureID: string, k: nat)
    requires k < |sets| && sets[k].captureID == captureID
    requires forall j :: k < j < |sets| ==> sets[j].captureID != captureID
    ensures SetFor(sets, captureID) == Some(sets[k])
    decreases |sets|
  {
    if k < |sets| - 1 { LastSetCounts(sets[..|sets| - 1], captureID, k); }
  }

  lemma {:induction false} SetForItsCapture(sets: seq<PlanSet>, captureID: string)
    ensures SetFor(sets, captureID).Some? ==> SetFor(sets, captureID).value.captureID == captureID
  {
    if sets != [] { SetForItsCapture(sets[..|sets| - 1], captureID); }
  }

  /** What the plan of a pass holds for a source: a set of its own capture and module, filtered out if the
    * source is, undetectable if its module fails, and otherwise exactly what resolution answered. */
  ghost predicate Planned(runtime: Runtime, e: Evidence, s: Source, p: PlanSet) {
    var resolved := runtime.resolve(SelectedSources(runtime.sources), TargetsFrom(runtime, e));
    && p.captureID == s.captureID && p.moduleID == s.moduleID
    && (!s.selected ==>
         p.resolution == Unknown && p.reason == Some(RestoreFiltered) && p.status == Skipped && !p.pinned)
    && (s.selected && Fails(runtime, e, s.moduleID) ==>
         p.resolution == Unknown && p.reason == Some(TargetDetectionFailed) && p.status == Skipped && !p.pinned)
    && (s.selected && !Fails(runtime, e, s.moduleID) ==> SetFor(resolved, s.captureID) == Some(p))
  }

  lemma PlanExactly(runtime: Runtime, e: Evidence)
    requires WellBehaved(runtime)
    ensures |FreshPlan(runtime, e)| == |runtime.sources|
    ensures forall s :: s in runtime.sources ==> exists p :: p in FreshPlan(runtime, e) && Planned(runtime, e, s, p)
    ensures forall i, j :: 0 <= i < j < |FreshPlan(runtime, e)| ==>
      Less(FreshPlan(runtime, e)[i].captureID, FreshPlan(runtime, e)[j].captureID)
  {
    var ordered, plan := SortBy(runtime.sources, BySource), FreshPlan(runtime, e);
    FreshPlanSays(runtime, e);
    SortByMembers(runtime.sources, BySource);
    forall k | 0 <= k < |ordered| ensures Planned(runtime, e, ordered[k], plan[k]) {
      assert Says(runtime, e, ordered[k], plan[k]) && ordered[k] in runtime.sources;
      SaysPlanned(runtime, e, ordered[k], plan[k]);
    }
    forall s | s in runtime.sources ensures exists p :: p in plan && Planned(runtime, e, s, p) {
      var k :| 0 <= k < |ordered| && ordered[k] == s;
      assert plan[k] in plan;
    }
    OrderedSources(runtime.sources);
  }

  lemma OrderedSources(sources: seq<Source>)
    requires forall i, j :: 0 <= i < j < |sources| ==> sources[i].captureID != sources[j].captureID
    ensures var ordered := SortBy(sources, BySource);
      forall i, j :: 0 <= i < j < |ordered| ==> Less(ordered[i].captureID, ordered[j].captureID)
  {
    var ordered := SortBy(sources, BySource);
    SortBySorts(sources, BySource);
    SortByElements(sources, BySource);
    assert NoRepeats(sources);
    forall i, j | 0 <= i < j < |ordered| ensures Less(ordered[i].captureID, ordered[j].captureID) {
      assert ordered[i] in Elements(sources) && ordered[j] in Elements(sources);
      LessTotal(ordered[i].captureID, ordered[j].captureID);
    }
  }

  lemma SaysPlanned(runtime: Runtime, e: Evidence, s: Source, p: PlanSet)
    requires WellBehaved(runtime) && s in runtime.sources && Says(runtime, e, s, p)
    ensures Planned(runtime, e, s, p)
  {
    var chosen := SelectedSources(runtime.sources);
    var resolved := runtime.resolve(chosen, TargetsFrom(runtime, e));
    assert OneSetEach(chosen, resolved);
    SelectedMembers(runtime.sources, s);
    SetForItsCapture(resolved, s.captureID);
    FailsExactly(runtime, e, s.moduleID);
  }

  /** The host is looked at only when some source is selected. */
  lemma LooksExactly(runtime: Runtime, snapshot: Option<Evidence>)
    ensures (exists s :: s in runtime.sources && s.selected) ==> EvidenceFor(runtime, snapshot) == snapshot
    ensures !(exists s :: s in runtime.sources && s.selected) ==>
      EvidenceFor(runtime, snapshot) == Some(Evidence({}, [], map[]))
  {
    if s :| s in runtime.sources && s.selected { assert s.moduleID in SelectedModules(runtime.sources); }
  }

  /** A plan may be executed after a final pass with restore enabled that found its evidence, and after
    * nothing else. */
  lemma ExecutableExactly(runtime: Runtime, calls: seq<Call>, last: Call)
    ensures Executable(runtime, []) == None
    ensures Executable(runtime, calls + [last]).Some? <==>
      last.FinalCall? && last.enabled && EvidenceFor(runtime, last.snapshot).Some?
    ensures Executable(runtime, calls + [last]).Some? ==>
      Executable(runtime, calls + [last]).value == FreshPlan(runtime, EvidenceFor(runtime, last.snapshot).value)
  {
    assert (calls + [last])[|calls|] == last;
  }

  // ----- diagnostics -----

  /** Diagnostics are trimmed, drivers are folded, and references only where the driver does not tell case. */
  lemma NormalExactly(f: Failure)
    ensures Normal(f) == Failure(TrimSpace(f.moduleID), Lower(TrimSpace(f.driver)),
      if Lower(TrimSpace(f.driver)) == "chocolatey" then Lower(TrimSpace(f.ref)) else TrimSpace(f.ref),
      TrimSpace(f.detail))
  {
  }

  function Fields(f: Failure): seq<string> {
    [f.moduleID, f.driver, f.ref, f.detail]
  }

  /** They are ordered by module, driver, reference and detail, and no two of them are the same. */
  lemma DiagnosticsInOrder(failures: seq<Failure>, normal: seq<Failure>)
    requires NormalForm(failures, normal) && forall n :: n in normal ==> NulFree(Fields(n))
    ensures forall i, j :: 0 <= i < j < |normal| ==> FieldsLess(Fields(normal[i]), Fields(normal[j]))
    ensures forall f :: f in failures && Normal(f).moduleID != "" && NulFree(Fields(Normal(f))) ==> Normal(f) in normal
  {
    forall i, j | 0 <= i < j < |normal| ensures FieldsLess(Fields(normal[i]), Fields(normal[j])) {
      assert normal[i] in normal && normal[j] in normal;
      JoinedOrder(Fields(normal[i]), Fields(normal[j]));
    }
    forall f | f in failures && Normal(f).moduleID != "" && NulFree(Fields(Normal(f))) ensures Normal(f) in normal {
      assert ListsKey(normal, FailureKey(Normal(f)));
      var n :| n in normal && FailureKey(n) == FailureKey(Normal(f));
      JoinedInjective(Fields(n), Fields(Normal(f)));
    }
  }
}
