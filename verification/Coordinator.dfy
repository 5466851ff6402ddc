/** The planning coordinator: every pass resolves from fresh evidence, and only the last successful
  * final pass with restore enabled can be executed. */
module Coordinator {
  import opened ConfigPlan
  import opened Text
  import opened Ordering
  import opened RestoreInputs

  datatype Failure = Failure(moduleID: string, driver: string, ref: string, detail: string)

  /** What one read-only look at the host yields. */
  datatype Evidence = Evidence(failedModules: set<string>, failures: seq<Failure>, packages: map<string, string>)

  const NO_EVIDENCE := Evidence({}, [], map[])

  type Targets = map<string, seq<string>>

  /** The pinned inputs, and the catalog's discovery and resolution. */
  datatype Runtime = Runtime(
    sources: seq<Source>,
    discover: (string, Evidence) -> Option<seq<string>>,
    resolve: (seq<Source>, Targets) -> seq<PlanSet>)

  function SelectedSources(sources: seq<Source>): seq<Source> {
    if sources == [] then []
    else
      var n := |sources| - 1;
      SelectedSources(sources[..n]) + if sources[n].selected then [sources[n]] else []
  }

  function SelectedModules(sources: seq<Source>): set<string> {
    set s | s in sources && s.selected :: s.moduleID
  }

  function ReportedModules(failures: seq<Failure>): set<string> {
    set k | 0 <= k < |failures| && failures[k].moduleID != "" :: failures[k].moduleID
  }

  /** Modules reported failed, and selected modules whose own discovery fails. */
  function FailedModules(runtime: Runtime, e: Evidence): set<string> {
    e.failedModules + ReportedModules(e.failures) +
    set m | m in SelectedModules(runtime.sources) && runtime.discover(m, e).None?
  }

  function TargetsFrom(runtime: Runtime, e: Evidence): Targets {
    map m | m in SelectedModules(runtime.sources) ::
      if m in FailedModules(runtime, e) then [] else runtime.discover(m, e).value
  }

  function DetectionFailed(p: PlanSet): PlanSet {
    p.(resolution := ConfigPlan.Unknown, reason := Some(TargetDetectionFailed), status := Skipped, pinned := false)
  }

  function Filtered(s: Source): PlanSet {
    PlanSet(s.captureID, s.moduleID, ConfigPlan.Unknown, Some(RestoreFiltered), Skipped, false)
  }

  /** The last resolved set for a capture. */
  function SetFor(sets: seq<PlanSet>, captureID: string): Option<PlanSet> {
    if sets == [] then None
    else if sets[|sets| - 1].captureID == captureID then Some(sets[|sets| - 1])
    else SetFor(sets[..|sets| - 1], captureID)
  }

  function Overlaid(sets: seq<PlanSet>, failed: set<string>): seq<PlanSet> {
    seq(|sets|, k requires 0 <= k < |sets| => if sets[k].moduleID in failed then DetectionFailed(sets[k]) else sets[k])
  }

  function Merged(ordered: seq<Source>, sets: seq<PlanSet>): seq<PlanSet> {
    if ordered == [] then []
    else
      var n := |ordered| - 1;
      Merged(ordered[..n], sets) +
      if !ordered[n].selected then [Filtered(ordered[n])]
      else match SetFor(sets, ordered[n].captureID) { case None => [] case Some(p) => [p] }
  }

  /** The plan one pass builds: a function of the pinned inputs and of that pass's evidence alone. */
  function FreshPlan(runtime: Runtime, e: Evidence): seq<PlanSet> {
    var resolved := runtime.resolve(SelectedSources(runtime.sources), TargetsFrom(runtime, e));
    Merged(SortBy(runtime.sources, BySource), Overlaid(resolved, FailedModules(runtime, e)))
  }

  // ----- what a fresh plan says -----

  /** Capture IDs name one source each; resolution gives every selected source one set of its module. */
  ghost predicate WellBehaved(runtime: Runtime) {
    && (forall i, j :: 0 <= i < j < |runtime.sources| ==> runtime.sources[i].captureID != runtime.sources[j].captureID)
    && forall targets: Targets ::
         OneSetEach(SelectedSources(runtime.sources), runtime.resolve(SelectedSources(runtime.sources), targets))
  }

  ghost predicate OneSetEach(sources: seq<Source>, sets: seq<PlanSet>) {
    forall s :: s in sources ==>
      SetFor(sets, s.captureID).Some? && SetFor(sets, s.captureID).value.moduleID == s.moduleID
  }

  lemma {:induction false} SelectedMembers(sources: seq<Source>, s: Source)
    ensures s in SelectedSources(sources) <==> s in sources && s.selected
  {
    if sources != [] {
      var n := |sources| - 1;
      assert sources == sources[..n] + [sources[n]];
      SelectedMembers(sources[..n], s);
    }
  }

  lemma {:induction false} SetForOverlaid(sets: seq<PlanSet>, failed: set<string>, captureID: string)
    ensures SetFor(Overlaid(sets, failed), captureID) ==
      match SetFor(sets, captureID)
      case None => None
      case Some(p) => Some(if p.moduleID in failed then DetectionFailed(p) else p)
  {
    if sets != [] {
      var n := |sets| - 1;
      assert Overlaid(sets, failed)[..n] == Overlaid(sets[..n], failed);
      SetForOverlaid(sets[..n], failed, captureID);
    }
  }

  /** What the plan must say about one source. */
  ghost predicate Says(runtime: Runtime, e: Evidence, s: Source, p: PlanSet) {
    if !s.selected then p == Filtered(s)
    else
      var own := SetFor(runtime.resolve(SelectedSources(runtime.sources), TargetsFrom(runtime, e)), s.captureID);
      own.Some? && p == if s.moduleID in FailedModules(runtime, e) then DetectionFailed(own.value) else own.value
  }

  lemma {:induction false} MergedSays(runtime: Runtime, e: Evidence, ordered: seq<Source>, sets: seq<PlanSet>)
    requires forall s :: s in ordered && s.selected ==>
      SetFor(sets, s.captureID).Some? && Says(runtime, e, s, SetFor(sets, s.captureID).value)
    ensures |Merged(ordered, sets)| == |ordered|
    ensures forall k :: 0 <= k < |ordered| ==> Says(runtime, e, ordered[k], Merged(ordered, sets)[k])
  {
    if ordered != [] {
      var n := |ordered| - 1;
      MergedSays(runtime, e, ordered[..n], sets);
    }
  }

  /** A fresh plan has one set for every source, in capture order: filtered sources are skipped as
    * filtered, sources of failed modules as undetectable, and the others as resolved. */
  lemma FreshPlanSays(runtime: Runtime, e: Evidence)
    requires WellBehaved(runtime)
    ensures var ordered := SortBy(runtime.sources, BySource);
      |FreshPlan(runtime, e)| == |ordered| && forall k :: 0 <= k < |ordered| ==>
        Says(runtime, e, ordered[k], FreshPlan(runtime, e)[k])
  {
    var ordered := SortBy(runtime.sources, BySource);
    var chosen := SelectedSources(runtime.sources);
    var resolved := runtime.resolve(chosen, TargetsFrom(runtime, e));
    var sets := Overlaid(resolved, FailedModules(runtime, e));
    assert OneSetEach(chosen, resolved);
    SortByMembers(runtime.sources, BySource);
    forall s | s in ordered && s.selected
      ensures SetFor(sets, s.captureID).Some? && Says(runtime, e, s, SetFor(sets, s.captureID).value)
    {
      SelectedMembers(runtime.sources, s);
      SetForOverlaid(resolved, FailedModules(runtime, e), s.captureID);
    }
    MergedSays(runtime, e, ordered, sets);
  }

  // ----- the overlay for runs without restore -----

  method OverlayNotEnabled(plan: seq<PlanSet>) returns (overlaid: seq<PlanSet>)
    ensures overlaid == NotEnabled(plan)
  {
    overlaid := plan;
    for n := 0 to |plan|
      invariant |overlaid| == |plan|
      invariant forall k :: 0 <= k < |plan| ==> overlaid[k] == if k < n then MarkNotEnabled(plan[k]) else plan[k]
    {
      if overlaid[n].reason != Some(RestoreFiltered) {
        overlaid := overlaid[n := overlaid[n].With(Skipped, Some(RestoreNotEnabled))];
      }
    }
  }

  function NotEnabled(plan: seq<PlanSet>): seq<PlanSet> {
    seq(|plan|, k requires 0 <= k < |plan| => MarkNotEnabled(plan[k]))
  }

  /** The overlay is idempotent, keeps every restore_filtered set, gives every other one its own
    * reason, and leaves nothing of a fresh plan selected. */
  lemma OverlayLaws(runtime: Runtime, e: Evidence)
    requires WellBehaved(runtime)
    ensures var plan := FreshPlan(runtime, e);
      && NotEnabled(NotEnabled(plan)) == NotEnabled(plan)
      && forall k :: 0 <= k < |plan| ==>
           && (plan[k].reason == Some(RestoreFiltered) ==> NotEnabled(plan)[k] == plan[k])
           && (plan[k].reason != Some(RestoreFiltered) ==> NotEnabled(plan)[k].reason == Some(RestoreNotEnabled))
    ensures var ordered := SortBy(runtime.sources, BySource);
      |FreshPlan(runtime, e)| == |ordered| && forall k ::
        0 <= k < |ordered| && (!ordered[k].selected || FreshPlan(runtime, e)[k].reason != Some(RestoreFiltered)) ==>
        !NotEnabled(FreshPlan(runtime, e))[k].Selected()
  {
    FreshPlanSays(runtime, e);
  }

  // ----- building a plan -----

  method CollectFailures(failures: seq<Failure>) returns (modules: set<string>)
    ensures modules == ReportedModules(failures)
  {
    modules := {};
    for n := 0 to |failures|
      invariant modules == set k | 0 <= k < n && failures[k].moduleID != "" :: failures[k].moduleID
    {
      if failures[n].moduleID != "" {
        modules := modules + {failures[n].moduleID};
      }
    }
  }

  method Discover(runtime: Runtime, e: Evidence, reported: set<string>) returns (targets: Targets, failed: set<string>)
    requires reported == e.failedModules + ReportedModules(e.failures)
    ensures failed == FailedModules(runtime, e) && targets == TargetsFrom(runtime, e)
  {
    targets, failed := map[], reported;
    var pending := SelectedModules(runtime.sources);
    while pending != {}
      invariant pending <= SelectedModules(runtime.sources)
      invariant targets.Keys == SelectedModules(runtime.sources) - pending
      invariant failed == reported +
        set m | m in SelectedModules(runtime.sources) - pending && runtime.discover(m, e).None?
      invariant forall m :: m in targets ==>
        targets[m] == if m in FailedModules(runtime, e) then [] else runtime.discover(m, e).value
      decreases pending
    {
      var m :| m in pending;
      pending := pending - {m};
      var found := runtime.discover(m, e);
      if m in reported || found.None? {
        targets := targets[m := []];
        failed := if found.None? then failed + {m} else failed;
      } else {
        targets := targets[m := found.value];
      }
    }
  }

  method ApplyDetectionFailures(sets: seq<PlanSet>, failed: set<string>) returns (overlaid: seq<PlanSet>)
    ensures overlaid == Overlaid(sets, failed)
  {
    overlaid := sets;
    for n := 0 to |sets|
      invariant |overlaid| == |sets|
      invariant forall k :: 0 <= k < |sets| ==> overlaid[k] == if k < n then Overlaid(sets, failed)[k] else sets[k]
    {
      if overlaid[n].moduleID in failed {
        overlaid := overlaid[n := DetectionFailed(overlaid[n])];
      }
    }
  }

  method MergeFiltered(sets: seq<PlanSet>, sources: seq<Source>) returns (merged: seq<PlanSet>)
    ensures merged == Merged(SortBy(sources, BySource), sets)
  {
    var byCapture: map<string, PlanSet> := map[];
    for n := 0 to |sets|
      invariant forall c :: c in byCapture <==> SetFor(sets[..n], c).Some?
      invariant forall c :: c in byCapture ==> SetFor(sets[..n], c) == Some(byCapture[c])
    {
      assert sets[..n + 1][..n] == sets[..n];
      byCapture := byCapture[sets[n].captureID := sets[n]];
    }
    assert sets[..|sets|] == sets;
    var ordered := SortBy(sources, BySource);
    merged := [];
    for n := 0 to |ordered|
      invariant merged == Merged(ordered[..n], sets)
    {
      assert ordered[..n + 1][..n] == ordered[..n];
      if !ordered[n].selected {
        merged := merged + [Filtered(ordered[n])];
      } else if ordered[n].captureID in byCapture {
        merged := merged + [byCapture[ordered[n].captureID]];
      }
    }
    assert ordered[..|ordered|] == ordered;
  }

  method BuildFreshPlan(runtime: Runtime, e: Evidence) returns (plan: seq<PlanSet>)
    ensures plan == FreshPlan(runtime, e)
  {
    var reported := CollectFailures(e.failures);
    var targets, failed := Discover(runtime, e, e.failedModules + reported);
    var resolved := runtime.resolve(SelectedSources(runtime.sources), targets);
    var overlaid := ApplyDetectionFailures(resolved, failed);
    plan := MergeFiltered(overlaid, runtime.sources);
  }

  // ----- passes in any order -----

  /** One call with what the host snapshot returned, if it returned anything. */
  datatype Call = PreviewCall(snapshot: Option<Evidence>) | FinalCall(snapshot: Option<Evidence>, enabled: bool)

  /** Without a selected module no snapshot is taken. */
  function EvidenceFor(runtime: Runtime, snapshot: Option<Evidence>): Option<Evidence> {
    if SelectedModules(runtime.sources) == {} then Some(NO_EVIDENCE) else snapshot
  }

  /** What may be executed after a sequence of calls: it depends on the last call only. */
  ghost function Executable(runtime: Runtime, calls: seq<Call>): Option<seq<PlanSet>> {
    if calls == [] || !calls[|calls| - 1].FinalCall? || !calls[|calls| - 1].enabled then None
    else
      match EvidenceFor(runtime, calls[|calls| - 1].snapshot)
      case None => None
      case Some(e) => Some(FreshPlan(runtime, e))
  }

  class PlanningCoordinator {
    const runtime: Runtime
    var latest: seq<PlanSet>
    var finalized: bool
    var executionAllowed: bool
    var finalFailures: seq<Failure>
    ghost var calls: seq<Call>

    ghost predicate Valid()
      reads this
    {
      Executable(runtime, calls) == if executionAllowed && finalized then Some(latest) else None
    }

    constructor (runtime: Runtime)
      ensures Valid() && this.runtime == runtime && calls == []
    {
      this.runtime := runtime;
      latest, finalized, executionAllowed, finalFailures, calls := [], false, false, [], [];
    }

    method Preview(snapshot: Option<Evidence>) returns (plan: Option<seq<PlanSet>>)
      modifies this
      requires Valid()
      ensures Valid() && calls == old(calls) + [PreviewCall(snapshot)]
      ensures finalFailures == []
      ensures plan ==
        match EvidenceFor(runtime, snapshot) { case None => None case Some(e) => Some(FreshPlan(runtime, e)) }
    {
      executionAllowed, finalFailures := false, [];
      calls := calls + [PreviewCall(snapshot)];
      var evidence := EvidenceFor(runtime, snapshot);
      if evidence.None? {
        return None;
      }
      latest := BuildFreshPlan(runtime, evidence.value);
      finalized := false;
      return Some(latest);
    }

    method Final(snapshot: Option<Evidence>, enabled: bool) returns (plan: Option<seq<PlanSet>>)
      modifies this
      requires Valid()
      ensures Valid() && calls == old(calls) + [FinalCall(snapshot, enabled)]
      ensures plan == match EvidenceFor(runtime, snapshot)
        case None => None
        case Some(e) => Some(if enabled then FreshPlan(runtime, e) else NotEnabled(FreshPlan(runtime, e)))
      ensures plan.None? ==> finalFailures == []
      ensures plan.Some? ==> NormalForm(EvidenceFor(runtime, snapshot).value.failures, finalFailures)
    {
      executionAllowed, finalFailures := false, [];
      calls := calls + [FinalCall(snapshot, enabled)];
      var evidence := EvidenceFor(runtime, snapshot);
      if evidence.None? {
        return None;
      }
      finalFailures := NormalizeFailures(evidence.value.failures);
      latest := BuildFreshPlan(runtime, evidence.value);
      finalized := true;
      if !enabled {
        var overlaid := OverlayNotEnabled(latest);
        return Some(overlaid);
      }
      executionAllowed := true;
      return Some(latest);
    }

    /** A plan is offered exactly when the last call was a successful final pass with restore enabled,
      * and it is the plan of that pass. */
    method ExecutionPlan() returns (plan: Option<seq<PlanSet>>)
      requires Valid()
      ensures plan == Executable(runtime, calls)
    {
      return if executionAllowed && finalized then Some(latest) else None;
    }
  }

  // ----- failure diagnostics -----

  function Normal(f: Failure): Failure {
    var driver, ref := Lower(TrimSpace(f.driver)), TrimSpace(f.ref);
    Failure(TrimSpace(f.moduleID), driver, if driver == "chocolatey" then Lower(ref) else ref, TrimSpace(f.detail))
  }

  function FailureKey(f: Failure): string {
    Join([f.moduleID, f.driver, f.ref, f.detail], '\0')
  }

  /** Normalized failures of named modules, one for each key, in key order. */
  ghost predicate NormalForm(failures: seq<Failure>, normal: seq<Failure>) {
    && (forall i, j :: 0 <= i < j < |normal| ==> Less(FailureKey(normal[i]), FailureKey(normal[j])))
    && (forall n :: n in normal ==> n.moduleID != "" && exists f :: f in failures && n == Normal(f))
    && (forall f :: f in failures && Normal(f).moduleID != "" ==> ListsKey(normal, FailureKey(Normal(f))))
  }

  ghost predicate ListsKey(normal: seq<Failure>, key: string) {
    exists n :: n in normal && FailureKey(n) == key
  }

  /** Normalized failures of named modules, each key once, in the order they were first seen. */
  ghost predicate FirstSeen(failures: seq<Failure>, n: nat, found: seq<Failure>, seen: set<string>)
    requires n <= |failures|
  {
    && (forall key :: key in seen <==> ListsKey(found, key))
    && (forall i, j :: 0 <= i < j < |found| ==> FailureKey(found[i]) != FailureKey(found[j]))
    && (forall x :: x in found ==> x.moduleID != "" && exists f :: f in failures && x == Normal(f))
    && (forall k :: 0 <= k < n && Normal(failures[k]).moduleID != "" ==> FailureKey(Normal(failures[k])) in seen)
  }

  lemma SeenOneMore(failures: seq<Failure>, n: nat, found: seq<Failure>, seen: set<string>)
    requires n < |failures| && FirstSeen(failures, n, found, seen)
    ensures var f := Normal(failures[n]);
      if f.moduleID != "" && FailureKey(f) !in seen then FirstSeen(failures, n + 1, found + [f], seen + {FailureKey(f)})
      else FirstSeen(failures, n + 1, found, seen)
  {
    var f := Normal(failures[n]);
    assert failures[n] in failures;
    forall i | 0 <= i < |found| && FailureKey(f) !in seen ensures FailureKey(found[i]) != FailureKey(f) {
      assert found[i] in found;
    }
    ListsMore(found, f);
  }

  method NormalizeFailures(failures: seq<Failure>) returns (normal: seq<Failure>)
    ensures NormalForm(failures, normal)
  {
    var seen: set<string> := {};
    var found: seq<Failure> := [];
    for n := 0 to |failures|
      invariant FirstSeen(failures, n, found, seen)
    {
      SeenOneMore(failures, n, found, seen);
      var f := Normal(failures[n]);
      if f.moduleID != "" && FailureKey(f) !in seen {
        seen, found := seen + {FailureKey(f)}, found + [f];
      }
    }
    normal := Sort(found, FailureKey);
    SortedForm(failures, found, seen, normal);
  }

  lemma SortedForm(failures: seq<Failure>, found: seq<Failure>, seen: set<string>, normal: seq<Failure>)
    requires FirstSeen(failures, |failures|, found, seen)
    requires multiset(normal) == multiset(found) && SortedBy(normal, FailureKey)
    ensures NormalForm(failures, normal)
  {
    SortedKeys(found, normal);
    PermutationElements(found, normal);
    forall f | f in failures && Normal(f).moduleID != "" ensures ListsKey(normal, FailureKey(Normal(f))) {
      assert ListsKey(found, FailureKey(Normal(f)));
      var x :| x in found && FailureKey(x) == FailureKey(Normal(f));
      assert x in Elements(normal);
    }
    forall x | x in normal ensures x.moduleID != "" && exists f :: f in failures && x == Normal(f) {
      assert x in Elements(found);
    }
  }

  lemma ListsMore(found: seq<Failure>, f: Failure)
    ensures forall key :: ListsKey(found + [f], key) <==> ListsKey(found, key) || key == FailureKey(f)
  {
    forall key ensures ListsKey(found + [f], key) <==> ListsKey(found, key) || key == FailureKey(f) {
      assert f in found + [f];
      if x :| x in found && FailureKey(x) == key { assert x in found + [f]; }
    }
  }

  lemma SortedKeys(found: seq<Failure>, normal: seq<Failure>)
    requires multiset(normal) == multiset(found) && SortedBy(normal, FailureKey)
    requires forall i, j :: 0 <= i < j < |found| ==> FailureKey(found[i]) != FailureKey(found[j])
    ensures forall i, j :: 0 <= i < j < |normal| ==> Less(FailureKey(normal[i]), FailureKey(normal[j]))
  {
    PermutationElements(found, normal);
    PermutationRepeats(found, normal);
    forall i, j | 0 <= i < j < |normal| ensures Less(FailureKey(normal[i]), FailureKey(normal[j])) {
      assert normal[i] in Elements(found) && normal[j] in Elements(found);
      LessTotal(FailureKey(normal[i]), FailureKey(normal[j]));
    }
  }
}
