/** Collecting the legacy lanes of a bundle: every captured module brings a lane and its restore
  * entries, the collision guard takes entries away, and a module left without entries is dropped
  * from the lanes in place. */
module CaptureLanes {
  import opened ConfigPlan
  import opened Text
  import opened Ordering
  import opened Identity
  import opened CaptureGuard
  import opened RestoreInputs

  /** What collecting one module's payload yields. */
  datatype Collection = Refused | FileFailure | Nothing(hadError: bool) | Payload(files: nat)

  datatype CaptureStatus = CaptureSkipped | CaptureFailed | Captured

  datatype ModuleResult = ModuleResult(moduleID: string, files: nat, status: CaptureStatus)

  /** Where payloads go and how sources are rewritten; `readable` names a mixed bundle's directories. */
  datatype Layout = Layout(mixed: bool, readable: string -> string, rewrite: (string, string) -> string)

  function ShortID(moduleID: string): string {
    TrimPrefix(moduleID, "apps.")
  }

  function DirectoryOf(layout: Layout, m: Module): string {
    if layout.mixed then layout.readable(m.id) else ShortID(m.id)
  }

  function LaneOf(layout: Layout, m: Module): Lane {
    Lane(LegacyCaptureID(m.id), m.id, 1, "configs/" + DirectoryOf(layout, m))
  }

  function EntryOf(layout: Layout, m: Module, k: nat): RestoreEntry
    requires k < |m.restores|
  {
    RestoreEntry(m.restores[k].action, layout.rewrite(m.restores[k].source, DirectoryOf(layout, m)), m.id,
      if layout.mixed then LegacyCaptureID(m.id) else "")
  }

  // ----- which modules are staged -----

  predicate FirstOfItsID(mods: seq<Module>, n: nat)
    requires n < |mods|
  {
    mods[n].schema == 1 && forall j :: 0 <= j < n && mods[j].schema == 1 ==> mods[j].id != mods[n].id
  }

  predicate Attempted(mods: seq<Module>, n: nat, layout: Layout)
    requires n < |mods|
  {
    FirstOfItsID(mods, n) && !(layout.mixed && mods[n].restores == [])
  }

  predicate Staged(mods: seq<Module>, n: nat, layout: Layout, collect: Module -> Collection)
    requires n < |mods|
  {
    Attempted(mods, n, layout) && collect(mods[n]).Payload?
  }

  function StagedOf(mods: seq<Module>, count: nat, layout: Layout, collect: Module -> Collection): seq<Module>
    requires count <= |mods|
  {
    if count == 0 then []
    else
      var n := count - 1;
      StagedOf(mods, n, layout, collect) +
      if Staged(mods, n, layout, collect) then [mods[n]] else []
  }

  function Reported(mods: seq<Module>, n: nat, layout: Layout, collect: Module -> Collection): ModuleResult
    requires n < |mods|
  {
    if Attempted(mods, n, layout) then ResultOf(mods[n], collect(mods[n]))
    else ModuleResult(mods[n].id, 0, CaptureSkipped)
  }

  /** One result for every version-1 module, at its first occurrence. */
  function ReportedOf(mods: seq<Module>, count: nat, layout: Layout, collect: Module -> Collection): seq<ModuleResult>
    requires count <= |mods|
  {
    if count == 0 then []
    else
      var n := count - 1;
      ReportedOf(mods, n, layout, collect) + if FirstOfItsID(mods, n) then [Reported(mods, n, layout, collect)] else []
  }

  function SkippedOf(mods: seq<Module>, count: nat, layout: Layout, collect: Module -> Collection): seq<string>
    requires count <= |mods|
  {
    if count == 0 then []
    else
      var n := count - 1;
      SkippedOf(mods, n, layout, collect) +
      if FirstOfItsID(mods, n) && !Staged(mods, n, layout, collect) then [ShortID(mods[n].id)] else []
  }

  ghost predicate StagedUpTo(mods: seq<Module>, count: nat, layout: Layout, collect: Module -> Collection,
    captured: seq<Module>, results: seq<ModuleResult>, skipped: seq<string>)
    requires count <= |mods|
  {
    && Stageable(mods, count, layout, collect) && captured == StagedOf(mods, count, layout, collect)
    && results == ReportedOf(mods, count, layout, collect) && skipped == SkippedOf(mods, count, layout, collect)
  }

  lemma StagedIDs(mods: seq<Module>, n: nat, layout: Layout, collect: Module -> Collection)
    requires n < |mods| && FirstOfItsID(mods, n)
    ensures forall m :: m in StagedOf(mods, n, layout, collect) ==> m.id != mods[n].id
  {
    StagedFrom(mods, n, layout, collect);
    forall m | m in StagedOf(mods, n, layout, collect) ensures m.id != mods[n].id {
      assert m in mods[..n];
      var j :| 0 <= j < n && mods[j] == m;
    }
  }

  lemma TakenDirectories(layout: Layout, staged: seq<Module>, m: Module)
    requires DistinctDirectories(layout, staged)
    ensures DistinctDirectories(layout, staged + [m]) <==>
      DirectoryOf(layout, m) !in DirectorySet(layout, Members(staged))
  {
    var more := staged + [m];
    if DistinctDirectories(layout, more) {
      forall o | o in staged ensures DirectoryOf(layout, o) != DirectoryOf(layout, m) {
        var i :| 0 <= i < |staged| && staged[i] == o;
        assert more[i] == o && more[|staged|] == m;
      }
    }
  }

  lemma {:induction false} StageableShrinks(mods: seq<Module>, count: nat, layout: Layout,
    collect: Module -> Collection)
    requires count <= |mods| && !Stageable(mods, count, layout, collect)
    ensures !Stageable(mods, |mods|, layout, collect)
    decreases |mods| - count
  {
    if count < |mods| {
      var staged, more := StagedOf(mods, count, layout, collect), StagedOf(mods, count + 1, layout, collect);
      assert forall i :: 0 <= i < |staged| ==> more[i] == staged[i];
      StageableShrinks(mods, count + 1, layout, collect);
    }
  }

  predicate DistinctDirectories(layout: Layout, staged: seq<Module>) {
    forall i, j :: 0 <= i < j < |staged| ==> DirectoryOf(layout, staged[i]) != DirectoryOf(layout, staged[j])
  }

  /** Staging fails on a refused collection, or when a payload directory is already taken. */
  predicate Stageable(mods: seq<Module>, count: nat, layout: Layout, collect: Module -> Collection)
    requires count <= |mods|
  {
    && (forall n :: 0 <= n < count && Attempted(mods, n, layout) ==> !collect(mods[n]).Refused?)
    && DistinctDirectories(layout, StagedOf(mods, count, layout, collect))
  }

  lemma {:induction false} StagedFrom(mods: seq<Module>, count: nat, layout: Layout, collect: Module -> Collection)
    requires count <= |mods|
    ensures var staged := StagedOf(mods, count, layout, collect);
      && DistinctIDs(staged)
      && forall m :: m in staged ==> m in mods[..count] && m.schema == 1 && (layout.mixed ==> m.restores != [])
  {
    if count > 0 {
      var n := count - 1;
      StagedFrom(mods, n, layout, collect);
      assert mods[..count] == mods[..n] + [mods[n]];
      var before := StagedOf(mods, n, layout, collect);
      forall i | 0 <= i < |before| && Attempted(mods, n, layout) ensures before[i].id != mods[n].id {
        assert before[i] in mods[..n];
        var j :| 0 <= j < n && mods[j] == before[i];
      }
    }
  }

  // ----- what the collision guard leaves -----

  /** Every entry the module declared lost a collision. */
  ghost predicate Gone(all: set<Module>, m: Module) {
    m.restores != [] && AllLost(all, m, |m.restores|)
  }

  ghost function KeptAt(layout: Layout, all: set<Module>, m: Module, k: nat): seq<RestoreEntry>
    requires k < |m.restores|
  {
    if Loses(all, Entry(m, k)) then [] else [EntryOf(layout, m, k)]
  }

  ghost function KeptEntries(layout: Layout, all: set<Module>, m: Module, count: nat): seq<RestoreEntry>
    requires count <= |m.restores|
  {
    if count == 0 then [] else KeptEntries(layout, all, m, count - 1) + KeptAt(layout, all, m, count - 1)
  }

  ghost function AllEntries(layout: Layout, all: set<Module>, staged: seq<Module>, count: nat): seq<RestoreEntry>
    requires count <= |staged|
  {
    if count == 0 then []
    else
      var m := staged[count - 1];
      AllEntries(layout, all, staged, count - 1) + KeptEntries(layout, all, m, |m.restores|)
  }

  lemma {:induction false} KeptEntriesEmpty(layout: Layout, all: set<Module>, m: Module, count: nat)
    requires count <= |m.restores|
    ensures KeptEntries(layout, all, m, count) == [] <==> AllLost(all, m, count)
  {
    if count > 0 {
      KeptEntriesEmpty(layout, all, m, count - 1);
      AllLostNext(all, m, count - 1);
    }
  }

  /** The first `count` entries of a module lost. */
  ghost predicate AllLost(all: set<Module>, m: Module, count: nat) {
    forall k: nat :: k < count ==> Loses(all, Entry(m, k))
  }

  lemma AllLostNext(all: set<Module>, m: Module, n: nat)
    ensures AllLost(all, m, n + 1) <==> AllLost(all, m, n) && Loses(all, Entry(m, n))
  {
  }

  // ----- the collection -----

  /** The lists name exactly the modules of `mods`, each once; `gone` are the modules dropped so far. */
  ghost predicate Listed(layout: Layout, mods: set<Module>, gone: set<Module>,
    lanes: seq<Lane>, moduleIDs: seq<string>, included: seq<string>, payloads: set<string>)
  {
    && Elements(lanes) == LaneSet(layout, mods) && NoRepeats(lanes)
    && Elements(moduleIDs) == IDSet(mods) && NoRepeats(moduleIDs)
    && Elements(included) == ShortIDSet(mods) - ShortIDSet(gone)
    && payloads == DirectorySet(layout, mods)
  }

  function LaneSet(layout: Layout, mods: set<Module>): set<Lane> {
    if layout.mixed then set m | m in mods :: LaneOf(layout, m) else {}
  }

  function IDSet(mods: set<Module>): set<string> {
    set m | m in mods :: m.id
  }

  function ShortIDSet(mods: set<Module>): set<string> {
    set m | m in mods :: ShortID(m.id)
  }

  function DirectorySet(layout: Layout, mods: set<Module>): set<string> {
    set m | m in mods :: DirectoryOf(layout, m)
  }

  /** What one module's attempt reports. */
  function ResultOf(m: Module, c: Collection): ModuleResult {
    match c
    case Payload(files) => ModuleResult(m.id, files, Captured)
    case Nothing(hadError) => ModuleResult(m.id, 0, if hadError then CaptureFailed else CaptureSkipped)
    case _ => ModuleResult(m.id, 0, CaptureFailed)
  }

  class LegacyCapture {
    var lanes: seq<Lane>
    var restores: seq<RestoreEntry>
    var moduleIDs: seq<string>
    var captured: seq<Module>
    var included: seq<string>
    var skipped: seq<string>
    var results: seq<ModuleResult>
    var payloads: set<string>

    constructor ()
      ensures lanes == [] && restores == [] && moduleIDs == [] && captured == []
      ensures included == [] && skipped == [] && results == [] && payloads == {}
    {
      lanes, restores, moduleIDs, captured := [], [], [], [];
      included, skipped, results, payloads := [], [], [], {};
    }

    /** A captured payload: the module is listed everywhere, unless its directory is taken. */
    method StageOne(m: Module, files: nat, layout: Layout, ghost mods: set<Module>) returns (ok: bool)
      modifies this`lanes, this`moduleIDs, this`included, this`captured, this`results, this`payloads
      requires Listed(layout, mods, {}, lanes, moduleIDs, included, payloads)
      requires forall o :: o in mods ==> o.id != m.id
      ensures ok <==> DirectoryOf(layout, m) !in old(payloads)
      ensures ok ==> Listed(layout, mods + {m}, {}, lanes, moduleIDs, included, payloads)
      ensures ok ==> captured == old(captured) + [m] && results == old(results) + [ResultOf(m, Payload(files))]
    {
      if DirectoryOf(layout, m) in payloads {
        return false;
      }
      payloads := payloads + {DirectoryOf(layout, m)};
      included := included + [ShortID(m.id)];
      moduleIDs := moduleIDs + [m.id];
      captured := captured + [m];
      results := results + [ResultOf(m, Payload(files))];
      if layout.mixed {
        lanes := lanes + [LaneOf(layout, m)];
      }
      ListsOneMore(layout, mods, m, old(lanes), lanes, old(moduleIDs), moduleIDs,
        old(included), included, old(payloads), payloads);
      return true;
    }

    /** One module of the candidate list: skipped, failed, or staged. */
    method Attempt(mods: seq<Module>, n: nat, layout: Layout, collect: Module -> Collection) returns (ok: bool)
      modifies this`lanes, this`moduleIDs, this`included, this`captured, this`results, this`payloads, this`skipped
      requires n < |mods| && FirstOfItsID(mods, n)
      requires StagedUpTo(mods, n, layout, collect, captured, results, skipped)
      requires Listed(layout, Members(captured), {}, lanes, moduleIDs, included, payloads)
      ensures ok <==> Stageable(mods, n + 1, layout, collect)
      ensures ok ==> StagedUpTo(mods, n + 1, layout, collect, captured, results, skipped)
      ensures ok ==> Listed(layout, Members(captured), {}, lanes, moduleIDs, included, payloads)
    {
      var m := mods[n];
      var outcome := collect(m);
      if layout.mixed && m.restores == [] {
        skipped := skipped + [ShortID(m.id)];
        results := results + [ModuleResult(m.id, 0, CaptureSkipped)];
        return true;
      }
      if outcome.Refused? {
        return false;
      }
      if !outcome.Payload? {
        skipped := skipped + [ShortID(m.id)];
        results := results + [ResultOf(m, outcome)];
        return true;
      }
      StagedFrom(mods, n, layout, collect);
      StagedFrom(mods, n + 1, layout, collect);
      StagedIDs(mods, n, layout, collect);
      TakenDirectories(layout, captured, m);
      assert Members(captured + [m]) == Members(captured) + {m};
      ok := StageOne(m, outcome.files, layout, Members(captured));
    }

    method StageAll(mods: seq<Module>, layout: Layout, collect: Module -> Collection) returns (ok: bool)
      modifies this
      requires lanes == [] && moduleIDs == [] && captured == [] && included == [] && payloads == {}
      requires skipped == [] && results == []
      ensures restores == old(restores)
      ensures ok <==> Stageable(mods, |mods|, layout, collect)
      ensures ok ==> StagedUpTo(mods, |mods|, layout, collect, captured, results, skipped)
      ensures ok ==> Listed(layout, Members(captured), {}, lanes, moduleIDs, included, payloads)
    {
      var seen: set<string> := {};
      for n := 0 to |mods|
        invariant restores == old(restores)
        invariant seen == set j | 0 <= j < n && mods[j].schema == 1 :: mods[j].id
        invariant StagedUpTo(mods, n, layout, collect, captured, results, skipped)
        invariant Listed(layout, Members(captured), {}, lanes, moduleIDs, included, payloads)
      {
        if mods[n].schema == 1 && mods[n].id !in seen {
          seen := seen + {mods[n].id};
          var staged := Attempt(mods, n, layout, collect);
          if !staged {
            StageableShrinks(mods, n + 1, layout, collect);
            return false;
          }
        }
      }
      return true;
    }

    /** Writes the entries the guard left; a module that declared entries and kept none is dropped. */
    method EmitOne(n: nat, drops: Drops, layout: Layout,
      ghost results0: seq<ModuleResult>, ghost skipped0: seq<string>)
      modifies this`lanes, this`moduleIDs, this`included, this`skipped, this`results, this`payloads, this`restores
      requires n < |captured| && DistinctIDs(captured) && DistinctDirectories(layout, captured)
      requires DropsLosers(drops, captured)
      requires Remain(layout, captured, n, lanes, moduleIDs, included, payloads)
      requires EmittedUpTo(layout, captured, n, restores, results0, results, skipped0, skipped)
      ensures Remain(layout, captured, n + 1, lanes, moduleIDs, included, payloads)
      ensures EmittedUpTo(layout, captured, n + 1, restores, results0, results, skipped0, skipped)
    {
      var m := captured[n];
      var entries := EntriesLeft(m, drops, layout, captured);
      KeptEntriesEmpty(layout, Members(captured), m, |m.restores|);
      GoneNext(captured, n);
      if entries == [] && m.restores != [] {
        DropGone(n, layout, results0, skipped0);
      } else {
        EmitKept(layout, captured, n, restores, results0, results, skipped0, skipped);
        restores := restores + entries;
      }
    }

    method DropGone(n: nat, layout: Layout, ghost results0: seq<ModuleResult>, ghost skipped0: seq<string>)
      modifies this`lanes, this`moduleIDs, this`included, this`skipped, this`results, this`payloads
      requires n < |captured| && DistinctIDs(captured) && DistinctDirectories(layout, captured)
      requires Gone(Members(captured), captured[n])
      requires Remain(layout, captured, n, lanes, moduleIDs, included, payloads)
      requires EmittedUpTo(layout, captured, n, restores, results0, results, skipped0, skipped)
      ensures Remain(layout, captured, n + 1, lanes, moduleIDs, included, payloads)
      ensures EmittedUpTo(layout, captured, n + 1, restores, results0, results, skipped0, skipped)
    {
      var m := captured[n];
      ghost var mods := Members(captured) - GoneOf(captured, n);
      GoneNext(captured, n);
      DirectoriesDiffer(layout, captured);
      EmitGone(layout, captured, n, restores, results0, results, skipped0, skipped);
      DropLane(m, layout, mods, GoneOf(captured, n));
      assert mods - {m} == Members(captured) - GoneOf(captured, n + 1);
      assert results == seq(|old(results)|, k requires 0 <= k < |old(results)| => Downgraded(old(results)[k], m.id));
    }

    method EmitAll(drops: Drops, layout: Layout)
      modifies this`lanes, this`moduleIDs, this`included, this`skipped, this`results, this`payloads, this`restores
      requires DistinctIDs(captured) && DistinctDirectories(layout, captured) && restores == []
      requires DropsLosers(drops, captured)
      requires Listed(layout, Members(captured), {}, lanes, moduleIDs, included, payloads)
      ensures Remain(layout, captured, |captured|, lanes, moduleIDs, included, payloads)
      ensures EmittedUpTo(layout, captured, |captured|, restores, old(results), results, old(skipped), skipped)
    {
      NothingGone(layout, captured, lanes, moduleIDs, included, payloads, results, skipped);
      for n := 0 to |captured|
        invariant Remain(layout, captured, n, lanes, moduleIDs, included, payloads)
        invariant EmittedUpTo(layout, captured, n, restores, old(results), results, old(skipped), skipped)
      {
        EmitOne(n, drops, layout, old(results), old(skipped));
      }
    }

    /** The whole collection. It fails exactly when staging fails; otherwise it carries the lanes, entries
      * and payloads of the modules that kept something, while `captured` still names every staged one. */
    method Collect(candidates: seq<Module>, layout: Layout, collect: Module -> Collection) returns (ok: bool)
      modifies this
      requires lanes == [] && moduleIDs == [] && captured == [] && included == [] && payloads == {}
      requires skipped == [] && results == [] && restores == []
      ensures ok <==> Stageable(SortBy(candidates, ByID), |SortBy(candidates, ByID)|, layout, collect)
      ensures ok ==> StagedModules(captured, SortBy(candidates, ByID), layout, collect)
      ensures ok ==> Collected(layout, captured, lanes, moduleIDs, included, payloads, restores)
      ensures ok ==> var mods := SortBy(candidates, ByID);
        && multiset(results) ==
          multiset(Lowered(ReportedOf(mods, |mods|, layout, collect), GoneOf(captured, |captured|)))
        && multiset(skipped) == multiset(SkippedOf(mods, |mods|, layout, collect) + GoneShortIDs(captured, |captured|))
    {
      var mods := SortBy(candidates, ByID);
      ok := StageAll(mods, layout, collect);
      if !ok {
        return;
      }
      StagedAreDistinct(candidates, layout, collect);
      var drops, collided := ResolveTargetCollisions(captured);
      EmitAll(drops, layout);
      SortLists(layout);
    }

    method SortLists(layout: Layout)
      modifies this`lanes, this`moduleIDs, this`included, this`skipped, this`results, this`restores
      requires Remain(layout, captured, |captured|, lanes, moduleIDs, included, payloads)
      ensures Remain(layout, captured, |captured|, lanes, moduleIDs, included, payloads)
      ensures multiset(restores) == multiset(old(restores)) && SortedBy(restores, EntryKey)
      ensures multiset(results) == multiset(old(results)) && multiset(skipped) == multiset(old(skipped))
    {
      var shortIDs := Sort(included, Self);
      var others := Sort(skipped, Self);
      var ids := Sort(moduleIDs, Self);
      var byCapture := Sort(lanes, LaneKey);
      var entries := Sort(restores, EntryKey);
      var reports := Sort(results, ResultKey);
      included, skipped, moduleIDs, lanes, restores, results := shortIDs, others, ids, byCapture, entries, reports;
    }

    /** Takes a module that lost every entry out of the lanes, the module list and the payload tree. */
    method DropLane(m: Module, layout: Layout, ghost mods: set<Module>, ghost gone: set<Module>)
      modifies this`lanes, this`moduleIDs, this`included, this`skipped, this`results, this`payloads
      requires m in mods && OneModulePerID(mods)
      requires forall a, b :: a in mods && b in mods && DirectoryOf(layout, a) == DirectoryOf(layout, b) ==> a == b
      requires Listed(layout, mods, gone, lanes, moduleIDs, included, payloads)
      ensures Listed(layout, mods - {m}, gone + {m}, lanes, moduleIDs, included, payloads)
      ensures skipped == old(skipped) + [ShortID(m.id)]
      ensures |results| == |old(results)| && forall k :: 0 <= k < |results| ==>
        results[k] == Downgraded(old(results)[k], m.id)
    {
      lanes := LanesWithout(lanes, m.id);
      moduleIDs := Without(moduleIDs, m.id);
      included := Without(included, ShortID(m.id));
      skipped := skipped + [ShortID(m.id)];
      results := seq(|results|, k requires 0 <= k < |results| reads this => Downgraded(results[k], m.id));
      payloads := payloads - {DirectoryOf(layout, m)};
      ListsLessOne(layout, mods, gone, m, old(lanes), lanes, old(moduleIDs), moduleIDs,
        old(included), included, old(payloads), payloads);
    }
  }

  function ByID(m: Module): string { m.id }

  function LaneKey(l: Lane): string { l.captureID }

  function ResultKey(r: ModuleResult): string { r.moduleID }

  function EntryKey(e: RestoreEntry): string {
    Join([e.legacyCaptureID, e.action.kind, e.source, e.action.target, e.action.key, e.action.valueName], '\0')
  }

  /** The staged modules of a candidate list: distinct IDs and directories. */
  ghost predicate StagedModules(staged: seq<Module>, mods: seq<Module>, layout: Layout, collect: Module -> Collection) {
    && staged == StagedOf(mods, |mods|, layout, collect) && DistinctIDs(staged) && DistinctDirectories(layout, staged)
    && (layout.mixed ==> forall m :: m in staged ==> m.restores != [])
  }

  /** The finished collection: the lists name the modules that kept something, the payload tree holds
    * exactly their directories, and the entries are exactly the ones that lost no collision, sorted. */
  ghost predicate Collected(layout: Layout, staged: seq<Module>,
    lanes: seq<Lane>, moduleIDs: seq<string>, included: seq<string>, payloads: set<string>, restores: seq<RestoreEntry>)
  {
    && Remain(layout, staged, |staged|, lanes, moduleIDs, included, payloads)
    && multiset(restores) == multiset(AllEntries(layout, Members(staged), staged, |staged|))
    && SortedBy(restores, EntryKey)
  }

  lemma StagedAreDistinct(candidates: seq<Module>, layout: Layout, collect: Module -> Collection)
    ensures var mods := SortBy(candidates, ByID);
      var staged := StagedOf(mods, |mods|, layout, collect);
      && DistinctIDs(staged)
      && (layout.mixed ==> forall m :: m in staged ==> m.restores != [])
  {
    var mods := SortBy(candidates, ByID);
    StagedFrom(mods, |mods|, layout, collect);
    SortByMembers(candidates, ByID);
    assert mods[..|mods|] == mods;
  }

  /** The modules among the first `count` staged ones that lost everything. */
  ghost function GoneOf(staged: seq<Module>, count: nat): set<Module>
    requires count <= |staged|
  {
    set m | m in staged[..count] && Gone(Members(staged), m)
  }

  /** State of the emission loop after `count` modules, from the state `results0`, `skipped0`. */
  ghost predicate EmittedUpTo(layout: Layout, staged: seq<Module>, count: nat,
    restores: seq<RestoreEntry>, results0: seq<ModuleResult>, results: seq<ModuleResult>,
    skipped0: seq<string>, skipped: seq<string>)
    requires count <= |staged|
  {
    && restores == AllEntries(layout, Members(staged), staged, count)
    && results == Lowered(results0, GoneOf(staged, count))
    && skipped == skipped0 + GoneShortIDs(staged, count)
  }

  ghost function Lowered(results: seq<ModuleResult>, gone: set<Module>): seq<ModuleResult> {
    seq(|results|, k requires 0 <= k < |results| =>
      if HasID(gone, results[k].moduleID) then Downgraded(results[k], results[k].moduleID) else results[k])
  }

  ghost function GoneShortIDs(staged: seq<Module>, count: nat): seq<string>
    requires count <= |staged|
  {
    if count == 0 then []
    else
      var last := staged[count - 1];
      GoneShortIDs(staged, count - 1) + if Gone(Members(staged), last) then [ShortID(last.id)] else []
  }

  /** The lists after `count` modules: every staged module but the ones dropped. */
  ghost predicate Remain(layout: Layout, staged: seq<Module>, count: nat,
    lanes: seq<Lane>, moduleIDs: seq<string>, included: seq<string>, payloads: set<string>)
    requires count <= |staged|
  {
    var gone := GoneOf(staged, count);
    Listed(layout, Members(staged) - gone, gone, lanes, moduleIDs, included, payloads)
  }

  lemma NothingGone(layout: Layout, staged: seq<Module>, lanes: seq<Lane>, moduleIDs: seq<string>,
    included: seq<string>, payloads: set<string>, results: seq<ModuleResult>, skipped: seq<string>)
    requires Listed(layout, Members(staged), {}, lanes, moduleIDs, included, payloads)
    ensures Remain(layout, staged, 0, lanes, moduleIDs, included, payloads)
    ensures EmittedUpTo(layout, staged, 0, [], results, results, skipped, skipped)
  {
    assert GoneOf(staged, 0) == {} && Members(staged) - {} == Members(staged);
  }

  lemma EmitKept(layout: Layout, staged: seq<Module>, n: nat, restores: seq<RestoreEntry>,
    results0: seq<ModuleResult>, results: seq<ModuleResult>, skipped0: seq<string>, skipped: seq<string>)
    requires n < |staged| && DistinctIDs(staged) && !Gone(Members(staged), staged[n])
    requires EmittedUpTo(layout, staged, n, restores, results0, results, skipped0, skipped)
    ensures var m := staged[n];
      EmittedUpTo(layout, staged, n + 1, restores + KeptEntries(layout, Members(staged), m, |m.restores|),
        results0, results, skipped0, skipped)
  {
    GoneNext(staged, n);
    assert GoneOf(staged, n + 1) == GoneOf(staged, n);
  }

  lemma EmitGone(layout: Layout, staged: seq<Module>, n: nat, restores: seq<RestoreEntry>,
    results0: seq<ModuleResult>, results: seq<ModuleResult>, skipped0: seq<string>, skipped: seq<string>)
    requires n < |staged| && DistinctIDs(staged) && Gone(Members(staged), staged[n])
    requires EmittedUpTo(layout, staged, n, restores, results0, results, skipped0, skipped)
    ensures var m := staged[n];
      EmittedUpTo(layout, staged, n + 1, restores,
        results0, seq(|results|, k requires 0 <= k < |results| => Downgraded(results[k], m.id)),
        skipped0, skipped + [ShortID(m.id)])
  {
    var m := staged[n];
    GoneNext(staged, n);
    assert m in GoneOf(staged, n) + {m};
    assert forall id :: HasID(GoneOf(staged, n) + {m}, id) <==> HasID(GoneOf(staged, n), id) || id == m.id;
    KeptEntriesEmpty(layout, Members(staged), m, |m.restores|);
    assert AllEntries(layout, Members(staged), staged, n) + [] == AllEntries(layout, Members(staged), staged, n);
  }

  ghost predicate HasID(mods: set<Module>, id: string) {
    exists m :: m in mods && m.id == id
  }

  ghost predicate DropsLosers(drops: Drops, staged: seq<Module>) {
    forall e: Entry :: e.owner in staged ==> (Dropped(drops, e) <==> Loses(Members(staged), e))
  }

  method EntriesLeft(m: Module, drops: Drops, layout: Layout, ghost staged: seq<Module>)
    returns (entries: seq<RestoreEntry>)
    requires m in staged && DropsLosers(drops, staged)
    ensures entries == KeptEntries(layout, Members(staged), m, |m.restores|)
  {
    entries := [];
    for k := 0 to |m.restores|
      invariant entries == KeptEntries(layout, Members(staged), m, k)
    {
      if !Dropped(drops, Entry(m, k)) {
        entries := entries + [EntryOf(layout, m, k)];
      }
    }
  }

  lemma GoneNext(staged: seq<Module>, n: nat)
    requires n < |staged| && DistinctIDs(staged)
    ensures GoneOf(staged, n + 1) == GoneOf(staged, n) + if Gone(Members(staged), staged[n]) then {staged[n]} else {}
    ensures staged[n] !in GoneOf(staged, n)
    ensures OneModulePerID(Members(staged))
  {
    assert staged[..n + 1] == staged[..n] + [staged[n]];
    assert forall j :: 0 <= j < n ==> staged[j] != staged[n];
  }

  /** The result of a dropped module no longer claims captured files. */
  function Downgraded(r: ModuleResult, moduleID: string): ModuleResult {
    if r.moduleID == moduleID then r.(files := 0, status := CaptureSkipped) else r
  }

  method LanesWithout(lanes: seq<Lane>, moduleID: string) returns (kept: seq<Lane>)
    requires NoRepeats(lanes)
    ensures Elements(kept) == set l | l in lanes && l.moduleID != moduleID
    ensures NoRepeats(kept)
  {
    kept := [];
    for n := 0 to |lanes|
      invariant forall l :: l in kept <==> l in lanes[..n] && l.moduleID != moduleID
      invariant NoRepeats(kept)
    {
      assert lanes[..n + 1] == lanes[..n] + [lanes[n]];
      assert lanes[n] !in lanes[..n];
      if lanes[n].moduleID != moduleID {
        kept := kept + [lanes[n]];
      }
    }
    assert lanes[..|lanes|] == lanes;
  }

  method Without(ids: seq<string>, id: string) returns (kept: seq<string>)
    ensures Elements(kept) == Elements(ids) - {id}
    ensures NoRepeats(ids) ==> NoRepeats(kept)
  {
    kept := [];
    for n := 0 to |ids|
      invariant forall x :: x in kept <==> x in ids[..n] && x != id
      invariant NoRepeats(ids) ==> NoRepeats(kept)
    {
      assert ids[..n + 1] == ids[..n] + [ids[n]];
      assert NoRepeats(ids) ==> ids[n] !in ids[..n];
      if ids[n] != id {
        kept := kept + [ids[n]];
      }
    }
    assert ids[..|ids|] == ids;
  }

  lemma DirectoriesDiffer(layout: Layout, staged: seq<Module>)
    requires DistinctDirectories(layout, staged)
    ensures forall a, b ::
      a in Members(staged) && b in Members(staged) && DirectoryOf(layout, a) == DirectoryOf(layout, b) ==> a == b
  {
  }

  lemma ListsOneMore(layout: Layout, mods: set<Module>, m: Module,
    lanes0: seq<Lane>, lanes: seq<Lane>, ids0: seq<string>, ids: seq<string>,
    included0: seq<string>, included: seq<string>, payloads0: set<string>, payloads: set<string>)
    requires Listed(layout, mods, {}, lanes0, ids0, included0, payloads0)
    requires forall o :: o in mods ==> o.id != m.id
    requires lanes == lanes0 + if layout.mixed then [LaneOf(layout, m)] else []
    requires ids == ids0 + [m.id] && included == included0 + [ShortID(m.id)]
    requires payloads == payloads0 + {DirectoryOf(layout, m)}
    ensures Listed(layout, mods + {m}, {}, lanes, ids, included, payloads)
  {
    var more := mods + {m};
    assert m.id !in Elements(ids0) by { assert m.id !in IDSet(mods); }
    LanesOneMore(layout, mods, m, lanes0);
    assert Elements(ids) == Elements(ids0) + {m.id} && IDSet(more) == IDSet(mods) + {m.id};
    assert Elements(included) == Elements(included0) + {ShortID(m.id)};
    assert ShortIDSet(more) == ShortIDSet(mods) + {ShortID(m.id)} && ShortIDSet({}) == {};
    assert DirectorySet(layout, more) == DirectorySet(layout, mods) + {DirectoryOf(layout, m)};
  }

  lemma LanesOneMore(layout: Layout, mods: set<Module>, m: Module, lanes: seq<Lane>)
    requires Elements(lanes) == LaneSet(layout, mods) && NoRepeats(lanes) && forall o :: o in mods ==> o.id != m.id
    ensures var more := lanes + if layout.mixed then [LaneOf(layout, m)] else [];
      Elements(more) == LaneSet(layout, mods + {m}) && NoRepeats(more)
  {
    var lane := LaneOf(layout, m);
    assert lane.moduleID == m.id;
    if layout.mixed {
      assert lane !in Elements(lanes);
      assert LaneSet(layout, mods + {m}) == LaneSet(layout, mods) + {lane};
      assert Elements(lanes + [lane]) == Elements(lanes) + {lane};
    } else {
      assert lanes + [] == lanes;
    }
  }

  lemma ListsLessOne(layout: Layout, mods: set<Module>, gone: set<Module>, m: Module,
    lanes0: seq<Lane>, lanes: seq<Lane>, ids0: seq<string>, ids: seq<string>,
    included0: seq<string>, included: seq<string>, payloads0: set<string>, payloads: set<string>)
    requires m in mods && OneModulePerID(mods)
    requires forall a, b :: a in mods && b in mods && DirectoryOf(layout, a) == DirectoryOf(layout, b) ==> a == b
    requires Listed(layout, mods, gone, lanes0, ids0, included0, payloads0)
    requires Elements(lanes) == (set l | l in lanes0 && l.moduleID != m.id) && NoRepeats(lanes)
    requires Elements(ids) == Elements(ids0) - {m.id} && NoRepeats(ids)
    requires Elements(included) == Elements(included0) - {ShortID(m.id)}
    requires payloads == payloads0 - {DirectoryOf(layout, m)}
    ensures Listed(layout, mods - {m}, gone + {m}, lanes, ids, included, payloads)
  {
    var rest := mods - {m};
    assert Elements(lanes) == LaneSet(layout, rest) by {
      forall l ensures l in Elements(lanes) <==> l in LaneSet(layout, rest) {
        assert l in Elements(lanes) <==> l in LaneSet(layout, mods) && l.moduleID != m.id by {
          assert l in lanes0 <==> l in Elements(lanes0);
        }
      }
    }
    assert IDSet(rest) == IDSet(mods) - {m.id};
    assert DirectorySet(layout, rest) == DirectorySet(layout, mods) - {DirectoryOf(layout, m)};
    assert ShortIDSet(gone + {m}) == ShortIDSet(gone) + {ShortID(m.id)};
    assert ShortIDSet(mods) - ShortIDSet(gone + {m}) == ShortIDSet(rest) - ShortIDSet(gone + {m});
  }
}
