/** The plan command over package lanes: every lane is planned by its own driver, the actions are
  * scattered by app index and gathered back in manifest order. */
module LanePlan {
  import opened ConfigPlan
  import opened DriverLanes
  import opened LaneDetection

  datatype Presence = Present | Missing | Skipped | Failed

  datatype Planned = DoNothing | SkipIt | InstallIt

  datatype Action = Action(id: string, ref: string, driver: string, presence: Presence, planned: Planned)

  /** The planner asks a winget lane by source, every other lane without. */
  function PlanDetected(h: Host, key: LaneKey, refs: seq<string>, ref: string): Option<Detected> {
    var bySource := key.name == "winget";
    DetectOne(h, key, bySource, DetectLane(h, key, bySource, refs), ref)
  }

  function PlanOne(h: Host, key: LaneKey, refs: seq<string>, a: App): Action {
    var found := PlanDetected(h, key, refs, a.ref);
    if found.None? then Action(a.id, a.ref, key.name, Presence.Failed, SkipIt)
    else if found.value.installed then Action(a.id, a.ref, key.name, Present, SkipIt)
    else Action(a.id, a.ref, key.name, Missing, InstallIt)
  }

  /** An app the system registry knows is present, whatever its driver missed. */
  function Corrected(h: Host, action: Action, a: App): Action {
    if action.presence == Missing && Observe(Detected(false, ""), a, h.inventory).present
    then action.(presence := Present, planned := DoNothing) else action
  }

  function PackageAction(env: Environment, apps: seq<App>, h: Host, r: Route): Action
    requires Routable(env, apps)
  {
    if r.error then Unavailable(r)
    else Corrected(h, PlanOne(h, r.key, Refs(RoutesOf(env, apps, r.key)), r.app), r.app)
  }

  /** Every route of a lane that cannot be used is skipped. */
  function Unavailable(r: Route): Action {
    Action(r.app.id, r.app.ref, r.key.name, Presence.Skipped, SkipIt)
  }

  function ManualAction(h: Host, a: App): Action {
    if h.verified(a) then Action(a.id, "", "manual", Present, SkipIt)
    else Action(a.id, "", "manual", Missing, InstallIt)
  }

  function ActionFor(env: Environment, apps: seq<App>, h: Host, r: Routed): Action
    requires Routable(env, apps)
  {
    match r
    case Package(route) => PackageAction(env, apps, h, route)
    case Manual(_, a) => ManualAction(h, a)
  }

  function ActionsFor(env: Environment, apps: seq<App>, h: Host, routed: seq<Routed>): (actions: seq<Action>)
    requires Routable(env, apps)
  {
    seq(|routed|, i requires 0 <= i < |routed| => ActionFor(env, apps, h, routed[i]))
  }

  predicate IsPresent(a: Action) {
    a.presence == Present
  }

  predicate IsToInstall(a: Action) {
    a.presence != Present && a.planned == InstallIt
  }

  predicate IsSkipped(a: Action) {
    a.presence != Present && a.planned != InstallIt
  }

  datatype Summary = Summary(present: nat, install: nat, skipped: nat)

  /** The map holds wanted actions only. */
  ghost predicate Holds(env: Environment, apps: seq<App>, h: Host, byIndex: map<nat, Action>)
    requires Routable(env, apps)
  {
    forall i :: i in byIndex ==> HeldAt(env, apps, h, i, byIndex[i])
  }

  ghost predicate HeldAt(env: Environment, apps: seq<App>, h: Host, i: nat, action: Action)
    requires Routable(env, apps)
  {
    i < |apps| && IsRouted(apps[i]) && action == ActionFor(env, apps, h, RoutedAt(env, apps, i))
  }

  function Indices(routes: seq<Route>): set<nat> {
    set r | r in routes :: r.index
  }

  /** A lane in error skips its routes; any other lane is planned with its own apps only. */
  method PlanLane(env: Environment, ghost apps: seq<App>, h: Host, lane: Lane, byIndex: map<nat, Action>)
    returns (more: map<nat, Action>)
    requires Routable(env, apps) && Holds(env, apps, h, byIndex) && LaneHeld(env, apps, h, lane)
    ensures Holds(env, apps, h, more) && more.Keys == byIndex.Keys + Indices(lane.routes)
  {
    more := byIndex;
    for k := 0 to |lane.routes|
      invariant Holds(env, apps, h, more) && more.Keys == byIndex.Keys + Indices(lane.routes[..k])
    {
      var r := lane.routes[k];
      HeldNext(env, apps, h, more, r.index, LaneAction(h, lane, r));
      IndicesNext(lane.routes, k);
      more := more[r.index := LaneAction(h, lane, r)];
    }
    assert lane.routes[..|lane.routes|] == lane.routes;
  }

  lemma IndicesNext(routes: seq<Route>, k: nat)
    requires k < |routes|
    ensures Indices(routes[..k + 1]) == Indices(routes[..k]) + {routes[k].index}
  {
    assert routes[..k + 1] == routes[..k] + [routes[k]];
  }

  function LaneAction(h: Host, lane: Lane, r: Route): Action {
    if lane.error then Unavailable(r) else Corrected(h, PlanOne(h, lane.key, Refs(lane.routes), r.app), r.app)
  }

  ghost predicate LaneHeld(env: Environment, apps: seq<App>, h: Host, lane: Lane)
    requires Routable(env, apps)
  {
    forall r :: r in lane.routes ==> HeldAt(env, apps, h, r.index, LaneAction(h, lane, r))
  }

  lemma LaneIsHeld(env: Environment, apps: seq<App>, h: Host, lane: Lane, key: LaneKey)
    requires Routable(env, apps) && LaneIs(env, apps, lane, key)
    ensures LaneHeld(env, apps, h, lane)
  {
    LaneRoutes(env, apps, lane, key);
    forall r | r in lane.routes ensures HeldAt(env, apps, h, r.index, LaneAction(h, lane, r)) {
      assert IsRouteOf(env, apps, key, r) && r.key == key;
    }
  }

  lemma HeldNext(env: Environment, apps: seq<App>, h: Host, byIndex: map<nat, Action>, i: nat, action: Action)
    requires Routable(env, apps) && Holds(env, apps, h, byIndex) && HeldAt(env, apps, h, i, action)
    ensures Holds(env, apps, h, byIndex[i := action])
  {
    var more := byIndex[i := action];
    assert forall j :: j in more ==> HeldAt(env, apps, h, j, more[j]);
  }

  method PlanLanes(env: Environment, ghost apps: seq<App>, h: Host, lanes: seq<Lane>)
    returns (byIndex: map<nat, Action>)
    requires Routable(env, apps) && LanesOf(env, apps, lanes)
    ensures Holds(env, apps, h, byIndex)
    ensures forall i: nat :: i in byIndex <==> i < |apps| && IsPackage(apps[i])
  {
    byIndex := map[];
    ghost var keys := FirstUse(env, apps);
    for k := 0 to |lanes|
      invariant Holds(env, apps, h, byIndex) && byIndex.Keys == LaneIndices(lanes, k)
    {
      assert LaneIs(env, apps, lanes[k], keys[k]);
      LaneIsHeld(env, apps, h, lanes[k], keys[k]);
      byIndex := PlanLane(env, apps, h, lanes[k], byIndex);
    }
    forall i: nat ensures i in byIndex <==> i < |apps| && IsPackage(apps[i]) {
      LanesCoverPackages(env, apps, lanes, i);
    }
  }

  ghost function LaneIndices(lanes: seq<Lane>, count: nat): set<nat>
    requires count <= |lanes|
  {
    if count == 0 then {} else LaneIndices(lanes, count - 1) + Indices(lanes[count - 1].routes)
  }

  lemma {:induction false} LaneIndexMember(lanes: seq<Lane>, count: nat, i: nat)
    requires count <= |lanes|
    ensures i in LaneIndices(lanes, count) <==> exists t: nat :: t < count && i in Indices(lanes[t].routes)
  {
    if count > 0 { LaneIndexMember(lanes, count - 1, i); }
  }

  /** Together the lanes hold exactly the package apps. */
  lemma LanesCoverPackages(env: Environment, apps: seq<App>, lanes: seq<Lane>, i: nat)
    requires Routable(env, apps) && LanesOf(env, apps, lanes)
    ensures i in LaneIndices(lanes, |lanes|) <==> i < |apps| && IsPackage(apps[i])
  {
    var keys := FirstUse(env, apps);
    LaneIndexMember(lanes, |lanes|, i);
    if t: nat :| t < |lanes| && i in Indices(lanes[t].routes) {
      assert LaneIs(env, apps, lanes[t], keys[t]);
      RoutesAre(env, apps, keys[t]);
      var r :| r in lanes[t].routes && r.index == i;
      assert IsRouteOf(env, apps, keys[t], r);
    }
    if i < |apps| && IsPackage(apps[i]) {
      ExactlyOneLane(env, apps, lanes, i);
      var t :| 0 <= t < |lanes| && OnlyIn(lanes, t, RouteAt(env, apps, i));
      assert i in Indices(lanes[t].routes);
    }
  }

  /** Each action is counted by exactly one branch, whichever it takes. */
  method Gather(count: nat, byIndex: map<nat, Action>, ghost env: Environment, ghost apps: seq<App>, ghost h: Host)
    returns (actions: seq<Action>, sum: Summary)
    requires Routable(env, apps) && count == |apps| && Holds(env, apps, h, byIndex)
    requires forall i: nat :: i in byIndex <==> i < |apps| && IsRouted(apps[i])
    ensures actions == ActionsFor(env, apps, h, RoutedOf(env, apps))
    ensures Counted(actions, sum) && sum.present + sum.install + sum.skipped == |RoutedOf(env, apps)|
  {
    actions, sum := [], Summary(0, 0, 0);
    for n := 0 to count
      invariant actions == ActionsFor(env, apps, h, RoutedUpTo(env, apps, n))
      invariant Counted(actions, sum) && sum.present + sum.install + sum.skipped == |actions|
    {
      GatherNext(env, apps, h, n, byIndex);
      if n in byIndex {
        sum := CountOne(actions, sum, byIndex[n]);
        actions := actions + [byIndex[n]];
      }
    }
    RoutedAll(env, apps);
  }

  method CountOne(ghost actions: seq<Action>, sum: Summary, action: Action) returns (s: Summary)
    requires Counted(actions, sum)
    ensures Counted(actions + [action], s)
    ensures s.present + s.install + s.skipped == sum.present + sum.install + sum.skipped + 1
  {
    s := sum;
    if action.presence == Present {
      s := s.(present := s.present + 1);
    } else if action.planned == InstallIt {
      s := s.(install := s.install + 1);
    } else {
      s := s.(skipped := s.skipped + 1);
    }
    CountedNext(actions, sum, action);
  }

  /** Each counter is the number of actions of its kind. */
  ghost predicate Counted(actions: seq<Action>, sum: Summary) {
    sum == Summary(Count(actions, IsPresent), Count(actions, IsToInstall), Count(actions, IsSkipped))
  }

  lemma CountedNext(actions: seq<Action>, sum: Summary, action: Action)
    requires Counted(actions, sum)
    ensures IsPresent(action) ==> Counted(actions + [action], sum.(present := sum.present + 1))
    ensures IsToInstall(action) ==> Counted(actions + [action], sum.(install := sum.install + 1))
    ensures IsSkipped(action) ==> Counted(actions + [action], sum.(skipped := sum.skipped + 1))
  {
    CountNext(actions, action, IsPresent);
    CountNext(actions, action, IsToInstall);
    CountNext(actions, action, IsSkipped);
  }

  lemma GatherNext(env: Environment, apps: seq<App>, h: Host, n: nat, byIndex: map<nat, Action>)
    requires Routable(env, apps) && n < |apps| && Holds(env, apps, h, byIndex)
    requires n in byIndex <==> IsRouted(apps[n])
    ensures ActionsFor(env, apps, h, RoutedUpTo(env, apps, n + 1)) ==
      ActionsFor(env, apps, h, RoutedUpTo(env, apps, n)) + if n in byIndex then [byIndex[n]] else []
  {
    if n in byIndex {
      assert HeldAt(env, apps, h, n, byIndex[n]);
    }
  }

  /** The plan lists one action for each routed app in manifest order, whatever lanes they went
    * through; the three counters add up to their number. */
  method ComputePlan(env: Environment, apps: seq<App>, h: Host) returns (plan: Option<(seq<Action>, Summary)>)
    ensures plan.Some? <==> Routable(env, apps)
    ensures plan.Some? ==>
      var (actions, sum) := plan.value;
      && actions == ActionsFor(env, apps, h, RoutedOf(env, apps))
      && Counted(actions, sum)
      && sum.present + sum.install + sum.skipped == |RoutedOf(env, apps)|
  {
    var result := RouteApps(env, apps);
    if result.None? {
      return None;
    }
    var (lanes, routed) := result.value;
    var byIndex := PlanLanes(env, apps, h, lanes);
    RoutedManualHeld(env, apps, h);
    byIndex := PlanManual(env, apps, h, routed, byIndex);
    ManualIndicesAre(env, apps);
    var actions, sum := Gather(|apps|, byIndex, env, apps, h);
    return Some((actions, sum));
  }

  method PlanManual(env: Environment, ghost apps: seq<App>, h: Host, routed: seq<Routed>, packages: map<nat, Action>)
    returns (byIndex: map<nat, Action>)
    requires Routable(env, apps) && Holds(env, apps, h, packages) && ManualHeld(env, apps, h, routed)
    ensures Holds(env, apps, h, byIndex) && byIndex.Keys == packages.Keys + ManualIndices(routed)
  {
    byIndex := packages;
    for n := 0 to |routed|
      invariant Holds(env, apps, h, byIndex) && byIndex.Keys == packages.Keys + ManualIndices(routed[..n])
    {
      ManualIndicesNext(routed, n);
      if routed[n].Manual? {
        HeldNext(env, apps, h, byIndex, routed[n].index, ManualAction(h, routed[n].app));
        byIndex := byIndex[routed[n].index := ManualAction(h, routed[n].app)];
      }
    }
    assert routed[..|routed|] == routed;
  }

  ghost predicate ManualHeld(env: Environment, apps: seq<App>, h: Host, routed: seq<Routed>)
    requires Routable(env, apps)
  {
    forall r :: r in routed && r.Manual? ==> HeldAt(env, apps, h, r.index, ManualAction(h, r.app))
  }

  lemma RoutedManualHeld(env: Environment, apps: seq<App>, h: Host)
    requires Routable(env, apps)
    ensures ManualHeld(env, apps, h, RoutedOf(env, apps))
  {
    ManifestOrder(env, apps);
    forall r | r in RoutedOf(env, apps) && r.Manual? ensures HeldAt(env, apps, h, r.index, ManualAction(h, r.app)) {
      assert IsRoutedAt(env, apps, r, |apps|);
    }
  }

  lemma ManualIndicesNext(routed: seq<Routed>, n: nat)
    requires n < |routed|
    ensures ManualIndices(routed[..n + 1]) ==
      ManualIndices(routed[..n]) + if routed[n].Manual? then {routed[n].index} else {}
  {
    assert routed[..n + 1] == routed[..n] + [routed[n]];
  }

  ghost function ManualIndices(routed: seq<Routed>): set<nat> {
    set r | r in routed && r.Manual? :: r.index
  }

  lemma ManualIndicesAre(env: Environment, apps: seq<App>)
    requires Routable(env, apps)
    ensures forall i: nat :: i in ManualIndices(RoutedOf(env, apps)) <==> i < |apps| && IsManual(apps[i])
  {
    ManifestOrder(env, apps);
    forall i: nat ensures i in ManualIndices(RoutedOf(env, apps)) <==> i < |apps| && IsManual(apps[i]) {
      if i in ManualIndices(RoutedOf(env, apps)) {
        var r :| r in RoutedOf(env, apps) && r.Manual? && r.index == i;
        assert IsRoutedAt(env, apps, r, |apps|);
      }
    }
  }
}
