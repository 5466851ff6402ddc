/** Package-driver lanes: apps are scattered into one lane for each driver and source, planned lane by
  * lane, and gathered back in manifest order; every phase counts every routed entry once. */
module DriverLanes {
  import opened ConfigPlan
  import opened Text

  /** How an app appears in the registry of installed programs. */
  datatype Fingerprint = Fingerprint(key: string, publisher: string)

  datatype App = App(
    id: string, ref: string, manual: bool, driver: string, source: string, version: string,
    fingerprint: Option<Fingerprint>)

  /** A constructed driver is known by the name it reports. */
  datatype Environment = Environment(
    default: Option<string>,
    overrides: map<string, bool>,
    construct: string -> Option<string>)

  datatype LaneKey = LaneKey(name: string, source: string)

  /** How one package app resolves on its own; an override always carries an error. */
  datatype Resolution = Resolution(key: LaneKey, error: bool, failed: bool)

  datatype Route = Route(index: nat, app: App, key: LaneKey, error: bool, failed: bool)

  datatype Lane = Lane(key: LaneKey, error: bool, failed: bool, routes: seq<Route>)

  predicate IsManual(a: App) {
    a.ref == "" && a.manual
  }

  predicate IsPackage(a: App) {
    a.ref != ""
  }

  function Folded(name: string): string {
    Lower(TrimSpace(name))
  }

  predicate IsStoreChar(c: char) {
    'a' <= c <= 'z' || '0' <= c <= '9'
  }

  /** A reference in the form the vendor's store hands out. */
  predicate IsStoreID(ref: string) {
    var id := Folded(ref);
    && (forall i :: 0 <= i < |id| ==> IsStoreChar(id[i]))
    && ((|id| >= 11 && id[0] == '9') || (|id| >= 12 && id[..2] == "xp"))
  }

  /** The source of a winget package: never empty. */
  function ResolveWinget(ref: string, explicit: string): string {
    if Folded(explicit) != "" then Folded(explicit) else if IsStoreID(ref) then "msstore" else "winget"
  }

  /** Whether the platform default is needed but cannot be constructed. */
  predicate NeedsMissingDefault(env: Environment, a: App) {
    IsPackage(a) && Folded(a.driver) == "" && env.default.None?
  }

  function Resolve(env: Environment, a: App): Resolution
    requires !NeedsMissingDefault(env, a) && IsPackage(a)
  {
    var requested := Folded(a.driver);
    var overridden := requested != "" && requested in env.overrides;
    var built := if requested == "" then env.default else if overridden then None else env.construct(requested);
    var name := if built.Some? then Folded(built.value) else requested;
    Resolution(LaneKey(name, if name == "winget" then ResolveWinget(a.ref, a.source) else ""),
      built.None?, overridden && env.overrides[requested])
  }

  // ----- the specification of routing -----

  predicate Routable(env: Environment, apps: seq<App>) {
    forall a :: a in apps ==> !NeedsMissingDefault(env, a)
  }

  function KeyOf(env: Environment, a: App): LaneKey
    requires !NeedsMissingDefault(env, a) && IsPackage(a)
  {
    Resolve(env, a).key
  }

  /** The lane keys in the order the manifest first uses them. */
  function FirstUse(env: Environment, apps: seq<App>): seq<LaneKey>
    requires Routable(env, apps)
  {
    if apps == [] then []
    else
      var n := |apps| - 1;
      var before := FirstUse(env, apps[..n]);
      if IsPackage(apps[n]) && KeyOf(env, apps[n]) !in before then before + [KeyOf(env, apps[n])] else before
  }

  /** The first app that uses a key decides whether its lane is in error. */
  function Opener(env: Environment, apps: seq<App>, key: LaneKey): Resolution
    requires Routable(env, apps) && key in FirstUse(env, apps)
  {
    var n := |apps| - 1;
    if key in FirstUse(env, apps[..n]) then Opener(env, apps[..n], key) else Resolve(env, apps[n])
  }

  function RoutesOf(env: Environment, apps: seq<App>, key: LaneKey): seq<Route>
    requires Routable(env, apps)
  {
    if apps == [] then []
    else
      var n := |apps| - 1;
      RoutesOf(env, apps[..n], key) +
      if IsPackage(apps[n]) && KeyOf(env, apps[n]) == key then [RouteAt(env, apps, n)] else []
  }

  lemma {:induction false} KeysUsed(env: Environment, apps: seq<App>)
    requires Routable(env, apps)
    ensures forall a :: a in apps && IsPackage(a) ==> KeyOf(env, a) in FirstUse(env, apps)
    ensures forall i, j :: 0 <= i < j < |FirstUse(env, apps)| ==> FirstUse(env, apps)[i] != FirstUse(env, apps)[j]
  {
    if apps != [] {
      var n := |apps| - 1;
      KeysUsed(env, apps[..n]);
      assert apps == apps[..n] + [apps[n]];
    }
  }

  /** The route of app `n`: it carries the error of its lane, not its own. */
  function RouteAt(env: Environment, apps: seq<App>, n: nat): Route
    requires Routable(env, apps) && n < |apps| && IsPackage(apps[n])
  {
    var key := KeyOf(env, apps[n]);
    KeysUsed(env, apps[..n + 1]);
    assert apps[..n + 1][n] in apps[..n + 1];
    var opener := Opener(env, apps[..n + 1], key);
    Route(n, apps[n], key, opener.error, opener.failed)
  }

  datatype Routed = Package(route: Route) | Manual(index: nat, app: App)

  /** One route for every package app and every manually verified app, in manifest order. */
  function RoutedOf(env: Environment, apps: seq<App>): seq<Routed>
    requires Routable(env, apps)
  {
    if apps == [] then []
    else
      var n := |apps| - 1;
      RoutedOf(env, apps[..n]) +
      if IsPackage(apps[n]) then [Package(RouteAt(env, apps, n))]
      else if IsManual(apps[n]) then [Manual(n, apps[n])] else []
  }

  /** The lanes hold the first-use keys in order, each with its opener's error and its own routes. */
  ghost predicate LanesOf(env: Environment, apps: seq<App>, lanes: seq<Lane>)
    requires Routable(env, apps)
  {
    && |lanes| == |FirstUse(env, apps)|
    && forall i :: 0 <= i < |lanes| ==> LaneIs(env, apps, lanes[i], FirstUse(env, apps)[i])
  }

  ghost predicate LaneIs(env: Environment, apps: seq<App>, lane: Lane, key: LaneKey)
    requires Routable(env, apps)
  {
    && lane.key == key && key in FirstUse(env, apps)
    && lane.error == Opener(env, apps, key).error && lane.failed == Opener(env, apps, key).failed
    && lane.routes == RoutesOf(env, apps, key)
  }

  ghost predicate IndexOf(lanes: seq<Lane>, byKey: map<LaneKey, nat>) {
    && (forall key :: key in byKey ==> byKey[key] < |lanes| && lanes[byKey[key]].key == key)
    && forall i :: 0 <= i < |lanes| ==> lanes[i].key in byKey
  }

  /** Routes every app once. It fails exactly when an app without a driver needs a default the host lacks. */
  method RouteApps(env: Environment, apps: seq<App>) returns (result: Option<(seq<Lane>, seq<Routed>)>)
    ensures result.Some? <==> Routable(env, apps)
    ensures result.Some? ==> LanesOf(env, apps, result.value.0) && result.value.1 == RoutedOf(env, apps)
  {
    var lanes: seq<Lane> := [];
    var byKey: map<LaneKey, nat> := map[];
    var routed: seq<Routed> := [];
    for n := 0 to |apps|
      invariant Routable(env, apps[..n]) && RoutedSoFar(env, apps[..n], lanes, byKey, routed)
    {
      if NeedsMissingDefault(env, apps[n]) {
        assert apps[n] in apps;
        return None;
      }
      assert apps[..n + 1] == apps[..n] + [apps[n]];
      lanes, byKey, routed := RouteOne(env, apps[..n], n, apps[n], lanes, byKey, routed);
    }
    assert apps[..|apps|] == apps;
    return Some((lanes, routed));
  }

  ghost predicate RoutedSoFar(env: Environment, apps: seq<App>, lanes: seq<Lane>, byKey: map<LaneKey, nat>,
    routed: seq<Routed>)
    requires Routable(env, apps)
  {
    LanesOf(env, apps, lanes) && IndexOf(lanes, byKey) && routed == RoutedOf(env, apps)
  }

  method RouteOne(env: Environment, ghost before: seq<App>, n: nat, a: App,
    lanes: seq<Lane>, byKey: map<LaneKey, nat>, routed: seq<Routed>)
    returns (more: seq<Lane>, index: map<LaneKey, nat>, all: seq<Routed>)
    requires n == |before| && Routable(env, before + [a]) && Routable(env, before)
    requires RoutedSoFar(env, before, lanes, byKey, routed)
    ensures RoutedSoFar(env, before + [a], more, index, all)
  {
    RoutedNext(env, before, a);
    if IsPackage(a) {
      var route;
      more, index, route := RoutePackage(env, before, n, a, lanes, byKey);
      all := routed + [Package(route)];
    } else {
      OtherLanes(env, before, a, lanes);
      more, index, all := lanes, byKey, routed + if IsManual(a) then [Manual(n, a)] else [];
    }
  }

  lemma RoutedNext(env: Environment, before: seq<App>, a: App)
    requires Routable(env, before + [a]) && Routable(env, before)
    ensures RoutedOf(env, before + [a]) == RoutedOf(env, before) +
      if IsPackage(a) then [Package(RouteAt(env, before + [a], |before|))]
      else if IsManual(a) then [Manual(|before|, a)] else []
  {
    assert (before + [a])[..|before|] == before;
  }

  /** A package app joins the lane of its key, or opens it. */
  method RoutePackage(env: Environment, ghost before: seq<App>, n: nat, a: App, lanes: seq<Lane>,
    byKey: map<LaneKey, nat>)
    returns (more: seq<Lane>, index: map<LaneKey, nat>, route: Route)
    requires n == |before| && Routable(env, before + [a]) && Routable(env, before)
    requires LanesOf(env, before, lanes) && IndexOf(lanes, byKey) && IsPackage(a)
    ensures LanesOf(env, before + [a], more) && IndexOf(more, index) && route == RouteAt(env, before + [a], n)
  {
    var own := Resolve(env, a);
    KeyInLanes(env, before, lanes, byKey, own.key);
    if own.key in byKey {
      var at := byKey[own.key];
      route := Route(n, a, own.key, lanes[at].error, lanes[at].failed);
      JoinLane(env, before, a, lanes, at);
      return lanes[at := lanes[at].(routes := lanes[at].routes + [route])], byKey, route;
    }
    route := Route(n, a, own.key, own.error, own.failed);
    OpenLane(env, before, a, lanes);
    return lanes + [Lane(own.key, own.error, own.failed, [route])], byKey[own.key := |lanes|], route;
  }

  lemma KeyInLanes(env: Environment, apps: seq<App>, lanes: seq<Lane>, byKey: map<LaneKey, nat>, key: LaneKey)
    requires Routable(env, apps) && LanesOf(env, apps, lanes) && IndexOf(lanes, byKey)
    ensures key in byKey <==> key in FirstUse(env, apps)
  {
    if key in FirstUse(env, apps) {
      var i :| 0 <= i < |FirstUse(env, apps)| && FirstUse(env, apps)[i] == key;
      assert LaneIs(env, apps, lanes[i], key);
    }
  }

  lemma {:induction false} NoRoutes(env: Environment, apps: seq<App>, key: LaneKey)
    requires Routable(env, apps) && key !in FirstUse(env, apps)
    ensures RoutesOf(env, apps, key) == []
  {
    if apps != [] {
      var n := |apps| - 1;
      NoRoutes(env, apps[..n], key);
      KeysUsed(env, apps);
    }
  }

  /** One more app leaves every other lane as it was. */
  lemma OtherLane(env: Environment, before: seq<App>, a: App, lane: Lane, key: LaneKey)
    requires Routable(env, before + [a]) && Routable(env, before) && LaneIs(env, before, lane, key)
    requires IsPackage(a) ==> KeyOf(env, a) != key
    ensures LaneIs(env, before + [a], lane, key)
  {
    var apps := before + [a];
    assert apps[..|before|] == before;
  }

  /** A package app whose key is in use joins that lane, and takes over its error. */
  lemma JoinLane(env: Environment, before: seq<App>, a: App, lanes: seq<Lane>, at: nat)
    requires Routable(env, before + [a]) && Routable(env, before) && LanesOf(env, before, lanes)
    requires IsPackage(a) && at < |lanes| && lanes[at].key == KeyOf(env, a)
    ensures var route := Route(|before|, a, lanes[at].key, lanes[at].error, lanes[at].failed);
      && RouteAt(env, before + [a], |before|) == route
      && LanesOf(env, before + [a], lanes[at := lanes[at].(routes := lanes[at].routes + [route])])
  {
    var apps, key := before + [a], KeyOf(env, a);
    var keys := FirstUse(env, before);
    assert apps[..|before|] == before && apps[..|before| + 1] == apps;
    assert LaneIs(env, before, lanes[at], keys[at]) && keys[at] == key;
    assert FirstUse(env, apps) == keys;
    KeysUsed(env, before);
    var route := RouteAt(env, apps, |before|);
    var joined := lanes[at := lanes[at].(routes := lanes[at].routes + [route])];
    forall i | 0 <= i < |joined| ensures LaneIs(env, apps, joined[i], keys[i]) {
      assert LaneIs(env, before, lanes[i], keys[i]);
      if i != at { OtherLane(env, before, a, lanes[i], keys[i]); }
    }
  }

  /** A package app with a new key opens a lane at the end. */
  lemma OpenLane(env: Environment, before: seq<App>, a: App, lanes: seq<Lane>)
    requires Routable(env, before + [a]) && Routable(env, before) && LanesOf(env, before, lanes)
    requires IsPackage(a) && KeyOf(env, a) !in FirstUse(env, before)
    ensures var own := Resolve(env, a);
      var route := Route(|before|, a, own.key, own.error, own.failed);
      && RouteAt(env, before + [a], |before|) == route
      && LanesOf(env, before + [a], lanes + [Lane(own.key, own.error, own.failed, [route])])
  {
    var apps, own := before + [a], Resolve(env, a);
    var keys := FirstUse(env, before);
    assert apps[..|before|] == before && apps[..|before| + 1] == apps;
    NoRoutes(env, before, own.key);
    var route := RouteAt(env, apps, |before|);
    var extended := lanes + [Lane(own.key, own.error, own.failed, [route])];
    assert FirstUse(env, apps) == keys + [own.key];
    forall i | 0 <= i < |extended| ensures LaneIs(env, apps, extended[i], (keys + [own.key])[i]) {
      if i < |lanes| {
        assert LaneIs(env, before, lanes[i], keys[i]);
        assert keys[i] in keys;
        OtherLane(env, before, a, lanes[i], keys[i]);
      } else {
        assert RoutesOf(env, apps, own.key) == [] + [route];
      }
    }
  }

  lemma OtherLanes(env: Environment, before: seq<App>, a: App, lanes: seq<Lane>)
    requires Routable(env, before + [a]) && Routable(env, before) && LanesOf(env, before, lanes) && !IsPackage(a)
    ensures LanesOf(env, before + [a], lanes)
  {
    var apps := before + [a];
    assert apps[..|before|] == before;
    forall i | 0 <= i < |lanes| ensures LaneIs(env, apps, lanes[i], FirstUse(env, before)[i]) {
      OtherLane(env, before, a, lanes[i], FirstUse(env, before)[i]);
    }
  }

  // ----- every routed package app is in exactly one lane -----

  lemma RouteOfPrefix(env: Environment, apps: seq<App>, m: nat, n: nat)
    requires Routable(env, apps) && n < m <= |apps| && IsPackage(apps[n]) && Routable(env, apps[..m])
    ensures RouteAt(env, apps[..m], n) == RouteAt(env, apps, n)
  {
    assert apps[..m][..n + 1] == apps[..n + 1];
  }

  lemma RoutesStep(env: Environment, before: seq<App>, a: App, key: LaneKey)
    requires Routable(env, before + [a]) && Routable(env, before)
    ensures RoutesOf(env, before + [a], key) == RoutesOf(env, before, key) +
      if IsPackage(a) && KeyOf(env, a) == key then [RouteAt(env, before + [a], |before|)] else []
  {
    assert (before + [a])[..|before|] == before;
  }

  lemma {:induction false} RouteListed(env: Environment, apps: seq<App>, m: nat, n: nat)
    requires Routable(env, apps) && n < m <= |apps| && IsPackage(apps[n]) && Routable(env, apps[..m])
    ensures RouteAt(env, apps, n) in RoutesOf(env, apps[..m], KeyOf(env, apps[n]))
  {
    var k := m - 1;
    assert apps[..m] == apps[..k] + [apps[k]];
    RoutesStep(env, apps[..k], apps[k], KeyOf(env, apps[n]));
    if k == n {
      RouteOfPrefix(env, apps, m, n);
    } else {
      RouteListed(env, apps, k, n);
    }
  }

  lemma RouteInLane(env: Environment, apps: seq<App>, key: LaneKey, n: nat)
    requires Routable(env, apps) && n < |apps| && IsPackage(apps[n])
    ensures RouteAt(env, apps, n) in RoutesOf(env, apps, key) <==> KeyOf(env, apps[n]) == key
  {
    assert apps[..|apps|] == apps;
    RouteListed(env, apps, |apps|, n);
    RoutesAre(env, apps, key);
  }

  /** The routes of a lane, in manifest order, are the routes of the apps with its key. */
  lemma {:induction false} RoutesAre(env: Environment, apps: seq<App>, key: LaneKey)
    requires Routable(env, apps)
    ensures forall r :: r in RoutesOf(env, apps, key) ==> IsRouteOf(env, apps, key, r)
    ensures forall i, j :: 0 <= i < j < |RoutesOf(env, apps, key)| ==>
      RoutesOf(env, apps, key)[i].index < RoutesOf(env, apps, key)[j].index
  {
    if apps != [] {
      var last := |apps| - 1;
      RoutesAre(env, apps[..last], key);
      forall r | r in RoutesOf(env, apps[..last], key) ensures IsRouteOf(env, apps, key, r) && r.index < last {
        assert IsRouteOf(env, apps[..last], key, r);
        RouteOfPrefix(env, apps, last, r.index);
      }
    }
  }

  ghost predicate IsRouteOf(env: Environment, apps: seq<App>, key: LaneKey, r: Route)
    requires Routable(env, apps)
  {
    r.index < |apps| && IsPackage(apps[r.index]) && KeyOf(env, apps[r.index]) == key && r == RouteAt(env, apps, r.index)
  }

  ghost predicate OnlyIn(lanes: seq<Lane>, i: nat, r: Route) {
    i < |lanes| && r in lanes[i].routes && forall j :: 0 <= j < |lanes| && r in lanes[j].routes ==> j == i
  }

  /** Each package app's route lies in one lane, the one of its key, and in no other. */
  lemma ExactlyOneLane(env: Environment, apps: seq<App>, lanes: seq<Lane>, n: nat)
    requires Routable(env, apps) && LanesOf(env, apps, lanes) && n < |apps| && IsPackage(apps[n])
    ensures exists i :: 0 <= i < |lanes| && OnlyIn(lanes, i, RouteAt(env, apps, n))
  {
    var keys := FirstUse(env, apps);
    KeysUsed(env, apps);
    var i :| 0 <= i < |keys| && keys[i] == KeyOf(env, apps[n]);
    assert LaneIs(env, apps, lanes[i], keys[i]);
    RouteInLane(env, apps, keys[i], n);
    forall j | 0 <= j < |lanes| && RouteAt(env, apps, n) in lanes[j].routes ensures j == i {
      assert LaneIs(env, apps, lanes[j], keys[j]);
      RouteInLane(env, apps, keys[j], n);
    }
    assert OnlyIn(lanes, i, RouteAt(env, apps, n));
  }

  // ----- the routed apps, position by position -----

  predicate IsRouted(a: App) {
    IsPackage(a) || IsManual(a)
  }

  function Index(r: Routed): nat {
    match r
    case Package(route) => route.index
    case Manual(index, _) => index
  }

  function RoutedAt(env: Environment, apps: seq<App>, n: nat): (r: Routed)
    requires Routable(env, apps) && n < |apps| && IsRouted(apps[n])
    ensures Index(r) == n
  {
    if IsPackage(apps[n]) then Package(RouteAt(env, apps, n)) else Manual(n, apps[n])
  }

  /** The routed apps among the first `n`. */
  function RoutedUpTo(env: Environment, apps: seq<App>, n: nat): seq<Routed>
    requires Routable(env, apps) && n <= |apps|
  {
    if n == 0 then []
    else RoutedUpTo(env, apps, n - 1) + if IsRouted(apps[n - 1]) then [RoutedAt(env, apps, n - 1)] else []
  }

  lemma {:induction false} RoutedOfPrefix(env: Environment, apps: seq<App>, n: nat)
    requires Routable(env, apps) && n <= |apps| && Routable(env, apps[..n])
    ensures RoutedOf(env, apps[..n]) == RoutedUpTo(env, apps, n)
  {
    if n > 0 {
      var k := n - 1;
      var before, whole := apps[..k], apps[..n];
      RoutablePrefix(env, whole, k);
      assert whole == before + [apps[k]] && whole[..k] == before;
      RoutedOfPrefix(env, apps, k);
      RoutedNext(env, before, apps[k]);
      if IsPackage(apps[k]) { RouteOfPrefix(env, apps, n, k); }
    }
  }

  lemma RoutedAll(env: Environment, apps: seq<App>)
    requires Routable(env, apps)
    ensures RoutedOf(env, apps) == RoutedUpTo(env, apps, |apps|)
  {
    assert apps[..|apps|] == apps;
    RoutedOfPrefix(env, apps, |apps|);
  }

  ghost predicate IsRoutedAt(env: Environment, apps: seq<App>, r: Routed, n: nat)
    requires Routable(env, apps) && n <= |apps|
  {
    Index(r) < n && IsRouted(apps[Index(r)]) && r == RoutedAt(env, apps, Index(r))
  }

  ghost predicate InOrder(routed: seq<Routed>) {
    forall i, j :: 0 <= i < j < |routed| ==> Index(routed[i]) < Index(routed[j])
  }

  lemma {:induction false} RoutedUpToAre(env: Environment, apps: seq<App>, n: nat)
    requires Routable(env, apps) && n <= |apps|
    ensures forall r :: r in RoutedUpTo(env, apps, n) ==> IsRoutedAt(env, apps, r, n)
  {
    if n > 0 {
      var before := RoutedUpTo(env, apps, n - 1);
      RoutedUpToAre(env, apps, n - 1);
      forall r | r in RoutedUpTo(env, apps, n) ensures IsRoutedAt(env, apps, r, n) {
        if r in before {
          assert IsRoutedAt(env, apps, r, n - 1);
        } else {
          assert r == RoutedAt(env, apps, n - 1);
        }
      }
    }
  }

  lemma {:induction false} RoutedUpToCovers(env: Environment, apps: seq<App>, n: nat, i: nat)
    requires Routable(env, apps) && i < n <= |apps| && IsRouted(apps[i])
    ensures RoutedAt(env, apps, i) in RoutedUpTo(env, apps, n)
  {
    if i < n - 1 { RoutedUpToCovers(env, apps, n - 1, i); }
  }

  lemma {:induction false} RoutedUpToInOrder(env: Environment, apps: seq<App>, n: nat)
    requires Routable(env, apps) && n <= |apps|
    ensures InOrder(RoutedUpTo(env, apps, n))
  {
    if n > 0 {
      var before := RoutedUpTo(env, apps, n - 1);
      RoutedUpToInOrder(env, apps, n - 1);
      RoutedUpToAre(env, apps, n - 1);
      forall i | 0 <= i < |before| ensures Index(before[i]) < n - 1 {
        assert IsRoutedAt(env, apps, before[i], n - 1);
      }
    }
  }

  /** Routing lists exactly the package and manually verified apps, each once, in manifest order. */
  lemma ManifestOrder(env: Environment, apps: seq<App>)
    requires Routable(env, apps)
    ensures forall r :: r in RoutedOf(env, apps) ==> IsRoutedAt(env, apps, r, |apps|)
    ensures forall i: nat :: i < |apps| && IsRouted(apps[i]) ==> RoutedAt(env, apps, i) in RoutedOf(env, apps)
    ensures InOrder(RoutedOf(env, apps))
  {
    RoutedAll(env, apps);
    RoutedUpToAre(env, apps, |apps|);
    forall i: nat | i < |apps| && IsRouted(apps[i]) ensures RoutedAt(env, apps, i) in RoutedOf(env, apps) {
      RoutedUpToCovers(env, apps, |apps|, i);
    }
    RoutedUpToInOrder(env, apps, |apps|);
  }

  // ----- what a lane's routes share -----

  /** A lane's routes share its error. */
  lemma LaneRoutes(env: Environment, apps: seq<App>, lane: Lane, key: LaneKey)
    requires Routable(env, apps) && LaneIs(env, apps, lane, key)
    ensures forall r :: r in lane.routes ==> IsRouteOf(env, apps, lane.key, r) && r.error == lane.error
  {
    RoutesAre(env, apps, key);
    forall r | r in lane.routes ensures r.error == lane.error {
      assert IsRouteOf(env, apps, key, r);
      RouteOpener(env, apps, key, r);
    }
  }

  lemma RouteOpener(env: Environment, apps: seq<App>, key: LaneKey, r: Route)
    requires Routable(env, apps) && IsRouteOf(env, apps, key, r) && key in FirstUse(env, apps)
    ensures r.error == Opener(env, apps, key).error
  {
    var before := apps[..r.index + 1];
    assert before[r.index] in before;
    KeysUsed(env, before);
    OpenerKept(env, before, apps, key);
  }

  lemma RoutablePrefix(env: Environment, apps: seq<App>, n: nat)
    requires Routable(env, apps) && n <= |apps|
    ensures Routable(env, apps[..n])
  {
    assert forall a :: a in apps[..n] ==> a in apps;
  }

  /** Two lists of apps open the lane of a key alike. */
  ghost predicate SameOpener(env: Environment, a: seq<App>, b: seq<App>, key: LaneKey)
    requires Routable(env, a) && Routable(env, b)
  {
    key in FirstUse(env, a) && key in FirstUse(env, b) && Opener(env, a, key) == Opener(env, b, key)
  }

  lemma OpenerNext(env: Environment, apps: seq<App>, before: seq<App>, key: LaneKey)
    requires apps != [] && before == apps[..|apps| - 1] && Routable(env, apps) && Routable(env, before)
    requires key in FirstUse(env, before)
    ensures SameOpener(env, before, apps, key)
  {
  }

  /** A lane keeps its opener while more apps are routed. */
  lemma {:induction false} OpenerKept(env: Environment, first: seq<App>, apps: seq<App>, key: LaneKey)
    requires first <= apps && Routable(env, first) && Routable(env, apps) && key in FirstUse(env, first)
    ensures SameOpener(env, first, apps, key)
    decreases |apps|
  {
    if |first| < |apps| {
      var before := apps[..|apps| - 1];
      RoutablePrefix(env, apps, |apps| - 1);
      OpenerKept(env, first, before, key);
      OpenerNext(env, apps, before, key);
    } else {
      assert first == apps;
    }
  }

  /** Only winget lanes carry a source, and they always do. */
  lemma SourceOnlyForWinget(env: Environment, a: App)
    requires !NeedsMissingDefault(env, a) && IsPackage(a)
    ensures KeyOf(env, a).source != "" <==> KeyOf(env, a).name == "winget"
  {
    assert "msstore" != "" && "winget" != "";
  }

  // ----- counting -----

  /** How many elements satisfy `p`, independently of any loop that counts them. */
  ghost function Count<T>(s: seq<T>, p: T -> bool): nat {
    if s == [] then 0 else Count(s[1..], p) + if p(s[0]) then 1 else 0
  }

  lemma {:induction false} CountNext<T>(s: seq<T>, x: T, p: T -> bool)
    ensures Count(s + [x], p) == Count(s, p) + if p(x) then 1 else 0
  {
    if s != [] {
      assert (s + [x])[1..] == s[1..] + [x];
      CountNext(s[1..], x, p);
    }
  }
}
