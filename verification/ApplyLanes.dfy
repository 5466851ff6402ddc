/** Applying package lanes: the plan, apply and verify loops over the routed apps. Each branch of a loop
  * keeps its own counter; the counters are proved against what the entries finally say. */
module ApplyLanes {
  import opened ConfigPlan
  import opened DriverLanes
  import opened LaneDetection
  import opened Text

  datatype Flags = Flags(dryRun: bool, repin: bool, confirm: bool)

  datatype State = Present | ToInstall | Installed | Skipped | Failed | Other(name: string)

  /** One planned entry; `repin` marks a present app whose version is to be changed. */
  datatype Entry = Entry(routed: Routed, state: State, repin: bool)

  // ----- what each phase owes an app -----

  /** What a lane's detection says about one of its apps; `None` is a failed detection. */
  function Seen(env: Environment, apps: seq<App>, h: Host, r: Route): Option<Observed>
    requires Routable(env, apps)
  {
    Sighting(h, LaneDetectionOf(env, apps, h, r.key), r)
  }

  function Sighting(h: Host, lane: Detection, r: Route): Option<Observed> {
    var found := DetectOne(h, r.key, r.key.source != "", lane, r.app.ref);
    if found.None? then None else Some(Observe(found.value, r.app, h.inventory))
  }

  /** Planning compares with an authored version; verification asks for one that is not blank. */
  predicate PlansRepin(a: App, o: Observed) {
    o.present && a.version != "" && o.version != "" && o.version != TrimSpace(a.version)
  }

  predicate Drifted(a: App, o: Observed) {
    o.present && TrimSpace(a.version) != "" && o.version != "" && o.version != TrimSpace(a.version)
  }

  function PlannedState(r: Route, seen: Option<Observed>): State {
    if r.error then (if r.failed then State.Failed else State.Skipped)
    else if seen.None? then State.Failed
    else if seen.value.present then Present else ToInstall
  }

  function PlanEntry(env: Environment, apps: seq<App>, h: Host, repin: bool, r: Routed): Entry
    requires Routable(env, apps)
  {
    match r
    case Manual(_, a) => Entry(r, if h.verified(a) then Present else ToInstall, false)
    case Package(route) =>
      var seen := Seen(env, apps, h, route);
      var state := PlannedState(route, seen);
      Entry(r, state, repin && state == Present && PlansRepin(route.app, seen.value))
  }

  function EntriesOf(env: Environment, apps: seq<App>, h: Host, repin: bool, routed: seq<Routed>): seq<Entry>
    requires Routable(env, apps)
  {
    seq(|routed|, i requires 0 <= i < |routed| => PlanEntry(env, apps, h, repin, routed[i]))
  }

  function VerifiedState(env: Environment, apps: seq<App>, h: Host, r: Routed): State
    requires Routable(env, apps)
  {
    match r
    case Manual(_, a) => if h.verified(a) then Present else State.Failed
    case Package(route) =>
      var seen := Seen(env, apps, h, route);
      if route.error then (if route.failed then State.Failed else State.Skipped)
      else if seen.None? || Drifted(route.app, seen.value) || !seen.value.present then State.Failed
      else Present
  }

  // ----- plan -----

  datatype PlanCounts = PlanCounts(present: nat, install: nat, skipped: nat, failed: nat)
  {
    function Total(): nat { present + install + skipped + failed }
  }

  predicate IsPresent(e: Entry) { e.state == Present }
  predicate IsToInstall(e: Entry) { e.state == ToInstall }
  predicate IsSkipped(e: Entry) { e.state == State.Skipped }
  predicate IsFailed(e: Entry) { e.state == State.Failed }

  ghost predicate PlanCounted(entries: seq<Entry>, c: PlanCounts) {
    && c.present == Count(entries, IsPresent) && c.install == Count(entries, IsToInstall)
    && c.skipped == Count(entries, IsSkipped) && c.failed == Count(entries, IsFailed)
  }

  lemma PlanCountedNext(entries: seq<Entry>, c: PlanCounts, e: Entry)
    requires PlanCounted(entries, c)
    ensures e.state == Present ==> PlanCounted(entries + [e], c.(present := c.present + 1))
    ensures e.state == ToInstall ==> PlanCounted(entries + [e], c.(install := c.install + 1))
    ensures e.state == State.Skipped ==> PlanCounted(entries + [e], c.(skipped := c.skipped + 1))
    ensures e.state == State.Failed ==> PlanCounted(entries + [e], c.(failed := c.failed + 1))
  {
    CountNext(entries, e, IsPresent);
    CountNext(entries, e, IsToInstall);
    CountNext(entries, e, IsSkipped);
    CountNext(entries, e, IsFailed);
  }

  ghost function Indices(routed: seq<Routed>): set<nat> {
    set r | r in routed :: Index(r)
  }

  ghost predicate ByIndex(routed: seq<Routed>, byIndex: map<nat, Routed>) {
    byIndex.Keys == Indices(routed) && forall i :: i in byIndex ==> byIndex[i] in routed && Index(byIndex[i]) == i
  }

  /** The routes are scattered by app index. */
  method Scatter(routed: seq<Routed>) returns (byIndex: map<nat, Routed>)
    ensures ByIndex(routed, byIndex)
  {
    byIndex := map[];
    for n := 0 to |routed|
      invariant ByIndex(routed[..n], byIndex)
    {
      assert routed[..n + 1] == routed[..n] + [routed[n]];
      byIndex := byIndex[Index(routed[n]) := routed[n]];
    }
    assert routed[..|routed|] == routed;
  }

  /** What the loop finds for app `i`: its own route, and the detection of that route's lane. */
  ghost predicate ReadyAt(env: Environment, apps: seq<App>, h: Host, detections: map<LaneKey, Detection>, i: nat,
    r: Routed)
    requires Routable(env, apps)
  {
    && i < |apps| && IsRouted(apps[i]) && r == RoutedAt(env, apps, i)
    && (r.Package? && !r.route.error ==> DetectedFor(env, apps, h, detections, r.route))
  }

  /** App `n` is in the index exactly when it is routed, and then with what the loop needs. */
  ghost predicate ReadyFor(env: Environment, apps: seq<App>, h: Host, byIndex: map<nat, Routed>,
    detections: map<LaneKey, Detection>, n: nat)
    requires Routable(env, apps) && n < |apps|
  {
    (n in byIndex <==> IsRouted(apps[n])) && (n in byIndex ==> ReadyAt(env, apps, h, detections, n, byIndex[n]))
  }

  ghost predicate Ready(env: Environment, apps: seq<App>, h: Host, byIndex: map<nat, Routed>,
    detections: map<LaneKey, Detection>)
    requires Routable(env, apps)
  {
    forall n: nat :: n < |apps| ==> ReadyFor(env, apps, h, byIndex, detections, n)
  }

  /** The entries and counters after the first `n` apps of the manifest. */
  ghost predicate PlannedUpTo(env: Environment, apps: seq<App>, h: Host, repin: bool, n: nat,
    entries: seq<Entry>, c: PlanCounts)
    requires Routable(env, apps) && n <= |apps|
  {
    && entries == EntriesOf(env, apps, h, repin, RoutedUpTo(env, apps, n))
    && PlanCounted(entries, c) && c.Total() == |entries|
  }

  lemma NonePlanned(env: Environment, apps: seq<App>, h: Host, repin: bool)
    requires Routable(env, apps)
    ensures PlannedUpTo(env, apps, h, repin, 0, [], PlanCounts(0, 0, 0, 0))
  {
  }

  lemma OneMorePlanned(env: Environment, apps: seq<App>, h: Host, repin: bool, n: nat, entries: seq<Entry>,
    c: PlanCounts, counts: PlanCounts)
    requires Routable(env, apps) && n < |apps| && IsRouted(apps[n])
    requires PlannedUpTo(env, apps, h, repin, n, entries, c)
    requires var more := entries + [PlanEntry(env, apps, h, repin, RoutedAt(env, apps, n))];
      PlanCounted(more, counts) && counts.Total() == c.Total() + 1
    ensures PlannedUpTo(env, apps, h, repin, n + 1,
      entries + [PlanEntry(env, apps, h, repin, RoutedAt(env, apps, n))], counts)
  {
  }

  lemma NotRouted(env: Environment, apps: seq<App>, h: Host, repin: bool, n: nat, entries: seq<Entry>, c: PlanCounts)
    requires Routable(env, apps) && n < |apps| && !IsRouted(apps[n])
    requires PlannedUpTo(env, apps, h, repin, n, entries, c)
    ensures PlannedUpTo(env, apps, h, repin, n + 1, entries, c)
  {
    var routed := RoutedUpTo(env, apps, n);
    assert routed + [] == routed;
  }

  lemma AllPlanned(env: Environment, apps: seq<App>, h: Host, repin: bool, entries: seq<Entry>, c: PlanCounts)
    requires Routable(env, apps) && PlannedUpTo(env, apps, h, repin, |apps|, entries, c)
    ensures entries == EntriesOf(env, apps, h, repin, RoutedOf(env, apps))
    ensures PlanCounted(entries, c) && c.Total() == |RoutedOf(env, apps)|
  {
    RoutedAll(env, apps);
  }

  /** The plan loop: it walks the manifest, looks every app up by index and counts in its branches. */
  method Plan(env: Environment, apps: seq<App>, h: Host, repin: bool, byIndex: map<nat, Routed>,
    detections: map<LaneKey, Detection>)
    returns (entries: seq<Entry>, c: PlanCounts)
    requires Routable(env, apps) && Ready(env, apps, h, byIndex, detections)
    ensures entries == EntriesOf(env, apps, h, repin, RoutedOf(env, apps))
    ensures PlanCounted(entries, c) && c.Total() == |RoutedOf(env, apps)|
  {
    entries, c := [], PlanCounts(0, 0, 0, 0);
    NonePlanned(env, apps, h, repin);
    var n: nat := 0;
    while n < |apps|
      invariant n <= |apps| && PlannedUpTo(env, apps, h, repin, n, entries, c)
    {
      entries, c := PlanStep(env, apps, h, repin, byIndex, detections, n, entries, c);
      n := n + 1;
    }
    AllPlanned(env, apps, h, repin, entries, c);
  }

  /** One turn of the loop. */
  method PlanStep(env: Environment, ghost apps: seq<App>, h: Host, repin: bool, byIndex: map<nat, Routed>,
    detections: map<LaneKey, Detection>, n: nat, entries: seq<Entry>, c: PlanCounts)
    returns (more: seq<Entry>, counts: PlanCounts)
    requires Routable(env, apps) && n < |apps| && ReadyFor(env, apps, h, byIndex, detections, n)
    requires PlannedUpTo(env, apps, h, repin, n, entries, c)
    ensures PlannedUpTo(env, apps, h, repin, n + 1, more, counts)
  {
    if n in byIndex {
      var entry;
      entry, counts := PlanApp(env, apps, h, repin, byIndex[n], detections, entries, c);
      more := entries + [entry];
      OneMorePlanned(env, apps, h, repin, n, entries, c, counts);
    } else {
      more, counts := entries, c;
      NotRouted(env, apps, h, repin, n, entries, c);
    }
  }

  ghost predicate DetectedFor(env: Environment, apps: seq<App>, h: Host, detections: map<LaneKey, Detection>, r: Route)
    requires Routable(env, apps)
  {
    r.key in detections && detections[r.key] == LaneDetectionOf(env, apps, h, r.key)
  }

  method PlanApp(env: Environment, ghost apps: seq<App>, h: Host, repin: bool, r: Routed,
    detections: map<LaneKey, Detection>, ghost entries: seq<Entry>, c: PlanCounts)
    returns (entry: Entry, counts: PlanCounts)
    requires Routable(env, apps) && PlanCounted(entries, c)
    requires r.Package? && !r.route.error ==> DetectedFor(env, apps, h, detections, r.route)
    ensures entry == PlanEntry(env, apps, h, repin, r)
    ensures PlanCounted(entries + [entry], counts) && counts.Total() == c.Total() + 1
  {
    entry, counts := Entry(r, Present, false), c;
    if r.Manual? {
      if h.verified(r.app) {
        counts := counts.(present := counts.present + 1);
      } else {
        entry := entry.(state := ToInstall);
        counts := counts.(install := counts.install + 1);
      }
    } else if r.route.error {
      if r.route.failed {
        entry := entry.(state := State.Failed);
        counts := counts.(failed := counts.failed + 1);
      } else {
        entry := entry.(state := State.Skipped);
        counts := counts.(skipped := counts.skipped + 1);
      }
    } else {
      var seen := Sighting(h, detections[r.route.key], r.route);
      if seen.None? {
        entry := entry.(state := State.Failed);
        counts := counts.(failed := counts.failed + 1);
      } else if seen.value.present {
        if repin && PlansRepin(r.route.app, seen.value) {
          entry := entry.(repin := true);
        }
        counts := counts.(present := counts.present + 1);
      } else {
        entry := entry.(state := ToInstall);
        counts := counts.(install := counts.install + 1);
      }
    }
    PlanCountedNext(entries, c, entry);
  }

  /** What scattering and detection deliver is what the loop needs. */
  lemma IsReady(env: Environment, apps: seq<App>, h: Host, byIndex: map<nat, Routed>,
    detections: map<LaneKey, Detection>)
    requires Routable(env, apps) && ByIndex(RoutedOf(env, apps), byIndex)
    requires forall key :: key in FirstUse(env, apps) ==> key in detections
    requires forall key :: key in detections ==>
      key in FirstUse(env, apps) && Detects(env, apps, h, key, detections[key])
    ensures Ready(env, apps, h, byIndex, detections)
  {
    ManifestOrder(env, apps);
    RoutedReady(env, apps, h, detections);
    forall n: nat | n < |apps| ensures ReadyFor(env, apps, h, byIndex, detections, n) {
      if n in byIndex {
        assert ReadyAt(env, apps, h, detections, Index(byIndex[n]), byIndex[n]);
      }
    }
  }

  lemma RouteDetected(env: Environment, apps: seq<App>, h: Host, detections: map<LaneKey, Detection>, i: nat)
    requires Routable(env, apps) && i < |apps| && IsPackage(apps[i]) && !RouteAt(env, apps, i).error
    requires forall key :: key in FirstUse(env, apps) ==> key in detections
    requires forall key :: key in detections ==>
      key in FirstUse(env, apps) && Detects(env, apps, h, key, detections[key])
    ensures DetectedFor(env, apps, h, detections, RouteAt(env, apps, i))
  {
    var r := RouteAt(env, apps, i);
    KeysUsed(env, apps);
    assert apps[i] in apps;
    assert IsRouteOf(env, apps, r.key, r);
    RouteOpener(env, apps, r.key, r);
    assert Detects(env, apps, h, r.key, detections[r.key]);
  }

  // ----- apply -----

  /** What a driver answers to one attempted installation. */
  datatype Answer = Broken | Reported(state: State)

  datatype Request =
    | Reinstall(version: string, source: Option<string>)
    | Install(pin: Option<string>, source: Option<string>)

  datatype Call = Call(index: nat, request: Request)

  /** One entry after its turn; `asked` says its driver was asked to change the machine. */
  datatype Applied = Applied(entry: Entry, state: State, asked: bool)

  datatype Tally = Tally(success: nat, skipped: nat, failed: nat)
  {
    function Total(): nat { success + skipped + failed }
  }

  /** The entries planning produces: only a present package is re-pinned, and a manual app is present or missing. */
  predicate WellPlanned(e: Entry) {
    && e.state in {Present, ToInstall, State.Skipped, State.Failed}
    && (e.repin ==> e.state == Present && e.routed.Package?)
    && (e.routed.Manual? ==> e.state in {Present, ToInstall})
  }

  predicate Asks(h: Host, e: Entry, confirm: bool) {
    e.routed.Package? && if e.repin then confirm && h.can(e.routed.route.key, Versioned) else e.state == ToInstall
  }

  function RequestFor(h: Host, e: Entry): Request
    requires e.routed.Package?
  {
    var key, version := e.routed.route.key, e.routed.route.app.version;
    var source := if key.source != "" then Some(key.source) else None;
    if e.repin then Reinstall(version, if h.can(key, VersionedBySource) then source else None)
    else if version != "" && source.Some? && h.can(key, VersionedBySource) then Install(Some(version), source)
    else if version != "" && h.can(key, Versioned) then Install(Some(version), None)
    else Install(None, if h.can(key, BySource) then source else None)
  }

  /** How an entry ends, given what its driver would answer. */
  function Settled(h: Host, e: Entry, confirm: bool, answer: Answer): Applied {
    var state :=
      if Asks(h, e, confirm) then (if answer.Broken? then State.Failed else answer.state)
      else if e.routed.Manual? && e.state != Present then State.Skipped else e.state;
    Applied(e, state, Asks(h, e, confirm))
  }

  // What a counter stands for, told from the final state of an entry alone.

  predicate Succeeded(d: Applied) {
    d.state == Installed || (d.entry.routed.Manual? && d.state == Present)
  }

  predicate Unsuccessful(d: Applied) {
    !Succeeded(d) && (d.state == State.Failed || (d.asked && (d.entry.repin || d.state != Present)))
  }

  predicate PassedOver(d: Applied) {
    !Succeeded(d) && !Unsuccessful(d)
  }

  ghost predicate Tallied(done: seq<Applied>, t: Tally) {
    && t.success == Count(done, Succeeded) && t.skipped == Count(done, PassedOver)
    && t.failed == Count(done, Unsuccessful)
  }

  lemma TalliedNext(done: seq<Applied>, t: Tally, d: Applied)
    requires Tallied(done, t)
    ensures Succeeded(d) ==> Tallied(done + [d], t.(success := t.success + 1))
    ensures PassedOver(d) ==> Tallied(done + [d], t.(skipped := t.skipped + 1))
    ensures Unsuccessful(d) ==> Tallied(done + [d], t.(failed := t.failed + 1))
  {
    CountNext(done, d, Succeeded);
    CountNext(done, d, PassedOver);
    CountNext(done, d, Unsuccessful);
  }

  function SettledUpTo(h: Host, entries: seq<Entry>, confirm: bool, answers: nat -> Answer, n: nat)
    : (done: seq<Applied>)
    requires n <= |entries|
    ensures |done| == n
  {
    if n == 0 then []
    else SettledUpTo(h, entries, confirm, answers, n - 1) + [Settled(h, entries[n - 1], confirm, answers(n - 1))]
  }

  function CallFor(h: Host, e: Entry, confirm: bool): seq<Call> {
    if Asks(h, e, confirm) then [Call(Index(e.routed), RequestFor(h, e))] else []
  }

  /** The requests that reach a driver: one for each entry that asks, in order. */
  function CallsUpTo(h: Host, entries: seq<Entry>, confirm: bool, n: nat): seq<Call>
    requires n <= |entries|
  {
    if n == 0 then [] else CallsUpTo(h, entries, confirm, n - 1) + CallFor(h, entries[n - 1], confirm)
  }

  /** The apply loop. `answers` are the drivers' answers, should they be asked. */
  method Apply(h: Host, entries: seq<Entry>, confirm: bool, answers: nat -> Answer)
    returns (done: seq<Applied>, t: Tally, calls: seq<Call>)
    requires forall e :: e in entries ==> WellPlanned(e)
    ensures done == SettledUpTo(h, entries, confirm, answers, |entries|)
    ensures calls == CallsUpTo(h, entries, confirm, |entries|)
    ensures Tallied(done, t) && t.Total() == |entries|
  {
    done, t, calls := [], Tally(0, 0, 0), [];
    for n := 0 to |entries|
      invariant AppliedSoFar(h, entries, confirm, answers, n, done, calls)
      invariant Tallied(done, t) && t.Total() == n
    {
      var d, call;
      assert entries[n] in entries;
      d, t, call := ApplyOne(h, entries[n], confirm, answers(n), done, t);
      AppliedNext(h, entries, confirm, answers, n, done, calls);
      done := done + [d];
      calls := calls + call;
    }
  }

  ghost predicate AppliedSoFar(h: Host, entries: seq<Entry>, confirm: bool, answers: nat -> Answer, n: nat,
    done: seq<Applied>, calls: seq<Call>)
    requires n <= |entries|
  {
    done == SettledUpTo(h, entries, confirm, answers, n) && calls == CallsUpTo(h, entries, confirm, n)
  }

  lemma AppliedNext(h: Host, entries: seq<Entry>, confirm: bool, answers: nat -> Answer, n: nat,
    done: seq<Applied>, calls: seq<Call>)
    requires n < |entries| && AppliedSoFar(h, entries, confirm, answers, n, done, calls)
    ensures AppliedSoFar(h, entries, confirm, answers, n + 1,
      done + [Settled(h, entries[n], confirm, answers(n))], calls + CallFor(h, entries[n], confirm))
  {
  }

  method ApplyOne(h: Host, e: Entry, confirm: bool, answer: Answer, ghost done: seq<Applied>, t: Tally)
    returns (d: Applied, tally: Tally, call: seq<Call>)
    requires WellPlanned(e) && Tallied(done, t)
    ensures d == Settled(h, e, confirm, answer)
    ensures call == CallFor(h, e, confirm)
    ensures Tallied(done + [d], tally) && tally.Total() == t.Total() + 1
  {
    d, tally, call := Applied(e, e.state, false), t, [];
    if e.routed.Manual? {
      if e.state == Present {
        tally := tally.(success := tally.success + 1);
      } else {
        d := d.(state := State.Skipped);
        tally := tally.(skipped := tally.skipped + 1);
      }
    } else if e.state == State.Skipped {
      tally := tally.(skipped := tally.skipped + 1);
    } else if e.state == State.Failed {
      tally := tally.(failed := tally.failed + 1);
    } else if e.repin {
      if !confirm || !h.can(e.routed.route.key, Versioned) {
        tally := tally.(skipped := tally.skipped + 1);
      } else {
        call := [Call(Index(e.routed), RequestFor(h, e))];
        if answer.Broken? {
          d := Applied(e, State.Failed, true);
          tally := tally.(failed := tally.failed + 1);
        } else {
          d := Applied(e, answer.state, true);
          if answer.state == Installed {
            tally := tally.(success := tally.success + 1);
          } else {
            tally := tally.(failed := tally.failed + 1);
          }
        }
      }
    } else if e.state != ToInstall {
      tally := tally.(skipped := tally.skipped + 1);
    } else {
      call := [Call(Index(e.routed), RequestFor(h, e))];
      if answer.Broken? {
        d := Applied(e, State.Failed, true);
        tally := tally.(failed := tally.failed + 1);
      } else {
        d := Applied(e, answer.state, true);
        match answer.state {
          case Installed => tally := tally.(success := tally.success + 1);
          case Present => tally := tally.(skipped := tally.skipped + 1);
          case _ => tally := tally.(failed := tally.failed + 1);
        }
      }
    }
    TalliedNext(done, t, d);
  }

  // ----- verify -----

  predicate Passes(s: State) { s == Present }
  predicate PassesOver(s: State) { s == State.Skipped }
  predicate Fails(s: State) { s == State.Failed }

  ghost predicate VerifyTallied(states: seq<State>, t: Tally) {
    && t.success == Count(states, Passes) && t.skipped == Count(states, PassesOver)
    && t.failed == Count(states, Fails)
  }

  lemma VerifyTalliedNext(states: seq<State>, t: Tally, s: State)
    requires VerifyTallied(states, t)
    ensures Passes(s) ==> VerifyTallied(states + [s], t.(success := t.success + 1))
    ensures PassesOver(s) ==> VerifyTallied(states + [s], t.(skipped := t.skipped + 1))
    ensures Fails(s) ==> VerifyTallied(states + [s], t.(failed := t.failed + 1))
  {
    CountNext(states, s, Passes);
    CountNext(states, s, PassesOver);
    CountNext(states, s, Fails);
  }

  function VerifiedUpTo(env: Environment, apps: seq<App>, h: Host, routed: seq<Routed>, n: nat): (states: seq<State>)
    requires Routable(env, apps) && n <= |routed|
    ensures |states| == n
  {
    if n == 0 then []
    else VerifiedUpTo(env, apps, h, routed, n - 1) + [VerifiedState(env, apps, h, routed[n - 1])]
  }

  ghost predicate AllDetected(env: Environment, apps: seq<App>, h: Host, routed: seq<Routed>,
    detections: map<LaneKey, Detection>)
    requires Routable(env, apps)
  {
    forall r :: r in routed ==> ReadyAt(env, apps, h, detections, Index(r), r)
  }

  /** The verify loop over the planned entries, with a fresh detection. */
  method Verify(env: Environment, ghost apps: seq<App>, h: Host, routed: seq<Routed>,
    detections: map<LaneKey, Detection>)
    returns (states: seq<State>, t: Tally)
    requires Routable(env, apps) && AllDetected(env, apps, h, routed, detections)
    ensures states == VerifiedUpTo(env, apps, h, routed, |routed|)
    ensures VerifyTallied(states, t) && t.Total() == |routed|
  {
    states, t := [], Tally(0, 0, 0);
    for n := 0 to |routed|
      invariant states == VerifiedUpTo(env, apps, h, routed, n)
      invariant VerifyTallied(states, t) && t.Total() == n
    {
      assert ReadyAt(env, apps, h, detections, Index(routed[n]), routed[n]);
      var s;
      s, t := VerifyOne(env, apps, h, routed[n], detections, states, t);
      states := states + [s];
    }
  }

  method VerifyOne(env: Environment, ghost apps: seq<App>, h: Host, r: Routed, detections: map<LaneKey, Detection>,
    ghost states: seq<State>, t: Tally)
    returns (s: State, tally: Tally)
    requires Routable(env, apps) && VerifyTallied(states, t)
    requires r.Package? && !r.route.error ==> DetectedFor(env, apps, h, detections, r.route)
    ensures s == VerifiedState(env, apps, h, r)
    ensures VerifyTallied(states + [s], tally) && tally.Total() == t.Total() + 1
  {
    s, tally := State.Failed, t;
    if r.Manual? {
      if h.verified(r.app) {
        s := Present;
        tally := tally.(success := tally.success + 1);
      } else {
        tally := tally.(failed := tally.failed + 1);
      }
    } else if r.route.error {
      if r.route.failed {
        tally := tally.(failed := tally.failed + 1);
      } else {
        s := State.Skipped;
        tally := tally.(skipped := tally.skipped + 1);
      }
    } else {
      var seen := Sighting(h, detections[r.route.key], r.route);
      if seen.None? {
        tally := tally.(failed := tally.failed + 1);
      } else if Drifted(r.route.app, seen.value) {
        tally := tally.(failed := tally.failed + 1);
      } else if seen.value.present {
        s := Present;
        tally := tally.(success := tally.success + 1);
      } else {
        tally := tally.(failed := tally.failed + 1);
      }
    }
    VerifyTalliedNext(states, t, s);
  }

  // ----- the whole command -----

  datatype Report =
    | NoDriver
    | Preview(entries: seq<Entry>, plan: PlanCounts)
    | Unconfirmed(calls: seq<Call>)
    | Complete(entries: seq<Entry>, plan: PlanCounts, done: seq<Applied>, applied: Tally, calls: seq<Call>,
        states: seq<State>, verified: Tally)

  /** What verification sees: the registry of installed programs is read again only after a request. */
  function HostToVerify(before: Host, after: Host, calls: seq<Call>): Host {
    if calls == [] then after.(inventory := before.inventory) else after
  }

  ghost predicate Applies(env: Environment, apps: seq<App>, before: Host, flags: Flags, answers: nat -> Answer,
    done: seq<Applied>, t: Tally, calls: seq<Call>)
    requires Routable(env, apps)
  {
    var entries := EntriesOf(env, apps, before, flags.repin, RoutedOf(env, apps));
    && done == SettledUpTo(before, entries, flags.confirm, answers, |entries|)
    && calls == CallsUpTo(before, entries, flags.confirm, |entries|)
    && Tallied(done, t) && t.Total() == |RoutedOf(env, apps)|
  }

  ghost predicate Plans(env: Environment, apps: seq<App>, h: Host, repin: bool, entries: seq<Entry>, c: PlanCounts)
    requires Routable(env, apps)
  {
    && entries == EntriesOf(env, apps, h, repin, RoutedOf(env, apps))
    && PlanCounted(entries, c) && c.Total() == |RoutedOf(env, apps)|
  }

  ghost predicate Verifies(env: Environment, apps: seq<App>, h: Host, states: seq<State>, t: Tally)
    requires Routable(env, apps)
  {
    && states == VerifiedUpTo(env, apps, h, RoutedOf(env, apps), |RoutedOf(env, apps)|)
    && VerifyTallied(states, t) && t.Total() == |RoutedOf(env, apps)|
  }

  /** Every way out of the command. */
  ghost predicate IsReport(flags: Flags, env: Environment, apps: seq<App>, before: Host, after: Host,
    answers: nat -> Answer, r: Report)
  {
    match r
    case NoDriver => !Routable(env, apps)
    case Preview(entries, plan) =>
      Routable(env, apps) && flags.dryRun && Plans(env, apps, before, flags.repin, entries, plan)
    case Unconfirmed(calls) =>
      && Routable(env, apps) && !flags.dryRun && flags.repin && !flags.confirm
      && exists done, t :: Applies(env, apps, before, flags, answers, done, t, calls)
    case Complete(entries, plan, done, applied, calls, states, verified) =>
      && Routable(env, apps) && !flags.dryRun && (flags.repin ==> flags.confirm)
      && Plans(env, apps, before, flags.repin, entries, plan)
      && Applies(env, apps, before, flags, answers, done, applied, calls)
      && Verifies(env, apps, HostToVerify(before, after, calls), states, verified)
  }

  /** Plan, apply and verify each account for every routed app once, in manifest order. A re-pin that
    * was not confirmed is refused only after the missing apps were installed. */
  method Run(flags: Flags, env: Environment, apps: seq<App>, before: Host, after: Host, answers: nat -> Answer)
    returns (r: Report)
    ensures IsReport(flags, env, apps, before, after, answers, r)
  {
    var result := RouteApps(env, apps);
    if result.None? {
      return NoDriver;
    }
    var (lanes, routed) := result.value;
    var byIndex := Scatter(routed);
    var detections := DetectLanes(env, apps, before, lanes);
    IsReady(env, apps, before, byIndex, detections);
    var entries, plan := Plan(env, apps, before, flags.repin, byIndex, detections);
    if flags.dryRun {
      return Preview(entries, plan);
    }
    EntriesWellPlanned(env, apps, before, flags.repin, routed);
    var done, applied, calls := Apply(before, entries, flags.confirm, answers);
    if flags.repin && !flags.confirm {
      assert Applies(env, apps, before, flags, answers, done, applied, calls);
      return Unconfirmed(calls);
    }
    var states, verified := DetectAndVerify(env, apps, HostToVerify(before, after, calls), lanes, routed);
    return Complete(entries, plan, done, applied, calls, states, verified);
  }

  lemma EntriesWellPlanned(env: Environment, apps: seq<App>, h: Host, repin: bool, routed: seq<Routed>)
    requires Routable(env, apps)
    ensures forall e :: e in EntriesOf(env, apps, h, repin, routed) ==> WellPlanned(e)
  {
  }

  method DetectAndVerify(env: Environment, apps: seq<App>, h: Host, lanes: seq<Lane>, routed: seq<Routed>)
    returns (states: seq<State>, t: Tally)
    requires Routable(env, apps) && LanesOf(env, apps, lanes) && routed == RoutedOf(env, apps)
    ensures Verifies(env, apps, h, states, t)
  {
    var detections := DetectLanes(env, apps, h, lanes);
    RoutedReady(env, apps, h, detections);
    states, t := Verify(env, apps, h, routed, detections);
  }

  lemma RoutedReady(env: Environment, apps: seq<App>, h: Host, detections: map<LaneKey, Detection>)
    requires Routable(env, apps)
    requires forall key :: key in FirstUse(env, apps) ==> key in detections
    requires forall key :: key in detections ==>
      key in FirstUse(env, apps) && Detects(env, apps, h, key, detections[key])
    ensures AllDetected(env, apps, h, RoutedOf(env, apps), detections)
  {
    ManifestOrder(env, apps);
    forall r | r in RoutedOf(env, apps) ensures ReadyAt(env, apps, h, detections, Index(r), r) {
      assert IsRoutedAt(env, apps, r, |apps|);
      if r.Package? && !r.route.error {
        RouteDetected(env, apps, h, detections, Index(r));
      }
    }
  }
}
