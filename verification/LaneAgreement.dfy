/** What the phases over package lanes say about each other: the plan command and the plan phase agree,
  * verification of an untouched machine restates its plan, and what verifies is not applied again. */
module LaneAgreement {
  import opened ConfigPlan
  import opened DriverLanes
  import opened LaneDetection
  import opened Text
  import opened ApplyLanes
  import LanePlan

  // ----- the plan command and the plan phase -----

  /** An action of the plan command and an entry of the plan phase say the same of one app. */
  predicate SameClass(a: LanePlan.Action, e: Entry) {
    && (LanePlan.IsPresent(a) <==> IsPresent(e))
    && (LanePlan.IsToInstall(a) <==> IsToInstall(e))
    && (LanePlan.IsSkipped(a) <==> IsSkipped(e) || IsFailed(e))
  }

  /** The two commands choose their question differently, by lane name and by source, and still agree. */
  lemma AppAgrees(env: Environment, apps: seq<App>, h: Host, repin: bool, r: Routed)
    requires Routable(env, apps) && IsRoutedAt(env, apps, r, |apps|)
    ensures SameClass(LanePlan.ActionFor(env, apps, h, r), PlanEntry(env, apps, h, repin, r))
  {
    if r.Package? {
      SourceOnlyForWinget(env, r.route.app);
      SameQuestion(env, apps, h, r.route);
    }
  }

  lemma SameQuestion(env: Environment, apps: seq<App>, h: Host, r: Route)
    requires Routable(env, apps) && (r.key.source != "" <==> r.key.name == "winget")
    ensures LanePlan.PlanDetected(h, r.key, Refs(RoutesOf(env, apps, r.key)), r.app.ref) ==
      DetectOne(h, r.key, r.key.source != "", LaneDetectionOf(env, apps, h, r.key), r.app.ref)
  {
  }

  lemma {:induction false} CountAgrees<S, T>(s: seq<S>, t: seq<T>, p: S -> bool, q: T -> bool)
    requires |s| == |t| && forall i :: 0 <= i < |s| ==> (p(s[i]) <==> q(t[i]))
    ensures Count(s, p) == Count(t, q)
  {
    if s != [] { CountAgrees(s[1..], t[1..], p, q); }
  }

  lemma {:induction false} CountEither<S, T>(s: seq<S>, t: seq<T>, p: S -> bool, q: T -> bool, r: T -> bool)
    requires |s| == |t| && forall i :: 0 <= i < |s| ==> (p(s[i]) <==> q(t[i]) || r(t[i])) && !(q(t[i]) && r(t[i]))
    ensures Count(s, p) == Count(t, q) + Count(t, r)
  {
    if s != [] { CountEither(s[1..], t[1..], p, q, r); }
  }

  /** On one machine the plan command announces what the plan phase of apply then plans. */
  lemma PlanCommandAgrees(env: Environment, apps: seq<App>, h: Host, repin: bool)
    requires Routable(env, apps)
    ensures var routed := RoutedOf(env, apps);
      var actions, entries := LanePlan.ActionsFor(env, apps, h, routed), EntriesOf(env, apps, h, repin, routed);
      && (forall i :: 0 <= i < |routed| ==> SameClass(actions[i], entries[i]))
      && Count(actions, LanePlan.IsPresent) == Count(entries, IsPresent)
      && Count(actions, LanePlan.IsToInstall) == Count(entries, IsToInstall)
      && Count(actions, LanePlan.IsSkipped) == Count(entries, IsSkipped) + Count(entries, IsFailed)
  {
    var routed := RoutedOf(env, apps);
    var actions, entries := LanePlan.ActionsFor(env, apps, h, routed), EntriesOf(env, apps, h, repin, routed);
    ManifestOrder(env, apps);
    forall i | 0 <= i < |routed| ensures SameClass(actions[i], entries[i]) {
      assert IsRoutedAt(env, apps, routed[i], |apps|);
      AppAgrees(env, apps, h, repin, routed[i]);
    }
    CountAgrees(actions, entries, LanePlan.IsPresent, IsPresent);
    CountAgrees(actions, entries, LanePlan.IsToInstall, IsToInstall);
    CountEither(actions, entries, LanePlan.IsSkipped, IsSkipped, IsFailed);
  }

  // ----- plan and verification -----

  predicate HasDrifted(env: Environment, apps: seq<App>, h: Host, r: Routed)
    requires Routable(env, apps)
  {
    r.Package? && !r.route.error &&
    var seen := Seen(env, apps, h, r.route);
    seen.Some? && Drifted(r.route.app, seen.value)
  }

  /** On one machine verification restates the plan: it passes what was planned as present unless its
    * version has drifted, passes over what was skipped and fails everything else. */
  lemma VerificationRestatesThePlan(env: Environment, apps: seq<App>, h: Host, repin: bool, r: Routed)
    requires Routable(env, apps)
    ensures var e := PlanEntry(env, apps, h, repin, r);
      && (VerifiedState(env, apps, h, r) == Present <==> IsPresent(e) && !HasDrifted(env, apps, h, r))
      && (VerifiedState(env, apps, h, r) == State.Skipped <==> IsSkipped(e))
      && (VerifiedState(env, apps, h, r) == State.Failed <==>
          IsFailed(e) || IsToInstall(e) || HasDrifted(env, apps, h, r))
  {
  }

  lemma {:induction false} VerifiedAt(env: Environment, apps: seq<App>, h: Host, routed: seq<Routed>, n: nat, i: nat)
    requires Routable(env, apps) && i < n <= |routed|
    ensures VerifiedUpTo(env, apps, h, routed, n)[i] == VerifiedState(env, apps, h, routed[i])
  {
    if i < n - 1 { VerifiedAt(env, apps, h, routed, n - 1, i); }
  }

  /** One app on one machine: planned, verified, and whether its version has drifted. */
  datatype Standing = Standing(entry: Entry, state: State, drifted: bool)

  function StandingOf(env: Environment, apps: seq<App>, h: Host, repin: bool, r: Routed): Standing
    requires Routable(env, apps)
  {
    Standing(PlanEntry(env, apps, h, repin, r), VerifiedState(env, apps, h, r), HasDrifted(env, apps, h, r))
  }

  function Standings(env: Environment, apps: seq<App>, h: Host, repin: bool): seq<Standing>
    requires Routable(env, apps)
  {
    var routed := RoutedOf(env, apps);
    seq(|routed|, i requires 0 <= i < |routed| => StandingOf(env, apps, h, repin, routed[i]))
  }

  predicate PlannedPresent(s: Standing) { IsPresent(s.entry) }
  predicate PassesNow(s: Standing) { Passes(s.state) }
  predicate IsDrifted(s: Standing) { s.drifted }

  predicate Consistent(s: Standing) {
    && (PlannedPresent(s) <==> PassesNow(s) || IsDrifted(s)) && !(PassesNow(s) && IsDrifted(s))
    && (PassesOver(s.state) <==> IsSkipped(s.entry))
  }

  lemma StandingIsConsistent(env: Environment, apps: seq<App>, h: Host, repin: bool, r: Routed)
    requires Routable(env, apps)
    ensures Consistent(StandingOf(env, apps, h, repin, r))
  {
    VerificationRestatesThePlan(env, apps, h, repin, r);
  }

  lemma {:induction false} CountStandings(standings: seq<Standing>, entries: seq<Entry>, states: seq<State>)
    requires |standings| == |entries| == |states|
    requires forall i :: 0 <= i < |standings| ==>
      Consistent(standings[i]) && standings[i].entry == entries[i] && standings[i].state == states[i]
    ensures Count(entries, IsPresent) == Count(states, Passes) + Count(standings, IsDrifted)
    ensures Count(states, PassesOver) == Count(entries, IsSkipped)
  {
    CountAgrees(standings, entries, PlannedPresent, IsPresent);
    CountEither(standings, standings, PlannedPresent, PassesNow, IsDrifted);
    CountAgrees(standings, states, PassesNow, Passes);
    CountAgrees(states, entries, PassesOver, IsSkipped);
  }

  /** A run on a machine that nothing changes verifies by the counters of its plan: passed are the present
    * ones without those whose version has drifted, passed over the skipped ones, and everything else,
    * failed, missing or drifted, fails. */
  lemma {:induction false} QuietRunVerifiesItsPlan(flags: Flags, env: Environment, apps: seq<App>, h: Host,
    answers: nat -> Answer, r: Report)
    requires IsReport(flags, env, apps, h, h, answers, r) && r.Complete? && r.calls == []
    ensures var drifted := Count(Standings(env, apps, h, flags.repin), IsDrifted);
      && r.verified.success + drifted == r.plan.present && r.verified.skipped == r.plan.skipped
      && r.verified.failed == r.plan.failed + r.plan.install + drifted
  {
    var routed, standings := RoutedOf(env, apps), Standings(env, apps, h, flags.repin);
    forall i | 0 <= i < |routed|
      ensures Consistent(standings[i]) && standings[i].entry == r.entries[i] && standings[i].state == r.states[i]
    {
      VerifiedAt(env, apps, h, routed, |routed|, i);
      StandingIsConsistent(env, apps, h, flags.repin, routed[i]);
    }
    CountStandings(standings, r.entries, r.states);
  }

  /** An authored version of white space only. */
  predicate BlankVersion(a: App) {
    a.version != "" && TrimSpace(a.version) == ""
  }

  /** What verifies is not applied again: only a confirmed re-pin of an app whose authored version is
    * blank, and of which the machine reports some version, still reaches its driver. */
  lemma AppliedAgainExactly(env: Environment, apps: seq<App>, h: Host, flags: Flags, r: Routed)
    requires Routable(env, apps) && VerifiedState(env, apps, h, r) == Present
    ensures Asks(h, PlanEntry(env, apps, h, flags.repin, r), flags.confirm) <==>
      && r.Package? && flags.repin && flags.confirm && h.can(r.route.key, Versioned) && BlankVersion(r.route.app)
      && Seen(env, apps, h, r.route).value.version != ""
  {
  }

  /** A machine on which everything verifies is left alone, re-pinning or not, as long as no authored
    * version is blank. */
  lemma SettledMachineIsLeftAlone(env: Environment, apps: seq<App>, h: Host, flags: Flags)
    requires Routable(env, apps)
    requires forall r :: r in RoutedOf(env, apps) ==> VerifiedState(env, apps, h, r) == Present
    requires forall a :: a in apps ==> !BlankVersion(a)
    ensures var entries := EntriesOf(env, apps, h, flags.repin, RoutedOf(env, apps));
      CallsUpTo(h, entries, flags.confirm, |entries|) == []
  {
    var routed := RoutedOf(env, apps);
    var entries := EntriesOf(env, apps, h, flags.repin, routed);
    ManifestOrder(env, apps);
    forall i | 0 <= i < |entries| ensures !Asks(h, entries[i], flags.confirm) {
      assert routed[i] in routed && entries[i] == PlanEntry(env, apps, h, flags.repin, routed[i]);
      RoutedAppListed(env, apps, routed[i]);
      AppliedAgainExactly(env, apps, h, flags, routed[i]);
    }
    NobodyAsks(h, entries, flags.confirm, |entries|);
  }

  lemma RoutedAppListed(env: Environment, apps: seq<App>, r: Routed)
    requires Routable(env, apps) && IsRoutedAt(env, apps, r, |apps|)
    ensures r.Package? ==> r.route.app in apps
  {
  }

  lemma {:induction false} NobodyAsks(h: Host, entries: seq<Entry>, confirm: bool, n: nat)
    requires n <= |entries| && forall i :: 0 <= i < |entries| ==> !Asks(h, entries[i], confirm)
    ensures CallsUpTo(h, entries, confirm, n) == []
  {
    if n > 0 { NobodyAsks(h, entries, confirm, n - 1); }
  }

  lemma {:induction false} CountAll<T>(s: seq<T>, p: T -> bool)
    ensures Count(s, p) <= |s|
    ensures Count(s, p) == |s| ==> forall i :: 0 <= i < |s| ==> p(s[i])
  {
    if s != [] {
      CountAll(s[1..], p);
      assert forall i :: 1 <= i < |s| ==> s[i] == s[1..][i - 1];
    }
  }

  /** Applying is idempotent: after a run in which every app verified, a second one, re-pinning or not,
    * asks no driver, as long as no authored version is blank. */
  lemma {:induction false} SecondRunIsQuiet(env: Environment, apps: seq<App>, before: Host, after: Host, later: Host,
    first: Flags, second: Flags, answers: nat -> Answer, more: nat -> Answer, r: Report, s: Report)
    requires IsReport(first, env, apps, before, after, answers, r) && r.Complete?
    requires r.verified.success == |RoutedOf(env, apps)| && forall a :: a in apps ==> !BlankVersion(a)
    requires IsReport(second, env, apps, HostToVerify(before, after, r.calls), later, more, s) && s.Complete?
    ensures s.calls == []
  {
    var routed, seen := RoutedOf(env, apps), HostToVerify(before, after, r.calls);
    CountAll(r.states, Passes);
    forall x | x in routed ensures VerifiedState(env, apps, seen, x) == Present {
      var i :| 0 <= i < |routed| && routed[i] == x;
      VerifiedAt(env, apps, seen, routed, |routed|, i);
    }
    SettledMachineIsLeftAlone(env, apps, seen, second);
  }

  // An app with a blank version, on a machine that has it.

  function BlankApp(): App {
    App("a", "a", false, "", "", " ", None)
  }

  function BrewOnly(): Environment {
    Environment(Some("brew"), map[], (name: string) => None)
  }

  function BrewHost(): Host {
    Host(
      (key: LaneKey, c: Capability) => c == Batch || c == Versioned,
      (key: LaneKey, bySource: bool, refs: seq<string>) => Some(map["a" := Detected(true, "1.0")]),
      (key: LaneKey, bySource: bool, ref: string) => None,
      (app: App) => false,
      [])
  }

  /** A blank version verifies and is yet re-pinned, to a version that is no version. */
  lemma BlankVersionIsRepinned()
    ensures var env, apps, h := BrewOnly(), [BlankApp()], BrewHost();
      && Routable(env, apps) && |RoutedOf(env, apps)| == 1
      && var r := RoutedOf(env, apps)[0];
      && VerifiedState(env, apps, h, r) == Present && r.Package?
      && Asks(h, PlanEntry(env, apps, h, true, r), true)
      && RequestFor(h, PlanEntry(env, apps, h, true, r)) == Reinstall(" ", None)
  {
    var env, apps, h := BrewOnly(), [BlankApp()], BrewHost();
    var key := LaneKey("brew", "");
    BlankVersionFacts();
    assert Resolve(env, BlankApp()) == Resolution(key, false, false);
    assert apps[..0] == [] && apps[..1] == apps;
    var r := Route(0, BlankApp(), key, false, false);
    assert RouteAt(env, apps, 0) == r;
    assert RoutedOf(env, apps) == [] + [Package(r)];
    assert DetectLane(h, key, false, Refs(RoutesOf(env, apps, key))) ==
      Detection(false, true, map["a" := Detected(true, "1.0")]);
    assert Seen(env, apps, h, r) == Some(Observed(true, "1.0"));
  }

  lemma BlankVersionFacts()
    ensures TrimSpace(" ") == "" && TrimSpace("1.0") == "1.0"
    ensures Folded("") == "" && Folded("brew") == "brew" && "brew" != "winget"
  {
    assert " "[1..] == "";
    assert TrimLeft(" ", IsSpace) == "";
  }
}
