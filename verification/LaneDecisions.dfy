/** What the lane commands decide for one app, told from the manifest, the drivers' answers and the registry
  * of installed programs alone: its driver and lane, whether it is present, what is planned, asked and
  * verified. */
module LaneDecisions {
  import opened ConfigPlan
  import opened DriverLanes
  import opened LaneDetection
  import opened ApplyLanes
  import opened Text
  import LanePlan

  // ----- the driver and the lane -----

  /** An authored driver is taken unless it is overridden, and without one the platform's default; only
    * winget has sources, an authored one first and otherwise the store for a store reference. */
  lemma ResolvesExactly(env: Environment, a: App)
    requires !NeedsMissingDefault(env, a) && a.ref != ""
    ensures var r, authored, source := Resolve(env, a), Lower(TrimSpace(a.driver)), Lower(TrimSpace(a.source));
      && (authored == "" ==> r.key.name == Lower(TrimSpace(env.default.value)) && !r.error && !r.failed)
      && (authored != "" && authored in env.overrides ==>
           r.key.name == authored && r.error && r.failed == env.overrides[authored])
      && (authored != "" && authored !in env.overrides ==>
           match env.construct(authored)
           case None => r.key.name == authored && r.error && !r.failed
           case Some(name) => r.key.name == Lower(TrimSpace(name)) && !r.error && !r.failed)
      && (r.key.name != "winget" ==> r.key.source == "")
      && (r.key.name == "winget" && source != "" ==> r.key.source == source)
      && (r.key.name == "winget" && source == "" ==> r.key.source == if IsStoreID(a.ref) then "msstore" else "winget")
  {
  }

  /** A store reference begins with 9 and ten more letters or digits, or with XP and ten more. */
  lemma StoreReferences(ref: string)
    ensures var id := Lower(TrimSpace(ref));
      IsStoreID(ref) <==>
        (|id| >= 11 && id[0] == '9' && forall c :: c in id[1..] ==> 'a' <= c <= 'z' || '0' <= c <= '9') ||
        (|id| >= 12 && id[0] == 'x' && id[1] == 'p' && forall c :: c in id[2..] ==> 'a' <= c <= 'z' || '0' <= c <= '9')
  {
    var id := Lower(TrimSpace(ref));
    forall i | 1 <= i < |id| ensures id[i] in id[1..] { assert id[i] == id[1..][i - 1]; }
    forall i | 2 <= i < |id| ensures id[i] in id[2..] { assert id[i] == id[2..][i - 2]; }
    assert |id| >= 2 ==> (id[..2] == "xp" <==> id[0] == 'x' && id[1] == 'p');
  }

  /** App `m` is the first of the manifest with this key. */
  ghost predicate FirstWith(env: Environment, apps: seq<App>, key: LaneKey, m: nat)
    requires Routable(env, apps)
  {
    && m < |apps| && IsPackage(apps[m]) && KeyOf(env, apps[m]) == key
    && forall i :: 0 <= i < m && IsPackage(apps[i]) ==> KeyOf(env, apps[i]) != key
  }

  /** The first app with a key that is used. */
  lemma {:induction false} FirstOf(env: Environment, apps: seq<App>, key: LaneKey) returns (b: nat)
    requires Routable(env, apps) && key in FirstUse(env, apps)
    ensures FirstWith(env, apps, key, b)
  {
    var n := |apps| - 1;
    RoutablePrefix(env, apps, n);
    if key in FirstUse(env, apps[..n]) {
      b := FirstOf(env, apps[..n], key);
      FirstKept(env, apps, n, key, b);
    } else {
      b := n;
      NotBefore(env, apps, key);
    }
  }

  /** Lanes come in the order of their first apps. */
  lemma {:induction false} LanesByFirstApp(env: Environment, apps: seq<App>, j: nat, k: nat) returns (a: nat, b: nat)
    requires Routable(env, apps) && j < k < |FirstUse(env, apps)|
    ensures a < b && FirstWith(env, apps, FirstUse(env, apps)[j], a) && FirstWith(env, apps, FirstUse(env, apps)[k], b)
  {
    var n := |apps| - 1;
    var before := apps[..n];
    RoutablePrefix(env, apps, n);
    var keys, earlier := FirstUse(env, apps), FirstUse(env, before);
    assert earlier <= keys;
    if k < |earlier| {
      a, b := LanesByFirstApp(env, before, j, k);
      FirstKept(env, apps, n, keys[j], a);
      FirstKept(env, apps, n, keys[k], b);
    } else {
      a := FirstOf(env, before, keys[j]);
      FirstKept(env, apps, n, keys[j], a);
      b := FirstOf(env, apps, keys[k]);
      NotUsed(env, apps, k, b);
    }
  }

  /** A key that the last app brings in is not the key of an earlier one. */
  lemma NotUsed(env: Environment, apps: seq<App>, k: nat, b: nat)
    requires apps != [] && Routable(env, apps) && Routable(env, apps[..|apps| - 1])
    requires |FirstUse(env, apps[..|apps| - 1])| <= k < |FirstUse(env, apps)|
    requires FirstWith(env, apps, FirstUse(env, apps)[k], b)
    ensures b == |apps| - 1
  {
    NotBefore(env, apps, FirstUse(env, apps)[k]);
  }

  lemma FirstKept(env: Environment, apps: seq<App>, n: nat, key: LaneKey, m: nat)
    requires Routable(env, apps) && n <= |apps| && Routable(env, apps[..n]) && FirstWith(env, apps[..n], key, m)
    ensures FirstWith(env, apps, key, m)
  {
    var before := apps[..n];
    forall i | 0 <= i < m && IsPackage(apps[i]) ensures KeyOf(env, apps[i]) != key { assert before[i] == apps[i]; }
  }

  lemma NotBefore(env: Environment, apps: seq<App>, key: LaneKey)
    requires apps != [] && Routable(env, apps) && Routable(env, apps[..|apps| - 1])
    requires key !in FirstUse(env, apps[..|apps| - 1])
    ensures forall i :: 0 <= i < |apps| - 1 && IsPackage(apps[i]) ==> KeyOf(env, apps[i]) != key
  {
    var before := apps[..|apps| - 1];
    KeysUsed(env, before);
    forall i | 0 <= i < |before| && IsPackage(apps[i]) ensures KeyOf(env, apps[i]) != key {
      assert apps[i] == before[i] && before[i] in before;
    }
  }

  lemma FirstIsUnique(env: Environment, apps: seq<App>, key: LaneKey, a: nat, b: nat)
    requires Routable(env, apps) && FirstWith(env, apps, key, a) && FirstWith(env, apps, key, b)
    ensures a == b
  {
  }

  lemma LastOpens(env: Environment, apps: seq<App>, key: LaneKey)
    requires apps != [] && Routable(env, apps) && Routable(env, apps[..|apps| - 1])
    requires key !in FirstUse(env, apps[..|apps| - 1])
    requires IsPackage(apps[|apps| - 1]) && KeyOf(env, apps[|apps| - 1]) == key
    ensures key in FirstUse(env, apps) && Opener(env, apps, key) == Resolve(env, apps[|apps| - 1])
  {
  }

  lemma FirstIsFresh(env: Environment, apps: seq<App>, key: LaneKey)
    requires Routable(env, apps) && apps != [] && FirstWith(env, apps, key, |apps| - 1)
    ensures Routable(env, apps[..|apps| - 1]) && key !in FirstUse(env, apps[..|apps| - 1])
  {
    var n := |apps| - 1;
    RoutablePrefix(env, apps, n);
    if key in FirstUse(env, apps[..n]) {
      var b := FirstOf(env, apps[..n], key);
      FirstKept(env, apps, n, key, b);
      FirstIsUnique(env, apps, key, n, b);
    }
  }

  /** The first app of a lane decides whether the lane is in error. */
  lemma {:induction false} FirstAppOpens(env: Environment, apps: seq<App>, key: LaneKey, m: nat)
    requires Routable(env, apps) && FirstWith(env, apps, key, m)
    ensures key in FirstUse(env, apps) && Opener(env, apps, key) == Resolve(env, apps[m])
    decreases |apps|
  {
    var n := |apps| - 1;
    var before := apps[..n];
    RoutablePrefix(env, apps, n);
    if m < n {
      FirstAppOpens(env, before, key, m);
      OpenerNext(env, apps, before, key);
    } else {
      FirstIsFresh(env, apps, key);
      LastOpens(env, apps, key);
    }
  }

  // ----- presence -----

  /** A registry entry of the app: its fingerprint is complete and both parts agree, letter case and outer
    * white space aside. */
  predicate RegisteredAs(a: App, e: Registered) {
    && a.fingerprint.Some?
    && Lower(TrimSpace(a.fingerprint.value.key)) == Lower(TrimSpace(e.key))
    && Lower(TrimSpace(a.fingerprint.value.publisher)) == Lower(TrimSpace(e.publisher))
    && TrimSpace(a.fingerprint.value.key) != "" && TrimSpace(a.fingerprint.value.publisher) != ""
  }

  /** An app is present if its driver says so or the registry lists it. The driver's version is taken if it
    * says so; otherwise the authored one if the registry lists it, or the only one listed. */
  lemma ObservesExactly(d: Detected, a: App, inventory: seq<Registered>)
    ensures var o, want := Observe(d, a, inventory), TrimSpace(a.version);
      && (o.present <==> d.installed || exists e :: e in inventory && RegisteredAs(a, e))
      && (d.installed ==> o.version == TrimSpace(d.version))
      && (forall e :: e in inventory && RegisteredAs(a, e) && TrimSpace(e.version) == want && want != "" ==>
           d.installed || o.version == want)
      && (!d.installed && o.version != "" ==>
           exists e :: e in inventory && RegisteredAs(a, e) && TrimSpace(e.version) == o.version)
      && (!d.installed && o.version != "" && o.version != want ==>
           forall e :: e in inventory && RegisteredAs(a, e) ==> TrimSpace(e.version) == o.version)
  {
    var versions := Versions(a, inventory);
    VersionsExactly(a, inventory);
    if |versions| == 1 { SoleMember(versions); }
    forall e | e in inventory && RegisteredAs(a, e) ensures TrimSpace(e.version) in versions { }
  }

  lemma VersionsExactly(a: App, inventory: seq<Registered>)
    ensures forall v :: v in Versions(a, inventory) <==>
      exists e :: e in inventory && RegisteredAs(a, e) && TrimSpace(e.version) == v
  {
    forall e | a.fingerprint.Some? && IsRegistered(a.fingerprint.value, e)
      ensures RegisteredAs(a, e) <==>
        TrimSpace(a.fingerprint.value.key) != "" && TrimSpace(a.fingerprint.value.publisher) != ""
    {
    }
  }

  /** How a lane's drivers are asked: as a whole by source, as a whole, or app by app; a failed answer fails
    * the app, and a reference missing from an answer for the whole lane is not installed. */
  lemma SeesExactly(env: Environment, apps: seq<App>, h: Host, r: Route)
    requires Routable(env, apps)
    ensures var key, refs, seen := r.key, Refs(RoutesOf(env, apps, r.key)), Seen(env, apps, h, r);
      if key.source != "" && h.can(key, BatchBySource) then SeenInBatch(h, r, h.detectAll(key, true, refs), seen)
      else if h.can(key, Batch) then SeenInBatch(h, r, h.detectAll(key, false, refs), seen)
      else SeenAlone(h, r, h.detectOne(key, key.source != "" && h.can(key, BySource), r.app.ref), seen)
  {
  }

  predicate SeenInBatch(h: Host, r: Route, answer: Option<map<string, Detected>>, seen: Option<Observed>) {
    match answer
    case None => seen == None
    case Some(results) =>
      seen == Some(Observe(
        if r.app.ref in results then results[r.app.ref] else Detected(false, ""), r.app, h.inventory))
  }

  predicate SeenAlone(h: Host, r: Route, answer: Option<bool>, seen: Option<Observed>) {
    match answer
    case None => seen == None
    case Some(installed) => seen == Some(Observe(Detected(installed, ""), r.app, h.inventory))
  }

  // ----- plan and verification -----

  predicate Differs(version: string, o: Observed) {
    o.version != "" && o.version != TrimSpace(version)
  }

  /** What is planned for an app, exactly. */
  lemma PlansExactly(env: Environment, apps: seq<App>, h: Host, repin: bool, r: Route)
    requires Routable(env, apps)
    ensures var e, seen := PlanEntry(env, apps, h, repin, Package(r)), Seen(env, apps, h, r);
      && e.routed == Package(r)
      && (e.state == State.Skipped <==> r.error && !r.failed)
      && (e.state == State.Failed <==> (r.error && r.failed) || (!r.error && seen == None))
      && (e.state == Present <==> !r.error && seen.Some? && seen.value.present)
      && (e.state == ToInstall <==> !r.error && seen.Some? && !seen.value.present)
      && (e.repin <==> repin && e.state == Present && r.app.version != "" && Differs(r.app.version, seen.value))
  {
  }

  /** What verifies, exactly: what is present in the authored version, or in any if none is authored. */
  lemma VerifiesExactly(env: Environment, apps: seq<App>, h: Host, r: Route)
    requires Routable(env, apps)
    ensures var s, seen := VerifiedState(env, apps, h, Package(r)), Seen(env, apps, h, r);
      && (s == State.Skipped <==> r.error && !r.failed)
      && (s == Present <==>
           !r.error && seen.Some? && seen.value.present &&
           (TrimSpace(r.app.version) == "" || !Differs(r.app.version, seen.value)))
      && (s == State.Failed <==> s != State.Skipped && s != Present)
  {
  }

  /** A manually installed app is never installed for the user: it is present or not, and verifies if it is. */
  lemma ManualExactly(env: Environment, apps: seq<App>, h: Host, repin: bool, confirm: bool, answer: Answer,
    index: nat, a: App)
    requires Routable(env, apps)
    ensures var e, s := PlanEntry(env, apps, h, repin, Manual(index, a)), VerifiedState(env, apps, h, Manual(index, a));
      && e == Entry(Manual(index, a), if h.verified(a) then Present else ToInstall, false)
      && (s == Present <==> h.verified(a)) && (s == State.Failed <==> !h.verified(a))
      && Settled(h, e, confirm, answer) == Applied(e, if h.verified(a) then Present else State.Skipped, false)
  {
  }

  // ----- what the drivers are asked to do -----

  /** A driver is asked to install what is missing, and to change a version only when that was confirmed
    * and it can. */
  predicate IsAsked(h: Host, e: Entry, confirm: bool) {
    match e.routed
    case Manual(_, _) => false
    case Package(r) => (!e.repin && e.state == ToInstall) || (e.repin && confirm && h.can(r.key, Versioned))
  }

  /** The call of entry `i`, if it makes one. */
  ghost predicate Calls(h: Host, entries: seq<Entry>, confirm: bool, i: nat, c: Call) {
    && i < |entries| && IsAsked(h, entries[i], confirm)
    && c == Call(Index(entries[i].routed), RequestFor(h, entries[i]))
  }

  /** Exactly the entries that are to be asked are asked. */
  lemma {:induction false} AskedExactly(h: Host, entries: seq<Entry>, confirm: bool, n: nat, c: Call)
    requires n <= |entries|
    ensures c in CallsUpTo(h, entries, confirm, n) <==> exists i: nat :: i < n && Calls(h, entries, confirm, i, c)
  {
    if n == 0 {
      assert CallsUpTo(h, entries, confirm, 0) == [];
    } else {
      AskedExactly(h, entries, confirm, n - 1, c);
      assert c in CallFor(h, entries[n - 1], confirm) <==> Calls(h, entries, confirm, n - 1, c) by {
        assert Asks(h, entries[n - 1], confirm) <==> IsAsked(h, entries[n - 1], confirm);
      }
      var before := CallsUpTo(h, entries, confirm, n - 1);
      assert c in CallsUpTo(h, entries, confirm, n) <==> c in before || c in CallFor(h, entries[n - 1], confirm);
      assert (exists i: nat :: i < n && Calls(h, entries, confirm, i, c)) <==>
        (exists i: nat :: i < n - 1 && Calls(h, entries, confirm, i, c)) || Calls(h, entries, confirm, n - 1, c);
    }
  }

  predicate Rising(calls: seq<Call>) {
    forall i, j :: 0 <= i < j < |calls| ==> calls[i].index < calls[j].index
  }

  lemma RisesFurther(calls: seq<Call>, more: seq<Call>)
    requires Rising(calls) && |more| <= 1 && forall c, d :: c in calls && d in more ==> c.index < d.index
    ensures Rising(calls + more)
  {
    var all := calls + more;
    forall i, j | 0 <= i < j < |all| ensures all[i].index < all[j].index {
      assert all[i] == calls[i] && (j < |calls| ==> all[j] == calls[j]) && (j >= |calls| ==> all[j] in more);
    }
  }

  /** Each of them once, in the order of the manifest. */
  lemma {:induction false} AskedInOrder(h: Host, entries: seq<Entry>, confirm: bool, n: nat)
    requires n <= |entries| && forall i, j :: 0 <= i < j < |entries| ==>
      Index(entries[i].routed) < Index(entries[j].routed)
    ensures Rising(CallsUpTo(h, entries, confirm, n))
  {
    if n > 0 {
      var before, more := CallsUpTo(h, entries, confirm, n - 1), CallFor(h, entries[n - 1], confirm);
      AskedInOrder(h, entries, confirm, n - 1);
      forall c, d | c in before && d in more ensures c.index < d.index {
        AskedExactly(h, entries, confirm, n - 1, c);
        var k: nat :| k < n - 1 && Calls(h, entries, confirm, k, c);
      }
      RisesFurther(before, more);
    }
  }

  /** An authored version is what gets installed, whenever the driver can take a version; the lane's source
    * goes along if there is one and the driver can take it with what else it is given. */
  lemma RequestsExactly(h: Host, e: Entry)
    requires e.routed.Package?
    ensures var key, version, request := e.routed.route.key, e.routed.route.app.version, RequestFor(h, e);
      var pins := h.can(key, Versioned) || (key.source != "" && h.can(key, VersionedBySource));
      && (e.repin <==> request.Reinstall?)
      && (e.repin ==> request.version == version)
      && (!e.repin && version != "" && pins ==> request.pin == Some(version))
      && (!e.repin && (version == "" || !pins) ==> request.pin == None)
      && (request.source == None || request.source == Some(key.source))
      && (request.source.Some? <==>
           key.source != "" && h.can(key, if e.repin || (version != "" && pins) then VersionedBySource else BySource))
  {
  }

  /** What an asked entry ends as is what its driver answers, and every other one stays as planned. */
  lemma SettlesExactly(h: Host, e: Entry, confirm: bool, answer: Answer)
    requires e.routed.Package?
    ensures var d := Settled(h, e, confirm, answer);
      && d.entry == e && (d.asked <==> IsAsked(h, e, confirm))
      && (d.asked && answer.Broken? ==> d.state == State.Failed)
      && (d.asked && answer.Reported? ==> d.state == answer.state)
      && (!d.asked ==> d.state == e.state)
  {
  }

  /** How an entry counts: an installation and a present manual app as successes; a failure, and every other
    * answer but "present" to a first installation, as failures; the rest as skipped. */
  lemma CountsExactly(h: Host, e: Entry, confirm: bool, answer: Answer)
    requires WellPlanned(e)
    ensures var d := Settled(h, e, confirm, answer);
      && (e.routed.Manual? ==> (Succeeded(d) <==> e.state == Present) && (PassedOver(d) <==> e.state != Present))
      && (d.asked ==>
        && (Succeeded(d) <==> answer == Reported(Installed))
        && (PassedOver(d) <==> answer == Reported(Present) && !e.repin))
      && (e.routed.Package? && !d.asked ==>
        && (Unsuccessful(d) <==> e.state == State.Failed)
        && (PassedOver(d) <==> e.state != State.Failed))
  {
  }

  /** What the plan command announces for an app: skipped if its lane cannot be used, failed if the driver does
    * not answer, present if the driver or the registry knows it, and otherwise to be installed. */
  lemma ActsExactly(env: Environment, apps: seq<App>, h: Host, r: Route)
    requires Routable(env, apps)
    ensures var a := LanePlan.PackageAction(env, apps, h, r);
      var found := LanePlan.PlanDetected(h, r.key, Refs(RoutesOf(env, apps, r.key)), r.app.ref);
      var listed := Observe(Detected(false, ""), r.app, h.inventory).present;
      && a.id == r.app.id && a.ref == r.app.ref && a.driver == r.key.name
      && (a.presence == LanePlan.Skipped <==> r.error)
      && (a.presence == LanePlan.Failed <==> !r.error && found == None)
      && (a.presence == LanePlan.Present <==> !r.error && found.Some? && (found.value.installed || listed))
      && (a.planned == LanePlan.InstallIt <==> a.presence == LanePlan.Missing)
      && (a.planned == LanePlan.DoNothing <==> a.presence == LanePlan.Present && !found.value.installed)
  {
  }

  /** And for a manually installed one. */
  lemma ActsOnManual(h: Host, a: App)
    ensures LanePlan.ManualAction(h, a) == LanePlan.Action(a.id, "", "manual",
      if h.verified(a) then LanePlan.Present else LanePlan.Missing,
      if h.verified(a) then LanePlan.SkipIt else LanePlan.InstallIt)
  {
  }

  /** Verification looks at the machine as it is then; without a single request the registry of installed
    * programs need not be read again. */
  lemma LooksAgain(before: Host, after: Host, calls: seq<Call>)
    ensures var h := HostToVerify(before, after, calls);
      && h.can == after.can && h.detectAll == after.detectAll && h.detectOne == after.detectOne
      && h.verified == after.verified
      && h.inventory == if |calls| > 0 then after.inventory else before.inventory
  {
  }
}
