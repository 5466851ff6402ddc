/** Detecting which apps a machine already has: one batch question for a lane whose driver can answer it,
  * single questions otherwise, with the registry of installed programs as a fallback. */
module LaneDetection {
  import opened ConfigPlan
  import opened DriverLanes
  import opened Text

  datatype Detected = Detected(installed: bool, version: string)

  /** The optional interfaces of a driver. */
  datatype Capability = BatchBySource | Batch | BySource | Versioned | VersionedBySource

  datatype Registered = Registered(key: string, publisher: string, version: string)

  /** One state of the machine. A driver is known by its lane; the flag of a question says whether it
    * names the lane's source; `None` is a failed detection. */
  datatype Host = Host(
    can: (LaneKey, Capability) -> bool,
    detectAll: (LaneKey, bool, seq<string>) -> Option<map<string, Detected>>,
    detectOne: (LaneKey, bool, string) -> Option<bool>,
    verified: App -> bool,
    inventory: seq<Registered>)

  datatype Detection = Detection(error: bool, batch: bool, results: map<string, Detected>)

  function FromBatch(answer: Option<map<string, Detected>>): Detection {
    match answer
    case None => Detection(true, true, map[])
    case Some(results) => Detection(false, true, results)
  }

  function Refs(routes: seq<Route>): seq<string> {
    seq(|routes|, i requires 0 <= i < |routes| => routes[i].app.ref)
  }

  /** The question a lane as a whole is asked. */
  function DetectLane(h: Host, key: LaneKey, bySource: bool, refs: seq<string>): Detection {
    if bySource && h.can(key, BatchBySource) then FromBatch(h.detectAll(key, true, refs))
    else if h.can(key, Batch) then FromBatch(h.detectAll(key, false, refs))
    else Detection(false, false, map[])
  }

  /** One app of a lane: a reference missing from a batch answer is not installed. */
  function DetectOne(h: Host, key: LaneKey, bySource: bool, lane: Detection, ref: string): Option<Detected> {
    if lane.error then None
    else if lane.batch then Some(if ref in lane.results then lane.results[ref] else Detected(false, ""))
    else
      var answer := h.detectOne(key, bySource && h.can(key, BySource), ref);
      if answer.None? then None else Some(Detected(answer.value, ""))
  }

  // ----- lanes are detected by key -----

  /** What the detection map holds for a usable lane. */
  function LaneDetectionOf(env: Environment, apps: seq<App>, h: Host, key: LaneKey): Detection
    requires Routable(env, apps)
  {
    DetectLane(h, key, key.source != "", Refs(RoutesOf(env, apps, key)))
  }

  ghost predicate Detects(env: Environment, apps: seq<App>, h: Host, key: LaneKey, d: Detection)
    requires Routable(env, apps) && key in FirstUse(env, apps)
  {
    if Opener(env, apps, key).error then d == Detection(true, false, map[]) else d == LaneDetectionOf(env, apps, h, key)
  }

  /** Every lane is asked once; no lane overwrites another's answer. */
  method DetectLanes(env: Environment, ghost apps: seq<App>, h: Host, lanes: seq<Lane>)
    returns (detections: map<LaneKey, Detection>)
    requires Routable(env, apps) && LanesOf(env, apps, lanes)
    ensures forall key :: key in detections <==> key in FirstUse(env, apps)
    ensures forall key :: key in detections ==> Detects(env, apps, h, key, detections[key])
  {
    detections := map[];
    ghost var keys := FirstUse(env, apps);
    KeysUsed(env, apps);
    for n := 0 to |lanes|
      invariant forall key :: key in detections <==> key in keys[..n]
      invariant forall key :: key in detections ==> key in keys && Detects(env, apps, h, key, detections[key])
    {
      var lane := lanes[n];
      assert LaneIs(env, apps, lane, keys[n]);
      assert keys[..n + 1] == keys[..n] + [keys[n]];
      var detection := Detection(true, false, map[]);
      if !lane.error {
        detection := DetectLane(h, lane.key, lane.key.source != "", Refs(lane.routes));
      }
      detections := detections[lane.key := detection];
    }
    assert keys[..|lanes|] == keys;
  }

  // ----- presence -----

  datatype Observed = Observed(present: bool, version: string)

  predicate SameValue(a: string, b: string) {
    Folded(a) == Folded(b)
  }

  predicate IsRegistered(f: Fingerprint, r: Registered) {
    SameValue(f.key, r.key) && SameValue(f.publisher, r.publisher)
  }

  /** The distinct versions under which an app is registered. */
  function Versions(a: App, inventory: seq<Registered>): set<string> {
    if a.fingerprint.None? || TrimSpace(a.fingerprint.value.key) == "" || TrimSpace(a.fingerprint.value.publisher) == ""
    then {}
    else set r | r in inventory && IsRegistered(a.fingerprint.value, r) :: TrimSpace(r.version)
  }

  function Only(versions: set<string>): string
    requires |versions| == 1
  {
    SoleMember(versions);
    var v :| v in versions;
    v
  }

  lemma SoleMember(versions: set<string>)
    requires |versions| == 1
    ensures forall v, w :: v in versions && w in versions ==> v == w
  {
    forall v, w | v in versions && w in versions ensures v == w {
      assert |versions - {v}| == 0;
      assert w !in versions - {v};
    }
  }

  /** The package manager wins whenever it reports presence; the registry is only a fallback. */
  function Observe(d: Detected, a: App, inventory: seq<Registered>): Observed {
    var versions := Versions(a, inventory);
    var want := TrimSpace(a.version);
    if d.installed then Observed(true, TrimSpace(d.version))
    else if versions == {} then Observed(false, "")
    else if want != "" && want in versions then Observed(true, want)
    else if |versions| == 1 then Observed(true, Only(versions))
    else Observed(true, "")
  }
}
