/** What the bundle producer writes, the restore input reader accepts, and reads back as the same
  * lanes with the same entries. */
module BundleAgreement {
  import opened ConfigPlan
  import opened Text
  import opened Ordering
  import opened Identity
  import opened CaptureGuard
  import opened RestoreInputs
  import opened CaptureLanes

  /** The manifest of the artifact; a version-1 bundle that kept nothing keeps its base restores. */
  function PrepareManifest(base: Manifest, version: int, captures: seq<Capture>, lanes: seq<Lane>,
    moduleIDs: seq<string>, included: seq<string>, restores: seq<RestoreEntry>): Manifest
  {
    if version == 2 then Manifest(2, captures, lanes, restores, moduleIDs)
    else if included == [] then Manifest(version, [], [], base.restores, base.modules)
    else Manifest(version, [], [], if restores == [] then base.restores else restores, moduleIDs)
  }

  /** A module that still owns an entry. */
  ghost predicate Owns(staged: seq<Module>, m: Module) {
    m in staged && exists k: nat :: k < |m.restores| && !Loses(Members(staged), Entry(m, k))
  }

  ghost function OwnKept(layout: Layout, staged: seq<Module>, m: Module): seq<RestoreEntry> {
    KeptEntries(layout, Members(staged), m, |m.restores|)
  }

  lemma {:induction false} KeptEntryMembers(layout: Layout, all: set<Module>, m: Module, count: nat, e: RestoreEntry)
    requires count <= |m.restores|
    ensures e in KeptEntries(layout, all, m, count) <==>
      exists k: nat :: k < count && !Loses(all, Entry(m, k)) && e == EntryOf(layout, m, k)
  {
    if count > 0 {
      var n: nat := count - 1;
      var before, own := KeptEntries(layout, all, m, n), KeptAt(layout, all, m, n);
      KeptEntryMembers(layout, all, m, n, e);
      assert KeptEntries(layout, all, m, count) == before + own;
      assert e in before + own <==> e in before || (!Loses(all, Entry(m, n)) && e == EntryOf(layout, m, n));
    }
  }

  lemma {:induction false} EntryWritten(layout: Layout, all: set<Module>, staged: seq<Module>, count: nat, i: nat,
    e: RestoreEntry)
    requires i < count <= |staged| && e in KeptEntries(layout, all, staged[i], |staged[i].restores|)
    ensures e in AllEntries(layout, all, staged, count)
  {
    if i < count - 1 { EntryWritten(layout, all, staged, count - 1, i, e); }
  }

  lemma {:induction false} EntryOwner(layout: Layout, all: set<Module>, staged: seq<Module>, count: nat,
    e: RestoreEntry)
    returns (i: nat)
    requires count <= |staged| && e in AllEntries(layout, all, staged, count)
    ensures i < count && e in KeptEntries(layout, all, staged[i], |staged[i].restores|)
  {
    i := count - 1;
    if e !in KeptEntries(layout, all, staged[i], |staged[i].restores|) {
      i := EntryOwner(layout, all, staged, i, e);
    }
  }

  /** The written entries are the kept entries of the staged modules. */
  lemma WrittenEntries(layout: Layout, staged: seq<Module>, restores: seq<RestoreEntry>, e: RestoreEntry)
    requires multiset(restores) == multiset(AllEntries(layout, Members(staged), staged, |staged|))
    ensures e in restores <==> exists m :: m in staged && e in OwnKept(layout, staged, m)
  {
    var entries := AllEntries(layout, Members(staged), staged, |staged|);
    assert e in restores <==> e in multiset(restores);
    assert e in entries <==> e in multiset(entries);
    if e in entries {
      var i := EntryOwner(layout, Members(staged), staged, |staged|, e);
      assert staged[i] in staged && e in OwnKept(layout, staged, staged[i]);
    }
    if m :| m in staged && e in OwnKept(layout, staged, m) {
      var i :| 0 <= i < |staged| && staged[i] == m;
      EntryWritten(layout, Members(staged), staged, |staged|, i, e);
    }
  }

  lemma EntryIdentity(layout: Layout, staged: seq<Module>, m: Module, e: RestoreEntry)
    requires e in OwnKept(layout, staged, m)
    ensures e.fromModule == m.id && e.legacyCaptureID == if layout.mixed then LegacyCaptureID(m.id) else ""
    ensures exists k: nat :: k < |m.restores| && !Loses(Members(staged), Entry(m, k))
  {
    KeptEntryMembers(layout, Members(staged), m, |m.restores|, e);
  }

  /** A module kept entries exactly when one of them lost no collision. */
  lemma OwnsEntries(layout: Layout, staged: seq<Module>, m: Module)
    requires m in staged
    ensures Owns(staged, m) <==> OwnKept(layout, staged, m) != []
    ensures m.restores != [] ==> (Owns(staged, m) <==> !Gone(Members(staged), m))
  {
    KeptEntriesEmpty(layout, Members(staged), m, |m.restores|);
  }

  /** Lanes of a finished mixed bundle: one per module that still owns an entry. */
  lemma WrittenLanes(layout: Layout, staged: seq<Module>, lanes: seq<Lane>, moduleIDs: seq<string>,
    included: seq<string>, payloads: set<string>, l: Lane)
    requires layout.mixed && forall m :: m in staged ==> m.restores != []
    requires Remain(layout, staged, |staged|, lanes, moduleIDs, included, payloads)
    ensures l in lanes <==> exists m :: Owns(staged, m) && l == LaneOf(layout, m)
  {
    var gone := GoneOf(staged, |staged|);
    assert staged[..|staged|] == staged;
    assert l in lanes <==> l in LaneSet(layout, Members(staged) - gone) by {
      assert l in lanes <==> l in Elements(lanes);
    }
    forall m | m in staged ensures m in Members(staged) - gone <==> Owns(staged, m) { OwnsEntries(layout, staged, m); }
  }

  /** Lane identity is module identity. */
  lemma LaneForModule(layout: Layout, staged: seq<Module>, lanes: seq<Lane>, m: Module)
    requires layout.mixed && Owns(staged, m)
    requires forall l :: l in lanes <==> exists o :: Owns(staged, o) && l == LaneOf(layout, o)
    ensures LaneFor(lanes, LegacyCaptureID(m.id)).Some? && LaneFor(lanes, LegacyCaptureID(m.id)).value.moduleID == m.id
  {
    LaneForMember(lanes, LegacyCaptureID(m.id));
    assert LaneOf(layout, m) in lanes;
    var l := LaneFor(lanes, LegacyCaptureID(m.id)).value;
    var o :| Owns(staged, o) && l == LaneOf(layout, o);
    LegacyCaptureIDInjective(o.id, m.id);
  }

  /** A mixed bundle is accepted whatever collisions dropped: every lane kept an entry, and every entry
    * names the lane of its own module. */
  lemma MixedBundleIsAccepted(layout: Layout, staged: seq<Module>, lanes: seq<Lane>, moduleIDs: seq<string>,
    included: seq<string>, payloads: set<string>, restores: seq<RestoreEntry>,
    base: Manifest, captures: seq<Capture>, resolvable: set<string>)
    requires layout.mixed && forall m :: m in staged ==> m.restores != []
    requires Collected(layout, staged, lanes, moduleIDs, included, payloads, restores)
    requires forall c :: c in captures ==> c.hasEvidence && c.payloadRoot in resolvable
    requires forall l :: l in lanes ==> l.payloadRoot in resolvable
    ensures var m := PrepareManifest(base, 2, captures, lanes, moduleIDs, included, restores);
      m.version == 2 && AcceptableV2(m, resolvable) && Acceptable(m, map[], resolvable)
  {
    var m := PrepareManifest(base, 2, captures, lanes, moduleIDs, included, restores);
    forall l ensures l in lanes <==> exists o :: Owns(staged, o) && l == LaneOf(layout, o) {
      WrittenLanes(layout, staged, lanes, moduleIDs, included, payloads, l);
    }
    forall e | e in restores ensures AcceptableEntry(e, m) {
      WrittenEntries(layout, staged, restores, e);
      var o :| o in staged && e in OwnKept(layout, staged, o);
      EntryIdentity(layout, staged, o, e);
      LaneForModule(layout, staged, lanes, o);
    }
    forall l | l in lanes ensures OfLane(restores, l.captureID) != [] {
      var o :| Owns(staged, o) && l == LaneOf(layout, o);
      OwnsEntries(layout, staged, o);
      var e := OwnKept(layout, staged, o)[0];
      EntryIdentity(layout, staged, o, e);
      WrittenEntries(layout, staged, restores, e);
      OfLaneMembers(restores, l.captureID, e);
    }
  }

  /** A plain bundle is accepted exactly when the modules that kept entries have trimmed IDs. */
  lemma {:induction false} PlainBundleIsAccepted(layout: Layout, staged: seq<Module>, restores: seq<RestoreEntry>)
    requires !layout.mixed
    requires multiset(restores) == multiset(AllEntries(layout, Members(staged), staged, |staged|))
    ensures AcceptableV1(restores) <==> forall m :: Owns(staged, m) ==> TrimSpace(m.id) == m.id
  {
    forall e | e in restores && forall m :: Owns(staged, m) ==> TrimSpace(m.id) == m.id
      ensures e.legacyCaptureID == "" && TrimSpace(e.fromModule) == e.fromModule
    {
      WrittenEntries(layout, staged, restores, e);
      var o :| o in staged && e in OwnKept(layout, staged, o);
      EntryIdentity(layout, staged, o, e);
      assert Owns(staged, o);
    }
    forall m | Owns(staged, m) && AcceptableV1(restores) ensures TrimSpace(m.id) == m.id {
      OwnsEntries(layout, staged, m);
      var e := OwnKept(layout, staged, m)[0];
      EntryIdentity(layout, staged, m, e);
      WrittenEntries(layout, staged, restores, e);
    }
  }

  /** The reader accepts the plain artifact exactly when the restores it ends up carrying are acceptable:
    * the base ones if nothing was kept, otherwise those of modules with trimmed IDs. */
  lemma {:induction false} PlainManifestIsAccepted(layout: Layout, staged: seq<Module>, base: Manifest,
    moduleIDs: seq<string>, included: seq<string>, restores: seq<RestoreEntry>, resolvable: set<string>)
    requires !layout.mixed
    requires multiset(restores) == multiset(AllEntries(layout, Members(staged), staged, |staged|))
    ensures Acceptable(PrepareManifest(base, 1, [], [], moduleIDs, included, restores), map[], resolvable) <==>
      if included == [] || restores == [] then AcceptableV1(base.restores)
      else forall m :: Owns(staged, m) ==> TrimSpace(m.id) == m.id
  {
    PlainBundleIsAccepted(layout, staged, restores);
  }

  // ----- reading back -----

  lemma {:induction false} OfLaneCounts(restores: seq<RestoreEntry>, captureID: string, e: RestoreEntry)
    ensures multiset(OfLane(restores, captureID))[e] ==
      if !e.Anonymous() && e.legacyCaptureID == captureID then multiset(restores)[e] else 0
  {
    if restores != [] {
      var n := |restores| - 1;
      assert restores == restores[..n] + [restores[n]];
      OfLaneCounts(restores[..n], captureID, e);
    }
  }

  lemma {:induction false} FromModuleCounts(restores: seq<RestoreEntry>, moduleID: string, e: RestoreEntry)
    ensures multiset(FromModule(restores, moduleID))[e] ==
      if e.fromModule == moduleID then multiset(restores)[e] else 0
  {
    if restores != [] {
      var n := |restores| - 1;
      assert restores == restores[..n] + [restores[n]];
      FromModuleCounts(restores[..n], moduleID, e);
    }
  }

  /** Among all written entries, the ones of one module are its own kept entries. */
  lemma {:induction false} OwnCounts(layout: Layout, staged: seq<Module>, count: nat, i: nat, e: RestoreEntry)
    requires DistinctIDs(staged) && count <= |staged| && i < |staged| && e.fromModule == staged[i].id
    ensures multiset(AllEntries(layout, Members(staged), staged, count))[e] ==
      if i < count then multiset(OwnKept(layout, staged, staged[i]))[e] else 0
  {
    if count > 0 {
      var n: nat := count - 1;
      OwnCounts(layout, staged, n, i, e);
      AllEntriesCount(layout, staged, n, e);
      if n != i { OthersEntry(layout, staged, n, i, e); }
    }
  }

  lemma AllEntriesCount(layout: Layout, staged: seq<Module>, n: nat, e: RestoreEntry)
    requires n < |staged|
    ensures multiset(AllEntries(layout, Members(staged), staged, n + 1))[e] ==
      multiset(AllEntries(layout, Members(staged), staged, n))[e] + multiset(OwnKept(layout, staged, staged[n]))[e]
  {
    var m := staged[n];
    var all := Members(staged);
    CountConcat(AllEntries(layout, all, staged, n), KeptEntries(layout, all, m, |m.restores|), e);
  }

  lemma CountConcat(a: seq<RestoreEntry>, b: seq<RestoreEntry>, e: RestoreEntry)
    ensures multiset(a + b)[e] == multiset(a)[e] + multiset(b)[e]
  {
  }

  lemma OthersEntry(layout: Layout, staged: seq<Module>, n: nat, i: nat, e: RestoreEntry)
    requires DistinctIDs(staged) && n < |staged| && i < |staged| && n != i && e.fromModule == staged[i].id
    ensures multiset(OwnKept(layout, staged, staged[n]))[e] == 0
  {
    assert staged[n].id != staged[i].id;
    if e in OwnKept(layout, staged, staged[n]) { EntryIdentity(layout, staged, staged[n], e); }
  }

  lemma OwnCount(layout: Layout, staged: seq<Module>, m: Module, e: RestoreEntry)
    requires DistinctIDs(staged) && m in staged && e.fromModule == m.id
    ensures multiset(AllEntries(layout, Members(staged), staged, |staged|))[e] ==
      multiset(OwnKept(layout, staged, m))[e]
  {
    var i :| 0 <= i < |staged| && staged[i] == m;
    OwnCounts(layout, staged, |staged|, i, e);
  }

  /** The entries the reader attaches to a lane are exactly the ones its module kept. */
  lemma LaneEntriesRoundTrip(layout: Layout, staged: seq<Module>, restores: seq<RestoreEntry>, m: Module)
    requires DistinctIDs(staged) && m in staged
    requires multiset(restores) == multiset(AllEntries(layout, Members(staged), staged, |staged|))
    ensures layout.mixed ==> multiset(OfLane(restores, LegacyCaptureID(m.id))) == multiset(OwnKept(layout, staged, m))
    ensures multiset(FromModule(restores, m.id)) == multiset(OwnKept(layout, staged, m))
  {
    var own := OwnKept(layout, staged, m);
    forall e ensures multiset(FromModule(restores, m.id))[e] == multiset(own)[e] {
      FromModuleCounts(restores, m.id, e);
      if e in own { EntryIdentity(layout, staged, m, e); }
      if e.fromModule == m.id { OwnCount(layout, staged, m, e); }
    }
    if layout.mixed {
      forall e ensures multiset(OfLane(restores, LegacyCaptureID(m.id)))[e] == multiset(own)[e] {
        LaneCount(layout, staged, restores, m, e);
      }
    }
  }

  lemma LaneCount(layout: Layout, staged: seq<Module>, restores: seq<RestoreEntry>, m: Module, e: RestoreEntry)
    requires layout.mixed && DistinctIDs(staged) && m in staged
    requires multiset(restores) == multiset(AllEntries(layout, Members(staged), staged, |staged|))
    ensures multiset(OfLane(restores, LegacyCaptureID(m.id)))[e] == multiset(OwnKept(layout, staged, m))[e]
  {
    OfLaneCounts(restores, LegacyCaptureID(m.id), e);
    if e in OwnKept(layout, staged, m) { EntryIdentity(layout, staged, m, e); }
    if e in restores {
      WrittenEntries(layout, staged, restores, e);
      var o :| o in staged && e in OwnKept(layout, staged, o);
      EntryIdentity(layout, staged, o, e);
      if e.legacyCaptureID == LegacyCaptureID(m.id) { LegacyCaptureIDInjective(o.id, m.id); }
    }
    if e.fromModule == m.id { OwnCount(layout, staged, m, e); }
  }

  /** A mixed bundle reads back as one lane per module that kept entries, with exactly those entries. */
  lemma MixedBundleRoundTrip(layout: Layout, staged: seq<Module>, lanes: seq<Lane>, moduleIDs: seq<string>,
    included: seq<string>, payloads: set<string>, restores: seq<RestoreEntry>,
    m: Manifest, inputs: Inputs, mappings: map<string, string>, filter: set<string>)
    requires layout.mixed && DistinctIDs(staged) && forall o :: o in staged ==> o.restores != []
    requires Collected(layout, staged, lanes, moduleIDs, included, payloads, restores)
    requires m.lanes == lanes && m.restores == restores && ReadsV2(inputs, m, mappings, filter)
    ensures inputs.ordinary == []
    ensures forall k :: 0 <= k < |inputs.lanes| ==> FromOwner(inputs.lanes[k], layout, staged)
    ensures forall o :: Owns(staged, o) ==> HasLane(inputs.lanes, layout, staged, o)
  {
    forall l ensures l in lanes <==> exists o :: Owns(staged, o) && l == LaneOf(layout, o) {
      WrittenLanes(layout, staged, lanes, moduleIDs, included, payloads, l);
    }
    forall k | 0 <= k < |inputs.lanes| ensures FromOwner(inputs.lanes[k], layout, staged) {
      LaneForMember(lanes, inputs.lanes[k].captureID);
      var o :| Owns(staged, o) && LaneFor(lanes, inputs.lanes[k].captureID).value == LaneOf(layout, o);
      LaneEntriesRoundTrip(layout, staged, restores, o);
      assert ReadBack(inputs.lanes[k], layout, staged, o);
    }
    forall o | Owns(staged, o) ensures HasLane(inputs.lanes, layout, staged, o) {
      assert LaneOf(layout, o) in lanes;
      var k :| 0 <= k < |inputs.lanes| && inputs.lanes[k].captureID == LegacyCaptureID(o.id);
      LaneForModule(layout, staged, lanes, o);
      LaneEntriesRoundTrip(layout, staged, restores, o);
      assert ReadBack(inputs.lanes[k], layout, staged, o);
    }
    NoneAnonymous(layout, staged, restores);
  }

  ghost predicate ReadBack(lane: LaneInput, layout: Layout, staged: seq<Module>, m: Module) {
    && lane.captureID == LegacyCaptureID(m.id) && lane.moduleID == m.id
    && multiset(lane.entries) == multiset(OwnKept(layout, staged, m))
  }

  ghost predicate FromOwner(lane: LaneInput, layout: Layout, staged: seq<Module>) {
    exists o :: Owns(staged, o) && ReadBack(lane, layout, staged, o)
  }

  ghost predicate HasLane(lanes: seq<LaneInput>, layout: Layout, staged: seq<Module>, m: Module) {
    exists k :: 0 <= k < |lanes| && ReadBack(lanes[k], layout, staged, m)
  }

  lemma NoneAnonymous(layout: Layout, staged: seq<Module>, restores: seq<RestoreEntry>)
    requires layout.mixed
    requires multiset(restores) == multiset(AllEntries(layout, Members(staged), staged, |staged|))
    ensures AnonymousOnes(restores) == []
  {
    forall e | e in restores ensures !e.Anonymous() {
      WrittenEntries(layout, staged, restores, e);
      var o :| o in staged && e in OwnKept(layout, staged, o);
      EntryIdentity(layout, staged, o, e);
    }
    NoAnonymousOnes(restores);
  }

  lemma {:induction false} NoAnonymousOnes(restores: seq<RestoreEntry>)
    requires forall e :: e in restores ==> !e.Anonymous()
    ensures AnonymousOnes(restores) == []
  {
    if restores != [] { NoAnonymousOnes(restores[..|restores| - 1]); }
  }

  /** A plain bundle regroups to one lane per named module that kept entries, with exactly those entries. */
  lemma {:induction false} PlainBundleRoundTrip(layout: Layout, staged: seq<Module>, restores: seq<RestoreEntry>,
    inputs: Inputs, filter: set<string>)
    requires !layout.mixed && DistinctIDs(staged)
    requires multiset(restores) == multiset(AllEntries(layout, Members(staged), staged, |staged|))
    requires ReadsV1(inputs, restores, filter)
    ensures forall k :: 0 <= k < |inputs.lanes| ==> FromOwner(inputs.lanes[k], layout, staged)
    ensures forall o :: Owns(staged, o) && o.id != "" ==> HasLane(inputs.lanes, layout, staged, o)
  {
    forall k | 0 <= k < |inputs.lanes| ensures FromOwner(inputs.lanes[k], layout, staged) {
      var lane := inputs.lanes[k];
      assert V1Lane(lane, restores, filter);
      var e := lane.entries[0];
      FromModuleMembers(restores, lane.moduleID, e);
      WrittenEntries(layout, staged, restores, e);
      var o :| o in staged && e in OwnKept(layout, staged, o);
      EntryIdentity(layout, staged, o, e);
      LaneEntriesRoundTrip(layout, staged, restores, o);
      assert ReadBack(lane, layout, staged, o) && Owns(staged, o);
    }
    forall o | Owns(staged, o) && o.id != "" ensures HasLane(inputs.lanes, layout, staged, o) {
      OwnsEntries(layout, staged, o);
      var e := OwnKept(layout, staged, o)[0];
      EntryIdentity(layout, staged, o, e);
      WrittenEntries(layout, staged, restores, e);
      var k :| 0 <= k < |inputs.lanes| && inputs.lanes[k].moduleID == o.id;
      assert V1Lane(inputs.lanes[k], restores, filter);
      LaneEntriesRoundTrip(layout, staged, restores, o);
      assert ReadBack(inputs.lanes[k], layout, staged, o);
    }
  }

  // ----- the other lists -----

  /** The included names are exactly those of the modules still listed when, and only when, no dropped
    * module shares its short name with one of them. */
  lemma IncludedExactly(layout: Layout, staged: seq<Module>, lanes: seq<Lane>, moduleIDs: seq<string>,
    included: seq<string>, payloads: set<string>)
    requires Remain(layout, staged, |staged|, lanes, moduleIDs, included, payloads)
    ensures var gone := GoneOf(staged, |staged|);
      Elements(included) == ShortIDSet(Members(staged) - gone) <==>
      forall m, g :: m in Members(staged) - gone && g in gone ==> ShortID(m.id) != ShortID(g.id)
  {
    var gone := GoneOf(staged, |staged|);
    var kept := Members(staged) - gone;
    if Elements(included) == ShortIDSet(kept) {
      forall m, g | m in kept && g in gone ensures ShortID(m.id) != ShortID(g.id) {
        assert ShortID(m.id) in ShortIDSet(kept) && ShortID(g.id) in ShortIDSet(gone);
      }
    }
  }

  /** In a plain bundle the short names are the directories, so they never clash. */
  lemma PlainIncludedExactly(layout: Layout, staged: seq<Module>, lanes: seq<Lane>, moduleIDs: seq<string>,
    included: seq<string>, payloads: set<string>)
    requires !layout.mixed && DistinctDirectories(layout, staged)
    requires Remain(layout, staged, |staged|, lanes, moduleIDs, included, payloads)
    ensures Elements(included) == ShortIDSet(Members(staged) - GoneOf(staged, |staged|)) == payloads
  {
    DirectoriesDiffer(layout, staged);
    IncludedExactly(layout, staged, lanes, moduleIDs, included, payloads);
    assert staged[..|staged|] == staged;
    assert ShortIDSet(Members(staged) - GoneOf(staged, |staged|)) ==
      DirectorySet(layout, Members(staged) - GoneOf(staged, |staged|));
  }

  // Two modules of one short name and one target: the weaker is dropped.

  function OneTarget(id: string, packaged: bool): Module {
    Module(id, 1, packaged, false, [RestoreDef(RestoreAction("copy", "/x", "", ""), "", Some(Filesystem("/x")))], [id])
  }

  function NamedByID(): Layout {
    Layout(true, (id: string) => id, (source: string, directory: string) => source)
  }

  function OneFile(m: Module): Collection {
    Payload(1)
  }

  method CollectBoth() returns (moduleIDs: seq<string>, included: seq<string>, captured: seq<Module>)
    ensures "foo" in moduleIDs && "apps.foo" !in moduleIDs && included == []
    ensures captured == [OneTarget("apps.foo", false), OneTarget("foo", true)]
  {
    var weak, strong := OneTarget("apps.foo", false), OneTarget("foo", true);
    SortedAlready(weak, strong);
    BothStaged(weak, strong);
    var c := new LegacyCapture();
    var ok := c.Collect([weak, strong], NamedByID(), OneFile);
    assert ok && c.captured == [weak, strong];
    WeakTakesTheName(weak, strong, c.lanes, c.moduleIDs, c.included, c.payloads);
    return c.moduleIDs, c.included, c.captured;
  }

  /** A module keeps its entry and its lane, and is not listed as included; the module that lost to it,
    * and is listed nowhere, still ships its verify entry. */
  method KeptModuleIsNotIncluded() returns (moduleIDs: seq<string>, included: seq<string>, verifies: seq<string>)
    ensures "foo" in moduleIDs && "apps.foo" !in moduleIDs && included == [] && verifies == ["apps.foo", "foo"]
  {
    var captured;
    moduleIDs, included, captured := CollectBoth();
    BothVerify(captured[0], captured[1]);
    var shipped, order := CapturedVerifies(captured);
    TwoInOrder(captured[0], captured[1], order);
    verifies := shipped.value;
  }

  lemma BothVerify(weak: Module, strong: Module)
    requires weak == OneTarget("apps.foo", false) && strong == OneTarget("foo", true)
    ensures OneModulePerID(Elements([weak, strong])) && Less(weak.id, strong.id)
    ensures VerifiesOf([weak, strong]) == ["apps.foo", "foo"]
  {
    assert weak.id[0] != strong.id[0];
    assert [weak, strong][..1] == [weak] && [weak][..0] == [];
    assert VerifiesOf([weak]) == [] + ["apps.foo"];
  }

  lemma {:induction false} DistinctCount(mods: seq<Module>)
    requires NoRepeats(mods)
    ensures |Elements(mods)| == |mods|
  {
    if mods != [] {
      assert mods == [mods[0]] + mods[1..];
      DistinctCount(mods[1..]);
      assert mods[0] !in Elements(mods[1..]);
      assert Elements(mods) == {mods[0]} + Elements(mods[1..]);
    }
  }

  lemma TwoInOrder(a: Module, b: Module, order: seq<Module>)
    requires Elements(order) == Elements([a, b]) && Ascending(order) && Less(a.id, b.id)
    ensures order == [a, b]
  {
    forall i, j | 0 <= i < j < |order| ensures order[i] != order[j] { LessTotal(order[i].id, order[j].id); }
    DistinctCount(order);
    LessTotal(a.id, b.id);
    DistinctCount([a, b]);
    assert order[0] in Elements([a, b]) && order[1] in Elements([a, b]);
    LessTotal(b.id, b.id);
  }

  lemma WeakTakesTheName(weak: Module, strong: Module, lanes: seq<Lane>, moduleIDs: seq<string>,
    included: seq<string>, payloads: set<string>)
    requires weak == OneTarget("apps.foo", false) && strong == OneTarget("foo", true)
    requires Remain(NamedByID(), [weak, strong], 2, lanes, moduleIDs, included, payloads)
    ensures "foo" in moduleIDs && "apps.foo" !in moduleIDs && included == []
  {
    OnlyWeakGone(weak, strong);
    assert Members([weak, strong]) - {weak} == {strong};
    assert strong in {strong} && "foo" in IDSet({strong}) && "foo" in Elements(moduleIDs);
    assert IDSet({strong}) == {"foo"} && "apps.foo" !in Elements(moduleIDs);
    assert ShortID("foo") == "foo" == ShortID("apps.foo");
    assert ShortIDSet({strong}) == {"foo"} == ShortIDSet({weak});
    assert Elements(included) == {};
    NoElements(included);
  }

  lemma NoElements(s: seq<string>)
    ensures Elements(s) == {} <==> s == []
  {
    assert s != [] ==> s[0] in Elements(s);
  }

  lemma SortedAlready(a: Module, b: Module)
    requires a.id == "apps.foo" && b.id == "foo"
    ensures SortBy([a, b], ByID) == [a, b]
  {
    assert [a, b][1..] == [b] && [b][1..] == [];
    assert SortBy([b], ByID) == [b];
    assert !Less(b.id, a.id);
  }

  lemma BothStaged(a: Module, b: Module)
    requires a == OneTarget("apps.foo", false) && b == OneTarget("foo", true)
    ensures Stageable([a, b], 2, NamedByID(), OneFile) && StagedOf([a, b], 2, NamedByID(), OneFile) == [a, b]
  {
    var mods, layout, collect := [a, b], NamedByID(), OneFile;
    assert a.id[0] != b.id[0];
    assert StagedOf(mods, 1, layout, collect) == [] + [a];
    assert StagedOf(mods, 2, layout, collect) == [a] + [b];
  }

  lemma OnlyWeakGone(weak: Module, strong: Module)
    requires weak == OneTarget("apps.foo", false) && strong == OneTarget("foo", true)
    ensures GoneOf([weak, strong], 2) == {weak}
  {
    var all := Members([weak, strong]);
    assert [weak, strong][..2] == [weak, strong];
    assert all == {weak, strong};
    assert Clash(Entry(strong, 0), Entry(weak, 0)) && Beats(strong, weak);
    assert Loses(all, Entry(weak, 0));
    assert !Loses(all, Entry(strong, 0));
  }

  function VerifiesOf(mods: seq<Module>): seq<string> {
    if mods == [] then [] else VerifiesOf(mods[..|mods| - 1]) + mods[|mods| - 1].verifies
  }

  /** In ascending order of IDs, so each module once. */
  ghost predicate Ascending(mods: seq<Module>) {
    forall i, j :: 0 <= i < j < |mods| ==> Less(mods[i].id, mods[j].id)
  }

  /** Verify entries of every captured module, dropped or not, each module once, in ID order;
    * two different modules under one ID are refused. */
  method CapturedVerifies(captured: seq<Module>) returns (verifies: Option<seq<string>>, ghost order: seq<Module>)
    ensures verifies.Some? <==> OneModulePerID(Elements(captured))
    ensures verifies.Some? ==> Elements(order) == Elements(captured) && Ascending(order)
    ensures verifies.Some? ==> verifies.value == VerifiesOf(order)
  {
    var ordered := Sort(captured, ByID);
    var seen: set<Module> := {};
    var all: seq<string> := [];
    order := [];
    for n := 0 to |ordered|
      invariant seen == Members(ordered[..n]) == Elements(order) && OneModulePerID(seen)
      invariant Ascending(order) && all == VerifiesOf(order)
    {
      var m := ordered[n];
      assert ordered[..n + 1] == ordered[..n] + [m];
      assert m in Elements(ordered);
      if m !in seen {
        OneMore(seen, m, Elements(ordered));
        if m.id in IDSet(seen) {
          return None, order;
        }
        AscendingNext(ordered, n, order);
        assert (order + [m])[..|order|] == order;
        seen, all, order := seen + {m}, all + m.verifies, order + [m];
      }
    }
    assert ordered[..|ordered|] == ordered && seen == Elements(captured);
    return Some(all), order;
  }

  lemma OneMore(seen: set<Module>, m: Module, all: set<Module>)
    requires OneModulePerID(seen) && m !in seen && seen <= all && m in all
    ensures m.id !in IDSet(seen) <==> OneModulePerID(seen + {m})
    ensures OneModulePerID(all) ==> m.id !in IDSet(seen)
  {
    if m.id in IDSet(seen) {
      var other :| other in seen && other.id == m.id;
      assert other in seen + {m} && m in seen + {m};
    }
  }

  lemma AscendingNext(ordered: seq<Module>, n: nat, order: seq<Module>)
    requires n < |ordered| && SortedBy(ordered, ByID) && Elements(order) == Members(ordered[..n]) && Ascending(order)
    requires ordered[n].id !in IDSet(Elements(order))
    ensures Ascending(order + [ordered[n]])
  {
    forall i | 0 <= i < |order| ensures Less(order[i].id, ordered[n].id) {
      assert order[i] in Elements(order);
      var k :| 0 <= k < n && ordered[k] == order[i];
      assert !Less(ByID(ordered[n]), ByID(ordered[k]));
      assert order[i].id in IDSet(Elements(order));
      LessTotal(order[i].id, ordered[n].id);
    }
  }

  /** What the artifact says: a version-2 one everything that was collected, and any other only the entries and
    * modules, or those it started from where nothing was kept. */
  lemma ArtifactExactly(base: Manifest, version: int, captures: seq<Capture>, lanes: seq<Lane>,
    moduleIDs: seq<string>, included: seq<string>, restores: seq<RestoreEntry>)
    ensures var m := PrepareManifest(base, version, captures, lanes, moduleIDs, included, restores);
      && m.version == version
      && (version == 2 ==>
           m.captures == captures && m.lanes == lanes && m.restores == restores && m.modules == moduleIDs)
      && (version != 2 ==>
        && m.captures == [] && m.lanes == []
        && m.restores == (if included == [] || restores == [] then base.restores else restores)
        && m.modules == (if included == [] then base.modules else moduleIDs))
  {
  }
}
