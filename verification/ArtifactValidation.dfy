/** The producer's artifact and the strict loader: before it is published, a mixed bundle's manifest is
  * loaded strictly. This says exactly when it passes. */
module ArtifactValidation {
  import opened ConfigPlan
  import opened Text
  import opened Ordering
  import opened Identity
  import TextCodec
  import opened CaptureGuard
  import opened RestoreInputs
  import opened CaptureLanes
  import opened BundleAgreement
  import opened StrictManifest
  import opened PayloadNaming

  /** The captures of a bundle carry identities of captured sets. */
  ghost predicate IsCaptureID(id: string) {
    exists moduleID, setID, instanceID :: id == CaptureID(moduleID, setID, instanceID)
  }

  ghost predicate ProducedCaptures(captures: seq<Capture>) {
    forall c :: c in captures ==> IsCaptureID(c.captureID)
  }

  /** Hexadecimal digits behind a stable prefix are a stable identifier. */
  lemma LaneIDIsStable(moduleID: string)
    ensures StableID(LegacyCaptureID(moduleID))
  {
    var frame := LegacyFrame(moduleID);
    HexIsWord(frame);
    WordIsStable("legacy", Hex(frame));
    assert "legacy" + "-" == "legacy-";
  }

  lemma HexIsWord(bytes: seq<TextCodec.Byte>)
    requires bytes != []
    ensures Word(Hex(bytes))
  {
    HexText(bytes);
    forall i | 0 <= i < |Hex(bytes)| ensures Alphanumeric(Hex(bytes)[i]) {
      assert Hex(bytes)[i] in HEX;
      HexIsAlphanumeric(Hex(bytes)[i]);
    }
  }

  lemma HexIsAlphanumeric(c: char)
    requires c in HEX
    ensures Alphanumeric(c)
  {
  }

  predicate Word(s: string) {
    s != "" && forall i :: 0 <= i < |s| ==> Alphanumeric(s[i])
  }

  /** Two words joined by a dash, the first beginning with a letter, are a stable identifier. */
  lemma WordIsStable(first: string, second: string)
    requires Word(first) && Word(second) && 'a' <= first[0] <= 'z'
    ensures StableID(first + "-" + second)
  {
    var id := first + "-" + second;
    assert id[0] == first[0];
    forall i | 0 <= i < |id| ensures StableAt(id, i) {
      if i < |first| {
        assert id[i] == first[i];
      } else if i == |first| {
        assert id[i] == '-' && id[i + 1] == second[0];
      } else {
        assert id[i] == second[i - |first| - 1];
      }
    }
  }

  function RootOf(layout: Layout, m: Module): string {
    "configs/" + DirectoryOf(layout, m)
  }

  /** A keeping module's lane has a stable module, a valid directory, and stays clear of the captured sets. */
  predicate LaneFitting(layout: Layout, captures: seq<Capture>, m: Module) {
    && StableID(m.id) && ValidRoot(RootOf(layout, m))
    && forall c :: c in captures ==> c.moduleID != m.id && !PortableOverlap(c.payloadRoot, RootOf(layout, m))
  }

  predicate DirectoriesApart(layout: Layout, a: Module, b: Module) {
    !PortableOverlap(RootOf(layout, a), RootOf(layout, b))
  }

  /** Every source that is shipped was rewritten to lie under the module's directory, or is blank. */
  ghost predicate SourcesFitting(layout: Layout, staged: seq<Module>, m: Module) {
    forall e :: e in OwnKept(layout, staged, m) ==> UnderRoot(e.source, RootOf(layout, m))
  }

  ghost predicate Fitting(layout: Layout, captures: seq<Capture>, staged: seq<Module>) {
    && (forall m :: Owns(staged, m) ==> LaneFitting(layout, captures, m) && SourcesFitting(layout, staged, m))
    && forall a, b :: Owns(staged, a) && Owns(staged, b) && a != b ==> DirectoriesApart(layout, a, b)
  }

  ghost predicate LanesOfOwners(layout: Layout, staged: seq<Module>, lanes: seq<Lane>) {
    NoRepeats(lanes) && forall l :: l in lanes <==> exists m :: Owns(staged, m) && l == LaneOf(layout, m)
  }

  lemma LaneClear(layout: Layout, captures: seq<Capture>, m: Module)
    requires ProducedCaptures(captures)
    ensures (WellFormed(LaneOf(layout, m)) && forall c :: c in captures ==> ClearOfCapture(c, LaneOf(layout, m))) <==>
      LaneFitting(layout, captures, m)
  {
    LaneIDIsStable(m.id);
    forall c | c in captures ensures c.captureID != LegacyCaptureID(m.id) {
      assert IsCaptureID(c.captureID);
      var x, y, z :| c.captureID == CaptureID(x, y, z);
      KindsDiffer(m.id, x, y, z);
    }
    if LaneFitting(layout, captures, m) {
      forall c | c in captures ensures ClearOfCapture(c, LaneOf(layout, m)) {
      }
    } else if WellFormed(LaneOf(layout, m)) && forall c :: c in captures ==> ClearOfCapture(c, LaneOf(layout, m)) {
      assert false;
    }
  }

  lemma OwnersLanesDiffer(layout: Layout, staged: seq<Module>, a: Module, b: Module)
    requires DistinctIDs(staged) && Owns(staged, a) && Owns(staged, b) && a != b
    ensures LaneOf(layout, a).captureID != LaneOf(layout, b).captureID && a.id != b.id
  {
    assert a.id != b.id;
    if LegacyCaptureID(a.id) == LegacyCaptureID(b.id) { LegacyCaptureIDInjective(a.id, b.id); }
  }

  lemma FittingLanesFit(layout: Layout, captures: seq<Capture>, staged: seq<Module>, lanes: seq<Lane>)
    requires DistinctIDs(staged) && ProducedCaptures(captures) && LanesOfOwners(layout, staged, lanes)
    requires Fitting(layout, captures, staged)
    ensures LanesFit(captures, lanes)
  {
    forall n | 0 <= n < |lanes| ensures LaneFits(captures, lanes[..n], lanes[n]) {
      assert lanes[n] in lanes;
      var m :| Owns(staged, m) && lanes[n] == LaneOf(layout, m);
      LaneClear(layout, captures, m);
      forall o | o in lanes[..n] ensures ClearOfLane(o, lanes[n]) {
        var i :| 0 <= i < n && lanes[i] == o;
        assert o in lanes;
        var a :| Owns(staged, a) && o == LaneOf(layout, a);
        OwnersLanesDiffer(layout, staged, a, m);
        assert DirectoriesApart(layout, a, m);
      }
    }
  }

  lemma FitLanesFitting(layout: Layout, captures: seq<Capture>, staged: seq<Module>, lanes: seq<Lane>)
    requires ProducedCaptures(captures) && LanesOfOwners(layout, staged, lanes) && LanesFit(captures, lanes)
    ensures forall m :: Owns(staged, m) ==> LaneFitting(layout, captures, m)
    ensures forall a, b :: Owns(staged, a) && Owns(staged, b) && a.id != b.id ==> DirectoriesApart(layout, a, b)
  {
    forall m | Owns(staged, m) ensures LaneFitting(layout, captures, m) {
      assert LaneOf(layout, m) in lanes;
      FitIsWellFormed(captures, lanes, LaneOf(layout, m));
      LaneClear(layout, captures, m);
    }
    forall a, b | Owns(staged, a) && Owns(staged, b) && a.id != b.id ensures DirectoriesApart(layout, a, b) {
      var la, lb := LaneOf(layout, a), LaneOf(layout, b);
      assert la in lanes && lb in lanes && la.moduleID != lb.moduleID;
      var i :| 0 <= i < |lanes| && lanes[i] == la;
      var j :| 0 <= j < |lanes| && lanes[j] == lb;
      OverlapBothWays(la.payloadRoot, lb.payloadRoot);
      if i < j { LanesClear(captures, lanes, i, j); } else { LanesClear(captures, lanes, j, i); }
    }
  }

  lemma OverlapBothWays(a: string, b: string)
    ensures PortableOverlap(a, b) == PortableOverlap(b, a)
  {
  }

  /** The artifact of a mixed bundle passes the strict loader exactly when the directories its lanes were
    * given are valid and clear of each other and of the captured sets, module IDs are stable and not
    * used by a captured set, and every shipped source lies in its own module's directory. */
  lemma MixedBundleIsStrict(layout: Layout, staged: seq<Module>, lanes: seq<Lane>, moduleIDs: seq<string>,
    included: seq<string>, payloads: set<string>, restores: seq<RestoreEntry>, base: Manifest, captures: seq<Capture>)
    requires layout.mixed && DistinctIDs(staged) && forall m :: m in staged ==> m.restores != []
    requires Collected(layout, staged, lanes, moduleIDs, included, payloads, restores) && ProducedCaptures(captures)
    ensures StrictLanes(PrepareManifest(base, 2, captures, lanes, moduleIDs, included, restores)) <==>
      Fitting(layout, captures, staged)
  {
    OwnersLanes(layout, staged, lanes, moduleIDs, included, payloads);
    ListedModulesMatch(layout, staged, lanes, moduleIDs, included, payloads);
    AllLanesUsed(layout, staged, lanes, restores);
    if Fitting(layout, captures, staged) { FittingIsStrict(layout, captures, staged, lanes, restores); }
    if LanesFit(captures, lanes) && forall e :: e in restores ==> StrictEntry(e, captures, lanes) {
      StrictIsFitting(layout, captures, staged, lanes, restores);
    }
  }

  lemma OwnersLanes(layout: Layout, staged: seq<Module>, lanes: seq<Lane>, moduleIDs: seq<string>,
    included: seq<string>, payloads: set<string>)
    requires layout.mixed && forall m :: m in staged ==> m.restores != []
    requires Remain(layout, staged, |staged|, lanes, moduleIDs, included, payloads)
    ensures LanesOfOwners(layout, staged, lanes)
  {
    forall l ensures l in lanes <==> exists o :: Owns(staged, o) && l == LaneOf(layout, o) {
      WrittenLanes(layout, staged, lanes, moduleIDs, included, payloads, l);
    }
  }

  lemma FittingIsStrict(layout: Layout, captures: seq<Capture>, staged: seq<Module>, lanes: seq<Lane>,
    restores: seq<RestoreEntry>)
    requires layout.mixed && DistinctIDs(staged) && ProducedCaptures(captures) && LanesOfOwners(layout, staged, lanes)
    requires multiset(restores) == multiset(AllEntries(layout, Members(staged), staged, |staged|))
    requires Fitting(layout, captures, staged)
    ensures LanesFit(captures, lanes) && forall e :: e in restores ==> StrictEntry(e, captures, lanes)
  {
    FittingLanesFit(layout, captures, staged, lanes);
    forall e | e in restores ensures StrictEntry(e, captures, lanes) {
      EntryIsStrict(layout, captures, staged, lanes, restores, e);
    }
  }

  lemma StrictIsFitting(layout: Layout, captures: seq<Capture>, staged: seq<Module>, lanes: seq<Lane>,
    restores: seq<RestoreEntry>)
    requires layout.mixed && DistinctIDs(staged) && ProducedCaptures(captures) && LanesOfOwners(layout, staged, lanes)
    requires multiset(restores) == multiset(AllEntries(layout, Members(staged), staged, |staged|))
    requires LanesFit(captures, lanes) && forall e :: e in restores ==> StrictEntry(e, captures, lanes)
    ensures Fitting(layout, captures, staged)
  {
    FitLanesFitting(layout, captures, staged, lanes);
    forall o | Owns(staged, o) ensures SourcesFitting(layout, staged, o) {
      StrictSources(layout, captures, staged, lanes, restores, o);
    }
  }

  lemma ListedModulesMatch(layout: Layout, staged: seq<Module>, lanes: seq<Lane>, moduleIDs: seq<string>,
    included: seq<string>, payloads: set<string>)
    requires layout.mixed && Remain(layout, staged, |staged|, lanes, moduleIDs, included, payloads)
    ensures NoRepeats(moduleIDs) && Elements(moduleIDs) == ModulesOf(lanes) && NoRepeats(lanes)
  {
    var kept := Members(staged) - GoneOf(staged, |staged|);
    forall l ensures l in lanes <==> l in LaneSet(layout, kept) { assert l in lanes <==> l in Elements(lanes); }
    forall id ensures id in ModulesOf(lanes) <==> id in IDSet(kept) {
      if id in IDSet(kept) {
        var o :| o in kept && o.id == id;
        assert LaneOf(layout, o) in lanes;
      }
    }
  }

  lemma {:induction false} AllLanesUsed(layout: Layout, staged: seq<Module>, lanes: seq<Lane>,
    restores: seq<RestoreEntry>)
    requires layout.mixed
    requires forall l :: l in lanes <==> exists m :: Owns(staged, m) && l == LaneOf(layout, m)
    requires multiset(restores) == multiset(AllEntries(layout, Members(staged), staged, |staged|))
    ensures forall l :: l in lanes ==> l.captureID in UsedBy(restores)
  {
    forall l | l in lanes ensures l.captureID in UsedBy(restores) {
      var o :| Owns(staged, o) && l == LaneOf(layout, o);
      OwnsEntries(layout, staged, o);
      var e := OwnKept(layout, staged, o)[0];
      EntryIdentity(layout, staged, o, e);
      WrittenEntries(layout, staged, restores, e);
    }
  }

  lemma EntryIsStrict(layout: Layout, captures: seq<Capture>, staged: seq<Module>, lanes: seq<Lane>,
    restores: seq<RestoreEntry>, e: RestoreEntry)
    requires layout.mixed && LanesOfOwners(layout, staged, lanes) && Fitting(layout, captures, staged)
    requires multiset(restores) == multiset(AllEntries(layout, Members(staged), staged, |staged|)) && e in restores
    ensures StrictEntry(e, captures, lanes)
  {
    WrittenEntries(layout, staged, restores, e);
    var o :| o in staged && e in OwnKept(layout, staged, o);
    EntryIdentity(layout, staged, o, e);
    assert Owns(staged, o) && SourcesFitting(layout, staged, o);
    assert LaneOf(layout, o) in lanes && Serves(LaneOf(layout, o), e);
  }

  lemma LaneOfOwner(layout: Layout, staged: seq<Module>, lanes: seq<Lane>, l: Lane, m: Module)
    requires LanesOfOwners(layout, staged, lanes) && l in lanes && l.captureID == LegacyCaptureID(m.id)
    ensures l.payloadRoot == RootOf(layout, m)
  {
    var o :| Owns(staged, o) && l == LaneOf(layout, o);
    LegacyCaptureIDInjective(o.id, m.id);
  }

  lemma StrictSources(layout: Layout, captures: seq<Capture>, staged: seq<Module>, lanes: seq<Lane>,
    restores: seq<RestoreEntry>, m: Module)
    requires layout.mixed && LanesOfOwners(layout, staged, lanes) && Owns(staged, m)
    requires multiset(restores) == multiset(AllEntries(layout, Members(staged), staged, |staged|))
    requires forall e :: e in restores ==> StrictEntry(e, captures, lanes)
    ensures SourcesFitting(layout, staged, m)
  {
    forall e | e in OwnKept(layout, staged, m) ensures UnderRoot(e.source, RootOf(layout, m)) {
      EntryIdentity(layout, staged, m, e);
      WrittenEntries(layout, staged, restores, e);
      assert StrictEntry(e, captures, lanes);
      var l :| l in lanes && Serves(l, e);
      LaneOfOwner(layout, staged, lanes, l, m);
    }
  }

  // ----- with the producer's own names and sources -----

  /** The layout of a mixed bundle. */
  function MixedLayout(): Layout {
    Layout(true, PayloadDirectory, RewriteSource)
  }

  /** A captured set as the producer writes it. */
  ghost predicate IsProduced(c: Capture) {
    exists setID, instanceID ::
      && c.captureID == CaptureID(c.moduleID, setID, instanceID)
      && c.payloadRoot == ConfigPayloadRoot(c.moduleID, c.captureID)
  }

  predicate ClearOfModule(c: Capture, moduleID: string) {
    c.moduleID != moduleID && c.payloadRoot != "configs/" + PayloadDirectory(moduleID)
  }

  /** A keeping module whose lane and sources pass, in terms of what its author wrote. */
  ghost predicate Shippable(captures: seq<Capture>, staged: seq<Module>, m: Module) {
    && StableID(m.id) && (forall c :: c in captures ==> ClearOfModule(c, m.id))
    && forall k: nat :: k < |m.restores| && !Loses(Members(staged), Entry(m, k)) ==>
         SourceFits(m.restores[k].source, PayloadDirectory(m.id))
  }

  lemma ProducedRoot(c: Capture) returns (name: string)
    requires IsProduced(c)
    ensures IsCaptureID(c.captureID) && SafeName(name) && c.payloadRoot == "configs/" + name
  {
    var setID, instanceID :| c.captureID == CaptureID(c.moduleID, setID, instanceID) &&
      c.payloadRoot == ConfigPayloadRoot(c.moduleID, c.captureID);
    IdentitiesAreSafe(c.moduleID, setID, instanceID);
    ReadableIsSafe(c.moduleID, c.captureID);
    name := ReadableName(c.moduleID, c.captureID);
    SafeIsValidRoot(name);
  }

  lemma LaneShippable(captures: seq<Capture>, m: Module)
    requires forall c :: c in captures ==> IsProduced(c)
    ensures LaneFitting(MixedLayout(), captures, m) <==>
      StableID(m.id) && forall c :: c in captures ==> ClearOfModule(c, m.id)
  {
    DirectoryIsValid(m.id);
    assert RootOf(MixedLayout(), m) == "configs/" + PayloadDirectory(m.id);
    forall c | c in captures
      ensures PortableOverlap(c.payloadRoot, RootOf(MixedLayout(), m)) <==> c.payloadRoot == RootOf(MixedLayout(), m)
    {
      var name := ProducedRoot(c);
      SafeRootsOverlap(name, PayloadDirectory(m.id));
      assert c.payloadRoot[8..] == name && RootOf(MixedLayout(), m)[8..] == PayloadDirectory(m.id);
    }
    assert (forall c :: c in captures ==> ClearOfModule(c, m.id)) <==>
      forall c :: c in captures ==> c.moduleID != m.id && !PortableOverlap(c.payloadRoot, RootOf(MixedLayout(), m));
  }

  lemma SourcesShippable(staged: seq<Module>, m: Module)
    ensures SourcesFitting(MixedLayout(), staged, m) <==>
      forall k: nat :: k < |m.restores| && !Loses(Members(staged), Entry(m, k)) ==>
        SourceFits(m.restores[k].source, PayloadDirectory(m.id))
  {
    var layout, all := MixedLayout(), Members(staged);
    DirectoryIsValid(m.id);
    forall k: nat | k < |m.restores|
      ensures UnderRoot(EntryOf(layout, m, k).source, RootOf(layout, m)) <==>
        SourceFits(m.restores[k].source, PayloadDirectory(m.id))
    {
      RewrittenSourceFits(m.restores[k].source, PayloadDirectory(m.id));
    }
    if SourcesFitting(layout, staged, m) {
      forall k: nat | k < |m.restores| && !Loses(all, Entry(m, k))
        ensures SourceFits(m.restores[k].source, PayloadDirectory(m.id))
      {
        KeptEntryMembers(layout, all, m, |m.restores|, EntryOf(layout, m, k));
      }
    } else {
      var e :| e in OwnKept(layout, staged, m) && !UnderRoot(e.source, RootOf(layout, m));
      KeptEntryMembers(layout, all, m, |m.restores|, e);
    }
  }

  /** Staging has refused equal directories, and safe names overlap only when they are equal. */
  lemma StagedApart(staged: seq<Module>, a: Module, b: Module)
    requires DistinctDirectories(MixedLayout(), staged) && a in staged && b in staged && a != b
    ensures DirectoriesApart(MixedLayout(), a, b)
  {
    var i :| 0 <= i < |staged| && staged[i] == a;
    var j :| 0 <= j < |staged| && staged[j] == b;
    DirectoryIsValid(a.id);
    DirectoryIsValid(b.id);
    assert DirectoryOf(MixedLayout(), staged[i]) != DirectoryOf(MixedLayout(), staged[j]);
    SafeRootsOverlap(PayloadDirectory(a.id), PayloadDirectory(b.id));
  }

  /** With the producer's own directory names and rewritten sources the artifact of a mixed bundle passes
    * the strict loader exactly when every module that kept an entry has a stable ID, shares neither module
    * nor directory with a captured set, and each of its kept sources fits. Roots are valid by construction. */
  lemma ProducedBundleIsStrict(staged: seq<Module>, lanes: seq<Lane>, moduleIDs: seq<string>, included: seq<string>,
    payloads: set<string>, restores: seq<RestoreEntry>, base: Manifest, captures: seq<Capture>)
    requires DistinctIDs(staged) && DistinctDirectories(MixedLayout(), staged)
    requires forall m :: m in staged ==> m.restores != []
    requires Collected(MixedLayout(), staged, lanes, moduleIDs, included, payloads, restores)
    requires forall c :: c in captures ==> IsProduced(c)
    ensures StrictLanes(PrepareManifest(base, 2, captures, lanes, moduleIDs, included, restores)) <==>
      forall m :: Owns(staged, m) ==> Shippable(captures, staged, m)
  {
    var layout := MixedLayout();
    forall c | c in captures ensures IsCaptureID(c.captureID) { var name := ProducedRoot(c); }
    MixedBundleIsStrict(layout, staged, lanes, moduleIDs, included, payloads, restores, base, captures);
    forall m | Owns(staged, m)
      ensures LaneFitting(layout, captures, m) && SourcesFitting(layout, staged, m) <==>
        Shippable(captures, staged, m)
    {
      LaneShippable(captures, m);
      SourcesShippable(staged, m);
    }
    forall a, b | Owns(staged, a) && Owns(staged, b) && a != b ensures DirectoriesApart(layout, a, b) {
      StagedApart(staged, a, b);
    }
  }
}
