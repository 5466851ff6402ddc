/** Reading a bundle manifest into restore inputs: generation sources, legacy lanes and ordinary
  * restores, for both manifest versions. */
module RestoreInputs {
  import opened ConfigPlan
  import opened Text
  import opened Ordering
  import opened Identity
  import opened PortablePath

  datatype RestoreEntry = RestoreEntry(action: RestoreAction, source: string, fromModule: string,
    legacyCaptureID: string)
  {
    predicate Anonymous() {
      fromModule == "" && legacyCaptureID == ""
    }
  }

  datatype Lane = Lane(captureID: string, moduleID: string, schema: nat, payloadRoot: string)

  datatype Capture = Capture(captureID: string, moduleID: string, payloadRoot: string, hasEvidence: bool)

  datatype Manifest = Manifest(
    version: int, captures: seq<Capture>, lanes: seq<Lane>, restores: seq<RestoreEntry>, modules: seq<string>)

  datatype Source = Source(captureID: string, moduleID: string, selected: bool)

  datatype LaneInput = LaneInput(captureID: string, moduleID: string, entries: seq<RestoreEntry>, selected: bool)

  datatype Inputs = Inputs(
    hasPayloads: bool, sources: seq<Source>, lanes: seq<LaneInput>, ordinary: seq<RestoreEntry>,
    mappings: map<string, string>)

  predicate Includes(filter: set<string>, moduleID: string) {
    filter == {} || moduleID in filter || ("apps." <= moduleID && TrimPrefix(moduleID, "apps.") in filter)
  }

  /** The entries of one module, in manifest order. */
  function FromModule(restores: seq<RestoreEntry>, moduleID: string): seq<RestoreEntry> {
    if restores == [] then []
    else
      var n := |restores| - 1;
      FromModule(restores[..n], moduleID) + if restores[n].fromModule == moduleID then [restores[n]] else []
  }

  /** The entries associated with one lane, in manifest order. */
  function OfLane(restores: seq<RestoreEntry>, captureID: string): seq<RestoreEntry> {
    if restores == [] then []
    else
      var n := |restores| - 1;
      OfLane(restores[..n], captureID) +
      if !restores[n].Anonymous() && restores[n].legacyCaptureID == captureID then [restores[n]] else []
  }

  function AnonymousOnes(restores: seq<RestoreEntry>): seq<RestoreEntry> {
    if restores == [] then []
    else
      var n := |restores| - 1;
      AnonymousOnes(restores[..n]) + if restores[n].Anonymous() then [restores[n]] else []
  }

  lemma {:induction false} FromModuleMembers(restores: seq<RestoreEntry>, moduleID: string, e: RestoreEntry)
    ensures e in FromModule(restores, moduleID) <==> e in restores && e.fromModule == moduleID
  {
    if restores != [] {
      var n := |restores| - 1;
      assert restores == restores[..n] + [restores[n]];
      FromModuleMembers(restores[..n], moduleID, e);
    }
  }

  lemma {:induction false} OfLaneMembers(restores: seq<RestoreEntry>, captureID: string, e: RestoreEntry)
    ensures e in OfLane(restores, captureID) <==> e in restores && !e.Anonymous() && e.legacyCaptureID == captureID
  {
    if restores != [] {
      var n := |restores| - 1;
      assert restores == restores[..n] + [restores[n]];
      OfLaneMembers(restores[..n], captureID, e);
    }
  }

  // ----- version 1 -----

  predicate AcceptableV1(restores: seq<RestoreEntry>) {
    forall e :: e in restores ==> e.legacyCaptureID == "" && TrimSpace(e.fromModule) == e.fromModule
  }

  predicate V1Lane(lane: LaneInput, restores: seq<RestoreEntry>, filter: set<string>) {
    && lane.moduleID != "" && lane.captureID == LegacyCaptureID(lane.moduleID)
    && lane.entries == FromModule(restores, lane.moduleID) && lane.entries != []
    && lane.selected == Includes(filter, lane.moduleID)
  }

  ghost predicate ReadsV1(inputs: Inputs, restores: seq<RestoreEntry>, filter: set<string>) {
    && inputs.ordinary == FromModule(restores, "") && inputs.sources == []
    && (inputs.hasPayloads <==> inputs.lanes != [])
    && (forall k :: 0 <= k < |inputs.lanes| ==> V1Lane(inputs.lanes[k], restores, filter))
    && (forall i, j :: 0 <= i < j < |inputs.lanes| ==> Less(inputs.lanes[i].moduleID, inputs.lanes[j].moduleID))
    && (forall e :: e in restores && e.fromModule != "" ==>
      exists k :: 0 <= k < |inputs.lanes| && inputs.lanes[k].moduleID == e.fromModule)
  }

  function Self(s: string): string { s }

  /** The elements of a set, each once, in ascending order. */
  method SortedElements(s: set<string>) returns (sorted: seq<string>)
    ensures forall x :: x in sorted <==> x in s
    ensures forall i, j :: 0 <= i < j < |sorted| ==> Less(sorted[i], sorted[j])
  {
    var pending, found := s, [];
    while pending != {}
      invariant pending <= s && forall x :: x in found <==> x in s && x !in pending
      invariant forall i, j :: 0 <= i < j < |found| ==> found[i] != found[j]
    {
      var x :| x in pending;
      pending, found := pending - {x}, found + [x];
    }
    sorted := SortBy(found, Self);
    SortByMembers(found, Self);
    SortByElements(found, Self);
    SortBySorts(found, Self);
    forall i, j | 0 <= i < j < |sorted| ensures Less(sorted[i], sorted[j]) {
      assert !Less(Self(sorted[j]), Self(sorted[i]));
      LessTotal(sorted[i], sorted[j]);
    }
  }

  ghost predicate Grouped(restores: seq<RestoreEntry>, ordinary: seq<RestoreEntry>,
    grouped: map<string, seq<RestoreEntry>>)
  {
    && AcceptableV1(restores) && ordinary == FromModule(restores, "") && "" !in grouped
    && (forall id :: id in grouped ==> grouped[id] == FromModule(restores, id) && grouped[id] != [])
    && (forall e :: e in restores && e.fromModule != "" ==> e.fromModule in grouped)
  }

  method GroupV1(restores: seq<RestoreEntry>)
    returns (ok: bool, ordinary: seq<RestoreEntry>, grouped: map<string, seq<RestoreEntry>>)
    ensures ok <==> AcceptableV1(restores)
    ensures ok ==> Grouped(restores, ordinary, grouped)
  {
    ok, grouped, ordinary := false, map[], [];
    for n := 0 to |restores|
      invariant Grouped(restores[..n], ordinary, grouped)
    {
      var e := restores[n];
      if e.legacyCaptureID != "" || (e.fromModule != "" && TrimSpace(e.fromModule) != e.fromModule) {
        assert e in restores;
        return;
      }
      GroupOneMore(restores[..n], e, ordinary, grouped);
      assert restores[..n + 1] == restores[..n] + [e];
      if e.fromModule == "" {
        ordinary := ordinary + [e];
      } else {
        grouped := grouped[e.fromModule := (if e.fromModule in grouped then grouped[e.fromModule] else []) + [e]];
      }
    }
    assert restores[..|restores|] == restores;
    ok := true;
  }

  lemma GroupOneMore(restores: seq<RestoreEntry>, e: RestoreEntry,
    ordinary: seq<RestoreEntry>, grouped: map<string, seq<RestoreEntry>>)
    requires Grouped(restores, ordinary, grouped)
    requires e.legacyCaptureID == "" && TrimSpace(e.fromModule) == e.fromModule
    ensures var own := (if e.fromModule in grouped then grouped[e.fromModule] else []) + [e];
      if e.fromModule == "" then Grouped(restores + [e], ordinary + [e], grouped)
      else Grouped(restores + [e], ordinary, grouped[e.fromModule := own])
  {
    var more := restores + [e];
    assert more[..|restores|] == restores;
    if e.fromModule !in grouped && FromModule(restores, e.fromModule) != [] {
      var x := FromModule(restores, e.fromModule)[0];
      FromModuleMembers(restores, e.fromModule, x);
    }
  }

  /** Groups the entries by module; an entry without a module stays ordinary. */
  method BuildV1(restores: seq<RestoreEntry>, filter: set<string>) returns (inputs: Option<Inputs>)
    ensures inputs.Some? <==> AcceptableV1(restores)
    ensures inputs.Some? ==> ReadsV1(inputs.value, restores, filter)
  {
    var ok, ordinary, grouped := GroupV1(restores);
    if !ok {
      return None;
    }
    var ids := SortedElements(grouped.Keys);
    var lanes: seq<LaneInput> := [];
    for n := 0 to |ids|
      invariant |lanes| == n
      invariant forall k :: 0 <= k < n ==> V1Lane(lanes[k], restores, filter) && lanes[k].moduleID == ids[k]
    {
      assert ids[n] in ids;
      lanes := lanes + [LaneInput(LegacyCaptureID(ids[n]), ids[n], grouped[ids[n]], Includes(filter, ids[n]))];
    }
    forall e | e in restores && e.fromModule != ""
      ensures exists k :: 0 <= k < |lanes| && lanes[k].moduleID == e.fromModule {
      assert e.fromModule in ids;
      var k :| 0 <= k < |ids| && ids[k] == e.fromModule;
      assert lanes[k].moduleID == e.fromModule;
    }
    return Some(Inputs(lanes != [], [], lanes, ordinary, map[]));
  }

  // ----- version 2 -----

  function FoldedSource(source: string): string {
    TrimPrefix(Lower(ReplaceChar(TrimSpace(source), '\\', '/')), "./")
  }

  function FoldedRoot(root: string): string {
    Lower(TrimSuffixChar(Clean(ReplaceChar(root, '\\', '/')), '/'))
  }

  /** An ordinary restore reads from, or from around, a payload root. */
  predicate ReadsPayload(source: string, root: string) {
    PathsOverlap(TrimSuffixChar(Clean(FoldedSource(source)), '/'), FoldedRoot(root), '/')
  }

  predicate OverlapsPayloads(source: string, m: Manifest) {
    TrimSpace(source) != "" &&
    ((exists k :: 0 <= k < |m.captures| && ReadsPayload(source, m.captures[k].payloadRoot)) ||
     (exists k :: 0 <= k < |m.lanes| && ReadsPayload(source, m.lanes[k].payloadRoot)))
  }

  /** The last lane declared under a capture ID. */
  function LaneFor(lanes: seq<Lane>, captureID: string): Option<Lane> {
    if lanes == [] then None
    else if lanes[|lanes| - 1].captureID == captureID then Some(lanes[|lanes| - 1])
    else LaneFor(lanes[..|lanes| - 1], captureID)
  }

  predicate AcceptableEntry(e: RestoreEntry, m: Manifest) {
    if e.Anonymous() then !OverlapsPayloads(e.source, m)
    else
      var lane := LaneFor(m.lanes, e.legacyCaptureID);
      e.legacyCaptureID != "" && lane.Some? && lane.value.moduleID == e.fromModule
  }

  predicate CapturesResolve(m: Manifest, resolvable: set<string>) {
    forall c :: c in m.captures ==> c.hasEvidence && c.payloadRoot in resolvable
  }

  predicate LanesResolve(m: Manifest, resolvable: set<string>) {
    forall l :: l in m.lanes ==> l.payloadRoot in resolvable
  }

  predicate EntriesAcceptable(m: Manifest) {
    forall e :: e in m.restores ==> AcceptableEntry(e, m)
  }

  predicate LanesServed(m: Manifest) {
    forall l :: l in m.lanes ==> OfLane(m.restores, l.captureID) != []
  }

  predicate AcceptableV2(m: Manifest, resolvable: set<string>) {
    CapturesResolve(m, resolvable) && LanesResolve(m, resolvable) && EntriesAcceptable(m) && LanesServed(m)
  }

  predicate V2Lane(lane: LaneInput, m: Manifest, filter: set<string>) {
    && LaneFor(m.lanes, lane.captureID).Some? && LaneFor(m.lanes, lane.captureID).value.moduleID == lane.moduleID
    && lane.entries == OfLane(m.restores, lane.captureID) && lane.entries != []
    && lane.selected == Includes(filter, lane.moduleID)
  }

  function SourceOf(c: Capture, filter: set<string>): Source {
    Source(c.captureID, c.moduleID, Includes(filter, c.moduleID))
  }

  function BySource(s: Source): string { s.captureID }

  ghost predicate ReadsV2(inputs: Inputs, m: Manifest, mappings: map<string, string>, filter: set<string>) {
    && inputs.ordinary == AnonymousOnes(m.restores)
    && (inputs.hasPayloads <==> m.captures != [] || m.lanes != [])
    && SourcesRead(inputs.sources, inputs.mappings, m, mappings, filter) && LanesRead(inputs.lanes, m, filter)
  }

  /** One source for each capture, in capture order; mappings only for the selected ones. */
  ghost predicate SourcesRead(sources: seq<Source>, kept: map<string, string>, m: Manifest,
    mappings: map<string, string>, filter: set<string>)
  {
    && sources == SortBy(seq(|m.captures|, k requires 0 <= k < |m.captures| => SourceOf(m.captures[k], filter)),
      BySource)
    && (forall id :: id in kept <==> id in mappings && exists s :: s in sources && s.captureID == id && s.selected)
    && (forall id :: id in kept ==> kept[id] == mappings[id])
  }

  ghost predicate LanesRead(lanes: seq<LaneInput>, m: Manifest, filter: set<string>) {
    && (forall k :: 0 <= k < |lanes| ==> V2Lane(lanes[k], m, filter))
    && (forall i, j :: 0 <= i < j < |lanes| ==> Less(lanes[i].captureID, lanes[j].captureID))
    && (forall l :: l in m.lanes ==> exists k :: 0 <= k < |lanes| && lanes[k].captureID == l.captureID)
  }

  method ReadSources(m: Manifest, mappings: map<string, string>, filter: set<string>, resolvable: set<string>)
    returns (ok: bool, sources: seq<Source>, kept: map<string, string>)
    ensures ok <==> CapturesResolve(m, resolvable)
    ensures ok ==> SourcesRead(sources, kept, m, mappings, filter)
  {
    sources, kept := [], map[];
    for n := 0 to |m.captures|
      invariant forall c :: c in m.captures[..n] ==> c.hasEvidence && c.payloadRoot in resolvable
      invariant |sources| == n && forall k :: 0 <= k < n ==> sources[k] == SourceOf(m.captures[k], filter)
    {
      var c := m.captures[n];
      if !c.hasEvidence || c.payloadRoot !in resolvable {
        return false, [], map[];
      }
      sources := sources + [SourceOf(c, filter)];
    }
    assert sources == seq(|m.captures|, k requires 0 <= k < |m.captures| => SourceOf(m.captures[k], filter));
    sources := SortBy(sources, BySource);
    var selected := set s | s in sources && s.selected :: s.captureID;
    kept := map id | id in mappings && id in selected :: mappings[id];
    ok := true;
  }

  /** Attaches every entry to its lane; the lanes of `byID` start empty. */
  method Associate(m: Manifest) returns (ok: bool, ordinary: seq<RestoreEntry>, byID: map<string, seq<RestoreEntry>>)
    ensures ok <==> EntriesAcceptable(m)
    ensures ok ==> ordinary == AnonymousOnes(m.restores)
    ensures ok ==> forall id :: id in byID <==> exists l :: l in m.lanes && l.captureID == id
    ensures ok ==> forall id :: id in byID ==> byID[id] == OfLane(m.restores, id)
  {
    ok, ordinary := false, [];
    byID := map l | l in m.lanes :: l.captureID := [];
    for n := 0 to |m.restores|
      invariant forall e :: e in m.restores[..n] ==> AcceptableEntry(e, m)
      invariant ordinary == AnonymousOnes(m.restores[..n])
      invariant forall id :: id in byID <==> exists l :: l in m.lanes && l.captureID == id
      invariant forall id :: id in byID ==> byID[id] == OfLane(m.restores[..n], id)
    {
      var e := m.restores[n];
      assert m.restores[..n + 1] == m.restores[..n] + [e] && m.restores[..n + 1][..n] == m.restores[..n];
      if !AcceptableEntry(e, m) {
        return;
      }
      if e.Anonymous() {
        ordinary := ordinary + [e];
      } else {
        LaneForMember(m.lanes, e.legacyCaptureID);
        byID := byID[e.legacyCaptureID := byID[e.legacyCaptureID] + [e]];
      }
    }
    assert m.restores[..|m.restores|] == m.restores;
    ok := true;
  }

  lemma {:induction false} LaneForMember(lanes: seq<Lane>, captureID: string)
    ensures LaneFor(lanes, captureID).Some? <==> exists l :: l in lanes && l.captureID == captureID
    ensures LaneFor(lanes, captureID).Some? ==>
      LaneFor(lanes, captureID).value in lanes && LaneFor(lanes, captureID).value.captureID == captureID
  {
    if lanes != [] {
      var n := |lanes| - 1;
      assert lanes == lanes[..n] + [lanes[n]];
      LaneForMember(lanes[..n], captureID);
    }
  }

  method BuildV2(m: Manifest, mappings: map<string, string>, filter: set<string>, resolvable: set<string>)
    returns (inputs: Option<Inputs>)
    ensures inputs.Some? <==> AcceptableV2(m, resolvable)
    ensures inputs.Some? ==> ReadsV2(inputs.value, m, mappings, filter)
  {
    var ok, sources, kept := ReadSources(m, mappings, filter, resolvable);
    if !ok || !LanesResolve(m, resolvable) {
      return None;
    }
    var associated, ordinary, byID := Associate(m);
    if !associated {
      return None;
    }
    var lanes := LanesWithEntries(m, byID, filter);
    if lanes.None? {
      return None;
    }
    return Some(Inputs(m.captures != [] || m.lanes != [], sources, lanes.value, ordinary, kept));
  }

  /** One lane per capture ID, in ascending order; a lane without entries is refused. */
  method LanesWithEntries(m: Manifest, byID: map<string, seq<RestoreEntry>>, filter: set<string>)
    returns (read: Option<seq<LaneInput>>)
    requires forall id :: id in byID <==> exists l :: l in m.lanes && l.captureID == id
    requires forall id :: id in byID ==> byID[id] == OfLane(m.restores, id)
    ensures read.Some? <==> LanesServed(m)
    ensures read.Some? ==> LanesRead(read.value, m, filter)
  {
    var ids := SortedElements(byID.Keys);
    var lanes: seq<LaneInput> := [];
    for n := 0 to |ids|
      invariant |lanes| == n
      invariant forall k :: 0 <= k < n ==> V2Lane(lanes[k], m, filter) && lanes[k].captureID == ids[k]
    {
      assert ids[n] in ids;
      LaneForMember(m.lanes, ids[n]);
      if byID[ids[n]] == [] {
        return None;
      }
      var moduleID := LaneFor(m.lanes, ids[n]).value.moduleID;
      lanes := lanes + [LaneInput(ids[n], moduleID, byID[ids[n]], Includes(filter, moduleID))];
    }
    forall l | l in m.lanes
      ensures OfLane(m.restores, l.captureID) != [] && exists k :: 0 <= k < |lanes| && lanes[k].captureID == l.captureID
    {
      assert l.captureID in ids;
      var k :| 0 <= k < |ids| && ids[k] == l.captureID;
      assert lanes[k].captureID == l.captureID;
    }
    return Some(lanes);
  }

  predicate Acceptable(m: Manifest, mappings: map<string, string>, resolvable: set<string>) {
    && (m.version == 1 || m.version == 2)
    && (forall id :: id in mappings ==> exists c :: c in m.captures && c.captureID == id)
    && (m.version == 1 ==> m.captures == [] && m.lanes == [] && AcceptableV1(m.restores))
    && (m.version == 2 ==> AcceptableV2(m, resolvable))
  }

  method BuildInputs(m: Manifest, mappings: map<string, string>, filter: set<string>, resolvable: set<string>)
    returns (inputs: Option<Inputs>)
    ensures inputs.Some? <==> Acceptable(m, mappings, resolvable)
    ensures inputs.Some? ==>
      if m.version == 1 then ReadsV1(inputs.value, m.restores, filter) else ReadsV2(inputs.value, m, mappings, filter)
  {
    if m.version != 1 && m.version != 2 {
      return None;
    }
    var known := set c | c in m.captures :: c.captureID;
    if exists id :: id in mappings && id !in known {
      return None;
    }
    if m.version == 1 {
      if m.captures != [] || m.lanes != [] {
        return None;
      }
      inputs := BuildV1(m.restores, filter);
    } else {
      inputs := BuildV2(m, mappings, filter, resolvable);
    }
  }

  // ----- what a reader of the inputs finds -----

  /** A filter names a module by its ID, or by its ID without the leading "apps.". */
  ghost predicate Names(filter: set<string>, moduleID: string) {
    moduleID in filter || exists f :: f in filter && moduleID == "apps." + f
  }

  lemma IncludesExactly(filter: set<string>, moduleID: string)
    ensures Includes(filter, moduleID) <==> filter == {} || Names(filter, moduleID)
  {
    if "apps." <= moduleID { assert moduleID == "apps." + TrimPrefix(moduleID, "apps."); }
    forall f | moduleID == "apps." + f ensures TrimPrefix(moduleID, "apps.") == f { }
  }

  /** Without a filter everything is selected, and with one exactly what it names. */
  lemma FilterSelectsV1(inputs: Inputs, restores: seq<RestoreEntry>, filter: set<string>)
    requires ReadsV1(inputs, restores, filter)
    ensures forall l :: l in inputs.lanes ==> (l.selected <==> filter == {} || Names(filter, l.moduleID))
  {
    forall l | l in inputs.lanes ensures l.selected <==> filter == {} || Names(filter, l.moduleID) {
      IncludesExactly(filter, l.moduleID);
    }
  }

  lemma FilterSelectsV2(inputs: Inputs, m: Manifest, mappings: map<string, string>, filter: set<string>)
    requires ReadsV2(inputs, m, mappings, filter)
    ensures forall l :: l in inputs.lanes ==> (l.selected <==> filter == {} || Names(filter, l.moduleID))
    ensures forall s :: s in inputs.sources ==> (s.selected <==> filter == {} || Names(filter, s.moduleID))
    ensures forall c :: c in m.captures ==>
      exists s :: s in inputs.sources && s.captureID == c.captureID && s.moduleID == c.moduleID
    ensures |inputs.sources| == |m.captures|
    ensures forall i, j :: 0 <= i < j < |inputs.sources| ==>
      !Less(inputs.sources[j].captureID, inputs.sources[i].captureID)
  {
    var read := seq(|m.captures|, k requires 0 <= k < |m.captures| => SourceOf(m.captures[k], filter));
    SortByMembers(read, BySource);
    SortBySorts(read, BySource);
    forall s | s in inputs.sources ensures s.selected <==> filter == {} || Names(filter, s.moduleID) {
      assert s in read;
      IncludesExactly(filter, s.moduleID);
    }
    forall c | c in m.captures ensures SourceOf(c, filter) in inputs.sources {
      var k :| 0 <= k < |m.captures| && m.captures[k] == c;
      assert read[k] in read;
    }
    forall l | l in inputs.lanes ensures l.selected <==> filter == {} || Names(filter, l.moduleID) {
      IncludesExactly(filter, l.moduleID);
    }
  }

  /** The entries of one module, of one lane or of none keep the order of the manifest: of two parts they
    * are those of the first, then those of the second. */
  lemma {:induction false} FromModuleAppends(a: seq<RestoreEntry>, b: seq<RestoreEntry>, id: string)
    ensures FromModule(a + b, id) == FromModule(a, id) + FromModule(b, id)
  {
    if b == [] {
      assert a + b == a;
    } else {
      var n, joined := |b| - 1, a + b;
      assert joined[..|joined| - 1] == a + b[..n] && joined[|joined| - 1] == b[n];
      FromModuleAppends(a, b[..n], id);
    }
  }

  lemma {:induction false} OfLaneAppends(a: seq<RestoreEntry>, b: seq<RestoreEntry>, id: string)
    ensures OfLane(a + b, id) == OfLane(a, id) + OfLane(b, id)
  {
    if b == [] {
      assert a + b == a;
    } else {
      var n, joined := |b| - 1, a + b;
      assert joined[..|joined| - 1] == a + b[..n] && joined[|joined| - 1] == b[n];
      OfLaneAppends(a, b[..n], id);
    }
  }

  lemma {:induction false} AnonymousAppends(a: seq<RestoreEntry>, b: seq<RestoreEntry>)
    ensures AnonymousOnes(a + b) == AnonymousOnes(a) + AnonymousOnes(b)
  {
    if b == [] {
      assert a + b == a;
    } else {
      var n, joined := |b| - 1, a + b;
      assert joined[..|joined| - 1] == a + b[..n] && joined[|joined| - 1] == b[n];
      AnonymousAppends(a, b[..n]);
    }
  }

  /** Of a single entry they keep it or nothing. */
  lemma SelectionsOfOne(e: RestoreEntry, id: string)
    ensures FromModule([e], id) == if e.fromModule == id then [e] else []
    ensures OfLane([e], id) ==
      if e.legacyCaptureID == id && (e.fromModule != "" || e.legacyCaptureID != "") then [e] else []
    ensures AnonymousOnes([e]) == if e.fromModule == "" && e.legacyCaptureID == "" then [e] else []
  {
    assert [e][..0] == [];
  }
}
