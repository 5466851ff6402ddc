/** The strict loader's rules, in the terms of paths, identifiers and entries themselves. */
module StrictConditions {
  import opened ConfigPlan
  import opened Text
  import opened Spellings
  import opened Ordering
  import opened PortablePath
  import opened RestoreInputs
  import opened StrictManifest

  /** A path is valid exactly when, without the white space around it, it is a list of plain components without
    * backslash, colon, dollar or percent, and does not begin with a tilde. */
  lemma ValidExactly(value: string)
    ensures var t := TrimSpace(value);
      ValidPath(value) <==>
        AllPlain(Split(t, '/')) && '\\' !in t && ':' !in t && '$' !in t && '%' !in t && t != "" && t[0] != '~'
  {
    var t := TrimSpace(value);
    var parts := Split(t, '/');
    if ValidPath(value) { CleanedIsPlain(t); }
    if AllPlain(parts) {
      PlainIsClean(t);
      JoinSplit(t, '/');
      JoinStarts(parts);
      PlainStart(t);
      assert ".." !in parts;
    }
  }

  predicate Separates(c: char) {
    c == '-' || c == '.' || c == '_'
  }

  /** An identifier begins with a lower-case letter, ends in a letter or digit, and holds nothing but these and
    * single separators. */
  lemma StableExactly(id: string)
    ensures StableID(id) <==>
      && id != "" && 'a' <= id[0] <= 'z' && !Separates(id[|id| - 1])
      && (forall i :: 0 <= i < |id| ==> 'a' <= id[i] <= 'z' || '0' <= id[i] <= '9' || Separates(id[i]))
      && (forall i :: 0 <= i < |id| - 1 ==> !(Separates(id[i]) && Separates(id[i + 1])))
  {
    forall i | 0 <= i < |id| ensures id[i] in "-._" <==> Separates(id[i]) { Separators(id[i]); }
    if StableID(id) {
      assert StableAt(id, |id| - 1);
      forall i | 0 <= i < |id|
        ensures 'a' <= id[i] <= 'z' || '0' <= id[i] <= '9' || Separates(id[i])
        ensures i < |id| - 1 ==> !(Separates(id[i]) && Separates(id[i + 1]))
      {
        assert StableAt(id, i);
      }
    }
  }

  lemma Separators(c: char)
    ensures c in "-._" <==> Separates(c)
  {
    assert "-._"[0] == '-' && "-._"[1] == '.' && "-._"[2] == '_';
  }

  predicate InConfigs(parts: seq<string>) {
    |parts| == 2 && parts[0] == "configs"
  }

  lemma RootParts(root: string)
    requires "configs/" <= root
    ensures Split(root, '/') == ["configs"] + Split(root[|"configs/"|..], '/')
  {
    assert root == "configs" + "/" + root[|"configs/"|..];
    SplitConcat("configs", root[|"configs/"|..]);
    SplitOne("configs", '/');
  }

  lemma RootHasTwo(root: string)
    requires ValidRoot(root)
    ensures InConfigs(Split(root, '/'))
  {
    RootParts(root);
    SplitOne(root[|"configs/"|..], '/');
  }

  lemma TwoMakeRoot(root: string)
    requires ValidPath(root) && InConfigs(Split(root, '/'))
    ensures ValidRoot(root)
  {
    var name := Split(root, '/')[1];
    JoinSplit(root, '/');
    assert root == "configs" + ['/'] + name && root[|"configs/"|..] == name;
    ValidIsPlain(root);
    assert Plain(name);
  }

  /** A payload root is one plain directory in "configs". */
  lemma RootExactly(root: string)
    ensures ValidRoot(root) <==> ValidPath(root) && InConfigs(Split(root, '/'))
  {
    if ValidRoot(root) { RootHasTwo(root); }
    if ValidPath(root) && InConfigs(Split(root, '/')) { TwoMakeRoot(root); }
  }

  /** Two roots overlap exactly when they are one, letter case aside. */
  lemma RootsOverlapExactly(a: string, b: string)
    requires ValidRoot(a) && ValidRoot(b)
    ensures PortableOverlap(a, b) <==> SameText(a, b)
  {
    RootExactly(a);
    RootExactly(b);
    LowerSplit(a);
    LowerSplit(b);
    PathsOverlapIsNested(Lower(a), Lower(b), '/');
    SameTextFolds(a, b);
    if Nested(Split(Lower(a), '/'), Split(Lower(b), '/')) {
      SplitInjective(Lower(a), Lower(b), '/');
    }
  }

  /** A source lies below a lane's root when it is blank or its portable components begin with the root's. */
  lemma UnderExactly(source: string, root: string)
    ensures UnderRoot(source, root) <==>
      TrimSpace(source) == "" ||
      (NormalizeSource(source).Some? && Split(root, '/') <= Split(NormalizeSource(source).value, '/'))
  {
    if NormalizeSource(source).Some? { AtOrBelowIsComponentPrefix(root, NormalizeSource(source).value, '/'); }
  }

  // ----- the manifest -----

  /** Two lanes, or a lane and a capture, share nothing. */
  predicate Apart(aID: string, aModule: string, aRoot: string, l: Lane) {
    aID != l.captureID && aModule != l.moduleID && !PortableOverlap(aRoot, l.payloadRoot)
  }

  predicate LanesApart(m: Manifest) {
    && (forall l :: l in m.lanes ==>
         StableID(l.captureID) && StableID(l.moduleID) && l.schema == 1 && ValidRoot(l.payloadRoot))
    && (forall c, l :: c in m.captures && l in m.lanes ==> Apart(c.captureID, c.moduleID, c.payloadRoot, l))
    && (forall i, j :: 0 <= i < j < |m.lanes| ==>
         Apart(m.lanes[i].captureID, m.lanes[i].moduleID, m.lanes[i].payloadRoot, m.lanes[j]))
  }

  lemma FittingAreApart(m: Manifest)
    requires LanesFit(m.captures, m.lanes)
    ensures LanesApart(m)
  {
    forall l | l in m.lanes ensures WellFormed(l) && forall c :: c in m.captures ==> ClearOfCapture(c, l) {
      var n :| 0 <= n < |m.lanes| && m.lanes[n] == l;
      assert LaneFits(m.captures, m.lanes[..n], m.lanes[n]);
    }
    forall i, j | 0 <= i < j < |m.lanes| ensures ClearOfLane(m.lanes[i], m.lanes[j]) {
      assert LaneFits(m.captures, m.lanes[..j], m.lanes[j]) && m.lanes[..j][i] == m.lanes[i];
    }
  }

  lemma ApartFits(m: Manifest, n: nat)
    requires LanesApart(m) && n < |m.lanes|
    ensures LaneFits(m.captures, m.lanes[..n], m.lanes[n])
  {
    var l := m.lanes[n];
    assert l in m.lanes;
    forall c | c in m.captures ensures ClearOfCapture(c, l) { assert Apart(c.captureID, c.moduleID, c.payloadRoot, l); }
    forall o | o in m.lanes[..n] ensures ClearOfLane(o, l) {
      var i :| 0 <= i < n && m.lanes[i] == o;
    }
  }

  lemma LanesFitExactly(m: Manifest)
    ensures LanesFit(m.captures, m.lanes) <==> LanesApart(m)
  {
    if LanesFit(m.captures, m.lanes) { FittingAreApart(m); }
    if LanesApart(m) {
      forall n | 0 <= n < |m.lanes| ensures LaneFits(m.captures, m.lanes[..n], m.lanes[n]) { ApartFits(m, n); }
    }
  }

  /** The listed modules are the lanes' modules, each listed once. */
  predicate ListedOnce(m: Manifest) {
    && (forall i, j :: 0 <= i < j < |m.modules| ==> m.modules[i] != m.modules[j])
    && (forall l :: l in m.lanes ==> l.moduleID in m.modules)
    && (forall id :: id in m.modules ==> exists l :: l in m.lanes && l.moduleID == id)
  }

  predicate Belongs(l: Lane, e: RestoreEntry) {
    && l.captureID == e.legacyCaptureID && l.moduleID == e.fromModule
    && (TrimSpace(e.source) == "" ||
        (NormalizeSource(e.source).Some? && Split(l.payloadRoot, '/') <= Split(NormalizeSource(e.source).value, '/')))
  }

  predicate StaysClear(source: string, m: Manifest) {
    TrimSpace(source) == "" || (
      && NormalizeSource(source).Some?
      && (forall c :: c in m.captures ==> !PortableOverlap(NormalizeSource(source).value, c.payloadRoot))
      && (forall l :: l in m.lanes ==> !PortableOverlap(NormalizeSource(source).value, l.payloadRoot)))
  }

  predicate EntryKept(m: Manifest, e: RestoreEntry) {
    if e.fromModule == "" && e.legacyCaptureID == "" then StaysClear(e.source, m)
    else exists l :: l in m.lanes && Belongs(l, e)
  }

  lemma EntryExactly(m: Manifest, e: RestoreEntry)
    ensures StrictEntry(e, m.captures, m.lanes) <==> EntryKept(m, e)
  {
    if e.Anonymous() {
      var roots := RootsOf(m.captures, m.lanes);
      forall c | c in m.captures ensures c.payloadRoot in roots { }
      forall l | l in m.lanes ensures l.payloadRoot in roots { }
      ClearExactly(m, e.source);
    } else {
      forall l | l in m.lanes ensures Serves(l, e) <==> Belongs(l, e) { UnderExactly(e.source, l.payloadRoot); }
    }
  }

  lemma ClearExactly(m: Manifest, source: string)
    ensures ClearOfRoots(source, RootsOf(m.captures, m.lanes)) <==> StaysClear(source, m)
  {
    var roots := RootsOf(m.captures, m.lanes);
    forall r | r in roots
      ensures (exists c :: c in m.captures && c.payloadRoot == r) || (exists l :: l in m.lanes && l.payloadRoot == r)
    {
    }
    assert forall c :: c in m.captures ==> c.payloadRoot in roots;
    assert forall l :: l in m.lanes ==> l.payloadRoot in roots;
  }

  predicate LaneUsed(m: Manifest, l: Lane) {
    exists e :: e in m.restores && e.legacyCaptureID == l.captureID && !(e.fromModule == "" && e.legacyCaptureID == "")
  }

  /** A manifest passes exactly when its lanes are well-formed and share nothing with each other or with a capture,
    * the listed modules are theirs, every entry stays in its lane or clear of all payloads, and every lane has one. */
  lemma StrictExactly(m: Manifest)
    ensures StrictLanes(m) <==>
      && LanesApart(m) && ListedOnce(m) && (forall e :: e in m.restores ==> EntryKept(m, e))
      && forall l :: l in m.lanes ==> LaneUsed(m, l)
  {
    LanesFitExactly(m);
    ModulesExactly(m);
    forall e | e in m.restores ensures StrictEntry(e, m.captures, m.lanes) <==> EntryKept(m, e) { EntryExactly(m, e); }
  }

  lemma ModulesExactly(m: Manifest)
    ensures ModulesMatch(m) <==> ListedOnce(m)
  {
    forall id ensures id in ModulesOf(m.lanes) <==> exists l :: l in m.lanes && l.moduleID == id { }
    forall id ensures id in Elements(m.modules) <==> id in m.modules { }
    if ListedOnce(m) { assert Elements(m.modules) == ModulesOf(m.lanes); }
  }
}
