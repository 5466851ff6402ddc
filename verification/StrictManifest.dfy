/** The strict loader of version-2 manifests: every manifest the reader gets has passed it, and every
  * artifact of the producer is checked by it. What it accepts, the reader accepts. */
module StrictManifest {
  import opened ConfigPlan
  import opened Text
  import opened Spellings
  import opened PortablePath
  import opened RestoreInputs
  import opened Ordering

  // ----- portable paths, as the manifest writes them -----

  predicate ValidPath(value: string) {
    var trimmed := TrimSpace(value);
    && trimmed != "" && trimmed != "." && '\\' !in trimmed && !Rooted(trimmed) && !HasVolume(trimmed)
    && ':' !in trimmed && trimmed[0] != '~' && '$' !in trimmed && '%' !in trimmed
    && ".." !in Split(trimmed, '/') && Clean(trimmed) == trimmed
  }

  /** The portable form of an entry's source, unless the guard refuses it. */
  function NormalizeSource(source: string): Option<string> {
    var portable := TrimPrefix(ReplaceChar(TrimSpace(source), '\\', '/'), "./");
    if ValidPath(portable) then Some(portable) else None
  }

  /** One directory directly under "configs/". */
  predicate ValidRoot(root: string) {
    && ValidPath(root) && "configs/" <= root
    && root != "configs/" && '/' !in root[|"configs/"|..]
  }

  predicate AllSpace(s: string) {
    forall i :: 0 <= i < |s| ==> IsSpace(s[i])
  }

  lemma {:induction false} TrimLeftCuts(s: string) returns (cut: string)
    ensures s == cut + TrimLeft(s, IsSpace) && AllSpace(cut)
  {
    if s != "" && IsSpace(s[0]) {
      var rest := TrimLeftCuts(s[1..]);
      cut := [s[0]] + rest;
      var left := TrimLeft(s[1..], IsSpace);
      assert s == [s[0]] + s[1..] && [s[0]] + (rest + left) == cut + left;
    } else {
      cut := "";
    }
  }

  lemma {:induction false} TrimRightCuts(s: string) returns (cut: string)
    ensures s == TrimRight(s, IsSpace) + cut && AllSpace(cut)
  {
    if s != "" && IsSpace(s[|s| - 1]) {
      var n := |s| - 1;
      var rest := TrimRightCuts(s[..n]);
      cut := rest + [s[n]];
      assert s == s[..n] + [s[n]];
    } else {
      cut := "";
    }
  }

  predicate AllPlain(parts: seq<string>) {
    forall k :: 0 <= k < |parts| ==> Plain(parts[k])
  }

  lemma {:induction false} SplitPadLeft(cut: string, s: string)
    requires '/' !in cut
    ensures Split(cut + s, '/') == [cut + Split(s, '/')[0]] + Split(s, '/')[1..]
  {
    if cut == "" {
      assert cut + s == s && cut + Split(s, '/')[0] == Split(s, '/')[0];
    } else {
      assert (cut + s)[1..] == cut[1..] + s;
      SplitPadLeft(cut[1..], s);
      assert [cut[0]] + (cut[1..] + Split(s, '/')[0]) == cut + Split(s, '/')[0];
    }
  }

  /** The last component made longer. */
  function LastPadded(parts: seq<string>, cut: string): seq<string>
    requires parts != []
  {
    parts[..|parts| - 1] + [parts[|parts| - 1] + cut]
  }

  /** The components of a text with one more character in front. */
  function SplitCons(c: char, rest: seq<string>): seq<string>
    requires rest != []
  {
    if c == '/' then [""] + rest else [[c] + rest[0]] + rest[1..]
  }

  lemma SplitIsCons(s: string)
    requires s != ""
    ensures Split(s, '/') == SplitCons(s[0], Split(s[1..], '/'))
  {
  }

  lemma PaddedCons(c: char, rest: seq<string>, cut: string)
    requires rest != []
    ensures LastPadded(SplitCons(c, rest), cut) == SplitCons(c, LastPadded(rest, cut))
  {
    var parts := SplitCons(c, rest);
    if c == '/' {
      assert parts[..|parts| - 1] == [""] + rest[..|rest| - 1];
    } else if |rest| == 1 {
      assert ([c] + rest[0]) + cut == [c] + (rest[0] + cut);
    } else {
      assert parts[..|parts| - 1] == [[c] + rest[0]] + rest[1..|rest| - 1];
      assert LastPadded(rest, cut)[1..] == rest[1..|rest| - 1] + [rest[|rest| - 1] + cut];
    }
  }

  lemma {:induction false} SplitPadRight(s: string, cut: string)
    requires '/' !in cut
    ensures Split(s + cut, '/') == LastPadded(Split(s, '/'), cut)
  {
    if s == "" {
      assert s + cut == cut;
      SplitOne(cut, '/');
    } else {
      assert (s + cut)[0] == s[0] && (s + cut)[1..] == s[1..] + cut;
      SplitIsCons(s);
      SplitIsCons(s + cut);
      SplitPadRight(s[1..], cut);
      PaddedCons(s[0], Split(s[1..], '/'), cut);
    }
  }

  /** White space around a list of plain components leaves them plain. */
  lemma {:induction false} PlainPadded(before: string, s: string, after: string)
    requires AllSpace(before) && AllSpace(after) && s != "" && !IsSpace(s[0]) && !IsSpace(s[|s| - 1])
    requires AllPlain(Split(s, '/'))
    ensures AllPlain(Split(before + s + after, '/'))
  {
    var parts := Split(s, '/');
    var n := |parts| - 1;
    JoinSplit(s, '/');
    JoinStarts(parts);
    LastOfJoin(parts, '/');
    SplitPadLeft(before, s);
    SplitPadRight(before + s, after);
    var padded := [before + parts[0]] + parts[1..];
    PadPlain(before, parts[0], "");
    assert before + parts[0] + "" == before + parts[0];
    assert AllPlain(padded);
    if n == 0 {
      PadPlain(before, parts[0], after);
    } else {
      PadPlain("", parts[n], after);
      assert "" + parts[n] + after == parts[n] + after && padded[n] == parts[n];
    }
  }

  lemma PadPlain(before: string, part: string, after: string)
    requires AllSpace(before) && AllSpace(after) && Plain(part)
    requires before == "" || !IsSpace(part[0])
    requires after == "" || !IsSpace(part[|part| - 1])
    ensures Plain(before + part + after)
  {
    var padded := before + part + after;
    assert before != "" ==> IsSpace(padded[0]);
    assert after != "" ==> IsSpace(padded[|padded| - 1]);
    assert before == "" && after == "" ==> padded == part;
  }

  /** A valid path is a list of plain components, whatever white space surrounds it. */
  lemma ValidIsPlain(value: string)
    requires ValidPath(value)
    ensures AllPlain(Split(value, '/'))
  {
    CleanedIsPlain(TrimSpace(value));
    var before, after := Trimmed(value);
    PlainPadded(before, TrimSpace(value), after);
  }

  lemma CleanedIsPlain(t: string)
    requires t != "." && Clean(t) == t && !Rooted(t) && ".." !in Split(t, '/')
    ensures AllPlain(Split(t, '/'))
  {
    CleanResolves(t);
    var parts := Resolved(t);
    SplitJoin(parts, '/');
    forall k | 0 <= k < |parts| ensures Plain(parts[k]) {
      assert parts[k] in Split(t, '/');
    }
  }

  lemma Trimmed(value: string) returns (before: string, after: string)
    ensures value == before + TrimSpace(value) + after && AllSpace(before) && AllSpace(after)
    ensures var t := TrimSpace(value); t == "" || (!IsSpace(t[0]) && !IsSpace(t[|t| - 1]))
  {
    var left := TrimLeft(value, IsSpace);
    before := TrimLeftCuts(value);
    after := TrimRightCuts(left);
    TrimLeftStops(value);
    TrimRightStops(left);
    assert left == TrimSpace(value) + after;
    assert before + (TrimSpace(value) + after) == before + TrimSpace(value) + after;
  }

  lemma {:induction false} TrimLeftStops(s: string)
    ensures var r := TrimLeft(s, IsSpace); r == "" || !IsSpace(r[0])
  {
    if s != "" && IsSpace(s[0]) { TrimLeftStops(s[1..]); }
  }

  lemma {:induction false} TrimRightStops(s: string)
    ensures var r := TrimRight(s, IsSpace); r == "" || !IsSpace(r[|r| - 1])
  {
    if s != "" && IsSpace(s[|s| - 1]) { TrimRightStops(s[..|s| - 1]); }
  }

  // ----- places inside a bundle -----

  /** A list of plain components is a cleaned relative path. */
  lemma PlainIsClean(s: string)
    requires AllPlain(Split(s, '/'))
    ensures Resolved(s) == Split(s, '/') && Clean(s) == s && TrimSuffixChar(s, '/') == s && !Rooted(s)
  {
    var parts := Split(s, '/');
    JoinSplit(s, '/');
    JoinStarts(parts);
    LastOfJoin(parts, '/');
    assert parts[0][0] in parts[0];
    assert parts[|parts| - 1][|parts[|parts| - 1]| - 1] in parts[|parts| - 1];
    assert [] + parts == parts;
    FoldIsIdentity(parts, false, []);
  }

  /** It stays one when letter case is folded. */
  lemma PlainFolds(s: string)
    requires AllPlain(Split(s, '/'))
    ensures AllPlain(Split(Lower(s), '/'))
  {
    LowerSplit(s);
    forall k | 0 <= k < |Split(s, '/')| ensures Plain(Split(Lower(s), '/')[k]) { LowerPlain(Split(s, '/')[k]); }
  }

  lemma LowerPlain(part: string)
    requires Plain(part)
    ensures Plain(Lower(part))
  {
    var low := Lower(part);
    assert low == "." <==> part == ".";
    assert low == ".." <==> part == "..";
    assert forall i :: 0 <= i < |low| ==> low[i] != '/';
  }

  lemma LowerCons(c: char, rest: seq<string>)
    requires rest != []
    ensures Folded(SplitCons(c, rest)) == SplitCons(LowerChar(c), Folded(rest))
  {
    if c == '/' {
      assert Lower("") == "";
    } else {
      assert Lower([c] + rest[0]) == [LowerChar(c)] + Lower(rest[0]);
    }
  }

  lemma {:induction false} LowerSplit(s: string)
    ensures Split(Lower(s), '/') == Folded(Split(s, '/'))
  {
    if s == "" {
      assert Lower("") == "";
    } else {
      assert Lower(s)[0] == LowerChar(s[0]) && Lower(s)[1..] == Lower(s[1..]);
      SplitIsCons(s);
      SplitIsCons(Lower(s));
      LowerSplit(s[1..]);
      LowerCons(s[0], Split(s[1..], '/'));
    }
  }

  /** The place of a path in the bundle directory, letter case ignored. */
  function PlaceIn(directory: string, path: string): seq<string> {
    Resolved(Lower(directory + "/" + path))
  }

  lemma PlainPlace(directory: string, path: string)
    requires Rooted(directory) && AllPlain(Split(path, '/'))
    ensures PlaceIn(directory, path) == Resolved(Lower(directory)) + Split(Lower(path), '/')
  {
    var d, p := Lower(directory), Lower(path);
    assert Lower(directory + "/" + path) == d + "/" + p;
    PlainFolds(path);
    SplitConcat(d, p);
    FoldOfJoined(Split(d, '/'), Split(p, '/'), []);
    CleanResolves(d);
    assert Rooted(d) && Rooted(d + "/" + p);
    var base := Resolved(d);
    assert Normal(base + Split(p, '/'), true);
    FoldIsIdentity(Split(p, '/'), true, base);
  }

  lemma NestedBelow(base: seq<string>, a: seq<string>, b: seq<string>)
    ensures Nested(base + a, base + b) <==> Nested(a, b)
  {
    assert (base + a)[|base|..] == a && (base + b)[|base|..] == b;
    if base + a <= base + b { assert a == (base + b)[..|base| + |a|][|base|..] == b[..|a|]; }
    if base + b <= base + a { assert b == (base + a)[..|base| + |b|][|base|..] == a[..|b|]; }
  }

  predicate PortableOverlap(left: string, right: string) {
    PathsOverlap(Lower(left), Lower(right), '/')
  }

  /** For a source the guard accepts and a valid payload root, the guard's test, the reader's test and
    * overlap of the two places, in whichever directory the bundle lies, are one and the same. */
  lemma OverlapIsPlaceOverlap(directory: string, source: string, root: string)
    requires Rooted(directory) && NormalizeSource(source).Some? && ValidRoot(root)
    ensures var portable := NormalizeSource(source).value;
      && (ReadsPayload(source, root) <==> PortableOverlap(portable, root))
      && (ReadsPayload(source, root) <==> Nested(PlaceIn(directory, portable), PlaceIn(directory, root)))
  {
    var portable := NormalizeSource(source).value;
    ValidIsPlain(portable);
    ValidIsPlain(root);
    PlainFolds(portable);
    PlainFolds(root);
    PlainIsClean(Lower(portable));
    PlainIsClean(Lower(root));
    SourceFolds(source);
    RootFolds(root);
    PathsOverlapIsNested(Lower(portable), Lower(root), '/');
    PlainPlace(directory, portable);
    PlainPlace(directory, root);
    NestedBelow(Resolved(Lower(directory)), Split(Lower(portable), '/'), Split(Lower(root), '/'));
  }

  lemma SourceFolds(source: string)
    ensures FoldedSource(source) == Lower(TrimPrefix(ReplaceChar(TrimSpace(source), '\\', '/'), "./"))
  {
    var s := ReplaceChar(TrimSpace(source), '\\', '/');
    assert "./" <= Lower(s) <==> "./" <= s;
    if "./" <= s { assert Lower(s)[2..] == Lower(s[2..]); }
  }

  lemma RootFolds(root: string)
    requires ValidRoot(root)
    ensures FoldedRoot(root) == Lower(root)
  {
    ValidIsPlain(root);
    NoBackslash(root);
    assert ReplaceChar(root, '\\', '/') == root;
    PlainIsClean(root);
  }

  lemma NoBackslash(value: string)
    requires ValidPath(value)
    ensures '\\' !in value
  {
    var before, after := Trimmed(value);
  }

  // ----- the rules for legacy lanes -----

  predicate Alphanumeric(c: char) {
    'a' <= c <= 'z' || '0' <= c <= '9'
  }

  /** A separator stands between two letters or digits. */
  predicate StableAt(id: string, i: nat)
    requires i < |id|
  {
    Alphanumeric(id[i]) || (id[i] in "-._" && i + 1 < |id| && Alphanumeric(id[i + 1]))
  }

  predicate StableID(id: string) {
    id != "" && 'a' <= id[0] <= 'z' && forall i :: 0 <= i < |id| ==> StableAt(id, i)
  }

  predicate WellFormed(l: Lane) {
    StableID(l.captureID) && StableID(l.moduleID) && l.schema == 1 && ValidRoot(l.payloadRoot)
  }

  predicate ClearOfCapture(c: Capture, l: Lane) {
    c.captureID != l.captureID && c.moduleID != l.moduleID && !PortableOverlap(c.payloadRoot, l.payloadRoot)
  }

  predicate ClearOfLane(o: Lane, l: Lane) {
    o.captureID != l.captureID && o.moduleID != l.moduleID && !PortableOverlap(o.payloadRoot, l.payloadRoot)
  }

  /** A lane fits behind the captures and the lanes before it. */
  predicate LaneFits(captures: seq<Capture>, before: seq<Lane>, l: Lane) {
    && WellFormed(l) && (forall c :: c in captures ==> ClearOfCapture(c, l))
    && forall o :: o in before ==> ClearOfLane(o, l)
  }

  predicate LanesFit(captures: seq<Capture>, lanes: seq<Lane>) {
    forall n :: 0 <= n < |lanes| ==> LaneFits(captures, lanes[..n], lanes[n])
  }

  function ModulesOf(lanes: seq<Lane>): set<string> {
    set l | l in lanes :: l.moduleID
  }

  /** The listed modules are the lanes' modules, each once. */
  predicate ModulesMatch(m: Manifest) {
    NoRepeats(m.modules) && Elements(m.modules) == ModulesOf(m.lanes)
  }

  predicate UnderRoot(source: string, root: string) {
    TrimSpace(source) == "" ||
    (NormalizeSource(source).Some? && AtOrBelow(root, NormalizeSource(source).value, '/'))
  }

  function RootsOf(captures: seq<Capture>, lanes: seq<Lane>): set<string> {
    (set c | c in captures :: c.payloadRoot) + (set l | l in lanes :: l.payloadRoot)
  }

  predicate ClearOfRoots(source: string, roots: set<string>) {
    TrimSpace(source) == "" ||
    (NormalizeSource(source).Some? && forall r :: r in roots ==> !PortableOverlap(NormalizeSource(source).value, r))
  }

  predicate Serves(l: Lane, e: RestoreEntry) {
    l.captureID == e.legacyCaptureID && l.moduleID == e.fromModule && UnderRoot(e.source, l.payloadRoot)
  }

  predicate StrictEntry(e: RestoreEntry, captures: seq<Capture>, lanes: seq<Lane>) {
    if e.Anonymous() then ClearOfRoots(e.source, RootsOf(captures, lanes))
    else exists l :: l in lanes && Serves(l, e)
  }

  function UsedBy(restores: seq<RestoreEntry>): set<string> {
    set e | e in restores && !e.Anonymous() :: e.legacyCaptureID
  }

  predicate StrictLanes(m: Manifest) {
    && LanesFit(m.captures, m.lanes) && ModulesMatch(m)
    && (forall e :: e in m.restores ==> StrictEntry(e, m.captures, m.lanes))
    && forall l :: l in m.lanes ==> l.captureID in UsedBy(m.restores)
  }

  /** What the first pass over the lanes leaves behind. */
  ghost predicate Collects(captures: seq<Capture>, lanes: seq<Lane>, byID: map<string, Lane>, modules: set<string>,
    ids: set<string>, roots: set<string>)
  {
    && ids == (set c | c in captures :: c.captureID) + byID.Keys
    && (forall l :: l in lanes ==> l.captureID in byID && byID[l.captureID] == l)
    && (forall id :: id in byID ==> byID[id] in lanes && byID[id].captureID == id)
    && modules == ModulesOf(lanes) && roots == RootsOf(captures, lanes)
  }

  method CheckLanes(captures: seq<Capture>, lanes: seq<Lane>)
    returns (ok: bool, byID: map<string, Lane>, modules: set<string>, roots: set<string>)
    ensures ok <==> LanesFit(captures, lanes)
    ensures ok ==> exists ids :: Collects(captures, lanes, byID, modules, ids, roots)
  {
    ok, byID, modules := false, map[], {};
    var generation := set c | c in captures :: c.moduleID;
    var ids := set c | c in captures :: c.captureID;
    roots := set c | c in captures :: c.payloadRoot;
    for n := 0 to |lanes|
      invariant LanesFit(captures, lanes[..n]) && Collects(captures, lanes[..n], byID, modules, ids, roots)
    {
      var l := lanes[n];
      assert lanes[..n + 1] == lanes[..n] + [l];
      FitsNext(captures, lanes, n);
      var fits := CheckLane(captures, lanes[..n], l, generation, byID, modules, ids, roots);
      if !fits {
        return;
      }
      CollectsNext(captures, lanes[..n], l, byID, modules, ids, roots);
      ids, modules, byID, roots :=
        ids + {l.captureID}, modules + {l.moduleID}, byID[l.captureID := l], roots + {l.payloadRoot};
    }
    assert lanes[..|lanes|] == lanes;
    ok := true;
  }

  method CheckLane(ghost captures: seq<Capture>, ghost before: seq<Lane>, l: Lane, generation: set<string>,
    ghost byID: map<string, Lane>, modules: set<string>, ids: set<string>, roots: set<string>)
    returns (fits: bool)
    requires generation == (set c | c in captures :: c.moduleID)
    requires Collects(captures, before, byID, modules, ids, roots)
    ensures fits <==> LaneFits(captures, before, l)
    ensures fits ==> l.captureID !in ids
  {
    LaneChecks(captures, before, l, byID, modules, ids, roots);
    if !WellFormed(l) || l.captureID in ids || l.moduleID in modules || l.moduleID in generation {
      return false;
    }
    fits := !exists r :: r in roots && PortableOverlap(r, l.payloadRoot);
  }

  /** The accumulated sets decide whether the next lane fits. */
  lemma LaneChecks(captures: seq<Capture>, before: seq<Lane>, l: Lane, byID: map<string, Lane>,
    modules: set<string>, ids: set<string>, roots: set<string>)
    requires Collects(captures, before, byID, modules, ids, roots)
    ensures LaneFits(captures, before, l) <==>
      && WellFormed(l) && l.captureID !in ids && l.moduleID !in modules
      && l.moduleID !in (set c | c in captures :: c.moduleID)
      && forall r :: r in roots ==> !PortableOverlap(r, l.payloadRoot)
  {
    if LaneFits(captures, before, l) {
      forall r | r in roots ensures !PortableOverlap(r, l.payloadRoot) {
        if c :| c in captures && c.payloadRoot == r {
          assert ClearOfCapture(c, l);
        } else {
          var o :| o in before && o.payloadRoot == r;
          assert ClearOfLane(o, l);
        }
      }
      assert l.captureID in byID ==> ClearOfLane(byID[l.captureID], l);
    }
    if l.captureID !in ids && l.moduleID !in modules && l.moduleID !in (set c | c in captures :: c.moduleID)
      && forall r :: r in roots ==> !PortableOverlap(r, l.payloadRoot)
    {
      forall c | c in captures ensures ClearOfCapture(c, l) { assert c.payloadRoot in roots; }
      forall o | o in before ensures ClearOfLane(o, l) { assert o.payloadRoot in roots; }
    }
  }

  lemma FitsNext(captures: seq<Capture>, lanes: seq<Lane>, n: nat)
    requires n < |lanes| && LanesFit(captures, lanes[..n])
    ensures LanesFit(captures, lanes[..n + 1]) <==> LaneFits(captures, lanes[..n], lanes[n])
    ensures LanesFit(captures, lanes) ==> LaneFits(captures, lanes[..n], lanes[n])
  {
    var more := lanes[..n + 1];
    forall k | 0 <= k < n ensures LaneFits(captures, more[..k], more[k]) {
      assert more[..k] == lanes[..k] == lanes[..n][..k] && more[k] == lanes[..n][k];
    }
    assert more[..n] == lanes[..n] && more[n] == lanes[n];
  }

  lemma CollectsNext(captures: seq<Capture>, before: seq<Lane>, l: Lane, byID: map<string, Lane>,
    modules: set<string>, ids: set<string>, roots: set<string>)
    requires Collects(captures, before, byID, modules, ids, roots) && l.captureID !in ids
    ensures Collects(captures, before + [l], byID[l.captureID := l], modules + {l.moduleID},
      ids + {l.captureID}, roots + {l.payloadRoot})
  {
    var more := byID[l.captureID := l];
    assert more.Keys == byID.Keys + {l.captureID};
    assert forall o :: o in before ==> o.captureID != l.captureID;
    assert forall o :: o in before + [l] <==> o in before || o == l;
    assert ModulesOf(before + [l]) == ModulesOf(before) + {l.moduleID};
    assert RootsOf(captures, before + [l]) == RootsOf(captures, before) + {l.payloadRoot};
  }

  method CheckModules(listed: seq<string>, modules: set<string>) returns (ok: bool)
    requires forall id :: id in modules ==> StableID(id)
    ensures ok <==> NoRepeats(listed) && Elements(listed) == modules
  {
    var seen: set<string> := {};
    for n := 0 to |listed|
      invariant NoRepeats(listed[..n]) && Elements(listed[..n]) == seen <= modules
    {
      assert listed[..n + 1] == listed[..n] + [listed[n]] && listed[n] in Elements(listed);
      if !StableID(listed[n]) || listed[n] in seen || listed[n] !in modules {
        return false;
      }
      seen := seen + {listed[n]};
    }
    assert listed[..|listed|] == listed;
    ok := |seen| == |modules|;
    if ok { assert |modules - seen| == 0; }
  }

  /** Only a lane's own entry is served by it: the index by capture ID finds it. */
  lemma ServedByIndex(captures: seq<Capture>, lanes: seq<Lane>, byID: map<string, Lane>,
    modules: set<string>, ids: set<string>, roots: set<string>, e: RestoreEntry)
    requires Collects(captures, lanes, byID, modules, ids, roots) && LanesFit(captures, lanes) && !e.Anonymous()
    ensures StrictEntry(e, captures, lanes) <==>
      StableID(e.legacyCaptureID) && e.legacyCaptureID in byID && Serves(byID[e.legacyCaptureID], e)
  {
    if l :| l in lanes && Serves(l, e) {
      var n :| 0 <= n < |lanes| && lanes[n] == l;
      assert LaneFits(captures, lanes[..n], lanes[n]);
    }
  }

  method CheckRestores(restores: seq<RestoreEntry>, captures: seq<Capture>, lanes: seq<Lane>, byID: map<string, Lane>,
    roots: set<string>, ghost modules: set<string>, ghost ids: set<string>)
    returns (ok: bool, used: set<string>)
    requires Collects(captures, lanes, byID, modules, ids, roots) && LanesFit(captures, lanes)
    ensures ok <==> forall e :: e in restores ==> StrictEntry(e, captures, lanes)
    ensures ok ==> used == UsedBy(restores)
  {
    ok, used := false, {};
    for n := 0 to |restores|
      invariant forall e :: e in restores[..n] ==> StrictEntry(e, captures, lanes)
      invariant used == UsedBy(restores[..n])
    {
      var e := restores[n];
      assert restores[..n + 1] == restores[..n] + [e] && e in restores;
      var strict := CheckEntry(e, captures, lanes, byID, roots, modules, ids);
      if !strict {
        return;
      }
      if !e.Anonymous() {
        used := used + {e.legacyCaptureID};
      }
    }
    assert restores[..|restores|] == restores;
    ok := true;
  }

  method CheckEntry(e: RestoreEntry, ghost captures: seq<Capture>, ghost lanes: seq<Lane>, byID: map<string, Lane>,
    roots: set<string>, ghost modules: set<string>, ghost ids: set<string>)
    returns (strict: bool)
    requires Collects(captures, lanes, byID, modules, ids, roots) && LanesFit(captures, lanes)
    ensures strict <==> StrictEntry(e, captures, lanes)
  {
    if e.Anonymous() {
      return ClearOfRoots(e.source, roots);
    }
    ServedByIndex(captures, lanes, byID, modules, ids, roots, e);
    return StableID(e.legacyCaptureID) && e.legacyCaptureID in byID && Serves(byID[e.legacyCaptureID], e);
  }

  /** The strict rules, checked the way the loader does: lanes in order against everything before them,
    * then the listed modules, then the entries, then that no lane stays unused. */
  method ValidateLanes(m: Manifest) returns (ok: bool)
    ensures ok <==> StrictLanes(m)
  {
    var fit, byID, modules, roots := CheckLanes(m.captures, m.lanes);
    if !fit {
      return false;
    }
    ghost var ids :| Collects(m.captures, m.lanes, byID, modules, ids, roots);
    forall id | id in modules ensures StableID(id) {
      var l :| l in m.lanes && l.moduleID == id;
      FitIsWellFormed(m.captures, m.lanes, l);
    }
    var listed := CheckModules(m.modules, modules);
    var served, used := CheckRestores(m.restores, m.captures, m.lanes, byID, roots, modules, ids);
    ok := listed && served && forall l :: l in m.lanes ==> l.captureID in used;
  }

  lemma FitIsWellFormed(captures: seq<Capture>, lanes: seq<Lane>, l: Lane)
    requires LanesFit(captures, lanes) && l in lanes
    ensures WellFormed(l) && forall c :: c in captures ==> ClearOfCapture(c, l)
  {
    var n :| 0 <= n < |lanes| && lanes[n] == l;
    assert LaneFits(captures, lanes[..n], lanes[n]);
  }

  // ----- what the strict loader accepts, the reader accepts -----

  lemma LanesClear(captures: seq<Capture>, lanes: seq<Lane>, i: nat, j: nat)
    requires LanesFit(captures, lanes) && i < j < |lanes|
    ensures ClearOfLane(lanes[i], lanes[j])
  {
    assert LaneFits(captures, lanes[..j], lanes[j]) && lanes[..j][i] == lanes[i];
  }

  lemma FitIDsDiffer(captures: seq<Capture>, lanes: seq<Lane>, a: Lane, b: Lane)
    requires LanesFit(captures, lanes) && a in lanes && b in lanes && a.captureID == b.captureID
    ensures a == b
  {
    var i :| 0 <= i < |lanes| && lanes[i] == a;
    var j :| 0 <= j < |lanes| && lanes[j] == b;
    if i < j {
      LanesClear(captures, lanes, i, j);
    } else if j < i {
      LanesClear(captures, lanes, j, i);
    }
  }

  predicate CapturesHaveRoots(captures: seq<Capture>) {
    forall c :: c in captures ==> ValidRoot(c.payloadRoot)
  }

  /** After the strict loader the reader refuses no entry and no lane: what is left to it is whether
    * payloads and evidence are there. */
  lemma StrictIsAcceptable(m: Manifest, resolvable: set<string>)
    requires StrictLanes(m) && CapturesHaveRoots(m.captures)
    ensures AcceptableV2(m, resolvable) <==> CapturesResolve(m, resolvable) && LanesResolve(m, resolvable)
  {
    forall e | e in m.restores ensures AcceptableEntry(e, m) {
      assert StrictEntry(e, m.captures, m.lanes);
      if e.Anonymous() {
        OrdinaryIsAcceptable(m, e);
      } else {
        var l :| l in m.lanes && Serves(l, e);
        FitIsWellFormed(m.captures, m.lanes, l);
        LaneForMember(m.lanes, e.legacyCaptureID);
        FitIDsDiffer(m.captures, m.lanes, l, LaneFor(m.lanes, e.legacyCaptureID).value);
      }
    }
    forall l | l in m.lanes ensures OfLane(m.restores, l.captureID) != [] {
      var e :| e in m.restores && !e.Anonymous() && e.legacyCaptureID == l.captureID;
      OfLaneMembers(m.restores, l.captureID, e);
    }
  }

  lemma OrdinaryIsAcceptable(m: Manifest, e: RestoreEntry)
    requires LanesFit(m.captures, m.lanes) && CapturesHaveRoots(m.captures)
    requires e.Anonymous() && ClearOfRoots(e.source, RootsOf(m.captures, m.lanes))
    ensures AcceptableEntry(e, m)
  {
    if TrimSpace(e.source) != "" {
      forall k | 0 <= k < |m.captures| ensures !ReadsPayload(e.source, m.captures[k].payloadRoot) {
        assert m.captures[k] in m.captures;
        assert m.captures[k].payloadRoot in RootsOf(m.captures, m.lanes);
        OverlapIsPlaceOverlap("/", e.source, m.captures[k].payloadRoot);
      }
      forall k | 0 <= k < |m.lanes| ensures !ReadsPayload(e.source, m.lanes[k].payloadRoot) {
        FitIsWellFormed(m.captures, m.lanes, m.lanes[k]);
        assert m.lanes[k].payloadRoot in RootsOf(m.captures, m.lanes);
        OverlapIsPlaceOverlap("/", e.source, m.lanes[k].payloadRoot);
      }
    }
  }

  /** The lane whose own entry this is, and whose root is `root`. */
  ghost predicate OwnRoot(m: Manifest, e: RestoreEntry, root: string) {
    exists l :: l in m.lanes && Serves(l, e) && l.payloadRoot == root
  }

  /** In a strict manifest no entry reads another's payload: whatever payload place an entry's source
    * meets belongs to the entry's own lane and holds the source; an ordinary source meets none. */
  lemma EntriesReadOnlyTheirPayload(m: Manifest, e: RestoreEntry, directory: string, root: string)
    requires StrictLanes(m) && CapturesHaveRoots(m.captures) && Rooted(directory)
    requires e in m.restores && TrimSpace(e.source) != "" && root in RootsOf(m.captures, m.lanes)
    ensures NormalizeSource(e.source).Some?
    ensures var source := PlaceIn(directory, NormalizeSource(e.source).value);
      Nested(source, PlaceIn(directory, root)) ==>
        !e.Anonymous() && OwnRoot(m, e, root) && PlaceIn(directory, root) <= source
  {
    assert StrictEntry(e, m.captures, m.lanes);
    RootIsValid(m, root);
    OverlapIsPlaceOverlap(directory, e.source, root);
    if !e.Anonymous() {
      var l :| l in m.lanes && Serves(l, e);
      FitIsWellFormed(m.captures, m.lanes, l);
      var source := PlaceIn(directory, NormalizeSource(e.source).value);
      BelowItsRoot(directory, e.source, l.payloadRoot);
      if Nested(source, PlaceIn(directory, root)) {
        OutersMeet(PlaceIn(directory, l.payloadRoot), source, PlaceIn(directory, root));
        RootsMeet(directory, l.payloadRoot, root);
        SameRoot(m, l, root);
      }
    }
  }

  lemma RootIsValid(m: Manifest, root: string)
    requires LanesFit(m.captures, m.lanes) && CapturesHaveRoots(m.captures) && root in RootsOf(m.captures, m.lanes)
    ensures ValidRoot(root)
  {
    if l :| l in m.lanes && l.payloadRoot == root { FitIsWellFormed(m.captures, m.lanes, l); }
  }

  lemma BelowItsRoot(directory: string, source: string, root: string)
    requires Rooted(directory) && ValidRoot(root) && NormalizeSource(source).Some?
    requires AtOrBelow(root, NormalizeSource(source).value, '/')
    ensures PlaceIn(directory, root) <= PlaceIn(directory, NormalizeSource(source).value)
  {
    var portable := NormalizeSource(source).value;
    ValidIsPlain(portable);
    ValidIsPlain(root);
    PlainPlace(directory, portable);
    PlainPlace(directory, root);
    assert root + "/" <= portable ==> Lower(root) + "/" <= Lower(portable);
    AtOrBelowIsComponentPrefix(Lower(root), Lower(portable), '/');
  }

  lemma OutersMeet(a: seq<string>, inner: seq<string>, b: seq<string>)
    requires a <= inner && Nested(inner, b)
    ensures Nested(a, b)
  {
    SubtreesMeet(inner, b);
    var p :| InSubtree(inner, p) && InSubtree(b, p);
    assert a == p[..|a|];
    SubtreesMeet(a, b);
  }

  lemma RootsMeet(directory: string, a: string, b: string)
    requires Rooted(directory) && ValidRoot(a) && ValidRoot(b) && Nested(PlaceIn(directory, a), PlaceIn(directory, b))
    ensures PortableOverlap(a, b) && PortableOverlap(b, a)
  {
    ValidIsPlain(a);
    ValidIsPlain(b);
    PlainPlace(directory, a);
    PlainPlace(directory, b);
    NestedBelow(Resolved(Lower(directory)), Split(Lower(a), '/'), Split(Lower(b), '/'));
    PathsOverlapIsNested(Lower(a), Lower(b), '/');
  }

  lemma SameRoot(m: Manifest, l: Lane, root: string)
    requires LanesFit(m.captures, m.lanes) && l in m.lanes && root in RootsOf(m.captures, m.lanes)
    requires PortableOverlap(l.payloadRoot, root) && PortableOverlap(root, l.payloadRoot)
    ensures root == l.payloadRoot
  {
    FitIsWellFormed(m.captures, m.lanes, l);
    if o :| o in m.lanes && o.payloadRoot == root {
      var i :| 0 <= i < |m.lanes| && m.lanes[i] == l;
      var j :| 0 <= j < |m.lanes| && m.lanes[j] == o;
      if i < j {
        LanesClear(m.captures, m.lanes, i, j);
      } else if j < i {
        LanesClear(m.captures, m.lanes, j, i);
      }
    }
  }
}
