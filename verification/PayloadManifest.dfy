/** The closed-world index of a payload directory, and its verification against the actual tree. */
module PayloadManifest {
  import opened ConfigPlan
  import opened Text
  import opened Spellings
  import opened Ordering
  import opened PortablePath

  /** A payload tree as the walk finds it. */
  datatype Node =
    | File(size: nat, digest: string)
    | Directory(children: seq<Child>)
    | Link
    | Special

  datatype Child = Child(name: string, node: Node)

  /** What the walk visits: every node that is not a directory, with its components. */
  datatype Leaf = Leaf(path: seq<string>, node: Node)

  datatype PayloadEntry = PayloadEntry(path: string, size: int, digest: string)

  function Leaves(node: Node, path: seq<string>): seq<Leaf>
    decreases node, if node.Directory? then |node.children| + 1 else 0
  {
    if node.Directory? then ChildLeaves(node, |node.children|, path) else [Leaf(path, node)]
  }

  function ChildLeaves(node: Node, count: nat, path: seq<string>): seq<Leaf>
    requires node.Directory? && count <= |node.children|
    decreases node, count
  {
    if count == 0 then []
    else
      var child := node.children[count - 1];
      ChildLeaves(node, count - 1, path) + Leaves(child.node, path + [child.name])
  }

  predicate HexDigit(c: char) {
    '0' <= c <= '9' || 'a' <= c <= 'f'
  }

  predicate ValidDigest(digest: string) {
    |digest| == 64 && forall k :: 0 <= k < 64 ==> HexDigit(digest[k])
  }

  predicate SamePlace(a: string, b: string) {
    PathsOverlap(Lower(a), Lower(b), '/')
  }

  ghost predicate NoOverlap(entries: seq<PayloadEntry>) {
    forall i, j :: 0 <= i < j < |entries| ==> !SamePlace(entries[i].path, entries[j].path)
  }

  method ValidatePathSet(entries: seq<PayloadEntry>) returns (ok: bool)
    ensures ok <==> NoOverlap(entries)
  {
    for n := 0 to |entries|
      invariant forall i, j :: 0 <= i < j < n ==> !SamePlace(entries[i].path, entries[j].path)
    {
      for k := 0 to n
        invariant forall i :: 0 <= i < k ==> !SamePlace(entries[i].path, entries[n].path)
      {
        if SamePlace(entries[k].path, entries[n].path) {
          return false;
        }
      }
    }
    return true;
  }

  function LeafEntry(leaf: Leaf): Option<PayloadEntry> {
    if !leaf.node.File? then None
    else
      match NormalizePortable(Join(leaf.path, '/'))
      case None => None
      case Some(p) => Some(PayloadEntry(p, leaf.node.size, leaf.node.digest))
  }

  /** The entries of a tree, in walk order. */
  function EntriesOf(leaves: seq<Leaf>): (entries: Option<seq<PayloadEntry>>)
    ensures entries.Some? <==> forall k :: 0 <= k < |leaves| ==> LeafEntry(leaves[k]).Some?
    ensures entries.Some? ==> |entries.value| == |leaves|
    ensures entries.Some? ==> forall k :: 0 <= k < |leaves| ==> Some(entries.value[k]) == LeafEntry(leaves[k])
  {
    if leaves == [] then Some([])
    else
      var n := |leaves| - 1;
      match (EntriesOf(leaves[..n]), LeafEntry(leaves[n]))
      case (Some(before), Some(last)) => Some(before + [last])
      case _ => None
  }

  ghost predicate Buildable(root: Node) {
    root.Directory? && EntriesOf(Leaves(root, [])).Some? && NoOverlap(EntriesOf(Leaves(root, [])).value)
  }

  function ByPath(e: PayloadEntry): string {
    e.path
  }

  /** Building succeeds exactly on a directory of regular files with acceptable, non-overlapping
    * portable paths, and lists every file once, sorted by path. */
  method Build(root: Node) returns (entries: Option<seq<PayloadEntry>>)
    ensures entries.Some? <==> Buildable(root)
    ensures entries.Some? ==> entries.value == SortBy(EntriesOf(Leaves(root, [])).value, ByPath)
  {
    if !root.Directory? {
      return None;
    }
    var leaves := Leaves(root, []);
    var found: seq<PayloadEntry> := [];
    for n := 0 to |leaves|
      invariant EntriesOf(leaves[..n]) == Some(found)
    {
      assert leaves[..n + 1][..n] == leaves[..n];
      var one := LeafEntry(leaves[n]);
      if one.None? {
        return None;
      }
      found := found + [one.value];
    }
    assert leaves[..|leaves|] == leaves;
    var ok := ValidatePathSet(found);
    if !ok {
      return None;
    }
    return Some(SortBy(found, ByPath));
  }

  // ----- verification -----

  datatype Content = Content(size: int, digest: string)

  function ContentOf(e: PayloadEntry): Content {
    Content(e.size, e.digest)
  }

  /** Entries by folded path. */
  function Index(entries: seq<PayloadEntry>): map<string, Content> {
    if entries == [] then map[]
    else
      var n := |entries| - 1;
      Index(entries[..n])[Lower(entries[n].path) := ContentOf(entries[n])]
  }

  /** Both sides map the same folded paths to the same sizes and digests. */
  ghost predicate SameMap(a: seq<PayloadEntry>, b: seq<PayloadEntry>) {
    Index(a) == Index(b)
  }

  predicate Declarable(e: PayloadEntry) {
    NormalizePortable(e.path).Some? && e.size >= 0 && ValidDigest(e.digest)
  }

  function Normalized(e: PayloadEntry): PayloadEntry
    requires Declarable(e)
  {
    e.(path := NormalizePortable(e.path).value)
  }

  predicate AllDeclarable(entries: seq<PayloadEntry>) {
    forall k :: 0 <= k < |entries| ==> Declarable(entries[k])
  }

  function Declared(entries: seq<PayloadEntry>): (r: seq<PayloadEntry>)
    requires AllDeclarable(entries)
    ensures |r| == |entries| && forall k :: 0 <= k < |r| ==> r[k] == Normalized(entries[k])
  {
    seq(|entries|, k requires 0 <= k < |entries| && Declarable(entries[k]) => Normalized(entries[k]))
  }

  ghost predicate Verifies(root: Node, entries: seq<PayloadEntry>) {
    && AllDeclarable(entries) && NoOverlap(Declared(entries)) && Buildable(root)
    && SameMap(Declared(entries), EntriesOf(Leaves(root, [])).value)
  }

  ghost predicate DistinctKeys(entries: seq<PayloadEntry>) {
    forall i, j :: 0 <= i < j < |entries| ==> Lower(entries[i].path) != Lower(entries[j].path)
  }

  /** With distinct folded paths the index holds every entry and nothing else. */
  lemma {:induction false} IndexHolds(entries: seq<PayloadEntry>)
    requires DistinctKeys(entries)
    ensures forall e :: e in entries ==>
      Lower(e.path) in Index(entries) && Index(entries)[Lower(e.path)] == ContentOf(e)
    ensures forall key :: key in Index(entries) ==> exists e :: e in entries && Lower(e.path) == key
  {
    if entries != [] {
      var n := |entries| - 1;
      var before := entries[..n];
      IndexHolds(before);
      assert entries == before + [entries[n]];
      forall e | e in before ensures Lower(e.path) != Lower(entries[n].path) {
        var k :| 0 <= k < n && entries[k] == e;
      }
    }
  }

  /** Sorting changes neither the map nor the absence of overlaps. */
  lemma SortedKeepsMap(entries: seq<PayloadEntry>)
    requires NoOverlap(entries)
    ensures DistinctKeys(entries) && DistinctKeys(SortBy(entries, ByPath))
    ensures NoOverlap(SortBy(entries, ByPath)) && SameMap(entries, SortBy(entries, ByPath))
  {
    var sorted := SortBy(entries, ByPath);
    SortedNoOverlap(entries);
    SortByMembers(entries, ByPath);
    OverlapKeys(entries);
    OverlapKeys(sorted);
    IndexHolds(entries);
    IndexHolds(sorted);
  }

  lemma OverlapKeys(entries: seq<PayloadEntry>)
    requires NoOverlap(entries)
    ensures DistinctKeys(entries)
  {
    forall i, j | 0 <= i < j < |entries| ensures Lower(entries[i].path) != Lower(entries[j].path) {
      assert !SamePlace(entries[i].path, entries[j].path);
    }
  }

  /** Verification succeeds exactly when the declared and the actual entries are one finite map. */
  method Verify(root: Node, entries: seq<PayloadEntry>) returns (ok: bool)
    ensures ok <==> Verifies(root, entries)
  {
    var declared := Declare(entries);
    if declared.None? {
      return false;
    }
    var clear := ValidatePathSet(declared.value);
    if !clear {
      return false;
    }
    var built := Build(root);
    if built.None? {
      return false;
    }
    SortedKeepsMap(declared.value);
    SortedKeepsMap(EntriesOf(Leaves(root, [])).value);
    ok := Compare(SortBy(declared.value, ByPath), built.value);
  }

  method Declare(entries: seq<PayloadEntry>) returns (declared: Option<seq<PayloadEntry>>)
    ensures declared.Some? <==> AllDeclarable(entries)
    ensures declared.Some? ==> declared.value == Declared(entries)
  {
    var all: seq<PayloadEntry> := [];
    for n := 0 to |entries|
      invariant AllDeclarable(entries[..n])
      invariant |all| == n && forall k :: 0 <= k < n ==> Declarable(entries[k]) && all[k] == Normalized(entries[k])
    {
      if !Declarable(entries[n]) {
        return None;
      }
      all := all + [Normalized(entries[n])];
    }
    return Some(all);
  }

  method IndexEntries(entries: seq<PayloadEntry>) returns (index: map<string, Content>)
    ensures index == Index(entries)
  {
    index := map[];
    for n := 0 to |entries|
      invariant index == Index(entries[..n])
    {
      assert entries[..n + 1][..n] == entries[..n];
      index := index[Lower(entries[n].path) := ContentOf(entries[n])];
    }
    assert entries[..|entries|] == entries;
  }

  method Compare(declared: seq<PayloadEntry>, actual: seq<PayloadEntry>) returns (ok: bool)
    requires DistinctKeys(declared) && DistinctKeys(actual)
    ensures ok <==> SameMap(declared, actual)
  {
    var wanted := IndexEntries(declared);
    var present := IndexEntries(actual);
    SameMapExactly(declared, actual);
    ok := AllMatched(declared, present);
    if ok {
      ok := AllWanted(actual, wanted);
    }
  }

  method AllMatched(declared: seq<PayloadEntry>, present: map<string, Content>) returns (ok: bool)
    ensures ok <==> forall e :: e in declared ==> Matched(e, present)
  {
    for n := 0 to |declared|
      invariant forall e :: e in declared[..n] ==> Matched(e, present)
    {
      assert declared[..n + 1] == declared[..n] + [declared[n]] && declared[n] in declared;
      var e, key := declared[n], Lower(declared[n].path);
      if key !in present || present[key].size != e.size || present[key].digest != e.digest {
        return false;
      }
    }
    assert declared[..|declared|] == declared;
    return true;
  }

  method AllWanted(actual: seq<PayloadEntry>, wanted: map<string, Content>) returns (ok: bool)
    ensures ok <==> forall e :: e in actual ==> Lower(e.path) in wanted
  {
    for n := 0 to |actual|
      invariant forall e :: e in actual[..n] ==> Lower(e.path) in wanted
    {
      assert actual[..n + 1] == actual[..n] + [actual[n]] && actual[n] in actual;
      if Lower(actual[n].path) !in wanted {
        return false;
      }
    }
    assert actual[..|actual|] == actual;
    return true;
  }

  predicate Matched(e: PayloadEntry, index: map<string, Content>) {
    Lower(e.path) in index && index[Lower(e.path)] == ContentOf(e)
  }

  lemma SameMapExactly(declared: seq<PayloadEntry>, actual: seq<PayloadEntry>)
    requires DistinctKeys(declared) && DistinctKeys(actual)
    ensures SameMap(declared, actual) <==>
      && (forall e :: e in declared ==> Matched(e, Index(actual)))
      && (forall e :: e in actual ==> Lower(e.path) in Index(declared))
  {
    IndexHolds(declared);
    IndexHolds(actual);
    var wanted, present := Index(declared), Index(actual);
    if (forall e :: e in declared ==> Matched(e, present)) && (forall e :: e in actual ==> Lower(e.path) in wanted) {
      forall key ensures key in wanted <==> key in present {
        if key in wanted { var e :| e in declared && Lower(e.path) == key; }
        if key in present { var e :| e in actual && Lower(e.path) == key; }
      }
      forall key | key in wanted ensures wanted[key] == present[key] {
        var e :| e in declared && Lower(e.path) == key;
        assert Matched(e, present);
      }
    }
  }

  // ----- a manifest verifies the tree it was built from -----

  /** Names a file system can give: no separator, not empty, not "." or "..". */
  predicate RealNames(path: seq<string>) {
    path != [] && forall k :: 0 <= k < |path| ==> Plain(path[k])
  }

  /** The walk only ever meets real names below a directory, and files have real digests. */
  ghost predicate Walked(root: Node) {
    forall k :: 0 <= k < |Leaves(root, [])| ==>
      var leaf := Leaves(root, [])[k];
      RealNames(leaf.path) && (leaf.node.File? ==> ValidDigest(leaf.node.digest))
  }

  predicate Renormalizable(path: string) {
    path != "" && path[0] != '~' && TrimSpace(path) == path
  }

  /** Verifying a manifest against the unchanged tree it was built from succeeds exactly when every
    * listed path survives a second normalization. */
  lemma BuiltVerifies(root: Node)
    requires Walked(root) && Buildable(root)
    ensures var entries := EntriesOf(Leaves(root, [])).value;
      Verifies(root, SortBy(entries, ByPath)) <==> forall e :: e in entries ==> Renormalizable(e.path)
  {
    var leaves := Leaves(root, []);
    var entries := EntriesOf(leaves).value;
    var sorted := SortBy(entries, ByPath);
    SortByMembers(entries, ByPath);
    SortedKeepsMap(entries);
    AllListed(leaves, entries);
    DeclaredAsIs(sorted);
  }

  lemma AllListed(leaves: seq<Leaf>, entries: seq<PayloadEntry>)
    requires EntriesOf(leaves) == Some(entries)
    requires forall k :: 0 <= k < |leaves| && leaves[k].node.File? ==> ValidDigest(leaves[k].node.digest)
    ensures forall e :: e in entries ==> ListedAsIs(e)
  {
    forall e | e in entries ensures ListedAsIs(e) {
      var k :| 0 <= k < |entries| && entries[k] == e;
      ListedPath(leaves[k], e);
    }
  }

  /** Verification keeps or refuses the entry, but never renames it. */
  predicate ListedAsIs(e: PayloadEntry) {
    && (Declarable(e) <==> Renormalizable(e.path))
    && (Declarable(e) ==> Normalized(e) == e)
  }

  lemma DeclaredAsIs(entries: seq<PayloadEntry>)
    requires forall e :: e in entries ==> ListedAsIs(e)
    ensures AllDeclarable(entries) <==> forall e :: e in entries ==> Renormalizable(e.path)
    ensures AllDeclarable(entries) ==> Declared(entries) == entries
  {
    forall k | 0 <= k < |entries| ensures ListedAsIs(entries[k]) { assert entries[k] in entries; }
  }

  lemma ListedPath(leaf: Leaf, e: PayloadEntry)
    requires LeafEntry(leaf) == Some(e) && (leaf.node.File? ==> ValidDigest(leaf.node.digest))
    ensures ListedAsIs(e)
  {
    AcceptedIsPortable(Join(leaf.path, '/'));
    RenormalizeExactly(Join(leaf.path, '/'));
  }

  lemma SortedNoOverlap(entries: seq<PayloadEntry>)
    requires NoOverlap(entries)
    ensures NoOverlap(SortBy(entries, ByPath))
  {
    var sorted := SortBy(entries, ByPath);
    SortByMembers(entries, ByPath);
    forall i, j | 0 <= i < j < |entries| ensures entries[i] != entries[j] {
      assert !SamePlace(entries[i].path, entries[j].path);
    }
    SortByElements(entries, ByPath);
    forall i, j | 0 <= i < j < |sorted| ensures !SamePlace(sorted[i].path, sorted[j].path) {
      assert sorted[i] in sorted && sorted[j] in sorted;
      PairApart(entries, sorted[i], sorted[j]);
    }
  }

  lemma PairApart(entries: seq<PayloadEntry>, x: PayloadEntry, y: PayloadEntry)
    requires NoOverlap(entries) && x in entries && y in entries && x != y
    ensures !SamePlace(x.path, y.path)
  {
    var a :| 0 <= a < |entries| && entries[a] == x;
    var b :| 0 <= b < |entries| && entries[b] == y;
    if a < b { assert !SamePlace(entries[a].path, entries[b].path); }
    else { assert !SamePlace(entries[b].path, entries[a].path); }
  }

  /** A name without backslashes is listed as it is, and always survives. */
  lemma NamesWithoutBackslash(path: seq<string>)
    requires RealNames(path) && NormalizePortable(Join(path, '/')).Some?
    requires forall k :: 0 <= k < |path| ==> '\\' !in path[k]
    ensures NormalizePortable(Join(path, '/')) == Some(Join(path, '/')) && Renormalizable(Join(path, '/'))
  {
    var p := Join(path, '/');
    JoinLacks(path, '/', '\\');
    assert ReplaceChar(p, '\\', '/') == p;
    JoinStarts(path);
    SplitJoin(path, '/');
    assert [] + path == path;
    FoldIsIdentity(path, false, []);
  }

  /** So on a tree whose names hold no backslash, what was just built always verifies. */
  lemma UnchangedTreeVerifies(root: Node)
    requires Walked(root) && Buildable(root)
    requires forall k, j :: 0 <= k < |Leaves(root, [])| && 0 <= j < |Leaves(root, [])[k].path| ==>
      '\\' !in Leaves(root, [])[k].path[j]
    ensures Verifies(root, SortBy(EntriesOf(Leaves(root, [])).value, ByPath))
  {
    var leaves := Leaves(root, []);
    var entries := EntriesOf(leaves).value;
    forall e | e in entries ensures Renormalizable(e.path) {
      var k :| 0 <= k < |entries| && entries[k] == e;
      NamesWithoutBackslash(leaves[k].path);
    }
    BuiltVerifies(root);
  }

  /** A name with a backslash can be listed under a path that verification then refuses. */
  lemma BackslashNameMayNotVerify(digest: string)
    requires ValidDigest(digest)
    ensures var root := Directory([Child(".\\~a", File(1, digest))]);
      Buildable(root) && !Verifies(root, EntriesOf(Leaves(root, [])).value)
  {
    var root := Directory([Child(".\\~a", File(1, digest))]);
    var leaf := Leaf([".\\~a"], File(1, digest));
    assert Leaves(root, []) == [leaf] by {
      assert ChildLeaves(root, 0, []) == [] && [] + [".\\~a"] == leaf.path;
      assert Leaves(root, []) == ChildLeaves(root, 1, []);
    }
    BackslashHidesTheStart();
    NormalizeIsNotIdempotent();
    assert LeafEntry(leaf) == Some(PayloadEntry("~a", 1, digest));
    var entries := EntriesOf([leaf]).value;
    assert entries[0].path == "~a" && !Declarable(entries[0]);
  }

  lemma BackslashHidesTheStart()
    ensures NormalizePortable(Join([".\\~a"], '/')) == Some("~a")
  {
    var v := ".\\~a";
    assert ReplaceChar(v, '\\', '/') == "./~a" == ReplaceChar("./~a", '\\', '/');
    TrimmedEnds(v);
    NormalizeIsNotIdempotent();
  }

  // ----- the tree and the manifest, place by place -----

  /** Following the names of `path` from a directory leads to `node`. */
  ghost predicate Leads(root: Node, path: seq<string>, node: Node)
    decreases |path|
  {
    if path == [] then node == root
    else
      && root.Directory?
      && exists child :: child in root.children && child.name == path[0] && Leads(child.node, path[1..], node)
  }

  /** The walk finds exactly what is reached by names and is not a directory. */
  lemma {:induction false} LeavesExactly(root: Node, prefix: seq<string>, leaf: Leaf)
    ensures leaf in Leaves(root, prefix) <==>
      !leaf.node.Directory? && prefix <= leaf.path && Leads(root, leaf.path[|prefix|..], leaf.node)
    decreases root, if root.Directory? then |root.children| + 1 else 0
  {
    if root.Directory? {
      ChildLeavesExactly(root, |root.children|, prefix, leaf);
      if prefix <= leaf.path {
        var rest := leaf.path[|prefix|..];
        if rest == [] {
          assert leaf.path == prefix;
        }
      }
    } else if prefix <= leaf.path && leaf.path[|prefix|..] == [] {
      assert leaf.path == prefix;
    }
  }

  lemma {:induction false} ChildLeavesExactly(root: Node, count: nat, prefix: seq<string>, leaf: Leaf)
    requires root.Directory? && count <= |root.children|
    ensures leaf in ChildLeaves(root, count, prefix) <==>
      !leaf.node.Directory? && prefix < leaf.path && exists k ::
        0 <= k < count && root.children[k].name == leaf.path[|prefix|] &&
        Leads(root.children[k].node, leaf.path[|prefix| + 1..], leaf.node)
    decreases root, count
  {
    if count > 0 {
      var child := root.children[count - 1];
      ChildLeavesExactly(root, count - 1, prefix, leaf);
      LeavesExactly(child.node, prefix + [child.name], leaf);
      if prefix < leaf.path {
        assert prefix + [child.name] <= leaf.path <==> child.name == leaf.path[|prefix|];
      }
    }
  }

  /** Both name one place, letter case aside, and agree on what is there. */
  predicate Agree(e: PayloadEntry, f: PayloadEntry) {
    SameText(e.path, f.path) && e.size == f.size && e.digest == f.digest
  }

  /** Every declared file is there with its size and digest, and nothing else is. */
  ghost predicate OneToOne(declared: seq<PayloadEntry>, actual: seq<PayloadEntry>) {
    && (forall e :: e in declared ==> exists f :: f in actual && Agree(e, f))
    && (forall f :: f in actual ==> exists e :: e in declared && Agree(e, f))
  }

  /** Two lists without folded duplicates say the same exactly when each entry of one has its like in the
    * other. */
  lemma SaysTheSame(a: seq<PayloadEntry>, b: seq<PayloadEntry>)
    requires DistinctKeys(a) && DistinctKeys(b)
    ensures SameMap(a, b) <==> OneToOne(a, b)
  {
    SameMapExactly(a, b);
    forall e | e in a ensures Matched(e, Index(b)) <==> exists f :: f in b && Agree(e, f) { HasItsLike(e, b); }
    forall f | f in b ensures Matched(f, Index(a)) <==> exists e :: e in a && Agree(f, e) { HasItsLike(f, a); }
    forall e: PayloadEntry, f: PayloadEntry ensures Agree(e, f) <==> Agree(f, e) { AgreeBothWays(e, f); }
    if SameMap(a, b) { SameMapExactly(b, a); }
    forall f | f in b && (exists e :: e in a && Agree(e, f)) ensures Lower(f.path) in Index(a) {
      var e :| e in a && Agree(e, f);
      HasItsLike(f, a);
    }
  }

  lemma AgreeBothWays(e: PayloadEntry, f: PayloadEntry)
    ensures Agree(e, f) ==> Agree(f, e)
  {
    SameTextFolds(e.path, f.path);
    SameTextFolds(f.path, e.path);
  }

  lemma HasItsLike(e: PayloadEntry, entries: seq<PayloadEntry>)
    requires DistinctKeys(entries)
    ensures Matched(e, Index(entries)) <==> exists f :: f in entries && Agree(e, f)
  {
    IndexHolds(entries);
    forall f | f in entries ensures SameText(e.path, f.path) <==> Lower(e.path) == Lower(f.path) {
      SameTextFolds(e.path, f.path);
    }
  }

  /** A payload verifies exactly when its manifest is well-formed, its tree can be listed, and the two are one
    * to one. */
  lemma VerifiesExactly(root: Node, entries: seq<PayloadEntry>)
    ensures Verifies(root, entries) <==>
      AllDeclarable(entries) && NoOverlap(Declared(entries)) && Buildable(root) &&
      OneToOne(Declared(entries), EntriesOf(Leaves(root, [])).value)
  {
    if AllDeclarable(entries) && NoOverlap(Declared(entries)) && Buildable(root) {
      var declared, actual := Declared(entries), EntriesOf(Leaves(root, [])).value;
      OverlapKeys(declared);
      OverlapKeys(actual);
      SaysTheSame(declared, actual);
    }
  }

  /** The entry of a file. */
  predicate Lists(f: PayloadEntry, path: seq<string>, node: Node) {
    && node.File? && f.size == node.size && f.digest == node.digest
    && NormalizePortable(Join(path, '/')) == Some(f.path)
  }

  /** A listed file is a regular file of the tree under its portable name, with its size and digest. */
  lemma ListedExactly(root: Node, f: PayloadEntry)
    requires Buildable(root)
    ensures f in EntriesOf(Leaves(root, [])).value <==>
      exists path, node :: Leads(root, path, node) && Lists(f, path, node)
  {
    var leaves := Leaves(root, []);
    var actual := EntriesOf(leaves).value;
    if f in actual {
      var k :| 0 <= k < |actual| && actual[k] == f;
      EntryIsLeaf(root, leaves[k], f);
    }
    forall path, node | Leads(root, path, node) && Lists(f, path, node) ensures f in actual {
      var leaf := Leaf(path, node);
      assert leaf.path[0..] == path;
      LeavesExactly(root, [], leaf);
      var k :| 0 <= k < |leaves| && leaves[k] == leaf;
      assert Some(actual[k]) == LeafEntry(leaf);
    }
  }

  lemma EntryIsLeaf(root: Node, leaf: Leaf, f: PayloadEntry)
    requires leaf in Leaves(root, []) && LeafEntry(leaf) == Some(f)
    ensures Leads(root, leaf.path, leaf.node) && Lists(f, leaf.path, leaf.node)
  {
    LeavesExactly(root, [], leaf);
    assert leaf.path[0..] == leaf.path;
  }

  /** A digest is 64 lower-case hexadecimal digits. */
  lemma DigestExactly(digest: string)
    ensures ValidDigest(digest) <==>
      |digest| == 64 && forall c :: c in digest ==> '0' <= c <= '9' || c in {'a', 'b', 'c', 'd', 'e', 'f'}
  {
    forall k | 0 <= k < |digest| ensures digest[k] in digest { }
  }
}
