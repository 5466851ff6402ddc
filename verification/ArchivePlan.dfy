/** Planning the extraction of an untrusted archive: the whole directory is checked before the first
  * member is created, bytes are budgeted, and an extracted tree is removed children first. */
module ArchivePlan {
  import opened ConfigPlan
  import opened Text
  import opened Ordering
  import opened PayloadManifest

  const MAX_ENTRIES := 100_000
  const MAX_BYTES: nat := 100 * 1024 * 1024
  const UINT64_LIMIT: nat := 0x1_0000_0000_0000_0000

  datatype ArchiveFile = ArchiveFile(name: string, size: nat, directory: bool, special: bool)

  datatype PlannedMember = PlannedMember(portable: string, directory: bool)

  function Portable(f: ArchiveFile): string {
    TrimSuffixChar(ReplaceChar(f.name, '\\', '/'), '/')
  }

  /** Archives are compared as Windows would: without case. */
  function Identity(f: ArchiveFile): string {
    Lower(Portable(f))
  }

  predicate Passes(f: ArchiveFile, resolves: string -> bool) {
    !f.special && Portable(f) != "" && resolves(Portable(f))
  }

  predicate StrictlyBelow(ancestor: string, path: string) {
    ancestor + "/" <= path
  }

  /** Two members that cannot both be created: one place twice, or something beneath a file. */
  predicate Clashing(a: ArchiveFile, b: ArchiveFile) {
    || Identity(a) == Identity(b)
    || (!a.directory && StrictlyBelow(Identity(a), Identity(b)))
    || (!b.directory && StrictlyBelow(Identity(b), Identity(a)))
  }

  predicate PlannableUpTo(files: seq<ArchiveFile>, n: nat, resolves: string -> bool)
    requires n <= |files|
  {
    && (forall i :: 0 <= i < n ==> Passes(files[i], resolves))
    && (forall i, j :: 0 <= i < j < n ==> !Clashing(files[i], files[j]))
  }

  /** One planned member for each archive member, in archive order. */
  function Planned(files: seq<ArchiveFile>, n: nat): seq<PlannedMember>
    requires n <= |files|
  {
    if n == 0 then [] else Planned(files, n - 1) + [PlannedMember(Portable(files[n - 1]), files[n - 1].directory)]
  }

  predicate Plannable(files: seq<ArchiveFile>, resolves: string -> bool) {
    PlannableUpTo(files, |files|, resolves)
  }

  /** The position of the first separator at or after `from`. */
  function IndexFrom(s: string, from: nat): (k: int)
    requires from <= |s|
    ensures k == -1 ==> forall i :: from <= i < |s| ==> s[i] != '/'
    ensures k != -1 ==> from <= k < |s| && s[k] == '/' && forall i :: from <= i < k ==> s[i] != '/'
    decreases |s| - from
  {
    if from == |s| then -1 else if s[from] == '/' then from else IndexFrom(s, from + 1)
  }

  /** A file among the identities is a strict ancestor. */
  ghost predicate BeneathFile(identity: string, identities: map<string, bool>) {
    exists k :: 0 <= k < |identity| && identity[k] == '/' && identity[..k] in identities && !identities[identity[..k]]
  }

  /** Walks the separators of an identity and so visits every proper ancestor. */
  method HasFileAncestor(identity: string, identities: map<string, bool>) returns (found: bool)
    ensures found <==> BeneathFile(identity, identities)
  {
    var slash := IndexFrom(identity, 0);
    while slash >= 0
      invariant slash == -1 || (0 <= slash < |identity| && identity[slash] == '/')
      invariant forall k :: 0 <= k < (if slash == -1 then |identity| else slash) && identity[k] == '/' ==>
        !(identity[..k] in identities && !identities[identity[..k]])
      decreases if slash == -1 then 0 else |identity| - slash
    {
      var ancestor := identity[..slash];
      if ancestor in identities && !identities[ancestor] {
        return true;
      }
      slash := IndexFrom(identity, slash + 1);
    }
    return false;
  }

  /** The identities recorded for the first `n` members, with their directory flags. */
  ghost predicate Records(files: seq<ArchiveFile>, n: nat, identities: map<string, bool>)
    requires n <= |files|
  {
    && (forall k :: 0 <= k < n ==>
      Identity(files[k]) in identities && identities[Identity(files[k])] == files[k].directory)
    && (forall id :: id in identities ==> exists k :: 0 <= k < n && Identity(files[k]) == id)
  }

  lemma AncestorBySlash(ancestor: string, path: string)
    ensures StrictlyBelow(ancestor, path) <==>
      |ancestor| < |path| && path[|ancestor|] == '/' && path[..|ancestor|] == ancestor
  {
    if |ancestor| < |path| && path[|ancestor|] == '/' && path[..|ancestor|] == ancestor {
      assert path[..|ancestor| + 1] == ancestor + "/";
    }
  }

  /** Some recorded identity cannot live beside this member. */
  ghost predicate Blocked(f: ArchiveFile, identities: map<string, bool>) {
    || Identity(f) in identities || BeneathFile(Identity(f), identities)
    || (!f.directory && exists id :: id in identities && StrictlyBelow(Identity(f), id))
  }

  ghost predicate ClashesEarlier(files: seq<ArchiveFile>, n: nat)
    requires n < |files|
  {
    exists k :: 0 <= k < n && Clashing(files[k], files[n])
  }

  /** What the member's own checks see is exactly a clash with an earlier member. */
  lemma ClashSeen(files: seq<ArchiveFile>, n: nat, identities: map<string, bool>)
    requires n < |files| && Records(files, n, identities)
    ensures Blocked(files[n], identities) <==> ClashesEarlier(files, n)
  {
    var identity := Identity(files[n]);
    if BeneathFile(identity, identities) {
      var at :|
        0 <= at < |identity| && identity[at] == '/' && identity[..at] in identities && !identities[identity[..at]];
      AncestorBySlash(identity[..at], identity);
      var k :| 0 <= k < n && Identity(files[k]) == identity[..at];
      assert Clashing(files[k], files[n]);
    }
    forall k | 0 <= k < n && !files[k].directory && StrictlyBelow(Identity(files[k]), identity)
      ensures BeneathFile(identity, identities)
    {
      AncestorBySlash(Identity(files[k]), identity);
      var at := |Identity(files[k])|;
      assert identity[at] == '/' && identity[..at] in identities;
    }
  }

  /** Planning succeeds exactly when every member passes on its own and no two clash. */
  method PlanExtraction(files: seq<ArchiveFile>, resolves: string -> bool) returns (plan: Option<seq<PlannedMember>>)
    ensures plan.Some? <==> Plannable(files, resolves)
    ensures plan.Some? ==> plan.value == Planned(files, |files|)
  {
    var identities: map<string, bool> := map[];
    var members: seq<PlannedMember> := [];
    for n := 0 to |files|
      invariant PlannableUpTo(files, n, resolves) && Records(files, n, identities)
      invariant members == Planned(files, n)
    {
      var admitted := Admit(files, n, resolves, identities);
      if admitted.None? {
        return None;
      }
      identities := admitted.value;
      members := members + [PlannedMember(Portable(files[n]), files[n].directory)];
    }
    return Some(members);
  }

  /** Records one more member, unless it fails its own checks or clashes with an earlier one. */
  method Admit(files: seq<ArchiveFile>, n: nat, resolves: string -> bool, identities: map<string, bool>)
    returns (more: Option<map<string, bool>>)
    requires n < |files| && PlannableUpTo(files, n, resolves) && Records(files, n, identities)
    ensures more.Some? ==> PlannableUpTo(files, n + 1, resolves) && Records(files, n + 1, more.value)
    ensures more.None? ==> !Plannable(files, resolves)
  {
    PlannableNext(files, n, resolves);
    ClashSeen(files, n, identities);
    if !Passes(files[n], resolves) {
      return None;
    }
    var blocked := Blocks(files[n], identities);
    if blocked {
      return None;
    }
    RecordMore(files, n, identities);
    return Some(identities[Identity(files[n]) := files[n].directory]);
  }

  lemma RecordMore(files: seq<ArchiveFile>, n: nat, identities: map<string, bool>)
    requires n < |files| && Records(files, n, identities) && Identity(files[n]) !in identities
    ensures Records(files, n + 1, identities[Identity(files[n]) := files[n].directory])
  {
  }

  lemma PlannableNext(files: seq<ArchiveFile>, n: nat, resolves: string -> bool)
    requires n < |files| && PlannableUpTo(files, n, resolves)
    ensures PlannableUpTo(files, n + 1, resolves) <==> Passes(files[n], resolves) && !ClashesEarlier(files, n)
    ensures !PlannableUpTo(files, n + 1, resolves) ==> !Plannable(files, resolves)
  {
  }

  /** The checks of one member against the identities recorded so far. */
  method Blocks(f: ArchiveFile, identities: map<string, bool>) returns (blocked: bool)
    ensures blocked <==> Blocked(f, identities)
  {
    var identity := Identity(f);
    if identity in identities {
      return true;
    }
    var beneath := HasFileAncestor(identity, identities);
    if beneath {
      return true;
    }
    return !f.directory && exists id :: id in identities && StrictlyBelow(identity, id);
  }

  /** Whether an archive can be planned does not depend on the order of its members. */
  lemma OrderDoesNotMatter(files: seq<ArchiveFile>, shuffled: seq<ArchiveFile>, resolves: string -> bool)
    requires multiset(files) == multiset(shuffled) && Plannable(files, resolves)
    ensures Plannable(shuffled, resolves)
  {
    forall i, j | 0 <= i < j < |files| ensures files[i] != files[j] {
      assert !Clashing(files[i], files[j]);
    }
    PermutationRepeats(files, shuffled);
    PermutationElements(files, shuffled);
    forall i | 0 <= i < |shuffled| ensures Passes(shuffled[i], resolves) {
      assert shuffled[i] in Elements(files);
    }
    forall i, j | 0 <= i < j < |shuffled| ensures !Clashing(shuffled[i], shuffled[j]) {
      assert shuffled[i] in Elements(files) && shuffled[j] in Elements(files);
      DifferentMembers(files, shuffled[i], shuffled[j]);
    }
  }

  lemma DifferentMembers(files: seq<ArchiveFile>, x: ArchiveFile, y: ArchiveFile)
    requires forall i, j :: 0 <= i < j < |files| ==> !Clashing(files[i], files[j])
    requires x in files && y in files && x != y
    ensures !Clashing(x, y)
  {
    var a :| 0 <= a < |files| && files[a] == x;
    var b :| 0 <= b < |files| && files[b] == y;
    assert a < b ==> !Clashing(files[a], files[b]);
    assert b < a ==> !Clashing(files[b], files[a]);
  }

  /** In components: a planned archive never holds one place twice, nor anything beneath a file. */
  lemma PlannedComponents(files: seq<ArchiveFile>, resolves: string -> bool, i: nat, j: nat)
    requires Plannable(files, resolves) && i < |files| && j < |files| && i != j
    ensures Split(Identity(files[i]), '/') != Split(Identity(files[j]), '/')
    ensures Split(Identity(files[i]), '/') <= Split(Identity(files[j]), '/') ==> files[i].directory
  {
    assert !Clashing(files[if i < j then i else j], files[if i < j then j else i]);
    if Split(Identity(files[i]), '/') == Split(Identity(files[j]), '/') {
      SplitInjective(Identity(files[i]), Identity(files[j]), '/');
    }
    AtOrBelowIsComponentPrefix(Identity(files[i]), Identity(files[j]), '/');
  }

  // ----- byte budget -----

  function DeclaredBytes(files: seq<ArchiveFile>): nat {
    if files == [] then 0
    else
      var last := files[|files| - 1];
      DeclaredBytes(files[..|files| - 1]) + if last.directory then 0 else last.size
  }

  lemma {:induction false} DeclaredGrows(files: seq<ArchiveFile>, n: nat)
    requires n <= |files|
    ensures DeclaredBytes(files[..n]) <= DeclaredBytes(files)
    decreases |files| - n
  {
    if n < |files| {
      assert files[..n + 1][..n] == files[..n];
      DeclaredGrows(files, n + 1);
    } else {
      assert files[..n] == files;
    }
  }

  /** Sizes are 64-bit; comparing with what is left never wraps, and decides the true sum. */
  method WithinBudget(files: seq<ArchiveFile>) returns (ok: bool)
    requires forall k :: 0 <= k < |files| ==> files[k].size < UINT64_LIMIT
    ensures ok <==> |files| <= MAX_ENTRIES && DeclaredBytes(files) <= MAX_BYTES
  {
    if |files| > MAX_ENTRIES {
      return false;
    }
    var total: nat := 0;
    for n := 0 to |files|
      invariant total == DeclaredBytes(files[..n]) <= MAX_BYTES
    {
      assert files[..n + 1][..n] == files[..n];
      var room := (MAX_BYTES - total) % UINT64_LIMIT;
      if !files[n].directory {
        if files[n].size > room {
          DeclaredGrows(files, n + 1);
          return false;
        }
        total := (total + files[n].size) % UINT64_LIMIT;
      }
    }
    assert files[..|files|] == files;
    return true;
  }

  function Sum(sizes: seq<nat>): nat {
    if sizes == [] then 0 else Sum(sizes[..|sizes| - 1]) + sizes[|sizes| - 1]
  }

  lemma {:induction false} SumGrows(sizes: seq<nat>, n: nat)
    requires n <= |sizes|
    ensures Sum(sizes[..n]) <= Sum(sizes)
    decreases |sizes| - n
  {
    if n < |sizes| {
      assert sizes[..n + 1][..n] == sizes[..n];
      SumGrows(sizes, n + 1);
    } else {
      assert sizes[..n] == sizes;
    }
  }

  /** Whatever the archive declared, expansion stops one byte past the limit: `actual` are the sizes the
    * members really expand to. */
  method Expand(actual: seq<nat>) returns (ok: bool, written: nat)
    ensures ok <==> Sum(actual) <= MAX_BYTES
    ensures ok ==> written == Sum(actual)
    ensures written <= MAX_BYTES + 1
  {
    written := 0;
    for n := 0 to |actual|
      invariant written == Sum(actual[..n]) <= MAX_BYTES
    {
      assert actual[..n + 1][..n] == actual[..n];
      var remaining := MAX_BYTES - written;
      var copied := if actual[n] <= remaining + 1 then actual[n] else remaining + 1;
      written := written + copied;
      if copied > remaining {
        SumGrows(actual, n + 1);
        return false, written;
      }
    }
    assert actual[..|actual|] == actual;
    return true, written;
  }

  // ----- removal -----

  type Path = seq<string>

  datatype Removal = Removal(path: Path, directory: bool)

  /** Children before their directory; nothing is planned if any member is a link or special. */
  function RemovalOf(node: Node, path: Path): Option<seq<Removal>>
    decreases node, if node.Directory? then |node.children| + 1 else 0
  {
    match node
    case File(_, _) => Some([Removal(path, false)])
    case Directory(children) =>
      (match RemovalOfChildren(node, |children|, path)
       case None => None
       case Some(inside) => Some(inside + [Removal(path, true)]))
    case _ => None
  }

  function RemovalOfChildren(node: Node, count: nat, path: Path): Option<seq<Removal>>
    requires node.Directory? && count <= |node.children|
    decreases node, count
  {
    if count == 0 then Some([])
    else
      var child := node.children[count - 1];
      match (RemovalOfChildren(node, count - 1, path), RemovalOf(child.node, path + [child.name]))
      case (Some(before), Some(last)) => Some(before + last)
      case _ => None
  }

  /** Appends the removal of a subtree to the plan, or fails with nothing removed. */
  method Visit(node: Node, path: Path, plan: seq<Removal>) returns (more: Option<seq<Removal>>)
    ensures more.Some? <==> RemovalOf(node, path).Some?
    ensures more.Some? ==> more.value == plan + RemovalOf(node, path).value
    decreases node
  {
    if node.Link? || node.Special? {
      return None;
    }
    var soFar := plan;
    if node.Directory? {
      for n := 0 to |node.children|
        invariant RemovalOfChildren(node, n, path).Some?
        invariant soFar == plan + RemovalOfChildren(node, n, path).value
      {
        var child := node.children[n];
        var visited := Visit(child.node, path + [child.name], soFar);
        if visited.None? {
          ChildBlocks(node, n + 1, path);
          return None;
        }
        soFar := visited.value;
      }
    }
    return Some(soFar + [Removal(path, node.Directory?)]);
  }

  lemma {:induction false} ChildBlocks(node: Node, count: nat, path: Path)
    requires node.Directory? && count <= |node.children| && RemovalOfChildren(node, count, path).None?
    ensures RemovalOf(node, path).None?
    decreases |node.children| - count
  {
    if count < |node.children| { ChildBlocks(node, count + 1, path); }
  }

  /** Paths present in a subtree. */
  function PathsOf(node: Node, path: Path): set<Path>
    decreases node, if node.Directory? then |node.children| + 1 else 0
  {
    {path} + if node.Directory? then ChildPaths(node, |node.children|, path) else {}
  }

  function ChildPaths(node: Node, count: nat, path: Path): set<Path>
    requires node.Directory? && count <= |node.children|
    decreases node, count
  {
    if count == 0 then {}
    else
      var child := node.children[count - 1];
      ChildPaths(node, count - 1, path) + PathsOf(child.node, path + [child.name])
  }

  /** What stands at a path when it is about to be removed. */
  datatype Found = FoundFile | FoundDirectory | FoundLink | FoundSpecial

  type Present = map<Path, Found>

  /** A member goes only if it still is what was planned, and a directory only if it is empty. */
  predicate Removable(present: Present, r: Removal)
    requires r.path in present
  {
    && present[r.path] == (if r.directory then FoundDirectory else FoundFile)
    && (r.directory ==> forall p :: p in present && r.path <= p ==> p == r.path)
  }

  /** Removes the members in order; one that is gone already is passed over. */
  function Remaining(present: Present, plan: seq<Removal>): Option<Present> {
    if plan == [] then Some(present)
    else if plan[0].path in present && !Removable(present, plan[0]) then None
    else Remaining(present - {plan[0].path}, plan[1..])
  }

  method RemoveAll(plan: seq<Removal>, present: Present) returns (left: Option<Present>)
    ensures left == Remaining(present, plan)
  {
    var here := present;
    for n := 0 to |plan|
      invariant Remaining(here, plan[n..]) == Remaining(present, plan)
    {
      var r := plan[n];
      assert plan[n..][0] == r && plan[n..][1..] == plan[n + 1..];
      if r.path in here {
        if here[r.path].FoundLink? || here[r.path].FoundSpecial? || here[r.path].FoundDirectory? != r.directory {
          return None;
        }
        if r.directory && exists p :: p in here && r.path <= p && p != r.path {
          return None;
        }
      }
      here := here - {r.path};
    }
    return Some(here);
  }

  /** Whatever a removal takes away was planned, and was still of the planned kind: it removes no link,
    * nothing special, and nothing outside its plan. */
  lemma {:induction false} RemovesOnlyPlanned(present: Present, plan: seq<Removal>, p: Path)
    requires Remaining(present, plan).Some? && p in present
    ensures p in Remaining(present, plan).value ==> Remaining(present, plan).value[p] == present[p]
    ensures p !in Remaining(present, plan).value <==> exists r :: r in plan && r.path == p
    ensures p !in Remaining(present, plan).value ==> present[p] in {FoundFile, FoundDirectory}
  {
    if plan != [] {
      assert plan == [plan[0]] + plan[1..];
      var rest := present - {plan[0].path};
      if p in rest {
        RemovesOnlyPlanned(rest, plan[1..], p);
      } else {
        NeverComesBack(rest, plan[1..], p);
      }
    }
  }

  lemma {:induction false} NeverComesBack(present: Present, plan: seq<Removal>, p: Path)
    requires Remaining(present, plan).Some? && p !in present
    ensures p !in Remaining(present, plan).value
  {
    if plan != [] { NeverComesBack(present - {plan[0].path}, plan[1..], p); }
  }

  /** The host still has the tree the removal was planned for, or less of it. */
  ghost predicate Matches(node: Node, path: Path, present: Present) {
    && (path in present ==> present[path] == if node.Directory? then FoundDirectory else FoundFile)
    && (node.Directory? ==> forall i :: 0 <= i < |node.children| ==>
         Matches(node.children[i].node, path + [node.children[i].name], present))
  }

  lemma {:induction false} MatchesLess(node: Node, path: Path, present: Present, less: Present)
    requires Matches(node, path, present) && forall p :: p in less ==> p in present && less[p] == present[p]
    ensures Matches(node, path, less)
  {
    if node.Directory? {
      forall i | 0 <= i < |node.children| ensures Matches(node.children[i].node, path + [node.children[i].name], less) {
        MatchesLess(node.children[i].node, path + [node.children[i].name], present, less);
      }
    }
  }

  lemma {:induction false} RemainingConcat(present: Present, a: seq<Removal>, b: seq<Removal>)
    ensures Remaining(present, a + b) ==
      match Remaining(present, a) { case None => None case Some(left) => Remaining(left, b) }
  {
    if a == [] {
      assert a + b == b;
    } else {
      assert (a + b)[0] == a[0] && (a + b)[1..] == a[1..] + b;
      RemainingConcat(present - {a[0].path}, a[1..], b);
    }
  }

  /** No directory holds two members of one name. */
  ghost predicate DistinctNames(node: Node) {
    node.Directory? ==>
      && (forall i, j :: 0 <= i < j < |node.children| ==> node.children[i].name != node.children[j].name)
      && forall i :: 0 <= i < |node.children| ==> DistinctNames(node.children[i].node)
  }

  lemma {:induction false} PathsBelow(node: Node, path: Path, p: Path)
    requires p in PathsOf(node, path)
    ensures path <= p
    decreases node, if node.Directory? then |node.children| + 1 else 0
  {
    if p != path { ChildPathsBelow(node, |node.children|, path, p); }
  }

  lemma {:induction false} ChildPathsBelow(node: Node, count: nat, path: Path, p: Path)
    requires node.Directory? && count <= |node.children| && p in ChildPaths(node, count, path)
    ensures exists i :: 0 <= i < count && path + [node.children[i].name] <= p
    ensures path < p
    decreases node, count
  {
    var child := node.children[count - 1];
    if p in PathsOf(child.node, path + [child.name]) {
      PathsBelow(child.node, path + [child.name], p);
    } else {
      ChildPathsBelow(node, count - 1, path, p);
    }
  }

  /** Run on the tree it was planned for, the removal never meets a non-empty directory and removes
    * exactly the subtree. */
  lemma {:induction false} RemovalEmpties(node: Node, path: Path, present: Present)
    requires RemovalOf(node, path).Some? && DistinctNames(node) && Matches(node, path, present)
    requires forall p :: p in present && path <= p ==> p in PathsOf(node, path)
    ensures Remaining(present, RemovalOf(node, path).value) == Some(present - PathsOf(node, path))
    decreases node, if node.Directory? then |node.children| + 1 else 0
  {
    var own := [Removal(path, node.Directory?)];
    if node.Directory? {
      var inside := RemovalOfChildren(node, |node.children|, path).value;
      ChildrenRemoved(node, |node.children|, path, present);
      RemainingConcat(present, inside, own);
      var left := present - ChildPaths(node, |node.children|, path);
      assert path in left ==> Removable(left, own[0]);
      assert own[1..] == [] && left - {path} == present - PathsOf(node, path);
    } else {
      assert own[1..] == [] && PathsOf(node, path) == {path};
    }
  }

  lemma {:induction false} ChildrenRemoved(node: Node, count: nat, path: Path, present: Present)
    requires node.Directory? && count <= |node.children| && DistinctNames(node) && Matches(node, path, present)
    requires RemovalOfChildren(node, count, path).Some?
    requires forall p :: p in present && path <= p ==> p in PathsOf(node, path)
    ensures Remaining(present, RemovalOfChildren(node, count, path).value) ==
      Some(present - ChildPaths(node, count, path))
    decreases node, count
  {
    if count > 0 {
      var n := count - 1;
      var child := node.children[n];
      var below := path + [child.name];
      ChildrenRemoved(node, n, path, present);
      var left := present - ChildPaths(node, n, path);
      forall p | p in left && below <= p ensures p in PathsOf(child.node, below) {
        OnlyChildAt(node, n, path, p);
      }
      MatchesLess(node, path, present, left);
      RemovalEmpties(child.node, below, left);
      RemainingConcat(present, RemovalOfChildren(node, n, path).value, RemovalOf(child.node, below).value);
      assert left - PathsOf(child.node, below) == present - ChildPaths(node, count, path);
    } else {
      assert present - ChildPaths(node, 0, path) == present;
    }
  }

  /** A path under the name of child `n` belongs to that child. */
  lemma OnlyChildAt(node: Node, n: nat, path: Path, p: Path)
    requires node.Directory? && n < |node.children| && DistinctNames(node)
    requires p in PathsOf(node, path) && path + [node.children[n].name] <= p
    ensures p in PathsOf(node.children[n].node, path + [node.children[n].name])
  {
    var i := OwnerOf(node, |node.children|, path, p);
    PathsBelow(node.children[i].node, path + [node.children[i].name], p);
    assert p[|path|] == (path + [node.children[i].name])[|path|] == (path + [node.children[n].name])[|path|];
  }

  lemma {:induction false} OwnerOf(node: Node, count: nat, path: Path, p: Path) returns (i: nat)
    requires node.Directory? && count <= |node.children| && p in ChildPaths(node, count, path)
    ensures i < count && p in PathsOf(node.children[i].node, path + [node.children[i].name])
  {
    i := count - 1;
    if p !in PathsOf(node.children[i].node, path + [node.children[i].name]) { i := OwnerOf(node, i, path, p); }
  }
}
