/** Creating the journal directory so that a crash cannot lose it: every created component is linked
  * and its parent synced before the next one is created. */
module DurableDirectory {
  import opened ConfigPlan

  /** An absolute, cleaned path: its components below the root. */
  type Path = seq<string>

  datatype Stat = Absent | SafeDirectory | Unsafe | StatFailed

  datatype MkdirResult = Made | Exists | MkdirFailed

  /** What goes wrong at the component of a depth: it cannot be looked at, another process takes its name
    * first, with a directory or with something else, creating it fails, it cannot be looked at again, or its
    * parent cannot be synced. */
  datatype Faults = Faults(
    unreadable: nat -> bool, raced: nat -> Option<bool>, refused: nat -> bool, vanished: nat -> bool,
    unsynced: nat -> bool)

  /** The search from the path up ends at depth `d`: everything below is absent, and there is a directory. */
  ghost predicate Found(entries: map<Path, bool>, path: Path, f: Faults, d: nat) {
    && d <= |path| && (forall k: nat :: d < k <= |path| ==> !f.unreadable(k) && path[..k] !in entries)
    && !f.unreadable(d) && path[..d] in entries && entries[path[..d]]
  }

  ghost predicate Anywhere(entries: map<Path, bool>, path: Path, f: Faults) {
    exists d: nat :: Found(entries, path, f, d)
  }

  /** Nothing goes wrong: there is a directory to begin with, and every component behind it works. */
  ghost predicate Succeeds(entries: map<Path, bool>, path: Path, f: Faults) {
    exists d: nat :: Found(entries, path, f, d) && forall k: nat :: d < k <= |path| ==> Works(f, k)
  }

  lemma FoundOnce(entries: map<Path, bool>, path: Path, f: Faults, c: nat, d: nat)
    requires Found(entries, path, f, c) && Found(entries, path, f, d)
    ensures c == d
  {
  }

  /** The component at depth `k` is there in the end: created and synced, or a directory of another process. */
  predicate Works(f: Faults, k: nat) {
    match f.raced(k)
    case Some(directory) => directory && !f.vanished(k)
    case None => !f.refused(k) && !f.unsynced(k)
  }

  predicate Creates(f: Faults, k: nat) {
    f.raced(k) == None && !f.refused(k)
  }

  /** The components created at the depths behind `d` up to `n`. */
  function Created(path: Path, f: Faults, d: nat, n: nat): seq<Path>
    requires n <= |path|
  {
    if n <= d then [] else Created(path, f, d, n - 1) + if Creates(f, n) then [path[..n]] else []
  }

  /** From the directory at depth `d` the components are made one by one, as far as they work; the first that
    * does not may still have been created. */
  ghost predicate MadeUpTo(path: Path, f: Faults, d: nat, n: nat, made: seq<Path>) {
    && d <= n <= |path| && (forall k: nat :: d < k <= n ==> Works(f, k)) && (n < |path| ==> !Works(f, n + 1))
    && made == Created(path, f, d, if n < |path| then n + 1 else n)
  }

  /** What a crash right now would leave: the directories created so far and the durable links. */
  datatype Snapshot = Snapshot(made: seq<Path>, durable: set<Path>)

  ghost predicate AllButNewest(made: seq<Path>, durable: set<Path>) {
    forall k :: 0 <= k < |made| - 1 ==> made[k] in durable
  }

  ghost predicate AllLinked(made: seq<Path>, durable: set<Path>) {
    forall k :: 0 <= k < |made| ==> made[k] in durable
  }

  /** Every component from the root down is durably linked. */
  ghost predicate Reachable(durable: set<Path>, path: Path) {
    forall k :: 1 <= k <= |path| ==> path[..k] in durable
  }

  /** The path and what lies above it, innermost first. */
  ghost predicate Upwards(path: Path, missing: seq<Path>) {
    |missing| <= |path| && forall k :: 0 <= k < |missing| ==> missing[k] == path[..|path| - k]
  }

  /** The created directories are prefixes of the path, from the outermost in. */
  ghost predicate Descends(made: seq<Path>, path: Path) {
    && (forall k :: 0 <= k < |made| ==> made[k] <= path)
    && forall i, j :: 0 <= i < j < |made| ==> |made[i]| < |made[j]|
  }

  class Disk {
    /** Existing entries: true for a directory that is not a link. */
    var entries: map<Path, bool>
    ghost var durable: set<Path>
    ghost var made: seq<Path>
    ghost var steps: seq<Snapshot>

    constructor (entries: map<Path, bool>, ghost durable: set<Path>)
      ensures this.entries == entries && this.durable == durable && made == [] && steps == []
    {
      this.entries := entries;
      this.durable, made, steps := durable, [], [];
    }

    ghost predicate NeverLosesMore()
      reads this
    {
      forall k :: 0 <= k < |steps| ==> AllButNewest(steps[k].made, steps[k].durable)
    }

    method Lstat(path: Path, fails: bool) returns (stat: Stat)
      ensures stat == if fails then StatFailed else if path !in entries then Absent
        else if entries[path] then SafeDirectory else Unsafe
    {
      return if fails then StatFailed else if path !in entries then Absent
        else if entries[path] then SafeDirectory else Unsafe;
    }

    /** Links one new directory; another process may have taken the name first. */
    method Mkdir(path: Path, f: Faults) returns (result: MkdirResult)
      modifies this
      requires path != [] && path !in entries && path[..|path| - 1] in entries
      requires AllLinked(made, durable) && NeverLosesMore()
      ensures durable == old(durable) && AllButNewest(made, durable) && NeverLosesMore()
      ensures result == if f.raced(|path|).Some? then Exists else if f.refused(|path|) then MkdirFailed else Made
      ensures made == if result == Made then old(made) + [path] else old(made)
      ensures entries == if result == Made then old(entries)[path := true]
        else if result == Exists then old(entries)[path := f.raced(|path|).value] else old(entries)
    {
      if f.raced(|path|).Some? {
        entries := entries[path := f.raced(|path|).value];
      }
      if path in entries {
        return Exists;
      }
      if f.refused(|path|) || path[..|path| - 1] !in entries {
        return MkdirFailed;
      }
      entries := entries[path := true];
      made := made + [path];
      steps := steps + [Snapshot(made, durable)];
      return Made;
    }

    /** Makes the links in one directory durable. */
    method Sync(parent: Path, fails: bool) returns (ok: bool)
      modifies this
      requires NeverLosesMore() && AllButNewest(made, durable)
      ensures entries == old(entries) && made == old(made) && NeverLosesMore() && AllButNewest(made, durable)
      ensures ok <==> !fails
      ensures durable == if fails then old(durable)
        else old(durable) + set p | p in entries && |p| == |parent| + 1 && parent <= p
    {
      ok := !fails;
      if ok {
        durable := durable + set p | p in entries && |p| == |parent| + 1 && parent <= p;
        steps := steps + [Snapshot(made, durable)];
      }
    }

    /** Walks up to the first existing component; the missing ones are listed innermost first. */
    method FindMissing(path: Path, f: Faults) returns (ok: bool, missing: seq<Path>)
      ensures ok <==> Anywhere(entries, path, f)
      ensures ok ==> |missing| <= |path| && Found(entries, path, f, |path| - |missing|)
      ensures ok ==> Upwards(path, missing)
    {
      missing := [];
      var current := path;
      while true
        invariant |missing| <= |path| && current == path[..|path| - |missing|]
        invariant Upwards(path, missing)
        invariant forall k: nat :: |path| - |missing| < k <= |path| ==> !f.unreadable(k) && path[..k] !in entries
        decreases |current|
      {
        var stat := Lstat(current, f.unreadable(|current|));
        if stat == SafeDirectory {
          assert Found(entries, path, f, |current|);
          return true, missing;
        }
        if stat != Absent || current == [] {
          assert forall d: nat :: Found(entries, path, f, d) ==> d == |current|;
          return false, missing;
        }
        missing := missing + [current];
        current := current[..|current| - 1];
      }
    }

    /** It succeeds exactly when a directory is found above everything missing and every missing component
      * works; then the path is a directory and everything created is durably linked. On failure, and at every
      * step in between, all created components but possibly the newest are. `base` is the depth of the
      * directory found and `reached` that of the last component that worked. */
    method EnsureDirectory(path: Path, f: Faults) returns (ok: bool, created: bool, ghost base: nat, ghost reached: nat)
      modifies this
      requires made == [] && steps == []
      ensures NeverLosesMore() && AllButNewest(made, durable) && Descends(made, path)
      ensures created <==> made != []
      ensures ok <==> Succeeds(old(entries), path, f)
      ensures Anywhere(old(entries), path, f) ==>
        Found(old(entries), path, f, base) && MadeUpTo(path, f, base, reached, made) && (ok <==> reached == |path|)
      ensures !Anywhere(old(entries), path, f) ==> entries == old(entries) && made == []
      ensures ok ==> path in entries && entries[path] && AllLinked(made, durable)
      ensures ok ==> (Reachable(durable, path) <==>
        forall k :: 1 <= k <= |path| && path[..k] !in made ==> path[..k] in durable)
    {
      created, base, reached := false, 0, 0;
      var found, missing := FindMissing(path, f);
      if !found {
        return false, false, 0, 0;
      }
      base := |path| - |missing|;
      ok, created, reached := MakeMissing(path, f, missing, base);
      Ended(old(entries), path, f, base, reached, made);
      if ok {
        assert path[..|path|] == path;
        ReachableExactly(path, made, durable);
      }
    }

    /** Makes the missing components, outermost first. */
    method MakeMissing(path: Path, f: Faults, missing: seq<Path>, ghost base: nat)
      returns (ok: bool, created: bool, ghost reached: nat)
      modifies this
      requires made == [] && steps == [] && Found(entries, path, f, base) && base + |missing| == |path|
      requires Upwards(path, missing)
      ensures NeverLosesMore() && AllButNewest(made, durable) && Descends(made, path) && (created <==> made != [])
      ensures MadeUpTo(path, f, base, reached, made) && (ok <==> reached == |path|)
      ensures ok ==> Under(path, f, base, |path|)
    {
      created, reached := false, base;
      var index := |missing|;
      while index > 0
        invariant 0 <= index <= |missing| && reached == |path| - index
        invariant Going(path, f, base, reached) && created == (made != [])
        decreases index
      {
        index := index - 1;
        var more;
        ok, more := MakeNext(path, f, missing[index], base, reached);
        created := created || more;
        if !ok {
          Deeper(made, path, reached + 1);
          return;
        }
        reached := reached + 1;
      }
      Deeper(made, path, reached);
      ok := true;
    }

    lemma Deeper(made: seq<Path>, path: Path, n: nat)
      requires n <= |path| && Descends(made, path[..n])
      ensures Descends(made, path)
    {
      forall k | 0 <= k < |made| ensures made[k] <= path { assert made[k] <= path[..n] <= path; }
    }

    /** The loop has come as far as `reached`, and nothing below is there yet. */
    ghost predicate Going(path: Path, f: Faults, base: nat, reached: nat)
      reads this
    {
      && Under(path, f, base, reached) && (forall k: nat :: base < k <= reached ==> Works(f, k))
      && forall k: nat :: reached < k <= |path| ==> path[..k] !in entries
    }

    lemma Ended(entries: map<Path, bool>, path: Path, f: Faults, base: nat, reached: nat, made: seq<Path>)
      requires Found(entries, path, f, base) && MadeUpTo(path, f, base, reached, made)
      ensures Anywhere(entries, path, f) && (Succeeds(entries, path, f) <==> reached == |path|)
    {
      forall d: nat | Found(entries, path, f, d) ensures d == base { FoundOnce(entries, path, f, base, d); }
    }

    lemma ReachableExactly(path: Path, made: seq<Path>, durable: set<Path>)
      requires AllLinked(made, durable)
      ensures Reachable(durable, path) <==> forall k :: 1 <= k <= |path| && path[..k] !in made ==> path[..k] in durable
    {
    }

    /** What holds between two components: the last one reached is a directory, and all created are linked. */
    ghost predicate Under(path: Path, f: Faults, base: nat, reached: nat)
      reads this
    {
      && base <= reached <= |path| && NeverLosesMore() && AllLinked(made, durable)
      && Descends(made, path[..reached]) && made == Created(path, f, base, reached)
      && path[..reached] in entries && entries[path[..reached]]
    }

    method MakeNext(path: Path, f: Faults, directory: Path, ghost base: nat, ghost reached: nat)
      returns (going: bool, created: bool)
      modifies this
      requires Going(path, f, base, reached) && reached < |path| && directory == path[..reached + 1]
      ensures going <==> Works(f, reached + 1)
      ensures made == Created(path, f, base, reached + 1) && (created <==> made != old(made)) && old(made) <= made
      ensures NeverLosesMore() && AllButNewest(made, durable) && Descends(made, path[..reached + 1])
      ensures going ==> Going(path, f, base, reached + 1)
      ensures !going ==> MadeUpTo(path, f, base, reached, made)
    {
      created := false;
      assert directory[..|directory| - 1] == path[..reached];
      var result := Mkdir(directory, f);
      if result == MkdirFailed {
        return false, false;
      }
      if result == Exists {
        var stat := Lstat(directory, f.vanished(|directory|));
        return stat == SafeDirectory, false;
      }
      created := true;
      going := Sync(directory[..|directory| - 1], f.unsynced(|directory|));
    }
  }
}
