/** Application identifiers in a captured manifest: allocated without clashes under case folding, in
  * place over the captured list, and again when a capture is merged into an existing manifest. */
module CaptureIds {
  import opened ConfigPlan
  import opened Text
  import opened Ordering

  datatype Coordinates = Coordinates(driver: string, source: string, ref: Option<string>)
  {
    function Ref(): string {
      if ref.Some? then ref.value else ""
    }
  }

  datatype Fingerprint = Fingerprint(key: string, publisher: string)

  datatype App = App(
    id: string, at: Coordinates, fingerprint: Option<Fingerprint>,
    version: string, name: string, installed: bool, installedVersion: string)

  function EffectiveDriver(name: string): string {
    var folded := Lower(TrimSpace(name));
    if folded == "" then "winget" else folded
  }

  // ----- one identifier -----

  function Digit(d: nat): char
    requires d < 10
  {
    '0' + d as char
  }

  function Decimal(n: nat): string {
    if n < 10 then [Digit(n)] else Decimal(n / 10) + [Digit(n % 10)]
  }

  lemma {:induction false} DecimalInjective(m: nat, n: nat)
    requires Decimal(m) == Decimal(n)
    ensures m == n
  {
    var a, b := Decimal(m), Decimal(n);
    if m >= 10 && n >= 10 {
      assert a[..|a| - 1] == Decimal(m / 10) && b[..|b| - 1] == Decimal(n / 10);
      assert a[|a| - 1] == Digit(m % 10) && b[|b| - 1] == Digit(n % 10);
      DecimalInjective(m / 10, n / 10);
    } else if m >= 10 {
      DecimalNotEmpty(m / 10);
    } else if n >= 10 {
      DecimalNotEmpty(n / 10);
    }
  }

  lemma DecimalNotEmpty(n: nat)
    ensures Decimal(n) != ""
  {
  }

  lemma {:induction false} DecimalFolded(n: nat)
    ensures Lower(Decimal(n)) == Decimal(n)
  {
    if n >= 10 {
      DecimalFolded(n / 10);
      LowerAppend(Decimal(n / 10), [Digit(n % 10)]);
      assert Lower([Digit(n % 10)]) == [Digit(n % 10)];
    }
  }

  function Base(id: string): string {
    if TrimSpace(id) == "" then "package" else TrimSpace(id)
  }

  /** The candidates tried in turn once the plain base is taken. */
  function Candidate(id: string, driver: string, k: nat): string {
    var stem := Base(id) + "-" + EffectiveDriver(driver);
    stem + Suffix(k)
  }

  /** Candidates stay distinct when folded. */
  lemma CandidatesDiffer(id: string, driver: string, j: nat, k: nat)
    requires Lower(Candidate(id, driver, j)) == Lower(Candidate(id, driver, k))
    ensures j == k
  {
    var stem := Lower(Base(id) + "-" + EffectiveDriver(driver));
    FoldedCandidate(id, driver, j);
    FoldedCandidate(id, driver, k);
    SameSuffix(stem, Suffix(j), Suffix(k));
    if j > 0 && k > 0 {
      SameSuffix("-", Decimal(j + 1), Decimal(k + 1));
      DecimalInjective(j + 1, k + 1);
    }
  }

  function Suffix(k: nat): string {
    if k == 0 then "" else "-" + Decimal(k + 1)
  }

  lemma SameSuffix(stem: string, a: string, b: string)
    requires stem + a == stem + b
    ensures a == b
  {
    assert a == (stem + a)[|stem|..] && b == (stem + b)[|stem|..];
  }

  lemma FoldedCandidate(id: string, driver: string, k: nat)
    ensures var stem := Base(id) + "-" + EffectiveDriver(driver);
      Lower(Candidate(id, driver, k)) == Lower(stem) + Suffix(k)
  {
    var stem := Base(id) + "-" + EffectiveDriver(driver);
    LowerAppend(stem, Suffix(k));
    if k > 0 {
      LowerAppend("-", Decimal(k + 1));
      DecimalFolded(k + 1);
    }
  }

  /** `id` is what allocation yields: the base when free, otherwise the first free candidate. */
  ghost predicate Allocated(asked: string, driver: string, used: set<string>, id: string) {
    if Lower(Base(asked)) !in used then id == Base(asked)
    else exists k: nat :: id == Candidate(asked, driver, k) && FirstFree(asked, driver, used, k)
  }

  ghost predicate FirstFree(asked: string, driver: string, used: set<string>, k: nat) {
    && Lower(Candidate(asked, driver, k)) !in used
    && forall j: nat :: j < k ==> Lower(Candidate(asked, driver, j)) in used
  }

  lemma AllocatedIsFree(asked: string, driver: string, used: set<string>, id: string)
    requires Allocated(asked, driver, used, id)
    ensures Lower(id) !in used && (id == Base(asked) <==> Lower(Base(asked)) !in used)
  {
  }

  /** The next candidate is one more distinct member of the finite used set. */
  lemma OneMoreTried(asked: string, driver: string, used: set<string>, n: nat, tried: set<string>)
    requires tried == set j | 0 <= j < n :: Lower(Candidate(asked, driver, j))
    requires tried <= used && |tried| == n && Lower(Candidate(asked, driver, n)) in used
    ensures var more := tried + {Lower(Candidate(asked, driver, n))};
      && more == (set j | 0 <= j < n + 1 :: Lower(Candidate(asked, driver, j)))
      && more <= used && |more| == n + 1 && n < |used|
  {
    var next := Lower(Candidate(asked, driver, n));
    if next in tried {
      var j: nat :| j < n && Lower(Candidate(asked, driver, j)) == next;
      CandidatesDiffer(asked, driver, j, n);
    }
    var more := tried + {next};
    SubsetCount(more, used);
  }

  lemma SubsetCount<T>(a: set<T>, b: set<T>)
    requires a <= b
    ensures |a| <= |b|
  {
    assert b == a + (b - a);
  }

  class IdPool {
    var used: set<string>

    constructor (used: set<string>)
      ensures this.used == used
    {
      this.used := used;
    }

    /** Ends because every rejected candidate is a different member of the used set. */
    method Allocate(asked: string, driver: string) returns (id: string)
      modifies this
      ensures Allocated(asked, driver, old(used), id)
      ensures used == old(used) + {Lower(id)}
    {
      var base := Base(asked);
      if Lower(base) !in used {
        used := used + {Lower(base)};
        return base;
      }
      var n: nat := 0;
      ghost var tried: set<string> := {};
      while Lower(Candidate(asked, driver, n)) in used
        invariant tried == set j | 0 <= j < n :: Lower(Candidate(asked, driver, j))
        invariant tried <= used && |tried| == n && n <= |used| && used == old(used)
        decreases |used| - n
      {
        OneMoreTried(asked, driver, used, n, tried);
        tried := tried + {Lower(Candidate(asked, driver, n))};
        n := n + 1;
      }
      id := Candidate(asked, driver, n);
      forall j: nat | j < n ensures Lower(Candidate(asked, driver, j)) in used {
        assert Lower(Candidate(asked, driver, j)) in tried;
      }
      assert FirstFree(asked, driver, old(used), n);
      used := used + {Lower(id)};
    }

    /** Assigns an identifier to every app, in place. */
    method AssignAll(apps: array<App>)
      modifies this, apps
      ensures AssignedUpTo(old(apps[..]), apps[..], apps.Length, old(used))
      ensures used == old(used) + FoldedIDs(apps[..], apps.Length)
    {
      for i := 0 to apps.Length
        invariant AssignedUpTo(old(apps[..]), apps[..], i, old(used))
        invariant used == old(used) + FoldedIDs(apps[..], i)
      {
        AssignAt(apps, i, old(apps[..]), old(used));
      }
    }

    method AssignAt(apps: array<App>, i: nat, ghost start: seq<App>, ghost pool: set<string>)
      modifies this, apps
      requires i < apps.Length && AssignedUpTo(start, apps[..], i, pool) && used == pool + FoldedIDs(apps[..], i)
      ensures AssignedUpTo(start, apps[..], i + 1, pool) && used == pool + FoldedIDs(apps[..], i + 1)
    {
      ghost var before := apps[..];
      var id := Allocate(apps[i].id, EffectiveDriver(apps[i].at.driver));
      apps[i] := apps[i].(id := id);
      AssignNext(start, before, apps[..], i, pool, id);
    }
  }

  function FoldedIDs(apps: seq<App>, n: nat): set<string>
    requires n <= |apps|
  {
    set k | 0 <= k < n :: Lower(apps[k].id)
  }

  /** Every one of the first `n` apps got an allocation against the pool and the ones before it;
    * nothing else changed. */
  ghost predicate AssignedUpTo(before: seq<App>, after: seq<App>, n: nat, used: set<string>) {
    && |after| == |before| && n <= |before|
    && (forall k :: n <= k < |before| ==> after[k] == before[k])
    && (forall k :: 0 <= k < n ==>
         && after[k] == before[k].(id := after[k].id)
         && Allocated(before[k].id, EffectiveDriver(before[k].at.driver), used + FoldedIDs(after, k), after[k].id))
  }

  lemma AssignNext(before: seq<App>, reached: seq<App>, after: seq<App>, i: nat, used: set<string>, id: string)
    requires i < |before| && AssignedUpTo(before, reached, i, used)
    requires after == reached[i := reached[i].(id := id)]
    requires Allocated(before[i].id, EffectiveDriver(before[i].at.driver), used + FoldedIDs(reached, i), id)
    ensures AssignedUpTo(before, after, i + 1, used)
    ensures FoldedIDs(after, i + 1) == FoldedIDs(reached, i) + {Lower(id)}
  {
    forall k | 0 <= k <= i ensures FoldedIDs(after, k) == FoldedIDs(reached, k) { FoldedPrefix(after, reached, k); }
    assert after[i] == before[i].(id := id);
  }

  /** Identifiers are distinct under folding, avoid the pool, and the trimmed base is kept exactly by
    * the apps whose base nobody before them took. */
  lemma AssignedIDs(before: seq<App>, after: seq<App>, used: set<string>)
    requires AssignedUpTo(before, after, |before|, used)
    ensures forall i, j :: 0 <= i < j < |after| ==> Lower(after[i].id) != Lower(after[j].id)
    ensures forall k :: 0 <= k < |after| ==> Lower(after[k].id) !in used
    ensures forall k :: 0 <= k < |after| ==>
      (after[k].id == Base(before[k].id) <==> Lower(Base(before[k].id)) !in used + FoldedIDs(after, k))
  {
    forall k | 0 <= k < |after|
      ensures Lower(after[k].id) !in used + FoldedIDs(after, k)
      ensures after[k].id == Base(before[k].id) <==> Lower(Base(before[k].id)) !in used + FoldedIDs(after, k)
    {
      AllocatedIsFree(before[k].id, EffectiveDriver(before[k].at.driver), used + FoldedIDs(after, k), after[k].id);
    }
    forall i, j | 0 <= i < j < |after| ensures Lower(after[i].id) != Lower(after[j].id) {
      assert Lower(after[i].id) in FoldedIDs(after, j);
    }
  }

  // ----- merging into an existing manifest -----

  /** How an installed app is recognised: by its package reference or by its installer fingerprint. */
  datatype Key = ByRef(driver: string, source: string, ref: string) | ByFingerprint(text: string)

  type Resolver = (string, string) -> string

  function RefKey(at: Coordinates, resolve: Resolver): Key {
    var driver := EffectiveDriver(at.driver);
    var trimmed := TrimSpace(at.Ref());
    var ref := if driver == "winget" || driver == "chocolatey" then Lower(trimmed) else trimmed;
    ByRef(driver, if driver == "winget" then resolve(ref, at.source) else "", ref)
  }

  function FingerprintKey(f: Option<Fingerprint>): Option<Key> {
    if f.None? || TrimSpace(f.value.key) == "" || TrimSpace(f.value.publisher) == "" then None
    else Some(ByFingerprint("arp:" + Lower(TrimSpace(f.value.key)) + "|" + Lower(TrimSpace(f.value.publisher))))
  }

  function EffectiveSource(at: Coordinates, resolve: Resolver): string {
    if EffectiveDriver(at.driver) != "winget" then EffectiveDriver(at.driver) else resolve(at.Ref(), at.source)
  }

  const STORE := "msstore"

  /** The last captured app that answers to a key. */
  function Detected(captured: seq<App>, key: Key, resolve: Resolver): Option<App> {
    if captured == [] then None
    else
      var last := captured[|captured| - 1];
      if (last.at.Ref() != "" && RefKey(last.at, resolve) == key) || FingerprintKey(last.fingerprint) == Some(key)
      then Some(last)
      else Detected(captured[..|captured| - 1], key, resolve)
  }

  function CountFingerprint(apps: seq<App>, key: Key): nat {
    if apps == [] then 0
    else
      CountFingerprint(apps[..|apps| - 1], key) +
      if FingerprintKey(apps[|apps| - 1].fingerprint) == Some(key) then 1 else 0
  }

  /** The captured app standing for an existing declaration: by reference, or else by a fingerprint
    * that is unambiguous on both sides. */
  function MatchOf(app: App, existing: seq<App>, captured: seq<App>, resolve: Resolver): (Option<App>, bool) {
    var byRef := Detected(captured, RefKey(app.at, resolve), resolve);
    if byRef.Some? then (byRef, true)
    else
      var key := FingerprintKey(app.fingerprint);
      if key.Some? && CountFingerprint(existing, key.value) == 1 && CountFingerprint(captured, key.value) == 1
      then (Detected(captured, key.value, resolve), false)
      else (None, false)
  }

  /** A declaration after the merge: its identifier never changes. */
  function Refreshed(app: App, found: Option<App>, byRef: bool, pin: bool, resolve: Resolver): (merged: App)
    ensures merged.id == app.id
    ensures found.None? && !pin ==> merged == app.(name := "", installed := false, installedVersion := "")
  {
    var kept := app.(name := "", installed := false, installedVersion := "",
                     version := if pin && EffectiveSource(app.at, resolve) == STORE then "" else app.version);
    if found.None? then kept
    else
      var f := found.value;
      var at := if !byRef && f.at.Ref() != "" then f.at else app.at.(source := f.at.source);
      kept.(at := at, name := f.name, installed := f.installed, installedVersion := f.installedVersion,
            fingerprint := if f.fingerprint.Some? then f.fingerprint else app.fingerprint,
            version := if pin && EffectiveSource(at, resolve) != STORE && f.installedVersion != ""
                       then f.installedVersion else kept.version)
  }

  ghost predicate Known(existing: seq<App>, key: Key, resolve: Resolver) {
    exists k :: 0 <= k < |existing| && key in OwnKeys(existing[k], resolve)
  }

  ghost predicate IsNew(app: App, existing: seq<App>, resolve: Resolver) {
    && !Known(existing, RefKey(app.at, resolve), resolve)
    && (FingerprintKey(app.fingerprint).Some? ==> !Known(existing, FingerprintKey(app.fingerprint).value, resolve))
  }

  ghost function NewOnes(captured: seq<App>, existing: seq<App>, resolve: Resolver): seq<App> {
    if captured == [] then []
    else
      var last := captured[|captured| - 1];
      NewOnes(captured[..|captured| - 1], existing, resolve) + if IsNew(last, existing, resolve) then [last] else []
  }

  method KnownKeys(existing: seq<App>, resolve: Resolver) returns (keys: set<Key>)
    ensures forall key :: key in keys <==> Known(existing, key, resolve)
  {
    keys := {};
    for n := 0 to |existing|
      invariant forall key :: key in keys <==> Known(existing[..n], key, resolve)
    {
      KnownNext(existing, n, resolve);
      keys := keys + OwnKeys(existing[n], resolve);
    }
    assert existing[..|existing|] == existing;
  }

  function OwnKeys(app: App, resolve: Resolver): set<Key> {
    var f := FingerprintKey(app.fingerprint);
    (if app.at.ref.Some? then {RefKey(app.at, resolve)} else {}) + if f.Some? then {f.value} else {}
  }

  lemma KnownNext(existing: seq<App>, n: nat, resolve: Resolver)
    requires n < |existing|
    ensures forall key :: Known(existing[..n + 1], key, resolve) <==>
      Known(existing[..n], key, resolve) || key in OwnKeys(existing[n], resolve)
  {
    forall key ensures Known(existing[..n + 1], key, resolve) <==>
      Known(existing[..n], key, resolve) || key in OwnKeys(existing[n], resolve)
    {
      KeyNext(existing, n, key, resolve);
    }
  }

  lemma KeyNext(existing: seq<App>, n: nat, key: Key, resolve: Resolver)
    requires n < |existing|
    ensures Known(existing[..n + 1], key, resolve) <==>
      Known(existing[..n], key, resolve) || key in OwnKeys(existing[n], resolve)
  {
    var before, more := existing[..n], existing[..n + 1];
    assert more == before + [existing[n]];
    if k :| 0 <= k < n && key in OwnKeys(before[k], resolve) { assert more[k] == before[k]; }
  }

  /** All existing declarations survive in order, and every appended identifier avoids theirs. */
  method Merge(existing: seq<App>, captured: seq<App>, pin: bool, resolve: Resolver) returns (merged: seq<App>)
    ensures var added := NewOnes(captured, existing, resolve);
      && |merged| == |existing| + |added|
      && (forall k :: 0 <= k < |existing| ==>
           merged[k] == Refreshed(existing[k], MatchOf(existing[k], existing, captured, resolve).0,
                                  MatchOf(existing[k], existing, captured, resolve).1, pin, resolve))
      && AssignedUpTo(added, merged[|existing|..], |added|, TakenIDs(existing))
  {
    var known := KnownKeys(existing, resolve);
    merged := [];
    for n := 0 to |existing|
      invariant |merged| == n
      invariant forall k :: 0 <= k < n ==>
        merged[k] == Refreshed(existing[k], MatchOf(existing[k], existing, captured, resolve).0,
                               MatchOf(existing[k], existing, captured, resolve).1, pin, resolve)
    {
      var (found, byRef) := MatchOf(existing[n], existing, captured, resolve);
      merged := merged + [Refreshed(existing[n], found, byRef, pin, resolve)];
    }
    var pool := new IdPool(TakenIDs(existing));
    var appended := AppendNew(captured, existing, known, resolve, pool);
    assert (merged + appended)[|existing|..] == appended;
    merged := merged + appended;
  }

  function TakenIDs(apps: seq<App>): set<string> {
    set k | 0 <= k < |apps| :: Lower(TrimSpace(apps[k].id))
  }

  method AppendNew(captured: seq<App>, ghost existing: seq<App>, known: set<Key>, resolve: Resolver, pool: IdPool)
    returns (appended: seq<App>)
    modifies pool
    requires forall key :: key in known <==> Known(existing, key, resolve)
    ensures AssignedUpTo(NewOnes(captured, existing, resolve), appended, |appended|, old(pool.used))
  {
    appended := [];
    for n := 0 to |captured|
      invariant AssignedUpTo(NewOnes(captured[..n], existing, resolve), appended, |appended|, old(pool.used))
      invariant pool.used == old(pool.used) + FoldedIDs(appended, |appended|)
    {
      assert captured[..n + 1][..n] == captured[..n];
      var app := captured[n];
      var f := FingerprintKey(app.fingerprint);
      if RefKey(app.at, resolve) !in known && (f.None? || f.value !in known) {
        appended := AppendOne(NewOnes(captured[..n], existing, resolve), appended, app, pool, old(pool.used));
      }
    }
    assert captured[..|captured|] == captured;
  }

  method AppendOne(ghost added: seq<App>, appended: seq<App>, app: App, pool: IdPool, ghost used: set<string>)
    returns (more: seq<App>)
    modifies pool
    requires AssignedUpTo(added, appended, |appended|, used)
    requires pool.used == used + FoldedIDs(appended, |appended|)
    ensures AssignedUpTo(added + [app], more, |more|, used) && pool.used == used + FoldedIDs(more, |more|)
  {
    var id := pool.Allocate(app.id, EffectiveDriver(app.at.driver));
    AppendAssigned(added, appended, app, used, id);
    more := appended + [app.(id := id)];
  }

  lemma AppendAssigned(added: seq<App>, appended: seq<App>, app: App, used: set<string>, id: string)
    requires AssignedUpTo(added, appended, |appended|, used)
    requires Allocated(app.id, EffectiveDriver(app.at.driver), used + FoldedIDs(appended, |appended|), id)
    ensures AssignedUpTo(added + [app], appended + [app.(id := id)], |appended| + 1, used)
    ensures FoldedIDs(appended + [app.(id := id)], |appended| + 1) == FoldedIDs(appended, |appended|) + {Lower(id)}
  {
    var n := |appended|;
    AppendWaiting(added, appended, app, used);
    assert (appended + [app])[n := app.(id := id)] == appended + [app.(id := id)];
    AssignNext(added + [app], appended + [app], appended + [app.(id := id)], n, used, id);
  }

  lemma AppendWaiting(added: seq<App>, appended: seq<App>, app: App, used: set<string>)
    requires AssignedUpTo(added, appended, |appended|, used)
    ensures AssignedUpTo(added + [app], appended + [app], |appended|, used)
    ensures FoldedIDs(appended + [app], |appended|) == FoldedIDs(appended, |appended|)
  {
    var before, after := added + [app], appended + [app];
    forall k | 0 <= k < |appended|
      ensures after[k] == before[k].(id := after[k].id)
      ensures Allocated(before[k].id, EffectiveDriver(before[k].at.driver), used + FoldedIDs(after, k), after[k].id)
    {
      assert after[k] == appended[k] && before[k] == added[k];
      FoldedPrefix(after, appended, k);
    }
    FoldedPrefix(after, appended, |appended|);
  }

  lemma FoldedPrefix(a: seq<App>, b: seq<App>, n: nat)
    requires n <= |a| && n <= |b| && forall k :: 0 <= k < n ==> a[k] == b[k]
    ensures FoldedIDs(a, n) == FoldedIDs(b, n)
  {
  }
}
