/** The capture-time target-collision guard: of every two overlapping restore entries of different
  * modules the weaker module's entry is dropped, so that the bundle never carries both. */
module CaptureGuard {
  import opened ConfigPlan
  import opened Ordering
  import opened Text

  /** A canonical restore target: a cleaned, lower-case path, or one registry key and value. */
  datatype TargetClaim = Filesystem(canonical: string) | Registry(canonical: string)

  datatype RestoreDef = RestoreDef(action: RestoreAction, source: string, claim: Option<TargetClaim>)

  datatype Module = Module(
    id: string, schema: nat, packaged: bool, installed: bool, restores: seq<RestoreDef>, verifies: seq<string>)

  /** How specifically a module is matched: by package, by installed application, or by path only. */
  function Precedence(m: Module): nat {
    if m.packaged then 3 else if m.installed then 2 else 1
  }

  predicate Beats(left: Module, right: Module) {
    if Precedence(left) != Precedence(right) then Precedence(left) > Precedence(right)
    else Less(left.id, right.id)
  }

  /** Between modules of different IDs exactly one wins. */
  lemma BeatsIsTotal(a: Module, b: Module)
    ensures !(Beats(a, b) && Beats(b, a)) && !Beats(a, a)
    ensures a.id != b.id ==> Beats(a, b) || Beats(b, a)
  {
    LessTotal(a.id, b.id);
  }

  lemma BeatsTransitive(a: Module, b: Module, c: Module)
    requires Beats(a, b) && Beats(b, c)
    ensures Beats(a, c)
  {
    if Precedence(a) == Precedence(b) == Precedence(c) { LessTransitive(a.id, b.id, c.id); }
  }

  predicate FilesystemOverlap(left: string, right: string) {
    left == right ||
    (var l, r := TrimSuffixChar(left, '/'), TrimSuffixChar(right, '/');
     r + "/" <= l || l + "/" <= r)
  }

  predicate Overlap(left: TargetClaim, right: TargetClaim) {
    match (left, right)
    case (Registry(l), Registry(r)) => l == r
    case (Filesystem(l), Filesystem(r)) => FilesystemOverlap(l, r)
    case _ => false
  }

  function Components(path: string): seq<string> {
    Split(TrimSuffixChar(path, '/'), '/')
  }

  /** The claim of a path subtree or of one registry value, as a list of components. */
  function Place(claim: TargetClaim): seq<string> {
    match claim
    case Filesystem(path) => Components(path)
    case Registry(value) => [value]
  }

  predicate AtOrUnder(inner: TargetClaim, outer: TargetClaim) {
    inner.Filesystem? == outer.Filesystem? && Place(outer) <= Place(inner)
  }

  /** Two spellings of one place: only a root keeps a trailing separator when a path is cleaned, so
    * this takes a network share written with and without it. */
  predicate Twins(left: TargetClaim, right: TargetClaim) {
    && left.Filesystem? && right.Filesystem? && left != right
    && TrimSuffixChar(left.canonical, '/') == TrimSuffixChar(right.canonical, '/')
  }

  /** The test decides whether one claim lies at or under the other, except that it takes two spellings
    * of one place for different places. */
  lemma OverlapIsNesting(left: TargetClaim, right: TargetClaim)
    ensures Overlap(left, right) <==> (AtOrUnder(left, right) || AtOrUnder(right, left)) && !Twins(left, right)
    ensures Overlap(left, right) == Overlap(right, left)
  {
    if left.Filesystem? && right.Filesystem? {
      var l, r := TrimSuffixChar(left.canonical, '/'), TrimSuffixChar(right.canonical, '/');
      PathsOverlapIsNested(l, r, '/');
    } else if left.Registry? && right.Registry? {
      assert Place(left) == Place(right) <==> Place(left)[0] == Place(right)[0];
    }
  }

  /** Two claims that contain the same claim are themselves nested: claims form trees. */
  lemma OutersNest(a: TargetClaim, b: TargetClaim, inner: TargetClaim)
    requires AtOrUnder(inner, a) && AtOrUnder(inner, b)
    ensures Overlap(a, b) || Twins(a, b)
  {
    assert Nested(Place(a), Place(b)) by { SubtreesMeet(Place(a), Place(b)); }
    OverlapIsNesting(a, b);
  }

  // ----- which entries lose -----

  /** Restore entry `index` of a module. */
  datatype Entry = Entry(owner: Module, index: nat)

  predicate Claims(e: Entry) {
    e.index < |e.owner.restores| && e.owner.restores[e.index].claim.Some?
  }

  function ClaimOf(e: Entry): TargetClaim
    requires Claims(e)
  {
    e.owner.restores[e.index].claim.value
  }

  predicate Clash(a: Entry, b: Entry) {
    Claims(a) && Claims(b) && Overlap(ClaimOf(a), ClaimOf(b))
  }

  predicate DistinctIDs(staged: seq<Module>) {
    forall i, j :: 0 <= i < j < |staged| ==> staged[i].id != staged[j].id
  }

  /** The entry overlaps an entry of a strictly stronger module. */
  ghost predicate Loses(staged: set<Module>, e: Entry) {
    exists w: Entry :: w.owner in staged && Clash(w, e) && Beats(w.owner, e.owner)
  }

  /** Who a module yields a contested target to, in the modules' own terms: a package match yields only to a
    * package match with a smaller ID; an installed application also to any package match; a path-only
    * match to every other kind, and to its own kind with a smaller ID. */
  predicate Yields(m: Module, to: Module) {
    if m.packaged then to.packaged && Less(to.id, m.id)
    else if m.installed then to.packaged || (to.installed && Less(to.id, m.id))
    else to.packaged || to.installed || Less(to.id, m.id)
  }

  ghost predicate YieldsToAny(staged: seq<Module>, e: Entry) {
    exists w: Entry :: w.owner in staged && Clash(w, e) && Yields(e.owner, w.owner)
  }

  lemma LosesExactly(staged: seq<Module>)
    ensures forall e: Entry :: Loses(Members(staged), e) <==> YieldsToAny(staged, e)
  {
    forall e: Entry, w: Entry ensures Beats(w.owner, e.owner) <==> Yields(e.owner, w.owner) { }
  }

  ghost predicate Survives(staged: set<Module>, e: Entry) {
    e.owner in staged && Claims(e) && !Loses(staged, e)
  }

  /** Modules of one bundle: an ID names one module. */
  ghost predicate OneModulePerID(staged: set<Module>) {
    forall a, b :: a in staged && b in staged && a.id == b.id ==> a == b
  }

  function Members(staged: seq<Module>): set<Module> {
    set m | m in staged
  }

  /** A claiming entry with the position of its module. */
  datatype Indexed = Indexed(stage: nat, entry: Entry)

  predicate IndexedClaim(staged: seq<Module>, c: Indexed) {
    c.stage < |staged| && c.entry.owner == staged[c.stage] && Claims(c.entry)
  }

  method ExpandClaims(staged: seq<Module>) returns (claims: seq<Indexed>)
    ensures forall c :: c in claims <==> IndexedClaim(staged, c)
  {
    claims := [];
    for s := 0 to |staged|
      invariant forall c :: c in claims <==> IndexedClaim(staged, c) && c.stage < s
    {
      for k := 0 to |staged[s].restores|
        invariant forall c :: c in claims <==>
          IndexedClaim(staged, c) && (c.stage < s || (c.stage == s && c.entry.index < k))
      {
        if staged[s].restores[k].claim.Some? {
          claims := claims + [Indexed(s, Entry(staged[s], k))];
        }
      }
    }
  }

  type Drops = map<string, set<nat>>

  predicate Dropped(drops: Drops, e: Entry) {
    e.owner.id in drops && e.index in drops[e.owner.id]
  }

  function MarkDrop(drops: Drops, e: Entry): (marked: Drops)
    ensures forall x: Entry :: Dropped(marked, x) <==>
      Dropped(drops, x) || (x.owner.id == e.owner.id && x.index == e.index)
    ensures marked.Keys == drops.Keys + {e.owner.id}
  {
    drops[e.owner.id := (if e.owner.id in drops then drops[e.owner.id] else {}) + {e.index}]
  }

  predicate ClashingPair(left: Indexed, right: Indexed) {
    left.stage != right.stage && Clash(left.entry, right.entry)
  }

  function LoserOf(left: Indexed, right: Indexed): Entry {
    if Beats(left.entry.owner, right.entry.owner) then right.entry else left.entry
  }

  /** The pair visited has `e` as its losing side. */
  predicate LosesPair(left: Indexed, right: Indexed, e: Entry) {
    ClashingPair(left, right) && e == LoserOf(left, right)
  }

  ghost predicate LostSoFar(claims: seq<Indexed>, left: nat, right: nat, e: Entry) {
    exists i, j :: 0 <= i < j < |claims| && (i < left || (i == left && j < right)) && LosesPair(claims[i], claims[j], e)
  }

  /** Drops exactly the entries that lose, whatever the order of the modules and of their entries. */
  method ResolveTargetCollisions(staged: seq<Module>) returns (drops: Drops, collided: bool)
    requires DistinctIDs(staged)
    ensures forall e: Entry :: e.owner in staged ==> (Dropped(drops, e) <==> Loses(Members(staged), e))
    ensures forall id :: id in drops ==> exists m :: m in staged && m.id == id
    ensures collided <==> exists e: Entry :: e.owner in staged && Loses(Members(staged), e)
    ensures forall e: Entry :: e.owner in staged ==> (Dropped(drops, e) <==> YieldsToAny(staged, e))
  {
    var claims := ExpandClaims(staged);
    drops, collided := map[], false;
    for left := 0 to |claims|
      invariant Tracks(staged, claims, left, left + 1, drops, collided)
    {
      drops, collided := ResolveRow(staged, claims, left, drops, collided);
    }
    AllPairs(staged, claims, drops, collided);
    LosesExactly(staged);
  }

  /** Pairs one entry with every later one. */
  method ResolveRow(ghost staged: seq<Module>, claims: seq<Indexed>, left: nat, before: Drops, any: bool)
    returns (drops: Drops, collided: bool)
    requires DistinctIDs(staged) && left < |claims| && forall c :: c in claims ==> IndexedClaim(staged, c)
    requires Tracks(staged, claims, left, left + 1, before, any)
    ensures Tracks(staged, claims, left + 1, left + 2, drops, collided)
  {
    drops, collided := before, any;
    for right := left + 1 to |claims|
      invariant Tracks(staged, claims, left, right, drops, collided)
    {
      drops, collided := VisitPair(staged, claims, left, right, drops, collided);
    }
    RowDone(staged, claims, left, drops, collided);
  }

  method VisitPair(ghost staged: seq<Module>, claims: seq<Indexed>, left: nat, right: nat, before: Drops, any: bool)
    returns (drops: Drops, collided: bool)
    requires DistinctIDs(staged) && left < right < |claims| && forall c :: c in claims ==> IndexedClaim(staged, c)
    requires Tracks(staged, claims, left, right, before, any)
    ensures Tracks(staged, claims, left, right + 1, drops, collided)
  {
    PairNext(staged, claims, left, right, before, any);
    collided := any || ClashingPair(claims[left], claims[right]);
    drops := AfterPair(claims[left], claims[right], before);
  }

  /** Of a clashing pair the losing side is dropped. */
  function AfterPair(left: Indexed, right: Indexed, drops: Drops): Drops {
    if ClashingPair(left, right) then MarkDrop(drops, LoserOf(left, right)) else drops
  }

  /** The drops so far are the entries that lost a visited pair. */
  ghost predicate DropsAre(staged: seq<Module>, claims: seq<Indexed>, left: nat, right: nat, drops: Drops) {
    forall e: Entry :: e.owner in staged ==> (Dropped(drops, e) <==> LostSoFar(claims, left, right, e))
  }

  ghost predicate DropsNamed(staged: seq<Module>, drops: Drops) {
    forall id :: id in drops ==> exists m :: m in staged && m.id == id
  }

  ghost predicate Tracks(staged: seq<Module>, claims: seq<Indexed>, left: nat, right: nat, drops: Drops,
    collided: bool)
  {
    && DropsAre(staged, claims, left, right, drops) && DropsNamed(staged, drops)
    && (collided <==> exists e: Entry :: e.owner in staged && LostSoFar(claims, left, right, e))
  }

  lemma LostNext(claims: seq<Indexed>, left: nat, right: nat, e: Entry)
    requires left < right < |claims|
    ensures LostSoFar(claims, left, right + 1, e) <==>
      LostSoFar(claims, left, right, e) || LosesPair(claims[left], claims[right], e)
  {
  }

  lemma PairNext(staged: seq<Module>, claims: seq<Indexed>, left: nat, right: nat, drops: Drops, collided: bool)
    requires DistinctIDs(staged) && left < right < |claims| && Tracks(staged, claims, left, right, drops, collided)
    requires forall c :: c in claims ==> IndexedClaim(staged, c)
    ensures Tracks(staged, claims, left, right + 1, AfterPair(claims[left], claims[right], drops),
      collided || ClashingPair(claims[left], claims[right]))
  {
    var l, r := claims[left], claims[right];
    var loser := LoserOf(l, r);
    assert IndexedClaim(staged, l) && IndexedClaim(staged, r);
    assert loser.owner in staged;
    LostNext(claims, left, right, loser);
    PairDrops(staged, claims, left, right, drops);
    forall e: Entry | e.owner in staged && e != loser
      ensures LostSoFar(claims, left, right + 1, e) <==> LostSoFar(claims, left, right, e)
    {
      LostNext(claims, left, right, e);
    }
  }

  lemma PairDrops(staged: seq<Module>, claims: seq<Indexed>, left: nat, right: nat, drops: Drops)
    requires DistinctIDs(staged) && left < right < |claims| && DropsAre(staged, claims, left, right, drops)
    requires IndexedClaim(staged, claims[left]) && IndexedClaim(staged, claims[right])
    ensures DropsAre(staged, claims, left, right + 1, AfterPair(claims[left], claims[right], drops))
  {
    var loser, clash := LoserOf(claims[left], claims[right]), ClashingPair(claims[left], claims[right]);
    assert loser.owner in staged;
    forall e: Entry | e.owner in staged
      ensures LostSoFar(claims, left, right + 1, e) <==>
        LostSoFar(claims, left, right, e) || (clash && e.owner.id == loser.owner.id && e.index == loser.index)
    {
      LostNext(claims, left, right, e);
      assert e.owner.id == loser.owner.id ==> e.owner == loser.owner;
    }
  }

  lemma RowDone(staged: seq<Module>, claims: seq<Indexed>, left: nat, drops: Drops, collided: bool)
    requires left < |claims| && Tracks(staged, claims, left, |claims|, drops, collided)
    ensures Tracks(staged, claims, left + 1, left + 2, drops, collided)
  {
    forall e ensures LostSoFar(claims, left, |claims|, e) <==> LostSoFar(claims, left + 1, left + 2, e) {
    }
  }

  lemma AllPairs(staged: seq<Module>, claims: seq<Indexed>, drops: Drops, collided: bool)
    requires DistinctIDs(staged)
    requires forall c :: c in claims <==> IndexedClaim(staged, c)
    requires Tracks(staged, claims, |claims|, |claims| + 1, drops, collided)
    ensures forall e: Entry :: e.owner in staged ==> (Dropped(drops, e) <==> Loses(Members(staged), e))
    ensures collided <==> exists e: Entry :: e.owner in staged && Loses(Members(staged), e)
  {
    forall e: Entry | e.owner in staged
      ensures LostSoFar(claims, |claims|, |claims| + 1, e) <==> Loses(Members(staged), e)
    {
      if LostSoFar(claims, |claims|, |claims| + 1, e) { LostLoses(staged, claims, e); }
      if Loses(Members(staged), e) { LosesLost(staged, claims, e); }
    }
  }

  lemma LostLoses(staged: seq<Module>, claims: seq<Indexed>, e: Entry)
    requires DistinctIDs(staged)
    requires forall c :: c in claims ==> IndexedClaim(staged, c)
    requires LostSoFar(claims, |claims|, |claims| + 1, e)
    ensures Loses(Members(staged), e)
  {
    var i, j :| 0 <= i < j < |claims| && LosesPair(claims[i], claims[j], e);
    var l, r := claims[i], claims[j];
    assert IndexedClaim(staged, l) && IndexedClaim(staged, r);
    assert staged[l.stage] in staged && staged[r.stage] in staged;
    ClashSymmetric(l.entry, r.entry);
    BeatsIsTotal(l.entry.owner, r.entry.owner);
    var winner := if Beats(l.entry.owner, r.entry.owner) then l.entry else r.entry;
    assert Clash(winner, e) && Beats(winner.owner, e.owner);
  }

  /** A pair that makes `e` lose is visited in one order or the other. */
  lemma LosesLost(staged: seq<Module>, claims: seq<Indexed>, e: Entry)
    requires e.owner in staged
    requires forall c :: c in claims <==> IndexedClaim(staged, c)
    requires Loses(Members(staged), e)
    ensures LostSoFar(claims, |claims|, |claims| + 1, e)
  {
    var w: Entry :| w.owner in Members(staged) && Clash(w, e) && Beats(w.owner, e.owner);
    var a :| 0 <= a < |staged| && staged[a] == w.owner;
    var b :| 0 <= b < |staged| && staged[b] == e.owner;
    var x, y := Indexed(a, w), Indexed(b, e);
    assert IndexedClaim(staged, x) && IndexedClaim(staged, y);
    var i :| 0 <= i < |claims| && claims[i] == x;
    var j :| 0 <= j < |claims| && claims[j] == y;
    BeatsIsTotal(w.owner, e.owner);
    ClashSymmetric(w, e);
    if i < j { assert LosesPair(claims[i], claims[j], e); }
    else { assert LosesPair(claims[j], claims[i], e); }
  }

  // ----- what the drop rule guarantees -----

  lemma ClashSymmetric(a: Entry, b: Entry)
    ensures Clash(a, b) == Clash(b, a)
  {
    if Claims(a) && Claims(b) { OverlapIsNesting(ClaimOf(a), ClaimOf(b)); }
  }

  /** Surviving entries of different modules never overlap; their places are nested exactly when they are
    * two spellings of one place. */
  lemma SurvivorsNeverOverlap(staged: set<Module>, a: Entry, b: Entry)
    requires OneModulePerID(staged)
    requires Survives(staged, a) && Survives(staged, b) && a.owner != b.owner
    ensures !Clash(a, b)
    ensures AtOrUnder(ClaimOf(a), ClaimOf(b)) || AtOrUnder(ClaimOf(b), ClaimOf(a)) <==> Twins(ClaimOf(a), ClaimOf(b))
  {
    BeatsIsTotal(a.owner, b.owner);
    ClashSymmetric(a, b);
    OverlapIsNesting(ClaimOf(a), ClaimOf(b));
  }

  /** A module that beats every other loses nothing, and there always is one. */
  lemma {:induction false} StrongestLosesNothing(staged: set<Module>) returns (strongest: Module)
    requires staged != {} && OneModulePerID(staged)
    ensures strongest in staged
    ensures forall m :: m in staged && m != strongest ==> Beats(strongest, m)
    ensures forall k: nat :: !Loses(staged, Entry(strongest, k))
  {
    var first :| first in staged;
    var rest := staged - {first};
    strongest := first;
    if rest != {} {
      var best := StrongestLosesNothing(rest);
      BeatsIsTotal(first, best);
      if Beats(first, best) {
        forall m | m in rest && m != best ensures Beats(first, m) { BeatsTransitive(first, best, m); }
      } else {
        assert first.id != best.id;
        strongest := best;
      }
    }
    assert forall m :: m in staged ==> m == first || m in rest;
    forall m | m in staged ensures !Beats(m, strongest) { BeatsIsTotal(m, strongest); }
  }

  ghost function Stronger(staged: set<Module>, m: Module): set<Module> {
    set s | s in staged && Beats(s, m)
  }

  /** Each entry of the chain overlaps the next, which belongs to a strictly stronger module. */
  ghost predicate Chain(staged: set<Module>, chain: seq<Entry>) {
    && chain != []
    && (forall i :: 0 <= i < |chain| ==> chain[i].owner in staged)
    && forall i :: 0 < i < |chain| ==> Clash(chain[i], chain[i - 1]) && Beats(chain[i].owner, chain[i - 1].owner)
  }

  /** From every claiming entry a finite chain of overlaps leads, through ever stronger modules, to a survivor. */
  lemma {:induction false} ChainToSurvivor(staged: set<Module>, e: Entry) returns (chain: seq<Entry>)
    requires e.owner in staged && Claims(e)
    ensures Chain(staged, chain) && chain[0] == e && Survives(staged, chain[|chain| - 1])
    ensures |chain| == 1 <==> !Loses(staged, e)
    decreases |Stronger(staged, e.owner)|
  {
    chain := [e];
    if Loses(staged, e) {
      var w: Entry :| w.owner in staged && Clash(w, e) && Beats(w.owner, e.owner);
      forall s | s in Stronger(staged, w.owner) ensures s in Stronger(staged, e.owner) {
        BeatsTransitive(s, w.owner, e.owner);
      }
      BeatsIsTotal(w.owner, w.owner);
      assert w.owner in Stronger(staged, e.owner) && w.owner !in Stronger(staged, w.owner);
      SubsetSmaller(Stronger(staged, w.owner), Stronger(staged, e.owner));
      var rest := ChainToSurvivor(staged, w);
      chain := [e] + rest;
    }
  }

  lemma SubsetSmaller<T>(a: set<T>, b: set<T>)
    requires a < b
    ensures |a| < |b|
  {
    var x :| x in b && x !in a;
    assert |b - a| + |a| == |b| by { assert b == (b - a) + a; }
    assert x in b - a;
  }

  // ----- when the target of a dropped entry is still restored -----

  ghost predicate StillServed(staged: set<Module>, e: Entry) {
    exists s: Entry :: Survives(staged, s) && Clash(s, e)
  }

  ghost predicate StrongestClaimant(staged: set<Module>, e: Entry, m: Module) {
    && m in staged && (exists s: Entry :: s.owner == m && Clash(s, e))
    && forall s: Entry :: s.owner in staged && Clash(s, e) ==> !Beats(s.owner, m)
  }

  /** Every claiming entry has one. */
  lemma StrongestClaimantExists(staged: set<Module>, e: Entry) returns (m: Module)
    requires OneModulePerID(staged) && e.owner in staged && Claims(e)
    ensures StrongestClaimant(staged, e, m)
  {
    var claimants := set c | c in staged && exists s: Entry :: s.owner == c && Clash(s, e);
    assert Clash(e, e);
    assert e.owner in claimants;
    m := StrongestLosesNothing(claimants);
    forall s: Entry | s.owner in staged && Clash(s, e) ensures !Beats(s.owner, m) {
      assert s.owner in claimants;
      BeatsIsTotal(s.owner, m);
    }
  }

  /** An entry that overlaps `e` and lies at or under it. */
  predicate ClashBelow(s: Entry, e: Entry) {
    Clash(s, e) && AtOrUnder(ClaimOf(s), ClaimOf(e))
  }

  /** No claim of the modules is another spelling of the place of `e`. */
  ghost predicate SpelledOnce(staged: set<Module>, e: Entry)
    requires Claims(e)
  {
    forall a: Entry :: a.owner in staged && Claims(a) ==> !Twins(ClaimOf(a), ClaimOf(e))
  }

  /** A survivor overlaps `e` exactly when the strongest module overlapping `e` has such an entry that
    * no stronger module overlaps; an entry of it at or under `e` qualifies unless the place of `e` is
    * claimed in another spelling. */
  lemma StillServedExactly(staged: set<Module>, e: Entry) returns (m: Module)
    requires OneModulePerID(staged) && e.owner in staged && Claims(e)
    ensures StrongestClaimant(staged, e, m)
    ensures StillServed(staged, e) <==> exists s: Entry :: s.owner == m && Clash(s, e) && !Loses(staged, s)
    ensures SpelledOnce(staged, e) && (exists s: Entry :: s.owner == m && ClashBelow(s, e)) ==> StillServed(staged, e)
  {
    m := StrongestClaimantExists(staged, e);
    if StillServed(staged, e) {
      var s: Entry :| Survives(staged, s) && Clash(s, e);
      if s.owner != m {
        BeatsIsTotal(m, s.owner);
        var t: Entry :| t.owner == m && Clash(t, e);
        StrongestSurvives(staged, e, m, t, s);
      }
    }
    if SpelledOnce(staged, e) {
      forall s: Entry | s.owner == m && ClashBelow(s, e) ensures Survives(staged, s) {
        BelowLosesExactly(staged, e, m, s);
      }
    }
  }

  /** Beside a survivor of a weaker module, any entry of the strongest module survives too. */
  lemma StrongestSurvives(staged: set<Module>, e: Entry, m: Module, t: Entry, s: Entry)
    requires StrongestClaimant(staged, e, m) && t.owner == m && Clash(t, e)
    requires Survives(staged, s) && Clash(s, e) && Beats(m, s.owner)
    ensures !Loses(staged, t)
  {
    forall w: Entry | w.owner in staged && Clash(w, t) && Beats(w.owner, m)
      ensures Clash(w, s) && Beats(w.owner, s.owner)
    {
      Squeezed(ClaimOf(w), ClaimOf(t), ClaimOf(s), ClaimOf(e));
      BeatsTransitive(w.owner, m, s.owner);
    }
  }

  /** Two claims overlap `e` and not each other; what overlaps the first and not `e` overlaps the second. */
  lemma Squeezed(w: TargetClaim, t: TargetClaim, s: TargetClaim, e: TargetClaim)
    requires Overlap(t, e) && Overlap(s, e) && !Overlap(t, s) && Overlap(w, t) && !Overlap(w, e)
    ensures Overlap(w, s)
  {
    OverlapIsNesting(t, e);
    OverlapIsNesting(s, e);
    OverlapIsNesting(t, s);
    OverlapIsNesting(w, t);
    OverlapIsNesting(w, e);
    OverlapIsNesting(w, s);
    if Place(t) == Place(s) {
      SpellingsOf(t, s, e);
      SpellingsOf(w, t, e);
    } else {
      if AtOrUnder(e, t) && AtOrUnder(e, s) { OutersNest(t, s, e); }
      if AtOrUnder(t, w) && AtOrUnder(t, e) { OutersNest(w, e, t); }
    }
  }

  /** Of three claims of one place two are the same: a place has two spellings. */
  lemma SpellingsOf(a: TargetClaim, b: TargetClaim, c: TargetClaim)
    ensures Twins(a, b) && Twins(b, c) ==> a == c
  {
  }

  /** An entry of the strongest module at or under `e` loses exactly to a stronger claim of the place of
    * `e` in another spelling, which does not count as overlapping `e`. */
  lemma BelowLosesExactly(staged: set<Module>, e: Entry, m: Module, s: Entry)
    requires StrongestClaimant(staged, e, m) && s.owner == m && ClashBelow(s, e)
    ensures Loses(staged, s) <==> exists w: Entry ::
      w.owner in staged && Clash(w, s) && Beats(w.owner, m) && Twins(ClaimOf(w), ClaimOf(e))
  {
    forall w: Entry | w.owner in staged && Clash(w, s) && Beats(w.owner, m) ensures Twins(ClaimOf(w), ClaimOf(e)) {
      ReachesUp(ClaimOf(w), ClaimOf(s), ClaimOf(e));
    }
  }

  /** What overlaps a claim at or under `e` overlaps `e`, or is another spelling of its place. */
  lemma ReachesUp(w: TargetClaim, s: TargetClaim, e: TargetClaim)
    requires Overlap(w, s) && Overlap(s, e) && AtOrUnder(s, e)
    ensures Overlap(w, e) || Twins(w, e)
  {
    OverlapIsNesting(w, s);
    OverlapIsNesting(w, e);
    if AtOrUnder(s, w) { OutersNest(w, e, s); }
  }

  /** A dropped entry may be left without any survivor over its target: its winner lost to a third
    * module, whose entry lies beside it. */
  lemma WinnerMayItselfBeDropped(act: RestoreAction, a: Module, b: Module, c: Module)
    requires a == Module("apps.a", 1, true, true, [RestoreDef(act, "", Some(Filesystem("/x/a")))], [])
    requires b == Module("apps.b", 1, false, true, [RestoreDef(act, "", Some(Filesystem("/x")))], [])
    requires c == Module("apps.c", 1, false, false, [RestoreDef(act, "", Some(Filesystem("/x/c")))], [])
    ensures Loses({a, b, c}, Entry(c, 0)) && !StillServed({a, b, c}, Entry(c, 0))
  {
    assert "/x" + "/" <= "/x/a" && "/x" + "/" <= "/x/c";
    assert Clash(Entry(b, 0), Entry(c, 0)) && Clash(Entry(a, 0), Entry(b, 0));
    assert "/x/a"[3] != "/x/c"[3];
  }

  /** Two spellings of one network share do not overlap, so both their entries survive. */
  lemma ShareRootsSurviveTogether(act: RestoreAction, a: Module, b: Module)
    requires a == Module("apps.a", 1, true, true, [RestoreDef(act, "", Some(Filesystem("//h/s")))], [])
    requires b == Module("apps.b", 1, true, true, [RestoreDef(act, "", Some(Filesystem("//h/s/")))], [])
    ensures Survives({a, b}, Entry(a, 0)) && Survives({a, b}, Entry(b, 0))
    ensures Place(ClaimOf(Entry(a, 0))) == Place(ClaimOf(Entry(b, 0)))
  {
    assert TrimSuffixChar("//h/s/", '/') == "//h/s" == TrimSuffixChar("//h/s", '/');
    OverlapIsNesting(Filesystem("//h/s"), Filesystem("//h/s/"));
    assert "apps.a"[5] != "apps.b"[5];
    BeatsIsTotal(a, a);
    BeatsIsTotal(b, b);
  }
}
