/** The unified collision pass: every concrete target of every owner that is about to run is
  * claimed, and an owner with a conflicting or invalid claim is blocked before any mutation. */
module Collisions {
  import opened ConfigPlan
  import opened Claims

  datatype Owner = Generation(setIndex: nat) | Legacy(captureID: string) | Ordinary(action: nat)

  datatype OwnedClaim = OwnedClaim(text: string, owner: Owner)

  /** What resolving one action's target yields: nothing to claim, a refusal, or a claim text. */
  datatype Target = NoTarget | Invalid | Claimed(text: string)

  datatype PreparedTargets = PreparedTargets(setIndex: nat, targets: seq<Target>)

  datatype LaneTargets = LaneTargets(captureID: string, selected: bool, targets: seq<Target>)

  datatype CollisionState = CollisionState(
    generations: set<nat>, legacy: map<string, Reason>, ordinary: map<nat, Reason>)
  {
    predicate Blocks(owner: Owner) {
      match owner
      case Generation(i) => i in generations
      case Legacy(c) => c in legacy
      case Ordinary(k) => k in ordinary
    }

    function ReasonFor(owner: Owner): Reason
      requires Blocks(owner)
    {
      match owner
      case Generation(_) => TargetCollision
      case Legacy(c) => legacy[c]
      case Ordinary(k) => ordinary[k]
    }

    function Mark(owner: Owner): (marked: CollisionState)
      ensures forall o :: marked.Blocks(o) <==> Blocks(o) || o == owner
      ensures forall o :: marked.Blocks(o) ==>
        marked.ReasonFor(o) == if o == owner then TargetCollision else ReasonFor(o)
    {
      match owner
      case Generation(i) => this.(generations := generations + {i})
      case Legacy(c) => this.(legacy := legacy[c := TargetCollision])
      case Ordinary(k) => this.(ordinary := ordinary[k := TargetCollision])
    }
  }

  function Owned(owner: Owner, targets: seq<Target>): seq<OwnedClaim> {
    if targets == [] then []
    else
      var last := targets[|targets| - 1];
      Owned(owner, targets[..|targets| - 1]) + if last.Claimed? then [OwnedClaim(last.text, owner)] else []
  }

  function GenerationClaims(prepared: seq<PreparedTargets>): seq<OwnedClaim> {
    if prepared == [] then []
    else
      var last := prepared[|prepared| - 1];
      GenerationClaims(prepared[..|prepared| - 1]) + Owned(Generation(last.setIndex), last.targets)
  }

  predicate Refused(lane: LaneTargets) {
    lane.selected && Invalid in lane.targets
  }

  function LegacyClaims(lanes: seq<LaneTargets>): seq<OwnedClaim> {
    if lanes == [] then []
    else
      var last := lanes[|lanes| - 1];
      LegacyClaims(lanes[..|lanes| - 1]) +
      if last.selected && !Refused(last) then Owned(Legacy(last.captureID), last.targets) else []
  }

  function OrdinaryClaims(targets: seq<Target>): seq<OwnedClaim> {
    if targets == [] then []
    else
      var k := |targets| - 1;
      OrdinaryClaims(targets[..k]) + if targets[k].Claimed? then [OwnedClaim(targets[k].text, Ordinary(k))] else []
  }

  function AllClaims(prepared: seq<PreparedTargets>, lanes: seq<LaneTargets>, ordinary: seq<Target>): seq<OwnedClaim> {
    GenerationClaims(prepared) + LegacyClaims(lanes) + OrdinaryClaims(ordinary)
  }

  lemma {:induction false} OwnedBy(owner: Owner, targets: seq<Target>, c: OwnedClaim)
    requires c in Owned(owner, targets)
    ensures c.owner == owner
  {
    if c in Owned(owner, targets[..|targets| - 1]) { OwnedBy(owner, targets[..|targets| - 1], c); }
  }

  lemma {:induction false} GenerationOwners(prepared: seq<PreparedTargets>, c: OwnedClaim)
    requires c in GenerationClaims(prepared)
    ensures c.owner.Generation? && exists m :: 0 <= m < |prepared| && prepared[m].setIndex == c.owner.setIndex
  {
    var n := |prepared| - 1;
    if c in GenerationClaims(prepared[..n]) {
      GenerationOwners(prepared[..n], c);
    } else {
      OwnedBy(Generation(prepared[n].setIndex), prepared[n].targets, c);
    }
  }

  lemma {:induction false} LegacyOwners(lanes: seq<LaneTargets>, c: OwnedClaim)
    requires c in LegacyClaims(lanes)
    ensures c.owner.Legacy? && exists k ::
      0 <= k < |lanes| && lanes[k].captureID == c.owner.captureID && lanes[k].selected
  {
    var n := |lanes| - 1;
    if c in LegacyClaims(lanes[..n]) {
      LegacyOwners(lanes[..n], c);
    } else {
      OwnedBy(Legacy(lanes[n].captureID), lanes[n].targets, c);
    }
  }

  lemma {:induction false} OrdinaryOwners(targets: seq<Target>, c: OwnedClaim)
    requires c in OrdinaryClaims(targets)
    ensures c.owner.Ordinary?
  {
    var n := |targets| - 1;
    if c in OrdinaryClaims(targets[..n]) { OrdinaryOwners(targets[..n], c); }
  }

  /** Only a set that was prepared can be blocked. */
  lemma ContestedGenerationsArePrepared(
    prepared: seq<PreparedTargets>, lanes: seq<LaneTargets>, ordinary: seq<Target>, i: nat)
    requires Contested(AllClaims(prepared, lanes, ordinary), Generation(i))
    ensures exists m :: 0 <= m < |prepared| && prepared[m].setIndex == i
  {
    var claims := AllClaims(prepared, lanes, ordinary);
    var k, j :| 0 <= k < |claims| && 0 <= j < |claims| && k != j &&
                claims[k].owner == Generation(i) && Conflict(claims[k], claims[j]);
    var c := claims[k];
    if c in GenerationClaims(prepared) { GenerationOwners(prepared, c); }
    else if c in LegacyClaims(lanes) { LegacyOwners(lanes, c); }
    else { OrdinaryOwners(ordinary, c); }
  }

  lemma ContestedLaneIsSelected(
    prepared: seq<PreparedTargets>, lanes: seq<LaneTargets>, ordinary: seq<Target>, captureID: string, k: nat)
    requires Contested(AllClaims(prepared, lanes, ordinary), Legacy(captureID))
    requires k < |lanes| && lanes[k].captureID == captureID
    requires forall j :: 0 <= j < |lanes| && j != k ==> lanes[j].captureID != captureID
    ensures lanes[k].selected
  {
    var claims := AllClaims(prepared, lanes, ordinary);
    var i, j :| 0 <= i < |claims| && 0 <= j < |claims| && i != j &&
                claims[i].owner == Legacy(captureID) && Conflict(claims[i], claims[j]);
    var c := claims[i];
    if c in GenerationClaims(prepared) { GenerationOwners(prepared, c); }
    else if c in LegacyClaims(lanes) { LegacyOwners(lanes, c); }
    else { OrdinaryOwners(ordinary, c); }
  }

  /** Overlapping claims conflict, except an exact repeat within one owner. */
  predicate Conflict(a: OwnedClaim, b: OwnedClaim) {
    ClaimsOverlap(a.text, b.text) && !(a.owner == b.owner && a.text == b.text)
  }

  predicate Party(a: OwnedClaim, b: OwnedClaim, owner: Owner) {
    a.owner == owner || b.owner == owner
  }

  ghost predicate Contested(claims: seq<OwnedClaim>, owner: Owner) {
    exists i, j :: 0 <= i < |claims| && 0 <= j < |claims| && i != j &&
                   claims[i].owner == owner && Conflict(claims[i], claims[j])
  }

  ghost predicate RefusedOwner(lanes: seq<LaneTargets>, ordinary: seq<Target>, owner: Owner) {
    match owner
    case Generation(_) => false
    case Legacy(c) => exists k :: 0 <= k < |lanes| && lanes[k].captureID == c && Refused(lanes[k])
    case Ordinary(k) => k < |ordinary| && ordinary[k] == Invalid
  }

  /** An owner is blocked exactly when one of its claims conflicts or one of its targets is refused,
    * and a conflict overrides a refusal as the recorded reason. */
  method ApplyUnifiedCollisions(
    prepared: seq<PreparedTargets>, lanes: seq<LaneTargets>, ordinary: seq<Target>) returns (state: CollisionState)
    ensures forall owner :: state.Blocks(owner) <==>
      Contested(AllClaims(prepared, lanes, ordinary), owner) || RefusedOwner(lanes, ordinary, owner)
    ensures forall owner :: state.Blocks(owner) ==> (state.ReasonFor(owner) ==
      if Contested(AllClaims(prepared, lanes, ordinary), owner) then TargetCollision else StagingValidationFailed)
  {
    var claims := PreparedSweep(prepared);
    var fromLanes, legacy := LaneSweep(lanes);
    var fromOrdinary, refused := OrdinarySweep(ordinary);
    state := MarkConflicts(claims + fromLanes + fromOrdinary, CollisionState({}, legacy, refused));
  }

  method PreparedSweep(prepared: seq<PreparedTargets>) returns (claims: seq<OwnedClaim>)
    ensures claims == GenerationClaims(prepared)
  {
    claims := [];
    for n := 0 to |prepared|
      invariant claims == GenerationClaims(prepared[..n])
    {
      var item := prepared[n];
      var own := [];
      for k := 0 to |item.targets|
        invariant own == Owned(Generation(item.setIndex), item.targets[..k])
      {
        assert item.targets[..k + 1][..k] == item.targets[..k];
        if item.targets[k].Claimed? {
          own := own + [OwnedClaim(item.targets[k].text, Generation(item.setIndex))];
        }
      }
      assert item.targets[..|item.targets|] == item.targets;
      assert prepared[..n + 1][..n] == prepared[..n];
      claims := claims + own;
    }
    assert prepared[..|prepared|] == prepared;
  }

  method OrdinarySweep(ordinary: seq<Target>) returns (claims: seq<OwnedClaim>, refused: map<nat, Reason>)
    ensures claims == OrdinaryClaims(ordinary)
    ensures forall i: nat :: i in refused <==> i < |ordinary| && ordinary[i] == Invalid
    ensures forall i :: i in refused ==> refused[i] == StagingValidationFailed
  {
    claims, refused := [], map[];
    for k := 0 to |ordinary|
      invariant claims == OrdinaryClaims(ordinary[..k])
      invariant forall i :: i in refused <==> 0 <= i < k && ordinary[i] == Invalid
      invariant forall i :: i in refused ==> refused[i] == StagingValidationFailed
    {
      assert ordinary[..k + 1][..k] == ordinary[..k];
      match ordinary[k]
      case Invalid => refused := refused[k := StagingValidationFailed];
      case NoTarget =>
      case Claimed(text) => claims := claims + [OwnedClaim(text, Ordinary(k))];
    }
    assert ordinary[..|ordinary|] == ordinary;
  }

  method LaneSweep(lanes: seq<LaneTargets>) returns (claims: seq<OwnedClaim>, refused: map<string, Reason>)
    ensures claims == LegacyClaims(lanes)
    ensures forall c :: c in refused <==> exists k :: 0 <= k < |lanes| && lanes[k].captureID == c && Refused(lanes[k])
    ensures forall c :: c in refused ==> refused[c] == StagingValidationFailed
  {
    claims, refused := [], map[];
    for n := 0 to |lanes|
      invariant claims == LegacyClaims(lanes[..n])
      invariant forall c :: c in refused <==> exists k :: 0 <= k < n && lanes[k].captureID == c && Refused(lanes[k])
      invariant forall c :: c in refused ==> refused[c] == StagingValidationFailed
    {
      assert lanes[..n + 1][..n] == lanes[..n];
      var lane := lanes[n];
      if lane.selected {
        var own := LaneClaims(lane);
        if own.Some? {
          claims := claims + own.value;
        } else {
          refused := refused[lane.captureID := StagingValidationFailed];
        }
      }
    }
    assert lanes[..|lanes|] == lanes;
  }

  /** One refused target refuses the whole lane, and its earlier claims are thrown away. */
  method LaneClaims(lane: LaneTargets) returns (own: Option<seq<OwnedClaim>>)
    ensures own == if Invalid in lane.targets then None else Some(Owned(Legacy(lane.captureID), lane.targets))
  {
    var found: seq<OwnedClaim> := [];
    for k := 0 to |lane.targets|
      invariant found == Owned(Legacy(lane.captureID), lane.targets[..k])
      invariant forall j :: 0 <= j < k ==> lane.targets[j] != Invalid
    {
      assert lane.targets[..k + 1][..k] == lane.targets[..k];
      match lane.targets[k] {
        case Invalid => return None;
        case NoTarget =>
        case Claimed(text) => found := found + [OwnedClaim(text, Legacy(lane.captureID))];
      }
    }
    assert lane.targets[..|lane.targets|] == lane.targets;
    return Some(found);
  }

  /** Owner of a conflicting pair the double loop has already visited. */
  ghost predicate Visited(claims: seq<OwnedClaim>, left: int, right: int, owner: Owner) {
    exists i, j :: 0 <= i < j < |claims| && (i < left || (i == left && j < right)) &&
                   Conflict(claims[i], claims[j]) && Party(claims[i], claims[j], owner)
  }

  method MarkConflicts(claims: seq<OwnedClaim>, base: CollisionState) returns (state: CollisionState)
    ensures forall owner :: state.Blocks(owner) <==> Contested(claims, owner) || base.Blocks(owner)
    ensures forall owner :: state.Blocks(owner) ==> (state.ReasonFor(owner) ==
      if Contested(claims, owner) then TargetCollision else base.ReasonFor(owner))
  {
    state := base;
    for left := 0 to |claims|
      invariant Marked(claims, left, left + 1, base, state)
    {
      for right := left + 1 to |claims|
        invariant Marked(claims, left, right, base, state)
      {
        VisitNext(claims, left, right);
        if Conflict(claims[left], claims[right]) {
          state := state.Mark(claims[left].owner).Mark(claims[right].owner);
        }
      }
      assert forall owner :: Visited(claims, left, |claims|, owner) <==> Visited(claims, left + 1, left + 2, owner);
    }
    VisitedAll(claims);
  }

  ghost predicate Marked(claims: seq<OwnedClaim>, left: int, right: int, base: CollisionState, state: CollisionState) {
    && (forall owner :: state.Blocks(owner) <==> Visited(claims, left, right, owner) || base.Blocks(owner))
    && (forall owner :: state.Blocks(owner) ==> (state.ReasonFor(owner) ==
         if Visited(claims, left, right, owner) then TargetCollision else base.ReasonFor(owner)))
  }

  lemma VisitNext(claims: seq<OwnedClaim>, left: int, right: int)
    requires 0 <= left < right < |claims|
    ensures forall owner :: Visited(claims, left, right + 1, owner) <==>
      Visited(claims, left, right, owner) ||
      (Conflict(claims[left], claims[right]) && Party(claims[left], claims[right], owner))
  {
    forall owner | Conflict(claims[left], claims[right]) && Party(claims[left], claims[right], owner)
      ensures Visited(claims, left, right + 1, owner)
    {
    }
  }

  lemma VisitedAll(claims: seq<OwnedClaim>)
    ensures forall owner :: Visited(claims, |claims|, |claims| + 1, owner) <==> Contested(claims, owner)
  {
    forall owner
      ensures Visited(claims, |claims|, |claims| + 1, owner) <==> Contested(claims, owner)
    {
      if Contested(claims, owner) {
        var i, j :| 0 <= i < |claims| && 0 <= j < |claims| && i != j &&
                    claims[i].owner == owner && Conflict(claims[i], claims[j]);
        OverlapLaws(claims[i].text, claims[j].text);
        if i < j { assert Conflict(claims[i], claims[j]); } else { assert Conflict(claims[j], claims[i]); }
      }
      if Visited(claims, |claims|, |claims| + 1, owner) {
        var i, j :| 0 <= i < j < |claims| && Conflict(claims[i], claims[j]) && Party(claims[i], claims[j], owner);
        OverlapLaws(claims[i].text, claims[j].text);
        assert Conflict(claims[i], claims[j]) && Conflict(claims[j], claims[i]);
      }
    }
  }

  /** Claims left to one owner: the texts it may write under. */
  ghost predicate Holds(claims: seq<OwnedClaim>, owner: Owner, place: Location) {
    exists k :: 0 <= k < |claims| && claims[k].owner == owner && Covers(claims[k].text, place)
  }

  /** Footprints of uncontested owners never meet. */
  lemma SurvivorsDisjoint(claims: seq<OwnedClaim>, a: Owner, b: Owner, place: Location)
    requires a != b && !Contested(claims, a)
    ensures !(Holds(claims, a, place) && Holds(claims, b, place))
  {
    if Holds(claims, a, place) && Holds(claims, b, place) {
      var i :| 0 <= i < |claims| && claims[i].owner == a && Covers(claims[i].text, place);
      var j :| 0 <= j < |claims| && claims[j].owner == b && Covers(claims[j].text, place);
      OverlapIsMeeting(claims[i].text, claims[j].text);
    }
  }

  /** Inside one uncontested owner two claims are the same text or share no location. */
  lemma SurvivorChains(claims: seq<OwnedClaim>, owner: Owner, i: nat, j: nat, place: Location)
    requires i < |claims| && j < |claims| && claims[i].owner == claims[j].owner == owner
    requires !Contested(claims, owner) && claims[i].text != claims[j].text
    ensures !(Covers(claims[i].text, place) && Covers(claims[j].text, place))
  {
    if Covers(claims[i].text, place) && Covers(claims[j].text, place) {
      OverlapIsMeeting(claims[i].text, claims[j].text);
    }
  }

  // ----- what is claimed, and who is contested -----

  /** The claims of a restore are those of its prepared sets, of its selected lanes without a refused target,
    * and of its ordinary actions, each under its owner. */
  lemma ClaimedExactly(prepared: seq<PreparedTargets>, lanes: seq<LaneTargets>, ordinary: seq<Target>, c: OwnedClaim)
    ensures c in AllClaims(prepared, lanes, ordinary) <==>
      match c.owner
      case Generation(i) => exists p :: p in prepared && p.setIndex == i && Claimed(c.text) in p.targets
      case Legacy(id) => exists l :: l in lanes && LaneClaiming(l, id, c.text)
      case Ordinary(k) => k < |ordinary| && ordinary[k] == Claimed(c.text)
  {
    GenerationClaimed(prepared, c);
    LegacyClaimed(lanes, c);
    OrdinaryClaimed(ordinary, c);
  }

  predicate LaneClaiming(l: LaneTargets, captureID: string, text: string) {
    l.captureID == captureID && l.selected && Invalid !in l.targets && Claimed(text) in l.targets
  }

  lemma {:induction false} OwnedClaimed(owner: Owner, targets: seq<Target>, c: OwnedClaim)
    ensures c in Owned(owner, targets) <==> c.owner == owner && Claimed(c.text) in targets
  {
    if targets != [] {
      var n := |targets| - 1;
      assert targets == targets[..n] + [targets[n]];
      OwnedClaimed(owner, targets[..n], c);
    }
  }

  lemma {:induction false} GenerationClaimed(prepared: seq<PreparedTargets>, c: OwnedClaim)
    ensures c in GenerationClaims(prepared) <==>
      c.owner.Generation? && exists p :: p in prepared && p.setIndex == c.owner.setIndex && Claimed(c.text) in p.targets
  {
    if prepared != [] {
      var n := |prepared| - 1;
      assert prepared == prepared[..n] + [prepared[n]];
      GenerationClaimed(prepared[..n], c);
      OwnedClaimed(Generation(prepared[n].setIndex), prepared[n].targets, c);
    }
  }

  lemma {:induction false} LegacyClaimed(lanes: seq<LaneTargets>, c: OwnedClaim)
    ensures c in LegacyClaims(lanes) <==>
      c.owner.Legacy? && exists l :: l in lanes && LaneClaiming(l, c.owner.captureID, c.text)
  {
    if lanes != [] {
      var before, last := lanes[..|lanes| - 1], lanes[|lanes| - 1];
      var own := if last.selected && !Refused(last) then Owned(Legacy(last.captureID), last.targets) else [];
      assert lanes == before + [last];
      LegacyClaimed(before, c);
      OwnedClaimed(Legacy(last.captureID), last.targets, c);
      assert LegacyClaims(lanes) == LegacyClaims(before) + own;
      assert c in own <==> c.owner.Legacy? && LaneClaiming(last, c.owner.captureID, c.text);
    }
  }

  lemma {:induction false} OrdinaryClaimed(targets: seq<Target>, c: OwnedClaim)
    ensures c in OrdinaryClaims(targets) <==>
      c.owner.Ordinary? && c.owner.action < |targets| && targets[c.owner.action] == Claimed(c.text)
  {
    if targets != [] { OrdinaryClaimed(targets[..|targets| - 1], c); }
  }

  /** An owner is contested exactly when a location of one of its claims is covered by a different claim,
    * which is one of another owner or another text of its own. */
  lemma ContestedExactly(claims: seq<OwnedClaim>, owner: Owner)
    ensures Contested(claims, owner) <==> exists c, d ::
      c in claims && d in claims && c != d && c.owner == owner && Meet(c.text, d.text)
  {
    forall c: OwnedClaim, d: OwnedClaim ensures Conflict(c, d) <==> Meet(c.text, d.text) && c != d {
      OverlapIsMeeting(c.text, d.text);
    }
    if c, d :| c in claims && d in claims && c != d && c.owner == owner && Meet(c.text, d.text) {
      var i :| 0 <= i < |claims| && claims[i] == c;
      var j :| 0 <= j < |claims| && claims[j] == d;
      assert Conflict(claims[i], claims[j]);
    }
  }

  /** Only a lane with a refused target, or an ordinary action whose target is refused, is blocked for it. */
  lemma RefusedExactly(lanes: seq<LaneTargets>, ordinary: seq<Target>, owner: Owner)
    ensures RefusedOwner(lanes, ordinary, owner) <==>
      match owner
      case Generation(_) => false
      case Legacy(id) => exists l :: l in lanes && l.captureID == id && l.selected && Invalid in l.targets
      case Ordinary(k) => k < |ordinary| && ordinary[k] == Invalid
  {
  }
}
