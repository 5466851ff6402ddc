/** What a whole restore run does to the host, told from its trace: the owners that acted cannot tell
  * whether they ran alone, and any one of them can be undone afterwards as if it had never run. */
module RestoreEffects {
  import opened Claims
  import opened Collisions
  import opened LegacyProjection
  import opened HostEffects
  import opened RestoreTrace
  import opened RestoreRun
  import opened ConfigPlan

  /** The actions behind the events of a run; a dry run's events have none. */
  datatype Effects = Effects(set_: nat -> seq<Action>, lane: (nat, nat) -> seq<Action>, ordinary: nat -> seq<Action>)

  function ActionsOf(f: Effects, e: Event): seq<Action> {
    match e
    case Transact(i) => f.set_(i)
    case RunLegacy(k, a, true) => f.lane(k, a)
    case RunOrdinary(a, true) => f.ordinary(a)
    case _ => []
  }

  function OwnerOf(e: Event, inputs: Inputs): Owner {
    match e
    case Transact(i) => Generation(i)
    case RunLegacy(k, _, _) => Legacy(if k < |inputs.lanes| then inputs.lanes[k].captureID else "")
    case RunOrdinary(a, _) => Ordinary(a)
    case _ => Ordinary(0)
  }

  /** On whose behalf an event changes the host. */
  predicate ActsFor(e: Event, inputs: Inputs, owner: Owner) {
    (e.Transact? || (e.RunLegacy? && e.lane < |inputs.lanes|) || e.RunOrdinary?) && owner == OwnerOf(e, inputs)
  }

  /** The host after the events of a trace. */
  function HostAfter(f: Effects, t: Trace, host: Host): Host {
    if t == [] then host
    else Forward(ActionsOf(f, t[|t| - 1]), HostAfter(f, t[..|t| - 1], host)).0
  }

  /** One owner's actions, in the order of the trace. */
  function ActionsFor(f: Effects, t: Trace, inputs: Inputs, owner: Owner): seq<Action> {
    if t == [] then []
    else
      var e := t[|t| - 1];
      ActionsFor(f, t[..|t| - 1], inputs, owner) + if ActsFor(e, inputs, owner) then ActionsOf(f, e) else []
  }

  /** What the owner's actions recorded as the run went by, whatever ran in between. */
  function JournalFor(f: Effects, t: Trace, inputs: Inputs, owner: Owner, host: Host): seq<JournalEntry> {
    if t == [] then []
    else
      var e, before := t[|t| - 1], t[..|t| - 1];
      JournalFor(f, before, inputs, owner, host) +
      if ActsFor(e, inputs, owner) then Forward(ActionsOf(f, e), HostAfter(f, before, host)).1 else []
  }

  /** The run without one owner. */
  function Without(t: Trace, inputs: Inputs, owner: Owner): Trace {
    if t == [] then []
    else
      var e := t[|t| - 1];
      Without(t[..|t| - 1], inputs, owner) + if ActsFor(e, inputs, owner) then [] else [e]
  }

  /** Every action is confined to its claim. */
  ghost predicate TraceConfined(f: Effects, t: Trace) {
    forall e :: e in t ==> AllConfined(ActionsOf(f, e))
  }

  ghost predicate Reaches(f: Effects, e: Event, place: Location) {
    Owns(ActionsOf(f, e), place)
  }

  /** Nobody but the owner reaches the location. */
  ghost predicate OnlyOwner(f: Effects, t: Trace, inputs: Inputs, owner: Owner, place: Location) {
    forall e :: e in t && Reaches(f, e, place) ==> ActsFor(e, inputs, owner)
  }

  /** Where one owner reaches, nobody else does. */
  ghost predicate OwnersApart(f: Effects, t: Trace, inputs: Inputs) {
    forall e, owner, place :: e in t && ActsFor(e, inputs, owner) && Reaches(f, e, place) ==>
      OnlyOwner(f, t, inputs, owner, place)
  }

  // ----- concatenated actions -----

  lemma {:induction false} ForwardConcat(a: seq<Action>, b: seq<Action>, host: Host)
    ensures Forward(a + b, host).0 == Forward(b, Forward(a, host).0).0
    ensures Forward(a + b, host).1 == Forward(a, host).1 + Forward(b, Forward(a, host).0).1
  {
    if a == [] {
      assert a + b == b;
    } else {
      var all, next := a + b, a[0].apply(host);
      assert all[0] == a[0] && all[1..] == a[1..] + b;
      ForwardConcat(a[1..], b, next);
      var entry := [JournalEntry(a[0].claim, Snapshot(a[0].claim, host))];
      assert Forward(a, host).1 == entry + Forward(a[1..], next).1;
      assert Forward(all, host).1 == entry + Forward(all[1..], next).1;
    }
  }

  lemma OwnsConcat(a: seq<Action>, b: seq<Action>, place: Location)
    ensures Owns(a + b, place) <==> Owns(a, place) || Owns(b, place)
  {
    if Owns(a, place) {
      var k :| 0 <= k < |a| && Covers(a[k].claim, place);
      assert Covers((a + b)[k].claim, place);
    }
    if Owns(b, place) {
      var k :| 0 <= k < |b| && Covers(b[k].claim, place);
      assert Covers((a + b)[|a| + k].claim, place);
    }
  }

  /** What an owner reaches, some event of it reaches. */
  lemma {:induction false} ReachedByEvent(f: Effects, t: Trace, inputs: Inputs, owner: Owner, place: Location)
    ensures Owns(ActionsFor(f, t, inputs, owner), place) <==>
      exists e :: e in t && ActsFor(e, inputs, owner) && Reaches(f, e, place)
  {
    if t != [] {
      var e, before := t[|t| - 1], t[..|t| - 1];
      assert t == before + [e];
      ReachedByEvent(f, before, inputs, owner, place);
      var acts := if ActsFor(e, inputs, owner) then ActionsOf(f, e) else [];
      OwnsConcat(ActionsFor(f, before, inputs, owner), acts, place);
    }
  }

  lemma {:induction false} AllActionsConfined(f: Effects, t: Trace, inputs: Inputs, owner: Owner)
    requires TraceConfined(f, t)
    ensures AllConfined(ActionsFor(f, t, inputs, owner))
  {
    if t != [] {
      assert t[|t| - 1] in t;
      assert forall e :: e in t[..|t| - 1] ==> e in t;
      AllActionsConfined(f, t[..|t| - 1], inputs, owner);
    }
  }

  // ----- an owner acts as if it ran alone -----

  /** At a location nobody else reaches, the run does what the owner alone does. */
  lemma {:induction false} AsIfAlone(f: Effects, t: Trace, inputs: Inputs, owner: Owner, host: Host, place: Location)
    requires TraceConfined(f, t) && OwnersApart(f, t, inputs) && OnlyOwner(f, t, inputs, owner, place)
    ensures SameAt(HostAfter(f, t, host), Forward(ActionsFor(f, t, inputs, owner), host).0, place)
  {
    if t != [] {
      var e, before := t[|t| - 1], t[..|t| - 1];
      Shorter(f, t, inputs);
      var acts, mine := ActionsOf(f, e), ActionsFor(f, before, inputs, owner);
      var now, alone := HostAfter(f, before, host), Forward(mine, host).0;
      assert OnlyOwner(f, before, inputs, owner, place);
      AsIfAlone(f, before, inputs, owner, host, place);
      if ActsFor(e, inputs, owner) {
        forall p | Owns(acts, p) ensures SameAt(now, alone, p) {
          assert Reaches(f, e, p) && OnlyOwner(f, t, inputs, owner, p);
          assert OnlyOwner(f, before, inputs, owner, p);
          AsIfAlone(f, before, inputs, owner, host, p);
        }
        ForwardConcat(mine, acts, host);
        ForwardConfined(acts, now, alone, place);
        ForwardConfined(acts, now, now, place);
      } else {
        assert !Reaches(f, e, place);
        ForwardConfined(acts, now, now, place);
        assert mine + [] == mine;
      }
    }
  }

  lemma Shorter(f: Effects, t: Trace, inputs: Inputs)
    requires t != [] && TraceConfined(f, t) && OwnersApart(f, t, inputs)
    ensures t[|t| - 1] in t && TraceConfined(f, t[..|t| - 1]) && OwnersApart(f, t[..|t| - 1], inputs)
    ensures forall e :: e in t[..|t| - 1] ==> e in t
  {
    var before := t[..|t| - 1];
    forall e, owner, place | e in before && ActsFor(e, inputs, owner) && Reaches(f, e, place)
      ensures OnlyOwner(f, before, inputs, owner, place)
    {
      assert e in t && OnlyOwner(f, t, inputs, owner, place);
    }
  }

  // ----- what a run promises makes its owners keep apart -----

  /** Each owner's actions keep to the claims registered for it. */
  ghost predicate KeepsToClaims(f: Effects, t: Trace, inputs: Inputs, claims: seq<OwnedClaim>) {
    forall e, owner, place :: e in t && ActsFor(e, inputs, owner) && Reaches(f, e, place) ==>
      Holds(claims, owner, place)
  }

  ghost predicate LawfulRun(t: Trace, inputs: Inputs, claims: seq<OwnedClaim>, state: CollisionState) {
    && StateReports(state, claims, inputs)
    && (forall i: nat :: Transact(i) in t ==> !Contested(claims, Generation(i)))
    && LanesRan(t, inputs.lanes, |inputs.lanes|, state, true) && OrdinaryRan(t, |inputs.ordinary|, state, true)
  }

  lemma LawfulOwnersApart(f: Effects, t: Trace, inputs: Inputs, claims: seq<OwnedClaim>, state: CollisionState)
    requires LawfulRun(t, inputs, claims, state) && KeepsToClaims(f, t, inputs, claims)
    ensures OwnersApart(f, t, inputs)
  {
    LawfulIsNamed(f, t, inputs, claims, state);
    forall e, owner, place, other |
      e in t && ActsFor(e, inputs, owner) && Reaches(f, e, place) && other in t && Reaches(f, other, place)
      ensures ActsFor(other, inputs, owner)
    {
      var name := OwnerOf(other, inputs);
      ActsMeansActed(t, inputs, e, owner);
      ActsMeansActed(t, inputs, other, name);
      if name != owner {
        ActedOwnersNeverMeet(t, claims, inputs, state, true, owner, name, place);
      }
    }
  }

  lemma ActsMeansActed(t: Trace, inputs: Inputs, e: Event, owner: Owner)
    requires e in t && ActsFor(e, inputs, owner)
    ensures Acted(t, inputs, owner)
  {
  }

  /** Every event that reaches the host acts for some owner. */
  ghost predicate Named(f: Effects, t: Trace, inputs: Inputs) {
    forall e, place :: e in t && Reaches(f, e, place) ==> ActsFor(e, inputs, OwnerOf(e, inputs))
  }

  lemma LawfulIsNamed(f: Effects, t: Trace, inputs: Inputs, claims: seq<OwnedClaim>, state: CollisionState)
    requires LawfulRun(t, inputs, claims, state)
    ensures Named(f, t, inputs)
  {
  }

  // ----- undoing one owner -----

  /** In the middle of the run an owner records what it would have recorded alone. */
  lemma {:induction false} JournalAsIfAlone(f: Effects, t: Trace, inputs: Inputs, owner: Owner, host: Host)
    requires TraceConfined(f, t) && OwnersApart(f, t, inputs)
    ensures JournalFor(f, t, inputs, owner, host) == Forward(ActionsFor(f, t, inputs, owner), host).1
  {
    if t != [] {
      var e, before := t[|t| - 1], t[..|t| - 1];
      Shorter(f, t, inputs);
      JournalAsIfAlone(f, before, inputs, owner, host);
      var mine := ActionsFor(f, before, inputs, owner);
      if ActsFor(e, inputs, owner) {
        var acts, now, alone := ActionsOf(f, e), HostAfter(f, before, host), Forward(mine, host).0;
        forall p | Owns(acts, p) ensures SameAt(now, alone, p) {
          assert Reaches(f, e, p) && OnlyOwner(f, t, inputs, owner, p);
          assert OnlyOwner(f, before, inputs, owner, p);
          AsIfAlone(f, before, inputs, owner, host, p);
        }
        ForwardConcat(mine, acts, host);
        SameJournal(acts, now, alone);
      } else {
        assert mine + [] == mine;
      }
    }
  }

  /** Hosts that agree where the actions reach give one journal. */
  lemma {:induction false} SameJournal(actions: seq<Action>, g: Host, h: Host)
    requires AllConfined(actions) && AgreeOn(actions, g, h)
    ensures Forward(actions, g).1 == Forward(actions, h).1
  {
    if actions != [] {
      var a, rest := actions[0], actions[1..];
      assert Confined(a);
      forall p | Covers(a.claim, p) ensures SameAt(g, h, p) { OwnsFirstOrRest(actions, p); }
      assert Snapshot(a.claim, g) == Snapshot(a.claim, h) by { SameSnapshot(a.claim, g, h); }
      forall p | Owns(rest, p) ensures SameAt(a.apply(g), a.apply(h), p) {
        OwnsFirstOrRest(actions, p);
        assert SameAt(g, h, p);
        if !Covers(a.claim, p) { assert SameAt(g, a.apply(g), p) && SameAt(h, a.apply(h), p); }
      }
      SameJournal(rest, a.apply(g), a.apply(h));
    }
  }

  lemma SameSnapshot(claim: string, g: Host, h: Host)
    requires forall p :: Covers(claim, p) ==> SameAt(g, h, p)
    ensures Snapshot(claim, g) == Snapshot(claim, h)
  {
    var a, b := Snapshot(claim, g), Snapshot(claim, h);
    forall p ensures p in a <==> p in b { assert Covers(claim, p) ==> SameAt(g, h, p); }
    forall p | p in a ensures a[p] == b[p] { assert SameAt(g, h, p); }
  }

  lemma {:induction false} WithoutHas(t: Trace, inputs: Inputs, owner: Owner, e: Event)
    ensures e in Without(t, inputs, owner) <==> e in t && !ActsFor(e, inputs, owner)
  {
    if t != [] {
      var before := t[..|t| - 1];
      assert t == before + [t[|t| - 1]];
      WithoutHas(before, inputs, owner, e);
    }
  }

  lemma {:induction false} WithoutKeeps(f: Effects, t: Trace, inputs: Inputs, owner: Owner, other: Owner)
    ensures ActionsFor(f, Without(t, inputs, owner), inputs, other) ==
      if other == owner then [] else ActionsFor(f, t, inputs, other)
  {
    if t != [] {
      var e, before := t[|t| - 1], t[..|t| - 1];
      WithoutKeeps(f, before, inputs, owner, other);
      var rest := Without(before, inputs, owner);
      assert (rest + [e])[..|rest|] == rest && rest + [] == rest;
      var acts := ActionsFor(f, before, inputs, other);
      assert acts + [] == acts;
    }
  }

  lemma SameHost(a: Host, b: Host)
    requires forall place :: SameAt(a, b, place)
    ensures a == b
  {
    forall place ensures place in a <==> place in b { assert SameAt(a, b, place); }
    forall place | place in a ensures a[place] == b[place] { assert SameAt(a, b, place); }
  }

  /** Where an owner reaches, the run ends as the owner alone. */
  lemma OwnPlaces(f: Effects, t: Trace, inputs: Inputs, owner: Owner, host: Host)
    requires TraceConfined(f, t) && OwnersApart(f, t, inputs)
    ensures var mine := ActionsFor(f, t, inputs, owner);
      AgreeOn(mine, Forward(mine, host).0, HostAfter(f, t, host))
  {
    var mine := ActionsFor(f, t, inputs, owner);
    forall p | Owns(mine, p) ensures SameAt(Forward(mine, host).0, HostAfter(f, t, host), p) {
      ReachedByEvent(f, t, inputs, owner, p);
      AsIfAlone(f, t, inputs, owner, host, p);
    }
  }

  /** Replaying one owner's journal backwards after the whole run gives the host of the run without it. */
  lemma UndoAfterRun(f: Effects, t: Trace, inputs: Inputs, claims: seq<OwnedClaim>, state: CollisionState,
    owner: Owner, host: Host)
    requires LawfulRun(t, inputs, claims, state) && KeepsToClaims(f, t, inputs, claims) && TraceConfined(f, t)
    ensures Undo(JournalFor(f, t, inputs, owner, host), HostAfter(f, t, host)) ==
      HostAfter(f, Without(t, inputs, owner), host)
  {
    LawfulOwnersApart(f, t, inputs, claims, state);
    LawfulIsNamed(f, t, inputs, claims, state);
    JournalAsIfAlone(f, t, inputs, owner, host);
    AllActionsConfined(f, t, inputs, owner);
    var end, mine := HostAfter(f, t, host), ActionsFor(f, t, inputs, owner);
    var undone, without := Undo(Forward(mine, host).1, end), HostAfter(f, Without(t, inputs, owner), host);
    OwnPlaces(f, t, inputs, owner, host);
    forall place ensures SameAt(undone, without, place) {
      UndoRestores(mine, host, end, place);
      WithoutAt(f, t, inputs, owner, host, place);
    }
    SameHost(undone, without);
  }

  /** Without the owner: its places as they were, every other place as after the whole run. */
  lemma WithoutAt(f: Effects, t: Trace, inputs: Inputs, owner: Owner, host: Host, place: Location)
    requires TraceConfined(f, t) && OwnersApart(f, t, inputs) && Named(f, t, inputs)
    ensures SameAt(HostAfter(f, Without(t, inputs, owner), host),
      if Owns(ActionsFor(f, t, inputs, owner), place) then host else HostAfter(f, t, host), place)
  {
    ReachedByEvent(f, t, inputs, owner, place);
    if Owns(ActionsFor(f, t, inputs, owner), place) {
      WithoutAlone(f, t, inputs, owner, owner, host, place);
    } else if e :| e in t && Reaches(f, e, place) {
      var other := OwnerOf(e, inputs);
      assert OnlyOwner(f, t, inputs, other, place);
      AsIfAlone(f, t, inputs, other, host, place);
      WithoutAlone(f, t, inputs, owner, other, host, place);
    } else {
      AsIfAlone(f, t, inputs, owner, host, place);
      WithoutAlone(f, t, inputs, owner, owner, host, place);
      UnreachedAlone(f, t, inputs, owner, host, place);
    }
  }

  lemma WithoutAlone(f: Effects, t: Trace, inputs: Inputs, owner: Owner, other: Owner, host: Host, place: Location)
    requires TraceConfined(f, t) && OwnersApart(f, t, inputs) && OnlyOwner(f, t, inputs, other, place)
    ensures var alone := if other == owner then host else Forward(ActionsFor(f, t, inputs, other), host).0;
      SameAt(HostAfter(f, Without(t, inputs, owner), host), alone, place)
  {
    var rest := Without(t, inputs, owner);
    forall e ensures e in rest ==> e in t { WithoutHas(t, inputs, owner, e); }
    FewerApart(f, t, rest, inputs);
    WithoutKeeps(f, t, inputs, owner, other);
    AsIfAlone(f, rest, inputs, other, host, place);
  }

  lemma UnreachedAlone(f: Effects, t: Trace, inputs: Inputs, owner: Owner, host: Host, place: Location)
    requires TraceConfined(f, t) && !Owns(ActionsFor(f, t, inputs, owner), place)
    ensures SameAt(host, Forward(ActionsFor(f, t, inputs, owner), host).0, place)
  {
    AllActionsConfined(f, t, inputs, owner);
    ForwardConfined(ActionsFor(f, t, inputs, owner), host, host, place);
  }

  lemma FewerApart(f: Effects, t: Trace, rest: Trace, inputs: Inputs)
    requires OwnersApart(f, t, inputs) && forall e :: e in rest ==> e in t
    ensures OwnersApart(f, rest, inputs)
  {
    forall e, owner, place | e in rest && ActsFor(e, inputs, owner) && Reaches(f, e, place)
      ensures OnlyOwner(f, rest, inputs, owner, place)
    {
      assert OnlyOwner(f, t, inputs, owner, place);
    }
  }

  // ----- reordering owners -----

  /** The same events, each owner's actions in the same order; owners may take turns differently. */
  ghost predicate Rearranged(f: Effects, t: Trace, u: Trace, inputs: Inputs) {
    (forall e :: e in t <==> e in u) && forall o :: ActionsFor(f, t, inputs, o) == ActionsFor(f, u, inputs, o)
  }

  /** In whatever order the owners take their turns, interleaved or not, the host is the same. */
  lemma TurnsAreIrrelevant(f: Effects, t: Trace, u: Trace, inputs: Inputs, claims: seq<OwnedClaim>,
    state: CollisionState, host: Host)
    requires LawfulRun(t, inputs, claims, state) && KeepsToClaims(f, t, inputs, claims) && TraceConfined(f, t)
    requires Rearranged(f, t, u, inputs)
    ensures HostAfter(f, t, host) == HostAfter(f, u, host)
  {
    LawfulOwnersApart(f, t, inputs, claims, state);
    LawfulIsNamed(f, t, inputs, claims, state);
    FewerApart(f, t, u, inputs);
    var a, b := HostAfter(f, t, host), HostAfter(f, u, host);
    forall place ensures SameAt(a, b, place) {
      var owner := Ordinary(0);
      if e :| e in t && Reaches(f, e, place) { owner := OwnerOf(e, inputs); }
      assert OnlyOwner(f, t, inputs, owner, place);
      AsIfAlone(f, t, inputs, owner, host, place);
      AsIfAlone(f, u, inputs, owner, host, place);
    }
    SameHost(a, b);
  }

  // ----- every run of the executor -----

  /** A run under the guard has what the laws above ask of it. */
  lemma RunsAreLawful(run: RestoreRun, exit: Exit, inputs: Inputs, start: seq<PlanSet>, state: CollisionState)
    requires run.LiveRan(exit, inputs, start, state)
    ensures LawfulRun(run.log, inputs, run.claims, state)
  {
    if exit in {IntentFailed, StoppedEarly} { NothingBegan(run.log, inputs, state); }
  }

  lemma NothingBegan(t: Trace, inputs: Inputs, state: CollisionState)
    requires !LegacyBegan(t)
    ensures LanesRan(t, inputs.lanes, |inputs.lanes|, state, true) && OrdinaryRan(t, |inputs.ordinary|, state, true)
  {
    assert forall e :: e in t ==> KindOf(e) != LegacyKind;
  }
}
