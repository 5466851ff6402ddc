/** What the collision pass buys: actions confined to disjoint claims commute, and one owner's
  * journal can be replayed backwards at any later time without touching anybody else's result. */
module HostEffects {
  import opened Claims
  import opened Collisions

  type Host = map<Location, string>

  /** One restore action: it may read and write only below its claim. */
  datatype Action = Action(claim: string, apply: Host -> Host)

  datatype JournalEntry = JournalEntry(claim: string, prior: Host)

  ghost predicate SameAt(g: Host, h: Host, place: Location) {
    (place in g <==> place in h) && (place in g ==> g[place] == h[place])
  }

  ghost predicate Confined(a: Action) {
    && (forall h: Host, place :: !Covers(a.claim, place) ==> SameAt(h, a.apply(h), place))
    && (forall g: Host, h: Host, place ::
         Covers(a.claim, place) && (forall p :: Covers(a.claim, p) ==> SameAt(g, h, p)) ==>
           SameAt(a.apply(g), a.apply(h), place))
  }

  ghost predicate AllConfined(actions: seq<Action>) {
    forall k :: 0 <= k < |actions| ==> Confined(actions[k])
  }

  ghost predicate Owns(actions: seq<Action>, place: Location) {
    exists k :: 0 <= k < |actions| && Covers(actions[k].claim, place)
  }

  ghost predicate AgreeOn(actions: seq<Action>, g: Host, h: Host) {
    forall place :: Owns(actions, place) ==> SameAt(g, h, place)
  }

  function Snapshot(claim: string, host: Host): Host {
    map place | place in host && Covers(claim, place) :: host[place]
  }

  /** Runs the actions in order, recording what each found under its claim. */
  function Forward(actions: seq<Action>, host: Host): (Host, seq<JournalEntry>) {
    if actions == [] then (host, [])
    else
      var (end, journal) := Forward(actions[1..], actions[0].apply(host));
      (end, [JournalEntry(actions[0].claim, Snapshot(actions[0].claim, host))] + journal)
  }

  function PutBack(entry: JournalEntry, host: Host): Host {
    (map place | place in host && !Covers(entry.claim, place) :: host[place]) + entry.prior
  }

  /** Replays a journal from its last entry to its first. */
  function Undo(journal: seq<JournalEntry>, host: Host): Host {
    if journal == [] then host else PutBack(journal[0], Undo(journal[1..], host))
  }

  lemma OwnsFirstOrRest(actions: seq<Action>, place: Location)
    requires actions != []
    ensures Owns(actions, place) <==> Covers(actions[0].claim, place) || Owns(actions[1..], place)
  {
    if Owns(actions[1..], place) {
      var k :| 0 <= k < |actions| - 1 && Covers(actions[1..][k].claim, place);
      assert Covers(actions[k + 1].claim, place);
    }
    if Owns(actions, place) && !Covers(actions[0].claim, place) {
      var k :| 0 <= k < |actions| && Covers(actions[k].claim, place);
      assert Covers(actions[1..][k - 1].claim, place);
    }
  }

  /** A whole owner is confined to its own footprint. */
  lemma {:induction false} ForwardConfined(actions: seq<Action>, g: Host, h: Host, place: Location)
    requires AllConfined(actions) && AgreeOn(actions, g, h)
    ensures !Owns(actions, place) ==> SameAt(h, Forward(actions, h).0, place)
    ensures Owns(actions, place) ==> SameAt(Forward(actions, g).0, Forward(actions, h).0, place)
  {
    if actions != [] {
      var a, rest := actions[0], actions[1..];
      var g1, h1 := a.apply(g), a.apply(h);
      assert Confined(a);
      OwnsFirstOrRest(actions, place);
      forall q | Covers(a.claim, q) ensures SameAt(g, h, q) { OwnsFirstOrRest(actions, q); }
      forall p | Owns(actions, p) ensures SameAt(g1, h1, p) {
        assert SameAt(g, h, p);
        if !Covers(a.claim, p) { assert SameAt(g, g1, p) && SameAt(h, h1, p); }
      }
      forall p | Owns(rest, p) ensures SameAt(g1, h1, p) { OwnsFirstOrRest(actions, p); }
      ForwardConfined(rest, g1, h1, place);
      ForwardConfined(rest, g1, g1, place);
    }
  }

  /** Undoing an owner brings back exactly what it found, in whatever host it is undone. */
  lemma {:induction false} UndoRestores(actions: seq<Action>, host: Host, later: Host, place: Location)
    requires AllConfined(actions) && AgreeOn(actions, Forward(actions, host).0, later)
    ensures SameAt(Undo(Forward(actions, host).1, later), if Owns(actions, place) then host else later, place)
  {
    if actions != [] {
      var a, rest := actions[0], actions[1..];
      var h1 := a.apply(host);
      assert Confined(a);
      forall p | Owns(rest, p) ensures SameAt(Forward(rest, h1).0, later, p) { OwnsFirstOrRest(actions, p); }
      UndoRestores(rest, h1, later, place);
      OwnsFirstOrRest(actions, place);
      var journal := Forward(actions, host).1;
      assert journal[1..] == Forward(rest, h1).1;
    }
  }

  // ----- several owners -----

  ghost predicate Disjoint(a: seq<Action>, b: seq<Action>) {
    forall place :: !(Owns(a, place) && Owns(b, place))
  }

  ghost predicate PairwiseDisjoint(owners: seq<seq<Action>>) {
    forall i, j :: 0 <= i < j < |owners| ==> Disjoint(owners[i], owners[j])
  }

  ghost predicate AllOwnersConfined(owners: seq<seq<Action>>) {
    forall i :: 0 <= i < |owners| ==> AllConfined(owners[i])
  }

  /** An execution order: owner indices, none twice. */
  predicate IsOrder(owners: seq<seq<Action>>, order: seq<nat>) {
    && (forall k :: 0 <= k < |order| ==> order[k] < |owners|)
    && (forall j, k :: 0 <= j < k < |order| ==> order[j] != order[k])
  }

  function RunAll(owners: seq<seq<Action>>, order: seq<nat>, host: Host): Host
    requires IsOrder(owners, order)
  {
    if order == [] then host else RunAll(owners, order[1..], Forward(owners[order[0]], host).0)
  }

  /** Pointwise meaning of a whole run: the owner of a location acts on it as if it ran alone. */
  lemma {:induction false} RunAllAt(owners: seq<seq<Action>>, order: seq<nat>, host: Host, place: Location)
    requires IsOrder(owners, order) && PairwiseDisjoint(owners) && AllOwnersConfined(owners)
    ensures (forall k :: 0 <= k < |order| ==> !Owns(owners[order[k]], place)) ==>
      SameAt(RunAll(owners, order, host), host, place)
    ensures forall k :: 0 <= k < |order| && Owns(owners[order[k]], place) ==>
      SameAt(RunAll(owners, order, host), Forward(owners[order[k]], host).0, place)
  {
    if order != [] {
      var first := owners[order[0]];
      var next := Forward(first, host).0;
      RunAllAt(owners, order[1..], next, place);
      ForwardConfined(first, host, host, place);
      forall k | 0 <= k < |order| && Owns(owners[order[k]], place)
        ensures SameAt(RunAll(owners, order, host), Forward(owners[order[k]], host).0, place)
      {
        if k == 0 {
          forall j | 0 <= j < |order| - 1 ensures !Owns(owners[order[1..][j]], place) {
            assert order[1..][j] == order[j + 1];
          }
        } else {
          var it := owners[order[k]];
          assert order[1..][k - 1] == order[k];
          forall p | Owns(it, p) ensures SameAt(next, host, p) {
            ForwardConfined(first, host, host, p);
            assert Disjoint(first, it) || Disjoint(it, first);
          }
          ForwardConfined(it, next, host, place);
        }
      }
    }
  }

  /** Any two execution orders of the same owners leave the same host. */
  lemma OrderIrrelevant(owners: seq<seq<Action>>, one: seq<nat>, two: seq<nat>, host: Host)
    requires IsOrder(owners, one) && IsOrder(owners, two)
    requires forall k :: k in one <==> k in two
    requires PairwiseDisjoint(owners) && AllOwnersConfined(owners)
    ensures RunAll(owners, one, host) == RunAll(owners, two, host)
  {
    var a, b := RunAll(owners, one, host), RunAll(owners, two, host);
    forall place ensures SameAt(a, b, place) {
      RunAllAt(owners, one, host, place);
      RunAllAt(owners, two, host, place);
      if k :| 0 <= k < |one| && Owns(owners[one[k]], place) {
        assert one[k] in two;
        var j :| 0 <= j < |two| && two[j] == one[k];
      } else {
        forall j | 0 <= j < |two| ensures !Owns(owners[two[j]], place) {
          assert two[j] in one;
        }
      }
    }
    assert forall place :: place in a <==> SameAt(a, b, place) && place in b;
  }

  /** Undoing one owner after a whole run gives the run without that owner. */
  lemma UndoOneOwner(owners: seq<seq<Action>>, before: seq<nat>, me: nat, after: seq<nat>, host: Host)
    requires me < |owners|
    requires IsOrder(owners, before + [me] + after) && IsOrder(owners, before) && IsOrder(owners, after)
    requires IsOrder(owners, before + after)
    requires PairwiseDisjoint(owners) && AllOwnersConfined(owners)
    ensures var (mine, journal) := Forward(owners[me], RunAll(owners, before, host));
            Undo(journal, RunAll(owners, after, mine)) == RunAll(owners, before + after, host)
  {
    assert (before + [me] + after)[|before|] == me;
    var start := RunAll(owners, before, host);
    var (mine, journal) := Forward(owners[me], start);
    var end := RunAll(owners, after, mine);
    var undone, without := Undo(journal, end), RunAll(owners, before + after, host);
    forall k | 0 <= k < |after| ensures after[k] != me && Disjoint(owners[after[k]], owners[me]) {
      assert (before + [me] + after)[|before| + 1 + k] == after[k];
    }
    forall k | 0 <= k < |before| ensures before[k] != me && Disjoint(owners[before[k]], owners[me]) {
      assert (before + [me] + after)[k] == before[k];
    }
    forall p | Owns(owners[me], p) ensures SameAt(mine, end, p) { RunAllAt(owners, after, mine, p); }
    RunAllSplit(owners, before, after, host);
    forall place ensures SameAt(undone, without, place) {
      UndoRestores(owners[me], start, end, place);
      ForwardConfined(owners[me], start, start, place);
      RunAllAt(owners, after, mine, place);
      RunAllAt(owners, after, start, place);
      if k :| 0 <= k < |after| && Owns(owners[after[k]], place) {
        forall p | Owns(owners[after[k]], p) ensures SameAt(start, mine, p) {
          ForwardConfined(owners[me], start, start, p);
        }
        ForwardConfined(owners[after[k]], start, mine, place);
      }
    }
    assert forall place :: place in undone <==> SameAt(undone, without, place) && place in without;
  }

  lemma {:induction false} RunAllSplit(owners: seq<seq<Action>>, before: seq<nat>, after: seq<nat>, host: Host)
    requires IsOrder(owners, before) && IsOrder(owners, after) && IsOrder(owners, before + after)
    ensures RunAll(owners, before + after, host) == RunAll(owners, after, RunAll(owners, before, host))
  {
    if before == [] {
      assert before + after == after;
    } else {
      var rest := (before + after)[1..];
      assert rest == before[1..] + after;
      RunAllSplit(owners, before[1..], after, Forward(owners[before[0]], host).0);
    }
  }

  /** The owners the collision pass lets through are pairwise disjoint when each keeps to the claims
    * it registered, so the two laws above apply to every run. */
  lemma SurvivorsRunDisjoint(claims: seq<OwnedClaim>, names: seq<Owner>, owners: seq<seq<Action>>)
    requires |names| == |owners|
    requires forall i, j :: 0 <= i < j < |names| ==> names[i] != names[j]
    requires forall i :: 0 <= i < |names| ==> !Contested(claims, names[i])
    requires forall i, place :: 0 <= i < |names| && Owns(owners[i], place) ==> Holds(claims, names[i], place)
    ensures PairwiseDisjoint(owners)
  {
    forall i, j, place | 0 <= i < j < |owners|
      ensures !(Owns(owners[i], place) && Owns(owners[j], place))
    {
      SurvivorsDisjoint(claims, names[i], names[j], place);
    }
  }
}
