/** The ordered-substring test behind secret patterns: greedy search decides whether all parts occur in
  * order without overlap. */
module OrderedMatch {
  import opened Text

  predicate OccursAt(target: string, part: string, p: nat) {
    p + |part| <= |target| && target[p..p + |part|] == part
  }

  /** A position for every part, each beginning where the one before has ended or later. */
  ghost predicate Placement(target: string, parts: seq<string>, at: seq<nat>, from: nat) {
    && |at| == |parts|
    && (forall k :: 0 <= k < |parts| ==> OccursAt(target, parts[k], at[k]) && at[k] >= from)
    && forall j, k :: 0 <= j < k < |parts| ==> at[j] + |parts[j]| <= at[k]
  }

  ghost predicate Placeable(target: string, parts: seq<string>, from: nat) {
    exists at :: Placement(target, parts, at, from)
  }

  predicate IsSlash(c: char) { c == '/' }

  /** The parts that count: trimmed of slashes and not empty. */
  function Kept(parts: seq<string>): seq<string> {
    if parts == [] then []
    else (if Trim(parts[0], IsSlash) == "" then [] else [Trim(parts[0], IsSlash)]) + Kept(parts[1..])
  }

  /** The first occurrence at or after `from`. */
  function IndexFrom(target: string, part: string, from: nat): (p: int)
    requires from <= |target|
    ensures p == -1 ==> forall q: nat :: from <= q ==> !OccursAt(target, part, q)
    ensures p != -1 ==>
      from <= p && OccursAt(target, part, p) && forall q: nat :: from <= q < p ==> !OccursAt(target, part, q)
    decreases |target| - from
  {
    if OccursAt(target, part, from) then from
    else if from == |target| then -1
    else IndexFrom(target, part, from + 1)
  }

  /** Dropping the first part of a placement, and starting from the earliest occurrence instead. */
  lemma DropFirst(target: string, part: string, rest: seq<string>, from: nat, at: seq<nat>)
    requires from <= |target| && Placement(target, [part] + rest, at, from)
    ensures var p := IndexFrom(target, part, from); p != -1 && Placement(target, rest, at[1..], p + |part|)
  {
    var p := IndexFrom(target, part, from);
    var parts := [part] + rest;
    assert OccursAt(target, parts[0], at[0]) && p != -1 && p <= at[0];
    forall k | 0 <= k < |rest| ensures OccursAt(target, rest[k], at[1..][k]) && at[1..][k] >= p + |part| {
      assert rest[k] == parts[k + 1] && at[1..][k] == at[k + 1];
      assert at[0] + |parts[0]| <= at[k + 1];
    }
    forall j, k | 0 <= j < k < |rest| ensures at[1..][j] + |rest[j]| <= at[1..][k] {
      assert at[j + 1] + |parts[j + 1]| <= at[k + 1];
    }
  }

  lemma AddFirst(target: string, part: string, rest: seq<string>, from: nat, p: nat, later: seq<nat>)
    requires from <= p && OccursAt(target, part, p) && Placement(target, rest, later, p + |part|)
    ensures Placement(target, [part] + rest, [p] + later, from)
  {
    var parts, at := [part] + rest, [p] + later;
    forall k | 0 <= k < |parts| ensures OccursAt(target, parts[k], at[k]) && at[k] >= from {
      assert k > 0 ==> parts[k] == rest[k - 1] && at[k] == later[k - 1];
    }
    forall j, k | 0 <= j < k < |parts| ensures at[j] + |parts[j]| <= at[k] {
      assert parts[k] == rest[k - 1] && at[k] == later[k - 1];
      assert j > 0 ==> later[j - 1] + |rest[j - 1]| <= later[k - 1];
    }
  }

  /** The earliest occurrence of the first part leaves the most room for the rest. */
  lemma GreedyStep(target: string, part: string, rest: seq<string>, from: nat)
    requires from <= |target|
    ensures var p := IndexFrom(target, part, from);
      Placeable(target, [part] + rest, from) <==> p != -1 && Placeable(target, rest, p + |part|)
  {
    var p := IndexFrom(target, part, from);
    if at :| Placement(target, [part] + rest, at, from) { DropFirst(target, part, rest, from, at); }
    if p != -1 && Placeable(target, rest, p + |part|) {
      var later :| Placement(target, rest, later, p + |part|);
      AddFirst(target, part, rest, from, p, later);
    }
  }

  method ContainsOrdered(target: string, parts: seq<string>) returns (found: bool)
    ensures found <==> Placeable(target, Kept(parts), 0)
  {
    var index: nat := 0;
    for n := 0 to |parts|
      invariant index <= |target|
      invariant Placeable(target, Kept(parts[n..]), index) <==> Placeable(target, Kept(parts), 0)
    {
      assert parts[n..][0] == parts[n] && parts[n..][1..] == parts[n + 1..];
      var part := Trim(parts[n], IsSlash);
      if part != "" {
        GreedyStep(target, part, Kept(parts[n + 1..]), index);
        var p := IndexFrom(target, part, index);
        if p < 0 {
          return false;
        }
        index := p + |part|;
      } else {
        assert Kept(parts[n..]) == Kept(parts[n + 1..]);
      }
    }
    assert Placement(target, [], [], index);
    return true;
  }

  // ----- what is searched for -----

  /** The text is made of the parts in order, with anything before, between and behind them. */
  ghost predicate Holds(target: string, parts: seq<string>)
    decreases |parts|
  {
    parts == [] || exists front: string, back: string :: target == front + parts[0] + back && Holds(back, parts[1..])
  }

  lemma TailPlacement(target: string, part: string, rest: seq<string>, at: seq<nat>, from: nat)
    requires Placement(target, [part] + rest, at, from)
    ensures OccursAt(target, part, at[0]) && at[0] >= from && Placement(target, rest, at[1..], at[0] + |part|)
  {
    var parts := [part] + rest;
    assert parts[0] == part;
    forall k | 0 <= k < |rest| ensures OccursAt(target, rest[k], at[1..][k]) && at[1..][k] >= at[0] + |part| {
      assert rest[k] == parts[k + 1] && at[1..][k] == at[k + 1] && at[0] + |parts[0]| <= at[k + 1];
    }
    forall j, k | 0 <= j < k < |rest| ensures at[1..][j] + |rest[j]| <= at[1..][k] {
      assert at[j + 1] + |parts[j + 1]| <= at[k + 1];
    }
  }

  lemma SplitAt(target: string, part: string, from: nat, p: nat)
    requires from <= p && OccursAt(target, part, p)
    ensures target[from..] == target[from..p] + part + target[p + |part|..]
  {
  }

  lemma JoinAt(target: string, part: string, from: nat, front: string, back: string)
    requires from <= |target| && target[from..] == front + part + back
    ensures var p := from + |front|; OccursAt(target, part, p) && back == target[p + |part|..]
  {
    var whole, p := front + part + back, from + |front|;
    assert whole[|front|..|front| + |part|] == part && whole[|front| + |part|..] == back;
    assert target[p..p + |part|] == target[from..][|front|..|front| + |part|];
    assert target[p + |part|..] == target[from..][|front| + |part|..];
  }

  lemma {:induction false} PlacedHolds(target: string, parts: seq<string>, at: seq<nat>, from: nat)
    requires from <= |target| && Placement(target, parts, at, from)
    ensures Holds(target[from..], parts)
    decreases |parts|
  {
    if parts != [] {
      var part, rest, p := parts[0], parts[1..], at[0];
      assert parts == [part] + rest;
      TailPlacement(target, part, rest, at, from);
      PlacedHolds(target, rest, at[1..], p + |part|);
      SplitAt(target, part, from, p);
    }
  }

  lemma {:induction false} HeldPlaces(target: string, parts: seq<string>, from: nat) returns (at: seq<nat>)
    requires from <= |target| && Holds(target[from..], parts)
    ensures Placement(target, parts, at, from)
    decreases |parts|
  {
    at := [];
    if parts != [] {
      var front: string, back: string :| target[from..] == front + parts[0] + back && Holds(back, parts[1..]);
      JoinAt(target, parts[0], from, front, back);
      var p := from + |front|;
      var later := HeldPlaces(target, parts[1..], p + |parts[0]|);
      AddFirst(target, parts[0], parts[1..], from, p, later);
      assert parts == [parts[0]] + parts[1..];
      at := [p] + later;
    }
  }

  /** Placing the parts is nothing else. */
  lemma PlaceableExactly(target: string, parts: seq<string>)
    ensures Placeable(target, parts, 0) <==> Holds(target, parts)
  {
    assert target[0..] == target;
    if at :| Placement(target, parts, at, 0) { PlacedHolds(target, parts, at, 0); }
    if Holds(target, parts) { var at := HeldPlaces(target, parts, 0); }
  }

  /** A pattern is split into its parts without the slashes around them, and parts of slashes alone do not count. */
  lemma KeptExactly(before: string, inner: string, after: string, rest: seq<string>)
    requires forall c :: c in before || c in after ==> c == '/'
    requires inner == "" || (inner[0] != '/' && inner[|inner| - 1] != '/')
    ensures Kept([before + inner + after] + rest) == (if inner == "" then [] else [inner]) + Kept(rest)
  {
    var part := before + inner + after;
    assert ([part] + rest)[0] == part && ([part] + rest)[1..] == rest;
    if inner == "" {
      assert forall i :: 0 <= i < |part| ==> part[i] in before || part[i] in after;
      OnlySlashes(part);
    } else {
      TrimExactly(before, inner, after, IsSlash);
    }
  }

  lemma {:induction false} OnlySlashes(text: string)
    requires forall i :: 0 <= i < |text| ==> text[i] == '/'
    ensures TrimLeft(text, IsSlash) == "" && Trim(text, IsSlash) == ""
  {
    if text != "" { OnlySlashes(text[1..]); }
  }
}
