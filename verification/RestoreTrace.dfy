/** The observable trace of one restore run and the protocol every step of it must keep. */
module RestoreTrace {

  datatype Kind = ResolutionKind | ItemKind | LaneKind | StageKind | GuardKind | RootKind | SetKind | LegacyKind

  datatype Event =
    | Resolved(item: nat)              // resolution event of a generation set
    | Starting(item: nat)              // restore-item "restoring" events of a set
    | Items(item: nat)                 // restore-item result events of a set
    | LaneResolved(lane: nat)         // resolution event of a legacy lane
    | OpenStage(item: nat) | CloseStage(item: nat)
    | AcquireGuard | ReleaseGuard
    | CreateRoot(item: nat) | DiscardRoot(item: nat)
    | Intent(item: nat)                // the journal intent is durable
    | Transact(item: nat)              // the set's host mutation begins
    | Stop(item: nat)                  // the set's outcome forbids going on
    | RunLegacy(lane: nat, action: nat, live: bool)
    | RunOrdinary(action: nat, live: bool)
    | JournalLegacy

  type Trace = seq<Event>

  function KindOf(e: Event): Kind {
    match e
    case Resolved(_) => ResolutionKind
    case Starting(_) | Items(_) => ItemKind
    case LaneResolved(_) => LaneKind
    case OpenStage(_) | CloseStage(_) => StageKind
    case AcquireGuard | ReleaseGuard => GuardKind
    case CreateRoot(_) | DiscardRoot(_) => RootKind
    case Intent(_) | Transact(_) | Stop(_) => SetKind
    case RunLegacy(_, _, _) | RunOrdinary(_, _) | JournalLegacy => LegacyKind
  }

  ghost predicate Held(t: Trace) {
    AcquireGuard in t && ReleaseGuard !in t
  }

  ghost predicate StageOpen(t: Trace, i: nat) {
    OpenStage(i) in t && CloseStage(i) !in t
  }

  ghost predicate RootOpen(t: Trace, i: nat) {
    CreateRoot(i) in t && DiscardRoot(i) !in t
  }

  ghost predicate Stopped(t: Trace) {
    exists i: nat :: Stop(i) in t
  }

  ghost predicate LegacyBegan(t: Trace) {
    exists e :: e in t && KindOf(e) == LegacyKind
  }

  ghost predicate StagesClosed(t: Trace) {
    forall i: nat :: OpenStage(i) in t ==> CloseStage(i) in t
  }

  ghost predicate RootsDiscarded(t: Trace) {
    forall i: nat :: CreateRoot(i) in t ==> DiscardRoot(i) in t
  }

  /** May `e` follow `t`? This is the whole safety protocol, one step at a time. */
  ghost predicate Permitted(t: Trace, e: Event) {
    match e
    case Resolved(i) => Resolved(i) !in t
    case Starting(i) => Resolved(i) in t && Starting(i) !in t
    case Items(i) => Resolved(i) in t && Items(i) !in t
    case LaneResolved(k) => LaneResolved(k) !in t
    case OpenStage(i) => OpenStage(i) !in t
    case CloseStage(i) => StageOpen(t, i)
    case AcquireGuard => AcquireGuard !in t
    case ReleaseGuard => Held(t) && StagesClosed(t) && RootsDiscarded(t)
    case CreateRoot(i) => Held(t) && StageOpen(t, i) && CreateRoot(i) !in t
    case DiscardRoot(i) => Held(t) && RootOpen(t, i)
    case Intent(i) =>
      && Held(t) && StageOpen(t, i) && RootOpen(t, i)
      && !Stopped(t) && !LegacyBegan(t) && Intent(i) !in t
    case Transact(i) =>
      && Held(t) && StageOpen(t, i) && RootOpen(t, i)
      && Intent(i) in t && Resolved(i) in t
      && !Stopped(t) && !LegacyBegan(t)
      && forall j: nat :: Transact(j) in t ==> j < i
    case Stop(i) => CreateRoot(i) in t && !Stopped(t) && !LegacyBegan(t)
    case RunLegacy(k, a, live) =>
      && !Stopped(t) && (live ==> Held(t)) && LaneResolved(k) in t
      && (forall b: nat, l :: RunOrdinary(b, l) !in t)
      && (forall b: nat, l :: RunLegacy(k, b, l) in t ==> b < a)
    case RunOrdinary(a, live) =>
      && !Stopped(t) && (live ==> Held(t))
      && (forall b: nat, l :: RunOrdinary(b, l) in t ==> b < a)
    case JournalLegacy => Held(t) && !Stopped(t) && JournalLegacy !in t
  }

  ghost predicate StepPermitted(t: Trace, k: nat)
    requires k < |t|
  {
    Permitted(t[..k], t[k])
  }

  ghost predicate Protocol(t: Trace) {
    forall k: nat :: k < |t| ==> StepPermitted(t, k)
  }

  lemma ProtocolExtends(t: Trace, e: Event)
    requires Protocol(t) && Permitted(t, e)
    ensures Protocol(t + [e])
  {
    var u := t + [e];
    forall k: nat | k < |u| ensures StepPermitted(u, k) {
      assert k < |t| ==> StepPermitted(t, k);
      assert u[..k] == if k == |t| then t else t[..k];
    }
  }

  /** Nothing but events of one kind appeared or disappeared. */
  ghost predicate OnlyKind(before: Trace, after: Trace, kind: Kind) {
    forall e :: KindOf(e) != kind ==> (e in before <==> e in after)
  }

  // ----- what the protocol means for a whole trace -----

  lemma Earlier(t: Trace, j: nat, k: nat)
    requires j < k <= |t|
    ensures t[j] in t[..k] && forall e :: e in t[..j] ==> e in t[..k]
  {
    assert t[..k][j] == t[j];
    forall e | e in t[..j] ensures e in t[..k] {
      var m :| 0 <= m < j && t[..j][m] == e;
      assert t[..k][m] == e;
    }
  }

  /** Fail-stop: after an outcome that forbids going on, no set, lane or ordinary action runs. */
  lemma NothingRunsAfterStop(t: Trace, j: nat, k: nat)
    requires Protocol(t) && j < k < |t| && t[j].Stop?
    ensures !t[k].Transact? && !t[k].Intent? && !t[k].RunLegacy? && !t[k].RunOrdinary? && !t[k].JournalLegacy?
  {
    assert StepPermitted(t, k);
    Earlier(t, j, k);
  }

  /** Each set mutates the host at most once, in plan order, before every legacy action, and only
    * with its intent durable, its resolution announced, its stage and root still open, under the guard. */
  lemma MutationsAreOrdered(t: Trace, j: nat, k: nat)
    requires Protocol(t) && j < k < |t| && t[k].Transact?
    ensures t[j].Transact? ==> t[j].item < t[k].item
    ensures !t[j].RunLegacy? && !t[j].RunOrdinary?
    ensures Intent(t[k].item) in t[..k] && Resolved(t[k].item) in t[..k]
    ensures StageOpen(t[..k], t[k].item) && RootOpen(t[..k], t[k].item) && Held(t[..k])
  {
    var before, i := t[..k], t[k].item;
    assert StepPermitted(t, k) && t[k] == Transact(i);
    Earlier(t, j, k);
    if t[j].Transact? { assert t[j] == Transact(t[j].item); }
    assert !LegacyBegan(before) && KindOf(t[j]) != LegacyKind;
  }

  /** Legacy actions happen under the guard, lane by lane action in order and only after the lane was
    * announced, ahead of every ordinary action; the journal is written at most once, under the guard,
    * and in no run that stopped. */
  lemma LegacyActionsAreOrdered(t: Trace, j: nat, k: nat)
    requires Protocol(t) && j < k < |t|
    ensures t[k].RunLegacy? ==> LaneResolved(t[k].lane) in t[..k] && (t[k].live ==> Held(t[..k]))
    ensures t[k].RunLegacy? ==> !t[j].RunOrdinary? && !t[j].Stop?
    ensures t[k].RunLegacy? && t[j].RunLegacy? && t[j].lane == t[k].lane ==> t[j].action < t[k].action
    ensures t[k].RunOrdinary? && t[j].RunOrdinary? ==> t[j].action < t[k].action
    ensures t[k] == JournalLegacy ==> Held(t[..k]) && t[j] != JournalLegacy && !t[j].Stop?
  {
    assert StepPermitted(t, k);
    Earlier(t, j, k);
    if t[j].Stop? { assert Stop(t[j].item) in t[..k]; }
    if t[j].RunLegacy? { assert RunLegacy(t[j].lane, t[j].action, t[j].live) in t[..k]; }
    if t[j].RunOrdinary? { assert RunOrdinary(t[j].action, t[j].live) in t[..k]; }
  }

  /** Every set is resolved at most once, and before any of its restore-item events. */
  lemma ResolutionsComeFirst(t: Trace, j: nat, k: nat)
    requires Protocol(t) && j < |t| && k < |t|
    ensures t[j].Resolved? && t[k] == t[j] ==> j == k
    ensures t[j].Starting? || t[j].Items? ==> Resolved(t[j].item) in t[..j]
    ensures (t[j].Starting? || t[j].Items?) && t[k] == Resolved(t[j].item) ==> k < j
  {
    assert StepPermitted(t, j) && StepPermitted(t, k);
    if j < k { Earlier(t, j, k); }
    if k < j { Earlier(t, k, j); }
  }

  /** Stages and roots are given back at most once, and all of them before the guard is released. */
  lemma CleanupPrecedesRelease(t: Trace, j: nat, k: nat)
    requires Protocol(t) && j < k < |t|
    ensures t[j].CloseStage? || t[j].DiscardRoot? ==> t[k] != t[j]
    ensures t[j] == ReleaseGuard ==> !t[k].DiscardRoot? && !t[k].CreateRoot? && !t[k].Transact?
    ensures t[k] == ReleaseGuard && t[j].OpenStage? ==> CloseStage(t[j].item) in t[..k]
    ensures t[k] == ReleaseGuard && t[j].CreateRoot? ==> DiscardRoot(t[j].item) in t[..k]
  {
    assert StepPermitted(t, k) && StepPermitted(t, j);
    Earlier(t, j, k);
    if t[j].OpenStage? { assert OpenStage(t[j].item) in t[..k]; }
    if t[j].CreateRoot? { assert CreateRoot(t[j].item) in t[..k]; }
  }
}
