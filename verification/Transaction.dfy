/** One config set's transaction: verify the recorded prior state, mutate action by action, validate,
  * publish a committed marker, and on any failure roll back what was touched. Every I/O step may
  * fail, and a mutation may leave anything inside its own footprint; what the steps answer are facts
  * of the run, and the contracts say which facts lead to which outcome. */
module Transaction {
  import opened ConfigPlan

  type Path = string
  type Digest = string
  type Host = map<Path, Digest>

  const DIRECTORY: Digest := "directory"

  function At(host: Host, p: Path): Option<Digest> {
    if p in host then Some(host[p]) else None
  }

  datatype JournalAction = JournalAction(
    target: Path, prior: Option<Digest>, desired: Option<Digest>, missingParents: seq<Path>)
  {
    function Footprint(): set<Path> {
      {target} + set p | p in missingParents
    }

    /** The recorded state before the action: target as snapshotted, missing parents still missing. */
    predicate IsPrior(host: Host) {
      At(host, target) == prior && forall p :: p in missingParents ==> p !in host
    }

    predicate IsDesired(host: Host) {
      At(host, target) == desired && forall p :: p in missingParents ==> At(host, p) == Some(DIRECTORY)
    }
  }

  predicate AllPrior(actions: seq<JournalAction>, host: Host) {
    forall i :: 0 <= i < |actions| ==> actions[i].IsPrior(host)
  }

  predicate TargetsDesired(actions: seq<JournalAction>, host: Host) {
    forall i :: 0 <= i < |actions| ==> At(host, actions[i].target) == actions[i].desired
  }

  /** What materialization guarantees: no target lies in the footprint of another action. */
  predicate Separate(actions: seq<JournalAction>) {
    forall i, j :: 0 <= i < |actions| && 0 <= j < |actions| && i != j ==>
      actions[i].target !in actions[j].Footprint()
  }

  predicate InFootprint(actions: seq<JournalAction>, p: Path) {
    exists i :: 0 <= i < |actions| && p in actions[i].Footprint()
  }

  ghost predicate SameOutside(actions: seq<JournalAction>, g: Host, h: Host) {
    forall p :: !InFootprint(actions, p) ==> At(g, p) == At(h, p)
  }

  /** Two hosts that agree outside the footprints and both show the recorded prior state are equal. */
  lemma PriorDeterminesHost(actions: seq<JournalAction>, g: Host, h: Host)
    requires SameOutside(actions, g, h) && AllPrior(actions, g) && AllPrior(actions, h)
    ensures g == h
  {
    forall p ensures At(g, p) == At(h, p) {
      if InFootprint(actions, p) {
        var i :| 0 <= i < |actions| && p in actions[i].Footprint();
        assert actions[i].IsPrior(g) && actions[i].IsPrior(h);
      }
    }
    assert forall p :: p in g <==> At(g, p).Some?;
    assert forall p :: p in h <==> At(h, p).Some?;
    assert forall p :: p in g ==> At(g, p) == At(h, p);
  }

  datatype Marker = Pending | Committed | RolledBackMarker | Aborted

  datatype TransactionResult = TransactionResult(status: Status, reason: Option<Reason>, failStop: bool)

  /** The results a transaction can end with. */
  predicate PossibleResult(r: TransactionResult) {
    && r.status in {Restored, RolledBack, RollbackFailed, Failed}
    && r.reason in {None, Some(CommitFailed), Some(TargetValidationFailed), Some(JournalCompletionFailed)}
    && (r.status in {Restored, RolledBack} ==> !r.failStop) && (r.status == RollbackFailed ==> r.failStop)
    && (r.status == Restored <==> r.reason == None)
  }

  type Report = r: TransactionResult | PossibleResult(r) witness TransactionResult(Restored, None, false)

  datatype Publication = Published | NotPublished | Ambiguous

  // ----- what the steps answer -----

  /** An action's turn: whether its checkpoint lets it begin, whether it touches the host and what it
    * leaves there, whether it reports success, and whether its failure leaves a publication in doubt. */
  datatype Step = Step(ready: bool, begins: bool, residue: Host, done: bool, inDoubt: bool)

  /** An attempt to undo an action. */
  datatype Undo = Undo(attempted: bool, residue: Host, reported: bool)

  /** An attempt to publish a marker; in doubt, it may or may not have reached the disk. */
  datatype Publishing = Publishing(outcome: Publication, onDisk: bool)

  datatype Facts = Facts(
    admitted: bool, step: nat -> Step, undo: nat -> Undo,
    committed: Publishing, aborted: Publishing, rolledBack: Publishing)

  /** The host after a mutation of an action's footprint. */
  function Mutated(host: Host, a: JournalAction, residue: Host): (after: Host)
    ensures forall p :: p !in a.Footprint() ==> At(after, p) == At(host, p)
    ensures forall p :: p in a.Footprint() ==> At(after, p) == At(residue, p)
  {
    (map p | p in host && p !in a.Footprint() :: host[p]) + (map p | p in residue && p in a.Footprint() :: residue[p])
  }

  /** The host when the turns of the first `k` actions are over. */
  function HostAt(f: Facts, actions: seq<JournalAction>, start: Host, k: nat): Host
    requires k <= |actions|
  {
    if k == 0 then start
    else
      var before := HostAt(f, actions, start, k - 1);
      if f.step(k - 1).begins then Mutated(before, actions[k - 1], f.step(k - 1).residue) else before
  }

  /** Action `k` gets as far as touching the host. */
  predicate Entered(f: Facts, actions: seq<JournalAction>, start: Host, k: nat)
    requires k < |actions|
  {
    f.step(k).ready && actions[k].IsPrior(HostAt(f, actions, start, k))
  }

  /** Action `k` reports success and the host then shows its desired state. */
  predicate Reached(f: Facts, actions: seq<JournalAction>, start: Host, k: nat)
    requires k < |actions|
  {
    Entered(f, actions, start, k) && f.step(k).done && actions[k].IsDesired(HostAt(f, actions, start, k + 1))
  }

  /** The first `n` actions reach their desired state, and the next one, if there is one, does not. */
  ghost predicate EndsAt(f: Facts, actions: seq<JournalAction>, start: Host, n: nat) {
    && n <= |actions| && (forall k: nat :: k < n ==> Reached(f, actions, start, k))
    && (n < |actions| ==> !Reached(f, actions, start, n))
  }

  lemma EndIsUnique(f: Facts, actions: seq<JournalAction>, start: Host, m: nat, n: nat)
    requires EndsAt(f, actions, start, m) && EndsAt(f, actions, start, n)
    ensures m == n
  {
  }

  /** Action `k` touched the host, when `n` is where the actions ended. */
  predicate Touched(f: Facts, actions: seq<JournalAction>, start: Host, n: nat, k: nat)
    requires n <= |actions|
  {
    k < |actions| && f.step(k).begins && (k < n || (k == n && Entered(f, actions, start, n)))
  }

  ghost predicate MutationBegan(f: Facts, actions: seq<JournalAction>, start: Host, n: nat)
    requires n <= |actions|
  {
    exists k: nat :: Touched(f, actions, start, n, k)
  }

  /** How many actions had a turn with the host. */
  function EndedTurns(f: Facts, actions: seq<JournalAction>, start: Host, n: nat): (turns: nat)
    requires n <= |actions|
    ensures turns <= |actions|
  {
    if n < |actions| && Entered(f, actions, start, n) then n + 1 else n
  }

  /** The host when the actions ended at `n`. */
  function HostEnded(f: Facts, actions: seq<JournalAction>, start: Host, n: nat): Host
    requires n <= |actions|
  {
    HostAt(f, actions, start, EndedTurns(f, actions, start, n))
  }

  predicate AllValid(validations: seq<bool>) {
    forall k :: 0 <= k < |validations| ==> validations[k]
  }

  /** Nothing stands in the way: every action reaches its desired state, every validation holds and the
    * committed marker is published. */
  ghost predicate Succeeds(f: Facts, actions: seq<JournalAction>, validations: seq<bool>, start: Host) {
    && f.admitted && AllPrior(actions, start)
    && (forall k: nat :: k < |actions| ==> Reached(f, actions, start, k))
    && AllValid(validations) && f.committed.outcome == Published
  }

  /** The failure leaves open whether something was published. */
  predicate InDoubt(f: Facts, actions: seq<JournalAction>, validations: seq<bool>, start: Host, n: nat)
    requires n <= |actions|
  {
    if n < |actions| then Entered(f, actions, start, n) && !f.step(n).done && f.step(n).inDoubt
    else AllValid(validations) && f.committed.outcome == Ambiguous
  }

  /** The host after undoing, last first, every touched action from the last one down to `k`. */
  function HostUndone(f: Facts, actions: seq<JournalAction>, start: Host, n: nat, k: nat): Host
    requires n <= |actions| && k <= |actions|
    decreases |actions| - k
  {
    if k == |actions| then HostEnded(f, actions, start, n)
    else
      var later := HostUndone(f, actions, start, n, k + 1);
      if Touched(f, actions, start, n, k) && f.undo(k).attempted
      then Mutated(later, actions[k], f.undo(k).residue) else later
  }

  /** The undoing of action `k` reports success and brings back what was recorded. */
  predicate UndoneAt(f: Facts, actions: seq<JournalAction>, start: Host, n: nat, k: nat)
    requires n <= |actions| && k < |actions|
  {
    f.undo(k).attempted && f.undo(k).reported && actions[k].IsPrior(HostUndone(f, actions, start, n, k))
  }

  /** Every touched action is undone, and in the end every action shows its prior state. */
  ghost predicate CleanlyUndone(f: Facts, actions: seq<JournalAction>, start: Host, n: nat)
    requires n <= |actions|
  {
    && (forall k: nat :: Touched(f, actions, start, n, k) ==> UndoneAt(f, actions, start, n, k))
    && AllPrior(actions, HostUndone(f, actions, start, n, 0))
  }

  /** Undoing that writes back what the transaction found is clean, and leaves the host as it was. */
  lemma WorkingUndoIsClean(f: Facts, actions: seq<JournalAction>, start: Host, n: nat)
    requires n <= |actions| && AllPrior(actions, start)
    requires forall k: nat :: Touched(f, actions, start, n, k) ==> f.undo(k) == Undo(true, start, true)
    ensures CleanlyUndone(f, actions, start, n) && HostUndone(f, actions, start, n, 0) == start
  {
    forall k: nat | k < |actions| && Touched(f, actions, start, n, k) ensures UndoneAt(f, actions, start, n, k) {
      forall p | p in actions[k].Footprint() ensures At(HostUndone(f, actions, start, n, k), p) == At(start, p) {
        BackSoFar(f, actions, start, n, k, p);
      }
      assert actions[k].IsPrior(start) && actions[k].target in actions[k].Footprint();
    }
    forall p ensures At(HostUndone(f, actions, start, n, 0), p) == At(start, p) {
      BackSoFar(f, actions, start, n, 0, p);
    }
    SameHost(HostUndone(f, actions, start, n, 0), start);
  }

  lemma SameHost(g: Host, h: Host)
    requires forall p :: At(g, p) == At(h, p)
    ensures g == h
  {
    assert forall p :: p in g <==> At(g, p).Some?;
    assert forall p :: p in h <==> At(h, p).Some?;
    assert forall p :: p in g ==> At(g, p) == At(h, p);
  }

  ghost predicate TouchedPlace(f: Facts, actions: seq<JournalAction>, start: Host, n: nat, from: nat, p: Path)
    requires n <= |actions|
  {
    exists j: nat :: from <= j && Touched(f, actions, start, n, j) && p in actions[j].Footprint()
  }

  /** A place of an action already undone, and one no action touched, is as the transaction found it. */
  lemma {:induction false} BackSoFar(f: Facts, actions: seq<JournalAction>, start: Host, n: nat, k: nat, p: Path)
    requires n <= |actions| && k <= |actions|
    requires forall j: nat :: Touched(f, actions, start, n, j) ==> f.undo(j) == Undo(true, start, true)
    ensures TouchedPlace(f, actions, start, n, k, p) || !TouchedPlace(f, actions, start, n, 0, p) ==>
      At(HostUndone(f, actions, start, n, k), p) == At(start, p)
    decreases |actions| - k
  {
    if k == |actions| {
      UntouchedPlace(f, actions, start, n, p);
    } else {
      BackSoFar(f, actions, start, n, k + 1, p);
      if TouchedPlace(f, actions, start, n, k, p) && !TouchedPlace(f, actions, start, n, k + 1, p) {
        var j: nat :| k <= j && Touched(f, actions, start, n, j) && p in actions[j].Footprint();
        assert j == k;
      }
    }
  }

  lemma UntouchedPlace(f: Facts, actions: seq<JournalAction>, start: Host, n: nat, p: Path)
    requires n <= |actions|
    ensures !TouchedPlace(f, actions, start, n, 0, p) ==> At(HostEnded(f, actions, start, n), p) == At(start, p)
  {
    if !TouchedPlace(f, actions, start, n, 0, p) {
      forall j: nat | Touched(f, actions, start, n, j) ensures p !in actions[j].Footprint() { }
      UntouchedAt(f, actions, start, EndedTurns(f, actions, start, n), p);
    }
  }

  lemma {:induction false} UntouchedAt(f: Facts, actions: seq<JournalAction>, start: Host, k: nat, p: Path)
    requires k <= |actions| && forall j: nat :: j < k && f.step(j).begins ==> p !in actions[j].Footprint()
    ensures At(HostAt(f, actions, start, k), p) == At(start, p)
  {
    if k > 0 { UntouchedAt(f, actions, start, k - 1, p); }
  }

  /** Nothing outside the footprints ever changes. */
  lemma ConfinedAt(f: Facts, actions: seq<JournalAction>, start: Host, k: nat)
    requires k <= |actions|
    ensures SameOutside(actions, start, HostAt(f, actions, start, k))
  {
    forall p | !InFootprint(actions, p) ensures At(start, p) == At(HostAt(f, actions, start, k), p) {
      UntouchedAt(f, actions, start, k, p);
    }
  }

  lemma ConfinedUndone(f: Facts, actions: seq<JournalAction>, start: Host, n: nat, k: nat)
    requires n <= |actions| && k <= |actions|
    ensures SameOutside(actions, start, HostUndone(f, actions, start, n, k))
  {
    forall p | !InFootprint(actions, p) ensures At(start, p) == At(HostUndone(f, actions, start, n, k), p) {
      forall j | 0 <= j < |actions| ensures p !in actions[j].Footprint() { }
      UndoneOutside(f, actions, start, n, k, p);
    }
  }

  lemma {:induction false} UndoneOutside(f: Facts, actions: seq<JournalAction>, start: Host, n: nat, k: nat, p: Path)
    requires n <= |actions| && k <= |actions| && forall j :: 0 <= j < |actions| ==> p !in actions[j].Footprint()
    ensures At(HostUndone(f, actions, start, n, k), p) == At(start, p)
    decreases |actions| - k
  {
    if k == |actions| {
      UntouchedAt(f, actions, start, EndedTurns(f, actions, start, n), p);
    } else {
      UndoneOutside(f, actions, start, n, k + 1, p);
    }
  }

  /** A clean rollback restores the whole host. */
  lemma CleanRestores(f: Facts, actions: seq<JournalAction>, start: Host, n: nat)
    requires n <= |actions| && AllPrior(actions, start) && CleanlyUndone(f, actions, start, n)
    ensures HostUndone(f, actions, start, n, 0) == start
  {
    ConfinedUndone(f, actions, start, n, 0);
    PriorDeterminesHost(actions, start, HostUndone(f, actions, start, n, 0));
  }

  /** If every action reached its desired state and none lies in another's footprint, they all show it. */
  lemma {:induction false} ReachedStays(f: Facts, actions: seq<JournalAction>, start: Host, k: nat)
    requires k <= |actions| && Separate(actions) && forall j: nat :: j < k ==> Reached(f, actions, start, j)
    ensures forall i: nat :: i < k ==> At(HostAt(f, actions, start, k), actions[i].target) == actions[i].desired
  {
    if k > 0 {
      ReachedStays(f, actions, start, k - 1);
      assert Reached(f, actions, start, k - 1);
      forall i: nat | i < k - 1 ensures actions[i].target !in actions[k - 1].Footprint() { }
    }
  }

  // ----- the outcome -----

  /** The aborted marker can be published: its step works, and no committed marker has reached the disk. */
  predicate CanAbort(f: Facts, actions: seq<JournalAction>, validations: seq<bool>, n: nat) {
    f.aborted.outcome == Published && !CommittedOnDisk(f, actions, validations, n)
  }

  /** The committed marker reached the disk although its publication is in doubt. */
  predicate CommittedOnDisk(f: Facts, actions: seq<JournalAction>, validations: seq<bool>, n: nat) {
    n == |actions| && AllValid(validations) && f.committed.outcome == Ambiguous && f.committed.onDisk
  }

  /** Nothing touched, nothing changed. */
  lemma UntouchedHost(f: Facts, actions: seq<JournalAction>, start: Host, n: nat)
    requires n <= |actions| && !MutationBegan(f, actions, start, n)
    ensures HostEnded(f, actions, start, n) == start && HostUndone(f, actions, start, n, 0) == start
  {
    forall p ensures At(HostEnded(f, actions, start, n), p) == At(start, p) { UntouchedPlace(f, actions, start, n, p); }
    SameHost(HostEnded(f, actions, start, n), start);
    NothingUndone(f, actions, start, n, 0);
  }

  lemma {:induction false} NothingUndone(f: Facts, actions: seq<JournalAction>, start: Host, n: nat, k: nat)
    requires n <= |actions| && k <= |actions| && !MutationBegan(f, actions, start, n)
    ensures HostUndone(f, actions, start, n, k) == HostEnded(f, actions, start, n)
    decreases |actions| - k
  {
    if k < |actions| { NothingUndone(f, actions, start, n, k + 1); }
  }

  /** The flags kept while committing say which actions touched the host. */
  ghost predicate Flags(touched: seq<bool>, f: Facts, actions: seq<JournalAction>, start: Host, n: nat)
    requires n <= |actions|
  {
    |touched| == |actions| && forall k: nat :: k < |actions| ==> (touched[k] <==> Touched(f, actions, start, n, k))
  }

  lemma BeganByFlags(touched: seq<bool>, f: Facts, actions: seq<JournalAction>, start: Host, n: nat)
    requires n <= |actions| && Flags(touched, f, actions, start, n)
    ensures MutationBegan(f, actions, start, n) <==> exists k :: 0 <= k < |touched| && touched[k]
  {
    if k: nat :| Touched(f, actions, start, n, k) { assert touched[k]; }
    if k :| 0 <= k < |touched| && touched[k] { assert Touched(f, actions, start, n, k); }
  }

  /** When a transaction that was admitted, over the recorded prior state, ends how. */
  ghost predicate EndsAs(f: Facts, actions: seq<JournalAction>, validations: seq<bool>, start: Host, n: nat,
    r: TransactionResult)
    requires n <= |actions|
  {
    var succeeds, began := Succeeds(f, actions, validations, start), MutationBegan(f, actions, start, n);
    var undone := !InDoubt(f, actions, validations, start, n) && CleanlyUndone(f, actions, start, n) &&
      f.rolledBack.outcome == Published;
    && (r.status == Restored <==> succeeds)
    && (r.status == Failed <==> !succeeds && !began)
    && (r.status == RolledBack <==> !succeeds && began && undone)
    && (r.status == RollbackFailed <==> !succeeds && began && !undone)
    && (r.failStop <==> r.status == RollbackFailed || (r.status == Failed && !CanAbort(f, actions, validations, n)))
  }

  /** Why it failed: an action, a validation, or the committed marker. */
  ghost predicate EndsBecause(f: Facts, actions: seq<JournalAction>, validations: seq<bool>, start: Host, n: nat,
    r: TransactionResult)
  {
    && (r.reason == Some(CommitFailed) <==> n < |actions|)
    && (r.reason == Some(TargetValidationFailed) <==> n == |actions| && !AllValid(validations))
    && (r.reason == Some(JournalCompletionFailed) <==>
        n == |actions| && AllValid(validations) && f.committed.outcome != Published)
  }

  /** The host it leaves: every touched action was tried to be undone exactly when something was touched
    * and the failure is not in doubt. */
  ghost predicate EndsWith(f: Facts, actions: seq<JournalAction>, validations: seq<bool>, start: Host, n: nat,
    after: Host)
    requires n <= |actions|
  {
    after == if Succeeds(f, actions, validations, start) || InDoubt(f, actions, validations, start, n)
      then HostEnded(f, actions, start, n) else HostUndone(f, actions, start, n, 0)
  }

  class TransactionExecutor {
    var host: Host
    var marker: Marker

    constructor (host: Host)
      ensures this.host == host && marker == Pending
    {
      this.host := host;
      marker := Pending;
    }

    /** The whole transaction. `at` is the number of actions that reached their desired state. */
    method Execute(actions: seq<JournalAction>, validations: seq<bool>, f: Facts)
      returns (result: Report, ghost at: nat)
      modifies this
      requires marker == Pending
      ensures !f.admitted ==> result == TransactionResult(Failed, Some(CommitFailed), true) && marker == Pending
      ensures f.admitted && !AllPrior(actions, old(host)) ==>
        result == TransactionResult(Failed, Some(CommitFailed), f.aborted.outcome != Published)
      ensures !f.admitted || !AllPrior(actions, old(host)) ==> host == old(host)
      ensures f.admitted && AllPrior(actions, old(host)) ==>
        && EndsAt(f, actions, old(host), at) && EndsAs(f, actions, validations, old(host), at, result)
        && EndsBecause(f, actions, validations, old(host), at, result)
        && EndsWith(f, actions, validations, old(host), at, host)
      ensures SameOutside(actions, old(host), host)
      ensures result.status in {RolledBack, Failed} ==> host == old(host)
      ensures result.status == Restored ==> marker == Committed
      ensures result.status == RolledBack ==> marker == RolledBackMarker
      ensures result.status == Failed && !result.failStop ==> marker == Aborted
      ensures marker == Committed ==> AllValid(validations) && (Separate(actions) ==> TargetsDesired(actions, host))
      ensures marker in {RolledBackMarker, Aborted} ==> host == old(host)
    {
      at := 0;
      ghost var start := host;
      if !f.admitted {
        return TransactionResult(Failed, Some(CommitFailed), true), at;
      }
      if !AllPrior(actions, host) {
        var aborted := PersistMarker(Aborted, f.aborted);
        return TransactionResult(Failed, Some(CommitFailed), aborted != Published), at;
      }
      var n, touched, inDoubt := CommitActions(actions, f);
      at := n;
      var valid := CheckValidations(validations);
      ConfinedAt(f, actions, start, EndedTurns(f, actions, start, n));
      ConfinedUndone(f, actions, start, n, 0);
      if n < |actions| {
        result := FinishFailure(actions, touched, CommitFailed, inDoubt, f, validations, start, n);
      } else if !valid {
        result := FinishFailure(actions, touched, TargetValidationFailed, false, f, validations, start, n);
      } else {
        if Separate(actions) { ReachedStays(f, actions, start, n); }
        var publication := PersistMarker(Committed, f.committed);
        if publication == Published {
          result := TransactionResult(Restored, None, false);
        } else {
          var doubt := publication == Ambiguous;
          result := FinishFailure(actions, touched, JournalCompletionFailed, doubt, f, validations, start, n);
        }
      }
    }

    method CheckValidations(validations: seq<bool>) returns (valid: bool)
      ensures valid <==> AllValid(validations)
    {
      for k := 0 to |validations|
        invariant AllValid(validations[..k])
      {
        assert validations[..k + 1] == validations[..k] + [validations[k]];
        if !validations[k] {
          return false;
        }
      }
      assert validations[..|validations|] == validations;
      return true;
    }

    /** The commit loop: it ends behind the last action, or at the first that does not reach its desired state. */
    method CommitActions(actions: seq<JournalAction>, f: Facts) returns (n: nat, touched: seq<bool>, inDoubt: bool)
      modifies this`host
      ensures EndsAt(f, actions, old(host), n) && host == HostEnded(f, actions, old(host), n)
      ensures Flags(touched, f, actions, old(host), n)
      ensures n < |actions| ==> (inDoubt <==> Entered(f, actions, old(host), n) && !f.step(n).done && f.step(n).inDoubt)
    {
      touched, inDoubt := seq(|actions|, _ => false), false;
      n := 0;
      while n < |actions|
        invariant n <= |actions| && |touched| == |actions| && host == HostAt(f, actions, old(host), n)
        invariant forall k: nat :: k < n ==> Reached(f, actions, old(host), k)
        invariant forall k: nat :: k < |actions| ==> (touched[k] <==> k < n && f.step(k).begins)
      {
        var reached;
        reached, touched, inDoubt := CommitOne(actions, f, n, touched, old(host));
        if !reached {
          return;
        }
        n := n + 1;
      }
    }

    method CommitOne(actions: seq<JournalAction>, f: Facts, k: nat, before: seq<bool>, ghost start: Host)
      returns (reached: bool, touched: seq<bool>, inDoubt: bool)
      modifies this`host
      requires k < |actions| == |before| && host == HostAt(f, actions, start, k) && !before[k]
      ensures reached <==> Reached(f, actions, start, k)
      ensures host == if Entered(f, actions, start, k) then HostAt(f, actions, start, k + 1) else old(host)
      ensures touched == before[k := Entered(f, actions, start, k) && f.step(k).begins]
      ensures inDoubt <==> Entered(f, actions, start, k) && !f.step(k).done && f.step(k).inDoubt
    {
      touched := before;
      if !f.step(k).ready || !actions[k].IsPrior(host) {
        return false, touched, false;
      }
      if f.step(k).begins {
        touched := touched[k := true];
        host := Mutated(host, actions[k], f.step(k).residue);
      }
      if !f.step(k).done {
        return false, touched, f.step(k).inDoubt;
      }
      return actions[k].IsDesired(host), touched, false;
    }

    /** Publishes the one terminal marker. A conflicting marker refuses; a publication in doubt may or may
      * not have reached the disk. */
    method PersistMarker(state: Marker, p: Publishing) returns (publication: Publication)
      modifies this`marker
      requires state != Pending
      ensures old(marker) == Pending ==> publication == p.outcome
      ensures old(marker) == Pending ==>
        marker == if p.outcome == Published || (p.outcome == Ambiguous && p.onDisk) then state else Pending
      ensures old(marker) != Pending ==>
        marker == old(marker) && publication == if marker == state then Published else NotPublished
    {
      if marker != Pending {
        return if marker == state then Published else NotPublished;
      }
      if p.outcome == Published || (p.outcome == Ambiguous && p.onDisk) { marker := state; }
      return p.outcome;
    }

    /** The single failure exit. A failure in doubt is never rolled back, because a committed marker may
      * already be durable; every other one is. */
    method FinishFailure(actions: seq<JournalAction>, touched: seq<bool>, reason: Reason, inDoubt: bool, f: Facts,
      ghost validations: seq<bool>, ghost start: Host, ghost n: nat) returns (result: Report)
      modifies this
      requires f.admitted && AllPrior(actions, start) && EndsAt(f, actions, start, n)
      requires host == HostEnded(f, actions, start, n) && Flags(touched, f, actions, start, n)
      requires !Succeeds(f, actions, validations, start)
      requires inDoubt <==> InDoubt(f, actions, validations, start, n)
      requires marker == if CommittedOnDisk(f, actions, validations, n) then Committed else Pending
      requires reason == if n < |actions| then CommitFailed
        else if !AllValid(validations) then TargetValidationFailed else JournalCompletionFailed
      ensures EndsAs(f, actions, validations, start, n, result)
      ensures EndsBecause(f, actions, validations, start, n, result)
      ensures EndsWith(f, actions, validations, start, n, host)
      ensures result.status in {RolledBack, Failed} ==> host == start
      ensures result.status == RolledBack ==> marker == RolledBackMarker
      ensures result.status == Failed && !result.failStop ==> marker == Aborted
      ensures marker == Committed ==> old(marker) == Committed && host == old(host)
      ensures marker in {RolledBackMarker, Aborted} ==> host == start
    {
      var began := exists k :: 0 <= k < |touched| && touched[k];
      assert began <==> MutationBegan(f, actions, start, n) by { BeganByFlags(touched, f, actions, start, n); }
      if !began {
        UntouchedHost(f, actions, start, n);
        var aborted := PersistMarker(Aborted, f.aborted);
        return TransactionResult(Failed, Some(reason), aborted != Published);
      }
      if inDoubt {
        return TransactionResult(RollbackFailed, Some(reason), true);
      }
      var clean := Rollback(actions, touched, f, start, n);
      if !clean {
        return TransactionResult(RollbackFailed, Some(reason), true);
      }
      CleanRestores(f, actions, start, n);
      var recorded := PersistMarker(RolledBackMarker, f.rolledBack);
      if recorded != Published {
        return TransactionResult(RollbackFailed, Some(reason), true);
      }
      return TransactionResult(RolledBack, Some(reason), false);
    }

    /** Undoes the touched actions last first, going on when one cannot be undone, then looks at them all. */
    method Rollback(actions: seq<JournalAction>, touched: seq<bool>, f: Facts, ghost start: Host, ghost n: nat)
      returns (clean: bool)
      modifies this`host
      requires n <= |actions| && host == HostEnded(f, actions, start, n) && Flags(touched, f, actions, start, n)
      ensures host == HostUndone(f, actions, start, n, 0)
      ensures clean <==> CleanlyUndone(f, actions, start, n)
    {
      clean := true;
      for k := |actions| downto 0
        invariant host == HostUndone(f, actions, start, n, k)
        invariant clean <==>
          forall j: nat :: k <= j && Touched(f, actions, start, n, j) ==> UndoneAt(f, actions, start, n, j)
      {
        if touched[k] {
          if f.undo(k).attempted {
            host := Mutated(host, actions[k], f.undo(k).residue);
          }
          clean := clean && f.undo(k).attempted && f.undo(k).reported && actions[k].IsPrior(host);
        }
      }
      clean := clean && AllPrior(actions, host);
    }
  }

  /** An action reaches its desired state exactly when it is let in over its recorded prior state, reports
    * success, and what it leaves behind is what it was meant to. */
  lemma {:induction false} ReachedExactly(f: Facts, actions: seq<JournalAction>, start: Host, k: nat)
    requires k < |actions| && f.step(k).begins
    ensures Reached(f, actions, start, k) <==>
      f.step(k).ready && f.step(k).done && actions[k].IsPrior(HostAt(f, actions, start, k)) &&
      actions[k].IsDesired(Mutated(HostAt(f, actions, start, k), actions[k], f.step(k).residue))
  {
  }

  /** An action that fails in doubt is left as it stands: nothing is undone, not even what it left behind. */
  lemma {:induction false} DoubtIsNotUndone(f: Facts, actions: seq<JournalAction>, validations: seq<bool>, start: Host,
    n: nat, r: TransactionResult, after: Host)
    requires f.admitted && AllPrior(actions, start) && EndsAt(f, actions, start, n) && n < |actions|
    requires EndsAs(f, actions, validations, start, n, r) && EndsWith(f, actions, validations, start, n, after)
    requires f.step(n) == Step(true, true, f.step(n).residue, false, true)
    requires actions[n].IsPrior(HostAt(f, actions, start, n))
    ensures r.status == RollbackFailed && r.failStop
    ensures after == Mutated(HostAt(f, actions, start, n), actions[n], f.step(n).residue)
  {
    assert Touched(f, actions, start, n, n) && !Reached(f, actions, start, n);
  }

  /** Nor is anything undone when the committed marker may already be durable. */
  lemma {:induction false} CommitInDoubt(f: Facts, actions: seq<JournalAction>, validations: seq<bool>, start: Host,
    r: TransactionResult, after: Host, k: nat)
    requires f.admitted && AllPrior(actions, start) && AllValid(validations) && f.committed.outcome == Ambiguous
    requires EndsAs(f, actions, validations, start, |actions|, r)
    requires EndsWith(f, actions, validations, start, |actions|, after)
    requires k < |actions| && f.step(k).begins
    ensures r.status == RollbackFailed && r.failStop && after == HostAt(f, actions, start, |actions|)
  {
    assert Touched(f, actions, start, |actions|, k);
  }

  /** With every action reaching its desired state and every other step working, the validations alone
    * decide: the run ends restored if they hold, and rolled back to where it started if one does not. */
  lemma ValidationsDecide(f: Facts, actions: seq<JournalAction>, validations: seq<bool>, start: Host, at: nat,
    r: TransactionResult, after: Host)
    requires f.admitted && AllPrior(actions, start) && EndsAt(f, actions, start, at)
    requires EndsAs(f, actions, validations, start, at, r) && EndsWith(f, actions, validations, start, at, after)
    requires forall k: nat :: k < |actions| ==> Reached(f, actions, start, k) && f.undo(k) == Undo(true, start, true)
    requires f.committed.outcome == f.aborted.outcome == f.rolledBack.outcome == Published
    ensures at == |actions| && !r.failStop
    ensures r.status == Restored <==> AllValid(validations)
    ensures r.status == RolledBack <==> !AllValid(validations) && exists k: nat :: k < |actions| && f.step(k).begins
    ensures !AllValid(validations) ==> after == start
  {
    assert EndsAt(f, actions, start, |actions|);
    EndIsUnique(f, actions, start, at, |actions|);
    forall k: nat | k < |actions| && f.step(k).begins ensures MutationBegan(f, actions, start, at) {
      assert Touched(f, actions, start, at, k);
    }
    WorkingUndoIsClean(f, actions, start, at);
  }

  /** A file that is written and then refused by its validation: the file is taken away again, the
    * rolled-back marker is published, and the run may go on. */
  method RefusedFileIsTakenAway() returns (executor: TransactionExecutor, result: Report)
    ensures result == TransactionResult(RolledBack, Some(TargetValidationFailed), false)
    ensures executor.host == map[] && executor.marker == RolledBackMarker
  {
    var works := Publishing(Published, true);
    var file := JournalAction("t", None, Some("d"), []);
    var f := Facts(true, _ => Step(true, true, map["t" := "d"], true, false), _ => Undo(true, map[], true),
      works, works, works);
    executor := new TransactionExecutor(map[]);
    ghost var at;
    result, at := executor.Execute([file], [false], f);
    assert ![false][0] && HostAt(f, [file], map[], 0) == map[];
    assert At(HostAt(f, [file], map[], 1), "t") == Some("d");
    assert Reached(f, [file], map[], 0) && f.step(0).begins;
    ValidationsDecide(f, [file], [false], map[], at, result, executor.host);
  }
}
