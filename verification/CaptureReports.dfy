/** What a capture reports about each module, told from the modules and from what collecting them yielded:
  * which ones are staged, reported, skipped and how, and what is written for a staged one. */
module CaptureReports {
  import opened ConfigPlan
  import opened Text
  import opened Ordering
  import opened KeyOrder
  import opened Identity
  import opened CaptureGuard
  import opened RestoreInputs
  import opened CaptureLanes

  /** Module `n` is the one of its ID: of version 1, and the first of version 1 with that ID. */
  predicate Leads(mods: seq<Module>, n: nat) {
    && n < |mods| && mods[n].schema == 1
    && forall j :: 0 <= j < n ==> mods[j].schema != 1 || mods[j].id != mods[n].id
  }

  /** A mixed bundle does not try modules without restore entries. */
  predicate Tried(m: Module, mixed: bool) {
    mixed ==> m.restores != []
  }

  /** Exactly the leading modules are reported. */
  lemma {:induction false} ReportedExactly(mods: seq<Module>, count: nat, layout: Layout,
    collect: Module -> Collection, r: ModuleResult)
    requires count <= |mods|
    ensures r in ReportedOf(mods, count, layout, collect) <==>
      exists n: nat :: n < count && Leads(mods, n) && r == Reported(mods, n, layout, collect)
  {
    if count > 0 {
      var n: nat := count - 1;
      ReportedExactly(mods, n, layout, collect, r);
      assert FirstOfItsID(mods, n) <==> Leads(mods, n);
    }
  }

  predicate OncePerID(results: seq<ModuleResult>) {
    forall i, j :: 0 <= i < j < |results| ==> results[i].moduleID != results[j].moduleID
  }

  /** Each of them once. */
  lemma {:induction false} ReportedOnce(mods: seq<Module>, count: nat, layout: Layout, collect: Module -> Collection)
    requires count <= |mods|
    ensures OncePerID(ReportedOf(mods, count, layout, collect))
  {
    if count > 0 {
      var n: nat := count - 1;
      var before := ReportedOf(mods, n, layout, collect);
      ReportedOnce(mods, n, layout, collect);
      ReportSays(mods, n, layout, collect);
      if FirstOfItsID(mods, n) {
        forall i | 0 <= i < |before| ensures before[i].moduleID != mods[n].id {
          ReportedExactly(mods, n, layout, collect, before[i]);
          assert before[i] in before;
          var k: nat :| k < n && Leads(mods, k) && before[i] == Reported(mods, k, layout, collect);
          ReportSays(mods, k, layout, collect);
        }
        assert OncePerID(before + [Reported(mods, n, layout, collect)]);
      } else {
        assert before + [] == before;
      }
    }
  }

  /** A report says captured with the number of files, failed when collecting went wrong in any way, and skipped
    * when there was nothing to collect or nothing was tried. */
  lemma ReportSays(mods: seq<Module>, n: nat, layout: Layout, collect: Module -> Collection)
    requires n < |mods|
    ensures var r, m, c := Reported(mods, n, layout, collect), mods[n], collect(mods[n]);
      && r.moduleID == m.id && (r.status != Captured ==> r.files == 0)
      && (Leads(mods, n) && Tried(m, layout.mixed) ==>
        && (r.status == Captured <==> c.Payload?) && (c.Payload? ==> r.files == c.files)
        && (r.status == CaptureFailed <==> c == CaptureLanes.Refused || c == FileFailure || c == Nothing(true))
        && (r.status == CaptureSkipped <==> c == Nothing(false)))
      && (!(Leads(mods, n) && Tried(m, layout.mixed)) ==> r.status == CaptureSkipped)
  {
    assert FirstOfItsID(mods, n) <==> Leads(mods, n);
  }

  /** Staged are the leading modules that were tried and yielded a payload, in order. */
  lemma {:induction false} StagedExactly(mods: seq<Module>, count: nat, layout: Layout,
    collect: Module -> Collection, m: Module)
    requires count <= |mods|
    ensures m in StagedOf(mods, count, layout, collect) <==>
      exists n: nat :: n < count && Leads(mods, n) && m == mods[n] && Tried(m, layout.mixed) && collect(m).Payload?
  {
    if count > 0 {
      var n: nat := count - 1;
      StagedExactly(mods, n, layout, collect, m);
      assert FirstOfItsID(mods, n) <==> Leads(mods, n);
    }
  }

  /** Skipped are the names of the leading modules that were not staged. */
  lemma {:induction false} SkippedExactly(mods: seq<Module>, count: nat, layout: Layout,
    collect: Module -> Collection, s: string)
    requires count <= |mods|
    ensures s in SkippedOf(mods, count, layout, collect) <==>
      exists n: nat :: n < count && Leads(mods, n) && s == ShortID(mods[n].id) &&
        !(Tried(mods[n], layout.mixed) && collect(mods[n]).Payload?)
  {
    if count > 0 {
      var n: nat := count - 1;
      SkippedExactly(mods, n, layout, collect, s);
      assert FirstOfItsID(mods, n) <==> Leads(mods, n);
    }
  }

  /** A short name is the module ID without a leading "apps.". */
  lemma ShortNames(id: string)
    ensures ShortID("apps." + id) == id
    ensures !("apps." <= id) ==> ShortID(id) == id
  {
  }

  // ----- what is written for a staged module -----

  /** A version-1 bundle keeps payloads under short names and entries by module; a mixed bundle under readable
    * names, with a lane for each module and its entries tied to the lane. */
  lemma WrittenExactly(layout: Layout, m: Module, k: nat)
    requires k < |m.restores|
    ensures var directory := if layout.mixed then layout.readable(m.id) else ShortID(m.id);
      && DirectoryOf(layout, m) == directory
      && LaneOf(layout, m) == Lane(LegacyCaptureID(m.id), m.id, 1, "configs/" + directory)
      && EntryOf(layout, m, k) == RestoreEntry(m.restores[k].action, layout.rewrite(m.restores[k].source, directory),
           m.id, if layout.mixed then LegacyCaptureID(m.id) else "")
  {
  }

  /** A module dropped by the guard is reported as skipped without files; every other report stays. */
  lemma LoweredExactly(results: seq<ModuleResult>, gone: set<Module>, k: nat)
    requires k < |results|
    ensures var before, after := results[k], Lowered(results, gone)[k];
      after == if exists m :: m in gone && m.id == before.moduleID then ModuleResult(before.moduleID, 0, CaptureSkipped)
        else before
  {
    assert HasID(gone, results[k].moduleID) <==> exists m :: m in gone && m.id == results[k].moduleID;
  }

  /** The texts an entry is sorted by, the first that differs deciding. */
  function EntryFields(e: RestoreEntry): seq<string> {
    [e.legacyCaptureID, e.action.kind, e.source, e.action.target, e.action.key, e.action.valueName]
  }

  lemma EntriesInOrder(entries: seq<RestoreEntry>)
    requires SortedBy(entries, EntryKey) && forall e :: e in entries ==> NulFree(EntryFields(e))
    ensures forall i, j :: 0 <= i < j < |entries| ==> !FieldsLess(EntryFields(entries[j]), EntryFields(entries[i]))
  {
    forall i, j | 0 <= i < j < |entries| ensures !FieldsLess(EntryFields(entries[j]), EntryFields(entries[i])) {
      assert entries[i] in entries && entries[j] in entries;
      JoinedOrder(EntryFields(entries[j]), EntryFields(entries[i]));
    }
  }
}
