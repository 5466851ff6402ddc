/** Which manifests a restore reads, told from their captures, lanes and entries alone. */
module InputConditions {
  import opened ConfigPlan
  import opened Text
  import opened Spellings
  import opened PortablePath
  import opened RestoreInputs

  /** A version-1 manifest has entries only, and each is tied to no lane and to a module named without outer
    * white space. */
  predicate PlainEntries(m: Manifest) {
    && m.captures == [] && m.lanes == []
    && forall e :: e in m.restores ==> e.legacyCaptureID == "" && TrimSpace(e.fromModule) == e.fromModule
  }

  predicate CapturesReady(m: Manifest, resolvable: set<string>) {
    && (forall c :: c in m.captures ==> c.hasEvidence && c.payloadRoot in resolvable)
    && forall l :: l in m.lanes ==> l.payloadRoot in resolvable
  }

  /** An entry of no lane stays clear of every payload; any other belongs to the lane that is declared last under
    * its capture ID, and to that lane's module. */
  predicate EntryFits(m: Manifest, e: RestoreEntry) {
    if e.fromModule == "" && e.legacyCaptureID == "" then
      TrimSpace(e.source) == "" || (
        && (forall c :: c in m.captures ==> !ReadsPayload(e.source, c.payloadRoot))
        && (forall l :: l in m.lanes ==> !ReadsPayload(e.source, l.payloadRoot)))
    else
      && e.legacyCaptureID != ""
      && exists k ::
        0 <= k < |m.lanes| && m.lanes[k].captureID == e.legacyCaptureID && m.lanes[k].moduleID == e.fromModule &&
        LastOfID(m.lanes, k)
  }

  predicate LastOfID(lanes: seq<Lane>, k: int)
    requires 0 <= k < |lanes|
  {
    forall j :: k < j < |lanes| ==> lanes[j].captureID != lanes[k].captureID
  }

  predicate LaneHasEntry(m: Manifest, l: Lane) {
    exists e :: e in m.restores && e.legacyCaptureID == l.captureID && !(e.fromModule == "" && e.legacyCaptureID == "")
  }

  predicate LaneEntries(m: Manifest) {
    && (forall e :: e in m.restores ==> EntryFits(m, e))
    && forall l :: l in m.lanes ==> LaneHasEntry(m, l)
  }

  lemma {:induction false} LaneForIsLast(lanes: seq<Lane>, captureID: string)
    ensures LaneFor(lanes, captureID) == None ==> forall k :: 0 <= k < |lanes| ==> lanes[k].captureID != captureID
    ensures forall k :: 0 <= k < |lanes| && lanes[k].captureID == captureID && LastOfID(lanes, k) ==>
      LaneFor(lanes, captureID) == Some(lanes[k])
    ensures LaneFor(lanes, captureID).Some? ==>
      exists k :: 0 <= k < |lanes| && lanes[k].captureID == captureID && LastOfID(lanes, k)
  {
    if lanes != [] {
      var n := |lanes| - 1;
      var before := lanes[..n];
      LaneForIsLast(before, captureID);
      if lanes[n].captureID == captureID {
        assert LastOfID(lanes, n);
      } else {
        forall k | 0 <= k < n && lanes[k].captureID == captureID ensures LastOfID(lanes, k) <==> LastOfID(before, k) { }
      }
    }
  }

  lemma EntryExactly(m: Manifest, e: RestoreEntry)
    ensures AcceptableEntry(e, m) <==> EntryFits(m, e)
  {
    if e.Anonymous() {
      forall k | 0 <= k < |m.captures| ensures m.captures[k] in m.captures { }
      forall k | 0 <= k < |m.lanes| ensures m.lanes[k] in m.lanes { }
    } else {
      LaneForIsLast(m.lanes, e.legacyCaptureID);
    }
  }

  /** A manifest is read exactly when its version is known, every mapping names a capture, and what its version
    * asks for holds. */
  lemma ReadExactly(m: Manifest, mappings: map<string, string>, resolvable: set<string>)
    ensures Acceptable(m, mappings, resolvable) <==>
      && (forall id :: id in mappings ==> exists c :: c in m.captures && c.captureID == id)
      && ((m.version == 1 && PlainEntries(m)) ||
          (m.version == 2 && CapturesReady(m, resolvable) && LaneEntries(m)))
  {
    forall e | e in m.restores ensures AcceptableEntry(e, m) <==> EntryFits(m, e) { EntryExactly(m, e); }
    forall l | l in m.lanes ensures OfLane(m.restores, l.captureID) != [] <==> LaneHasEntry(m, l) {
      ServedExactly(m, l);
    }
  }

  lemma ServedExactly(m: Manifest, l: Lane)
    ensures OfLane(m.restores, l.captureID) != [] <==> LaneHasEntry(m, l)
  {
    var own := OfLane(m.restores, l.captureID);
    forall e ensures e in own <==> e in m.restores && !e.Anonymous() && e.legacyCaptureID == l.captureID {
      OfLaneMembers(m.restores, l.captureID, e);
    }
    if own != [] { assert own[0] in own; }
  }

  // ----- reading from a payload -----

  /** A source reads a payload exactly when one of the two places lies at or above the other: the source folded
    * and cleaned, the root cleaned and folded. */
  lemma ReadsExactly(source: string, root: string)
    requires var s, r := FoldedSource(source), ReplaceChar(root, '\\', '/');
      !Rooted(s) && !Rooted(r) && Resolved(s) != [] && Resolved(r) != []
    ensures ReadsPayload(source, root) <==>
      Nested(Resolved(FoldedSource(source)), Folded(Resolved(ReplaceChar(root, '\\', '/'))))
  {
    var s, r := FoldedSource(source), ReplaceChar(root, '\\', '/');
    CleanText(s);
    CleanText(r);
    LowerJoin(Resolved(r), '/');
    FoldedSplit(Resolved(r));
    PathsOverlapIsNested(Join(Resolved(s), '/'), Join(Folded(Resolved(r)), '/'), '/');
  }

  lemma CleanText(path: string)
    requires !Rooted(path) && Resolved(path) != []
    ensures TrimSuffixChar(Clean(path), '/') == Join(Resolved(path), '/')
    ensures Split(Join(Resolved(path), '/'), '/') == Resolved(path)
    ensures forall k :: 0 <= k < |Resolved(path)| ==> '/' !in Resolved(path)[k]
  {
    CleanResolves(path);
    var parts := Resolved(path);
    SplitJoin(parts, '/');
    LastOfJoin(parts, '/');
    var last := parts[|parts| - 1];
    assert last[|last| - 1] in last;
  }

  lemma FoldedSplit(parts: seq<string>)
    requires parts != [] && forall k :: 0 <= k < |parts| ==> '/' !in parts[k]
    ensures Split(Join(Folded(parts), '/'), '/') == Folded(parts)
  {
    forall k | 0 <= k < |parts| ensures '/' !in Folded(parts)[k] { FoldLacks(parts[k], '/'); }
    SplitJoin(Folded(parts), '/');
  }

  /** The source is read trimmed, with either slash, in any letter case and with or without a leading dot. */
  lemma SourceSpelled(source: string, text: string)
    requires TrimSpace(source) != "" && ReadsAs(TrimSpace(source), text) && '\\' !in text
    ensures FoldedSource(source) == TrimPrefix(Lower(text), "./")
  {
    ReadsFold(TrimSpace(source), text, '\\', '/');
    NothingToReplace(text, '\\', '/');
  }
}
