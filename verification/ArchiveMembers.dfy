/** When an archive can be planned, told from the places its members name: letter case, the choice of slash
  * and a slash at the end make no difference. */
module ArchiveMembers {
  import opened Text
  import opened Spellings
  import opened ArchivePlan

  /** The name of a member, for the components of its place. */
  predicate Names(name: string, comps: seq<string>) {
    && comps != [] && comps[|comps| - 1] != ""
    && (forall k :: 0 <= k < |comps| ==> '/' !in comps[k] && '\\' !in comps[k])
    && (ReadsAs(name, Join(comps, '/')) || ReadsAs(name, Join(comps, '/') + ['/']))
  }

  lemma LastIsNoSlash(comps: seq<string>)
    requires comps != [] && comps[|comps| - 1] != "" && forall k :: 0 <= k < |comps| ==> '/' !in comps[k]
    ensures var text := Join(comps, '/'); text != "" && text[|text| - 1] != '/'
  {
    LastOfJoin(comps, '/');
    var last := comps[|comps| - 1];
    assert last[|last| - 1] in last;
  }

  lemma FoldedPlain(comps: seq<string>)
    requires comps != [] && comps[|comps| - 1] != "" && forall k :: 0 <= k < |comps| ==> '/' !in comps[k]
    ensures Folded(comps) != [] && Folded(comps)[|comps| - 1] != ""
    ensures forall k :: 0 <= k < |comps| ==> '/' !in Folded(comps)[k]
  {
    forall k | 0 <= k < |comps| ensures '/' !in Folded(comps)[k] { FoldLacks(comps[k], '/'); }
  }

  lemma TrimThenFold(s: string)
    ensures Lower(TrimSuffixChar(s, '/')) == TrimSuffixChar(Lower(s), '/')
  {
  }

  /** The name folded with forward slashes. */
  lemma NameFolds(name: string, text: string)
    requires ReadsAs(name, text) && '\\' !in text
    ensures Lower(ReplaceChar(name, '\\', '/')) == Lower(text)
  {
    ReadsFold(name, text, '\\', '/');
    NothingToReplace(text, '\\', '/');
  }

  /** The identity of a member is its place. */
  lemma IdentityIsPlace(f: ArchiveFile, comps: seq<string>)
    requires Names(f.name, comps)
    ensures Split(Identity(f), '/') == Folded(comps) && Portable(f) != ""
  {
    var text := Join(comps, '/');
    JoinLacks(comps, '/', '\\');
    LowerJoin(comps, '/');
    FoldedPlain(comps);
    LastIsNoSlash(Folded(comps));
    TrimThenFold(ReplaceChar(f.name, '\\', '/'));
    if ReadsAs(f.name, text) {
      NameFolds(f.name, text);
      EndGoes(Lower(text), Lower(text), '/');
    } else {
      NameFolds(f.name, text + ['/']);
      LowerAppend(text, ['/']);
      assert Lower(['/']) == ['/'];
      EndGoes(Lower(text), Lower(text) + ['/'], '/');
    }
    SplitJoin(Folded(comps), '/');
  }

  /** An archive can be planned exactly when each of its members is an ordinary file or directory that
    * resolves, no two name one place, and nothing lies below a file. */
  lemma PlannableExactly(files: seq<ArchiveFile>, places: seq<seq<string>>, resolves: string -> bool)
    requires |places| == |files| && forall i :: 0 <= i < |files| ==> Names(files[i].name, places[i])
    ensures Plannable(files, resolves) <==>
      (forall i :: 0 <= i < |files| ==> !files[i].special && resolves(Portable(files[i]))) &&
      (forall i, j :: 0 <= i < |files| && 0 <= j < |files| && i != j && Above(places[i], places[j]) ==>
        files[i].directory && !Above(places[j], places[i]))
  {
    forall i | 0 <= i < |files|
      ensures Passes(files[i], resolves) <==> !files[i].special && resolves(Portable(files[i]))
    {
      IdentityIsPlace(files[i], places[i]);
    }
    forall i, j | 0 <= i < |files| && 0 <= j < |files| && i != j
      ensures Clashing(files[i], files[j]) <==>
        Hinders(files[i], places[i], places[j]) || Hinders(files[j], places[j], places[i])
    {
      ClashingPlaces(files[i], files[j], places[i], places[j]);
    }
    HinderedPairs(files, places);
  }

  /** The member at the first place leaves none at the second. */
  predicate Hinders(f: ArchiveFile, place: seq<string>, other: seq<string>) {
    Above(place, other) && (!f.directory || Above(other, place))
  }

  lemma ClashingPlaces(f: ArchiveFile, g: ArchiveFile, place: seq<string>, other: seq<string>)
    requires Names(f.name, place) && Names(g.name, other)
    ensures Clashing(f, g) <==> Hinders(f, place, other) || Hinders(g, other, place)
  {
    IdentityIsPlace(f, place);
    IdentityIsPlace(g, other);
    AboveFolds(place, other);
    AboveFolds(other, place);
    AtOrBelowIsComponentPrefix(Identity(f), Identity(g), '/');
    AtOrBelowIsComponentPrefix(Identity(g), Identity(f), '/');
    if Folded(place) == Folded(other) { SplitInjective(Identity(f), Identity(g), '/'); }
  }

  lemma HinderedPairs(files: seq<ArchiveFile>, places: seq<seq<string>>)
    requires |places| == |files|
    requires forall i, j :: 0 <= i < |files| && 0 <= j < |files| && i != j ==>
      (Clashing(files[i], files[j]) <==>
       Hinders(files[i], places[i], places[j]) || Hinders(files[j], places[j], places[i]))
    ensures (forall i, j :: 0 <= i < j < |files| ==> !Clashing(files[i], files[j])) <==>
      forall i, j :: 0 <= i < |files| && 0 <= j < |files| && i != j ==> !Hinders(files[i], places[i], places[j])
  {
    if forall i, j :: 0 <= i < j < |files| ==> !Clashing(files[i], files[j]) {
      forall i, j | 0 <= i < |files| && 0 <= j < |files| && i != j ensures !Hinders(files[i], places[i], places[j]) {
        assert i < j ==> !Clashing(files[i], files[j]);
        assert j < i ==> !Clashing(files[j], files[i]);
      }
    }
  }

  /** A member without a name passes nowhere. */
  lemma NamelessFails(f: ArchiveFile, resolves: string -> bool)
    requires f.name in {"", "/", "\\"}
    ensures !Passes(f, resolves)
  {
  }

  // ----- the byte budget -----

  /** Declared bytes are those of the files; directories declare nothing that counts. */
  lemma {:induction false} DeclaredParts(a: seq<ArchiveFile>, b: seq<ArchiveFile>)
    ensures DeclaredBytes(a + b) == DeclaredBytes(a) + DeclaredBytes(b)
    ensures |b| == 1 ==> DeclaredBytes(b) == if b[0].directory then 0 else b[0].size
  {
    if b == [] {
      assert a + b == a;
    } else {
      var n, joined := |b| - 1, a + b;
      assert joined[..|joined| - 1] == a + b[..n] && joined[|joined| - 1] == b[n];
      DeclaredParts(a, b[..n]);
    }
  }
}
