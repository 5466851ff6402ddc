/** Which registry keys are one place: the ways to write a key of the current user's hive, and when the
  * claims on two written keys collide. */
module ClaimSpellings {
  import opened Text
  import opened Spellings
  import opened Claims
  import opened Collisions

  datatype Hive = Bare | Short | Long
  {
    function Prefix(): string {
      match this
      case Bare => ""
      case Short => "hkcu\\"
      case Long => "hkey_current_user\\"
    }
  }

  /** A way to write a key: white space around it, the hive in front of it, and further separators at
    * either end of its components. */
  datatype Spelling = Spelling(lead: string, hive: Hive, before: nat, body: string, after: nat, tail: string)
  {
    predicate Writes(text: string, comps: seq<string>) {
      && text == lead + body + tail && (forall c :: c in lead || c in tail ==> IsSpace(c))
      && ReadsAs(body, Canonical(comps))
    }

    function Canonical(comps: seq<string>): string {
      hive.Prefix() + Backslashes(before) + Join(comps, '\\') + Backslashes(after)
    }
  }

  function Backslashes(n: nat): (s: string)
    ensures |s| == n && forall c :: c in s ==> c == '\\'
  {
    seq(n, i => '\\')
  }

  /** The components of a key below the hive: no separator inside them, no white space or nothing at the
    * outer ends, and the first one not itself the name of the hive. */
  predicate PlainKey(comps: seq<string>) {
    && comps != [] && (forall k :: 0 <= k < |comps| ==> '/' !in comps[k] && '\\' !in comps[k])
    && comps[0] != "" && !IsSpace(comps[0][0]) && Lower(comps[0]) !in {"hkcu", "hkey_current_user"}
    && var last := comps[|comps| - 1]; last != "" && !IsSpace(last[|last| - 1])
  }

  // ----- what a written key normalizes to -----

  /** White space around the body goes, and only that. */
  lemma BodyRemains(text: string, how: Spelling, comps: seq<string>)
    requires how.Writes(text, comps) && PlainKey(comps)
    ensures TrimSpace(text) == how.body
  {
    JoinEnds(comps, '\\');
    var canonical := how.Canonical(comps);
    assert canonical != "" && !IsSpace(canonical[0]) && !IsSpace(canonical[|canonical| - 1]);
    var body := how.body;
    assert Reads(body[0], canonical[0]) && Reads(body[|body| - 1], canonical[|body| - 1]);
    TrimExactly(how.lead, body, how.tail, IsSpace);
  }

  lemma PrefixFolds(hive: Hive)
    ensures '/' !in hive.Prefix() && Lower(hive.Prefix()) == hive.Prefix()
  {
  }

  lemma SlashesFold(n: nat)
    ensures '/' !in Backslashes(n) && Lower(Backslashes(n)) == Backslashes(n)
  {
    forall i | 0 <= i < n ensures Lower(Backslashes(n))[i] == Backslashes(n)[i] { assert Backslashes(n)[i] == '\\'; }
  }

  lemma LowerParts(a: string, b: string, c: string, d: string)
    ensures Lower(a + b + c + d) == Lower(a) + (Lower(b) + Lower(c) + Lower(d))
  {
    LowerAppend(a + b + c, d);
    LowerAppend(a + b, c);
    LowerAppend(a, b);
  }

  /** The folded body, spelled out. */
  lemma FoldedBody(body: string, how: Spelling, comps: seq<string>)
    requires ReadsAs(body, how.Canonical(comps)) && PlainKey(comps)
    ensures Lower(ReplaceChar(body, '/', '\\')) == how.hive.Prefix() + Rest(how.before, comps, how.after)
  {
    var prefix, before, inner, after :=
      how.hive.Prefix(), Backslashes(how.before), Join(comps, '\\'), Backslashes(how.after);
    ReadsFold(body, prefix + before + inner + after, '/', '\\');
    JoinLacks(comps, '\\', '/');
    PrefixFolds(how.hive);
    SlashesFold(how.before);
    SlashesFold(how.after);
    NothingToReplace(prefix + before + inner + after, '/', '\\');
    LowerJoin(comps, '\\');
    LowerParts(prefix, before, inner, after);
  }

  /** What stands behind the hive, folded. */
  function Rest(before: nat, comps: seq<string>, after: nat): string {
    Backslashes(before) + Join(Folded(comps), '\\') + Backslashes(after)
  }

  lemma NoHiveInRest(before: nat, comps: seq<string>, after: nat, name: string)
    requires PlainKey(comps) && name != "" && '\\' !in name && Lower(comps[0]) != name
    ensures !(name + "\\" <= Rest(before, comps, after))
  {
    var rest, head := Rest(before, comps, after), name + "\\";
    assert head[0] == name[0] && name[0] in name;
    if before > 0 {
      assert rest[0] == '\\';
    } else {
      AtOrBelowIsComponentPrefix(name, rest, '\\');
      SplitOne(name, '\\');
      FirstOfRest(comps, after);
      assert Split(rest, '\\')[0] == Lower(comps[0]) != name;
    }
  }

  lemma FirstOfRest(comps: seq<string>, after: nat)
    requires PlainKey(comps)
    ensures Split(Rest(0, comps, after), '\\')[0] == Lower(comps[0])
  {
    var folded, slashes := Folded(comps), Backslashes(after);
    assert '\\' !in folded[0] by { FoldLacks(comps[0], '\\'); }
    var rest := Rest(0, comps, after);
    if |comps| > 1 {
      assert rest == folded[0] + ['\\'] + (Join(folded[1..], '\\') + slashes);
      SplitAppend(folded[0], Join(folded[1..], '\\') + slashes, '\\');
    } else if after > 0 {
      assert rest == folded[0] + ['\\'] + slashes[1..];
      SplitAppend(folded[0], slashes[1..], '\\');
    } else {
      assert rest == folded[0];
      SplitOne(folded[0], '\\');
    }
  }

  lemma FoldedEnds(comps: seq<string>)
    requires PlainKey(comps)
    ensures var text := Join(Folded(comps), '\\'); text != "" && text[0] != '\\' && text[|text| - 1] != '\\'
    ensures forall k :: 0 <= k < |comps| ==> '\\' !in Folded(comps)[k]
  {
    var folded := Folded(comps);
    forall k | 0 <= k < |comps| ensures '\\' !in folded[k] { FoldLacks(comps[k], '\\'); }
    JoinEnds(folded, '\\');
    var last := folded[|comps| - 1];
    assert folded[0][0] in folded[0] && last[|last| - 1] in last;
  }

  lemma SlashesTrimmed(before: nat, text: string, after: nat)
    requires text != "" && text[0] != '\\' && text[|text| - 1] != '\\'
    ensures Trim(Backslashes(before) + text + Backslashes(after), IsBackslash) == text
  {
    TrimExactly(Backslashes(before), text, Backslashes(after), IsBackslash);
  }

  lemma RestTrimmed(before: nat, comps: seq<string>, after: nat)
    requires PlainKey(comps)
    ensures Trim(Rest(before, comps, after), IsBackslash) == Join(Folded(comps), '\\')
    ensures Split(Join(Folded(comps), '\\'), '\\') == Folded(comps)
  {
    FoldedEnds(comps);
    SplitJoin(Folded(comps), '\\');
    SlashesTrimmed(before, Join(Folded(comps), '\\'), after);
  }

  /** However a key is written, it normalizes to its folded components. */
  lemma SpelledKey(text: string, how: Spelling, comps: seq<string>)
    requires how.Writes(text, comps) && PlainKey(comps)
    ensures NormalizeRegistryKey(text) == Join(Folded(comps), '\\')
    ensures Split(NormalizeRegistryKey(text), '\\') == Folded(comps)
  {
    BodyRemains(text, how, comps);
    FoldedBody(how.body, how, comps);
    NoHiveInRest(how.before, comps, how.after, "hkcu");
    NoHiveInRest(how.before, comps, how.after, "hkey_current_user");
    HiveGoes(how.hive, Rest(how.before, comps, how.after));
    RestTrimmed(how.before, comps, how.after);
  }

  lemma HiveGoes(hive: Hive, rest: string)
    requires !("hkcu\\" <= rest) && !("hkey_current_user\\" <= rest)
    ensures TrimPrefix(TrimPrefix(hive.Prefix() + rest, "hkey_current_user\\"), "hkcu\\") == rest
  {
    var text := hive.Prefix() + rest;
    match hive
    case Bare => assert text == rest;
    case Short =>
      assert text[2] == 'c' && "hkey_current_user\\"[2] == 'e';
      assert text[|hive.Prefix()|..] == rest;
    case Long =>
      assert text[|hive.Prefix()|..] == rest;
  }

  // ----- when claims on written keys collide -----

  lemma NoNul(comps: seq<string>)
    requires forall k :: 0 <= k < |comps| ==> NUL !in comps[k]
    ensures NUL !in Join(Folded(comps), '\\')
  {
    forall k | 0 <= k < |comps| ensures NUL !in Folded(comps)[k] {
      forall i | 0 <= i < |comps[k]| ensures Folded(comps)[k][i] != NUL { assert comps[k][i] in comps[k]; }
    }
    JoinLacks(Folded(comps), '\\', NUL);
  }

  /** A key that was written: its text, its way of writing, and its components. */
  datatype Written = Written(text: string, how: Spelling, comps: seq<string>)
  {
    predicate Valid() {
      how.Writes(text, comps) && PlainKey(comps) && forall k :: 0 <= k < |comps| ==> NUL !in comps[k]
    }
  }

  /** Two imports collide exactly when one key lies at or above the other, whatever their spellings. */
  lemma KeysCollide(a: Written, b: Written)
    requires a.Valid() && b.Valid()
    ensures ClaimsOverlap(KeyClaim(a.text), KeyClaim(b.text)) <==> Above(a.comps, b.comps) || Above(b.comps, a.comps)
  {
    ClaimPlaces(a);
    ClaimPlaces(b);
    OverlapIsMeeting(KeyClaim(a.text), KeyClaim(b.text));
    AboveFolds(a.comps, b.comps);
    AboveFolds(b.comps, a.comps);
    var fa, fb := Folded(a.comps), Folded(b.comps);
    SubtreesMeet(fa, fb);
    if Nested(fa, fb) {
      var p: seq<string> :| InSubtree(fa, p) && InSubtree(fb, p);
      assert Covers(KeyClaim(a.text), ValueAt(p, "")) && Covers(KeyClaim(b.text), ValueAt(p, ""));
    }
    if Meet(KeyClaim(a.text), KeyClaim(b.text)) {
      var place :| Covers(KeyClaim(a.text), place) && Covers(KeyClaim(b.text), place);
      assert InSubtree(fa, place.key) && InSubtree(fb, place.key);
    }
  }

  /** What the claims on a written key stand for. */
  lemma ClaimPlaces(a: Written)
    requires a.Valid()
    ensures forall place :: Covers(KeyClaim(a.text), place) <==> place.ValueAt? && Folded(a.comps) <= place.key
    ensures forall name: string, place :: NUL !in name ==>
      (Covers(ValueClaim(a.text, name), place) <==> place == ValueAt(Folded(a.comps), Lower(name)))
  {
    SpelledKey(a.text, a.how, a.comps);
    NoNul(a.comps);
    forall place { KeyClaimCovers(a.text, place); }
    forall name: string, place | NUL !in name { ValueClaimCovers(a.text, name, place); }
  }

  /** An import collides with a value exactly when its key lies at or above the value's. */
  lemma KeyAndValueCollide(a: Written, b: Written, name: string)
    requires a.Valid() && b.Valid() && NUL !in name
    ensures ClaimsOverlap(KeyClaim(a.text), ValueClaim(b.text, name)) <==> Above(a.comps, b.comps)
  {
    ClaimPlaces(a);
    ClaimPlaces(b);
    OverlapIsMeeting(KeyClaim(a.text), ValueClaim(b.text, name));
    AboveFolds(a.comps, b.comps);
    assert Covers(ValueClaim(b.text, name), ValueAt(Folded(b.comps), Lower(name)));
  }

  /** Two values collide exactly when their keys and their names agree, letter case aside. */
  lemma ValuesCollide(a: Written, b: Written, m: string, n: string)
    requires a.Valid() && b.Valid() && NUL !in m && NUL !in n
    ensures ClaimsOverlap(ValueClaim(a.text, m), ValueClaim(b.text, n)) <==>
      Above(a.comps, b.comps) && Above(b.comps, a.comps) && SameText(m, n)
  {
    ClaimPlaces(a);
    ClaimPlaces(b);
    OverlapIsMeeting(ValueClaim(a.text, m), ValueClaim(b.text, n));
    AboveFolds(a.comps, b.comps);
    AboveFolds(b.comps, a.comps);
    SameTextFolds(m, n);
    assert Covers(ValueClaim(a.text, m), ValueAt(Folded(a.comps), Lower(m)));
  }

  lemma PathText(comps: seq<string>, path: string)
    requires comps != [] && comps[|comps| - 1] != "" && forall k :: 0 <= k < |comps| ==> '/' !in comps[k]
    requires path == Join(comps, '/') || path == Join(comps, '/') + ['/']
    ensures TrimSuffixChar(path, '/') == Join(comps, '/')
  {
    LastOfJoin(comps, '/');
    var last := comps[|comps| - 1];
    assert last[|last| - 1] in last;
    EndGoes(Join(comps, '/'), path, '/');
  }

  /** A file claim, with or without a separator at its end, covers the subtree of its components. */
  lemma FilesCovered(comps: seq<string>, path: string, place: Location)
    requires comps != [] && comps[|comps| - 1] != "" && forall k :: 0 <= k < |comps| ==> '/' !in comps[k]
    requires path == Join(comps, '/') || path == Join(comps, '/') + ['/']
    ensures Covers(FileClaim(path), place) <==> place.FileAt? && comps <= place.path
  {
    PathText(comps, path);
    SplitJoin(comps, '/');
    FileClaimCovers(path, place);
  }

  // ----- the two names of one hive -----

  function Keyed(name: string, hive: Hive, comps: seq<string>): Written {
    var text := name + Join(comps, '\\');
    Written(text, Spelling("", hive, 0, text, 0, ""), comps)
  }

  lemma KeyedIsWritten(name: string, hive: Hive, comps: seq<string>)
    requires ReadsAs(name, hive.Prefix()) && PlainKey(comps) && forall k :: 0 <= k < |comps| ==> NUL !in comps[k]
    ensures Keyed(name, hive, comps).Valid()
  {
    var text := name + Join(comps, '\\');
    assert text == "" + text + "";
    assert Spelling("", hive, 0, text, 0, "").Canonical(comps) == hive.Prefix() + Join(comps, '\\');
  }

  lemma HivesCollide(short: string, long: string, key: seq<string>, below: seq<string>, name: string)
    requires ReadsAs(short, Short.Prefix()) && ReadsAs(long, Long.Prefix())
    requires PlainKey(key) && PlainKey(below) && key <= below && NUL !in name
    requires forall k :: 0 <= k < |below| ==> NUL !in below[k]
    ensures ClaimsOverlap(KeyClaim(short + Join(key, '\\')), ValueClaim(long + Join(below, '\\'), name))
  {
    KeyedIsWritten(short, Short, key);
    KeyedIsWritten(long, Long, below);
    KeyAndValueCollide(Keyed(short, Short, key), Keyed(long, Long, below), name);
    assert Above(key, below);
  }

  /** An import into a key named through one name of the hive contests the set that writes a value at or
    * below that key through the other name. */
  lemma ImportContestsValue(claims: seq<OwnedClaim>, short: string, long: string,
    key: seq<string>, below: seq<string>, name: string)
    requires ReadsAs(short, Short.Prefix()) && ReadsAs(long, Long.Prefix())
    requires PlainKey(key) && PlainKey(below) && key <= below && NUL !in name
    requires forall k :: 0 <= k < |below| ==> NUL !in below[k]
    requires claims == [
      OwnedClaim(ValueClaim(long + Join(below, '\\'), name), Generation(0)),
      OwnedClaim(KeyClaim(short + Join(key, '\\')), Legacy("lane"))]
    ensures Contested(claims, Generation(0)) && Contested(claims, Legacy("lane"))
  {
    HivesCollide(short, long, key, below, name);
    OverlapLaws(claims[0].text, claims[1].text);
    assert Conflict(claims[0], claims[1]) && Conflict(claims[1], claims[0]);
  }
}
