/** Restore claims: the text identity of a target one owner is about to change, the overlap test
  * on such texts, and the set of host locations each text stands for. */
module Claims {
  import opened Text

  const NUL := '\0'
  const FILE_TAG := "file\0"
  const VALUE_TAG := "registry-value"
  const KEY_TAG := "registry-key"

  function FileClaim(concretePath: string): string {
    FILE_TAG + TrimSuffixChar(concretePath, '/')
  }

  function ValueClaim(key: string, name: string): string {
    VALUE_TAG + [NUL] + NormalizeRegistryKey(key) + [NUL] + Lower(name)
  }

  function KeyClaim(key: string): string {
    KEY_TAG + [NUL] + NormalizeRegistryKey(key)
  }

  function NormalizeRegistryKey(value: string): string {
    var folded := Lower(ReplaceChar(TrimSpace(value), '/', '\\'));
    var relative := TrimPrefix(TrimPrefix(folded, "hkey_current_user\\"), "hkcu\\");
    Trim(relative, IsBackslash)
  }

  predicate IsBackslash(c: char) {
    c == '\\'
  }

  datatype RegistryClaim = RegistryClaim(kind: string, key: string, value: string)

  function ParseRegistryClaim(text: string): RegistryClaim {
    var parts := Split(text, NUL);
    RegistryClaim(parts[0], if |parts| > 1 then parts[1] else "", if |parts| > 2 then parts[2] else "")
  }

  predicate IsRegistryText(text: string) {
    "registry-" <= text
  }

  predicate RegistryClaimsOverlap(left: string, right: string) {
    var l, r := ParseRegistryClaim(left), ParseRegistryClaim(right);
    if l.kind == VALUE_TAG && r.kind == VALUE_TAG then
      l.key == r.key && l.value == r.value
    else if l.kind == KEY_TAG && r.kind == KEY_TAG then
      PathsOverlap(l.key, r.key, '\\')
    else
      var (l, r) := if l.kind == VALUE_TAG then (r, l) else (l, r);
      l.kind == KEY_TAG && r.kind == VALUE_TAG && AtOrBelow(l.key, r.key, '\\')
  }

  predicate ClaimsOverlap(left: string, right: string) {
    if IsRegistryText(left) || IsRegistryText(right) then
      RegistryClaimsOverlap(left, right)
    else
      PathsOverlap(TrimPrefix(left, FILE_TAG), TrimPrefix(right, FILE_TAG), '/')
  }

  /** A place of the host an action can change. */
  datatype Location = FileAt(path: seq<string>) | ValueAt(key: seq<string>, name: string)

  /** What a claim stands for: a file subtree, one registry value, or a registry key subtree. */
  predicate Covers(claim: string, place: Location) {
    if IsRegistryText(claim) then
      var c := ParseRegistryClaim(claim);
      place.ValueAt? &&
      (if c.kind == VALUE_TAG then place.key == Split(c.key, '\\') && place.name == c.value
       else c.kind == KEY_TAG && Split(c.key, '\\') <= place.key)
    else
      place.FileAt? && Split(TrimPrefix(claim, FILE_TAG), '/') <= place.path
  }

  ghost predicate Meet(left: string, right: string) {
    exists place :: Covers(left, place) && Covers(right, place)
  }

  lemma KindOfTaggedText(text: string)
    requires !IsRegistryText(text)
    ensures ParseRegistryClaim(text).kind != VALUE_TAG && ParseRegistryClaim(text).kind != KEY_TAG
  {
    var head := Split(text, NUL)[0];
    HeadIsPrefix(text);
    assert head <= text;
  }

  lemma {:induction false} HeadIsPrefix(text: string)
    ensures Split(text, NUL)[0] <= text
  {
    if text != "" && text[0] != NUL {
      HeadIsPrefix(text[1..]);
      assert text == [text[0]] + text[1..];
    }
  }

  /** The overlap test is exact: it holds of two claim texts precisely when some host location
    * is covered by both. */
  lemma OverlapIsMeeting(left: string, right: string)
    ensures ClaimsOverlap(left, right) <==> Meet(left, right)
  {
    if !IsRegistryText(left) && !IsRegistryText(right) {
      FilesMeet(TrimPrefix(left, FILE_TAG), TrimPrefix(right, FILE_TAG), left, right);
    } else if IsRegistryText(left) && IsRegistryText(right) {
      RegistryMeets(left, right);
    } else {
      if IsRegistryText(left) { KindOfTaggedText(right); } else { KindOfTaggedText(left); }
    }
  }

  lemma FilesMeet(l: string, r: string, left: string, right: string)
    requires !IsRegistryText(left) && !IsRegistryText(right)
    requires l == TrimPrefix(left, FILE_TAG) && r == TrimPrefix(right, FILE_TAG)
    ensures ClaimsOverlap(left, right) <==> Meet(left, right)
  {
    PathsOverlapIsNested(l, r, '/');
    SubtreesMeet(Split(l, '/'), Split(r, '/'));
    if ClaimsOverlap(left, right) {
      var p: seq<string> :| InSubtree(Split(l, '/'), p) && InSubtree(Split(r, '/'), p);
      assert Covers(left, FileAt(p)) && Covers(right, FileAt(p));
    }
    if Meet(left, right) {
      var place :| Covers(left, place) && Covers(right, place);
      assert InSubtree(Split(l, '/'), place.path) && InSubtree(Split(r, '/'), place.path);
    }
  }

  lemma RegistryMeets(left: string, right: string)
    requires IsRegistryText(left) && IsRegistryText(right)
    ensures ClaimsOverlap(left, right) <==> Meet(left, right)
  {
    var l, r := ParseRegistryClaim(left), ParseRegistryClaim(right);
    var lk, rk := Split(l.key, '\\'), Split(r.key, '\\');
    AtOrBelowIsComponentPrefix(l.key, r.key, '\\');
    AtOrBelowIsComponentPrefix(r.key, l.key, '\\');
    SubtreesMeet(lk, rk);
    if ClaimsOverlap(left, right) {
      var place :=
        if l.kind == VALUE_TAG then ValueAt(lk, l.value)
        else if r.kind == VALUE_TAG then ValueAt(rk, r.value)
        else ValueAt(if lk <= rk then rk else lk, "");
      assert Covers(left, place) && Covers(right, place);
    }
    if Meet(left, right) {
      var place :| Covers(left, place) && Covers(right, place);
      assert InSubtree(lk, place.key) && InSubtree(rk, place.key);
      if lk == rk { SplitInjective(l.key, r.key, '\\'); }
    }
  }

  /** Symmetric, and never true between a file claim and a registry claim. */
  lemma OverlapLaws(left: string, right: string)
    ensures ClaimsOverlap(left, right) == ClaimsOverlap(right, left)
    ensures IsRegistryText(left) != IsRegistryText(right) ==> !ClaimsOverlap(left, right)
  {
    OverlapIsMeeting(left, right);
    OverlapIsMeeting(right, left);
  }

  lemma ParseTwo(tag: string, key: string)
    requires NUL !in tag && NUL !in key
    ensures ParseRegistryClaim(tag + [NUL] + key) == RegistryClaim(tag, key, "")
  {
    SplitAppend(tag, key, NUL);
    SplitOne(key, NUL);
  }

  lemma ParseThree(tag: string, key: string, name: string)
    requires NUL !in tag && NUL !in key && NUL !in name
    ensures ParseRegistryClaim(tag + [NUL] + key + [NUL] + name) == RegistryClaim(tag, key, name)
  {
    SplitAppend(tag, key + [NUL] + name, NUL);
    SplitAppend(key, name, NUL);
    SplitOne(name, NUL);
    assert tag + [NUL] + key + [NUL] + name == tag + [NUL] + (key + [NUL] + name);
  }

  /** The texts the executor builds stand for the targets they were built from, when neither the
    * registry key nor the value name carries a NUL. */
  lemma FileClaimCovers(path: string, place: Location)
    ensures Covers(FileClaim(path), place) <==>
            place.FileAt? && Split(TrimSuffixChar(path, '/'), '/') <= place.path
  {
    assert FileClaim(path)[0] == 'f';
    assert TrimPrefix(FileClaim(path), FILE_TAG) == TrimSuffixChar(path, '/');
  }

  lemma ValueClaimCovers(key: string, name: string, place: Location)
    requires NUL !in NormalizeRegistryKey(key) && NUL !in name
    ensures Covers(ValueClaim(key, name), place) <==>
            place == ValueAt(Split(NormalizeRegistryKey(key), '\\'), Lower(name))
  {
    var k, n := NormalizeRegistryKey(key), Lower(name);
    assert NUL !in n by {
      forall i | 0 <= i < |name| ensures n[i] != NUL { assert name[i] in name; }
    }
    ParseThree(VALUE_TAG, k, n);
    assert "registry-" <= VALUE_TAG <= ValueClaim(key, name);
  }

  lemma KeyClaimCovers(key: string, place: Location)
    requires NUL !in NormalizeRegistryKey(key)
    ensures Covers(KeyClaim(key), place) <==>
            place.ValueAt? && Split(NormalizeRegistryKey(key), '\\') <= place.key
  {
    var k := NormalizeRegistryKey(key);
    ParseTwo(KEY_TAG, k);
    assert "registry-" <= KEY_TAG <= KeyClaim(key);
  }
}
