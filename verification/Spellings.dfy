/** Texts that name one thing in different letter case and with either slash, and the components they
  * name. */
module Spellings {
  import opened Text

  /** Letter case and the choice of slash make no difference. */
  predicate Reads(a: char, b: char) {
    SameLetter(a, b) || (a in {'/', '\\'} && b in {'/', '\\'})
  }

  predicate ReadsAs(s: string, t: string) {
    |s| == |t| && forall i :: 0 <= i < |s| ==> Reads(s[i], t[i])
  }

  function Folded(comps: seq<string>): (folded: seq<string>)
    ensures |folded| == |comps| && forall k :: 0 <= k < |comps| ==> folded[k] == Lower(comps[k])
  {
    seq(|comps|, k requires 0 <= k < |comps| => Lower(comps[k]))
  }

  lemma ReadsFold(s: string, t: string, from: char, to: char)
    requires ReadsAs(s, t) && from in {'/', '\\'} && to in {'/', '\\'} && from != to
    ensures Lower(ReplaceChar(s, from, to)) == Lower(ReplaceChar(t, from, to))
  {
    forall i | 0 <= i < |s|
      ensures Lower(ReplaceChar(s, from, to))[i] == Lower(ReplaceChar(t, from, to))[i]
    {
      FoldsAlike(s[i], t[i]);
      assert Reads(s[i], t[i]);
    }
  }

  lemma {:induction false} LowerJoin(comps: seq<string>, sep: char)
    requires LowerChar(sep) == sep
    ensures Lower(Join(comps, sep)) == Join(Folded(comps), sep)
  {
    if |comps| > 1 {
      LowerJoin(comps[1..], sep);
      assert Folded(comps)[1..] == Folded(comps[1..]);
      LowerAppend(comps[0] + [sep], Join(comps[1..], sep));
      LowerAppend(comps[0], [sep]);
      assert Lower([sep]) == [sep];
    }
  }

  lemma {:induction false} JoinLacks(comps: seq<string>, sep: char, c: char)
    requires c != sep && forall k :: 0 <= k < |comps| ==> c !in comps[k]
    ensures c !in Join(comps, sep)
  {
    if |comps| > 1 { JoinLacks(comps[1..], sep, c); }
  }

  lemma {:induction false} JoinEnds(comps: seq<string>, sep: char)
    requires comps != [] && comps[0] != "" && comps[|comps| - 1] != ""
    ensures var text, last := Join(comps, sep), comps[|comps| - 1];
      text != "" && text[0] == comps[0][0] && text[|text| - 1] == last[|last| - 1]
  {
    if |comps| > 1 { LastOfJoin(comps[1..], sep); }
  }

  lemma {:induction false} LastOfJoin(comps: seq<string>, sep: char)
    requires comps != [] && comps[|comps| - 1] != ""
    ensures var text, last := Join(comps, sep), comps[|comps| - 1];
      text != "" && text[|text| - 1] == last[|last| - 1]
  {
    if |comps| > 1 { LastOfJoin(comps[1..], sep); }
  }

  lemma NothingToReplace(s: string, from: char, to: char)
    requires from !in s
    ensures ReplaceChar(s, from, to) == s
  {
    forall i | 0 <= i < |s| ensures ReplaceChar(s, from, to)[i] == s[i] { assert s[i] in s; }
  }

  lemma FoldLacks(s: string, c: char)
    requires c !in s && !('a' <= c <= 'z')
    ensures c !in Lower(s)
  {
    forall i | 0 <= i < |s| ensures Lower(s)[i] != c { assert s[i] in s; }
  }

  lemma EndGoes(text: string, path: string, c: char)
    requires text != "" && text[|text| - 1] != c && (path == text || path == text + [c])
    ensures TrimSuffixChar(path, c) == text
  {
  }

  predicate SameText(a: string, b: string) {
    |a| == |b| && forall i :: 0 <= i < |a| ==> SameLetter(a[i], b[i])
  }

  lemma SameTextFolds(a: string, b: string)
    ensures SameText(a, b) <==> Lower(a) == Lower(b)
  {
    forall i | 0 <= i < |a| && i < |b| ensures Lower(a)[i] == Lower(b)[i] <==> SameLetter(a[i], b[i]) {
      FoldsAlike(a[i], b[i]);
    }
  }

  /** The first key is the second one or lies above it, letter case aside. */
  predicate Above(a: seq<string>, b: seq<string>) {
    |a| <= |b| && forall k :: 0 <= k < |a| ==> SameText(a[k], b[k])
  }

  lemma AboveFolds(a: seq<string>, b: seq<string>)
    ensures Above(a, b) <==> Folded(a) <= Folded(b)
  {
    forall k | 0 <= k < |a| && k < |b| ensures SameText(a[k], b[k]) <==> Folded(a)[k] == Folded(b)[k] {
      SameTextFolds(a[k], b[k]);
    }
    if Folded(a) <= Folded(b) {
      forall k | 0 <= k < |a| ensures SameText(a[k], b[k]) { assert Folded(a)[k] == Folded(b)[k]; }
    }
  }
}
