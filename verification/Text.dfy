/** Strings as the engine handles them: case folding, trimming, splitting at a separator,
  * and the one law behind every "equal or nested path" test of the repository. */
module Text {

  /** Folds one ASCII letter to lower case. */
  function LowerChar(c: char): char {
    if 'A' <= c <= 'Z' then c - 'A' + 'a' else c
  }

  function Lower(s: string): (r: string)
    ensures |r| == |s| && forall i :: 0 <= i < |s| ==> r[i] == LowerChar(s[i])
  {
    seq(|s|, i requires 0 <= i < |s| => LowerChar(s[i]))
  }

  /** One letter in upper and in lower case, or one and the same character. */
  predicate SameLetter(a: char, b: char) {
    || a == b || ('A' <= a <= 'Z' && b as int == a as int + 32) || ('A' <= b <= 'Z' && a as int == b as int + 32)
  }

  lemma FoldsAlike(a: char, b: char)
    ensures LowerChar(a) == LowerChar(b) <==> SameLetter(a, b)
  {
  }

  lemma LowerAppend(a: string, b: string)
    ensures Lower(a + b) == Lower(a) + Lower(b)
  {
  }

  predicate IsSpace(c: char) {
    c == ' ' || c == '\t' || c == '\n' || c == '\r' || c == '\U{0B}' || c == '\U{0C}' || c == '\U{85}' || c == '\U{A0}'
  }

  function TrimLeft(s: string, cut: char -> bool): string {
    if s != "" && cut(s[0]) then TrimLeft(s[1..], cut) else s
  }

  function TrimRight(s: string, cut: char -> bool): string {
    if s != "" && cut(s[|s| - 1]) then TrimRight(s[..|s| - 1], cut) else s
  }

  function Trim(s: string, cut: char -> bool): string {
    TrimRight(TrimLeft(s, cut), cut)
  }

  function TrimSpace(s: string): string {
    Trim(s, IsSpace)
  }

  lemma {:induction false} TrimRightShrinks(s: string, cut: char -> bool)
    ensures |TrimRight(s, cut)| <= |s| && (TrimRight(s, cut) != s ==> |TrimRight(s, cut)| < |s|)
    ensures TrimRight(s, cut) == s <==> s == "" || !cut(s[|s| - 1])
  {
    if s != "" && cut(s[|s| - 1]) { TrimRightShrinks(s[..|s| - 1], cut); }
  }

  lemma {:induction false} TrimLeftShrinks(s: string, cut: char -> bool)
    ensures |TrimLeft(s, cut)| <= |s| && (TrimLeft(s, cut) != s ==> |TrimLeft(s, cut)| < |s|)
    ensures TrimLeft(s, cut) == s <==> s == "" || !cut(s[0])
  {
    if s != "" && cut(s[0]) { TrimLeftShrinks(s[1..], cut); }
  }

  /** A text is trimmed exactly when neither of its ends is white space. */
  lemma TrimmedEnds(s: string)
    ensures TrimSpace(s) == s <==> s == "" || (!IsSpace(s[0]) && !IsSpace(s[|s| - 1]))
  {
    TrimLeftShrinks(s, IsSpace);
    TrimRightShrinks(TrimLeft(s, IsSpace), IsSpace);
  }

  /** Trimming takes off exactly the outer characters to be cut. */
  lemma {:induction false} TrimExactly(before: string, inner: string, after: string, cut: char -> bool)
    requires inner != "" && !cut(inner[0]) && !cut(inner[|inner| - 1])
    requires forall c :: c in before || c in after ==> cut(c)
    ensures Trim(before + inner + after, cut) == inner
    decreases |before| + |after|
  {
    var s := before + inner + after;
    if before != "" {
      assert s[0] == before[0] && s[1..] == before[1..] + inner + after;
      TrimExactly(before[1..], inner, after, cut);
    } else if after != "" {
      var shorter := after[..|after| - 1];
      assert s[|s| - 1] == after[|after| - 1] && s[..|s| - 1] == inner + shorter == before + inner + shorter;
      assert s[0] == inner[0] && (inner + shorter)[0] == inner[0];
      TrimExactly(before, inner, shorter, cut);
    } else {
      assert s == inner;
    }
  }

  function TrimSuffixChar(s: string, c: char): string {
    if s != "" && s[|s| - 1] == c then s[..|s| - 1] else s
  }

  function TrimPrefix(s: string, p: string): string {
    if p <= s then s[|p|..] else s
  }

  function ReplaceChar(s: string, from: char, to: char): (r: string)
    ensures |r| == |s|
    ensures forall i :: 0 <= i < |s| ==> r[i] == if s[i] == from then to else s[i]
  {
    seq(|s|, i requires 0 <= i < |s| => if s[i] == from then to else s[i])
  }

  /** The substrings between separators; there is always at least one. */
  function Split(s: string, sep: char): (parts: seq<string>)
    ensures |parts| >= 1
    ensures forall k :: 0 <= k < |parts| ==> sep !in parts[k]
  {
    if s == "" then [""]
    else
      var rest := Split(s[1..], sep);
      if s[0] == sep then [""] + rest else [[s[0]] + rest[0]] + rest[1..]
  }

  function Join(parts: seq<string>, sep: char): string {
    if |parts| == 0 then ""
    else if |parts| == 1 then parts[0]
    else parts[0] + [sep] + Join(parts[1..], sep)
  }

  lemma {:induction false} JoinSplit(s: string, sep: char)
    ensures Join(Split(s, sep), sep) == s
  {
    if s != "" {
      var rest := Split(s[1..], sep);
      JoinSplit(s[1..], sep);
      if s[0] == sep {
        assert ([""] + rest)[1..] == rest;
        assert Join([""] + rest, sep) == [sep] + Join(rest, sep);
      } else {
        var first := [s[0]] + rest[0];
        assert ([first] + rest[1..])[1..] == rest[1..];
        assert Join([first] + rest[1..], sep) == [s[0]] + Join(rest, sep);
      }
      assert s == [s[0]] + s[1..];
    }
  }

  lemma {:induction false} SplitOne(s: string, sep: char)
    requires sep !in s
    ensures Split(s, sep) == [s]
  {
    if s != "" {
      SplitOne(s[1..], sep);
      assert s == [s[0]] + s[1..];
    }
  }

  lemma {:induction false} SplitAppend(first: string, tail: string, sep: char)
    requires sep !in first
    ensures Split(first + [sep] + tail, sep) == [first] + Split(tail, sep)
  {
    var s := first + [sep] + tail;
    if first == "" {
      assert s[1..] == tail;
    } else {
      assert s[1..] == first[1..] + [sep] + tail;
      SplitAppend(first[1..], tail, sep);
      assert first == [first[0]] + first[1..];
    }
  }

  lemma {:induction false} SplitJoin(parts: seq<string>, sep: char)
    requires |parts| >= 1
    requires forall k :: 0 <= k < |parts| ==> sep !in parts[k]
    ensures Split(Join(parts, sep), sep) == parts
  {
    if |parts| == 1 {
      SplitOne(parts[0], sep);
    } else {
      SplitJoin(parts[1..], sep);
      SplitAppend(parts[0], Join(parts[1..], sep), sep);
      assert parts == [parts[0]] + parts[1..];
    }
  }

  lemma SplitInjective(left: string, right: string, sep: char)
    requires Split(left, sep) == Split(right, sep)
    ensures left == right
  {
    JoinSplit(left, sep);
    JoinSplit(right, sep);
  }

  /** `path` is `root` or lies below it, tested the way the engine tests it: on the text. */
  predicate AtOrBelow(root: string, path: string, sep: char) {
    root == path || root + [sep] <= path
  }

  /** Equal or nested in either direction. */
  predicate PathsOverlap(left: string, right: string, sep: char) {
    left == right || right + [sep] <= left || left + [sep] <= right
  }

  lemma ConsPrefix<T>(x: T, a: seq<T>, y: T, b: seq<T>)
    ensures [x] + a <= [y] + b <==> x == y && a <= b
  {
    if [x] + a <= [y] + b {
      assert x == ([x] + a)[0] == ([y] + b)[0] == y;
      assert a == ([x] + a)[1..] && b == ([y] + b)[1..];
      assert forall i :: 0 <= i < |a| ==> a[i] == ([x] + a)[i + 1] == ([y] + b)[i + 1] == b[i];
    }
  }

  /** The separator-aware text prefix is exactly the component prefix, for every string. */
  lemma {:induction false} AtOrBelowIsComponentPrefix(root: string, path: string, sep: char)
    ensures AtOrBelow(root, path, sep) <==> Split(root, sep) <= Split(path, sep)
  {
    if root == "" {
      assert Split(root, sep) == [""];
    } else if path == "" {
      var rest := Split(root[1..], sep);
      assert |Split(path, sep)| == 1 && Split(path, sep)[0] == "";
      assert root[0] != sep ==> Split(root, sep)[0] != "";
    } else {
      AtOrBelowIsComponentPrefix(root[1..], path[1..], sep);
      var a, b := Split(root[1..], sep), Split(path[1..], sep);
      var c, d := root[0], path[0];
      assert root == [c] + root[1..] && path == [d] + path[1..];
      assert root + [sep] == [c] + (root[1..] + [sep]);
      ConsPrefix(c, root[1..] + [sep], d, path[1..]);
      assert a == [a[0]] + a[1..] && b == [b[0]] + b[1..];
      ConsPrefix(a[0], a[1..], b[0], b[1..]);
      if c == sep || d == sep {
        ConsPrefix(Split(root, sep)[0], Split(root, sep)[1..], Split(path, sep)[0], Split(path, sep)[1..]);
        assert Split(root, sep) == [Split(root, sep)[0]] + Split(root, sep)[1..];
        assert Split(path, sep) == [Split(path, sep)[0]] + Split(path, sep)[1..];
        assert c == sep ==> Split(root, sep)[1..] == a;
        assert d == sep ==> Split(path, sep)[1..] == b;
      } else {
        ConsPrefix([c] + a[0], a[1..], [d] + b[0], b[1..]);
        assert [c] + a[0] == [d] + b[0] <==> c == d && a[0] == b[0] by {
          ConsPrefix(c, a[0], d, b[0]);
          ConsPrefix(d, b[0], c, a[0]);
        }
      }
    }
  }

  /** One component list is a prefix of the other. */
  predicate Nested<T(==)>(left: seq<T>, right: seq<T>) {
    left <= right || right <= left
  }

  predicate InSubtree<T(==)>(root: seq<T>, path: seq<T>) {
    root <= path
  }

  /** Nested component lists are exactly the ones whose subtrees share a location. */
  lemma SubtreesMeet<T>(left: seq<T>, right: seq<T>)
    ensures Nested(left, right) <==> exists p: seq<T> :: InSubtree(left, p) && InSubtree(right, p)
  {
    if left <= right {
      assert InSubtree(left, right) && InSubtree(right, right);
    } else if right <= left {
      assert InSubtree(left, left) && InSubtree(right, left);
    }
    forall p: seq<T> | InSubtree(left, p) && InSubtree(right, p)
      ensures Nested(left, right)
    {
      if |left| <= |right| {
        assert left == p[..|left|] == right[..|left|];
      } else {
        assert right == p[..|right|] == left[..|right|];
      }
    }
  }

  /** The overlap test decides subtree intersection, symmetrically. */
  lemma PathsOverlapIsNested(left: string, right: string, sep: char)
    ensures PathsOverlap(left, right, sep) <==> Nested(Split(left, sep), Split(right, sep))
    ensures PathsOverlap(left, right, sep) == PathsOverlap(right, left, sep)
  {
    AtOrBelowIsComponentPrefix(left, right, sep);
    AtOrBelowIsComponentPrefix(right, left, sep);
  }
}
