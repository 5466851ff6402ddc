/** Byte-wise string order and the sorts built on it. */
module Ordering {

  predicate Less(a: string, b: string) {
    b != "" && (a == "" || a[0] < b[0] || (a[0] == b[0] && Less(a[1..], b[1..])))
  }

  lemma {:induction false} LessTotal(a: string, b: string)
    ensures Less(a, b) || a == b || Less(b, a)
    ensures !(Less(a, b) && Less(b, a)) && !Less(a, a)
  {
    if a != "" && b != "" {
      LessTotal(a[1..], b[1..]);
      LessTotal(a[1..], a[1..]);
      assert a == [a[0]] + a[1..] && b == [b[0]] + b[1..];
    } else if a != "" {
      LessTotal(a[1..], a[1..]);
    }
  }

  lemma {:induction false} LessTransitive(a: string, b: string, c: string)
    requires Less(a, b) && Less(b, c)
    ensures Less(a, c)
  {
    if a != "" && a[0] == b[0] == c[0] { LessTransitive(a[1..], b[1..], c[1..]); }
  }

  /** Byte by byte: the strings agree up to a place where the first one ends or has the smaller byte. */
  lemma {:induction false} LessExactly(a: string, b: string)
    ensures Less(a, b) <==>
      exists i: nat :: i <= |a| && i < |b| && a[..i] == b[..i] && (i == |a| || a[i] < b[i])
  {
    if a != "" && b != "" && a[0] == b[0] {
      var x, y := a[1..], b[1..];
      LessExactly(x, y);
      assert forall i: nat :: i <= |x| && i <= |y| ==> a[..i + 1] == [a[0]] + x[..i] && b[..i + 1] == [b[0]] + y[..i];
      if i: nat :| i <= |x| && i < |y| && x[..i] == y[..i] && (i == |x| || x[i] < y[i]) {
        assert a[..i + 1] == b[..i + 1] && (i + 1 == |a| || a[i + 1] < b[i + 1]);
      }
      if i: nat :| i <= |a| && i < |b| && a[..i] == b[..i] && (i == |a| || a[i] < b[i]) {
        assert i > 0;
        assert x[..i - 1] == a[..i][1..] && y[..i - 1] == b[..i][1..];
        assert i - 1 == |x| || x[i - 1] < y[i - 1];
      }
    } else if b != "" {
      assert a[..0] == b[..0];
    }
  }

  function Insert<T>(x: T, sorted: seq<T>, key: T -> string): (r: seq<T>)
    ensures multiset(r) == multiset(sorted) + multiset{x}
  {
    if sorted == [] then [x]
    else if Less(key(sorted[0]), key(x)) then
      assert sorted == [sorted[0]] + sorted[1..];
      [sorted[0]] + Insert(x, sorted[1..], key)
    else
      [x] + sorted
  }

  /** The stable sort by a string key. */
  function SortBy<T>(s: seq<T>, key: T -> string): (r: seq<T>)
    ensures multiset(r) == multiset(s)
  {
    if s == [] then []
    else
      assert s == [s[0]] + s[1..];
      Insert(s[0], SortBy(s[1..], key), key)
  }

  ghost predicate SortedBy<T>(s: seq<T>, key: T -> string) {
    forall i, j :: 0 <= i < j < |s| ==> !Less(key(s[j]), key(s[i]))
  }

  lemma {:induction false} InsertSorted<T>(x: T, s: seq<T>, key: T -> string)
    requires SortedBy(s, key)
    ensures SortedBy(Insert(x, s, key), key)
  {
    var r := Insert(x, s, key);
    if s != [] && Less(key(s[0]), key(x)) {
      var tail := Insert(x, s[1..], key);
      InsertSorted(x, s[1..], key);
      forall j | 0 <= j < |tail| ensures !Less(key(tail[j]), key(s[0])) {
        assert tail[j] in multiset(s[1..]) + multiset{x};
        LessTotal(key(s[0]), key(x));
        if tail[j] in s[1..] { assert exists k :: 0 < k < |s| && s[k] == tail[j]; }
      }
    } else if s != [] {
      forall j | 0 < j < |r| ensures !Less(key(r[j]), key(x)) {
        if Less(key(s[j - 1]), key(x)) {
          LessTotal(key(s[0]), key(x));
          LessTotal(key(s[0]), key(s[j - 1]));
          if Less(key(x), key(s[0])) { LessTransitive(key(s[j - 1]), key(x), key(s[0])); }
        }
      }
    }
  }

  lemma {:induction false} SortBySorts<T>(s: seq<T>, key: T -> string)
    ensures SortedBy(SortBy(s, key), key)
  {
    if s != [] {
      SortBySorts(s[1..], key);
      InsertSorted(s[0], SortBy(s[1..], key), key);
    }
  }

  /** Sorting keeps the length and the members. */
  lemma SortByMembers<T>(s: seq<T>, key: T -> string)
    ensures |SortBy(s, key)| == |s| && forall x :: x in SortBy(s, key) <==> x in s
  {
    var r := SortBy(s, key);
    assert |multiset(r)| == |r| && |multiset(s)| == |s|;
    forall x ensures x in r <==> x in s { assert x in multiset(r) <==> x in multiset(s); }
  }

  predicate NoRepeats<T(==)>(s: seq<T>) {
    forall i, j :: 0 <= i < j < |s| ==> s[i] != s[j]
  }

  function Elements<T>(s: seq<T>): set<T> {
    set x | x in s
  }

  /** Sorting keeps the elements, and keeps a sequence free of repeats. */
  lemma SortByElements<T>(s: seq<T>, key: T -> string)
    ensures Elements(SortBy(s, key)) == Elements(s)
    ensures NoRepeats(s) ==> NoRepeats(SortBy(s, key))
  {
    PermutationElements(s, SortBy(s, key));
    if NoRepeats(s) { PermutationRepeats(s, SortBy(s, key)); }
  }

  lemma PermutationElements<T>(s: seq<T>, r: seq<T>)
    requires multiset(r) == multiset(s)
    ensures Elements(r) == Elements(s)
  {
    assert forall x :: x in r <==> x in multiset(r);
    assert forall x :: x in s <==> x in multiset(s);
  }

  lemma PermutationRepeats<T>(s: seq<T>, r: seq<T>)
    requires multiset(r) == multiset(s) && NoRepeats(s)
    ensures NoRepeats(r)
  {
    forall i, j | 0 <= i < j < |r| ensures r[i] != r[j] {
      assert r == r[..i] + [r[i]] + r[i + 1..j] + [r[j]] + r[j + 1..];
      OnceEach(s, r[i]);
    }
  }

  /** Sorts a list, for callers that only need what sorting keeps. */
  method Sort<T(==)>(s: seq<T>, key: T -> string) returns (r: seq<T>)
    ensures multiset(r) == multiset(s) && SortedBy(r, key)
    ensures Elements(r) == Elements(s) && (NoRepeats(s) ==> NoRepeats(r))
  {
    r := SortBy(s, key);
    SortBySorts(s, key);
    SortByElements(s, key);
  }

  lemma {:induction false} OnceEach<T>(s: seq<T>, x: T)
    requires NoRepeats(s)
    ensures multiset(s)[x] <= 1
  {
    if s != [] {
      var rest := s[1..];
      assert s == [s[0]] + rest;
      OnceEach(rest, x);
      if s[0] == x { assert x !in rest; }
    }
  }
}
