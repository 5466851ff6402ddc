/** Sorting by several texts joined with NUL is sorting by one after the other. */
module KeyOrder {
  import opened Text
  import opened Ordering

  const NUL := '\0'

  predicate NulFree(fields: seq<string>) {
    forall k :: 0 <= k < |fields| ==> NUL !in fields[k]
  }

  /** The first field that differs decides. */
  predicate FieldsLess(a: seq<string>, b: seq<string>)
    requires |a| == |b|
  {
    a != [] && (Less(a[0], b[0]) || (a[0] == b[0] && FieldsLess(a[1..], b[1..])))
  }

  lemma {:induction false} HeadDecides(x: string, y: string, restX: string, restY: string)
    requires NUL !in x && NUL !in y
    ensures Less(x + [NUL] + restX, y + [NUL] + restY) <==> Less(x, y) || (x == y && Less(restX, restY))
  {
    var a, b := x + [NUL] + restX, y + [NUL] + restY;
    if x == "" && y == "" {
      assert a[1..] == restX && b[1..] == restY;
    } else if x == "" {
      assert y[0] in y && b[0] == y[0];
    } else if y == "" {
      assert x[0] in x && a[0] == x[0];
    } else {
      assert a[1..] == x[1..] + [NUL] + restX && b[1..] == y[1..] + [NUL] + restY;
      HeadDecides(x[1..], y[1..], restX, restY);
      assert x == [x[0]] + x[1..] && y == [y[0]] + y[1..];
    }
  }

  lemma {:induction false} JoinedOrder(a: seq<string>, b: seq<string>)
    requires |a| == |b| && NulFree(a) && NulFree(b)
    ensures Less(Join(a, NUL), Join(b, NUL)) <==> FieldsLess(a, b)
  {
    if |a| == 1 {
      assert !FieldsLess(a[1..], b[1..]);
    } else if a != [] {
      JoinedOrder(a[1..], b[1..]);
      HeadDecides(a[0], b[0], Join(a[1..], NUL), Join(b[1..], NUL));
    }
  }

  /** And the fields can be told from the joined text. */
  lemma JoinedInjective(a: seq<string>, b: seq<string>)
    requires |a| == |b| && NulFree(a) && NulFree(b) && Join(a, NUL) == Join(b, NUL)
    ensures a == b
  {
    if a != [] {
      SplitJoin(a, NUL);
      SplitJoin(b, NUL);
    }
  }
}
