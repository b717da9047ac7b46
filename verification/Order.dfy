/** String comparison by character, as SQLite's binary collation, JavaScript and Python sort strings. */
module Order {

  predicate Less(a: string, b: string) {
    b != "" && (a == "" || a[0] < b[0] || (a[0] == b[0] && Less(a[1..], b[1..])))
  }

  lemma {:induction false} LessTrans(a: string, b: string, c: string)
    requires Less(a, b) && Less(b, c)
    ensures Less(a, c)
  {
    if a != "" && a[0] == b[0] == c[0] { LessTrans(a[1..], b[1..], c[1..]); }
  }

  lemma {:induction false} LessTotal(a: string, b: string)
    ensures a == b || Less(a, b) || Less(b, a)
    ensures !(Less(a, b) && Less(b, a)) && !Less(a, a)
  {
    if a != "" && b != "" {
      if a[0] == b[0] {
        LessTotal(a[1..], b[1..]);
        assert a == [a[0]] + a[1..] && b == [b[0]] + b[1..];
      }
      LessIrreflexive(a);
    } else if a != "" {
      LessIrreflexive(a);
    }
  }

  lemma {:induction false} LessIrreflexive(a: string)
    ensures !Less(a, a)
  {
    if a != "" { LessIrreflexive(a[1..]); }
  }

  /** A difference in a common-length prefix decides the comparison. */
  lemma {:induction false} LessPrefix(a: string, b: string, x: string, y: string)
    requires |a| == |b| && Less(a, b)
    ensures Less(a + x, b + y)
  {
    if a[0] == b[0] {
      LessPrefix(a[1..], b[1..], x, y);
      assert (a + x)[1..] == a[1..] + x && (b + y)[1..] == b[1..] + y;
    }
  }

  // ---------------------------------------------------------------- sets of ids in order

  predicate Ascending(ids: seq<string>) {
    forall i, j :: 0 <= i < j < |ids| ==> Less(ids[i], ids[j])
  }

  predicate IsLeast(ids: set<string>, x: string) {
    x in ids && forall y :: y in ids ==> y == x || Less(x, y)
  }

  lemma {:induction false} LeastExists(ids: set<string>) returns (least: string)
    requires ids != {}
    ensures IsLeast(ids, least)
    decreases |ids|
  {
    var x :| x in ids;
    if ids == {x} {
      least := x;
    } else {
      assert ids == {x} + (ids - {x});
      var y := LeastExists(ids - {x});
      LessTotal(x, y);
      least := if Less(x, y) then x else y;
      forall z | z in ids && z != least ensures Less(least, z) {
        if least == x && z != y { LessTrans(x, y, z); }
      }
    }
  }

  lemma LeastUnique(ids: set<string>, x: string, y: string)
    requires IsLeast(ids, x) && IsLeast(ids, y)
    ensures x == y
  {
    LessTotal(x, y);
  }

  /** `ORDER BY id`: the ids ascending. */
  function SortIds(ids: set<string>): (r: seq<string>)
    ensures forall x :: x in r <==> x in ids
    ensures Ascending(r)
    decreases |ids|
  {
    if ids == {} then []
    else
      assert exists x :: IsLeast(ids, x) by { var x := LeastExists(ids); }
      assert forall x, y :: IsLeast(ids, x) && IsLeast(ids, y) ==> x == y by {
        forall x, y | IsLeast(ids, x) && IsLeast(ids, y) ensures x == y { LeastUnique(ids, x, y); }
      }
      var x :| IsLeast(ids, x);
      var rest := SortIds(ids - {x});
      assert forall j :: 0 <= j < |rest| ==> rest[j] in ids - {x};
      [x] + rest
  }
}
