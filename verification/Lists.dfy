/** Filtering a list, and where in it the kept elements stood. */
module Lists {

  /** `filter`: the elements that pass, in order. */
  function Filter<T>(xs: seq<T>, keep: T -> bool): (r: seq<T>)
    ensures forall i :: 0 <= i < |r| ==> keep(r[i])
  {
    if xs == [] then [] else (if keep(xs[0]) then [xs[0]] else []) + Filter(xs[1..], keep)
  }

  /** The positions `at`, ascending, are those of exactly the elements that pass, and `out` is what stands there. */
  ghost predicate Kept<T>(xs: seq<T>, keep: T -> bool, out: seq<T>, at: seq<nat>) {
    && |at| == |out|
    && (forall k :: 0 <= k < |at| ==> at[k] < |xs| && out[k] == xs[at[k]])
    && (forall k, h :: 0 <= k < h < |at| ==> at[k] < at[h])
    && (forall i: nat :: i < |xs| ==> (keep(xs[i]) <==> i in at))
  }

  lemma {:induction false} FilterKeeps<T>(xs: seq<T>, keep: T -> bool) returns (at: seq<nat>)
    ensures Kept(xs, keep, Filter(xs, keep), at)
  {
    if xs == [] {
      at := [];
    } else {
      hide Kept;
      var rest := FilterKeeps(xs[1..], keep);
      var up := seq(|rest|, k requires 0 <= k < |rest| => rest[k] + 1);
      at := (if keep(xs[0]) then [0] else []) + up;
      var out := Filter(xs[1..], keep);
      assert xs == [xs[0]] + xs[1..];
      KeptUp(xs[0], xs[1..], keep, out, rest, up);
      if keep(xs[0]) { KeptFirst(xs, keep, out, up); } else { assert [] + up == up && [] + out == out; KeptSame(xs, keep, out, up); }
    }
  }

  /** Behind one more element every position is one further on. */
  ghost predicate KeptLater<T>(xs: seq<T>, keep: T -> bool, out: seq<T>, at: seq<nat>) {
    && |at| == |out|
    && (forall k :: 0 <= k < |at| ==> 0 < at[k] < |xs| && out[k] == xs[at[k]])
    && (forall k, h :: 0 <= k < h < |at| ==> at[k] < at[h])
    && (forall i: nat :: 0 < i < |xs| ==> (keep(xs[i]) <==> i in at))
  }

  lemma KeptUp<T>(x: T, xs: seq<T>, keep: T -> bool, out: seq<T>, at: seq<nat>, up: seq<nat>)
    requires Kept(xs, keep, out, at) && |up| == |at| && forall k :: 0 <= k < |at| ==> up[k] == at[k] + 1
    ensures KeptLater([x] + xs, keep, out, up)
  {
    var all := [x] + xs;
    forall i: nat | 0 < i < |all| ensures keep(all[i]) <==> i in up {
      assert all[i] == xs[i - 1];
      if i - 1 in at {
        var k :| 0 <= k < |at| && at[k] == i - 1;
        assert up[k] == i;
      }
      if i in up {
        var k :| 0 <= k < |up| && up[k] == i;
        assert at[k] == i - 1;
      }
    }
  }

  lemma KeptFirst<T>(xs: seq<T>, keep: T -> bool, out: seq<T>, up: seq<nat>)
    requires xs != [] && keep(xs[0]) && KeptLater(xs, keep, out, up)
    ensures Kept(xs, keep, [xs[0]] + out, [0] + up)
  {
    var at := [0] + up;
    assert at[0] == 0;
    forall i: nat | i < |xs| ensures keep(xs[i]) <==> i in at { if i > 0 { assert i in at <==> i in up; } }
  }

  lemma KeptSame<T>(xs: seq<T>, keep: T -> bool, out: seq<T>, up: seq<nat>)
    requires xs != [] && !keep(xs[0]) && KeptLater(xs, keep, out, up)
    ensures Kept(xs, keep, out, up)
  {
  }
}
