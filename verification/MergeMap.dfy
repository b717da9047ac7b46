/**
 * The entity merge map (duplicate id to canonical id) and the walk that resolves an id through it.
 * Nothing stops the map from holding cycles, so the laws are stated for arbitrary maps first.
 */
module MergeMap {

  type Merges = map<string, string>

  /** The walk of `resolveEntity`: follow the map until an unmapped or an already seen id. */
  function Walk(m: Merges, current: string, seen: set<string>): string
    decreases m.Keys - seen
  {
    if current in m && current !in seen then Walk(m, m[current], seen + {current}) else current
  }

  function Resolve(m: Merges, id: string): string {
    Walk(m, id, {})
  }

  /** The loop itself; `hops` counts its iterations. */
  method ResolveEntity(m: Merges, id: string) returns (current: string, ghost hops: nat)
    ensures current == Resolve(m, id)
    ensures hops <= |m| && current == Nth(m, id, hops)
  {
    current := id;
    var seen: set<string> := {};
    hops := 0;
    while current in m && current !in seen
      invariant Walk(m, current, seen) == Resolve(m, id)
      invariant current == Nth(m, id, hops)
      invariant seen <= m.Keys && |seen| == hops
      decreases m.Keys - seen
    {
      NthStep(m, id, hops);
      seen := seen + {current};
      current := m[current];
      hops := hops + 1;
    }
    SubsetSize(seen, m.Keys);
  }

  lemma SubsetSize<T>(a: set<T>, b: set<T>)
    requires a <= b
    ensures |a| <= |b|
  {
    if a != {} {
      var x :| x in a;
      SubsetSize(a - {x}, b - {x});
    }
  }

  // ---------------------------------------------------------------- following the map

  function Next(m: Merges, x: string): string {
    if x in m then m[x] else x
  }

  /** The id n merges further on. */
  function Nth(m: Merges, x: string, n: nat): string
    decreases n
  {
    if n == 0 then x else Nth(m, Next(m, x), n - 1)
  }

  lemma {:induction false} NthStep(m: Merges, x: string, n: nat)
    ensures Nth(m, x, n + 1) == Next(m, Nth(m, x, n))
    decreases n
  {
    if n != 0 { NthStep(m, Next(m, x), n - 1); }
  }

  lemma {:induction false} NthSum(m: Merges, x: string, a: nat, b: nat)
    ensures Nth(m, x, a + b) == Nth(m, Nth(m, x, a), b)
    decreases a
  {
    if a != 0 { NthSum(m, Next(m, x), a - 1, b); }
  }

  lemma {:induction false} NthStuck(m: Merges, x: string, n: nat)
    requires x !in m
    ensures Nth(m, x, n) == x
  {
    if n != 0 { NthStuck(m, x, n - 1); }
  }

  /** An id that some number of merges leads back to. */
  ghost predicate OnCycle(m: Merges, x: string) {
    x in m && exists k: nat :: k > 0 && Nth(m, x, k) == x
  }

  ghost predicate Acyclic(m: Merges) {
    forall x :: !OnCycle(m, x)
  }

  /** Where a walk ends: an unmapped id, or an id on a cycle. */
  ghost predicate Stops(m: Merges, x: string) {
    x !in m || OnCycle(m, x)
  }

  /** The n-th id of the chain from x is the first that is unmapped or on a cycle. */
  ghost predicate FirstStop(m: Merges, x: string, n: nat) {
    Stops(m, Nth(m, x, n)) && forall j: nat :: j < n ==> !Stops(m, Nth(m, x, j))
  }

  lemma {:induction false} CycleRepeats(m: Merges, x: string, k: nat, t: nat)
    requires Nth(m, x, k) == x
    ensures Nth(m, x, k * t) == x
  {
    if t != 0 {
      CycleRepeats(m, x, k, t - 1);
      NthSum(m, x, k * (t - 1), k);
      assert k * (t - 1) + k == k * t;
    }
  }

  /** On a cycle, two visits to the same later id mean a visit to the start in between. */
  lemma CycleReturns(m: Merges, x: string, i: nat, j: nat)
    requires OnCycle(m, x) && j < i && Nth(m, x, i) == Nth(m, x, j)
    ensures Nth(m, x, i - j) == x
  {
    var k: nat :| k > 0 && Nth(m, x, k) == x;
    var t: nat := k * (j + 1) - j;
    assert k * (j + 1) >= j + 1;
    CycleRepeats(m, x, k, j + 1);
    NthSum(m, x, j, t);
    NthSum(m, x, i, t);
    NthSum(m, x, j + t, i - j);
  }

  ghost predicate Distinct(m: Merges, x: string, i: nat) {
    forall a: nat, b: nat :: a < b < i ==> Nth(m, x, a) != Nth(m, x, b)
  }

  ghost predicate Visited(m: Merges, x: string, i: nat, y: string) {
    exists j: nat :: j < i && Nth(m, x, j) == y
  }

  lemma VisitedNext(m: Merges, x: string, i: nat, y: string)
    ensures Visited(m, x, i + 1, y) <==> Visited(m, x, i, y) || y == Nth(m, x, i)
  {
    if y == Nth(m, x, i) { assert i < i + 1; }
    if Visited(m, x, i, y) {
      var j: nat :| j < i && Nth(m, x, j) == y;
      assert j < i + 1;
    }
  }

  /** The walk, i steps after leaving x along ids it had not seen, ends at the first stopping id. */
  lemma {:induction false} WalkStops(m: Merges, x: string, i: nat, seen: set<string>) returns (n: nat)
    requires Distinct(m, x, i)
    requires forall j: nat :: j < i ==> Nth(m, x, j) in m
    requires forall y :: y in seen <==> Visited(m, x, i, y)
    ensures FirstStop(m, x, n) && Walk(m, Nth(m, x, i), seen) == Nth(m, x, n)
    decreases m.Keys - seen
  {
    var current := Nth(m, x, i);
    if current in m && current !in seen {
      NthStep(m, x, i);
      forall y ensures y in seen + {current} <==> Visited(m, x, i + 1, y) { VisitedNext(m, x, i, y); }
      n := WalkStops(m, x, i + 1, seen + {current});
    } else if current !in m {
      n := i;
      forall j: nat | j < n ensures !Stops(m, Nth(m, x, j)) {
        var y := Nth(m, x, j);
        if OnCycle(m, y) {
          NthSum(m, x, j, i - j);
          NeverEnds(m, y, i - j);
        }
      }
    } else {
      var j: nat :| j < i && Nth(m, x, j) == current;
      n := j;
      NthSum(m, x, j, i - j);
      assert OnCycle(m, Nth(m, x, j));
      forall h: nat | h < n ensures !Stops(m, Nth(m, x, h)) {
        var y := Nth(m, x, h);
        if OnCycle(m, y) {
          NthSum(m, x, h, i - h);
          NthSum(m, x, h, j - h);
          CycleReturns(m, y, i - h, j - h);
          NthSum(m, x, h, i - j);
        }
      }
    }
  }

  /** From an id on a cycle every id reached is mapped. */
  lemma NeverEnds(m: Merges, x: string, n: nat)
    requires OnCycle(m, x)
    ensures Nth(m, x, n) in m
  {
    var k: nat :| k > 0 && Nth(m, x, k) == x;
    if Nth(m, x, n) !in m {
      var t: nat := k * (n + 1) - n;
      assert k * (n + 1) >= n + 1;
      CycleRepeats(m, x, k, n + 1);
      NthSum(m, x, n, t);
      NthStuck(m, Nth(m, x, n), t);
      assert false;
    }
  }

  // ---------------------------------------------------------------- resolution on arbitrary maps

  /** Resolution returns the first id of the chain that is unmapped or on a cycle. */
  lemma ResolveIsFirstStop(m: Merges, x: string) returns (n: nat)
    ensures FirstStop(m, x, n) && Resolve(m, x) == Nth(m, x, n)
  {
    n := WalkStops(m, x, 0, {});
  }

  lemma FirstStopUnique(m: Merges, x: string, a: nat, b: nat)
    requires FirstStop(m, x, a) && FirstStop(m, x, b)
    ensures a == b
  {
  }

  /** Resolving twice is resolving once; a resolved id is unmapped or on a cycle, and only those are fixed. */
  lemma ResolveIdempotent(m: Merges, x: string)
    ensures Resolve(m, Resolve(m, x)) == Resolve(m, x)
    ensures Stops(m, Resolve(m, x))
    ensures Resolve(m, x) == x <==> Stops(m, x)
  {
    var n := ResolveIsFirstStop(m, x);
    var r := Resolve(m, x);
    var k := ResolveIsFirstStop(m, r);
    assert Nth(m, r, 0) == r && Nth(m, x, 0) == x;
    FirstStopUnique(m, r, 0, k);
  }

  /** One merge further on the answer is the same, except where a cycle of several ids is entered. */
  lemma ResolveNext(m: Merges, x: string)
    requires x in m
    ensures Resolve(m, m[x]) == Resolve(m, x) <==> !OnCycle(m, x) || m[x] == x
  {
    ResolveIdempotent(m, x);
    ResolveIdempotent(m, m[x]);
    if OnCycle(m, x) {
      NextOnCycle(m, x);
    } else {
      var n := ResolveIsFirstStop(m, x);
      var k := ResolveIsFirstStop(m, m[x]);
      assert Nth(m, x, 0) == x;
      forall j: nat ensures Nth(m, m[x], j) == Nth(m, x, j + 1) {}
      assert FirstStop(m, m[x], n - 1);
      FirstStopUnique(m, m[x], n - 1, k);
    }
  }

  lemma NextOnCycle(m: Merges, x: string)
    requires OnCycle(m, x)
    ensures OnCycle(m, m[x])
  {
    var k: nat :| k > 0 && Nth(m, x, k) == x;
    NeverEnds(m, x, 1);
    assert Nth(m, x, 1) == m[x];
    NthSum(m, m[x], k - 1, 1);
    assert Nth(m, m[x], k - 1) == x;
    assert Nth(m, m[x], k) == m[x];
  }

  // ---------------------------------------------------------------- one more merge

  /** A chain that reaches an unmapped id resolves to it. */
  lemma EndWins(m: Merges, x: string, n: nat)
    requires Nth(m, x, n) !in m
    ensures Resolve(m, x) == Nth(m, x, n) && !OnCycle(m, x)
  {
    var k := ResolveIsFirstStop(m, x);
    if k > n {
      assert Stops(m, Nth(m, x, n));
    }
    NthSum(m, x, k, n - k);
    if OnCycle(m, Nth(m, x, k)) { NeverEnds(m, Nth(m, x, k), n - k); }
    NthStuck(m, Nth(m, x, k), n - k);
    if OnCycle(m, x) { NeverEnds(m, x, n); }
  }

  lemma AcyclicEnds(m: Merges, x: string) returns (n: nat)
    requires Acyclic(m)
    ensures Resolve(m, x) == Nth(m, x, n) && Nth(m, x, n) !in m
  {
    n := ResolveIsFirstStop(m, x);
  }

  /** Chains that end elsewhere than at `dup` do not notice a new merge of `dup`. */
  lemma {:induction false} SamePath(m: Merges, dup: string, canon: string, x: string, n: nat)
    requires dup !in m && Nth(m, x, n) != dup
    ensures Nth(m[dup := canon], x, n) == Nth(m, x, n)
    decreases n
  {
    if n != 0 {
      if x == dup { NthStuck(m, dup, n); }
      SamePath(m, dup, canon, Next(m, x), n - 1);
    }
  }

  /** Chains that end at `dup` get there as before. */
  lemma {:induction false} PathToDup(m: Merges, dup: string, canon: string, x: string, n: nat) returns (k: nat)
    requires dup !in m && Nth(m, x, n) == dup
    ensures Nth(m[dup := canon], x, k) == dup
    decreases n
  {
    if x == dup {
      k := 0;
    } else {
      k := PathToDup(m, dup, canon, Next(m, x), n - 1);
      k := k + 1;
    }
  }

  /** Where x resolves after `dup` has been merged into an id that `root` is the resolution of. */
  function Collapse(dup: string, root: string, r: string): string {
    if r == dup then root else r
  }

  /**
   * Merging an unmapped `dup` into `canon` keeps an acyclic map acyclic exactly when `canon` does not
   * already resolve to `dup`; then only the ids that resolved to `dup` move, to where `canon` resolves.
   */
  lemma UnionLaw(m: Merges, dup: string, canon: string)
    requires Acyclic(m) && dup !in m
    ensures Acyclic(m[dup := canon]) <==> Resolve(m, canon) != dup
    ensures Resolve(m, canon) != dup ==>
              forall x :: Resolve(m[dup := canon], x) == Collapse(dup, Resolve(m, canon), Resolve(m, x))
  {
    var m', root := m[dup := canon], Resolve(m, canon);
    var c := AcyclicEnds(m, canon);
    if root != dup {
      SamePath(m, dup, canon, canon, c);
      forall x ensures Resolve(m', x) == Collapse(dup, root, Resolve(m, x)) && !OnCycle(m', x) {
        var n := AcyclicEnds(m, x);
        if Resolve(m, x) == dup {
          var k := PathToDup(m, dup, canon, x, n);
          NthSum(m', x, k, c + 1);
          assert Nth(m', dup, c + 1) == Nth(m', canon, c);
          EndWins(m', x, k + (c + 1));
        } else {
          SamePath(m, dup, canon, x, n);
          EndWins(m', x, n);
        }
      }
    } else {
      var k := PathToDup(m, dup, canon, canon, c);
      assert Nth(m', dup, k + 1) == dup;
      assert OnCycle(m', dup);
    }
  }

  /** Re-merging: the same law, over the map without the old entry of `dup`. */
  lemma RemergeLaw(m: Merges, dup: string, canon: string)
    requires Acyclic(m)
    ensures var base := m - {dup};
      && Acyclic(base)
      && (Acyclic(m[dup := canon]) <==> Resolve(base, canon) != dup)
      && (Resolve(base, canon) != dup ==>
            forall x :: Resolve(m[dup := canon], x) == Collapse(dup, Resolve(base, canon), Resolve(base, x)))
  {
    var base := m - {dup};
    assert m[dup := canon] == base[dup := canon];
    forall x ensures !OnCycle(base, x) {
      if OnCycle(base, x) {
        var k: nat :| k > 0 && Nth(base, x, k) == x;
        SubPath(m, base, x, k);
        assert OnCycle(m, x);
      }
    }
    UnionLaw(base, dup, canon);
  }

  /** A chain that stays mapped in a smaller map is the chain of the larger one. */
  lemma {:induction false} SubPath(m: Merges, base: Merges, x: string, k: nat)
    requires forall y :: y in base ==> y in m && m[y] == base[y]
    requires OnCycle(base, x)
    ensures Nth(m, x, k) == Nth(base, x, k)
    decreases k
  {
    if k != 0 {
      SubPath(m, base, x, k - 1);
      NthStep(m, x, k - 1);
      NthStep(base, x, k - 1);
      NeverEnds(base, x, k - 1);
    }
  }

  // ---------------------------------------------------------------- what resolution decides

  /** Two ids joined by one merge, in either direction. */
  predicate Joined(m: Merges, x: string, y: string) {
    (x in m && m[x] == y) || (y in m && m[y] == x)
  }

  /** A path of merges, taken in either direction. */
  predicate MergePath(m: Merges, p: seq<string>) {
    p != [] && forall i :: 0 <= i < |p| - 1 ==> Joined(m, p[i], p[i + 1])
  }

  ghost predicate Connected(m: Merges, x: string, y: string) {
    exists p :: MergePath(m, p) && p[0] == x && p[|p| - 1] == y
  }

  lemma {:induction false} ChainPath(m: Merges, x: string, n: nat) returns (p: seq<string>)
    requires forall j: nat :: j < n ==> Nth(m, x, j) in m
    ensures MergePath(m, p) && p[0] == x && p[|p| - 1] == Nth(m, x, n)
    decreases n
  {
    if n == 0 {
      p := [x];
    } else {
      assert Nth(m, x, 0) in m;
      forall j: nat | j < n - 1 ensures Nth(m, m[x], j) in m { assert Nth(m, x, j + 1) in m; }
      var q := ChainPath(m, m[x], n - 1);
      p := [x] + q;
      assert forall i :: 0 < i < |p| ==> p[i] == q[i - 1];
    }
  }

  function Backwards(p: seq<string>): seq<string> {
    seq(|p|, i requires 0 <= i < |p| => p[|p| - 1 - i])
  }

  lemma {:induction false} PathResolves(m: Merges, p: seq<string>)
    requires Acyclic(m) && MergePath(m, p)
    ensures Resolve(m, p[0]) == Resolve(m, p[|p| - 1])
  {
    if |p| > 1 {
      var q := p[1..];
      assert forall i :: 0 <= i < |q| ==> q[i] == p[i + 1];
      forall i | 0 <= i < |q| - 1 ensures Joined(m, q[i], q[i + 1]) { assert Joined(m, p[i + 1], p[i + 1 + 1]); }
      PathResolves(m, q);
      assert Joined(m, p[0], p[0 + 1]);
      if p[0] in m && m[p[0]] == p[1] { ResolveNext(m, p[0]); } else { ResolveNext(m, p[1]); }
    }
  }

  /** In an acyclic map two ids resolve alike exactly when confirmed merges connect them. */
  lemma ResolveDecidesConnection(m: Merges, x: string, y: string)
    requires Acyclic(m)
    ensures Resolve(m, x) == Resolve(m, y) <==> Connected(m, x, y)
  {
    if Resolve(m, x) == Resolve(m, y) {
      var a := ResolveIsFirstStop(m, x);
      var b := ResolveIsFirstStop(m, y);
      var p := ChainPath(m, x, a);
      var q := ChainPath(m, y, b);
      var back := Backwards(q);
      var path := p[..|p| - 1] + back;
      forall i | 0 <= i < |path| - 1 ensures Joined(m, path[i], path[i + 1]) {
        if i < |p| - 1 {
          assert Joined(m, p[i], p[i + 1]);
        } else {
          var h := |q| - 2 - (i - (|p| - 1));
          assert Joined(m, q[h], q[h + 1]);
        }
      }
      assert MergePath(m, path) && path[0] == x && path[|path| - 1] == y;
    } else if Connected(m, x, y) {
      var p :| MergePath(m, p) && p[0] == x && p[|p| - 1] == y;
      PathResolves(m, p);
    }
  }
}
