/** Hybrid ranking: two ranked lists, min-max normalised, merged by weight, cut to the best k. Over reals. */
module Ranker {
  import opened Order

  /** A row of either ranker, and of the result: chunk id, note id, score, snippet. */
  datatype Row = Row(id: string, noteId: string, score: real, snippet: string)

  // ---------------------------------------------------------------- normalisation

  function Low(rows: seq<Row>): real
    requires rows != []
  {
    if |rows| == 1 then rows[0].score
    else if rows[0].score < Low(rows[1..]) then rows[0].score else Low(rows[1..])
  }

  function High(rows: seq<Row>): real
    requires rows != []
  {
    if |rows| == 1 then rows[0].score
    else if rows[0].score > High(rows[1..]) then rows[0].score else High(rows[1..])
  }

  /** The two are attained, and bound every score. */
  lemma {:induction false} Extremes(rows: seq<Row>)
    requires rows != []
    ensures forall r :: r in rows ==> Low(rows) <= r.score <= High(rows)
    ensures exists r :: r in rows && r.score == Low(rows)
    ensures exists r :: r in rows && r.score == High(rows)
  {
    assert rows == [rows[0]] + rows[1..];
    if |rows| > 1 { Extremes(rows[1..]); }
  }

  function Scale(s: real, low: real, high: real): real {
    if high == low then 1.0 else (s - low) / (high - low)
  }

  /** The dictionary a comprehension over the rows builds; a later row with the same id wins. */
  function ScaledMap(rows: seq<Row>, low: real, high: real): map<string, real> {
    if rows == [] then map[]
    else
      var n := |rows| - 1;
      ScaledMap(rows[..n], low, high)[rows[n].id := Scale(rows[n].score, low, high)]
  }

  function Normalized(rows: seq<Row>): map<string, real> {
    if rows == [] then map[] else ScaledMap(rows, Low(rows), High(rows))
  }

  // ---------------------------------------------------------------- merging

  predicate HasId(rows: seq<Row>, id: string) {
    exists i :: 0 <= i < |rows| && rows[i].id == id
  }

  /** The rows that are the first with their id, in order: what `setdefault` keeps. */
  function Firsts(rows: seq<Row>): seq<Row> {
    if rows == [] then []
    else
      var n := |rows| - 1;
      Firsts(rows[..n]) + if HasId(rows[..n], rows[n].id) then [] else [rows[n]]
  }

  function Lookup(m: map<string, real>, id: string): real {
    if id in m then m[id] else 0.0
  }

  function Mixed(lexical: map<string, real>, vector: map<string, real>, weight: real, id: string): real {
    weight * Lookup(vector, id) + (1.0 - weight) * Lookup(lexical, id)
  }

  function Scored(rows: seq<Row>, lexical: map<string, real>, vector: map<string, real>, weight: real): seq<Row> {
    seq(|rows|, i requires 0 <= i < |rows| =>
      Row(rows[i].id, rows[i].noteId, Mixed(lexical, vector, weight, rows[i].id), rows[i].snippet))
  }

  /** Before in the result: a higher score, or the same score and a smaller id. */
  predicate Before(a: Row, b: Row) {
    a.score > b.score || (a.score == b.score && Less(a.id, b.id))
  }

  function Insert(r: Row, sorted: seq<Row>): seq<Row> {
    if sorted == [] || Before(r, sorted[0]) then [r] + sorted else [sorted[0]] + Insert(r, sorted[1..])
  }

  /** `sort` by descending score, then id. */
  function Sort(rows: seq<Row>): seq<Row> {
    if rows == [] then [] else Insert(rows[0], Sort(rows[1..]))
  }

  function Candidates(lexical: seq<Row>, vector: seq<Row>, weight: real): seq<Row> {
    Scored(Firsts(vector + lexical), Normalized(lexical), Normalized(vector), weight)
  }

  function Take(rows: seq<Row>, k: nat): seq<Row> {
    if k < |rows| then rows[..k] else rows
  }

  function Hybrid(lexical: seq<Row>, vector: seq<Row>, k: nat, weight: real): seq<Row> {
    Take(Sort(Candidates(lexical, vector, weight)), k)
  }

  method HybridRows(lexical: seq<Row>, vector: seq<Row>, k: nat, weight: real) returns (best: seq<Row>)
    ensures best == Hybrid(lexical, vector, k, weight)
  {
    var rows := vector + lexical;
    var byId: seq<Row> := [];
    var ids: set<string> := {};
    for i := 0 to |rows|
      invariant byId == Firsts(rows[..i])
      invariant forall id :: id in ids <==> HasId(rows[..i], id)
    {
      assert rows[..i + 1][..i] == rows[..i];
      HasIdNext(rows, i);
      if rows[i].id !in ids {
        byId := byId + [rows[i]];
        ids := ids + {rows[i].id};
      }
    }
    assert rows[..|rows|] == rows;
    var combined := Scored(byId, Normalized(lexical), Normalized(vector), weight);
    combined := Sort(combined);
    best := Take(combined, k);
  }

  lemma HasIdNext(rows: seq<Row>, i: nat)
    requires i < |rows|
    ensures forall id :: HasId(rows[..i + 1], id) <==> HasId(rows[..i], id) || id == rows[i].id
  {
    var a, b := rows[..i], rows[..i + 1];
    forall id ensures HasId(b, id) <==> HasId(a, id) || id == rows[i].id {
      if HasId(a, id) {
        var j :| 0 <= j < |a| && a[j].id == id;
        assert b[j].id == id;
      }
      if id == rows[i].id { assert b[i].id == id; }
      if HasId(b, id) {
        var j :| 0 <= j < |b| && b[j].id == id;
        assert j < i ==> a[j].id == id;
      }
    }
  }

  // ---------------------------------------------------------------- scores

  lemma ScaleMono(s: real, t: real, low: real, high: real)
    requires low <= s <= t <= high
    ensures Scale(s, low, high) <= Scale(t, low, high)
  {
    if high != low {
      var d := high - low;
      assert (t - low) / d - (s - low) / d == (t - s) / d;
    }
  }

  lemma ScaleUnit(s: real, low: real, high: real)
    requires low <= s <= high
    ensures 0.0 <= Scale(s, low, high) <= 1.0
  {
    ScaleMono(low, s, low, high);
    ScaleMono(s, high, low, high);
    if high != low {
      var d := high - low;
      assert 0.0 / d == 0.0 && d / d == 1.0;
    }
  }

  /** The score the dictionary keeps for an id: that of the last row carrying it. */
  function LastScore(rows: seq<Row>, id: string): real
    requires HasId(rows, id)
  {
    var n := |rows| - 1;
    if rows[n].id == id then rows[n].score
    else
      HasIdFront(rows, id);
      LastScore(rows[..n], id)
  }

  lemma HasIdFront(rows: seq<Row>, id: string)
    requires HasId(rows, id) && rows[|rows| - 1].id != id
    ensures HasId(rows[..|rows| - 1], id)
  {
    var i :| 0 <= i < |rows| && rows[i].id == id;
    assert rows[..|rows| - 1][i].id == id;
  }

  lemma {:induction false} LastScoreIsScore(rows: seq<Row>, id: string)
    requires HasId(rows, id)
    ensures exists r :: r in rows && r.id == id && r.score == LastScore(rows, id)
  {
    var n := |rows| - 1;
    if rows[n].id == id {
      assert rows[n] in rows;
    } else {
      HasIdFront(rows, id);
      LastScoreIsScore(rows[..n], id);
    }
  }

  lemma {:induction false} ScaledMapAt(rows: seq<Row>, low: real, high: real, id: string)
    ensures id in ScaledMap(rows, low, high) <==> HasId(rows, id)
    ensures HasId(rows, id) ==> ScaledMap(rows, low, high)[id] == Scale(LastScore(rows, id), low, high)
  {
    if rows != [] {
      var n := |rows| - 1;
      ScaledMapAt(rows[..n], low, high, id);
      assert rows[..n + 1] == rows;
      HasIdNext(rows, n);
    }
  }

  lemma NormalizedAt(rows: seq<Row>, id: string)
    ensures id in Normalized(rows) <==> HasId(rows, id)
    ensures HasId(rows, id) ==> Normalized(rows)[id] == Scale(LastScore(rows, id), Low(rows), High(rows))
    ensures 0.0 <= Lookup(Normalized(rows), id) <= 1.0
  {
    if rows != [] { ScaledMapAt(rows, Low(rows), High(rows), id); }
    if HasId(rows, id) {
      LastScoreIsScore(rows, id);
      Extremes(rows);
      ScaleUnit(LastScore(rows, id), Low(rows), High(rows));
    }
  }

  lemma MixUnit(w: real, x: real, y: real)
    requires 0.0 <= w <= 1.0 && 0.0 <= x <= 1.0 && 0.0 <= y <= 1.0
    ensures 0.0 <= w * x + (1.0 - w) * y <= 1.0
  {
    MixMono(w, 0.0, x, 0.0, y);
    MixMono(w, x, 1.0, y, 1.0);
  }

  lemma MixMono(w: real, x: real, x': real, y: real, y': real)
    requires 0.0 <= w <= 1.0 && x <= x' && y <= y'
    ensures w * x + (1.0 - w) * y <= w * x' + (1.0 - w) * y'
  {
    assert w * (x' - x) >= 0.0;
    assert (1.0 - w) * (y' - y) >= 0.0;
  }

  /** b does at least as well as a in a list: it is there whenever a is, with no lower score. */
  predicate NoWorse(rows: seq<Row>, a: string, b: string) {
    HasId(rows, a) ==> HasId(rows, b) && LastScore(rows, a) <= LastScore(rows, b)
  }

  /** A candidate no worse in both lists never gets the lower score. */
  lemma MixedMonotone(lexical: seq<Row>, vector: seq<Row>, weight: real, a: string, b: string)
    requires 0.0 <= weight <= 1.0 && NoWorse(lexical, a, b) && NoWorse(vector, a, b)
    ensures Mixed(Normalized(lexical), Normalized(vector), weight, a)
            <= Mixed(Normalized(lexical), Normalized(vector), weight, b)
  {
    hide Normalized, HasId, LastScore, Lookup;
    NormalizedMono(lexical, a, b);
    NormalizedMono(vector, a, b);
    MixMono(weight, Lookup(Normalized(vector), a), Lookup(Normalized(vector), b),
            Lookup(Normalized(lexical), a), Lookup(Normalized(lexical), b));
  }

  lemma NormalizedMono(rows: seq<Row>, a: string, b: string)
    requires NoWorse(rows, a, b)
    ensures Lookup(Normalized(rows), a) <= Lookup(Normalized(rows), b)
  {
    NormalizedAt(rows, a);
    NormalizedAt(rows, b);
    if HasId(rows, a) {
      LastScoreIsScore(rows, a);
      LastScoreIsScore(rows, b);
      Extremes(rows);
      ScaleMono(LastScore(rows, a), LastScore(rows, b), Low(rows), High(rows));
    }
  }

  // ---------------------------------------------------------------- sorting

  predicate Sorted(rows: seq<Row>) {
    forall i, j :: 0 <= i < j < |rows| ==> Before(rows[i], rows[j])
  }

  predicate Distinct(rows: seq<Row>) {
    forall i, j :: 0 <= i < j < |rows| ==> rows[i].id != rows[j].id
  }

  lemma BeforeTrans(a: Row, b: Row, c: Row)
    requires Before(a, b) && Before(b, c)
    ensures Before(a, c)
  {
    if a.score == b.score == c.score { LessTrans(a.id, b.id, c.id); }
  }

  lemma BeforeTotal(a: Row, b: Row)
    requires a.id != b.id
    ensures Before(a, b) || Before(b, a)
    ensures !(Before(a, b) && Before(b, a))
  {
    LessTotal(a.id, b.id);
  }

  lemma SortedCons(x: Row, rest: seq<Row>)
    requires Sorted(rest) && forall i :: 0 <= i < |rest| ==> Before(x, rest[i])
    ensures Sorted([x] + rest)
  {
    hide Before;
  }

  /** What comes before the first of a sorted list comes before all of it. */
  lemma BeforeAll(r: Row, sorted: seq<Row>)
    requires Sorted(sorted) && sorted != [] && Before(r, sorted[0])
    ensures forall i :: 0 <= i < |sorted| ==> Before(r, sorted[i])
  {
    hide Before;
    forall i | 0 <= i < |sorted| ensures Before(r, sorted[i]) { if i > 0 { BeforeTrans(r, sorted[0], sorted[i]); } }
  }

  lemma {:induction false} InsertSorts(r: Row, sorted: seq<Row>)
    requires Sorted(sorted) && forall i :: 0 <= i < |sorted| ==> sorted[i].id != r.id
    ensures Sorted(Insert(r, sorted)) && multiset(Insert(r, sorted)) == multiset(sorted) + multiset{r}
  {
    hide Before;
    if sorted != [] && Before(r, sorted[0]) {
      BeforeAll(r, sorted);
      SortedCons(r, sorted);
    } else if sorted != [] {
      var first, tail := sorted[0], sorted[1..];
      var rest := Insert(r, tail);
      assert sorted == [first] + tail;
      InsertSorts(r, tail);
      BeforeTotal(r, first);
      AllAfter(first, r, tail, rest);
      SortedCons(first, rest);
    }
  }

  lemma AllAfter(first: Row, r: Row, tail: seq<Row>, rest: seq<Row>)
    requires multiset(rest) == multiset(tail) + multiset{r}
    requires Before(first, r) && forall i :: 0 <= i < |tail| ==> Before(first, tail[i])
    ensures forall i :: 0 <= i < |rest| ==> Before(first, rest[i])
  {
    hide Before;
    forall i | 0 <= i < |rest| ensures Before(first, rest[i]) {
      assert rest[i] in multiset(rest);
      if rest[i] != r {
        var j :| 0 <= j < |tail| && tail[j] == rest[i];
      }
    }
  }

  lemma {:induction false} SortSorts(rows: seq<Row>)
    requires Distinct(rows)
    ensures Sorted(Sort(rows)) && multiset(Sort(rows)) == multiset(rows)
  {
    if rows != [] {
      var rest := Sort(rows[1..]);
      SortSorts(rows[1..]);
      assert rows == [rows[0]] + rows[1..];
      forall i | 0 <= i < |rest| ensures rest[i].id != rows[0].id {
        assert rest[i] in multiset(rest);
        var j :| 0 <= j < |rows[1..]| && rows[1..][j] == rest[i];
        assert rows[0].id != rows[j + 1].id;
      }
      InsertSorts(rows[0], rest);
    }
  }

  lemma {:induction false} FirstsDistinct(rows: seq<Row>)
    ensures Distinct(Firsts(rows))
    ensures forall id :: HasId(Firsts(rows), id) <==> HasId(rows, id)
  {
    if rows != [] {
      var n := |rows| - 1;
      var front, kept, all := rows[..n], Firsts(rows[..n]), Firsts(rows);
      FirstsDistinct(front);
      assert rows[..n + 1] == rows;
      HasIdNext(rows, n);
      if HasId(front, rows[n].id) {
        assert all == kept;
      } else {
        assert all == kept + [rows[n]];
        assert all[..|kept|] == kept && all[..|kept| + 1] == all;
        HasIdNext(all, |kept|);
        forall id ensures HasId(all, id) <==> HasId(rows, id) {
          assert HasId(all, id) <==> HasId(kept, id) || id == rows[n].id;
          assert HasId(rows, id) <==> HasId(front, id) || id == rows[n].id;
        }
        forall i, j | 0 <= i < j < |all| ensures all[i].id != all[j].id {
          assert all[i] == kept[i] && HasId(kept, kept[i].id);
        }
      }
    }
  }

  // ---------------------------------------------------------------- the theorems

  /** With a weight in [0, 1] every candidate's score is in [0, 1]. */
  lemma ScoresInUnit(lexical: seq<Row>, vector: seq<Row>, weight: real, i: nat)
    requires 0.0 <= weight <= 1.0 && i < |Candidates(lexical, vector, weight)|
    ensures 0.0 <= Candidates(lexical, vector, weight)[i].score <= 1.0
  {
    hide Normalized, HasId, Lookup, Firsts, NoWorse;
    var id := Firsts(vector + lexical)[i].id;
    NormalizedAt(lexical, id);
    NormalizedAt(vector, id);
    MixUnit(weight, Lookup(Normalized(vector), id), Lookup(Normalized(lexical), id));
  }

  /** The candidates are the union of both lists, each id once. */
  lemma CandidatesAreUnion(lexical: seq<Row>, vector: seq<Row>, weight: real)
    ensures Distinct(Candidates(lexical, vector, weight))
    ensures forall id :: HasId(Candidates(lexical, vector, weight), id) <==> HasId(lexical, id) || HasId(vector, id)
  {
    var rows, cs := vector + lexical, Candidates(lexical, vector, weight);
    FirstsDistinct(rows);
    assert forall i :: 0 <= i < |cs| ==> cs[i].id == Firsts(rows)[i].id;
    forall id ensures HasId(cs, id) <==> HasId(lexical, id) || HasId(vector, id) {
      ScoredIds(Firsts(rows), Normalized(lexical), Normalized(vector), weight, id);
      AppendIds(vector, lexical, id);
    }
  }

  lemma ScoredIds(rows: seq<Row>, l: map<string, real>, v: map<string, real>, weight: real, id: string)
    ensures HasId(Scored(rows, l, v, weight), id) <==> HasId(rows, id)
  {
    var cs := Scored(rows, l, v, weight);
    if HasId(rows, id) {
      var i :| 0 <= i < |rows| && rows[i].id == id;
      assert cs[i].id == id;
    }
  }

  lemma AppendIds(a: seq<Row>, b: seq<Row>, id: string)
    ensures HasId(a + b, id) <==> HasId(a, id) || HasId(b, id)
  {
    if HasId(a, id) {
      var i :| 0 <= i < |a| && a[i].id == id;
      assert (a + b)[i].id == id;
    }
    if HasId(b, id) {
      var i :| 0 <= i < |b| && b[i].id == id;
      assert (a + b)[|a| + i].id == id;
    }
    if HasId(a + b, id) {
      var i :| 0 <= i < |a + b| && (a + b)[i].id == id;
      assert i >= |a| ==> b[i - |a|].id == id;
    }
  }

  /** What one ranker contributes for an id: nothing, everything in a flat list, or where its score lies between the extremes. */
  function OwnScore(rows: seq<Row>, id: string): real {
    if !HasId(rows, id) then 0.0
    else if High(rows) == Low(rows) then 1.0
    else (LastScore(rows, id) - Low(rows)) / (High(rows) - Low(rows))
  }

  lemma OwnScoreIsNormalized(rows: seq<Row>, id: string)
    ensures OwnScore(rows, id) == Lookup(Normalized(rows), id)
  {
    hide Normalized, LastScore, Low, High, HasId;
    NormalizedAt(rows, id);
  }

  predicate FirstWith(rows: seq<Row>, id: string, i: nat) {
    i < |rows| && rows[i].id == id && forall j :: 0 <= j < i ==> rows[j].id != id
  }

  lemma {:induction false} FirstsAreFirst(rows: seq<Row>, r: Row) returns (i: nat)
    requires r in Firsts(rows)
    ensures FirstWith(rows, r.id, i) && rows[i] == r
  {
    var n := |rows| - 1;
    if r in Firsts(rows[..n]) {
      i := FirstsAreFirst(rows[..n], r);
    } else {
      i := n;
      NewIsFirst(rows);
    }
  }

  lemma NewIsFirst(rows: seq<Row>)
    requires rows != [] && !HasId(rows[..|rows| - 1], rows[|rows| - 1].id)
    ensures FirstWith(rows, rows[|rows| - 1].id, |rows| - 1)
  {
    var front := rows[..|rows| - 1];
    assert forall j :: 0 <= j < |front| ==> front[j] == rows[j];
  }

  /** The first of both lists, vector rows first. */
  lemma FirstOfBoth(vector: seq<Row>, lexical: seq<Row>, id: string, i: nat)
    requires FirstWith(vector + lexical, id, i)
    ensures HasId(vector, id) <==> i < |vector|
    ensures if i < |vector| then FirstWith(vector, id, i) else FirstWith(lexical, id, i - |vector|)
  {
    var rows := vector + lexical;
    assert forall j :: 0 <= j < |vector| ==> rows[j] == vector[j];
    assert forall j :: 0 <= j < |lexical| ==> rows[|vector| + j] == lexical[j];
  }

  lemma CandidateKept(lexical: seq<Row>, vector: seq<Row>, weight: real, r: Row) returns (kept: Row)
    requires r in Candidates(lexical, vector, weight)
    ensures kept in Firsts(vector + lexical)
    ensures r == Row(kept.id, kept.noteId, Mixed(Normalized(lexical), Normalized(vector), weight, kept.id), kept.snippet)
  {
    hide Normalized, Firsts, Mixed, Scored;
    ScoredMembers(Firsts(vector + lexical), Normalized(lexical), Normalized(vector), weight, r);
    kept :| kept in Firsts(vector + lexical)
            && r == Row(kept.id, kept.noteId, Mixed(Normalized(lexical), Normalized(vector), weight, kept.id), kept.snippet);
  }

  /**
   * What every row of the result is: an id of either list, scored by the weighted sum of what the two rankers
   * contribute, with the note and the snippet of its first vector row or, without one, of its first lexical row.
   */
  lemma RowMeans(lexical: seq<Row>, vector: seq<Row>, k: nat, weight: real, r: Row)
    requires r in Hybrid(lexical, vector, k, weight)
    ensures r.score == weight * OwnScore(vector, r.id) + (1.0 - weight) * OwnScore(lexical, r.id)
    ensures HasId(vector, r.id) || HasId(lexical, r.id)
    ensures
      var rows := if HasId(vector, r.id) then vector else lexical;
      exists i: nat :: i < |rows| && FirstWith(rows, r.id, i) && r.noteId == rows[i].noteId && r.snippet == rows[i].snippet
  {
    hide *;
    HybridIsTopK(lexical, vector, k, weight);
    var kept := CandidateKept(lexical, vector, weight, r);
    MixedIsSum(lexical, vector, weight, r.id);
    var i := KeptSource(lexical, vector, kept);
  }

  /** Where a kept row comes from. */
  lemma KeptSource(lexical: seq<Row>, vector: seq<Row>, kept: Row) returns (at: nat)
    requires kept in Firsts(vector + lexical)
    ensures HasId(vector, kept.id) || HasId(lexical, kept.id)
    ensures
      var rows := if HasId(vector, kept.id) then vector else lexical;
      FirstWith(rows, kept.id, at) && at < |rows| && rows[at] == kept
  {
    hide Firsts, HasId;
    var i := FirstsAreFirst(vector + lexical, kept);
    FirstOfBoth(vector, lexical, kept.id, i);
    at := if i < |vector| then i else i - |vector|;
    FirstHasId(if i < |vector| then vector else lexical, kept.id, at);
  }

  lemma MixedIsSum(lexical: seq<Row>, vector: seq<Row>, weight: real, id: string)
    ensures Mixed(Normalized(lexical), Normalized(vector), weight, id)
            == weight * OwnScore(vector, id) + (1.0 - weight) * OwnScore(lexical, id)
  {
    hide Normalized, OwnScore, Lookup;
    OwnScoreIsNormalized(vector, id);
    OwnScoreIsNormalized(lexical, id);
  }

  lemma FirstHasId(rows: seq<Row>, id: string, i: nat)
    requires FirstWith(rows, id, i)
    ensures HasId(rows, id)
  {
  }

  lemma OwnScoreOrder(rows: seq<Row>, a: string, b: string)
    requires HasId(rows, a) && HasId(rows, b)
    ensures OwnScore(rows, a) > OwnScore(rows, b) ==> LastScore(rows, a) > LastScore(rows, b)
    ensures OwnScore(rows, a) == OwnScore(rows, b) ==> LastScore(rows, a) == LastScore(rows, b)
  {
    hide LastScore, Low, High;
    LastScoreIsScore(rows, a);
    LastScoreIsScore(rows, b);
    Extremes(rows);
    var low, high := Low(rows), High(rows);
    if high != low {
      var d, x, y := high - low, LastScore(rows, a) - low, LastScore(rows, b) - low;
      assert x / d * d == x && y / d * d == y;
      if x <= y { ScaleMono(LastScore(rows, a), LastScore(rows, b), low, high); }
    }
  }

  /**
   * At weight 1 any two rows of the vector list come in its order, by its score and then by id, whatever the
   * lexical list says; at weight 0 it is the other way round.
   */
  lemma OneRankerDecides(lexical: seq<Row>, vector: seq<Row>, k: nat, weight: real, i: nat, j: nat)
    requires weight == 1.0 || weight == 0.0
    requires i < j < |Hybrid(lexical, vector, k, weight)|
    ensures
      var best, rows := Hybrid(lexical, vector, k, weight), if weight == 1.0 then vector else lexical;
      var a, b := best[i].id, best[j].id;
      HasId(rows, a) && HasId(rows, b) ==>
        LastScore(rows, a) > LastScore(rows, b) || (LastScore(rows, a) == LastScore(rows, b) && Less(a, b))
  {
    hide HasId, LastScore, OwnScore, Hybrid;
    var best, rows := Hybrid(lexical, vector, k, weight), if weight == 1.0 then vector else lexical;
    var a, b := best[i], best[j];
    HybridIsTopK(lexical, vector, k, weight);
    RowMeans(lexical, vector, k, weight, a);
    RowMeans(lexical, vector, k, weight, b);
    OneScore(weight, OwnScore(vector, a.id), OwnScore(lexical, a.id));
    OneScore(weight, OwnScore(vector, b.id), OwnScore(lexical, b.id));
    if HasId(rows, a.id) && HasId(rows, b.id) { OwnScoreOrder(rows, a.id, b.id); }
  }

  lemma OneScore(weight: real, x: real, y: real)
    ensures weight == 1.0 ==> weight * x + (1.0 - weight) * y == x
    ensures weight == 0.0 ==> weight * x + (1.0 - weight) * y == y
  {
  }

  /** The result is the best k candidates in order: every other candidate comes after all of them. */
  lemma HybridIsTopK(lexical: seq<Row>, vector: seq<Row>, k: nat, weight: real)
    ensures
      var best, cs := Hybrid(lexical, vector, k, weight), Candidates(lexical, vector, weight);
      && |best| == (if k < |cs| then k else |cs|)
      && (forall i, j :: 0 <= i < j < |best| ==>
            best[i].score > best[j].score || (best[i].score == best[j].score && Less(best[i].id, best[j].id)))
      && (forall r :: r in best ==> r in cs)
      && (forall r, b :: r in cs && r !in best && b in best ==>
            b.score > r.score || (b.score == r.score && Less(b.id, r.id)))
  {
    hide Sort, Candidates;
    var cs := Candidates(lexical, vector, weight);
    CandidatesAreUnion(lexical, vector, weight);
    SortSorts(cs);
    TakeIsTopK(cs, Sort(cs), k);
  }

  lemma TakeIsTopK(cs: seq<Row>, all: seq<Row>, k: nat)
    requires Sorted(all) && multiset(all) == multiset(cs)
    ensures
      var best := Take(all, k);
      && |best| == (if k < |cs| then k else |cs|)
      && Sorted(best)
      && (forall r :: r in best ==> r in cs)
      && (forall r, b :: r in cs && r !in best && b in best ==> Before(b, r))
  {
    hide Before;
    var best := Take(all, k);
    SameRows(all, cs);
    forall i | 0 <= i < |best| ensures best[i] == all[i] && all[i] in best {}
    forall r, b | r in cs && r !in best && b in best ensures Before(b, r) {
      var i :| 0 <= i < |all| && all[i] == r;
      var j :| 0 <= j < |best| && best[j] == b;
    }
  }

  /** Two sorted lists with the same rows are the same list. */
  lemma {:induction false} SortedUnique(a: seq<Row>, b: seq<Row>)
    requires Sorted(a) && Sorted(b) && multiset(a) == multiset(b)
    ensures a == b
  {
    hide Before;
    if a == [] {
      assert |multiset(a)| == |multiset(b)| == |b|;
    } else {
      assert |multiset(a)| == |a| && |multiset(b)| == |b|;
      FirstIsLeast(a, b);
      assert a == [a[0]] + a[1..] && b == [b[0]] + b[1..];
      assert multiset(a[1..]) == multiset(a) - multiset{a[0]} && multiset(b[1..]) == multiset(b) - multiset{b[0]};
      SortedUnique(a[1..], b[1..]);
    }
  }

  lemma FirstIsLeast(a: seq<Row>, b: seq<Row>)
    requires Sorted(a) && Sorted(b) && multiset(a) == multiset(b) && a != [] && b != []
    ensures a[0] == b[0]
  {
    assert a[0] in multiset(b) && b[0] in multiset(a);
    var i :| 0 <= i < |b| && b[i] == a[0];
    var j :| 0 <= j < |a| && a[j] == b[0];
    if i > 0 && j > 0 {
      assert Before(b[0], b[i]) && Before(a[0], a[j]);
      NotBothWays(a[0], b[0]);
    }
  }

  lemma NotBothWays(a: Row, b: Row)
    requires Before(a, b)
    ensures !Before(b, a)
  {
    LessTotal(a.id, b.id);
  }

  /** Lists that agree on every candidate's row and score give the same ranking. */
  lemma SameCandidates(l1: seq<Row>, v1: seq<Row>, l2: seq<Row>, v2: seq<Row>, k: nat, weight: real)
    requires multiset(Candidates(l1, v1, weight)) == multiset(Candidates(l2, v2, weight))
    ensures Hybrid(l1, v1, k, weight) == Hybrid(l2, v2, k, weight)
  {
    CandidatesAreUnion(l1, v1, weight);
    CandidatesAreUnion(l2, v2, weight);
    SortSorts(Candidates(l1, v1, weight));
    SortSorts(Candidates(l2, v2, weight));
    SortedUnique(Sort(Candidates(l1, v1, weight)), Sort(Candidates(l2, v2, weight)));
  }

  // ---------------------------------------------------------------- the order of the lists does not matter

  lemma HasIdIn(rows: seq<Row>, id: string)
    ensures HasId(rows, id) <==> exists r :: r in rows && r.id == id
  {
    if r :| r in rows && r.id == id {
      var i :| 0 <= i < |rows| && rows[i] == r;
      assert rows[i].id == id;
    }
  }

  lemma {:induction false} LastScoreDistinct(rows: seq<Row>, r: Row)
    requires Distinct(rows) && r in rows
    ensures HasId(rows, r.id) && LastScore(rows, r.id) == r.score
  {
    HasIdIn(rows, r.id);
    var n := |rows| - 1;
    var i :| 0 <= i < |rows| && rows[i] == r;
    if rows[n].id != r.id {
      assert rows[..n][i] == r;
      LastScoreDistinct(rows[..n], r);
    }
  }

  lemma SameRows(a: seq<Row>, b: seq<Row>)
    requires multiset(a) == multiset(b)
    ensures forall r :: r in a <==> r in b
    ensures |a| == |b|
  {
    forall r ensures r in a <==> r in b { assert r in multiset(a) <==> r in multiset(b); }
    assert |a| == |multiset(a)| == |multiset(b)| == |b|;
  }

  /** Permuting a list of distinct ids leaves its normalised scores alone. */
  lemma NormalizedPermuted(a: seq<Row>, b: seq<Row>)
    requires Distinct(a) && Distinct(b) && multiset(a) == multiset(b)
    ensures Normalized(a) == Normalized(b)
  {
    SameRows(a, b);
    hide Scale, HasId, LastScore, Low, High, ScaledMap;
    if a != [] { ExtremesPermuted(a, b); }
    forall id ensures id in Normalized(a) <==> id in Normalized(b) { PermutedAt(a, b, id); }
    forall id | id in Normalized(a) ensures Normalized(a)[id] == Normalized(b)[id] { PermutedAt(a, b, id); }
  }

  lemma ExtremesPermuted(a: seq<Row>, b: seq<Row>)
    requires a != [] && b != [] && forall r :: r in a <==> r in b
    ensures Low(a) == Low(b) && High(a) == High(b)
  {
    hide Low, High;
    Extremes(a);
    Extremes(b);
  }

  lemma PermutedAt(a: seq<Row>, b: seq<Row>, id: string)
    requires Distinct(a) && Distinct(b) && (forall r :: r in a <==> r in b)
    requires a != [] && b != [] ==> Low(a) == Low(b) && High(a) == High(b)
    ensures id in Normalized(a) <==> id in Normalized(b)
    ensures id in Normalized(a) ==> Normalized(a)[id] == Normalized(b)[id]
  {
    hide Scale, HasId, LastScore, Low, High, Normalized;
    NormalizedAt(a, id);
    NormalizedAt(b, id);
    HasIdIn(a, id);
    HasIdIn(b, id);
    if id in Normalized(a) {
      var r :| r in a && r.id == id;
      LastScoreDistinct(a, r);
      LastScoreDistinct(b, r);
    }
  }

  /** Of two lists of distinct ids, the kept rows are all of the first and the new ones of the second. */
  lemma {:induction false} FirstsOf(vector: seq<Row>, lexical: seq<Row>, r: Row)
    requires Distinct(vector) && Distinct(lexical)
    ensures r in Firsts(vector + lexical) <==> r in vector || (r in lexical && !HasId(vector, r.id))
    decreases |vector| + |lexical|
  {
    var rows := vector + lexical;
    if lexical != [] {
      var n := |lexical| - 1;
      FirstsOf(vector, lexical[..n], r);
      assert rows[..|rows| - 1] == vector + lexical[..n];
      AppendIds(vector, lexical[..n], lexical[n].id);
      LastIsNew(lexical);
      assert lexical == lexical[..n] + [lexical[n]];
    } else if vector != [] {
      var n := |vector| - 1;
      FirstsOf(vector[..n], [], r);
      assert rows[..|rows| - 1] == vector[..n] + [] && vector == vector[..n] + [vector[n]];
      LastIsNew(vector);
      AppendIds(vector[..n], [], vector[n].id);
    }
  }

  lemma LastIsNew(rows: seq<Row>)
    requires Distinct(rows) && rows != []
    ensures !HasId(rows[..|rows| - 1], rows[|rows| - 1].id)
  {
  }

  lemma {:induction false} DistinctSameSet(a: seq<Row>, b: seq<Row>)
    requires Distinct(a) && Distinct(b) && forall r :: r in a <==> r in b
    ensures multiset(a) == multiset(b)
  {
    forall r ensures multiset(a)[r] == multiset(b)[r] {
      DistinctOnce(a, r);
      DistinctOnce(b, r);
    }
  }

  lemma {:induction false} DistinctOnce(a: seq<Row>, r: Row)
    requires Distinct(a)
    ensures multiset(a)[r] == if r in a then 1 else 0
  {
    if a != [] {
      DistinctOnce(a[1..], r);
      assert a == [a[0]] + a[1..];
      assert a[0] !in a[1..] by { assert forall j :: 0 <= j < |a[1..]| ==> a[1..][j].id == a[j + 1].id != a[0].id; }
    }
  }

  lemma ScoredMembers(rows: seq<Row>, l: map<string, real>, v: map<string, real>, weight: real, c: Row)
    ensures c in Scored(rows, l, v, weight) <==>
            exists r :: r in rows && c == Row(r.id, r.noteId, Mixed(l, v, weight, r.id), r.snippet)
  {
    var cs := Scored(rows, l, v, weight);
    if r :| r in rows && c == Row(r.id, r.noteId, Mixed(l, v, weight, r.id), r.snippet) {
      var i :| 0 <= i < |rows| && rows[i] == r;
      assert cs[i] == c;
    }
    if c in cs {
      var i :| 0 <= i < |cs| && cs[i] == c;
      assert rows[i] in rows;
    }
  }

  /** Permuting either list does not change the ranking. */
  lemma PermutationInvariant(l1: seq<Row>, v1: seq<Row>, l2: seq<Row>, v2: seq<Row>, k: nat, weight: real)
    requires Distinct(l1) && Distinct(v1) && Distinct(l2) && Distinct(v2)
    requires multiset(l1) == multiset(l2) && multiset(v1) == multiset(v2)
    ensures Hybrid(l1, v1, k, weight) == Hybrid(l2, v2, k, weight)
  {
    hide Normalized, Firsts, Mixed, Scored, Sort;
    NormalizedPermuted(l1, l2);
    NormalizedPermuted(v1, v2);
    SameRows(l1, l2);
    SameRows(v1, v2);
    forall r ensures r in Firsts(v1 + l1) <==> r in Firsts(v2 + l2) {
      FirstsOf(v1, l1, r);
      FirstsOf(v2, l2, r);
      HasIdIn(v1, r.id);
      HasIdIn(v2, r.id);
    }
    var c1, c2 := Candidates(l1, v1, weight), Candidates(l2, v2, weight);
    forall c ensures c in c1 <==> c in c2 {
      ScoredMembers(Firsts(v1 + l1), Normalized(l1), Normalized(v1), weight, c);
      ScoredMembers(Firsts(v2 + l2), Normalized(l2), Normalized(v2), weight, c);
    }
    CandidatesAreUnion(l1, v1, weight);
    CandidatesAreUnion(l2, v2, weight);
    DistinctSameSet(c1, c2);
    SameCandidates(l1, v1, l2, v2, k, weight);
  }

  // ---------------------------------------------------------------- the scale of the scores does not matter

  function Line(s: real, a: real, b: real): real {
    a * s + b
  }

  /** Every score s replaced by a * s + b. */
  function Affine(rows: seq<Row>, a: real, b: real): seq<Row> {
    seq(|rows|, i requires 0 <= i < |rows| => rows[i].(score := Line(rows[i].score, a, b)))
  }

  lemma LineOrder(s: real, t: real, a: real, b: real)
    requires a > 0.0
    ensures s < t <==> Line(s, a, b) < Line(t, a, b)
    ensures s == t <==> Line(s, a, b) == Line(t, a, b)
  {
    if s < t { assert a * (t - s) > 0.0; }
    if s > t { assert a * (s - t) > 0.0; }
  }

  lemma {:induction false} AffineBounds(rows: seq<Row>, a: real, b: real)
    requires rows != [] && a > 0.0
    ensures Low(Affine(rows, a, b)) == Line(Low(rows), a, b) && High(Affine(rows, a, b)) == Line(High(rows), a, b)
  {
    hide Line;
    var out := Affine(rows, a, b);
    if |rows| > 1 {
      AffineBounds(rows[1..], a, b);
      assert out[1..] == Affine(rows[1..], a, b);
      LineOrder(rows[0].score, Low(rows[1..]), a, b);
      LineOrder(High(rows[1..]), rows[0].score, a, b);
    }
  }

  lemma ScaleAffine(s: real, low: real, high: real, a: real, b: real)
    requires a > 0.0
    ensures Scale(Line(s, a, b), Line(low, a, b), Line(high, a, b)) == Scale(s, low, high)
  {
    LineOrder(low, high, a, b);
    if high != low {
      LineGap(s, low, a, b);
      LineGap(high, low, a, b);
      Cancel(a, s - low, high - low);
    }
  }

  lemma LineGap(s: real, t: real, a: real, b: real)
    ensures Line(s, a, b) - Line(t, a, b) == a * (s - t)
  {
  }

  lemma Cancel(a: real, x: real, d: real)
    requires a != 0.0 && d != 0.0
    ensures a * d != 0.0 && (a * x) / (a * d) == x / d
  {
    var q := x / d;
    assert q * d == x;
    assert q * (a * d) == a * x;
  }

  lemma AffineHasId(rows: seq<Row>, a: real, b: real, id: string)
    ensures HasId(Affine(rows, a, b), id) <==> HasId(rows, id)
  {
    hide Line;
    var out := Affine(rows, a, b);
    if i :| 0 <= i < |rows| && rows[i].id == id { assert out[i].id == id; }
    if i :| 0 <= i < |out| && out[i].id == id { assert rows[i].id == id; }
  }

  lemma {:induction false} AffineLastScore(rows: seq<Row>, a: real, b: real, id: string)
    requires HasId(rows, id)
    ensures HasId(Affine(rows, a, b), id)
    ensures LastScore(Affine(rows, a, b), id) == Line(LastScore(rows, id), a, b)
  {
    hide Line;
    AffineHasId(rows, a, b, id);
    var n := |rows| - 1;
    if rows[n].id != id {
      AffineFront(rows, a, b);
      HasIdFront(rows, id);
      AffineLastScore(rows[..n], a, b, id);
    }
  }

  lemma AffineFront(rows: seq<Row>, a: real, b: real)
    requires rows != []
    ensures Affine(rows, a, b)[..|rows| - 1] == Affine(rows[..|rows| - 1], a, b)
  {
    hide Line;
  }

  lemma NormalizedAffine(rows: seq<Row>, a: real, b: real)
    requires a > 0.0
    ensures Normalized(Affine(rows, a, b)) == Normalized(rows)
  {
    hide Line, Scale, HasId, LastScore, Low, High, ScaledMap;
    var out := Affine(rows, a, b);
    if rows == [] {
      assert out == [];
    } else {
      AffineBounds(rows, a, b);
      forall id ensures id in Normalized(out) <==> id in Normalized(rows) { NormalizedAffineAt(rows, a, b, id); }
      forall id | id in Normalized(rows) ensures Normalized(out)[id] == Normalized(rows)[id] {
        NormalizedAffineAt(rows, a, b, id);
      }
    }
  }

  lemma NormalizedAffineAt(rows: seq<Row>, a: real, b: real, id: string)
    requires a > 0.0 && rows != []
    ensures
      var out := Affine(rows, a, b);
      && (id in Normalized(out) <==> id in Normalized(rows))
      && (id in Normalized(rows) ==> Normalized(out)[id] == Normalized(rows)[id])
  {
    hide Line, Scale, HasId, LastScore, Normalized;
    NormalizedAt(Affine(rows, a, b), id);
    NormalizedAt(rows, id);
    AffineBounds(rows, a, b);
    AffineHasId(rows, a, b, id);
    if HasId(rows, id) { AffineLastScore(rows, a, b, id); ScaleAffine(LastScore(rows, id), Low(rows), High(rows), a, b); }
  }

  predicate SameButScore(a: seq<Row>, b: seq<Row>) {
    |a| == |b| && forall i :: 0 <= i < |a| ==> a[i].(score := 0.0) == b[i].(score := 0.0)
  }

  lemma {:induction false} FirstsSameButScore(a: seq<Row>, b: seq<Row>)
    requires SameButScore(a, b)
    ensures SameButScore(Firsts(a), Firsts(b))
  {
    if a != [] {
      var n := |a| - 1;
      FirstsSameButScore(a[..n], b[..n]);
      SameIds(a[..n], b[..n], a[n].id);
      assert a[n].(score := 0.0) == b[n].(score := 0.0);
    }
  }

  lemma SameIds(a: seq<Row>, b: seq<Row>, id: string)
    requires SameButScore(a, b)
    ensures HasId(a, id) <==> HasId(b, id)
  {
    forall i | 0 <= i < |a| ensures a[i].id == b[i].id { assert a[i].(score := 0.0) == b[i].(score := 0.0); }
    if HasId(a, id) {
      var i :| 0 <= i < |a| && a[i].id == id;
      assert b[i].id == id;
    }
  }

  /** Rescaling either ranker's scores by a positive affine map does not change the ranking. */
  lemma AffineInvariant(lexical: seq<Row>, vector: seq<Row>, a: real, b: real, c: real, d: real, k: nat, weight: real)
    requires a > 0.0 && c > 0.0
    ensures Hybrid(Affine(lexical, a, b), Affine(vector, c, d), k, weight) == Hybrid(lexical, vector, k, weight)
  {
    hide Normalized, Mixed, Sort;
    NormalizedAffine(lexical, a, b);
    NormalizedAffine(vector, c, d);
    var rows, out := vector + lexical, Affine(vector, c, d) + Affine(lexical, a, b);
    FirstsSameButScore(out, rows);
    var x, y := Firsts(out), Firsts(rows);
    forall i | 0 <= i < |x| ensures x[i].id == y[i].id && x[i].noteId == y[i].noteId && x[i].snippet == y[i].snippet {
      assert x[i].(score := 0.0) == y[i].(score := 0.0);
    }
    assert Candidates(Affine(lexical, a, b), Affine(vector, c, d), weight) == Candidates(lexical, vector, weight);
  }
}
