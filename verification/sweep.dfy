/**
 * The order of the all-pairs collision sweep in `render` of src/app.rs:
 * for each collider position `i` and each later position `j`, entity `i`
 * is checked against entity `j` and then `j` against `i`. The sweep is
 * described here by the sequence of couples (handle at `i`, handle at `j`)
 * it visits, in order; the registry applies both checks of each couple.
 */
module Sweep {
  /** Handles in strictly increasing order, as the registry hands them out. */
  predicate Ascending(ids: seq<nat>) {
    forall i, j :: 0 <= i < j < |ids| ==> ids[i] < ids[j]
  }

  /** The handle at position `i` occurs nowhere later in `ids`. */
  ghost predicate DistinctFrom(ids: seq<nat>, i: nat)
    requires i < |ids|
  {
    forall j :: i < j < |ids| ==> ids[i] != ids[j]
  }

  /** No handle occurs twice in `ids`, stated position by position. */
  ghost predicate Distinct(ids: seq<nat>) {
    forall i :: 0 <= i < |ids| ==> DistinctFrom(ids, i)
  }

  lemma AscendingDistinct(ids: seq<nat>)
    requires Ascending(ids)
    ensures Distinct(ids)
  {
    forall i | 0 <= i < |ids|
      ensures DistinctFrom(ids, i)
    {
      forall j | i < j < |ids|
        ensures ids[i] != ids[j]
      {
        assert ids[i] < ids[j];
      }
    }
  }

  /** Two positions of a list without repeats hold different handles. */
  lemma DistinctAt(ids: seq<nat>, x: nat, y: nat)
    requires Distinct(ids) && x < y < |ids|
    ensures ids[x] != ids[y]
  {
    assert DistinctFrom(ids, x);
  }

  /** The couples of row `i` of the sweep: the handle at `i` with each partner at positions `i+1 .. j-1`. */
  function Row(ids: seq<nat>, i: nat, j: nat): seq<(nat, nat)>
    requires i < |ids| && j <= |ids|
  {
    if j <= i + 1 then [] else seq(j - i - 1, k requires 0 <= k < j - i - 1 => (ids[i], ids[i + 1 + k]))
  }

  /** The couples of rows `0 .. i-1` of the sweep. */
  function Rows(ids: seq<nat>, i: nat): seq<(nat, nat)>
    requires i <= |ids|
  {
    if i == 0 then [] else Rows(ids, i - 1) + Row(ids, i - 1, |ids|)
  }

  /** The outer loop's step: row `i` follows rows `0 .. i-1`. */
  lemma RowsSnoc(ids: seq<nat>, i: nat)
    requires i < |ids|
    ensures Rows(ids, i + 1) == Rows(ids, i) + Row(ids, i, |ids|)
  {
  }

  /** Every couple the sweep over the collider list `ids` visits, in order. */
  function PairLog(ids: seq<nat>): seq<(nat, nat)> {
    Rows(ids, |ids|)
  }

  /** The inner loop's step: partner `j` adds the couple (handle at `i`, handle at `j`) to row `i`. */
  lemma RowSnoc(ids: seq<nat>, i: nat, j: nat)
    requires i < j < |ids|
    ensures Row(ids, i, j + 1) == Row(ids, i, j) + [(ids[i], ids[j])]
  {
    var r, r' := Row(ids, i, j), Row(ids, i, j + 1);
    forall k | 0 <= k < |r|
      ensures r'[k] == r[k]
    {
    }
  }

  lemma {:induction false} RowsLength(ids: seq<nat>, i: nat)
    requires i <= |ids|
    ensures 2 * |Rows(ids, i)| == i * (2 * |ids| - i - 1)
  {
    if i > 0 {
      RowsLength(ids, i - 1);
      assert |Row(ids, i - 1, |ids|)| == |ids| - i;
      RowsStep(i, |ids|, |Rows(ids, i - 1)|, |Rows(ids, i)|);
    }
  }

  /** Row `i - 1` has n − i couples, and (i−1)(2n−i) + 2(n−i) = i(2n−i−1). */
  lemma RowsStep(i: int, n: int, prev: int, cur: int)
    requires 2 * prev == (i - 1) * (2 * n - (i - 1) - 1)
    requires cur == prev + (n - i)
    ensures 2 * cur == i * (2 * n - i - 1)
  {
    var m := 2 * n - i;
    assert (i - 1) * m == i * m - m;
    assert i * (m - 1) == i * m - i;
  }

  /** The sweep over `n` colliders visits n·(n−1)/2 couples: one per pair of positions. */
  lemma PairLogLength(ids: seq<nat>)
    ensures 2 * |PairLog(ids)| == |ids| * (|ids| - 1)
  {
    RowsLength(ids, |ids|);
  }

  lemma RowWitness(ids: seq<nat>, i: nat, j: nat, p: (nat, nat)) returns (b: nat)
    requires i < |ids| && j <= |ids| && p in Row(ids, i, j)
    ensures i < b < j && p == (ids[i], ids[b])
  {
    var r := Row(ids, i, j);
    var k :| 0 <= k < |r| && r[k] == p;
    b := i + 1 + k;
  }

  lemma RowContains(ids: seq<nat>, i: nat, j: nat, b: nat)
    requires i < b < j <= |ids|
    ensures (ids[i], ids[b]) in Row(ids, i, j)
  {
    assert Row(ids, i, j)[b - i - 1] == (ids[i], ids[b]);
  }

  /** `p` is in one of rows `0 .. i-1`, row by row rather than in their concatenation. */
  ghost predicate InRows(ids: seq<nat>, i: nat, p: (nat, nat))
    requires i <= |ids|
  {
    i > 0 && (InRows(ids, i - 1, p) || p in Row(ids, i - 1, |ids|))
  }

  lemma {:induction false} RowsIn(ids: seq<nat>, i: nat, p: (nat, nat))
    requires i <= |ids|
    ensures p in Rows(ids, i) <==> InRows(ids, i, p)
  {
    if i > 0 {
      RowsIn(ids, i - 1, p);
    }
  }

  lemma {:induction false} RowsWitness(ids: seq<nat>, i: nat, p: (nat, nat)) returns (a: nat, b: nat)
    requires i <= |ids| && InRows(ids, i, p)
    ensures a < i && a < b < |ids| && p == (ids[a], ids[b])
  {
    if InRows(ids, i - 1, p) {
      a, b := RowsWitness(ids, i - 1, p);
    } else {
      a := i - 1;
      b := RowWitness(ids, a, |ids|, p);
    }
  }

  lemma {:induction false} RowsContains(ids: seq<nat>, i: nat, a: nat, b: nat)
    requires a < i <= |ids| && a < b < |ids|
    ensures InRows(ids, i, (ids[a], ids[b]))
  {
    if a < i - 1 {
      RowsContains(ids, i - 1, a, b);
    } else {
      RowContains(ids, a, |ids|, b);
    }
  }

  /**
   * On an ascending list, the sweep visits the couple (a, b) exactly when
   * both are listed and a is the smaller: every pair, in list order.
   */
  lemma PairLogMembers(ids: seq<nat>, a: nat, b: nat)
    requires Ascending(ids)
    ensures (a, b) in PairLog(ids) <==> a in ids && b in ids && a < b
  {
    RowsIn(ids, |ids|, (a, b));
    if (a, b) in PairLog(ids) {
      var x, y := RowsWitness(ids, |ids|, (a, b));
      assert ids[x] < ids[y];
    }
    if a in ids && b in ids && a < b {
      var x :| 0 <= x < |ids| && ids[x] == a;
      var y :| 0 <= y < |ids| && ids[y] == b;
      if y < x {
        assert ids[y] < ids[x];
      } else if x < y {
        RowsContains(ids, |ids|, x, y);
      }
    }
  }

  /** No element occurs twice in `s`. */
  ghost predicate NoRepeats<T>(s: seq<T>) {
    forall x, y :: 0 <= x < y < |s| ==> s[x] != s[y]
  }

  /** The position-by-position form used by the loops and the plain form agree. */
  lemma DistinctIsNoRepeats(ids: seq<nat>)
    ensures Distinct(ids) <==> NoRepeats(ids)
  {
    if Distinct(ids) {
      forall x, y | 0 <= x < y < |ids|
        ensures ids[x] != ids[y]
      {
        DistinctAt(ids, x, y);
      }
    }
    if NoRepeats(ids) {
      forall i | 0 <= i < |ids|
        ensures DistinctFrom(ids, i)
      {
      }
    }
  }

  lemma NoRepeatsAppend<T>(s: seq<T>, t: seq<T>)
    requires NoRepeats(s) && NoRepeats(t)
    requires forall p :: p in s ==> p !in t
    ensures NoRepeats(s + t)
  {
    forall x, y | 0 <= x < y < |s + t|
      ensures (s + t)[x] != (s + t)[y]
    {
      if x < |s| && y >= |s| {
        assert (s + t)[x] in s && (s + t)[y] == t[y - |s|];
      } else if x >= |s| {
        assert (s + t)[x] == t[x - |s|] && (s + t)[y] == t[y - |s|];
      }
    }
  }

  lemma RowNoRepeats(ids: seq<nat>, i: nat, j: nat)
    requires Distinct(ids) && i < |ids| && j <= |ids|
    ensures NoRepeats(Row(ids, i, j))
  {
    var r := Row(ids, i, j);
    forall x, y | 0 <= x < y < |r|
      ensures r[x] != r[y]
    {
      DistinctAt(ids, i + 1 + x, i + 1 + y);
    }
  }

  /** The couples of later rows start with a later handle, so rows never share a couple. */
  lemma EarlierRowsDisjoint(ids: seq<nat>, i: nat)
    requires Distinct(ids) && i < |ids|
    ensures forall p :: p in Rows(ids, i) ==> p !in Row(ids, i, |ids|)
  {
    forall p | p in Rows(ids, i)
      ensures p !in Row(ids, i, |ids|)
    {
      RowsIn(ids, i, p);
      var a, b := RowsWitness(ids, i, p);
      if p in Row(ids, i, |ids|) {
        var c := RowWitness(ids, i, |ids|, p);
        DistinctAt(ids, a, i);
      }
    }
  }

  lemma {:induction false} RowsNoRepeats(ids: seq<nat>, i: nat)
    requires Distinct(ids) && i <= |ids|
    ensures NoRepeats(Rows(ids, i))
  {
    if i > 0 {
      RowsNoRepeats(ids, i - 1);
      RowsNoRepeatsStep(ids, i);
    }
  }

  /** Row `i - 1`, without repeats and sharing no couple with the earlier rows, keeps the couples distinct. */
  lemma RowsNoRepeatsStep(ids: seq<nat>, i: nat)
    requires Distinct(ids) && 0 < i <= |ids|
    requires NoRepeats(Rows(ids, i - 1))
    ensures NoRepeats(Rows(ids, i - 1) + Row(ids, i - 1, |ids|))
  {
    RowNoRepeats(ids, i - 1, |ids|);
    EarlierRowsDisjoint(ids, i - 1);
    NoRepeatsAppend(Rows(ids, i - 1), Row(ids, i - 1, |ids|));
  }

  /** No couple is visited twice: with the membership above, each pair is visited exactly once. */
  lemma PairLogNoRepeats(ids: seq<nat>)
    requires Distinct(ids)
    ensures NoRepeats(PairLog(ids))
  {
    RowsNoRepeats(ids, |ids|);
  }
}
