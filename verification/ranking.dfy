/**
 * The order in which a topic ranks its terms, and the top-k selection built on it.
 *
 * numpy's `argpartition`/`argsort` leave the order of equal weights unspecified;
 * this model fixes it: a heavier term ranks first, and of two equally heavy terms
 * the one with the lower id ranks first.
 */
module Ranking {

  /** Term `i` ranks ahead of term `j` in the topic column `col`. */
  predicate Before(col: seq<real>, i: nat, j: nat)
    requires i < |col| && j < |col|
  {
    col[i] > col[j] || (col[i] == col[j] && i < j)
  }

  /** Every id in `s` is a row of `col`. */
  predicate InRange(col: seq<real>, s: seq<nat>)
  {
    forall i :: 0 <= i < |s| ==> s[i] < |col|
  }

  /** `s` lists ids in strictly decreasing rank (so without repetition). */
  predicate Ordered(col: seq<real>, s: seq<nat>)
    requires InRange(col, s)
  {
    forall i, j :: 0 <= i < j < |s| ==> Before(col, s[i], s[j])
  }

  /** Puts `x` into the ranked list `s` just before the first id it ranks ahead of. */
  function Insert(col: seq<real>, x: nat, s: seq<nat>): (r: seq<nat>)
    requires x < |col| && InRange(col, s)
    ensures InRange(col, r)
    ensures |r| == |s| + 1
    ensures forall y :: y in r <==> y == x || y in s
  {
    if s == [] then [x]
    else if Before(col, x, s[0]) then [x] + s
    else [s[0]] + Insert(col, x, s[1..])
  }

  lemma {:induction false} InsertOrdered(col: seq<real>, x: nat, s: seq<nat>)
    requires x < |col| && InRange(col, s) && Ordered(col, s) && x !in s
    ensures Ordered(col, Insert(col, x, s))
  {
    if s != [] && !Before(col, x, s[0]) {
      var tail := Insert(col, x, s[1..]);
      assert Ordered(col, s[1..]) by {
        forall i, j | 0 <= i < j < |s[1..]| ensures Before(col, s[1..][i], s[1..][j]) {
          assert s[1..][i] == s[i + 1] && s[1..][j] == s[j + 1];
        }
      }
      InsertOrdered(col, x, s[1..]);
      var r := Insert(col, x, s);
      assert r == [s[0]] + tail;
      forall i, j | 0 <= i < j < |r| ensures Before(col, r[i], r[j]) {
        if i == 0 {
          var y := r[j];
          assert y == tail[j - 1] && y in tail;
          if y == x {
            assert x != s[0];
          } else {
            var p :| 0 <= p < |s[1..]| && s[1..][p] == y;
            assert s[p + 1] == y;
          }
        } else {
          assert r[i] == tail[i - 1] && r[j] == tail[j - 1];
        }
      }
    }
  }

  /** The ids `0 .. n-1` of `col` in rank order. */
  function Ranked(col: seq<real>, n: nat): (r: seq<nat>)
    requires n <= |col|
    ensures InRange(col, r) && |r| == n
    ensures forall y :: y in r <==> 0 <= y < n
  {
    if n == 0 then [] else Insert(col, n - 1, Ranked(col, n - 1))
  }

  lemma {:induction false} RankedOrdered(col: seq<real>, n: nat)
    requires n <= |col|
    ensures Ordered(col, Ranked(col, n))
  {
    if n > 0 {
      RankedOrdered(col, n - 1);
      InsertOrdered(col, n - 1, Ranked(col, n - 1));
    }
  }

  /** The `count` best-ranked ids of `col`, best first. */
  function TopIds(col: seq<real>, count: nat): (ids: seq<nat>)
    requires count <= |col|
    ensures |ids| == count && InRange(col, ids)
  {
    Ranked(col, |col|)[..count]
  }

  /**
   * The selection is a correct top-k: `count` distinct rows of the column,
   * weights non-increasing along the list, and no unselected term outweighs a
   * selected one (on equal weight the selected one has the lower id).
   */
  lemma TopIdsSelect(col: seq<real>, count: nat)
    requires count <= |col|
    ensures var ids := TopIds(col, count);
      && |ids| == count
      && InRange(col, ids)
      && (forall i, j :: 0 <= i < j < count ==> ids[i] != ids[j] && col[ids[i]] >= col[ids[j]])
      && (forall i, u :: 0 <= i < count && 0 <= u < |col| && u !in ids ==>
            col[ids[i]] >= col[u] && (col[ids[i]] == col[u] ==> ids[i] < u))
  {
    var r := Ranked(col, |col|);
    RankedOrdered(col, |col|);
    var ids := TopIds(col, count);
    forall i, u | 0 <= i < count && 0 <= u < |col| && u !in ids
      ensures col[ids[i]] >= col[u] && (col[ids[i]] == col[u] ==> ids[i] < u)
    {
      assert u in r;
      var p :| 0 <= p < |r| && r[p] == u;
      assert Before(col, r[i], r[p]);
    }
  }
}
