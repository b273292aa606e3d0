/**
 The density map and its weighted expansion. The map itself (Perlin noise
 blended with the distance to the centre) is taken as given data; what is
 modelled is `weightenMap`, which lists every cell outside the central disk
 as many times as its density, scaled to a percentage and truncated, so that a
 uniform draw from the list favours dense cells.
 */
module Density {
  import opened Basics

  /** Side of the square density map. */
  const SIZE: nat := 1000

  /** Radius of the central open area, in cells. */
  const CENTER_RADIUS: nat := 200

  /** A SIZE x SIZE map of densities, indexed `m[i][j]`. */
  type Grid = seq<seq<real>>

  ghost predicate IsGrid(m: Grid) {
    |m| == SIZE && forall i :: 0 <= i < SIZE ==> |m[i]| == SIZE
  }

  /** A cell coordinate emitted by the expansion. */
  datatype Sample = Sample(i: int, j: int)

  predicate InGrid(s: Sample) {
    0 <= s.i < SIZE && 0 <= s.j < SIZE
  }

  /** Strictly outside the central disk, measured from cell (SIZE/2, SIZE/2) in integer arithmetic. */
  predicate OutsideCenter(i: int, j: int) {
    var x := i - SIZE / 2;
    var y := j - SIZE / 2;
    x * x + y * y > CENTER_RADIUS * CENTER_RADIUS
  }

  /** Copies a cell receives: none inside the disk, else `(int)(100 * density)` (a non-positive count adds none). */
  function Weight(m: Grid, i: nat, j: nat): nat
    requires IsGrid(m) && i < SIZE && j < SIZE
  {
    if OutsideCenter(i, j) then
      var occ := Trunc(100.0 * m[i][j]);
      if occ > 0 then occ else 0
    else 0
  }

  /** Row-major order on cells. */
  predicate Before(p: Sample, q: Sample) {
    p.i < q.i || (p.i == q.i && p.j <= q.j)
  }

  /** `n` copies of one sample. */
  function Copies(n: nat, s: Sample): (r: seq<Sample>)
    ensures |r| == n && forall k :: 0 <= k < n ==> r[k] == s
  {
    seq(n, _ => s)
  }

  /** The expansion of the cells from (i, j) onward, in row-major order. */
  function WeightenFrom(m: Grid, i: nat, j: nat): seq<Sample>
    requires IsGrid(m) && i <= SIZE && j <= SIZE
    decreases SIZE - i, SIZE - j
  {
    if i == SIZE then []
    else if j == SIZE then WeightenFrom(m, i + 1, 0)
    else Copies(Weight(m, i, j), Sample(i, j)) + WeightenFrom(m, i, j + 1)
  }

  /** `weightenMap`: the expansion of the whole map. */
  function WeightenMap(m: Grid): seq<Sample>
    requires IsGrid(m)
  {
    WeightenFrom(m, 0, 0)
  }

  lemma {:induction false} CopiesCount(n: nat, s: Sample, t: Sample)
    ensures multiset(Copies(n, s))[t] == if t == s then n else 0
  {
    if n > 0 {
      assert Copies(n, s) == Copies(n - 1, s) + [s];
      CopiesCount(n - 1, s, t);
    }
  }

  /** From (i0, j0) onward, every cell at or after (i0, j0) occurs exactly its weight times, and nothing else occurs. */
  lemma {:induction false} WeightenFromCount(m: Grid, i0: nat, j0: nat, t: Sample)
    requires IsGrid(m) && i0 <= SIZE && j0 <= SIZE
    ensures multiset(WeightenFrom(m, i0, j0))[t]
         == if InGrid(t) && Before(Sample(i0, j0), t) then Weight(m, t.i, t.j) else 0
    decreases SIZE - i0, SIZE - j0
  {
    if i0 == SIZE {
    } else if j0 == SIZE {
      WeightenFromCount(m, i0 + 1, 0, t);
    } else {
      CopiesCount(Weight(m, i0, j0), Sample(i0, j0), t);
      WeightenFromCount(m, i0, j0 + 1, t);
    }
  }

  /** From (i0, j0) onward, every emitted cell lies in the grid at or after (i0, j0), in row-major order. */
  lemma {:induction false} WeightenFromOrdered(m: Grid, i0: nat, j0: nat)
    requires IsGrid(m) && i0 <= SIZE && j0 <= SIZE
    ensures forall k :: 0 <= k < |WeightenFrom(m, i0, j0)| ==>
      InGrid(WeightenFrom(m, i0, j0)[k]) && Before(Sample(i0, j0), WeightenFrom(m, i0, j0)[k])
    ensures forall p, q :: 0 <= p < q < |WeightenFrom(m, i0, j0)| ==>
      Before(WeightenFrom(m, i0, j0)[p], WeightenFrom(m, i0, j0)[q])
    decreases SIZE - i0, SIZE - j0
  {
    if i0 == SIZE {
    } else if j0 == SIZE {
      WeightenFromOrdered(m, i0 + 1, 0);
    } else {
      var head := Copies(Weight(m, i0, j0), Sample(i0, j0));
      var tail := WeightenFrom(m, i0, j0 + 1);
      WeightenFromOrdered(m, i0, j0 + 1);
      var r := head + tail;
      assert WeightenFrom(m, i0, j0) == r;
      forall p, q | 0 <= p < q < |r|
        ensures Before(r[p], r[q])
      {
        if q < |head| {
          assert r[p] == r[q];
        } else if p < |head| {
          assert r[p] == Sample(i0, j0) && r[q] == tail[q - |head|];
        } else {
          assert r[p] == tail[p - |head|] && r[q] == tail[q - |head|];
        }
      }
    }
  }

  /**
   The expansion of the whole map: a cell inside the central disk never
   occurs; every other cell occurs exactly `(int)(100 * density)` times (none if
   that is not positive); only grid cells occur; and they come in row-major order.
   */
  lemma WeightenMapSpec(m: Grid)
    requires IsGrid(m)
    ensures forall t :: InGrid(t) && !OutsideCenter(t.i, t.j) ==> t !in WeightenMap(m)
    ensures forall t :: InGrid(t) && OutsideCenter(t.i, t.j) ==>
      multiset(WeightenMap(m))[t] == (if Trunc(100.0 * m[t.i][t.j]) > 0 then Trunc(100.0 * m[t.i][t.j]) else 0)
    ensures forall t :: t in WeightenMap(m) ==> InGrid(t)
    ensures forall p, q :: 0 <= p < q < |WeightenMap(m)| ==> Before(WeightenMap(m)[p], WeightenMap(m)[q])
  {
    forall t | InGrid(t)
      ensures multiset(WeightenMap(m))[t] == Weight(m, t.i, t.j)
    {
      WeightenFromCount(m, 0, 0, t);
    }
    WeightenFromOrdered(m, 0, 0);
  }
}
