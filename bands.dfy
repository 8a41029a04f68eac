/**
  The horizontal bands of the preview image that belong to subtasks, and
  the overlay colours painted over them.

  Unit `k` of `totalTasks` covers the pixel rows from `Bound(k - 1)`
  (inclusive) to `Bound(k)` (exclusive), where `Bound(k)` is the floor of
  `resY / totalTasks * k`.
*/
module Bands {
  import opened Wrappers
  import opened Imaging
  import opened Ledger

  /** The row at which the band after unit `k` starts. */
  function Bound(resY: nat, totalTasks: int, k: int): (b: int)
    requires totalTasks > 0
    ensures totalTasks * b <= resY * k < totalTasks * b + totalTasks
  {
    (resY * k) / totalTasks
  }

  /** The first row of a subtask's band. */
  function BandTop(resY: nat, totalTasks: int, s: Subtask): int
    requires totalTasks > 0
  {
    Bound(resY, totalTasks, s.startTask - 1)
  }

  /** The row just below a subtask's band. */
  function BandBottom(resY: nat, totalTasks: int, s: Subtask): int
    requires totalTasks > 0
  {
    Bound(resY, totalTasks, s.endTask)
  }

  predicate Covers(resY: nat, totalTasks: int, s: Subtask, row: int)
    requires totalTasks > 0
  {
    BandTop(resY, totalTasks, s) <= row < BandBottom(resY, totalTasks, s)
  }

  lemma {:induction false} MulMonotone(d: nat, x: int, y: int)
    requires x <= y
    ensures d * x <= d * y
  {
    if d > 0 {
      MulMonotone(d - 1, x, y);
      assert d * x == (d - 1) * x + x && d * y == (d - 1) * y + y;
    }
  }

  lemma DivMonotone(a: int, b: int, d: int)
    requires a <= b && d > 0
    ensures a / d <= b / d
  {
    var qa, qb := a / d, b / d;
    if qa > qb {
      MulMonotone(d, qb + 1, qa);
      assert false;
    }
  }

  /** Division undoes multiplication: the quotient is the one that brackets the dividend. */
  lemma DivUnique(a: int, d: int, q: int)
    requires d > 0 && d * q <= a < d * q + d
    ensures a / d == q
  {
    var r := a / d;
    if r > q {
      MulMonotone(d, q + 1, r);
      assert false;
    } else if r < q {
      MulMonotone(d, r + 1, q);
      assert false;
    }
  }

  /** Bounds grow with the unit index. */
  lemma BoundMonotone(resY: nat, totalTasks: int, k1: int, k2: int)
    requires totalTasks > 0 && k1 <= k2
    ensures Bound(resY, totalTasks, k1) <= Bound(resY, totalTasks, k2)
  {
    MulMonotone(resY, k1, k2);
    DivMonotone(resY * k1, resY * k2, totalTasks);
  }

  /** The first band starts at the top row and the last one ends at the bottom of the image. */
  lemma BoundEnds(resY: nat, totalTasks: int)
    requires totalTasks > 0
    ensures Bound(resY, totalTasks, 0) == 0
    ensures Bound(resY, totalTasks, totalTasks) == resY
  {
    assert resY * totalTasks == totalTasks * resY;
    DivUnique(resY * totalTasks, totalTasks, resY);
  }

  /** Every unit between 0 and the total has its bound inside the image. */
  lemma BoundInImage(resY: nat, totalTasks: int, k: int)
    requires totalTasks > 0 && 0 <= k <= totalTasks
    ensures 0 <= Bound(resY, totalTasks, k) <= resY
  {
    BoundEnds(resY, totalTasks);
    BoundMonotone(resY, totalTasks, 0, k);
    BoundMonotone(resY, totalTasks, k, totalTasks);
  }

  /**
    The band that ends with unit `k` and the band that starts at unit
    `k + 1` meet at the same row, so neighbouring subtasks leave no gap.
  */
  lemma BandsAdjacent(resY: nat, totalTasks: int, below: Subtask, above: Subtask)
    requires totalTasks > 0
    requires below.startTask == above.endTask + 1
    ensures BandBottom(resY, totalTasks, above) == BandTop(resY, totalTasks, below)
  {
  }

  lemma {:induction false} RowReached(resY: nat, totalTasks: int, row: int, k: int)
    requires totalTasks > 0 && 1 <= k <= totalTasks
    requires Bound(resY, totalTasks, k - 1) <= row < resY
    ensures exists u :: k <= u <= totalTasks && Bound(resY, totalTasks, u - 1) <= row < Bound(resY, totalTasks, u)
    decreases totalTasks - k
  {
    if row >= Bound(resY, totalTasks, k) {
      BoundEnds(resY, totalTasks);
      RowReached(resY, totalTasks, row, k + 1);
    }
  }

  /**
    The bands of the single units 1 .. totalTasks, which the cursor hands
    out one by one, cover the image: every row lies in one of them.
  */
  lemma UnitBandsCover(resY: nat, totalTasks: int, row: int)
    requires totalTasks > 0 && 0 <= row < resY
    ensures exists u :: 1 <= u <= totalTasks && Bound(resY, totalTasks, u - 1) <= row < Bound(resY, totalTasks, u)
  {
    BoundEnds(resY, totalTasks);
    RowReached(resY, totalTasks, row, 1);
  }

  /** The bands of distinct single units do not overlap. */
  lemma UnitBandsDisjoint(resY: nat, totalTasks: int, row: int, u1: int, u2: int)
    requires totalTasks > 0
    requires Bound(resY, totalTasks, u1 - 1) <= row < Bound(resY, totalTasks, u1)
    requires Bound(resY, totalTasks, u2 - 1) <= row < Bound(resY, totalTasks, u2)
    ensures u1 == u2
  {
    if u1 < u2 {
      BoundMonotone(resY, totalTasks, u1, u2 - 1);
    } else if u2 < u1 {
      BoundMonotone(resY, totalTasks, u2, u1 - 1);
    }
  }

  /** The colour the overlay paints over a subtask's band, if it paints one. */
  function OverlayColor(status: Status): Option<Color> {
    match status
    case Starting => Some(Green)
    case Failure => Some(Red)
    case _ => None
  }

  predicate Paints(resY: nat, totalTasks: int, s: Subtask, row: int)
    requires totalTasks > 0
  {
    Covers(resY, totalTasks, s, row) && OverlayColor(s.status).Some?
  }

  /**
    The overlay pixel in row `row` of a preview pixel `base` after the
    subtasks `subs` have been painted in that order.
  */
  function Overlay(resY: nat, totalTasks: int, base: Color, row: int, subs: seq<Subtask>): (c: Color)
    requires totalTasks > 0 || subs == []
    ensures c == base || c == Green || c == Red
    ensures subs == [] ==> c == base
    decreases |subs|
  {
    if subs == [] then base
    else
      var last := subs[|subs| - 1];
      if Paints(resY, totalTasks, last, row) then OverlayColor(last.status).value
      else Overlay(resY, totalTasks, base, row, subs[..|subs| - 1])
  }

  /** Painting one more subtask changes a pixel only where that subtask paints. */
  lemma OverlayStep(resY: nat, totalTasks: int, base: Color, row: int, subs: seq<Subtask>, s: Subtask)
    requires totalTasks > 0
    ensures Overlay(resY, totalTasks, base, row, subs + [s]) ==
            if Paints(resY, totalTasks, s, row) then OverlayColor(s.status).value
            else Overlay(resY, totalTasks, base, row, subs)
  {
    assert (subs + [s])[..|subs|] == subs;
  }

  /** A row that no sent or failed subtask covers keeps its preview pixel. */
  lemma {:induction false} OverlayKeepsUnpainted(resY: nat, totalTasks: int, base: Color, row: int, subs: seq<Subtask>)
    requires totalTasks > 0
    requires forall k :: 0 <= k < |subs| ==> !Paints(resY, totalTasks, subs[k], row)
    ensures Overlay(resY, totalTasks, base, row, subs) == base
    decreases |subs|
  {
    if subs != [] {
      OverlayKeepsUnpainted(resY, totalTasks, base, row, subs[..|subs| - 1]);
    }
  }

  /**
    Where bands overlap, the last sent or failed subtask in iteration order
    decides the colour: green for a sent one, red for a failed one.
  */
  lemma {:induction false} OverlayLastWins(resY: nat, totalTasks: int, base: Color, row: int, subs: seq<Subtask>, k: nat)
    requires totalTasks > 0
    requires k < |subs| && Paints(resY, totalTasks, subs[k], row)
    requires forall j :: k < j < |subs| ==> !Paints(resY, totalTasks, subs[j], row)
    ensures Overlay(resY, totalTasks, base, row, subs) == if subs[k].status == Starting then Green else Red
    decreases |subs|
  {
    if k < |subs| - 1 {
      OverlayLastWins(resY, totalTasks, base, row, subs[..|subs| - 1], k);
    }
  }
}
