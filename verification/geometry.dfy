/** Grid coordinates and the two rectangle helpers of `GridPosition`:
    the inclusive area spanned by two positions and its four corners. */
module Geometry {
  import opened Numeric

  datatype GridPosition = GridPosition(x: int, y: int)

  /** The elements of `s` are pairwise distinct. */
  predicate Distinct<T(==)>(s: seq<T>) {
    forall i, j :: 0 <= i < j < |s| ==> s[i] != s[j]
  }

  /** `p` lies in the inclusive bounding box of `a` and `b`. */
  predicate InBox(p: GridPosition, a: GridPosition, b: GridPosition) {
    && Min(a.x, b.x) <= p.x <= Max(a.x, b.x)
    && Min(a.y, b.y) <= p.y <= Max(a.y, b.y)
  }

  /** `p` is a cell of an `n` by `n` grid. */
  predicate InGrid(p: GridPosition, n: int) {
    0 <= p.x < n && 0 <= p.y < n
  }

  /** The inner loop of `area`: column `x`, rows `lo` through `hi`. */
  function Column(x: int, lo: int, hi: int): seq<GridPosition>
    decreases hi - lo
  {
    if lo > hi then [] else [GridPosition(x, lo)] + Column(x, lo + 1, hi)
  }

  /** The outer loop of `area`: columns `x0` through `x1`, each in full. */
  function Block(x0: int, x1: int, y0: int, y1: int): seq<GridPosition>
    decreases x1 - x0
  {
    if x0 > x1 then [] else Column(x0, y0, y1) + Block(x0 + 1, x1, y0, y1)
  }

  lemma {:induction false} ColumnFacts(x: int, lo: int, hi: int)
    requires lo <= hi + 1
    ensures |Column(x, lo, hi)| == hi - lo + 1
    ensures forall p :: p in Column(x, lo, hi) <==> p.x == x && lo <= p.y <= hi
    ensures Distinct(Column(x, lo, hi))
    decreases hi - lo
  {
    if lo <= hi {
      ColumnFacts(x, lo + 1, hi);
      var c := Column(x, lo, hi);
      assert c == [GridPosition(x, lo)] + Column(x, lo + 1, hi);
      forall i, j | 0 <= i < j < |c|
        ensures c[i] != c[j]
      {
        if i == 0 {
          assert c[j] in Column(x, lo + 1, hi);
        } else {
          assert c[i] == Column(x, lo + 1, hi)[i - 1];
          assert c[j] == Column(x, lo + 1, hi)[j - 1];
        }
      }
    }
  }

  lemma {:induction false} BlockFacts(x0: int, x1: int, y0: int, y1: int)
    requires x0 <= x1 + 1 && y0 <= y1 + 1
    ensures |Block(x0, x1, y0, y1)| == (x1 - x0 + 1) * (y1 - y0 + 1)
    ensures forall p :: p in Block(x0, x1, y0, y1) <==> x0 <= p.x <= x1 && y0 <= p.y <= y1
    ensures Distinct(Block(x0, x1, y0, y1))
    decreases x1 - x0
  {
    if x0 <= x1 {
      var col := Column(x0, y0, y1);
      var rest := Block(x0 + 1, x1, y0, y1);
      ColumnFacts(x0, y0, y1);
      BlockFacts(x0 + 1, x1, y0, y1);
      var b := Block(x0, x1, y0, y1);
      assert b == col + rest;
      assert |b| == (y1 - y0 + 1) + (x1 - x0) * (y1 - y0 + 1);
      assert (x1 - x0 + 1) * (y1 - y0 + 1) == (y1 - y0 + 1) + (x1 - x0) * (y1 - y0 + 1);
      forall p
        ensures p in b <==> x0 <= p.x <= x1 && y0 <= p.y <= y1
      {
        assert p in b <==> p in col || p in rest;
      }
      forall i, j | 0 <= i < j < |b|
        ensures b[i] != b[j]
      {
        if j < |col| {
          assert b[i] == col[i] && b[j] == col[j];
        } else if i >= |col| {
          assert b[i] == rest[i - |col|] && b[j] == rest[j - |col|];
        } else {
          assert b[i] == col[i] && b[i] in col;
          assert b[j] == rest[j - |col|] && b[j] in rest;
        }
      }
    }
  }

  /** `GridPosition.area(from:to:)`: every cell of the rectangle spanned by
      the two positions, inclusive of both, column by column. */
  function Area(a: GridPosition, b: GridPosition): (r: seq<GridPosition>)
    ensures |r| == (Abs(a.x - b.x) + 1) * (Abs(a.y - b.y) + 1)
    ensures forall p :: p in r <==> InBox(p, a, b)
    ensures Distinct(r)
    ensures r[0] == GridPosition(Min(a.x, b.x), Min(a.y, b.y))
    ensures r[|r| - 1] == GridPosition(Max(a.x, b.x), Max(a.y, b.y))
  {
    SpanFacts(a, b);
    Block(Min(a.x, b.x), Max(a.x, b.x), Min(a.y, b.y), Max(a.y, b.y))
  }

  /** The block between the componentwise minimum and maximum of two
      positions is exactly their rectangle. */
  lemma SpanFacts(a: GridPosition, b: GridPosition)
    ensures var blk := Block(Min(a.x, b.x), Max(a.x, b.x), Min(a.y, b.y), Max(a.y, b.y));
      && |blk| == (Abs(a.x - b.x) + 1) * (Abs(a.y - b.y) + 1)
      && (forall p :: p in blk <==> InBox(p, a, b))
      && Distinct(blk)
      && |blk| > 0
      && blk[0] == GridPosition(Min(a.x, b.x), Min(a.y, b.y))
      && blk[|blk| - 1] == GridPosition(Max(a.x, b.x), Max(a.y, b.y))
  {
    var x0, x1, y0, y1 := Min(a.x, b.x), Max(a.x, b.x), Min(a.y, b.y), Max(a.y, b.y);
    var blk := Block(x0, x1, y0, y1);
    BlockFacts(x0, x1, y0, y1);
    BlockEnds(x0, x1, y0, y1);
    assert x1 - x0 + 1 == Abs(a.x - b.x) + 1 && y1 - y0 + 1 == Abs(a.y - b.y) + 1;
    assert forall p :: p in blk <==> InBox(p, a, b);
  }

  /** The first cell of a non-empty block is its lower corner and the last
      its upper corner (the loops run upward in both coordinates). */
  lemma {:induction false} BlockEnds(x0: int, x1: int, y0: int, y1: int)
    requires x0 <= x1 && y0 <= y1
    ensures |Block(x0, x1, y0, y1)| > 0
    ensures Block(x0, x1, y0, y1)[0] == GridPosition(x0, y0)
    ensures Block(x0, x1, y0, y1)[|Block(x0, x1, y0, y1)| - 1] == GridPosition(x1, y1)
    decreases x1 - x0
  {
    ColumnFacts(x0, y0, y1);
    var col := Column(x0, y0, y1);
    ColumnLast(x0, y0, y1);
    if x0 < x1 {
      BlockEnds(x0 + 1, x1, y0, y1);
    } else {
      assert Block(x0, x1, y0, y1) == col;
    }
  }

  lemma {:induction false} ColumnLast(x: int, lo: int, hi: int)
    requires lo <= hi
    ensures |Column(x, lo, hi)| > 0
    ensures Column(x, lo, hi)[|Column(x, lo, hi)| - 1] == GridPosition(x, hi)
    decreases hi - lo
  {
    if lo < hi {
      ColumnLast(x, lo + 1, hi);
    }
  }

  /** `GridPosition.corners(from:to:)`: the four corners of the spanned
      rectangle, in the order (min,min), (max,min), (min,max), (max,max). */
  function Corners(a: GridPosition, b: GridPosition): (r: seq<GridPosition>)
    ensures |r| == 4
    ensures forall i :: 0 <= i < 4 ==> r[i] in Area(a, b)
    ensures forall i :: 0 <= i < 4 ==>
      (r[i].x == Min(a.x, b.x) || r[i].x == Max(a.x, b.x)) &&
      (r[i].y == Min(a.y, b.y) || r[i].y == Max(a.y, b.y))
  {
    var minX, maxX, minY, maxY := Min(a.x, b.x), Max(a.x, b.x), Min(a.y, b.y), Max(a.y, b.y);
    var r := [GridPosition(minX, minY), GridPosition(maxX, minY), GridPosition(minX, maxY), GridPosition(maxX, maxY)];
    assert forall i :: 0 <= i < 4 ==> InBox(r[i], a, b);
    r
  }

  /** The area depends only on the bounding box, so the order in which the
      two positions are given does not matter. */
  lemma AreaSymmetric(a: GridPosition, b: GridPosition)
    ensures Area(a, b) == Area(b, a)
  {
  }

  /** Likewise for the corners. */
  lemma CornersSymmetric(a: GridPosition, b: GridPosition)
    ensures Corners(a, b) == Corners(b, a)
  {
  }

  /** Every corner is one of the four extreme combinations, and each of
      the four extreme combinations is a corner. */
  lemma CornersAreExtremes(a: GridPosition, b: GridPosition)
    ensures forall p :: p in Corners(a, b) <==>
      (p.x == Min(a.x, b.x) || p.x == Max(a.x, b.x)) &&
      (p.y == Min(a.y, b.y) || p.y == Max(a.y, b.y))
  {
    var c := Corners(a, b);
    forall p: GridPosition | (p.x == Min(a.x, b.x) || p.x == Max(a.x, b.x)) && (p.y == Min(a.y, b.y) || p.y == Max(a.y, b.y))
      ensures p in c
    {
      if p.x == Min(a.x, b.x) && p.y == Min(a.y, b.y) {
        assert p == c[0];
      } else if p.x == Max(a.x, b.x) && p.y == Min(a.y, b.y) {
        assert p == c[1];
      } else if p.x == Min(a.x, b.x) {
        assert p == c[2];
      } else {
        assert p == c[3];
      }
    }
  }

  /** A one-cell rectangle: the area is that cell and all four corners
      coincide with it. */
  lemma DegenerateRectangle(a: GridPosition)
    ensures Area(a, a) == [a]
    ensures Corners(a, a) == [a, a, a, a]
  {
    var r := Area(a, a);
    assert |r| == 1;
    assert r[0] == a;
  }

  /** If both endpoints are cells of an `n` by `n` grid, so is every cell of
      the area they span: clearing the area never indexes outside the grid. */
  lemma AreaInGrid(a: GridPosition, b: GridPosition, n: int)
    requires InGrid(a, n) && InGrid(b, n)
    ensures forall p :: p in Area(a, b) ==> InGrid(p, n)
  {
  }

  /** The four corners all lie on an `n` by `n` grid exactly when both
      endpoints do. */
  lemma CornersInGrid(a: GridPosition, b: GridPosition, n: int)
    ensures (forall i :: 0 <= i < 4 ==> InGrid(Corners(a, b)[i], n)) <==> InGrid(a, n) && InGrid(b, n)
  {
    var c := Corners(a, b);
    if forall i :: 0 <= i < 4 ==> InGrid(c[i], n) {
      assert InGrid(c[0], n) && InGrid(c[3], n);
    }
  }
}
