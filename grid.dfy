/**
 * Row-major pixel geometry of the panel segmenter (src/utils/panelDetection.ts):
 * a pixel (x, y) of a width-w raster lives at index y*w + x, its 4-neighbours
 * are the cells floodFill pushes, and a region is a 4-connected component of
 * the non-edge pixels (edge value 0) that no earlier fill has taken.
 */
module Grid {

  function Idx(x: int, y: int, w: int): int
  {
    y * w + x
  }

  predicate InBounds(x: int, y: int, w: int, h: int)
  {
    0 <= x < w && 0 <= y < h
  }

  function Col(i: int, w: int): int
    requires w > 0
  {
    i % w
  }

  function Row(i: int, w: int): int
    requires w > 0
  {
    i / w
  }

  lemma MulLe(a: int, b: int, w: int)
    requires a <= b && 0 <= w
    ensures a * w <= b * w
  {
    var d := b - a;
    assert b * w == a * w + d * w;
  }

  lemma IdxInRange(x: int, y: int, w: int, h: int)
    requires InBounds(x, y, w, h)
    ensures 0 <= Idx(x, y, w) < w * h
  {
    MulLe(y + 1, h, w);
  }

  /** The pixel after the last one of row y is the first one of row y + 1. */
  lemma NextRow(y: int, w: int)
    ensures Idx(0, y + 1, w) == Idx(w - 1, y, w) + 1
  {
    assert (y + 1) * w == y * w + w;
  }

  /** Column and row recover the coordinates of an index. */
  lemma IdxCoords(x: int, y: int, w: int)
    requires 0 <= x < w && 0 <= y
    ensures Col(Idx(x, y, w), w) == x && Row(Idx(x, y, w), w) == y
  {
    var i := y * w + x;
    var q, r := i / w, i % w;
    assert i == q * w + r && 0 <= r < w;
    if q > y { MulLe(y + 1, q, w); }
    if q < y { MulLe(q + 1, y, w); }
  }

  /** Every index of a w-by-h raster is the index of its own column and row. */
  lemma CoordsOf(i: int, w: int, h: int)
    requires w > 0 && 0 <= i < w * h
    ensures InBounds(Col(i, w), Row(i, w), w, h) && Idx(Col(i, w), Row(i, w), w) == i
  {
    if i / w >= h {
      MulLe(h, i / w, w);
    }
  }

  lemma IdxInjective(x1: int, y1: int, x2: int, y2: int, w: int)
    requires 0 <= x1 < w && 0 <= y1 && 0 <= x2 < w && 0 <= y2
    requires Idx(x1, y1, w) == Idx(x2, y2, w)
    ensures x1 == x2 && y1 == y2
  {
    IdxCoords(x1, y1, w);
    IdxCoords(x2, y2, w);
  }

  /** The four cells floodFill pushes for (x, y), in push order. */
  function Neighbours(x: int, y: int): (ns: seq<(int, int)>)
    ensures |ns| == 4
  {
    [(x + 1, y), (x - 1, y), (x, y + 1), (x, y - 1)]
  }

  /** q is one of the four neighbours of p. */
  predicate Adjacent(p: int, q: int, w: int)
    requires w > 0
  {
    (Col(q, w), Row(q, w)) in Neighbours(Col(p, w), Row(p, w))
  }

  lemma AdjacentSymmetric(p: int, q: int, w: int)
    requires w > 0 && Adjacent(p, q, w)
    ensures Adjacent(q, p, w)
  {
  }

  /** The pixels a list of indices holds. */
  function Members(r: seq<int>): (m: set<int>)
    ensures forall i :: i in m <==> i in r
  {
    set i | i in r
  }

  /** All indices of a raster of n pixels. */
  function Pixels(n: int): (m: set<int>)
    ensures forall i :: i in m <==> 0 <= i < n
    decreases n
  {
    if n <= 0 then {} else Pixels(n - 1) + {n - 1}
  }

  /** Pixel i is non-edge and was not taken before (by the pixels in `taken`). */
  predicate Free(e: seq<int>, taken: set<int>, i: int)
  {
    0 <= i < |e| && e[i] == 0 && i !in taken
  }

  predicate FreeAt(e: seq<int>, w: int, h: int, taken: set<int>, x: int, y: int)
  {
    InBounds(x, y, w, h) && Free(e, taken, Idx(x, y, w))
  }

  /** Every free neighbour of member p is a member. */
  predicate ClosedAt(r: seq<int>, e: seq<int>, w: int, h: int, taken: set<int>, p: int)
    requires w > 0
  {
    forall c :: c in Neighbours(Col(p, w), Row(p, w)) && FreeAt(e, w, h, taken, c.0, c.1) ==> Idx(c.0, c.1, w) in r
  }

  /** Member k is adjacent to an earlier member. */
  ghost predicate Reached(r: seq<int>, k: int, w: int)
    requires w > 0 && 0 <= k < |r|
  {
    exists j :: 0 <= j < k && Adjacent(r[j], r[k], w)
  }

  /** Each member after the first is adjacent to an earlier one. */
  ghost predicate Connected(r: seq<int>, w: int)
    requires w > 0
  {
    forall k :: 0 < k < |r| ==> Reached(r, k, w)
  }

  /**
   * `r` lists, without repetition and starting at `start`, exactly the pixels
   * 4-connected to `start` through free pixels: each member after the first is
   * adjacent to an earlier one (so it is reachable), and every free neighbour of
   * a member is a member (so nothing reachable is missing).
   */
  ghost predicate IsComponent(r: seq<int>, start: int, e: seq<int>, w: int, h: int, taken: set<int>)
    requires w > 0
  {
    && |r| > 0 && r[0] == start
    && (forall k :: 0 <= k < |r| ==> Free(e, taken, r[k]))
    && (forall i, j :: 0 <= i < j < |r| ==> r[i] != r[j])
    && Connected(r, w)
    && (forall p :: p in r ==> ClosedAt(r, e, w, h, taken, p))
  }

  /** A component is determined by its start: two fills from one pixel find the same pixels. */
  lemma ComponentUnique(r1: seq<int>, r2: seq<int>, start: int, e: seq<int>, w: int, h: int, taken: set<int>)
    requires w > 0 && |e| == w * h
    requires IsComponent(r1, start, e, w, h, taken) && IsComponent(r2, start, e, w, h, taken)
    ensures forall p :: p in r1 <==> p in r2
  {
    forall k | 0 <= k < |r1| ensures r1[k] in r2 {
      MemberIncluded(r1, r2, start, e, w, h, taken, k);
    }
    forall k | 0 <= k < |r2| ensures r2[k] in r1 {
      MemberIncluded(r2, r1, start, e, w, h, taken, k);
    }
  }

  /** Induction on discovery order: each member of r1 is reached from an earlier one, which r2 holds. */
  lemma {:induction false} MemberIncluded(r1: seq<int>, r2: seq<int>, start: int, e: seq<int>, w: int, h: int, taken: set<int>, k: nat)
    requires w > 0 && |e| == w * h
    requires IsComponent(r1, start, e, w, h, taken) && IsComponent(r2, start, e, w, h, taken)
    requires k < |r1|
    ensures r1[k] in r2
    decreases k
  {
    if k > 0 {
      assert Reached(r1, k, w);
      var j :| 0 <= j < k && Adjacent(r1[j], r1[k], w);
      MemberIncluded(r1, r2, start, e, w, h, taken, j);
      var q := r1[k];
      assert Free(e, taken, q);
      CoordsOf(q, w, h);
      var c := (Col(q, w), Row(q, w));
      assert ClosedAt(r2, e, w, h, taken, r1[j]);
      assert c in Neighbours(Col(r1[j], w), Row(r1[j], w)) && FreeAt(e, w, h, taken, c.0, c.1);
    }
  }
}
