/**
 * Panel segmentation of one page raster (src/utils/panelDetection.ts): a Sobel
 * edge map of channel 0, a stack-based 4-connected flood fill of the non-edge
 * pixels in row-major discovery order, a tight bounding box per region, the
 * 2%-of-page noise filter, gutter expansion clamped to the page, splash
 * classification, the whole-page fallback, and the rescale of boxes found on a
 * downscaled copy of a page larger than 1200 px.
 */
module PanelDetection {
  import opened Types
  import opened Grid

  // ---------------------------------------------------------------- edge map

  const EdgeThreshold: int := 200

  /** Channel 0 of pixel (x, y). */
  function Sample(data: seq<int>, w: int, h: int, x: int, y: int): int
    requires |data| == w * h && InBounds(x, y, w, h)
  {
    IdxInRange(x, y, w, h);
    data[Idx(x, y, w)]
  }

  predicate Interior(w: int, h: int, x: int, y: int)
  {
    1 <= x < w - 1 && 1 <= y < h - 1
  }

  /** Horizontal Sobel gradient at an interior pixel. */
  function Gx(data: seq<int>, w: int, h: int, x: int, y: int): int
    requires |data| == w * h && Interior(w, h, x, y)
  {
    - Sample(data, w, h, x - 1, y - 1) + Sample(data, w, h, x + 1, y - 1)
    - 2 * Sample(data, w, h, x - 1, y) + 2 * Sample(data, w, h, x + 1, y)
    - Sample(data, w, h, x - 1, y + 1) + Sample(data, w, h, x + 1, y + 1)
  }

  /** Vertical Sobel gradient at an interior pixel. */
  function Gy(data: seq<int>, w: int, h: int, x: int, y: int): int
    requires |data| == w * h && Interior(w, h, x, y)
  {
    - Sample(data, w, h, x - 1, y - 1) - 2 * Sample(data, w, h, x, y - 1)
    - Sample(data, w, h, x + 1, y - 1) + Sample(data, w, h, x - 1, y + 1)
    + 2 * Sample(data, w, h, x, y + 1) + Sample(data, w, h, x + 1, y + 1)
  }

  /**
   * `Math.sqrt(gx*gx + gy*gy) > 200`. For integer gradients this is exactly
   * gx*gx + gy*gy > 200*200: the square root is monotone, 200 is exact, and the
   * next integer above 40000 already has a root above 200.
   */
  predicate StrongEdge(data: seq<int>, w: int, h: int, x: int, y: int)
    requires |data| == w * h && Interior(w, h, x, y)
  {
    var gx, gy := Gx(data, w, h, x, y), Gy(data, w, h, x, y);
    gx * gx + gy * gy > EdgeThreshold * EdgeThreshold
  }

  /** The edge-map value of pixel (x, y): border pixels are never written and stay 0. */
  function EdgeAt(data: seq<int>, w: int, h: int, x: int, y: int): (v: int)
    requires |data| == w * h && InBounds(x, y, w, h)
    ensures v == 0 || v == 255
    ensures !Interior(w, h, x, y) ==> v == 0
    ensures Interior(w, h, x, y) ==> (v == 255 <==> StrongEdge(data, w, h, x, y))
  {
    if Interior(w, h, x, y) && StrongEdge(data, w, h, x, y) then 255 else 0
  }

  /** The whole edge map, row-major. */
  function EdgeMapOf(data: seq<int>, w: nat, h: nat): (e: seq<int>)
    requires |data| == w * h
    ensures |e| == w * h
    ensures forall i :: 0 <= i < |e| ==> e[i] == 0 || e[i] == 255
  {
    seq(w * h, i requires 0 <= i < w * h =>
      CoordsOf(i, w, h);
      EdgeAt(data, w, h, Col(i, w), Row(i, w)))
  }

  /** Fills a zeroed buffer with the Sobel edge test at every interior pixel, row by row. */
  method EdgeMap(data: seq<int>, w: nat, h: nat) returns (edges: array<int>)
    requires |data| == w * h
    ensures edges[..] == EdgeMapOf(data, w, h)
  {
    edges := new int[w * h](_ => 0);
    ghost var spec := EdgeMapOf(data, w, h);
    if w < 3 || h < 3 {
      BorderOnly(data, w, h);
      return;
    }
    FirstRowIsBorder(data, w, h);
    var y := 1;
    while y < h - 1
      invariant 1 <= y <= h - 1
      invariant edges.Length == w * h
      invariant forall i :: 0 <= i < w * h ==> edges[i] == (if i < Idx(0, y, w) then spec[i] else 0)
    {
      RowStartIsBorder(data, w, h, y);
      EdgeRow(data, w, h, y, edges);
      RowEndIsBorder(data, w, h, y);
      y := y + 1;
    }
    LastRowIsBorder(data, w, h);
  }

  /** Writes the Sobel edge test for the interior pixels of row y, left to right. */
  method EdgeRow(data: seq<int>, w: nat, h: nat, y: int, edges: array<int>)
    requires |data| == w * h && w >= 3 && 1 <= y < h - 1 && edges.Length == w * h
    requires forall i :: 0 <= i < w * h ==> edges[i] == (if i < Idx(1, y, w) then EdgeMapOf(data, w, h)[i] else 0)
    modifies edges
    ensures forall i :: 0 <= i < w * h ==> edges[i] == (if i < Idx(w - 1, y, w) then EdgeMapOf(data, w, h)[i] else 0)
  {
    ghost var spec := EdgeMapOf(data, w, h);
    var x := 1;
    while x < w - 1
      invariant 1 <= x <= w - 1
      invariant forall i :: 0 <= i < w * h ==> edges[i] == (if i < Idx(x, y, w) then spec[i] else 0)
    {
      EdgeMapAt(data, w, h, x, y);
      var gx := Gx(data, w, h, x, y);
      var gy := Gy(data, w, h, x, y);
      edges[Idx(x, y, w)] := if gx * gx + gy * gy > EdgeThreshold * EdgeThreshold then 255 else 0;
      x := x + 1;
    }
  }

  /** The entry of the edge map at pixel (x, y). */
  lemma EdgeMapAt(data: seq<int>, w: nat, h: nat, x: int, y: int)
    requires |data| == w * h && InBounds(x, y, w, h)
    ensures 0 <= Idx(x, y, w) < w * h
    ensures EdgeMapOf(data, w, h)[Idx(x, y, w)] == EdgeAt(data, w, h, x, y)
  {
    IdxInRange(x, y, w, h);
    IdxCoords(x, y, w);
  }

  /** A raster less than three pixels wide or high has no interior: its edge map is all 0. */
  lemma BorderOnly(data: seq<int>, w: nat, h: nat)
    requires |data| == w * h && (w < 3 || h < 3)
    ensures forall i :: 0 <= i < w * h ==> EdgeMapOf(data, w, h)[i] == 0
  {
  }

  /** Pixel (0, y) closes the gap between one row's interior and the next. */
  lemma RowStartIsBorder(data: seq<int>, w: nat, h: nat, y: int)
    requires |data| == w * h && w >= 3 && 1 <= y < h - 1
    ensures Idx(1, y, w) == Idx(0, y, w) + 1
    ensures 0 <= Idx(0, y, w) < w * h
    ensures EdgeMapOf(data, w, h)[Idx(0, y, w)] == 0
  {
    IdxInRange(0, y, w, h);
    IdxCoords(0, y, w);
  }

  /** Pixel (w-1, y) ends a row's interior; the next row starts right after it. */
  lemma RowEndIsBorder(data: seq<int>, w: nat, h: nat, y: int)
    requires |data| == w * h && w >= 3 && 1 <= y < h - 1
    ensures Idx(0, y + 1, w) == Idx(w - 1, y, w) + 1
    ensures 0 <= Idx(w - 1, y, w) < w * h
    ensures EdgeMapOf(data, w, h)[Idx(w - 1, y, w)] == 0
  {
    EdgeMapAt(data, w, h, w - 1, y);
    NextRow(y, w);
  }

  /** The first row is border: everything before the second row's start maps to 0. */
  lemma FirstRowIsBorder(data: seq<int>, w: nat, h: nat)
    requires |data| == w * h && w >= 3 && h >= 3
    ensures forall i :: 0 <= i < Idx(0, 1, w) ==> EdgeMapOf(data, w, h)[i] == 0
  {
    forall i | 0 <= i < Idx(0, 1, w) ensures EdgeMapOf(data, w, h)[i] == 0 {
      assert Idx(i, 0, w) == i;
      EdgeMapAt(data, w, h, i, 0);
    }
  }

  /** The last row is border: everything from its start on maps to 0. */
  lemma LastRowIsBorder(data: seq<int>, w: nat, h: nat)
    requires |data| == w * h && w >= 3 && h >= 3
    ensures forall i :: Idx(0, h - 1, w) <= i < w * h ==> EdgeMapOf(data, w, h)[i] == 0
  {
    assert w * h == (h - 1) * w + w;
    forall i | Idx(0, h - 1, w) <= i < w * h ensures EdgeMapOf(data, w, h)[i] == 0 {
      var x := i - Idx(0, h - 1, w);
      assert Idx(x, h - 1, w) == i;
      EdgeMapAt(data, w, h, x, h - 1);
    }
  }

  // -------------------------------------------------------------- flood fill

  /** Every free neighbour of member p is already seen or still waits on the stack. */
  predicate Pending(p: int, e: seq<int>, w: int, h: int, taken: set<int>, seen: set<int>, stack: seq<(int, int)>)
    requires w > 0
  {
    forall c :: c in Neighbours(Col(p, w), Row(p, w)) && FreeAt(e, w, h, taken, c.0, c.1) ==>
      Idx(c.0, c.1, w) in seen || c in stack
  }

  /** Each stacked cell is the start or a neighbour of a member. */
  predicate Pushed(stack: seq<(int, int)>, region: seq<int>, w: int, sx: int, sy: int)
    requires w > 0
  {
    forall s :: s in stack ==> s == (sx, sy) || exists j :: 0 <= j < |region| && s in Neighbours(Col(region[j], w), Row(region[j], w))
  }

  /** The loop invariant of floodFill, over the state after some iterations. */
  ghost predicate FillInv(e: seq<int>, w: int, h: int, sx: int, sy: int, visited: set<int>,
                          region: seq<int>, seen: set<int>, stack: seq<(int, int)>)
    requires w > 0
  {
    && seen == visited + Members(region)
    && (forall k :: 0 <= k < |region| ==> Free(e, visited, region[k]))
    && (forall i, j :: 0 <= i < j < |region| ==> region[i] != region[j])
    && (|region| > 0 ==> region[0] == Idx(sx, sy, w) && InBounds(sx, sy, w, h))
    && Connected(region, w)
    && Pushed(stack, region, w, sx, sy)
    && (|region| == 0 ==> stack == [(sx, sy)] || (stack == [] && !FreeAt(e, w, h, visited, sx, sy)))
    && (forall k :: 0 <= k < |region| ==> Pending(region[k], e, w, h, visited, seen, stack))
  }

  /** A popped cell that is skipped leaves the invariant intact. */
  lemma FillSkip(e: seq<int>, w: int, h: int, sx: int, sy: int, visited: set<int>,
                 region: seq<int>, seen: set<int>, stack: seq<(int, int)>)
    requires w > 0 && |e| == w * h && |stack| > 0
    requires FillInv(e, w, h, sx, sy, visited, region, seen, stack)
    requires !FreeAt(e, w, h, seen, stack[|stack| - 1].0, stack[|stack| - 1].1)
    ensures FillInv(e, w, h, sx, sy, visited, region, seen, stack[..|stack| - 1])
  {
    var rest := stack[..|stack| - 1];
    assert stack == rest + [stack[|stack| - 1]];
    assert Pushed(stack, region, w, sx, sy);
    forall t | t in rest
      ensures t == (sx, sy) || exists j :: 0 <= j < |region| && t in Neighbours(Col(region[j], w), Row(region[j], w))
    {
      assert t in stack;
    }
    forall k | 0 <= k < |region| ensures Pending(region[k], e, w, h, visited, seen, rest) {
      assert Pending(region[k], e, w, h, visited, seen, stack);
    }
  }

  /** The pixel that joins is free and new: the region stays a list of distinct free pixels. */
  lemma AddFresh(e: seq<int>, visited: set<int>, region: seq<int>, seen: set<int>, idx: int)
    requires seen == visited + Members(region)
    requires forall k :: 0 <= k < |region| ==> Free(e, visited, region[k])
    requires forall i, j :: 0 <= i < j < |region| ==> region[i] != region[j]
    requires Free(e, seen, idx)
    ensures var r := region + [idx];
      && seen + {idx} == visited + Members(r)
      && (forall k :: 0 <= k < |r| ==> Free(e, visited, r[k]))
      && (forall i, j :: 0 <= i < j < |r| ==> r[i] != r[j])
  {
    var r := region + [idx];
    assert Members(r) == Members(region) + {idx};
    assert idx !in region;
  }

  /** Appending a pixel adjacent to a member keeps a region connected. */
  lemma ConnectedExtend(r: seq<int>, idx: int, w: int)
    requires w > 0 && Connected(r, w)
    requires |r| > 0 ==> exists j :: 0 <= j < |r| && Adjacent(r[j], idx, w)
    ensures Connected(r + [idx], w)
  {
    var r' := r + [idx];
    forall k | 0 < k < |r'| ensures Reached(r', k, w) {
      if k < |r| {
        assert Reached(r, k, w);
        var j :| 0 <= j < k && Adjacent(r[j], r[k], w);
        assert r'[j] == r[j] && r'[k] == r[k];
        assert Adjacent(r'[j], r'[k], w);
      } else {
        var j :| 0 <= j < |r| && Adjacent(r[j], idx, w);
        assert r'[j] == r[j] && r'[k] == idx;
        assert Adjacent(r'[j], r'[k], w);
      }
    }
  }

  /** The pixel that joins is the start when the region is empty, and otherwise adjacent to a member. */
  lemma AddConnected(e: seq<int>, w: int, h: int, sx: int, sy: int, visited: set<int>,
                     region: seq<int>, seen: set<int>, stack: seq<(int, int)>)
    requires w > 0 && |stack| > 0
    requires seen == visited + Members(region)
    requires |region| > 0 ==> region[0] == Idx(sx, sy, w)
    requires Pushed(stack, region, w, sx, sy)
    requires |region| == 0 ==> stack == [(sx, sy)]
    requires FreeAt(e, w, h, seen, stack[|stack| - 1].0, stack[|stack| - 1].1)
    ensures var s := stack[|stack| - 1];
      && (|region| == 0 ==> s == (sx, sy))
      && (|region| > 0 ==> exists j :: 0 <= j < |region| && Adjacent(region[j], Idx(s.0, s.1, w), w))
  {
    var s := stack[|stack| - 1];
    if |region| > 0 {
      IdxCoords(s.0, s.1, w);
      assert region[0] in seen;
      assert s != (sx, sy) && s in stack;
      var j :| 0 <= j < |region| && s in Neighbours(Col(region[j], w), Row(region[j], w));
      assert Adjacent(region[j], Idx(s.0, s.1, w), w);
    }
  }

  /** After a pixel joins, every stacked cell is still the start or a neighbour of a member. */
  lemma AddPushed(w: int, sx: int, sy: int, region: seq<int>, stack: seq<(int, int)>)
    requires w > 0 && |stack| > 0
    requires Pushed(stack, region, w, sx, sy)
    requires 0 <= stack[|stack| - 1].0 < w && 0 <= stack[|stack| - 1].1
    ensures var s := stack[|stack| - 1];
      Pushed(stack[..|stack| - 1] + Neighbours(s.0, s.1), region + [Idx(s.0, s.1, w)], w, sx, sy)
  {
    var s := stack[|stack| - 1];
    var idx := Idx(s.0, s.1, w);
    var r := region + [idx];
    var st := stack[..|stack| - 1] + Neighbours(s.0, s.1);
    IdxCoords(s.0, s.1, w);
    forall t | t in st
      ensures t == (sx, sy) || exists j :: 0 <= j < |r| && t in Neighbours(Col(r[j], w), Row(r[j], w))
    {
      if t in Neighbours(s.0, s.1) {
        assert t in Neighbours(Col(r[|region|], w), Row(r[|region|], w));
      } else {
        assert t in stack;
        if t != (sx, sy) {
          var j :| 0 <= j < |region| && t in Neighbours(Col(region[j], w), Row(region[j], w));
          assert r[j] == region[j];
        }
      }
    }
  }

  /** After a pixel joins, no free neighbour of a member is lost. */
  lemma AddPending(e: seq<int>, w: int, h: int, visited: set<int>,
                   region: seq<int>, seen: set<int>, stack: seq<(int, int)>)
    requires w > 0 && |stack| > 0
    requires forall k :: 0 <= k < |region| ==> Pending(region[k], e, w, h, visited, seen, stack)
    requires 0 <= stack[|stack| - 1].0 < w && 0 <= stack[|stack| - 1].1
    ensures var s := stack[|stack| - 1]; var r := region + [Idx(s.0, s.1, w)];
      forall k :: 0 <= k < |r| ==>
        Pending(r[k], e, w, h, visited, seen + {Idx(s.0, s.1, w)}, stack[..|stack| - 1] + Neighbours(s.0, s.1))
  {
    var s := stack[|stack| - 1];
    var idx := Idx(s.0, s.1, w);
    var r := region + [idx];
    var rest := stack[..|stack| - 1];
    var st := rest + Neighbours(s.0, s.1);
    assert stack == rest + [s];
    IdxCoords(s.0, s.1, w);
    forall k | 0 <= k < |r| ensures Pending(r[k], e, w, h, visited, seen + {idx}, st) {
      if k < |region| {
        assert r[k] == region[k];
        assert Pending(region[k], e, w, h, visited, seen, stack);
      }
    }
  }

  /** A popped free cell joins the region and pushes its neighbours; the invariant holds again. */
  lemma FillAdd(e: seq<int>, w: int, h: int, sx: int, sy: int, visited: set<int>,
                region: seq<int>, seen: set<int>, stack: seq<(int, int)>)
    requires w > 0 && |e| == w * h && |stack| > 0
    requires FillInv(e, w, h, sx, sy, visited, region, seen, stack)
    requires FreeAt(e, w, h, seen, stack[|stack| - 1].0, stack[|stack| - 1].1)
    ensures var s := stack[|stack| - 1]; var idx := Idx(s.0, s.1, w);
      FillInv(e, w, h, sx, sy, visited, region + [idx], seen + {idx}, stack[..|stack| - 1] + Neighbours(s.0, s.1))
  {
    var s := stack[|stack| - 1];
    AddFresh(e, visited, region, seen, Idx(s.0, s.1, w));
    AddConnected(e, w, h, sx, sy, visited, region, seen, stack);
    ConnectedExtend(region, Idx(s.0, s.1, w), w);
    AddPushed(w, sx, sy, region, stack);
    AddPending(e, w, h, visited, region, seen, stack);
  }

  /** The invariant holds before the first iteration. */
  lemma FillStart(e: seq<int>, w: int, h: int, sx: int, sy: int, visited: set<int>)
    requires w > 0
    ensures FillInv(e, w, h, sx, sy, visited, [], visited, [(sx, sy)])
  {
    assert Members([]) == {};
  }

  /** With the stack empty, the region is the component of the start. */
  lemma FillDone(e: seq<int>, w: int, h: int, sx: int, sy: int, visited: set<int>,
                 region: seq<int>, seen: set<int>)
    requires w > 0 && |e| == w * h
    requires FillInv(e, w, h, sx, sy, visited, region, seen, [])
    ensures region == [] <==> !FreeAt(e, w, h, visited, sx, sy)
    ensures region != [] ==> IsComponent(region, Idx(sx, sy, w), e, w, h, visited)
  {
    if region != [] {
      assert Free(e, visited, region[0]);
      forall p | p in region ensures ClosedAt(region, e, w, h, visited, p) {
        var k :| 0 <= k < |region| && region[k] == p;
        assert Pending(p, e, w, h, visited, seen, []);
      }
    }
  }

  /**
   * floodFill: pops cells from the end of a stack, skips those off the page,
   * already visited or on an edge, and otherwise marks the pixel visited, appends
   * it to the region and pushes its four neighbours. The visited set is shared
   * between fills of one page: it comes in as `visited` and goes out as `visitedOut`.
   * The region is the 4-connected component of `(sx, sy)` among the pixels free
   * on entry, in discovery order, or empty when the start itself is not free.
   */
  method FloodFill(e: seq<int>, w: nat, h: nat, sx: int, sy: int, visited: set<int>)
    returns (region: seq<int>, visitedOut: set<int>)
    requires w > 0 && |e| == w * h
    ensures visitedOut == visited + Members(region)
    ensures region == [] <==> !FreeAt(e, w, h, visited, sx, sy)
    ensures region != [] ==> IsComponent(region, Idx(sx, sy, w), e, w, h, visited)
  {
    region := [];
    visitedOut := visited;
    var stack := [(sx, sy)];
    FillStart(e, w, h, sx, sy, visited);
    while |stack| > 0
      invariant FillInv(e, w, h, sx, sy, visited, region, visitedOut, stack)
      decreases |Pixels(|e|) - visitedOut|, |stack|
    {
      region, visitedOut, stack := FillStep(e, w, h, sx, sy, visited, region, visitedOut, stack);
    }
    FillDone(e, w, h, sx, sy, visited, region, visitedOut);
  }

  /**
   * One iteration of floodFill's loop: pop the last cell; skip it when it is off
   * the page, already visited or on an edge; otherwise visit it, append it to the
   * region and push its four neighbours. Either fewer pixels are left to visit,
   * or nothing was visited and the stack is shorter.
   */
  method FillStep(e: seq<int>, w: nat, h: nat, sx: int, sy: int, visited: set<int>,
                  region: seq<int>, seen: set<int>, stack: seq<(int, int)>)
    returns (region': seq<int>, seen': set<int>, stack': seq<(int, int)>)
    requires w > 0 && |e| == w * h && |stack| > 0
    requires FillInv(e, w, h, sx, sy, visited, region, seen, stack)
    ensures FillInv(e, w, h, sx, sy, visited, region', seen', stack')
    ensures |Pixels(|e|) - seen'| < |Pixels(|e|) - seen| || (seen' == seen && |stack'| < |stack|)
  {
    var s := stack[|stack| - 1];
    var x, y := s.0, s.1;
    if x < 0 || x >= w || y < 0 || y >= h {
      FillSkip(e, w, h, sx, sy, visited, region, seen, stack);
      return region, seen, stack[..|stack| - 1];
    }
    var idx := Idx(x, y, w);
    IdxInRange(x, y, w, h);
    if idx in seen || e[idx] != 0 {
      FillSkip(e, w, h, sx, sy, visited, region, seen, stack);
      return region, seen, stack[..|stack| - 1];
    }
    FillAdd(e, w, h, sx, sy, visited, region, seen, stack);
    FewerUnvisited(Pixels(|e|), seen, idx);
    seen' := seen + {idx};
    region' := region + [idx];
    stack' := stack[..|stack| - 1] + Neighbours(x, y);
  }

  /** Visiting a pixel of the page not yet visited leaves fewer to visit: the fill terminates. */
  lemma FewerUnvisited(pixels: set<int>, seen: set<int>, idx: int)
    requires idx in pixels && idx !in seen
    ensures |pixels - (seen + {idx})| < |pixels - seen|
  {
    assert pixels - (seen + {idx}) == (pixels - seen) - {idx};
  }

  // ------------------------------------------------------------ bounding box

  /** The column (`row` false) or the row (`row` true) of pixel i. */
  function Coord(i: int, w: int, row: bool): int
    requires w > 0
  {
    if row then Row(i, w) else Col(i, w)
  }

  /** The least coordinate over a non-empty region, scanning from the front. */
  function Least(r: seq<int>, w: int, row: bool): int
    requires w > 0 && |r| > 0
  {
    if |r| == 1 then Coord(r[0], w, row)
    else
      var m := Least(r[..|r| - 1], w, row);
      var c := Coord(r[|r| - 1], w, row);
      if c < m then c else m
  }

  /** The greatest coordinate over a non-empty region, scanning from the front. */
  function Greatest(r: seq<int>, w: int, row: bool): int
    requires w > 0 && |r| > 0
  {
    if |r| == 1 then Coord(r[0], w, row)
    else
      var m := Greatest(r[..|r| - 1], w, row);
      var c := Coord(r[|r| - 1], w, row);
      if c > m then c else m
  }

  /** Least and Greatest bound every member's coordinate and are each attained by a member. */
  lemma {:induction false} ExtremesBound(r: seq<int>, w: int, row: bool)
    requires w > 0 && |r| > 0
    ensures forall k :: 0 <= k < |r| ==> Least(r, w, row) <= Coord(r[k], w, row) <= Greatest(r, w, row)
    ensures exists k :: 0 <= k < |r| && Coord(r[k], w, row) == Least(r, w, row)
    ensures exists k :: 0 <= k < |r| && Coord(r[k], w, row) == Greatest(r, w, row)
  {
    if |r| > 1 {
      var init := r[..|r| - 1];
      ExtremesBound(init, w, row);
      assert forall k :: 0 <= k < |init| ==> init[k] == r[k];
      var j1 :| 0 <= j1 < |init| && Coord(init[j1], w, row) == Least(init, w, row);
      var j2 :| 0 <= j2 < |init| && Coord(init[j2], w, row) == Greatest(init, w, row);
      if Coord(r[|r| - 1], w, row) >= Least(init, w, row) {
        assert Coord(r[j1], w, row) == Least(r, w, row);
      }
      if Coord(r[|r| - 1], w, row) <= Greatest(init, w, row) {
        assert Coord(r[j2], w, row) == Greatest(r, w, row);
      }
    }
  }

  /** The box from the least to the greatest column and row of a non-empty region. */
  function TightBox(r: seq<int>, w: int): BoundingBox
    requires w > 0 && |r| > 0
  {
    var minX, maxX := Least(r, w, false), Greatest(r, w, false);
    var minY, maxY := Least(r, w, true), Greatest(r, w, true);
    BoundingBox(minX as real, minY as real, (maxX - minX + 1) as real, (maxY - minY + 1) as real)
  }

  /**
   * The tight box is the smallest box holding every pixel of the region: each
   * member's column and row lie inside it, and each of its four sides touches a
   * member; so width and height are at least 1.
   */
  lemma TightBoxBounds(r: seq<int>, w: int)
    requires w > 0 && |r| > 0
    ensures var b := TightBox(r, w);
      && b.width >= 1.0 && b.height >= 1.0
      && (forall k :: 0 <= k < |r| ==>
            b.x <= Col(r[k], w) as real < b.x + b.width && b.y <= Row(r[k], w) as real < b.y + b.height)
      && (exists k :: 0 <= k < |r| && Col(r[k], w) as real == b.x)
      && (exists k :: 0 <= k < |r| && Col(r[k], w) as real == b.x + b.width - 1.0)
      && (exists k :: 0 <= k < |r| && Row(r[k], w) as real == b.y)
      && (exists k :: 0 <= k < |r| && Row(r[k], w) as real == b.y + b.height - 1.0)
  {
    ExtremesBound(r, w, false);
    ExtremesBound(r, w, true);
    var k1 :| 0 <= k1 < |r| && Coord(r[k1], w, false) == Least(r, w, false);
    var k2 :| 0 <= k2 < |r| && Coord(r[k2], w, false) == Greatest(r, w, false);
    var k3 :| 0 <= k3 < |r| && Coord(r[k3], w, true) == Least(r, w, true);
    var k4 :| 0 <= k4 < |r| && Coord(r[k4], w, true) == Greatest(r, w, true);
    forall k | 0 <= k < |r| ensures Least(r, w, false) <= Col(r[k], w) <= Greatest(r, w, false)
      && Least(r, w, true) <= Row(r[k], w) <= Greatest(r, w, true)
    {
      assert Coord(r[k], w, false) == Col(r[k], w) && Coord(r[k], w, true) == Row(r[k], w);
    }
  }

  /**
   * calculateBoundingBox: one pass over the region keeping running minima and
   * maxima of column and row. The source starts them at plus and minus
   * Infinity; on a non-empty region the first step replaces those by the first
   * member's column and row, which is where this loop starts.
   */
  method CalculateBoundingBox(region: seq<int>, w: nat) returns (b: BoundingBox)
    requires w > 0 && |region| > 0
    ensures b == TightBox(region, w)
  {
    var minX, minY := Col(region[0], w), Row(region[0], w);
    var maxX, maxY := minX, minY;
    var i := 1;
    while i < |region|
      invariant 1 <= i <= |region|
      invariant minX == Least(region[..i], w, false) && maxX == Greatest(region[..i], w, false)
      invariant minY == Least(region[..i], w, true) && maxY == Greatest(region[..i], w, true)
    {
      var x, y := Col(region[i], w), Row(region[i], w);
      assert region[..i + 1][..i] == region[..i];
      minX := if x < minX then x else minX;
      minY := if y < minY then y else minY;
      maxX := if x > maxX then x else maxX;
      maxY := if y > maxY then y else maxY;
      i := i + 1;
    }
    assert region[..i] == region;
    b := BoundingBox(minX as real, minY as real, (maxX - minX + 1) as real, (maxY - minY + 1) as real);
  }

  // --------------------------------------------------- expansion and panels

  /** gutterSize: 2% of the smaller page dimension. */
  function Gutter(w: nat, h: nat): (g: real)
    ensures 0.0 <= g && g <= w as real && g <= h as real
  {
    (if w < h then w else h) as real * 0.02
  }

  /** A box of positive size lying inside a w-by-h page. */
  predicate WithinPage(b: BoundingBox, w: real, h: real)
  {
    0.0 <= b.x && 0.0 <= b.y && 0.0 < b.width && 0.0 < b.height
    && b.x + b.width <= w && b.y + b.height <= h
  }

  /** A region whose pixels all lie on the page has its tight box on the page. */
  lemma TightBoxWithin(r: seq<int>, w: nat, h: nat)
    requires w > 0 && |r| > 0 && forall k :: 0 <= k < |r| ==> 0 <= r[k] < w * h
    ensures WithinPage(TightBox(r, w), w as real, h as real)
  {
    var b := TightBox(r, w);
    TightBoxBounds(r, w);
    forall k | 0 <= k < |r| ensures InBounds(Col(r[k], w), Row(r[k], w), w, h) {
      CoordsOf(r[k], w, h);
    }
    var k1 :| 0 <= k1 < |r| && Col(r[k1], w) as real == b.x + b.width - 1.0;
    var k2 :| 0 <= k2 < |r| && Row(r[k2], w) as real == b.y + b.height - 1.0;
    var k3 :| 0 <= k3 < |r| && Col(r[k3], w) as real == b.x;
    var k4 :| 0 <= k4 < |r| && Row(r[k4], w) as real == b.y;
  }

  /**
   * The gutter expansion: each side moves out by the gutter, clamped at the
   * page's left and top edge, with width and height capped by the distance from
   * the tight box's own left and top side to the page edge. The cap is measured
   * from the tight box, not from the moved side, so away from the right and
   * bottom edge the box keeps the region, but near them it can lose up to a
   * gutter of it (see ExpandCanClip).
   */
  function ExpandBox(b: BoundingBox, w: nat, h: nat): BoundingBox
  {
    var g := Gutter(w, h);
    BoundingBox(
      MaxReal(0.0, b.x - g),
      MaxReal(0.0, b.y - g),
      MinReal(w as real - b.x, b.width + g * 2.0),
      MinReal(h as real - b.y, b.height + g * 2.0))
  }

  /**
   * The expanded box of a box on the page stays on the page with positive size;
   * its left and top sides move out by at most the gutter and never in; and
   * wherever the box ends at least a gutter away from the right or bottom page
   * edge, the expanded box still reaches past that end.
   */
  lemma ExpandBoxBounds(b: BoundingBox, w: nat, h: nat)
    requires WithinPage(b, w as real, h as real)
    ensures var r, g := ExpandBox(b, w, h), Gutter(w, h);
      && WithinPage(r, w as real, h as real)
      && b.x - g <= r.x <= b.x && b.y - g <= r.y <= b.y
      && (b.x + b.width + g <= w as real ==> r.x + r.width >= b.x + b.width)
      && (b.y + b.height + g <= h as real ==> r.y + r.height >= b.y + b.height)
  {
  }

  /** A region reaching the right edge of a 100-by-100 page loses its last two columns. */
  lemma ExpandCanClip()
    ensures var b := BoundingBox(50.0, 0.0, 50.0, 100.0); var r := ExpandBox(b, 100, 100);
      WithinPage(b, 100.0, 100.0) && r.x + r.width < b.x + b.width
  {
    assert Gutter(100, 100) == 2.0;
  }

  /** A region counts as a panel only with more pixels than 2% of the page (minPanelArea). */
  predicate Survives(r: seq<int>, w: nat, h: nat)
    ensures Survives(r, w, h) ==> |r| > 0
  {
    assert w * h >= 0;
    |r| as real > (w * h) as real * 0.02
  }

  /** The panel record for a box: area is width times height, splash above 80% of the page. */
  function MakePanel(box: BoundingBox, w: nat, h: nat, p: nat, n: nat, nested: bool): (q: Panel)
    ensures q.id == PanelId(p, n) && q.pageIndex == p && q.boundingBox == box && q.isNested == nested
    ensures q.area == box.width * box.height
    ensures q.isSplash <==> q.area > (w * h) as real * 0.8
  {
    var area := box.width * box.height;
    Panel(PanelId(p, n), p, box, nested, area > (w * h) as real * 0.8, area)
  }

  /** The panel made from a surviving region: its tight box, expanded. */
  function RegionPanel(r: seq<int>, w: nat, h: nat, p: nat, n: nat): Panel
    requires w > 0 && |r| > 0
  {
    MakePanel(ExpandBox(TightBox(r, w), w, h), w, h, p, n, false)
  }

  /** The panel of a region, given its tight box. */
  lemma RegionPanelOf(r: seq<int>, w: nat, h: nat, p: nat, n: nat, b: BoundingBox)
    requires w > 0 && |r| > 0 && b == TightBox(r, w)
    ensures RegionPanel(r, w, h, p, n) == MakePanel(ExpandBox(b, w, h), w, h, p, n, false)
  {
  }

  /** The regions that pass the size filter, in discovery order. */
  function Survivors(rs: seq<seq<int>>, w: nat, h: nat): (ss: seq<seq<int>>)
    ensures |ss| <= |rs|
    ensures forall k :: 0 <= k < |ss| ==> Survives(ss[k], w, h)
  {
    if |rs| == 0 then []
    else
      var last := rs[|rs| - 1];
      var ss := Survivors(rs[..|rs| - 1], w, h);
      if Survives(last, w, h) then ss + [last] else ss
  }

  /** The panels pushed while scanning `rs`: one per surviving region, numbered from 0. */
  function PanelsOf(rs: seq<seq<int>>, w: nat, h: nat, p: nat): seq<Panel>
    requires w > 0
  {
    var ss := Survivors(rs, w, h);
    seq(|ss|, k requires 0 <= k < |ss| => RegionPanel(ss[k], w, h, p, k))
  }

  /** Scanning one more region pushes a panel exactly when it survives, numbered after the others. */
  lemma PanelsOfSnoc(rs: seq<seq<int>>, r: seq<int>, w: nat, h: nat, p: nat)
    requires w > 0
    ensures var ps := PanelsOf(rs, w, h, p);
      PanelsOf(rs + [r], w, h, p) == if Survives(r, w, h) then ps + [RegionPanel(r, w, h, p, |ps|)] else ps
  {
    var rs' := rs + [r];
    assert rs'[..|rs'| - 1] == rs;
    var ss, ss' := Survivors(rs, w, h), Survivors(rs', w, h);
    assert ss' == if Survives(r, w, h) then ss + [r] else ss;
    var ps, ps' := PanelsOf(rs, w, h, p), PanelsOf(rs', w, h, p);
    if Survives(r, w, h) {
      var q := ps + [RegionPanel(r, w, h, p, |ps|)];
      assert |ps'| == |q|;
      forall k | 0 <= k < |q| ensures ps'[k] == q[k] {
        if k < |ps| {
          assert ss'[k] == ss[k];
        }
      }
    }
  }

  /** The fallback when nothing survives: the whole page as one splash panel. */
  function WholePage(w: nat, h: nat, p: nat): Panel
  {
    Panel(PanelId(p, 0), p, BoundingBox(0.0, 0.0, w as real, h as real), false, true, (w * h) as real)
  }

  /** The result of analyzeImageForPanels for the regions found, in discovery order. */
  function SegmentPanels(rs: seq<seq<int>>, w: nat, h: nat, p: nat): (ps: seq<Panel>)
    requires w > 0
    ensures |ps| >= 1
    ensures forall k :: 0 <= k < |ps| ==> ps[k].id == PanelId(p, k) && ps[k].pageIndex == p && !ps[k].isNested
    ensures Survivors(rs, w, h) == [] ==> ps == [WholePage(w, h, p)]
    ensures Survivors(rs, w, h) != [] ==>
      (|ps| == |Survivors(rs, w, h)| &&
       forall k :: 0 <= k < |ps| ==> ps[k].boundingBox == ExpandBox(TightBox(Survivors(rs, w, h)[k], w), w, h))
  {
    var ps := PanelsOf(rs, w, h, p);
    if |ps| == 0 then [WholePage(w, h, p)] else ps
  }

  /** Every region lies on a page of n pixels. */
  predicate InRaster(rs: seq<seq<int>>, n: int)
  {
    forall k, j :: 0 <= k < |rs| && 0 <= j < |rs[k]| ==> 0 <= rs[k][j] < n
  }

  /** The surviving regions of regions on the page lie on the page. */
  lemma {:induction false} SurvivorsInRaster(rs: seq<seq<int>>, w: nat, h: nat, n: int)
    requires InRaster(rs, n)
    ensures InRaster(Survivors(rs, w, h), n)
  {
    if |rs| > 0 {
      var init := rs[..|rs| - 1];
      assert InRaster(init, n) by {
        forall k, j | 0 <= k < |init| && 0 <= j < |init[k]| ensures 0 <= init[k][j] < n {
          assert init[k] == rs[k];
        }
      }
      SurvivorsInRaster(init, w, h, n);
    }
  }

  /**
   * Every panel lies on the page with positive size, its area is width times
   * height, and it is a splash panel exactly when that area exceeds 80% of the page.
   */
  lemma SegmentPanelsWellFormed(rs: seq<seq<int>>, w: nat, h: nat, p: nat)
    requires w > 0 && h > 0 && InRaster(rs, w * h)
    ensures var ps := SegmentPanels(rs, w, h, p);
      forall k :: 0 <= k < |ps| ==>
        && WithinPage(ps[k].boundingBox, w as real, h as real)
        && ps[k].area == ps[k].boundingBox.width * ps[k].boundingBox.height
        && (ps[k].isSplash <==> ps[k].area > (w * h) as real * 0.8)
  {
    var ss := Survivors(rs, w, h);
    var ps := SegmentPanels(rs, w, h, p);
    if ss == [] {
      WholePageWellFormed(w, h, p);
    } else {
      SurvivorsInRaster(rs, w, h, w * h);
      forall k | 0 <= k < |ps|
        ensures WithinPage(ps[k].boundingBox, w as real, h as real)
      {
        SurvivorPanelWithin(ss[k], w, h);
      }
    }
  }

  /** The whole-page fallback covers the page exactly and is a splash panel. */
  lemma WholePageWellFormed(w: nat, h: nat, p: nat)
    requires w > 0 && h > 0
    ensures var page := WholePage(w, h, p);
      && WithinPage(page.boundingBox, w as real, h as real)
      && page.area == page.boundingBox.width * page.boundingBox.height
      && page.isSplash && page.area > (w * h) as real * 0.8
  {
    assert (w * h) as real == w as real * h as real;
    assert (w * h) as real > 0.0;
  }

  /** The expanded tight box of a region on the page lies on the page. */
  lemma SurvivorPanelWithin(r: seq<int>, w: nat, h: nat)
    requires w > 0 && h > 0 && |r| > 0 && forall j :: 0 <= j < |r| ==> 0 <= r[j] < w * h
    ensures WithinPage(ExpandBox(TightBox(r, w), w, h), w as real, h as real)
  {
    TightBoxWithin(r, w, h);
    ExpandBoxBounds(TightBox(r, w), w, h);
  }

  // --------------------------------------------------------------- the scan

  /** The pixels of all regions found. */
  function UnionOf(rs: seq<seq<int>>): set<int>
  {
    if |rs| == 0 then {}
    else UnionOf(rs[..|rs| - 1]) + Members(rs[|rs| - 1])
  }

  /**
   * The state of the row-major scan once every pixel before `pos` has been
   * looked at: `visited` holds exactly the regions' pixels; each region is the
   * component of its start among the pixels no earlier region took, and its start
   * was scanned; every scanned non-edge pixel is visited; and nothing non-edge
   * before a region's start was left for it to find.
   */
  ghost predicate FoundAt(e: seq<int>, w: int, h: int, rs: seq<seq<int>>, k: int)
    requires w > 0 && 0 <= k < |rs|
  {
    |rs[k]| > 0 && IsComponent(rs[k], rs[k][0], e, w, h, UnionOf(rs[..k]))
  }

  ghost predicate ScanInv(e: seq<int>, w: int, h: int, rs: seq<seq<int>>, visited: set<int>, pos: int)
    requires w > 0
  {
    && visited == UnionOf(rs)
    && (forall k {:trigger FoundAt(e, w, h, rs, k)} :: 0 <= k < |rs| ==> FoundAt(e, w, h, rs, k) && rs[k][0] < pos)
    && (forall i :: 0 <= i < pos && i < |e| && e[i] == 0 ==> i in visited)
    && (forall k, i :: 0 <= k < |rs| && |rs[k]| > 0 && 0 <= i < rs[k][0] && i < |e| && e[i] == 0 ==>
          i in UnionOf(rs[..k]))
  }

  /**
   * What analyzeImageForPanels finds on edge map `e`: the 4-connected regions
   * of non-edge pixels, each the component of its start among the pixels earlier
   * regions did not take, started in row-major order, and together covering every
   * non-edge pixel.
   */
  ghost predicate Segmentation(rs: seq<seq<int>>, e: seq<int>, w: int, h: int)
    requires w > 0
  {
    ScanInv(e, w, h, rs, UnionOf(rs), |e|)
  }

  /** Before the scan nothing is visited and no region is found. */
  lemma ScanStart(e: seq<int>, w: int, h: int)
    requires w > 0
    ensures ScanInv(e, w, h, [], {}, Idx(0, 0, w))
  {
  }

  /** After the last row the scan state is a segmentation of the whole page. */
  lemma ScanDone(e: seq<int>, w: int, h: int, rs: seq<seq<int>>, visited: set<int>)
    requires w > 0 && |e| == w * h && ScanInv(e, w, h, rs, visited, Idx(0, h, w))
    ensures Segmentation(rs, e, w, h)
  {
    assert Idx(0, h, w) == |e|;
  }

  /** A pixel that starts a new region: the scan state moves past it with the region added. */
  lemma ScanAdd(e: seq<int>, w: int, h: int, rs: seq<seq<int>>, visited: set<int>, pos: int, region: seq<int>)
    requires w > 0 && ScanInv(e, w, h, rs, visited, pos)
    requires IsComponent(region, pos, e, w, h, visited)
    ensures ScanInv(e, w, h, rs + [region], visited + Members(region), pos + 1)
  {
    var rs' := rs + [region];
    var visited' := visited + Members(region);
    assert rs'[..|rs|] == rs;
    assert UnionOf(rs') == visited';
    forall k | 0 <= k < |rs'| ensures FoundAt(e, w, h, rs', k) && rs'[k][0] < pos + 1 {
      if k < |rs| {
        assert FoundAt(e, w, h, rs, k);
        assert rs'[..k] == rs[..k] && rs'[k] == rs[k];
      } else {
        assert rs'[k] == region && rs'[..k] == rs;
      }
    }
    forall i | 0 <= i < pos + 1 && i < |e| && e[i] == 0 ensures i in visited' {
      if i == pos {
        assert region[0] == pos;
      }
    }
    forall k, i | 0 <= k < |rs'| && |rs'[k]| > 0 && 0 <= i < rs'[k][0] && i < |e| && e[i] == 0
      ensures i in UnionOf(rs'[..k])
    {
      if k < |rs| {
        assert rs'[..k] == rs[..k] && rs'[k] == rs[k];
      } else {
        assert rs'[k] == region && rs'[..k] == rs;
        assert i in visited;
      }
    }
  }

  /** A pixel that is an edge or already visited: the scan state moves past it unchanged. */
  lemma ScanSkip(e: seq<int>, w: int, h: int, rs: seq<seq<int>>, visited: set<int>, pos: int)
    requires w > 0 && ScanInv(e, w, h, rs, visited, pos)
    requires 0 <= pos < |e| && (e[pos] != 0 || pos in visited)
    ensures ScanInv(e, w, h, rs, visited, pos + 1)
  {
  }

  /**
   * The scan of analyzeImageForPanels over a finished edge map: row by row it
   * starts a flood fill at every non-edge pixel not yet visited, turns each
   * region with more pixels than 2% of the page into the next numbered panel,
   * and falls back to the whole page when none does. `regions` lists every
   * region filled, surviving or not.
   */
  method ScanRegions(edges: seq<int>, w: nat, h: nat, p: nat)
    returns (panels: seq<Panel>, ghost regions: seq<seq<int>>)
    requires w > 0 && h > 0 && |edges| == w * h
    ensures Segmentation(regions, edges, w, h)
    ensures panels == SegmentPanels(regions, w, h, p)
  {
    var minPanelArea := (w * h) as real * 0.02;
    var visited: set<int> := {};
    panels := [];
    regions := [];
    var panelId := 0;
    ScanStart(edges, w, h);
    var y := 0;
    while y < h
      invariant 0 <= y <= h
      invariant ScanInv(edges, w, h, regions, visited, Idx(0, y, w))
      invariant panels == PanelsOf(regions, w, h, p) && panelId == |panels|
    {
      regions, visited, panels, panelId := ScanRow(edges, w, h, p, minPanelArea, y, regions, visited, panels, panelId);
      y := y + 1;
    }
    ScanDone(edges, w, h, regions, visited);
    if |panels| == 0 {
      panels := [WholePage(w, h, p)];
    }
  }

  /** The scan of row y, pixel by pixel from the left. */
  method ScanRow(edges: seq<int>, w: nat, h: nat, p: nat, minPanelArea: real, y: int,
                 ghost regions: seq<seq<int>>, visited: set<int>, panels: seq<Panel>, panelId: nat)
    returns (ghost regions': seq<seq<int>>, visited': set<int>, panels': seq<Panel>, panelId': nat)
    requires w > 0 && h > 0 && |edges| == w * h && 0 <= y < h
    requires minPanelArea == (w * h) as real * 0.02
    requires ScanInv(edges, w, h, regions, visited, Idx(0, y, w))
    requires panels == PanelsOf(regions, w, h, p) && panelId == |panels|
    ensures ScanInv(edges, w, h, regions', visited', Idx(0, y + 1, w))
    ensures panels' == PanelsOf(regions', w, h, p) && panelId' == |panels'|
  {
    regions', visited', panels', panelId' := regions, visited, panels, panelId;
    var x := 0;
    while x < w
      invariant 0 <= x <= w
      invariant ScanInv(edges, w, h, regions', visited', Idx(x, y, w))
      invariant panels' == PanelsOf(regions', w, h, p) && panelId' == |panels'|
    {
      IdxInRange(x, y, w, h);
      regions', visited', panels', panelId' := ScanPixel(edges, w, h, p, minPanelArea, x, y, regions', visited', panels', panelId');
      x := x + 1;
    }
    assert Idx(0, y + 1, w) == Idx(w, y, w) by { NextRow(y, w); }
  }

  /**
   * One step of the scan at pixel (x, y): a non-edge pixel not yet visited
   * starts a flood fill, and a region with more pixels than `minPanelArea`
   * becomes panel number `panelId`; any other pixel is passed over.
   */
  method ScanPixel(edges: seq<int>, w: nat, h: nat, p: nat, minPanelArea: real, x: int, y: int,
                   ghost regions: seq<seq<int>>, visited: set<int>, panels: seq<Panel>, panelId: nat)
    returns (ghost regions': seq<seq<int>>, visited': set<int>, panels': seq<Panel>, panelId': nat)
    requires w > 0 && h > 0 && |edges| == w * h && InBounds(x, y, w, h) && 0 <= Idx(x, y, w) < w * h
    requires minPanelArea == (w * h) as real * 0.02
    requires ScanInv(edges, w, h, regions, visited, Idx(x, y, w))
    requires panels == PanelsOf(regions, w, h, p) && panelId == |panels|
    ensures ScanInv(edges, w, h, regions', visited', Idx(x, y, w) + 1)
    ensures panels' == PanelsOf(regions', w, h, p) && panelId' == |panels'|
  {
    regions', visited', panels', panelId' := regions, visited, panels, panelId;
    var idx := Idx(x, y, w);
    if edges[idx] == 0 && idx !in visited {
      var region, visitedOut := FloodFill(edges, w, h, x, y, visited);
      ScanAdd(edges, w, h, regions, visited, idx, region);
      PanelsOfSnoc(regions, region, w, h, p);
      regions' := regions + [region];
      visited' := visitedOut;
      if |region| as real > minPanelArea {
        var bbox := CalculateBoundingBox(region, w);
        var expanded := ExpandBox(bbox, w, h);
        RegionPanelOf(region, w, h, p, panelId, bbox);
        panels' := panels + [MakePanel(expanded, w, h, p, panelId, false)];
        panelId' := panelId + 1;
      } else {
        assert !Survives(region, w, h);
      }
    } else {
      ScanSkip(edges, w, h, regions, visited, idx);
    }
  }

  /** A pixel is in the union of regions exactly when some region holds it. */
  lemma {:induction false} UnionOfMember(rs: seq<seq<int>>, i: int)
    ensures i in UnionOf(rs) <==> exists k :: 0 <= k < |rs| && i in rs[k]
  {
    if |rs| > 0 {
      var init := rs[..|rs| - 1];
      UnionOfMember(init, i);
      if exists k :: 0 <= k < |init| && i in init[k] {
        var k :| 0 <= k < |init| && i in init[k];
        assert rs[k] == init[k];
      }
      if exists k :: 0 <= k < |rs| && i in rs[k] {
        var k :| 0 <= k < |rs| && i in rs[k];
        if k < |init| {
          assert init[k] == rs[k];
        }
      }
    }
  }

  /**
   * The regions of a segmentation lie on the page, no pixel belongs to two of
   * them, no edge pixel belongs to any, and every non-edge pixel belongs to one.
   */
  lemma SegmentationPartitions(rs: seq<seq<int>>, e: seq<int>, w: nat, h: nat)
    requires w > 0 && |e| == w * h && Segmentation(rs, e, w, h)
    ensures InRaster(rs, w * h)
    ensures forall k, j :: 0 <= k < |rs| && 0 <= j < |rs[k]| ==> e[rs[k][j]] == 0
    ensures forall k, l, i :: 0 <= k < l < |rs| && i in rs[k] ==> i !in rs[l]
    ensures forall i :: 0 <= i < |e| && e[i] == 0 ==> exists k :: 0 <= k < |rs| && i in rs[k]
  {
    forall k, j | 0 <= k < |rs| && 0 <= j < |rs[k]| ensures 0 <= rs[k][j] < w * h && e[rs[k][j]] == 0 {
      RegionMemberFree(rs, e, w, h, k, j);
    }
    forall k, l, i | 0 <= k < l < |rs| && i in rs[k] ensures i !in rs[l] {
      UnionOfMember(rs[..l], i);
      assert rs[..l][k] == rs[k];
      forall j | 0 <= j < |rs[l]| ensures rs[l][j] != i {
        RegionMemberFree(rs, e, w, h, l, j);
      }
    }
    forall i | 0 <= i < |e| && e[i] == 0 ensures exists k :: 0 <= k < |rs| && i in rs[k] {
      UnionOfMember(rs, i);
    }
  }

  /** Member j of region k of a segmentation is a non-edge pixel no earlier region took. */
  lemma RegionMemberFree(rs: seq<seq<int>>, e: seq<int>, w: nat, h: nat, k: int, j: int)
    requires w > 0 && |e| == w * h && Segmentation(rs, e, w, h)
    requires 0 <= k < |rs| && 0 <= j < |rs[k]|
    ensures Free(e, UnionOf(rs[..k]), rs[k][j])
  {
    assert FoundAt(e, w, h, rs, k);
  }

  /** analyzeImageForPanels: the Sobel edge map, then the region scan over it. */
  method AnalyzeImageForPanels(data: seq<int>, w: nat, h: nat, p: nat)
    returns (panels: seq<Panel>, ghost regions: seq<seq<int>>)
    requires w > 0 && h > 0 && |data| == w * h
    ensures Segmentation(regions, EdgeMapOf(data, w, h), w, h)
    ensures panels == SegmentPanels(regions, w, h, p)
  {
    var edges := EdgeMap(data, w, h);
    panels, regions := ScanRegions(edges[..], w, h, p);
  }

  // ------------------------------------------------------------ detectPanels

  /** maxDetectDim: the larger side of the raster detection runs on. */
  const MaxDetectDim: nat := 1200

  /**
   * detectScale: the factor that brings the larger page side down to
   * MaxDetectDim; pages that already fit are not scaled.
   */
  function DetectScale(w: nat, h: nat): (s: real)
    ensures 0.0 < s <= 1.0
    ensures s == 1.0 <==> (w <= MaxDetectDim && h <= MaxDetectDim)
  {
    var maxDim := if w >= h then w else h;
    if maxDim > MaxDetectDim then MaxDetectDim as real / maxDim as real else 1.0
  }

  /** One side of the detection raster: the scaled side, rounded, and at least 1. */
  function DetectSide(side: nat, s: real): nat
  {
    var r := Round(side as real * s);
    if r < 1 then 1 else r
  }

  function DetectWidth(w: nat, h: nat): nat { DetectSide(w, DetectScale(w, h)) }

  function DetectHeight(w: nat, h: nat): nat { DetectSide(h, DetectScale(w, h)) }

  /** A side no longer than the longest one scales to at most MaxDetectDim. */
  lemma ScaledSideBound(side: nat, maxDim: nat)
    requires side <= maxDim && maxDim > MaxDetectDim
    ensures side as real * (MaxDetectDim as real / maxDim as real) <= MaxDetectDim as real
    ensures side == maxDim ==> side as real * (MaxDetectDim as real / maxDim as real) == MaxDetectDim as real
  {
    var q := MaxDetectDim as real / maxDim as real;
    assert q * maxDim as real == MaxDetectDim as real;
    assert side as real * q <= maxDim as real * q;
  }

  /**
   * The detection raster is at least 1 and at most MaxDetectDim on each side; a
   * page that fits is used at its own size (at least 1); and a page that does not
   * fit has its longer side brought to exactly MaxDetectDim.
   */
  lemma DetectSizeBounds(w: nat, h: nat)
    ensures var dw, dh := DetectWidth(w, h), DetectHeight(w, h);
      && 1 <= dw <= MaxDetectDim && 1 <= dh <= MaxDetectDim
      && (w <= MaxDetectDim && h <= MaxDetectDim ==> dw == (if w < 1 then 1 else w) && dh == (if h < 1 then 1 else h))
      && (w > MaxDetectDim && w >= h ==> dw == MaxDetectDim)
      && (h > MaxDetectDim && h >= w ==> dh == MaxDetectDim)
  {
    var maxDim := if w >= h then w else h;
    if maxDim > MaxDetectDim {
      ScaledSideRounded(w, maxDim);
      ScaledSideRounded(h, maxDim);
    } else {
      assert DetectScale(w, h) == 1.0;
      assert Round(w as real * 1.0) == w && Round(h as real * 1.0) == h;
    }
  }

  /** A side of a page too large to detect at full size is rounded into 1..MaxDetectDim. */
  lemma ScaledSideRounded(side: nat, maxDim: nat)
    requires side <= maxDim && maxDim > MaxDetectDim
    ensures var d := DetectSide(side, MaxDetectDim as real / maxDim as real);
      1 <= d <= MaxDetectDim && (side == maxDim ==> d == MaxDetectDim)
  {
    ScaledSideBound(side, maxDim);
  }

  /**
   * One panel scaled back to page size: each box coordinate multiplied by
   * invScale and rounded, x and y raised to at least 0, width and height capped
   * by the page's; area and splash flag recomputed; the id renumbered by position.
   */
  function RescalePanel(q: Panel, index: nat, w: nat, h: nat, p: nat, invScale: real): Panel
  {
    MakePanel(RescaleBox(q.boundingBox, w, h, invScale), w, h, p, index, q.isNested)
  }

  /** A box scaled back: x and y rounded and at least 0, width and height rounded and capped by the page's. */
  function RescaleBox(b: BoundingBox, w: nat, h: nat, invScale: real): (r: BoundingBox)
    ensures 0.0 <= r.x && 0.0 <= r.y && r.width <= w as real && r.height <= h as real
  {
    BoundingBox(
      MaxReal(0.0, Round(b.x * invScale) as real),
      MaxReal(0.0, Round(b.y * invScale) as real),
      MinReal(w as real, Round(b.width * invScale) as real),
      MinReal(h as real, Round(b.height * invScale) as real))
  }

  /** The panels.map that scales detected panels back to page size. */
  function Rescale(ps: seq<Panel>, w: nat, h: nat, p: nat, invScale: real): seq<Panel>
  {
    seq(|ps|, k requires 0 <= k < |ps| => RescalePanel(ps[k], k, w, h, p, invScale))
  }

  /**
   * Rescaling keeps the number and the order of the panels and their nesting
   * flags; every rescaled panel is numbered by position on page p, starts at
   * non-negative coordinates, is no wider and no taller than the page, has
   * width times height as its area and is a splash panel exactly when that area
   * exceeds 80% of the page. Nothing bounds x + width by the page width.
   */
  lemma RescaleBounds(ps: seq<Panel>, w: nat, h: nat, p: nat, invScale: real)
    ensures var rs := Rescale(ps, w, h, p, invScale);
      && |rs| == |ps|
      && forall k :: 0 <= k < |rs| ==>
        && rs[k].id == PanelId(p, k) && rs[k].pageIndex == p && rs[k].isNested == ps[k].isNested
        && 0.0 <= rs[k].boundingBox.x && 0.0 <= rs[k].boundingBox.y
        && rs[k].boundingBox.width <= w as real && rs[k].boundingBox.height <= h as real
        && rs[k].area == rs[k].boundingBox.width * rs[k].boundingBox.height
        && (rs[k].isSplash <==> rs[k].area > (w * h) as real * 0.8)
  {
    var rs := Rescale(ps, w, h, p, invScale);
    forall k | 0 <= k < |rs| ensures RescaledWell(rs[k], ps[k], k, w, h, p) {
      RescalePanelBounds(ps[k], k, w, h, p, invScale);
    }
  }

  /** Panel r is panel q rescaled to position index on page p of a w-by-h page, within its bounds. */
  predicate RescaledWell(r: Panel, q: Panel, index: nat, w: nat, h: nat, p: nat)
  {
    && r.id == PanelId(p, index) && r.pageIndex == p && r.isNested == q.isNested
    && 0.0 <= r.boundingBox.x && 0.0 <= r.boundingBox.y
    && r.boundingBox.width <= w as real && r.boundingBox.height <= h as real
    && r.area == r.boundingBox.width * r.boundingBox.height
    && (r.isSplash <==> r.area > (w * h) as real * 0.8)
  }

  /** One rescaled panel. */
  lemma RescalePanelBounds(q: Panel, index: nat, w: nat, h: nat, p: nat, invScale: real)
    ensures RescaledWell(RescalePanel(q, index, w, h, p, invScale), q, index, w, h, p)
  {
    var box := RescaleBox(q.boundingBox, w, h, invScale);
    assert RescalePanel(q, index, w, h, p, invScale) == MakePanel(box, w, h, p, index, q.isNested);
  }

  /**
   * What detectPanels resolves to for a page whose detection raster was
   * segmented into `rs`: the panels found at detection size, scaled back when
   * the page was shrunk.
   */
  function DetectedPanels(rs: seq<seq<int>>, page: PageData): seq<Panel>
  {
    var s := DetectScale(page.width, page.height);
    var dw, dh := DetectWidth(page.width, page.height), DetectHeight(page.width, page.height);
    var ps := SegmentPanels(rs, dw, dh, page.pageIndex);
    if s != 1.0 then Rescale(ps, page.width, page.height, page.pageIndex, 1.0 / s) else ps
  }

  /** The raster holds one sample per pixel of the detection size. */
  predicate RasterFits(page: PageData)
  {
    |page.raster| == DetectWidth(page.width, page.height) * DetectHeight(page.width, page.height)
  }

  /** `panels` is what detectPanels resolves to for the page when its raster segments into `rs`. */
  ghost predicate DetectedWith(page: PageData, panels: seq<Panel>, rs: seq<seq<int>>)
    requires RasterFits(page)
  {
    var dw, dh := DetectWidth(page.width, page.height), DetectHeight(page.width, page.height);
    Segmentation(rs, EdgeMapOf(page.raster, dw, dh), dw, dh) && panels == DetectedPanels(rs, page)
  }

  /** `panels` is what detectPanels resolves to for the page, for the segmentation of its raster. */
  ghost predicate Detected(page: PageData, panels: seq<Panel>)
  {
    RasterFits(page) && exists rs :: DetectedWith(page, panels, rs)
  }

  /**
   * detectPanels: segment the page's detection raster and scale the panels
   * back to page size. The reading direction argument is not used by the
   * source and has no counterpart here.
   */
  method DetectPanels(page: PageData) returns (panels: seq<Panel>, ghost regions: seq<seq<int>>)
    requires RasterFits(page)
    ensures DetectedWith(page, panels, regions)
  {
    var maxDim := if page.width >= page.height then page.width else page.height;
    var detectScale := if maxDim > MaxDetectDim then MaxDetectDim as real / maxDim as real else 1.0;
    var detectWidth := DetectSide(page.width, detectScale);
    var detectHeight := DetectSide(page.height, detectScale);
    panels, regions := AnalyzeImageForPanels(page.raster, detectWidth, detectHeight, page.pageIndex);
    if detectScale != 1.0 {
      var invScale := 1.0 / detectScale;
      panels := Rescale(panels, page.width, page.height, page.pageIndex, invScale);
    }
  }

  /** A page side as the detection raster sees it: a side of 0 still yields one pixel. */
  function AtLeast1(n: nat): nat { if n < 1 then 1 else n }

  /**
   * Panels numbered by position on page p, none nested, each starting at
   * non-negative coordinates, no wider than w and no taller than h, with width
   * times height as its area.
   */
  predicate PanelsOnPage(ps: seq<Panel>, w: real, h: real, p: nat)
  {
    forall k :: 0 <= k < |ps| ==>
      && ps[k].id == PanelId(p, k) && ps[k].pageIndex == p && !ps[k].isNested
      && 0.0 <= ps[k].boundingBox.x && 0.0 <= ps[k].boundingBox.y
      && ps[k].boundingBox.width <= w && ps[k].boundingBox.height <= h
      && ps[k].area == ps[k].boundingBox.width * ps[k].boundingBox.height
  }

  /** The panels of a segmentation lie on the detection page. */
  lemma SegmentPanelsOnPage(rs: seq<seq<int>>, e: seq<int>, w: nat, h: nat, p: nat)
    requires w > 0 && h > 0 && |e| == w * h && Segmentation(rs, e, w, h)
    ensures PanelsOnPage(SegmentPanels(rs, w, h, p), w as real, h as real, p)
  {
    SegmentationPartitions(rs, e, w, h);
    SegmentPanelsWellFormed(rs, w, h, p);
  }

  /** Scaling un-nested panels back keeps them on the page. */
  lemma RescaleOnPage(ps: seq<Panel>, w: nat, h: nat, p: nat, invScale: real)
    requires forall k :: 0 <= k < |ps| ==> !ps[k].isNested
    ensures PanelsOnPage(Rescale(ps, w, h, p, invScale), w as real, h as real, p)
  {
    RescaleBounds(ps, w, h, p, invScale);
  }

  /**
   * Every panel detectPanels resolves to is numbered by position on its page,
   * is not nested, starts at non-negative coordinates, is no wider and no taller
   * than the page (a page side of 0 counting as 1, which detection rounds it up
   * to) and has width times height as its area; there is at least one.
   */
  lemma DetectedPanelsWellFormed(rs: seq<seq<int>>, page: PageData)
    requires var dw, dh := DetectWidth(page.width, page.height), DetectHeight(page.width, page.height);
      |page.raster| == dw * dh && Segmentation(rs, EdgeMapOf(page.raster, dw, dh), dw, dh)
    ensures var ps := DetectedPanels(rs, page);
      |ps| >= 1 && PanelsOnPage(ps, AtLeast1(page.width) as real, AtLeast1(page.height) as real, page.pageIndex)
  {
    var w, h, p := page.width, page.height, page.pageIndex;
    var dw, dh := DetectWidth(w, h), DetectHeight(w, h);
    var ps := SegmentPanels(rs, dw, dh, p);
    DetectSizeBounds(w, h);
    SegmentPanelsOnPage(rs, EdgeMapOf(page.raster, dw, dh), dw, dh, p);
    if DetectScale(w, h) != 1.0 {
      RescaleOnPage(ps, w, h, p, 1.0 / DetectScale(w, h));
      assert PanelsOnPage(DetectedPanels(rs, page), w as real, h as real, p);
    } else {
      assert dw == AtLeast1(w) && dh == AtLeast1(h);
    }
  }

  /** Detected panels are at least one, numbered by position and lie on their page. */
  lemma DetectedOnPage(page: PageData, panels: seq<Panel>)
    requires Detected(page, panels)
    ensures |panels| >= 1
    ensures PanelsOnPage(panels, AtLeast1(page.width) as real, AtLeast1(page.height) as real, page.pageIndex)
  {
    var rs :| DetectedWith(page, panels, rs);
    DetectedPanelsWellFormed(rs, page);
  }
}
