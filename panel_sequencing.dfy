/**
 * Reading-order sequencing of a page's panels (src/utils/panelSequencing.ts):
 * panels are grouped greedily into rows by the y of each row's founding panel,
 * the rows are ordered top to bottom, each row is ordered by x in the reading
 * direction, and the rows are concatenated.
 *
 * `Array.prototype.sort` is stable, so each sort is modelled by the stable
 * insertion sort SortBy, characterised by SortByIsStableSort.
 */
module PanelSequencing {
  import opened Types

  // ------------------------------------------------------------ stable sort

  /** `s` is in non-decreasing order of `key`. */
  predicate SortedBy<T>(s: seq<T>, key: T -> real)
  {
    forall i, j :: 0 <= i < j < |s| ==> key(s[i]) <= key(s[j])
  }

  /** The elements of `s` whose key is `k`, in the order of `s`. */
  function Keep<T>(s: seq<T>, key: T -> real, k: real): seq<T>
  {
    if |s| == 0 then []
    else Keep(s[..|s| - 1], key, k) + (if key(s[|s| - 1]) == k then [s[|s| - 1]] else [])
  }

  /** `x` placed after every element of `s`'s sorted tail whose key is not greater. */
  function Insert<T>(x: T, s: seq<T>, key: T -> real): seq<T>
  {
    if |s| == 0 || key(s[|s| - 1]) <= key(x) then s + [x]
    else Insert(x, s[..|s| - 1], key) + [s[|s| - 1]]
  }

  /** The stable sort of `s` by `key`, as a comparator `key(a) - key(b)` gives it. */
  function SortBy<T>(s: seq<T>, key: T -> real): seq<T>
  {
    if |s| == 0 then [] else Insert(s[|s| - 1], SortBy(s[..|s| - 1], key), key)
  }

  lemma {:induction false} KeepAppend<T>(a: seq<T>, b: seq<T>, key: T -> real, k: real)
    ensures Keep(a + b, key, k) == Keep(a, key, k) + Keep(b, key, k)
  {
    if |b| > 0 {
      var init := b[..|b| - 1];
      assert (a + b)[..|a + b| - 1] == a + init;
      assert (a + b)[|a + b| - 1] == b[|b| - 1];
      KeepAppend(a, init, key, k);
    } else {
      assert a + b == a;
    }
  }

  lemma {:induction false} InsertPermutes<T>(x: T, s: seq<T>, key: T -> real)
    ensures multiset(Insert(x, s, key)) == multiset(s) + multiset{x}
    ensures |Insert(x, s, key)| == |s| + 1
  {
    if |s| > 0 && key(s[|s| - 1]) > key(x) {
      InsertPermutes(x, s[..|s| - 1], key);
      assert s == s[..|s| - 1] + [s[|s| - 1]];
    }
  }

  lemma {:induction false} InsertSorted<T>(x: T, s: seq<T>, key: T -> real)
    requires SortedBy(s, key)
    ensures SortedBy(Insert(x, s, key), key)
  {
    if |s| > 0 && key(s[|s| - 1]) > key(x) {
      var init, last := s[..|s| - 1], s[|s| - 1];
      InsertSorted(x, init, key);
      var t := Insert(x, init, key);
      InsertPermutes(x, init, key);
      forall i | 0 <= i < |t| ensures key(t[i]) <= key(last) {
        assert t[i] in multiset(t);
        if t[i] != x {
          assert t[i] in multiset(init);
          var j :| 0 <= j < |init| && init[j] == t[i];
          assert s[j] == init[j];
        }
      }
    }
  }

  lemma {:induction false} InsertKeeps<T>(x: T, s: seq<T>, key: T -> real, k: real)
    ensures Keep(Insert(x, s, key), key, k) == Keep(s, key, k) + Keep([x], key, k)
  {
    if |s| == 0 || key(s[|s| - 1]) <= key(x) {
      KeepAppend(s, [x], key, k);
    } else {
      var init, last := s[..|s| - 1], s[|s| - 1];
      InsertKeeps(x, init, key, k);
      KeepAppend(Insert(x, init, key), [last], key, k);
      KeepAppend(init, [last], key, k);
      assert init + [last] == s;
      assert Keep([last], key, k) == (if key(last) == k then [last] else []);
      assert Keep([x], key, k) == (if key(x) == k then [x] else []);
    }
  }

  /** The result of SortBy is in key order. */
  lemma {:induction false} SortBySorted<T>(s: seq<T>, key: T -> real)
    ensures SortedBy(SortBy(s, key), key)
  {
    if |s| > 0 {
      SortBySorted(s[..|s| - 1], key);
      InsertSorted(s[|s| - 1], SortBy(s[..|s| - 1], key), key);
    }
  }

  /** SortBy holds the same elements as its input. */
  lemma {:induction false} SortByPermutes<T>(s: seq<T>, key: T -> real)
    ensures multiset(SortBy(s, key)) == multiset(s) && |SortBy(s, key)| == |s|
  {
    if |s| > 0 {
      var init, last := s[..|s| - 1], s[|s| - 1];
      assert s == init + [last];
      SortByPermutes(init, key);
      InsertPermutes(last, SortBy(init, key), key);
    }
  }

  /** SortBy lists the elements of every key in their input order. */
  lemma {:induction false} SortByStable<T>(s: seq<T>, key: T -> real)
    ensures forall k :: Keep(SortBy(s, key), key, k) == Keep(s, key, k)
  {
    if |s| > 0 {
      var init, last := s[..|s| - 1], s[|s| - 1];
      assert s == init + [last];
      SortByStable(init, key);
      forall k ensures Keep(SortBy(s, key), key, k) == Keep(s, key, k) {
        InsertKeeps(last, SortBy(init, key), key, k);
        KeepAppend(init, [last], key, k);
      }
    }
  }

  /** SortBy is a stable sort: sorted by key, a permutation, equal keys in input order. */
  lemma SortByIsStableSort<T>(s: seq<T>, key: T -> real)
    ensures SortedBy(SortBy(s, key), key)
    ensures multiset(SortBy(s, key)) == multiset(s) && |SortBy(s, key)| == |s|
    ensures forall k :: Keep(SortBy(s, key), key, k) == Keep(s, key, k)
  {
    SortBySorted(s, key);
    SortByPermutes(s, key);
    SortByStable(s, key);
  }

  // ------------------------------------------------------------------- rows

  /** tolerance: how far in y a panel may be from a row's founder to join it. */
  const Tolerance: real := 5.0

  function Abs(v: real): real { if v < 0.0 then -v else v }

  /** The panel joins the row: the row's founding panel is less than 5 away in y. */
  predicate Joins(q: Panel, row: seq<Panel>)
  {
    |row| > 0 && Abs(q.boundingBox.y - row[0].boundingBox.y) < Tolerance
  }

  /** The index of the first row the panel joins, or the number of rows when it joins none. */
  function FirstJoin(rows: seq<seq<Panel>>, q: Panel): (i: nat)
    ensures i <= |rows|
    ensures forall j :: 0 <= j < i ==> !Joins(q, rows[j])
    ensures i < |rows| ==> Joins(q, rows[i])
  {
    if |rows| == 0 then 0
    else if Joins(q, rows[0]) then 0
    else 1 + FirstJoin(rows[1..], q)
  }

  /** One step of the grouping: push the panel on the first row it joins, or found a new row. */
  function Place(rows: seq<seq<Panel>>, q: Panel): seq<seq<Panel>>
  {
    var i := FirstJoin(rows, q);
    if i < |rows| then rows[i := rows[i] + [q]] else rows + [[q]]
  }

  /** The rows the grouping loop builds from the panels, in creation order. */
  function Band(ps: seq<Panel>): seq<seq<Panel>>
  {
    if |ps| == 0 then [] else Place(Band(ps[..|ps| - 1]), ps[|ps| - 1])
  }

  /** `rows.flat()` */
  function Flatten(rows: seq<seq<Panel>>): seq<Panel>
  {
    if |rows| == 0 then [] else Flatten(rows[..|rows| - 1]) + rows[|rows| - 1]
  }

  /** The panels of all rows, counted with repetition. */
  function Bag(rows: seq<seq<Panel>>): multiset<Panel>
  {
    if |rows| == 0 then multiset{} else Bag(rows[..|rows| - 1]) + multiset(rows[|rows| - 1])
  }

  lemma {:induction false} FlattenBag(rows: seq<seq<Panel>>)
    ensures multiset(Flatten(rows)) == Bag(rows)
  {
    if |rows| > 0 {
      FlattenBag(rows[..|rows| - 1]);
    }
  }

  lemma {:induction false} BagPush(rows: seq<seq<Panel>>, i: nat, q: Panel)
    requires i < |rows|
    ensures Bag(rows[i := rows[i] + [q]]) == Bag(rows) + multiset{q}
  {
    var rows' := rows[i := rows[i] + [q]];
    var n := |rows| - 1;
    if i == n {
      assert rows'[..n] == rows[..n];
    } else {
      assert rows'[..n] == rows[..n][i := rows[i] + [q]];
      BagPush(rows[..n], i, q);
    }
  }

  /** The founding panel's y of a row; the row sort compares rows by it. */
  function FounderY(row: seq<Panel>): real
  {
    if |row| > 0 then row[0].boundingBox.y else 0.0
  }

  /** A row the grouping builds: not empty, and every panel in it joins it. */
  ghost predicate BandedRow(row: seq<Panel>)
  {
    |row| > 0 && forall j :: 0 <= j < |row| ==> Joins(row[j], row)
  }

  /**
   * The rows the grouping builds: every panel is within the tolerance of its
   * row's founder, and founders are pairwise at least the tolerance apart in y.
   */
  ghost predicate Banded(rows: seq<seq<Panel>>)
  {
    && (forall a :: 0 <= a < |rows| ==> BandedRow(rows[a]))
    && (forall a, b :: 0 <= a < b < |rows| && |rows[a]| > 0 && |rows[b]| > 0 ==>
          Abs(FounderY(rows[a]) - FounderY(rows[b])) >= Tolerance)
  }

  /** Pushing a panel on a row it joins keeps the rows banded. */
  lemma PushBanded(rows: seq<seq<Panel>>, i: nat, q: Panel)
    requires Banded(rows) && i < |rows| && Joins(q, rows[i])
    ensures Banded(rows[i := rows[i] + [q]])
  {
    var rows' := rows[i := rows[i] + [q]];
    forall a, j | 0 <= a < |rows'| && 0 <= j < |rows'[a]| ensures Joins(rows'[a][j], rows'[a]) {
      if a == i {
        assert rows'[a][0] == rows[a][0];
        if j == |rows[a]| {
          assert rows'[a][j] == q;
        } else {
          assert rows'[a][j] == rows[a][j];
        }
      }
    }
    forall a, b | 0 <= a < b < |rows'| && |rows'[a]| > 0 && |rows'[b]| > 0
      ensures Abs(FounderY(rows'[a]) - FounderY(rows'[b])) >= Tolerance
    {
      assert FounderY(rows'[a]) == FounderY(rows[a]) && FounderY(rows'[b]) == FounderY(rows[b]);
    }
  }

  /** Founding a new row adds exactly its panel. */
  lemma FoundBag(rows: seq<seq<Panel>>, q: Panel)
    ensures Bag(rows + [[q]]) == Bag(rows) + multiset{q}
  {
    assert (rows + [[q]])[..|rows|] == rows;
  }

  /** A panel that joins no row founds a new one, and the rows stay banded. */
  lemma FoundBanded(rows: seq<seq<Panel>>, q: Panel)
    requires Banded(rows) && forall j :: 0 <= j < |rows| ==> !Joins(q, rows[j])
    ensures Banded(rows + [[q]])
    ensures Bag(rows + [[q]]) == Bag(rows) + multiset{q}
  {
    FoundBag(rows, q);
    ExtendBanded(rows, rows + [[q]], q);
  }

  /** Banded rows followed by a new row of one panel that joins none of them. */
  lemma ExtendBanded(rows: seq<seq<Panel>>, rows': seq<seq<Panel>>, q: Panel)
    requires Banded(rows) && forall j :: 0 <= j < |rows| ==> !Joins(q, rows[j])
    requires |rows'| == |rows| + 1 && rows'[|rows|] == [q]
    requires forall a :: 0 <= a < |rows| ==> rows'[a] == rows[a]
    ensures Banded(rows')
  {
    assert BandedRow([q]) by {
      assert Joins(q, [q]);
    }
  }

  lemma PlaceBanded(rows: seq<seq<Panel>>, q: Panel)
    requires Banded(rows)
    ensures Banded(Place(rows, q))
    ensures Bag(Place(rows, q)) == Bag(rows) + multiset{q}
  {
    var i := FirstJoin(rows, q);
    if i < |rows| {
      BagPush(rows, i, q);
      PushBanded(rows, i, q);
    } else {
      FoundBanded(rows, q);
    }
  }

  /** The grouping of any panels is banded and holds exactly those panels. */
  lemma {:induction false} BandShape(ps: seq<Panel>)
    ensures Banded(Band(ps))
    ensures Bag(Band(ps)) == multiset(ps)
  {
    if |ps| > 0 {
      var init, last := ps[..|ps| - 1], ps[|ps| - 1];
      assert ps == init + [last];
      assert multiset(ps) == multiset(init) + multiset{last};
      BandShape(init);
      PlaceBanded(Band(init), last);
    }
  }

  // -------------------------------------------------------------- ordering

  /** The within-row sort key: x for left to right, the negated x for right to left. */
  function XKey(dir: Direction): Panel -> real
  {
    match dir
    case Ltr => (q: Panel) => q.boundingBox.x
    case Rtl => (q: Panel) => -q.boundingBox.x
  }

  /** The rows sorted top to bottom by their founder's y. */
  function OrderedRows(ps: seq<Panel>): seq<seq<Panel>>
  {
    SortBy(Band(ps), FounderY)
  }

  /** The ordered rows, each sorted in the reading direction. */
  function SequenceRows(ps: seq<Panel>, dir: Direction): seq<seq<Panel>>
  {
    var rows := OrderedRows(ps);
    seq(|rows|, k requires 0 <= k < |rows| => SortBy(rows[k], XKey(dir)))
  }

  /** sequencePanels */
  function Sequence(ps: seq<Panel>, dir: Direction): seq<Panel>
  {
    if |ps| <= 1 then ps else Flatten(SequenceRows(ps, dir))
  }

  lemma {:induction false} InsertBag(x: seq<Panel>, rows: seq<seq<Panel>>)
    ensures Bag(Insert(x, rows, FounderY)) == Bag(rows) + multiset(x)
  {
    var n := |rows|;
    if n > 0 && FounderY(rows[n - 1]) > FounderY(x) {
      InsertBag(x, rows[..n - 1]);
      var t := Insert(x, rows[..n - 1], FounderY);
      assert (t + [rows[n - 1]])[..|t|] == t;
    } else {
      assert (rows + [x])[..n] == rows;
    }
  }

  lemma {:induction false} SortByBag(rows: seq<seq<Panel>>)
    ensures Bag(SortBy(rows, FounderY)) == Bag(rows)
  {
    if |rows| > 0 {
      var n := |rows| - 1;
      SortByBag(rows[..n]);
      InsertBag(rows[n], SortBy(rows[..n], FounderY));
    }
  }

  lemma {:induction false} SortedRowsBag(rows: seq<seq<Panel>>, sorted: seq<seq<Panel>>)
    requires |sorted| == |rows| && forall k :: 0 <= k < |rows| ==> multiset(sorted[k]) == multiset(rows[k])
    ensures Bag(sorted) == Bag(rows)
  {
    if |rows| > 0 {
      var n := |rows| - 1;
      SortedRowsBag(rows[..n], sorted[..n]);
    }
  }

  /** Any reordering of banded rows is banded. */
  lemma PermutedBanded(rows: seq<seq<Panel>>, sorted: seq<seq<Panel>>)
    requires Banded(rows) && multiset(sorted) == multiset(rows)
    ensures Banded(sorted)
  {
    forall a | 0 <= a < |sorted|
      ensures |sorted[a]| > 0 && forall j :: 0 <= j < |sorted[a]| ==> Joins(sorted[a][j], sorted[a])
    {
      assert sorted[a] in multiset(rows);
      var i :| 0 <= i < |rows| && rows[i] == sorted[a];
    }
    forall a, b | 0 <= a < b < |sorted| && |sorted[a]| > 0 && |sorted[b]| > 0
      ensures Abs(FounderY(sorted[a]) - FounderY(sorted[b])) >= Tolerance
    {
      DistinctRows(rows, sorted, a, b);
    }
  }

  /** Sorting the rows by founder keeps them banded and keeps their panels. */
  lemma OrderedRowsBanded(ps: seq<Panel>)
    ensures Banded(OrderedRows(ps))
    ensures Bag(OrderedRows(ps)) == multiset(ps)
  {
    var rows := Band(ps);
    BandShape(ps);
    SortByPermutes(rows, FounderY);
    SortByBag(rows);
    PermutedBanded(rows, OrderedRows(ps));
  }

  /** Two positions of a permutation of distinct-founder rows hold rows at two positions of the original. */
  lemma DistinctRows(rows: seq<seq<Panel>>, sorted: seq<seq<Panel>>, a: nat, b: nat)
    requires Banded(rows) && multiset(sorted) == multiset(rows) && a < b < |sorted|
    ensures Abs(FounderY(sorted[a]) - FounderY(sorted[b])) >= Tolerance
  {
    assert sorted[a] in multiset(rows) && sorted[b] in multiset(rows);
    var i :| 0 <= i < |rows| && rows[i] == sorted[a];
    var j :| 0 <= j < |rows| && rows[j] == sorted[b];
    if i == j {
      // the same row twice in a permutation of rows with distinct founders
      assert multiset(sorted)[rows[i]] >= 2 by {
        var m := multiset(sorted[..b]);
        assert sorted == sorted[..b] + sorted[b..];
        assert sorted[a] == sorted[..b][a];
        assert sorted[b..][0] == sorted[b];
      }
      OneCopy(rows, i);
      assert false;
    } else if i > j {
      assert Abs(FounderY(rows[j]) - FounderY(rows[i])) >= Tolerance;
    }
  }

  /** Rows with pairwise distant founders are pairwise distinct: each occurs once. */
  lemma {:induction false} OneCopy(rows: seq<seq<Panel>>, i: nat)
    requires Banded(rows) && i < |rows|
    ensures multiset(rows)[rows[i]] == 1
  {
    var n := |rows| - 1;
    assert rows == rows[..n] + [rows[n]];
    if i == n {
      assert rows[n] !in rows[..n] by {
        forall a | 0 <= a < n ensures rows[..n][a] != rows[n] {
          assert Abs(FounderY(rows[a]) - FounderY(rows[n])) >= Tolerance;
        }
      }
    } else {
      assert Banded(rows[..n]);
      OneCopy(rows[..n], i);
      assert rows[..n][i] == rows[i];
      assert rows[n] != rows[i] by {
        assert Abs(FounderY(rows[i]) - FounderY(rows[n])) >= Tolerance;
      }
    }
  }

  // ------------------------------------------------------------ properties

  /** The output holds exactly the input panels: no panel is lost or repeated. */
  lemma SequencePermutes(ps: seq<Panel>, dir: Direction)
    ensures multiset(Sequence(ps, dir)) == multiset(ps)
    ensures |Sequence(ps, dir)| == |ps|
  {
    if |ps| > 1 {
      var rows := OrderedRows(ps);
      var out := SequenceRows(ps, dir);
      OrderedRowsBanded(ps);
      forall k | 0 <= k < |rows| ensures multiset(out[k]) == multiset(rows[k]) {
        SortByPermutes(rows[k], XKey(dir));
      }
      SortedRowsBag(rows, out);
      FlattenBag(out);
      assert |Sequence(ps, dir)| == |multiset(ps)|;
    }
  }

  /**
   * The rows in output order: founders strictly top to bottom, at least the
   * tolerance apart; every panel within the tolerance of its row's founder.
   */
  lemma RowsTopToBottom(ps: seq<Panel>)
    ensures var rows := OrderedRows(ps);
      && (forall a :: 0 <= a < |rows| ==> |rows[a]| > 0)
      && (forall a, j :: 0 <= a < |rows| && 0 <= j < |rows[a]| ==>
            Abs(rows[a][j].boundingBox.y - FounderY(rows[a])) < Tolerance)
      && (forall a, b :: 0 <= a < b < |rows| ==> FounderY(rows[a]) + Tolerance <= FounderY(rows[b]))
  {
    var rows := OrderedRows(ps);
    OrderedRowsBanded(ps);
    SortBySorted(Band(ps), FounderY);
    forall a, b | 0 <= a < b < |rows| ensures FounderY(rows[a]) + Tolerance <= FounderY(rows[b]) {
      assert FounderY(rows[a]) <= FounderY(rows[b]);
      assert Abs(FounderY(rows[a]) - FounderY(rows[b])) >= Tolerance;
    }
  }

  /** Right to left: x never increases along the row; left to right: x never decreases. */
  predicate InReadingOrder(row: seq<Panel>, dir: Direction)
  {
    forall i, j :: 0 <= i < j < |row| ==>
      if dir == Rtl then row[i].boundingBox.x >= row[j].boundingBox.x
      else row[i].boundingBox.x <= row[j].boundingBox.x
  }

  /**
   * Each output row is the stable sort of its row by x: in reading order,
   * with panels of equal x kept in the order in which they joined the row, and
   * no panel changing rows.
   */
  lemma RowsInReadingOrder(ps: seq<Panel>, dir: Direction)
    ensures var rows, out := OrderedRows(ps), SequenceRows(ps, dir);
      && |out| == |rows|
      && forall a :: 0 <= a < |out| ==>
        && multiset(out[a]) == multiset(rows[a])
        && InReadingOrder(out[a], dir)
        && (forall k :: Keep(out[a], XKey(dir), k) == Keep(rows[a], XKey(dir), k))
  {
    var rows: seq<seq<Panel>>, out: seq<seq<Panel>> := OrderedRows(ps), SequenceRows(ps, dir);
    forall a | 0 <= a < |out|
      ensures multiset(out[a]) == multiset(rows[a])
      ensures InReadingOrder(out[a], dir)
      ensures forall k :: Keep(out[a], XKey(dir), k) == Keep(rows[a], XKey(dir), k)
    {
      SortByIsStableSort(rows[a], XKey(dir));
      var row: seq<Panel> := out[a];
      assert SortedBy(row, XKey(dir));
      forall i, j | 0 <= i < j < |row|
        ensures if dir == Rtl then row[i].boundingBox.x >= row[j].boundingBox.x
          else row[i].boundingBox.x <= row[j].boundingBox.x
      {
        assert XKey(dir)(row[i]) <= XKey(dir)(row[j]);
      }
    }
  }

  /**
   * The reading direction changes only the order inside each row: both
   * directions give the same number of rows, and each row holds the same panels.
   */
  lemma DirectionOnlyOrdersWithinRows(ps: seq<Panel>)
    ensures |SequenceRows(ps, Ltr)| == |SequenceRows(ps, Rtl)|
    ensures forall a :: 0 <= a < |SequenceRows(ps, Ltr)| ==>
      multiset(SequenceRows(ps, Ltr)[a]) == multiset(SequenceRows(ps, Rtl)[a])
  {
    RowsInReadingOrder(ps, Ltr);
    RowsInReadingOrder(ps, Rtl);
  }

  // ------------------------------------------------------------- the method

  /** FirstJoin is the first row the scan over the rows finds. */
  lemma FirstJoinAt(rows: seq<seq<Panel>>, q: Panel, i: nat)
    requires i <= |rows| && forall j :: 0 <= j < i ==> !Joins(q, rows[j])
    requires i < |rows| ==> Joins(q, rows[i])
    ensures FirstJoin(rows, q) == i
  {
  }

  /** Grouping one more panel places it into the rows of the panels before it. */
  lemma BandStep(ps: seq<Panel>, n: nat)
    requires n < |ps|
    ensures Band(ps[..n + 1]) == Place(Band(ps[..n]), ps[n])
  {
    assert ps[..n + 1][..n] == ps[..n];
  }

  /** The inner loop of the grouping: push the panel on the first row it joins, or found a row. */
  method PlacePanel(rows: seq<seq<Panel>>, panel: Panel) returns (placedRows: seq<seq<Panel>>)
    ensures placedRows == Place(rows, panel)
  {
    var i := 0;
    while i < |rows|
      invariant 0 <= i <= |rows|
      invariant forall j :: 0 <= j < i ==> !Joins(panel, rows[j])
    {
      if |rows[i]| > 0 && Abs(panel.boundingBox.y - rows[i][0].boundingBox.y) < Tolerance {
        FirstJoinAt(rows, panel, i);
        return rows[i := rows[i] + [panel]];
      }
      i := i + 1;
    }
    FirstJoinAt(rows, panel, i);
    return rows + [[panel]];
  }

  /** The grouping loop: every panel, in input order, placed into the rows so far. */
  method GroupRows(panels: seq<Panel>) returns (rows: seq<seq<Panel>>)
    ensures rows == Band(panels)
  {
    rows := [];
    var n := 0;
    while n < |panels|
      invariant 0 <= n <= |panels|
      invariant rows == Band(panels[..n])
    {
      BandStep(panels, n);
      rows := PlacePanel(rows, panels[n]);
      n := n + 1;
    }
    assert panels[..n] == panels;
  }

  /** The within-row sorts: each row, in place, sorted by x in the reading direction. */
  method SortRows(rows: seq<seq<Panel>>, dir: Direction) returns (sorted: seq<seq<Panel>>)
    ensures |sorted| == |rows|
    ensures forall a :: 0 <= a < |rows| ==> sorted[a] == SortBy(rows[a], XKey(dir))
  {
    sorted := rows;
    var k := 0;
    while k < |sorted|
      invariant 0 <= k <= |sorted| == |rows|
      invariant forall a :: 0 <= a < k ==> sorted[a] == SortBy(rows[a], XKey(dir))
      invariant forall a :: k <= a < |sorted| ==> sorted[a] == rows[a]
    {
      sorted := sorted[k := SortBy(sorted[k], XKey(dir))];
      k := k + 1;
    }
  }

  /**
   * sequencePanels: no panel or one panel is returned as is; otherwise the
   * panels are grouped into rows, the rows sorted by founder y, each row sorted
   * by x in the reading direction, and the rows concatenated.
   */
  method SequencePanels(panels: seq<Panel>, dir: Direction) returns (result: seq<Panel>)
    ensures result == Sequence(panels, dir)
  {
    if |panels| == 0 {
      return [];
    }
    if |panels| == 1 {
      return panels;
    }
    var rows := GroupRows(panels);
    rows := SortBy(rows, FounderY);
    rows := SortRows(rows, dir);
    assert rows == SequenceRows(panels, dir);
    result := Flatten(rows);
  }

}
