/** The sparse side of a read query: coordinates that fall inside the
    query subarray are deduplicated across fragments, grouped into runs of
    consecutive cells of one tile, and boxes are tested for overlap. */
module CellRanges {

  /** A tile of a fragment. The source compares tiles by pointer; here two
      tiles are the same exactly when they have the same fragment and the
      same position in it. */
  datatype Tile = Tile(fragmentIdx: nat, tileIdx: nat)

  /** A coordinate tuple found in a tile, at cell position `pos`. */
  datatype OverlappingCoords = OverlappingCoords(tile: Tile, coords: seq<int>, pos: nat)

  /** Cells `start..end` (inclusive) of `tile`. */
  datatype OverlappingCellRange = OverlappingCellRange(tile: Tile, start: nat, end: nat)

  /** One cell: a tile and a position in it. */
  datatype CellPos = CellPos(tile: Tile, pos: nat)

  // ---------------------------------------------------------------------
  // dedup_coords
  // ---------------------------------------------------------------------

  /** The list left by the erase loop: whenever the element under the
      cursor and the one after it hold the same coordinates, the one from
      the older fragment (smaller index) goes; on a tie the later one goes
      and the cursor stays. */
  function Dedup(s: seq<OverlappingCoords>): seq<OverlappingCoords>
    decreases |s|
  {
    if |s| < 2 then s
    else if s[0].coords == s[1].coords then
      if s[0].tile.fragmentIdx < s[1].tile.fragmentIdx then Dedup(s[1..])
      else Dedup([s[0]] + s[2..])
    else [s[0]] + Dedup(s[1..])
  }

  /** `a` is `b` with some elements removed. */
  predicate Subsequence<T(==)>(a: seq<T>, b: seq<T>)
    decreases |b|
  {
    a == [] || (b != [] && ((a[0] == b[0] && Subsequence(a[1..], b[1..])) || Subsequence(a, b[1..])))
  }

  lemma {:induction false} SubsequenceRefl<T>(a: seq<T>)
    ensures Subsequence(a, a)
    decreases |a|
  {
    if a != [] {
      SubsequenceRefl(a[1..]);
    }
  }

  /** Dropping the second element of the host keeps a subsequence of it. */
  lemma {:induction false} SubsequenceSkipSecond<T>(a: seq<T>, x: T, y: T, u: seq<T>)
    requires Subsequence(a, [x] + u)
    ensures Subsequence(a, [x, y] + u)
  {
    if a != [] {
      assert ([x] + u)[1..] == u;
      assert ([x, y] + u)[1..] == [y] + u;
      assert ([y] + u)[1..] == u;
      if a[0] == x && Subsequence(a[1..], u) {
        assert Subsequence(a[1..], [y] + u);
      } else {
        assert Subsequence(a, u);
        assert Subsequence(a, [y] + u);
      }
    }
  }

  /** Deduplication only removes elements; it keeps the order of the rest. */
  lemma {:induction false} DedupSubsequence(s: seq<OverlappingCoords>)
    ensures Subsequence(Dedup(s), s)
    decreases |s|
  {
    if |s| < 2 {
      SubsequenceRefl(s);
    } else if s[0].coords == s[1].coords {
      if s[0].tile.fragmentIdx < s[1].tile.fragmentIdx {
        DedupSubsequence(s[1..]);
      } else {
        DedupSubsequence([s[0]] + s[2..]);
        SubsequenceSkipSecond(Dedup([s[0]] + s[2..]), s[0], s[1], s[2..]);
        assert s == [s[0], s[1]] + s[2..];
      }
    } else {
      DedupSubsequence(s[1..]);
      assert ([s[0]] + Dedup(s[1..]))[1..] == Dedup(s[1..]);
    }
  }

  /** The first survivor holds the coordinates of the first element. */
  lemma {:induction false} DedupHead(s: seq<OverlappingCoords>)
    ensures |Dedup(s)| == 0 <==> |s| == 0
    ensures s != [] ==> Dedup(s)[0].coords == s[0].coords
    decreases |s|
  {
    if |s| >= 2 {
      if s[0].coords == s[1].coords {
        if s[0].tile.fragmentIdx < s[1].tile.fragmentIdx {
          DedupHead(s[1..]);
        } else {
          DedupHead([s[0]] + s[2..]);
        }
      } else {
        DedupHead(s[1..]);
      }
    }
  }

  /** No two neighbours of the result hold the same coordinates. */
  predicate NoAdjacentDuplicates(s: seq<OverlappingCoords>)
  {
    forall k :: 0 < k < |s| ==> s[k - 1].coords != s[k].coords
  }

  lemma {:induction false} DedupNoAdjacentDuplicates(s: seq<OverlappingCoords>)
    ensures NoAdjacentDuplicates(Dedup(s))
    decreases |s|
  {
    if |s| >= 2 {
      if s[0].coords == s[1].coords {
        if s[0].tile.fragmentIdx < s[1].tile.fragmentIdx {
          DedupNoAdjacentDuplicates(s[1..]);
        } else {
          DedupNoAdjacentDuplicates([s[0]] + s[2..]);
        }
      } else {
        DedupNoAdjacentDuplicates(s[1..]);
        DedupHead(s[1..]);
        var r := [s[0]] + Dedup(s[1..]);
        forall k | 0 < k < |r| ensures r[k - 1].coords != r[k].coords {
          if k > 1 {
            assert r[k - 1] == Dedup(s[1..])[k - 2] && r[k] == Dedup(s[1..])[k - 1];
          }
        }
      }
    }
  }

  /** Every input cell is represented in the result by an element with the
      same coordinates from the same or a newer fragment: cells of newer
      fragments overwrite those of older ones. */
  lemma {:induction false} DedupKeepsNewest(s: seq<OverlappingCoords>, i: nat)
    requires i < |s|
    ensures exists j :: 0 <= j < |Dedup(s)| && Dedup(s)[j].coords == s[i].coords
                        && Dedup(s)[j].tile.fragmentIdx >= s[i].tile.fragmentIdx
    decreases |s|
  {
    var d := Dedup(s);
    if |s| < 2 {
      assert d[i] == s[i];
    } else if s[0].coords == s[1].coords {
      if s[0].tile.fragmentIdx < s[1].tile.fragmentIdx {
        DedupKeepsNewest(s[1..], if i == 0 then 0 else i - 1);
      } else {
        var t := [s[0]] + s[2..];
        DedupKeepsNewest(t, if i <= 1 then 0 else i - 1);
      }
    } else {
      if i == 0 {
        assert d[0] == s[0];
      } else {
        DedupKeepsNewest(s[1..], i - 1);
        var j :| 0 <= j < |Dedup(s[1..])| && Dedup(s[1..])[j].coords == s[i].coords
                 && Dedup(s[1..])[j].tile.fragmentIdx >= s[i].tile.fragmentIdx;
        assert d[j + 1] == Dedup(s[1..])[j];
      }
    }
  }

  /** Erasing the element under the cursor when the next one is newer
      keeps the result of the erase loop. */
  lemma EraseOlderAtCursor(r: seq<OverlappingCoords>, i: nat)
    requires i + 1 < |r| && r[i].coords == r[i + 1].coords
    requires r[i].tile.fragmentIdx < r[i + 1].tile.fragmentIdx
    ensures var r' := r[..i] + r[i + 1..];
            r'[..i] + Dedup(r'[i..]) == r[..i] + Dedup(r[i..])
  {
    var t := r[i..];
    assert t[0] == r[i] && t[1] == r[i + 1];
    assert Dedup(t) == Dedup(t[1..]);
    var r' := r[..i] + r[i + 1..];
    assert r'[..i] == r[..i];
    assert r'[i..] == t[1..];
  }

  /** Erasing the element after the cursor otherwise keeps the result of
      the erase loop. */
  lemma EraseNextAtCursor(r: seq<OverlappingCoords>, i: nat)
    requires i + 1 < |r| && r[i].coords == r[i + 1].coords
    requires r[i].tile.fragmentIdx >= r[i + 1].tile.fragmentIdx
    ensures var r' := r[..i + 1] + r[i + 2..];
            r'[..i] + Dedup(r'[i..]) == r[..i] + Dedup(r[i..])
  {
    var t := r[i..];
    assert t[0] == r[i] && t[1] == r[i + 1];
    assert Dedup(t) == Dedup([t[0]] + t[2..]);
    var r' := r[..i + 1] + r[i + 2..];
    assert r'[..i] == r[..i];
    assert r'[i..] == [t[0]] + t[2..];
  }

  /** Moving the cursor past an element unlike the next keeps the result
      of the erase loop. */
  lemma AdvanceCursor(r: seq<OverlappingCoords>, i: nat)
    requires i < |r|
    requires i + 1 < |r| ==> r[i].coords != r[i + 1].coords
    ensures r[..i + 1] + Dedup(r[i + 1..]) == r[..i] + Dedup(r[i..])
  {
    var t := r[i..];
    assert Dedup(t) == [t[0]] + Dedup(t[1..]);
    assert r[..i + 1] == r[..i] + [r[i]];
    assert r[i + 1..] == t[1..];
  }

  /** The erase loop over the list, cursor by cursor. */
  method DedupCoords(coords: seq<OverlappingCoords>) returns (r: seq<OverlappingCoords>)
    ensures r == Dedup(coords)
  {
    r := coords;
    var i := 0;
    while i < |r|
      invariant 0 <= i <= |r|
      invariant r[..i] + Dedup(r[i..]) == Dedup(coords)
      decreases 2 * |r| - i
    {
      if i + 1 < |r| && r[i].coords == r[i + 1].coords {
        if r[i].tile.fragmentIdx < r[i + 1].tile.fragmentIdx {
          EraseOlderAtCursor(r, i);
          r := r[..i] + r[i + 1..];
        } else {
          EraseNextAtCursor(r, i);
          r := r[..i + 1] + r[i + 2..];
        }
      } else {
        AdvanceCursor(r, i);
        i := i + 1;
      }
    }
    assert r[i..] == [];
  }

  // ---------------------------------------------------------------------
  // compute_cell_ranges
  // ---------------------------------------------------------------------

  /** The cells a range stands for, in order. */
  function Cells(tile: Tile, start: nat, end: nat): (r: seq<CellPos>)
    requires start <= end + 1
    ensures |r| == end + 1 - start
    ensures forall k :: 0 <= k < |r| ==> r[k] == CellPos(tile, start + k)
  {
    seq(end + 1 - start, k requires 0 <= k < end + 1 - start => CellPos(tile, start + k))
  }

  lemma CellsSnoc(tile: Tile, start: nat, end: nat)
    requires start <= end + 1
    ensures Cells(tile, start, end + 1) == Cells(tile, start, end) + [CellPos(tile, end + 1)]
  {
  }

  predicate WellFormed(ranges: seq<OverlappingCellRange>)
  {
    forall k :: 0 <= k < |ranges| ==> ranges[k].start <= ranges[k].end
  }

  /** The cells of all ranges, range after range. */
  function Expand(ranges: seq<OverlappingCellRange>): seq<CellPos>
    requires WellFormed(ranges)
  {
    if ranges == [] then []
    else
      var last := ranges[|ranges| - 1];
      Expand(ranges[..|ranges| - 1]) + Cells(last.tile, last.start, last.end)
  }

  /** The cell each coordinate tuple was found at. */
  function Positions(coords: seq<OverlappingCoords>): (r: seq<CellPos>)
    ensures |r| == |coords|
  {
    if coords == [] then []
    else Positions(coords[..|coords| - 1]) + [CellPos(coords[|coords| - 1].tile, coords[|coords| - 1].pos)]
  }

  lemma PositionsSnoc(coords: seq<OverlappingCoords>, i: nat)
    requires i < |coords|
    ensures Positions(coords[..i + 1]) == Positions(coords[..i]) + [CellPos(coords[i].tile, coords[i].pos)]
  {
    assert coords[..i + 1][..i] == coords[..i];
  }

  /** A range ends where the next one could not have continued it: a
      different tile, or a gap in positions. */
  predicate Maximal(ranges: seq<OverlappingCellRange>)
  {
    forall k :: 0 < k < |ranges| ==>
      ranges[k].tile != ranges[k - 1].tile || ranges[k].start != ranges[k - 1].end + 1
  }

  /** A range of `tile` starting at `start` cannot extend `prev`. */
  predicate Breaks(prev: OverlappingCellRange, tile: Tile, start: nat)
  {
    tile != prev.tile || start != prev.end + 1
  }

  /** A run of `tile` starting at `start` may follow `ranges`. */
  predicate NewRun(ranges: seq<OverlappingCellRange>, tile: Tile, start: nat)
  {
    ranges == [] || Breaks(ranges[|ranges| - 1], tile, start)
  }

  lemma MaximalSnoc(ranges: seq<OverlappingCellRange>, x: OverlappingCellRange)
    requires Maximal(ranges) && NewRun(ranges, x.tile, x.start)
    ensures Maximal(ranges + [x])
  {
  }

  lemma ExpandSnoc(ranges: seq<OverlappingCellRange>, x: OverlappingCellRange)
    requires WellFormed(ranges) && x.start <= x.end
    ensures WellFormed(ranges + [x])
    ensures Expand(ranges + [x]) == Expand(ranges) + Cells(x.tile, x.start, x.end)
  {
    assert (ranges + [x])[..|ranges|] == ranges;
  }

  /** A coordinate tuple at the next position of the current run's tile
      extends the run. */
  lemma ExtendRun(ranges: seq<OverlappingCellRange>, tile: Tile, s: nat, e: nat,
                  coords: seq<OverlappingCoords>, i: nat)
    requires WellFormed(ranges) && s <= e && i < |coords|
    requires Expand(ranges) + Cells(tile, s, e) == Positions(coords[..i])
    requires coords[i].tile == tile && coords[i].pos == e + 1
    ensures Expand(ranges) + Cells(tile, s, e + 1) == Positions(coords[..i + 1])
  {
    PositionsSnoc(coords, i);
    CellsSnoc(tile, s, e);
  }

  /** Any other coordinate tuple closes the current run and starts a run
      of its own. */
  lemma CloseRun(ranges: seq<OverlappingCellRange>, tile: Tile, s: nat, e: nat,
                 coords: seq<OverlappingCoords>, i: nat)
    requires WellFormed(ranges) && s <= e && i < |coords|
    requires Expand(ranges) + Cells(tile, s, e) == Positions(coords[..i])
    ensures WellFormed(ranges + [OverlappingCellRange(tile, s, e)])
    ensures Expand(ranges + [OverlappingCellRange(tile, s, e)]) + Cells(coords[i].tile, coords[i].pos, coords[i].pos)
            == Positions(coords[..i + 1])
  {
    PositionsSnoc(coords, i);
    ExpandSnoc(ranges, OverlappingCellRange(tile, s, e));
    assert Cells(coords[i].tile, coords[i].pos, coords[i].pos) == [CellPos(coords[i].tile, coords[i].pos)];
  }

  /** The first coordinate tuple opens the first run. */
  lemma OpenRun(coords: seq<OverlappingCoords>)
    requires coords != []
    ensures Expand([]) + Cells(coords[0].tile, coords[0].pos, coords[0].pos) == Positions(coords[..1])
  {
    PositionsSnoc(coords, 0);
    assert coords[..0] == [];
  }

  /** At the end of the input the open run is the last range. */
  lemma FinishRuns(ranges: seq<OverlappingCellRange>, tile: Tile, s: nat, e: nat,
                   coords: seq<OverlappingCoords>)
    requires WellFormed(ranges) && s <= e
    requires Expand(ranges) + Cells(tile, s, e) == Positions(coords)
    requires Maximal(ranges) && NewRun(ranges, tile, s)
    ensures WellFormed(ranges + [OverlappingCellRange(tile, s, e)])
    ensures Expand(ranges + [OverlappingCellRange(tile, s, e)]) == Positions(coords)
    ensures Maximal(ranges + [OverlappingCellRange(tile, s, e)])
  {
    ExpandSnoc(ranges, OverlappingCellRange(tile, s, e));
    MaximalSnoc(ranges, OverlappingCellRange(tile, s, e));
  }

  /** Takes the coordinate tuple at `i` into the runs: it extends the open
      run, or closes it and opens its own. */
  method AddToRuns(ranges: seq<OverlappingCellRange>, tile: Tile, startPos: nat, endPos: nat,
                   coords: seq<OverlappingCoords>, i: nat)
    returns (ranges': seq<OverlappingCellRange>, tile': Tile, startPos': nat, endPos': nat)
    requires i < |coords|
    requires WellFormed(ranges) && startPos <= endPos
    requires Expand(ranges) + Cells(tile, startPos, endPos) == Positions(coords[..i])
    requires Maximal(ranges) && NewRun(ranges, tile, startPos)
    ensures WellFormed(ranges') && startPos' <= endPos'
    ensures Expand(ranges') + Cells(tile', startPos', endPos') == Positions(coords[..i + 1])
    ensures Maximal(ranges') && NewRun(ranges', tile', startPos')
  {
    var c := coords[i];
    if c.tile == tile && c.pos == endPos + 1 {
      ExtendRun(ranges, tile, startPos, endPos, coords, i);
      ranges', tile', startPos', endPos' := ranges, tile, startPos, c.pos;
    } else {
      CloseRun(ranges, tile, startPos, endPos, coords, i);
      MaximalSnoc(ranges, OverlappingCellRange(tile, startPos, endPos));
      ranges' := ranges + [OverlappingCellRange(tile, startPos, endPos)];
      tile', startPos', endPos' := c.tile, c.pos, c.pos;
    }
  }

  /** Groups the coordinates, in list order, into maximal runs of
      consecutive positions of one tile. */
  method ComputeCellRanges(coords: seq<OverlappingCoords>) returns (ranges: seq<OverlappingCellRange>)
    ensures coords == [] ==> ranges == []
    ensures WellFormed(ranges)
    ensures Expand(ranges) == Positions(coords)
    ensures Maximal(ranges)
  {
    ranges := [];
    if |coords| == 0 {
      return;
    }
    var startPos := coords[0].pos;
    var endPos := startPos;
    var tile := coords[0].tile;
    var i := 1;
    OpenRun(coords);
    while i < |coords|
      invariant 1 <= i <= |coords|
      invariant WellFormed(ranges) && startPos <= endPos
      invariant Expand(ranges) + Cells(tile, startPos, endPos) == Positions(coords[..i])
      invariant Maximal(ranges)
      invariant NewRun(ranges, tile, startPos)
    {
      ranges, tile, startPos, endPos := AddToRuns(ranges, tile, startPos, endPos, coords, i);
      i := i + 1;
    }
    assert coords[..i] == coords;
    FinishRuns(ranges, tile, startPos, endPos, coords);
    ranges := ranges + [OverlappingCellRange(tile, startPos, endPos)];
  }

  /** The ranges hold one cell per coordinate tuple. */
  lemma ComputedRangesCount(coords: seq<OverlappingCoords>, ranges: seq<OverlappingCellRange>)
    requires WellFormed(ranges) && Expand(ranges) == Positions(coords)
    ensures TotalCells(ranges) == |coords|
  {
    ExpandLength(ranges);
  }

  function TotalCells(ranges: seq<OverlappingCellRange>): nat
    requires WellFormed(ranges)
  {
    if ranges == [] then 0
    else
      var last := ranges[|ranges| - 1];
      TotalCells(ranges[..|ranges| - 1]) + (last.end + 1 - last.start)
  }

  lemma {:induction false} ExpandLength(ranges: seq<OverlappingCellRange>)
    requires WellFormed(ranges)
    ensures |Expand(ranges)| == TotalCells(ranges)
    decreases |ranges|
  {
    if ranges != [] {
      ExpandLength(ranges[..|ranges| - 1]);
    }
  }

  // ---------------------------------------------------------------------
  // overlap
  // ---------------------------------------------------------------------

  /** A box of `dimNum` dimensions is stored flat as [lo0, hi0, lo1, hi1, ...]. */
  predicate Disjoint(a: seq<int>, b: seq<int>, i: nat)
    requires 2 * i + 1 < |a| && 2 * i + 1 < |b|
  {
    a[2 * i] > b[2 * i + 1] || a[2 * i + 1] < b[2 * i]
  }

  predicate Encloses(a: seq<int>, b: seq<int>, i: nat)
    requires 2 * i + 1 < |a| && 2 * i + 1 < |b|
  {
    a[2 * i] <= b[2 * i] && b[2 * i + 1] <= a[2 * i + 1]
  }

  predicate Overlaps(a: seq<int>, b: seq<int>, dimNum: nat)
    requires 2 * dimNum <= |a| && 2 * dimNum <= |b|
  {
    forall i :: 0 <= i < dimNum ==> !Disjoint(a, b, i)
  }

  predicate Contains(a: seq<int>, b: seq<int>, dimNum: nat)
    requires 2 * dimNum <= |a| && 2 * dimNum <= |b|
  {
    forall i :: 0 <= i < dimNum ==> Encloses(a, b, i)
  }

  /** Whether boxes `a` and `b` intersect; when they do, `aContainsB` tells
      whether `a` encloses `b`. When they do not, the flag is left as the
      caller passed it in. */
  method Overlap(a: seq<int>, b: seq<int>, dimNum: nat, aContainsBIn: bool)
    returns (r: bool, aContainsB: bool)
    requires 2 * dimNum <= |a| && 2 * dimNum <= |b|
    ensures r <==> Overlaps(a, b, dimNum)
    ensures r ==> (aContainsB <==> Contains(a, b, dimNum))
    ensures !r ==> aContainsB == aContainsBIn
  {
    aContainsB := aContainsBIn;
    var i := 0;
    while i < dimNum
      invariant 0 <= i <= dimNum
      invariant forall j :: 0 <= j < i ==> !Disjoint(a, b, j)
    {
      if a[2 * i] > b[2 * i + 1] || a[2 * i + 1] < b[2 * i] {
        assert Disjoint(a, b, i);
        return false, aContainsB;
      }
      i := i + 1;
    }
    aContainsB := true;
    i := 0;
    while i < dimNum
      invariant 0 <= i <= dimNum
      invariant forall j :: 0 <= j < i ==> Encloses(a, b, j)
    {
      if a[2 * i] > b[2 * i] || a[2 * i + 1] < b[2 * i + 1] {
        assert !Encloses(a, b, i);
        aContainsB := false;
        break;
      }
      i := i + 1;
    }
    return true, aContainsB;
  }

  /** Overlap does not depend on which box comes first. */
  lemma OverlapsSymmetric(a: seq<int>, b: seq<int>, dimNum: nat)
    requires 2 * dimNum <= |a| && 2 * dimNum <= |b|
    ensures Overlaps(a, b, dimNum) <==> Overlaps(b, a, dimNum)
  {
    forall i | 0 <= i < dimNum ensures Disjoint(a, b, i) <==> Disjoint(b, a, i) {
    }
  }

  /** A box that encloses a non-empty box overlaps it. */
  lemma ContainsImpliesOverlaps(a: seq<int>, b: seq<int>, dimNum: nat)
    requires 2 * dimNum <= |a| && 2 * dimNum <= |b|
    requires forall i :: 0 <= i < dimNum ==> b[2 * i] <= b[2 * i + 1]
    requires Contains(a, b, dimNum)
    ensures Overlaps(a, b, dimNum)
  {
    forall i | 0 <= i < dimNum ensures !Disjoint(a, b, i) {
      assert Encloses(a, b, i);
    }
  }
}
