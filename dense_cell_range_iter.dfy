/** The iterator over the cell ranges of a dense subarray: a small state
    machine over slab start and end coordinates whose geometry (next cell
    coordinates, end of a cell slab, cell positions, tiles) belongs to the
    array domain and is left uninterpreted here. */
module CellRangeIter {
  import opened Common
  import opened QuerySchema

  datatype IterError = UnorderedLayout | InvalidSubarrayLength | InvalidSubarrayBounds | SubarrayNotInDomain

  /** The domain as the iterator sees it: its dimensions, its bounds
      stored flat as [lo0, hi0, lo1, hi1, ...], its cell order, and the
      geometry it computes, each one an arbitrary function. A pair
      `(coords, inSubarray)` is what a call that moves to the next cell or
      tile reports. */
  datatype Domain = Domain(
    dimNum: nat,
    bounds: seq<int>,
    cellOrder: Layout,
    endOfCellSlab: (seq<int>, seq<int>, Layout) -> seq<int>,
    cellPos: seq<int> -> nat,
    nextCellCoordsRow: (seq<int>, seq<int>) -> (seq<int>, bool),
    nextCellCoordsCol: (seq<int>, seq<int>) -> (seq<int>, bool),
    nextTileCoords: (seq<int>, seq<int>) -> (seq<int>, bool),
    tileCoordsOf: seq<int> -> seq<int>,
    tileSubarrayOf: seq<int> -> seq<int>,
    subarrayOverlap: (seq<int>, seq<int>) -> (seq<int>, bool),
    tileDomainOf: seq<int> -> seq<int>,
    tilePos: seq<int> -> nat)

  predicate DomainOk(d: Domain)
  {
    |d.bounds| == 2 * d.dimNum
  }

  /** What the iterator asserts of the geometry: a slab never ends at a
      position before the one it starts at. */
  ghost predicate SlabsOrdered(d: Domain)
  {
    forall sub, c, l :: d.cellPos(c) <= d.cellPos(d.endOfCellSlab(sub, c, l))
  }

  /** Every dimension's lower bound is at most its upper bound. */
  predicate BoundsOrdered(sub: seq<int>, n: nat)
    requires |sub| == 2 * n
  {
    forall i :: 0 <= i < n ==> sub[2 * i] <= sub[2 * i + 1]
  }

  /** Both bounds of every dimension lie inside the domain's range. */
  predicate InDomain(d: Domain, sub: seq<int>)
    requires DomainOk(d) && |sub| == 2 * d.dimNum
  {
    forall i :: 0 <= i < d.dimNum ==>
      && d.bounds[2 * i] <= sub[2 * i] <= d.bounds[2 * i + 1]
      && d.bounds[2 * i] <= sub[2 * i + 1] <= d.bounds[2 * i + 1]
  }

  /** The outcome of `sanity_check`: the first of its checks that fails. */
  function SanityResult(d: Domain, sub: seq<int>, layout: Layout): Outcome<IterError>
    requires DomainOk(d)
  {
    if layout == Unordered then Fail(UnorderedLayout)
    else if |sub| != 2 * d.dimNum then Fail(InvalidSubarrayLength)
    else if !BoundsOrdered(sub, d.dimNum) then Fail(InvalidSubarrayBounds)
    else if !InDomain(d, sub) then Fail(SubarrayNotInDomain)
    else Ok
  }

  /** The lower corner of a flat subarray: the entries at even positions
      (an entry past the end reads as 0). */
  function Corner(sub: seq<int>, n: nat): (c: seq<int>)
    ensures |c| == n
    ensures |sub| >= 2 * n ==> forall i :: 0 <= i < n ==> c[i] == sub[2 * i]
  {
    seq(n, i requires 0 <= i < n => if 2 * i < |sub| then sub[2 * i] else 0)
  }

  /** A subarray that passes the check is a non-empty box inside the
      domain: its lower corner is inside the domain and below its upper
      corner in every dimension. */
  lemma SanityOkBox(d: Domain, sub: seq<int>, layout: Layout)
    requires DomainOk(d) && SanityResult(d, sub, layout).Ok?
    ensures layout != Unordered && |sub| == 2 * d.dimNum
    ensures forall i :: 0 <= i < d.dimNum ==>
      d.bounds[2 * i] <= Corner(sub, d.dimNum)[i] <= sub[2 * i + 1] <= d.bounds[2 * i + 1]
  {
  }

  /** The iterator's check is stricter than the query's subarray check:
      an inverted range inside the domain passes the query and fails
      here. */
  lemma IteratorRejectsInverted(d: Domain)
    requires d.dimNum == 1 && d.bounds == [0, 9]
    ensures SubarrayInDomain(ArraySchema([], Attribute(COORDS, false, 1, [0]), true, false, 1, [0, 9]), [7, 2])
    ensures SanityResult(d, [7, 2], RowMajor) == Fail(InvalidSubarrayBounds)
  {
    InvertedSubarrayInDomain();
    assert !BoundsOrdered([7, 2], 1) by {
      assert [7, 2][2 * 0] > [7, 2][2 * 0 + 1];
    }
  }

  /** The fields `begin` and `++` change. */
  datatype IterState = IterState(
    end: bool,
    coordsStart: seq<int>,
    coordsEnd: seq<int>,
    tileCoords: seq<int>,
    tileSubarray: seq<int>,
    subarrayInTile: seq<int>,
    tileOverlap: bool,
    tileDomain: seq<int>,
    tileIdx: nat,
    rangeStart: nat,
    rangeEnd: nat)

  /** `compute_current_tile_info`: the tile of the start coordinates, its
      subarray and overlap with the query subarray, the tile domain and
      the tile's position. */
  function TileInfo(d: Domain, sub: seq<int>, s: IterState): IterState
  {
    var tc := d.tileCoordsOf(s.coordsStart);
    var ts := d.tileSubarrayOf(tc);
    var ov := d.subarrayOverlap(sub, ts);
    s.(tileCoords := tc, tileSubarray := ts, subarrayInTile := ov.0, tileOverlap := ov.1,
       tileDomain := d.tileDomainOf(sub), tileIdx := d.tilePos(tc))
  }

  /** `compute_current_end_coords` then `compute_current_range`: the end
      of the slab starting at the start coordinates and the positions of
      both ends. */
  function CurrentRange(d: Domain, sub: seq<int>, layout: Layout, s: IterState): (r: IterState)
    ensures SlabsOrdered(d) ==> r.rangeStart <= r.rangeEnd
  {
    var ce := d.endOfCellSlab(sub, s.coordsStart, layout);
    s.(coordsEnd := ce, rangeStart := d.cellPos(s.coordsStart), rangeEnd := d.cellPos(ce))
  }

  /** `compute_next_start_coords_global`: the next cell inside the current
      tile in the domain's cell order, or else the first cell of the next
      tile, with that tile's information. */
  function NextStartGlobal(d: Domain, sub: seq<int>, s: IterState): (IterState, bool)
  {
    var r := if d.cellOrder == RowMajor then d.nextCellCoordsRow(s.subarrayInTile, s.coordsStart)
             else if d.cellOrder == ColMajor then d.nextCellCoordsCol(s.subarrayInTile, s.coordsStart)
             else (s.coordsStart, false);
    var s1 := s.(coordsStart := r.0);
    if r.1 then (s1, true) else NextTile(d, sub, s1)
  }

  /** The move to the next tile of the tile domain, starting at the lower
      corner of its overlap with the subarray. */
  function NextTile(d: Domain, sub: seq<int>, s: IterState): (IterState, bool)
  {
    var t := d.nextTileCoords(s.tileDomain, s.tileCoords);
    var s1 := s.(tileCoords := t.0);
    if !t.1 then (s1, false)
    else
      var ts := d.tileSubarrayOf(t.0);
      var ov := d.subarrayOverlap(sub, ts);
      (s1.(tileIdx := d.tilePos(t.0), tileSubarray := ts, subarrayInTile := ov.0,
           tileOverlap := ov.1, coordsStart := Corner(ov.0, d.dimNum)), true)
  }

  /** `compute_next_start_coords`: the next cell after the start
      coordinates in the iterator's layout, and whether there is one. */
  function NextStart(d: Domain, sub: seq<int>, layout: Layout, s: IterState): (IterState, bool)
  {
    match layout
    case RowMajor =>
      var r := d.nextCellCoordsRow(sub, s.coordsStart);
      (s.(coordsStart := r.0), r.1)
    case ColMajor =>
      var r := d.nextCellCoordsCol(sub, s.coordsStart);
      (s.(coordsStart := r.0), r.1)
    case GlobalOrder => NextStartGlobal(d, sub, s)
    case Unordered => (s, false)
  }

  /** The state after `++`. */
  function NextState(d: Domain, sub: seq<int>, layout: Layout, s: IterState): IterState
  {
    if s.end then s
    else
      var r := NextStart(d, sub, layout, s.(coordsStart := s.coordsEnd));
      if !r.1 then r.0.(end := true)
      else CurrentRange(d, sub, layout, if layout != GlobalOrder then TileInfo(d, sub, r.0) else r.0)
  }

  /** The state after a `begin` that passed the check. */
  function BeginState(d: Domain, sub: seq<int>, layout: Layout, s: IterState): IterState
  {
    CurrentRange(d, sub, layout, TileInfo(d, sub, s.(end := false, coordsStart := Corner(sub, d.dimNum))))
  }

  /** `++` does nothing at the end, and once the next start falls outside
      the subarray the iterator stays at the end; a step that does not
      end it yields an ordered range starting where the previous slab's
      successor lies. */
  lemma {:induction false} NextProperties(d: Domain, sub: seq<int>, layout: Layout, s: IterState, k: nat)
    ensures s.end ==> NextState(d, sub, layout, s) == s
    ensures NextState(d, sub, layout, s).end ==> Iterate(d, sub, layout, NextState(d, sub, layout, s), k) == NextState(d, sub, layout, s)
    ensures SlabsOrdered(d) && !NextState(d, sub, layout, s).end ==>
              NextState(d, sub, layout, s).rangeStart <= NextState(d, sub, layout, s).rangeEnd
    ensures layout == Unordered && !s.end ==> NextState(d, sub, layout, s).end
  {
    if NextState(d, sub, layout, s).end {
      EndIsFixed(d, sub, layout, NextState(d, sub, layout, s), k);
    }
  }

  /** `k` steps of `++`. */
  function Iterate(d: Domain, sub: seq<int>, layout: Layout, s: IterState, k: nat): IterState
    decreases k
  {
    if k == 0 then s else Iterate(d, sub, layout, NextState(d, sub, layout, s), k - 1)
  }

  lemma {:induction false} EndIsFixed(d: Domain, sub: seq<int>, layout: Layout, s: IterState, k: nat)
    requires s.end
    ensures Iterate(d, sub, layout, s, k) == s
    decreases k
  {
    if k > 0 {
      EndIsFixed(d, sub, layout, s, k - 1);
    }
  }

  class DenseCellRangeIter {
    const domain: Option<Domain>
    const subarray: seq<int>
    const layout: Layout
    var end: bool
    var coordsStart: seq<int>
    var coordsEnd: seq<int>
    var tileCoords: seq<int>
    var tileSubarray: seq<int>
    var subarrayInTile: seq<int>
    var tileOverlap: bool
    var tileDomain: seq<int>
    var tileIdx: nat
    var rangeStart: nat
    var rangeEnd: nat

    ghost function State(): IterState
      reads this
    {
      IterState(end, coordsStart, coordsEnd, tileCoords, tileSubarray, subarrayInTile,
                tileOverlap, tileDomain, tileIdx, rangeStart, rangeEnd)
    }

    /** Without a domain the iterator is at its end; with one, the domain
        is well formed, its slabs are ordered, and a current range is
        ordered. */
    ghost predicate Valid()
      reads this
    {
      && (domain.None? ==> end)
      && (domain.Some? ==> DomainOk(domain.value) && SlabsOrdered(domain.value))
      && (!end ==> rangeStart <= rangeEnd)
    }

    /** An iterator without a domain, at its end. */
    constructor Empty()
      ensures Valid() && domain.None? && end
    {
      domain := None;
      subarray := [];
      layout := RowMajor;
      end := true;
    }

    /** An iterator over `subarray` of `d` in `layout`, at its end until
        `begin`. */
    constructor (d: Domain, subarray: seq<int>, layout: Layout)
      requires DomainOk(d) && SlabsOrdered(d)
      ensures Valid() && end
      ensures domain.Some? && this.subarray == subarray && this.layout == layout
    {
      domain := Some(d);
      this.subarray := subarray;
      this.layout := layout;
      end := true;
    }

    /** `sanity_check`: rejects the unordered layout, a subarray of the
        wrong length, an inverted dimension and a bound outside the
        domain, in that order. */
    method SanityCheck() returns (st: Outcome<IterError>)
      requires domain.Some? && DomainOk(domain.value)
      ensures st == SanityResult(domain.value, subarray, layout)
    {
      var d := domain.value;
      if layout == Unordered {
        return Fail(UnorderedLayout);
      }
      if |subarray| != 2 * d.dimNum {
        return Fail(InvalidSubarrayLength);
      }
      var i := 0;
      while i < d.dimNum
        invariant i <= d.dimNum
        invariant forall j :: 0 <= j < i ==> subarray[2 * j] <= subarray[2 * j + 1]
      {
        if subarray[2 * i] > subarray[2 * i + 1] {
          return Fail(InvalidSubarrayBounds);
        }
        i := i + 1;
      }
      i := 0;
      while i < d.dimNum
        invariant i <= d.dimNum
        invariant forall j :: 0 <= j < i ==>
          && d.bounds[2 * j] <= subarray[2 * j] <= d.bounds[2 * j + 1]
          && d.bounds[2 * j] <= subarray[2 * j + 1] <= d.bounds[2 * j + 1]
      {
        if subarray[2 * i] < d.bounds[2 * i] || subarray[2 * i] > d.bounds[2 * i + 1]
           || subarray[2 * i + 1] < d.bounds[2 * i] || subarray[2 * i + 1] > d.bounds[2 * i + 1] {
          return Fail(SubarrayNotInDomain);
        }
        i := i + 1;
      }
      return Ok;
    }

    method ComputeCurrentTileInfo()
      requires domain.Some?
      modifies this
      ensures State() == TileInfo(domain.value, subarray, old(State()))
    {
      var d := domain.value;
      tileCoords := d.tileCoordsOf(coordsStart);
      tileSubarray := d.tileSubarrayOf(tileCoords);
      var ov := d.subarrayOverlap(subarray, tileSubarray);
      subarrayInTile, tileOverlap := ov.0, ov.1;
      tileDomain := d.tileDomainOf(subarray);
      tileIdx := d.tilePos(tileCoords);
    }

    method ComputeCurrentRange()
      requires domain.Some?
      modifies this
      ensures State() == CurrentRange(domain.value, subarray, layout, old(State()))
    {
      var d := domain.value;
      coordsEnd := d.endOfCellSlab(subarray, coordsStart, layout);
      rangeStart := d.cellPos(coordsStart);
      rangeEnd := d.cellPos(coordsEnd);
    }

    method ComputeNextStartCoordsGlobal() returns (inSubarray: bool)
      requires domain.Some?
      modifies this
      ensures (State(), inSubarray) == NextStartGlobal(domain.value, subarray, old(State()))
    {
      var d := domain.value;
      inSubarray := false;
      if d.cellOrder == RowMajor {
        var r := d.nextCellCoordsRow(subarrayInTile, coordsStart);
        coordsStart, inSubarray := r.0, r.1;
      } else if d.cellOrder == ColMajor {
        var r := d.nextCellCoordsCol(subarrayInTile, coordsStart);
        coordsStart, inSubarray := r.0, r.1;
      }
      if !inSubarray {
        inSubarray := MoveToNextTile();
      }
    }

    method MoveToNextTile() returns (inSubarray: bool)
      requires domain.Some?
      modifies this
      ensures (State(), inSubarray) == NextTile(domain.value, subarray, old(State()))
    {
      var d := domain.value;
      var t := d.nextTileCoords(tileDomain, tileCoords);
      tileCoords, inSubarray := t.0, t.1;
      if inSubarray {
        tileIdx := d.tilePos(tileCoords);
        tileSubarray := d.tileSubarrayOf(tileCoords);
        var ov := d.subarrayOverlap(subarray, tileSubarray);
        subarrayInTile, tileOverlap := ov.0, ov.1;
        coordsStart := Corner(subarrayInTile, d.dimNum);
      }
    }

    method ComputeNextStartCoords() returns (inSubarray: bool)
      requires domain.Some?
      modifies this
      ensures (State(), inSubarray) == NextStart(domain.value, subarray, layout, old(State()))
    {
      var d := domain.value;
      match layout
      case RowMajor =>
        var r := d.nextCellCoordsRow(subarray, coordsStart);
        coordsStart, inSubarray := r.0, r.1;
      case ColMajor =>
        var r := d.nextCellCoordsCol(subarray, coordsStart);
        coordsStart, inSubarray := r.0, r.1;
      case GlobalOrder =>
        inSubarray := ComputeNextStartCoordsGlobal();
      case Unordered =>
        inSubarray := false;
    }

    /** `begin`: without a domain, nothing; a subarray failing the check
        leaves the iterator as it was (at its end after construction);
        otherwise the iterator starts at the subarray's lower corner with
        the first slab's range. */
    method Begin() returns (st: Outcome<IterError>)
      requires Valid()
      modifies this
      ensures Valid()
      ensures domain.None? ==> st.Ok? && State() == old(State())
      ensures domain.Some? && SanityResult(domain.value, subarray, layout).Fail? ==>
                st == SanityResult(domain.value, subarray, layout) && State() == old(State())
      ensures domain.Some? && SanityResult(domain.value, subarray, layout).Ok? ==>
                && st.Ok? && State() == BeginState(domain.value, subarray, layout, old(State()))
                && !end && coordsStart == Corner(subarray, domain.value.dimNum)
                && (forall i :: 0 <= i < domain.value.dimNum ==> coordsStart[i] == subarray[2 * i])
                && rangeStart <= rangeEnd
    {
      if domain.None? {
        return Ok;
      }
      st := SanityCheck();
      if st.Fail? {
        return;
      }
      var d := domain.value;
      end := false;
      coordsStart := Corner(subarray, d.dimNum);
      ComputeCurrentTileInfo();
      ComputeCurrentRange();
    }

    /** `++`: nothing at the end; otherwise moves to the cell after the
        current slab and ends when there is none. */
    method Next()
      requires Valid()
      modifies this
      ensures Valid()
      ensures domain.None? ==> State() == old(State())
      ensures domain.Some? ==> State() == NextState(domain.value, subarray, layout, old(State()))
    {
      if end {
        return;
      }
      coordsStart := coordsEnd;
      var inSubarray := ComputeNextStartCoords();
      if !inSubarray {
        end := true;
        return;
      }
      if layout != GlobalOrder {
        ComputeCurrentTileInfo();
      }
      ComputeCurrentRange();
    }
  }
}
