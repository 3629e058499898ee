/** Filling one interval of cells of a dense tile from the fragments that
    wrote to it: each fragment's iterator yields the cell ranges it holds,
    a priority queue keeps the current range of every unfinished
    fragment, and the interval is cut into pieces that come either from
    the highest-priority fragment covering them or from the fill value. */
module DenseRanges {
  import opened Common

  /** A range [lo, hi] of cell positions yielded by a fragment's iterator. */
  datatype Range = Range(lo: int, hi: int)

  /** Cells [start, end] taken from fragment `fragmentIdx`, or filled with
      the fill value when `fragmentIdx` is -1. */
  datatype DenseCellRange = DenseCellRange(fragmentIdx: int, start: int, end: int)

  /** The iterators of all fragments, each as the ranges it has still to
      yield: `its[f] == []` is `frag_its[f].end()`, `its[f][0]` is its
      current range and advancing it drops that range. The queue holds
      exactly the current ranges of the unfinished fragments. */
  type Iterators = seq<seq<Range>>

  predicate Live(its: Iterators)
  {
    exists f :: 0 <= f < |its| && its[f] != []
  }

  /** The queue order: smaller start first and, for equal starts, the more
      recent fragment (larger index) first. */
  predicate Precedes(its: Iterators, f: nat, g: nat)
    requires f < |its| && g < |its| && its[f] != [] && its[g] != []
  {
    its[f][0].lo < its[g][0].lo || (its[f][0].lo == its[g][0].lo && f >= g)
  }

  /** The top of the queue among fragments below `n`. */
  function TopBelow(its: Iterators, n: nat): (r: Option<nat>)
    requires n <= |its|
    ensures r.Some? ==> r.value < n && its[r.value] != []
  {
    if n == 0 then None
    else
      var r := TopBelow(its, n - 1);
      if its[n - 1] == [] then r
      else if r.None? || its[n - 1][0].lo <= its[r.value][0].lo then Some(n - 1)
      else r
  }

  /** There is a top below `n` exactly when a fragment below `n` is
      unfinished, and it precedes every unfinished fragment below `n`. */
  lemma {:induction false} TopBelowFirst(its: Iterators, n: nat)
    requires n <= |its|
    ensures TopBelow(its, n).None? <==> forall g :: 0 <= g < n ==> its[g] == []
    ensures TopBelow(its, n).Some? ==>
              forall g :: 0 <= g < n && its[g] != [] ==> Precedes(its, TopBelow(its, n).value, g)
    decreases n
  {
    if n > 0 {
      TopBelowFirst(its, n - 1);
    }
  }

  /** `pq.top()`: the fragment whose current range comes first. */
  function Top(its: Iterators): (f: nat)
    requires Live(its)
    ensures f < |its| && its[f] != []
  {
    TopBelowFirst(its, |its|);
    TopBelow(its, |its|).value
  }

  /** The top precedes every other entry of the queue. */
  lemma TopFirst(its: Iterators, g: nat)
    requires Live(its) && g < |its| && its[g] != []
    ensures Precedes(its, Top(its), g)
  {
    TopBelowFirst(its, |its|);
  }

  /** `++frag_its[f]`, with the pop and re-push of its queue entry. */
  function Advance(its: Iterators, f: nat): (r: Iterators)
    requires f < |its| && its[f] != []
    ensures |r| == |its|
  {
    its[f := its[f][1..]]
  }

  /** How many ranges the iterators have still to yield. */
  function Remaining(its: Iterators): nat
  {
    if its == [] then 0 else |its[0]| + Remaining(its[1..])
  }

  lemma {:induction false} RemainingAdvance(its: Iterators, f: nat)
    requires f < |its| && its[f] != []
    ensures Remaining(Advance(its, f)) == Remaining(its) - 1
    decreases |its|
  {
    var r := Advance(its, f);
    if f == 0 {
      assert r[1..] == its[1..];
    } else {
      assert r[1..] == Advance(its[1..], f - 1);
      RemainingAdvance(its[1..], f - 1);
    }
  }

  /** `out` cuts [a, b] into non-empty pieces, in ascending order, each
      starting right after the previous one ends; `out == []` covers the
      empty interval (b == a - 1). */
  ghost predicate Partition(out: seq<DenseCellRange>, a: int, b: int)
    decreases |out|
  {
    if out == [] then a == b + 1
    else out[0].start == a && out[0].start <= out[0].end && Partition(out[1..], out[0].end + 1, b)
  }

  lemma {:induction false} PartitionSnoc(out: seq<DenseCellRange>, a: int, b: int, x: DenseCellRange)
    requires Partition(out, a, b) && x.start == b + 1 && x.start <= x.end
    ensures Partition(out + [x], a, x.end)
    decreases |out|
  {
    if out == [] {
      assert [x][1..] == [];
    } else {
      assert (out + [x])[1..] == out[1..] + [x];
      PartitionSnoc(out[1..], out[0].end + 1, b, x);
    }
  }

  /** Every cell of [a, b] lies in exactly one piece of a partition. */
  lemma {:induction false} PartitionOwner(out: seq<DenseCellRange>, a: int, b: int, c: int)
    requires Partition(out, a, b) && a <= c <= b
    ensures exists k :: 0 <= k < |out| && out[k].start <= c <= out[k].end
    ensures forall k, l :: (0 <= k < |out| && 0 <= l < |out| && out[k].start <= c <= out[k].end
              && out[l].start <= c <= out[l].end) ==> k == l
    decreases |out|
  {
    PartitionAbove(out, a, b);
    if c > out[0].end {
      PartitionOwner(out[1..], out[0].end + 1, b, c);
      var k :| 0 <= k < |out[1..]| && out[1..][k].start <= c <= out[1..][k].end;
      assert out[k + 1] == out[1..][k];
      forall k, l | 0 <= k < |out| && 0 <= l < |out| && out[k].start <= c <= out[k].end
        && out[l].start <= c <= out[l].end
        ensures k == l
      {
        assert k > 0 && l > 0;
        assert out[k] == out[1..][k - 1] && out[l] == out[1..][l - 1];
      }
    } else {
      PartitionAbove(out[1..], out[0].end + 1, b);
      forall k | 0 < k < |out| ensures out[k].start > c {
        assert out[k] == out[1..][k - 1];
      }
    }
  }

  /** The pieces of a partition of [a, b] lie inside it. */
  lemma {:induction false} PartitionAbove(out: seq<DenseCellRange>, a: int, b: int)
    requires Partition(out, a, b)
    ensures forall k :: 0 <= k < |out| ==> a <= out[k].start <= out[k].end <= b
    decreases |out|
  {
    if out != [] {
      PartitionAbove(out[1..], out[0].end + 1, b);
      forall k | 0 < k < |out| ensures a <= out[k].start <= out[k].end <= b {
        assert out[k] == out[1..][k - 1];
      }
      if |out| == 1 {
        assert out[0].end == b;
      } else {
        assert out[1] == out[1..][0];
      }
    }
  }

  predicate IsSuffix(s: seq<Range>, t: seq<Range>)
  {
    |s| <= |t| && s == t[|t| - |s|..]
  }

  /** The ranges one iterator yields, in the order a walk over its cells
      yields them: each non-empty, ascending and disjoint. */
  predicate Ascending(s: seq<Range>)
    decreases |s|
  {
    s == [] || (s[0].lo <= s[0].hi && (|s| > 1 ==> s[0].hi < s[1].lo) && Ascending(s[1..]))
  }

  /** Every range of an ascending sequence is non-empty, and any later
      range starts after an earlier one ends. */
  lemma {:induction false} AscendingApart(s: seq<Range>, i: nat, j: nat)
    requires Ascending(s) && i <= j < |s|
    ensures s[i].lo <= s[i].hi
    ensures i < j ==> s[i].hi < s[j].lo
    decreases |s|
  {
    if 0 < i {
      AscendingApart(s[1..], i - 1, j - 1);
      assert s[1..][i - 1] == s[i] && s[1..][j - 1] == s[j];
    } else if 1 < j {
      AscendingApart(s[1..], 0, j - 1);
      assert s[1..][0] == s[1] && s[1..][j - 1] == s[j];
    }
  }

  predicate AllAscending(its: Iterators)
  {
    forall f :: 0 <= f < |its| ==> Ascending(its[f])
  }

  /** No range of any fragment meets the cells [lo, hi]. */
  predicate Uncovered(its: Iterators, lo: int, hi: int)
  {
    forall g, q :: 0 <= g < |its| && q in its[g] ==> q.hi < lo || hi < q.lo
  }

  /** Range `q` of fragment `f` comes first in the queue order among the
      ranges of all fragments that contain cell `c`. */
  predicate FirstCovering(its: Iterators, f: int, q: Range, c: int)
  {
    forall g, r :: 0 <= g < |its| && r in its[g] && r.lo <= c <= r.hi ==> q.lo < r.lo || (q.lo == r.lo && f >= g)
  }

  /** A fill piece meets no range of any fragment. A piece of fragment f
      lies inside a range q that f yields, and every cell of the piece
      takes q because q comes first among the ranges containing it. */
  predicate Supplied(its: Iterators, p: DenseCellRange)
  {
    if p.fragmentIdx == -1 then Uncovered(its, p.start, p.end)
    else
      0 <= p.fragmentIdx < |its|
      && exists q :: q in its[p.fragmentIdx] && q.lo <= p.start && p.end <= q.hi
           && forall c :: p.start <= c <= p.end ==> FirstCovering(its, p.fragmentIdx, q, c)
  }

  /** Every piece is supplied as the queue order says. */
  predicate Sourced(its0: Iterators, out: seq<DenseCellRange>)
  {
    forall k :: 0 <= k < |out| ==> Supplied(its0, out[k])
  }

  /** Each iterator has only moved forward. */
  predicate Advanced(its0: Iterators, its: Iterators)
  {
    |its| == |its0| && forall f {:trigger its[f], its0[f]} :: 0 <= f < |its| ==> IsSuffix(its[f], its0[f])
  }

  /** The first `n` ranges of `s` end before `start`. */
  predicate EndBefore(s: seq<Range>, n: int, start: int)
  {
    forall j :: 0 <= j < n && j < |s| ==> s[j].hi < start
  }

  /** Every range an iterator has moved past ends before `start`. */
  predicate Consumed(its0: Iterators, its: Iterators, start: int)
  {
    forall g :: 0 <= g < |its0| && g < |its| ==> EndBefore(its0[g], |its0[g]| - |its[g]|, start)
  }

  lemma PartitionCons(x: DenseCellRange, rest: seq<DenseCellRange>, b: int)
    requires x.start <= x.end && Partition(rest, x.end + 1, b)
    ensures Partition([x] + rest, x.start, b)
  {
    assert ([x] + rest)[1..] == rest;
  }

  lemma SourcedCons(its0: Iterators, x: DenseCellRange, rest: seq<DenseCellRange>)
    requires Supplied(its0, x) && Sourced(its0, rest)
    ensures Sourced(its0, [x] + rest)
  {
    assert forall k :: 0 < k < |rest| + 1 ==> ([x] + rest)[k] == rest[k - 1];
  }

  lemma SourcedSnoc(its0: Iterators, out: seq<DenseCellRange>, x: DenseCellRange)
    requires Sourced(its0, out) && Supplied(its0, x)
    ensures Sourced(its0, out + [x])
  {
  }

  lemma AdvancedStep(its0: Iterators, its: Iterators, f: nat)
    requires Advanced(its0, its) && f < |its| && its[f] != []
    ensures its[f][0] in its0[f]
    ensures Advanced(its0, Advance(its, f))
  {
    assert its[f] == its0[f][|its0[f]| - |its[f]|..];
    assert its[f][1..] == its0[f][|its0[f]| - |its[f]| + 1..];
  }

  /** The piece beginning at `start` that the top range `top` of fragment
      `f` gives, once `top` does not end before `start`. A top range
      starting past `end` ends the search with a fill piece up to `end`; one
      covering `start` gives a piece of fragment `f` up to the end of that
      range; otherwise the cells before the top range are filled. */
  function CutOf(top: Range, f: nat, start: int, end: int): (r: DenseCellRange)
    requires start <= end && start <= top.hi
    ensures r.start == start && start <= r.end <= end
  {
    if top.lo > end then DenseCellRange(-1, start, end)
    else if top.lo <= start then DenseCellRange(f, start, Min(end, top.hi))
    else DenseCellRange(-1, start, Min(end, top.lo - 1))
  }

  /** The piece cut from `top` uses it up, so its iterator moves on. */
  predicate UsesUp(top: Range, start: int, end: int)
  {
    top.lo <= start && top.hi <= end
  }

  /** One pass of the loop body once the top range `its[f][0]` does not
      end before `start`: the piece beginning at `start`, and whether the
      iterator of `f` moves on (`new_end == top.end_`). */
  method CutPiece(its: Iterators, f: nat, start: int, end: int)
    returns (piece: DenseCellRange, advanced: bool)
    requires f < |its| && its[f] != [] && start <= end && start <= its[f][0].hi
    ensures piece == CutOf(its[f][0], f, start, end) && advanced == UsesUp(its[f][0], start, end)
    ensures piece.start == start && start <= piece.end <= end
    ensures its[f][0].lo > end ==> piece == DenseCellRange(-1, start, end)
    ensures its[f][0].lo <= start ==> piece == DenseCellRange(f, start, Min(end, its[f][0].hi))
    ensures start < its[f][0].lo <= end ==> piece == DenseCellRange(-1, start, its[f][0].lo - 1)
    ensures advanced <==> its[f][0].lo <= start && its[f][0].hi <= end
  {
    var top := its[f][0];
    advanced := false;
    if top.lo > end {
      piece := DenseCellRange(-1, start, end);
    } else if top.lo <= start {
      var newEnd := Min(end, top.hi);
      piece := DenseCellRange(f, start, newEnd);
      advanced := newEnd == top.hi;
    } else {
      var newEnd := Min(end, top.lo - 1);
      piece := DenseCellRange(-1, start, newEnd);
    }
  }

  /** One pass of the loop over the queue whose top range `its[f][0]` does
      not end before `start`: the next piece is cut and the filled prefix
      grows, leaving the rest of the pieces to come. */
  method TakePiece(ghost its0: Iterators, its: Iterators, f: nat, out: seq<DenseCellRange>,
                   start: int, end: int)
    returns (its': Iterators, out': seq<DenseCellRange>, start': int)
    requires Live(its) && f == Top(its) && start <= end && start <= its[f][0].hi
    requires Advanced(its0, its)
    ensures start < start' <= end + 1
    ensures out' + CellRangesFrom(its', start', end) == out + CellRangesFrom(its, start, end)
    ensures Advanced(its0, its')
  {
    var piece, advanced := CutPiece(its, f, start, end);
    CellRangesFromCut(its, f, start, end);
    AdvancedStep(its0, its, f);
    out' := out + [piece];
    start' := piece.end + 1;
    if advanced {
      its' := Advance(its, f);
    } else {
      its' := its;
    }
    Regroup(out, piece, CellRangesFrom(its', start', end));
  }

  lemma Regroup(out: seq<DenseCellRange>, piece: DenseCellRange, rest: seq<DenseCellRange>)
    ensures (out + [piece]) + rest == out + ([piece] + rest)
  {
  }

  /** `CellRangesFrom` once the top range `its[f][0]` does not end before
      `start`: the piece cut from it, then the pieces from right after it. */
  lemma CellRangesFromCut(its: Iterators, f: nat, start: int, end: int)
    requires Live(its) && f == Top(its) && start <= end && start <= its[f][0].hi
    ensures UsesUp(its[f][0], start, end) ==>
              CellRangesFrom(its, start, end)
              == [CutOf(its[f][0], f, start, end)]
                 + CellRangesFrom(Advance(its, f), CutOf(its[f][0], f, start, end).end + 1, end)
    ensures !UsesUp(its[f][0], start, end) ==>
              CellRangesFrom(its, start, end)
              == [CutOf(its[f][0], f, start, end)]
                 + CellRangesFrom(its, CutOf(its[f][0], f, start, end).end + 1, end)
  {
  }

  /** `CellRangesFromCut` for a piece that uses up the top range. */
  lemma CellRangesFromUsedUpCut(its: Iterators, f: nat, start: int, end: int)
    requires Live(its) && f == Top(its) && start <= end && start <= its[f][0].hi
    requires UsesUp(its[f][0], start, end)
    ensures CellRangesFrom(its, start, end)
            == [CutOf(its[f][0], f, start, end)]
               + CellRangesFrom(Advance(its, f), CutOf(its[f][0], f, start, end).end + 1, end)
  {
    CellRangesFromCut(its, f, start, end);
  }

  /** `CellRangesFromCut` for a piece that ends inside the top range. */
  lemma CellRangesFromKeptCut(its: Iterators, f: nat, start: int, end: int)
    requires Live(its) && f == Top(its) && start <= end && start <= its[f][0].hi
    requires !UsesUp(its[f][0], start, end)
    ensures CellRangesFrom(its, start, end)
            == [CutOf(its[f][0], f, start, end)]
               + CellRangesFrom(its, CutOf(its[f][0], f, start, end).end + 1, end)
  {
    CellRangesFromCut(its, f, start, end);
  }

  /** One pass of the loop over the queue whose top range `its[f][0]` ends
      before `start`: the iterator of `f` moves on and the pieces to come
      stay the same. */
  method SkipTop(ghost its0: Iterators, its: Iterators, f: nat, start: int, end: int)
    returns (its': Iterators)
    requires Live(its) && f == Top(its) && its[f][0].hi < start <= end
    requires Advanced(its0, its)
    ensures its' == Advance(its, f) && Remaining(its') < Remaining(its)
    ensures CellRangesFrom(its', start, end) == CellRangesFrom(its, start, end)
    ensures Advanced(its0, its')
  {
    AdvancedStep(its0, its, f);
    RemainingAdvance(its, f);
    its' := Advance(its, f);
  }

  /** A range either ends before `start` or has not been moved past: it
      is then its iterator's current range or lies wholly after it. */
  lemma LiveRange(its0: Iterators, its: Iterators, start: int, g: nat, r: Range)
    requires Advanced(its0, its) && Consumed(its0, its, start) && AllAscending(its0)
    requires g < |its0| && r in its0[g]
    ensures r.hi < start
            || (its[g] != [] && its[g][0].lo <= its[g][0].hi && (r == its[g][0] || its[g][0].hi < r.lo))
  {
    var j :| 0 <= j < |its0[g]| && its0[g][j] == r;
    var d := |its0[g]| - |its[g]|;
    assert its[g] == its0[g][d..];
    if d <= j {
      assert its[g][0] == its0[g][d];
      AscendingApart(its0[g], d, j);
    }
  }

  /** Advancing an iterator whose current range ends before `start` keeps
      every moved-past range before `start`. */
  lemma ConsumedAdvance(its0: Iterators, its: Iterators, f: nat, start: int)
    requires Advanced(its0, its) && f < |its| && its[f] != [] && its[f][0].hi < start
    requires forall g :: 0 <= g < |its0| && g < |its| ==> EndBefore(its0[g], |its0[g]| - |its[g]|, start)
    ensures Consumed(its0, Advance(its, f), start)
  {
    var d := |its0[f]| - |its[f]|;
    assert its[f] == its0[f][d..];
    assert its[f][0] == its0[f][d];
  }

  lemma ConsumedLater(its0: Iterators, its: Iterators, start: int, start': int)
    requires Consumed(its0, its, start) && start <= start'
    ensures Consumed(its0, its, start')
  {
    forall g | 0 <= g < |its0| && g < |its| ensures EndBefore(its0[g], |its0[g]| - |its[g]|, start') {
      assert EndBefore(its0[g], |its0[g]| - |its[g]|, start);
    }
  }

  /** Once every iterator has ended, no range meets the cells from `start`
      on. */
  lemma ExhaustedUncovered(its0: Iterators, its: Iterators, start: int, end: int)
    requires Advanced(its0, its) && Consumed(its0, its, start) && AllAscending(its0) && !Live(its)
    ensures Uncovered(its0, start, end)
  {
    forall g, q | 0 <= g < |its0| && q in its0[g] ensures q.hi < start || end < q.lo {
      LiveRange(its0, its, start, g, q);
    }
  }

  /** The piece cut from the queue's top range is supplied as the queue
      order says: a fill piece ends before the top range starts, so it
      meets no range still to come, and a piece of the top fragment lies
      inside its current range, which precedes every other range still to
      come. */
  lemma PieceSupplied(its0: Iterators, its: Iterators, f: nat, start: int, piece: DenseCellRange)
    requires Advanced(its0, its) && Consumed(its0, its, start) && AllAscending(its0)
    requires f < |its| && its[f] != []
    requires forall g :: 0 <= g < |its| && its[g] != [] ==> Precedes(its, f, g)
    requires piece.start == start <= piece.end
    requires piece.fragmentIdx == -1 ==> piece.end < its[f][0].lo
    requires piece.fragmentIdx != -1 ==>
               piece.fragmentIdx == f && its[f][0].lo <= start && piece.end <= its[f][0].hi
    ensures Supplied(its0, piece)
  {
    var top := its[f][0];
    AdvancedStep(its0, its, f);
    if piece.fragmentIdx == -1 {
      forall g, q | 0 <= g < |its0| && q in its0[g] ensures q.hi < piece.start || piece.end < q.lo {
        if start <= q.hi {
          LiveRange(its0, its, start, g, q);
          assert Precedes(its, f, g);
        }
      }
    } else {
      forall c | piece.start <= c <= piece.end ensures FirstCovering(its0, f, top, c) {
        forall g, r | 0 <= g < |its0| && r in its0[g] && r.lo <= c <= r.hi
          ensures top.lo < r.lo || (top.lo == r.lo && f >= g)
        {
          LiveRange(its0, its, start, g, r);
          assert Precedes(its, f, g);
        }
      }
      assert top in its0[f] && top.lo <= piece.start && piece.end <= top.hi;
    }
  }

  /** `pq.top()`: the fragment whose current range comes first in the
      queue order. */
  method QueueTop(its: Iterators) returns (f: nat)
    requires Live(its)
    ensures f == Top(its) && f < |its| && its[f] != []
    ensures forall g :: 0 <= g < |its| && its[g] != [] ==> Precedes(its, f, g)
  {
    f := Top(its);
    forall g | 0 <= g < |its| && its[g] != [] ensures Precedes(its, f, g) {
      TopFirst(its, g);
    }
  }

  /** The pieces the loop over the queue cuts from [start, end], with the
      early stop marking the interval as filled once. */
  function CellRangesFrom(its: Iterators, start: int, end: int): seq<DenseCellRange>
    decreases end + 1 - start, Remaining(its)
  {
    if start > end then []
    else if !Live(its) then [DenseCellRange(-1, start, end)]
    else
      var f := Top(its);
      var top := its[f][0];
      if top.hi < start then
        RemainingAdvance(its, f);
        CellRangesFrom(Advance(its, f), start, end)
      else
        var piece := CutOf(top, f, start, end);
        if UsesUp(top, start, end) then [piece] + CellRangesFrom(Advance(its, f), piece.end + 1, end)
        else [piece] + CellRangesFrom(its, piece.end + 1, end)
  }

  /** The pieces cut from [start, end] partition it. */
  lemma {:induction false} CellRangesFromPartition(its: Iterators, start: int, end: int)
    requires start <= end + 1
    ensures Partition(CellRangesFrom(its, start, end), start, end)
    decreases end + 1 - start, Remaining(its)
  {
    if start <= end {
      if !Live(its) {
        PartitionCons(DenseCellRange(-1, start, end), [], end);
      } else {
        var f := Top(its);
        if its[f][0].hi < start {
          RemainingAdvance(its, f);
          CellRangesFromPartition(Advance(its, f), start, end);
        } else {
          var piece := CutOf(its[f][0], f, start, end);
          CellRangesFromCut(its, f, start, end);
          if UsesUp(its[f][0], start, end) {
            CellRangesFromPartition(Advance(its, f), piece.end + 1, end);
            PartitionCons(piece, CellRangesFrom(Advance(its, f), piece.end + 1, end), end);
          } else {
            CellRangesFromPartition(its, piece.end + 1, end);
            PartitionCons(piece, CellRangesFrom(its, piece.end + 1, end), end);
          }
        }
      }
    }
  }

  /** From iterators that have moved past only ranges ending before
      `start`, every piece is supplied as the queue order says. */
  lemma {:induction false} CellRangesFromPiece(its0: Iterators, its: Iterators, start: int, end: int, k: nat)
    requires AllAscending(its0) && Advanced(its0, its) && Consumed(its0, its, start)
    requires k < |CellRangesFrom(its, start, end)|
    ensures Supplied(its0, CellRangesFrom(its, start, end)[k])
    decreases end + 1 - start, Remaining(its), 3
  {
    if !Live(its) {
      ExhaustedUncovered(its0, its, start, end);
    } else if its[Top(its)][0].hi < start {
      SkipPiece(its0, its, Top(its), start, end, k);
    } else if k == 0 {
      FirstPiece(its0, its, Top(its), start, end);
    } else {
      LaterPiece(its0, its, Top(its), start, end, k);
    }
  }

  /** `CellRangesFromPiece` when the top range ends before `start`. */
  lemma {:induction false} SkipPiece(its0: Iterators, its: Iterators, f: nat, start: int, end: int, k: nat)
    requires AllAscending(its0) && Advanced(its0, its) && Consumed(its0, its, start)
    requires Live(its) && f == Top(its) && its[f][0].hi < start
    requires k < |CellRangesFrom(its, start, end)|
    ensures Supplied(its0, CellRangesFrom(its, start, end)[k])
    decreases end + 1 - start, Remaining(its), 1
  {
    CellRangesFromSkip(its, f, start, end);
    ShiftSkipped(its0, its, f, start, end, k);
  }

  /** `CellRangesFromPiece` from the iterators without a top range that
      ends before `start`. */
  lemma {:induction false} ShiftSkipped(its0: Iterators, its: Iterators, f: nat, start: int, end: int, k: nat)
    requires AllAscending(its0) && Advanced(its0, its) && Consumed(its0, its, start)
    requires f < |its| && its[f] != [] && its[f][0].hi < start
    requires k < |CellRangesFrom(Advance(its, f), start, end)|
    ensures Supplied(its0, CellRangesFrom(Advance(its, f), start, end)[k])
    decreases end + 1 - start, Remaining(its), 0
  {
    AdvancedStep(its0, its, f);
    ConsumedAdvance(its0, its, f, start);
    RemainingAdvance(its, f);
    CellRangesFromPiece(its0, Advance(its, f), start, end, k);
  }

  /** `CellRangesFromPiece` for the piece cut from the top range. */
  lemma FirstPiece(its0: Iterators, its: Iterators, f: nat, start: int, end: int)
    requires AllAscending(its0) && Advanced(its0, its) && Consumed(its0, its, start)
    requires Live(its) && f == Top(its) && start <= its[f][0].hi
    requires 0 < |CellRangesFrom(its, start, end)|
    ensures Supplied(its0, CellRangesFrom(its, start, end)[0])
  {
    var g := QueueTopFirst(its);
    CellRangesFromHead(its, f, start, end);
    PieceSupplied(its0, its, f, start, CutOf(its[f][0], f, start, end));
  }

  /** `CellRangesFromPiece` for a piece after the one cut from the top
      range. */
  lemma {:induction false} LaterPiece(its0: Iterators, its: Iterators, f: nat, start: int, end: int, k: nat)
    requires AllAscending(its0) && Advanced(its0, its) && Consumed(its0, its, start)
    requires Live(its) && f == Top(its) && start <= its[f][0].hi
    requires 0 < k < |CellRangesFrom(its, start, end)|
    ensures Supplied(its0, CellRangesFrom(its, start, end)[k])
    decreases end + 1 - start, Remaining(its), 2
  {
    if UsesUp(its[f][0], start, end) {
      UsedUpPiece(its0, its, f, start, end, k);
    } else {
      KeptPiece(its0, its, f, start, end, k);
    }
  }

  /** `LaterPiece` when the cut piece uses up the top range. */
  lemma {:induction false} UsedUpPiece(its0: Iterators, its: Iterators, f: nat, start: int, end: int, k: nat)
    requires AllAscending(its0) && Advanced(its0, its) && Consumed(its0, its, start)
    requires Live(its) && f == Top(its) && start <= its[f][0].hi && UsesUp(its[f][0], start, end)
    requires 0 < k < |CellRangesFrom(its, start, end)|
    ensures Supplied(its0, CellRangesFrom(its, start, end)[k])
    decreases end + 1 - start, Remaining(its), 1
  {
    var next := CutOf(its[f][0], f, start, end).end + 1;
    CellRangesFromUsedUp(its, f, start, end, k);
    ShiftUsedUp(its0, its, f, start, next, end, k - 1);
  }

  /** `LaterPiece` when the top range outlasts the cut piece. */
  lemma {:induction false} KeptPiece(its0: Iterators, its: Iterators, f: nat, start: int, end: int, k: nat)
    requires AllAscending(its0) && Advanced(its0, its) && Consumed(its0, its, start)
    requires Live(its) && f == Top(its) && start <= its[f][0].hi && !UsesUp(its[f][0], start, end)
    requires 0 < k < |CellRangesFrom(its, start, end)|
    ensures Supplied(its0, CellRangesFrom(its, start, end)[k])
    decreases end + 1 - start, Remaining(its), 1
  {
    var next := CutOf(its[f][0], f, start, end).end + 1;
    CellRangesFromKept(its, f, start, end, k);
    ShiftKept(its0, its, start, next, end, k - 1);
  }

  /** `CellRangesFromPiece` past a piece that uses up the top range, from
      the iterators without it. */
  lemma {:induction false} ShiftUsedUp(its0: Iterators, its: Iterators, f: nat, start: int, next: int, end: int, k: nat)
    requires AllAscending(its0) && Advanced(its0, its) && Consumed(its0, its, start)
    requires f < |its| && its[f] != [] && its[f][0].hi < next && start < next <= end + 1
    requires k < |CellRangesFrom(Advance(its, f), next, end)|
    ensures Supplied(its0, CellRangesFrom(Advance(its, f), next, end)[k])
    decreases end + 1 - start, Remaining(its), 0
  {
    ConsumedUsedUp(its0, its, f, start, next);
    CellRangesFromPiece(its0, Advance(its, f), next, end, k);
  }

  /** `CellRangesFromPiece` past a piece that ends inside the top range. */
  lemma {:induction false} ShiftKept(its0: Iterators, its: Iterators, start: int, next: int, end: int, k: nat)
    requires AllAscending(its0) && Advanced(its0, its) && Consumed(its0, its, start)
    requires start < next <= end + 1
    requires k < |CellRangesFrom(its, next, end)|
    ensures Supplied(its0, CellRangesFrom(its, next, end)[k])
    decreases end + 1 - start, Remaining(its), 0
  {
    ConsumedLater(its0, its, start, next);
    CellRangesFromPiece(its0, its, next, end, k);
  }

  /** Dropping the top range, once the cells before `next` are all past it,
      keeps the iterators advanced and consumed up to `next`. */
  lemma ConsumedUsedUp(its0: Iterators, its: Iterators, f: nat, start: int, next: int)
    requires Advanced(its0, its) && Consumed(its0, its, start)
    requires f < |its| && its[f] != [] && its[f][0].hi < next && start <= next
    ensures Advanced(its0, Advance(its, f)) && Consumed(its0, Advance(its, f), next)
  {
    AdvancedStep(its0, its, f);
    ConsumedLater(its0, its, start, next);
    ConsumedAdvance(its0, its, f, next);
  }

  /** A top range ending before `start` is dropped without a piece. */
  lemma CellRangesFromSkip(its: Iterators, f: nat, start: int, end: int)
    requires Live(its) && f == Top(its) && its[f][0].hi < start <= end
    ensures CellRangesFrom(its, start, end) == CellRangesFrom(Advance(its, f), start, end)
  {
  }

  /** Once the top range does not end before `start`, the first piece of
      `CellRangesFrom` is the one cut from it. */
  lemma CellRangesFromHead(its: Iterators, f: nat, start: int, end: int)
    requires Live(its) && f == Top(its) && start <= end && start <= its[f][0].hi
    ensures 0 < |CellRangesFrom(its, start, end)|
    ensures CellRangesFrom(its, start, end)[0] == CutOf(its[f][0], f, start, end)
  {
    CellRangesFromCut(its, f, start, end);
  }

  /** Piece `k > 0` of `CellRangesFrom` after a piece that uses up the top
      range is piece `k - 1` from just past it, without that range. */
  lemma CellRangesFromUsedUp(its: Iterators, f: nat, start: int, end: int, k: nat)
    requires Live(its) && f == Top(its) && start <= its[f][0].hi
    requires UsesUp(its[f][0], start, end) && 0 < k < |CellRangesFrom(its, start, end)|
    ensures k - 1 < |CellRangesFrom(Advance(its, f), CutOf(its[f][0], f, start, end).end + 1, end)|
    ensures CellRangesFrom(its, start, end)[k]
            == CellRangesFrom(Advance(its, f), CutOf(its[f][0], f, start, end).end + 1, end)[k - 1]
  {
    CellRangesFromCut(its, f, start, end);
  }

  /** Piece `k > 0` of `CellRangesFrom` after a piece that ends inside the
      top range is piece `k - 1` from just past it. */
  lemma CellRangesFromKept(its: Iterators, f: nat, start: int, end: int, k: nat)
    requires Live(its) && f == Top(its) && start <= its[f][0].hi
    requires !UsesUp(its[f][0], start, end) && 0 < k < |CellRangesFrom(its, start, end)|
    ensures k - 1 < |CellRangesFrom(its, CutOf(its[f][0], f, start, end).end + 1, end)|
    ensures CellRangesFrom(its, start, end)[k]
            == CellRangesFrom(its, CutOf(its[f][0], f, start, end).end + 1, end)[k - 1]
  {
    CellRangesFromCut(its, f, start, end);
  }

  /** The iterators as the loop starts give pieces that partition [start,
      end], each supplied as the queue order says. */
  lemma CellRangesFromSupplied(its0: Iterators, start: int, end: int)
    requires start <= end + 1 && AllAscending(its0)
    ensures Partition(CellRangesFrom(its0, start, end), start, end)
    ensures Sourced(its0, CellRangesFrom(its0, start, end))
  {
    CellRangesFromPartition(its0, start, end);
    forall k | 0 <= k < |CellRangesFrom(its0, start, end)|
      ensures Supplied(its0, CellRangesFrom(its0, start, end)[k])
    {
      assert Advanced(its0, its0) by {
        forall g | 0 <= g < |its0| ensures IsSuffix(its0[g], its0[g]) {
          assert its0[g][0..] == its0[g];
        }
      }
      CellRangesFromPiece(its0, its0, start, end, k);
    }
  }

  /** The top fragment and its precedence, for use in proofs. */
  lemma QueueTopFirst(its: Iterators) returns (f: nat)
    requires Live(its)
    ensures f == Top(its) && f < |its| && its[f] != []
    ensures forall g :: 0 <= g < |its| && its[g] != [] ==> Precedes(its, f, g)
  {
    f := Top(its);
    forall g | 0 <= g < |its| && its[g] != [] ensures Precedes(its, f, g) {
      TopFirst(its, g);
    }
  }

  /** Cuts [start, end] into pieces, as the loop over the queue does, with
      the early stop also marking the interval as filled. It returns the
      pieces and the iterators as the loop leaves them. */
  method ComputeDenseCellRanges(its0: Iterators, start0: int, end: int)
    returns (out: seq<DenseCellRange>, its: Iterators)
    requires start0 <= end
    requires AllAscending(its0)
    ensures out == CellRangesFrom(its0, start0, end)
    ensures Partition(out, start0, end)
    ensures Sourced(its0, out)
    ensures Advanced(its0, its)
  {
    its := its0;
    out := [];
    var start := start0;
    while Live(its) && start <= end
      invariant start0 <= start <= end + 1
      invariant out + CellRangesFrom(its, start, end) == CellRangesFrom(its0, start0, end)
      invariant Advanced(its0, its)
      decreases end + 1 - start, Remaining(its)
    {
      var f := QueueTop(its);
      if its[f][0].hi < start {
        its := SkipTop(its0, its, f, start, end);
      } else {
        its, out, start := TakePiece(its0, its, f, out, start, end);
      }
    }
    if start <= end {
      assert CellRangesFrom(its, start, end) == [DenseCellRange(-1, start, end)];
      out := out + [DenseCellRange(-1, start, end)];
    } else {
      assert out == CellRangesFrom(its0, start0, end);
    }
    CellRangesFromSupplied(its0, start0, end);
  }

  /** The loop exactly as the source writes it: the early stop on a range
      starting past `end` emits [start, end] without advancing `start`, so
      the final "not yet filled" check emits it again. */
  function DenseCellRangesAsWritten(its: Iterators, start: int, end: int): seq<DenseCellRange>
    requires start <= end
    decreases end + 1 - start, Remaining(its)
  {
    if !Live(its) then [DenseCellRange(-1, start, end)]
    else
      var f := Top(its);
      var top := its[f][0];
      if top.hi < start then
        RemainingAdvance(its, f);
        DenseCellRangesAsWritten(Advance(its, f), start, end)
      else if top.lo > end then
        [DenseCellRange(-1, start, end), DenseCellRange(-1, start, end)]
      else if top.lo <= start then
        var newEnd := Min(end, top.hi);
        if newEnd + 1 > end then [DenseCellRange(f, start, newEnd)]
        else
          // newEnd < end, so newEnd == top.hi and the iterator moves on
          RemainingAdvance(its, f);
          [DenseCellRange(f, start, newEnd)] + DenseCellRangesAsWritten(Advance(its, f), newEnd + 1, end)
      else
        var newEnd := Min(end, top.lo - 1);
        if newEnd + 1 > end then [DenseCellRange(-1, start, newEnd)]
        else [DenseCellRange(-1, start, newEnd)] + DenseCellRangesAsWritten(its, newEnd + 1, end)
  }

  /** One fragment whose only range [5, 9] starts after the interval [0, 3]:
      the source emits the fill range [0, 3] twice, so the pieces no longer
      partition the interval. */
  lemma AsWrittenEmitsTwice()
    ensures DenseCellRangesAsWritten([[Range(5, 9)]], 0, 3)
            == [DenseCellRange(-1, 0, 3), DenseCellRange(-1, 0, 3)]
    ensures !Partition(DenseCellRangesAsWritten([[Range(5, 9)]], 0, 3), 0, 3)
  {
    var its: Iterators := [[Range(5, 9)]];
    assert Live(its) by { assert its[0] != []; }
    assert Top(its) == 0;
    var out := [DenseCellRange(-1, 0, 3), DenseCellRange(-1, 0, 3)];
    assert out[1..] == [DenseCellRange(-1, 0, 3)];
  }

  /** The pieces as written are the pieces of `CellRangesFrom`, with at most
      a repeat of the last one: the repeat is the only difference. */
  lemma {:induction false} AsWrittenRepeatsLast(its: Iterators, start: int, end: int)
    requires start <= end
    ensures RepeatsLast(DenseCellRangesAsWritten(its, start, end), CellRangesFrom(its, start, end))
    decreases end + 1 - start, Remaining(its), 1
  {
    if Live(its) {
      var f := Top(its);
      if its[f][0].hi < start {
        RemainingAdvance(its, f);
        AsWrittenRepeatsLast(Advance(its, f), start, end);
      } else if its[f][0].lo > end {
        CellRangesFromCut(its, f, start, end);
        assert CellRangesFrom(its, start, end) == [DenseCellRange(-1, start, end)];
      } else if CutOf(its[f][0], f, start, end).end == end {
        AsWrittenLast(its, f, start, end);
      } else if UsesUp(its[f][0], start, end) {
        AsWrittenUsedUp(its, f, start, end);
      } else {
        AsWrittenFilled(its, f, start, end);
      }
    }
  }

  /** `written` is `r`, or `r` with its last element repeated. */
  predicate RepeatsLast(written: seq<DenseCellRange>, r: seq<DenseCellRange>)
  {
    0 < |r| && (written == r || written == r + [r[|r| - 1]])
  }

  /** Putting the same piece in front of both keeps `RepeatsLast`. */
  lemma RepeatsLastCons(p: DenseCellRange, written: seq<DenseCellRange>, r: seq<DenseCellRange>,
                        written': seq<DenseCellRange>, r': seq<DenseCellRange>)
    requires written == [p] + written' && r == [p] + r' && RepeatsLast(written', r')
    ensures RepeatsLast(written, r)
  {
    assert r[|r| - 1] == r'[|r'| - 1];
    assert [p] + (r' + [r'[|r'| - 1]]) == r + [r[|r| - 1]];
  }

  /** A piece cut from the top range that reaches `end` is the last piece,
      as written and in `CellRangesFrom`. */
  lemma AsWrittenLast(its: Iterators, f: nat, start: int, end: int)
    requires Live(its) && f == Top(its) && start <= end && start <= its[f][0].hi
    requires its[f][0].lo <= end && CutOf(its[f][0], f, start, end).end == end
    ensures DenseCellRangesAsWritten(its, start, end) == [CutOf(its[f][0], f, start, end)]
    ensures CellRangesFrom(its, start, end) == [CutOf(its[f][0], f, start, end)]
  {
    CellRangesFromCut(its, f, start, end);
  }

  /** `AsWrittenRepeatsLast` past a piece that uses up the top range and
      ends before `end`. */
  lemma {:induction false} AsWrittenUsedUp(its: Iterators, f: nat, start: int, end: int)
    requires Live(its) && f == Top(its) && start <= end && start <= its[f][0].hi
    requires UsesUp(its[f][0], start, end) && CutOf(its[f][0], f, start, end).end < end
    ensures RepeatsLast(DenseCellRangesAsWritten(its, start, end), CellRangesFrom(its, start, end))
    decreases end + 1 - start, Remaining(its), 0
  {
    var piece := CutOf(its[f][0], f, start, end);
    var next := piece.end + 1;
    CellRangesFromUsedUpCut(its, f, start, end);
    AsWrittenUsedUpStep(its, f, start, end);
    AsWrittenRepeatsLast(Advance(its, f), next, end);
    RepeatsLastCons(piece, DenseCellRangesAsWritten(its, start, end), CellRangesFrom(its, start, end),
      DenseCellRangesAsWritten(Advance(its, f), next, end), CellRangesFrom(Advance(its, f), next, end));
  }

  /** `AsWrittenRepeatsLast` past a fill piece that ends before `end`. */
  lemma {:induction false} AsWrittenFilled(its: Iterators, f: nat, start: int, end: int)
    requires Live(its) && f == Top(its) && start <= end && start <= its[f][0].hi
    requires !UsesUp(its[f][0], start, end) && CutOf(its[f][0], f, start, end).end < end
    ensures RepeatsLast(DenseCellRangesAsWritten(its, start, end), CellRangesFrom(its, start, end))
    decreases end + 1 - start, Remaining(its), 0
  {
    var piece := CutOf(its[f][0], f, start, end);
    var next := piece.end + 1;
    CellRangesFromKeptCut(its, f, start, end);
    AsWrittenFilledStep(its, f, start, end);
    AsWrittenRepeatsLast(its, next, end);
    RepeatsLastCons(piece, DenseCellRangesAsWritten(its, start, end), CellRangesFrom(its, start, end),
      DenseCellRangesAsWritten(its, next, end), CellRangesFrom(its, next, end));
  }

  /** As written, a piece that uses up the top range and ends before `end`
      is followed by the pieces from right after it, without that range. */
  lemma AsWrittenUsedUpStep(its: Iterators, f: nat, start: int, end: int)
    requires Live(its) && f == Top(its) && start <= end && start <= its[f][0].hi
    requires UsesUp(its[f][0], start, end) && CutOf(its[f][0], f, start, end).end < end
    ensures Remaining(Advance(its, f)) < Remaining(its)
    ensures DenseCellRangesAsWritten(its, start, end)
            == [CutOf(its[f][0], f, start, end)]
               + DenseCellRangesAsWritten(Advance(its, f), CutOf(its[f][0], f, start, end).end + 1, end)
  {
    RemainingAdvance(its, f);
  }

  /** As written, a fill piece that ends before `end` is followed by the
      pieces from right after it. */
  lemma AsWrittenFilledStep(its: Iterators, f: nat, start: int, end: int)
    requires Live(its) && f == Top(its) && start <= end && start <= its[f][0].hi
    requires !UsesUp(its[f][0], start, end) && CutOf(its[f][0], f, start, end).end < end
    ensures DenseCellRangesAsWritten(its, start, end)
            == [CutOf(its[f][0], f, start, end)]
               + DenseCellRangesAsWritten(its, CutOf(its[f][0], f, start, end).end + 1, end)
  {
  }
}
