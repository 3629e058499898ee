/** The bytes a read query copies into the caller's result buffers for one
    attribute: for each cell range, either the cells of a tile or, for a
    range no fragment covers, the fill value of the attribute's type. A
    fixed-size attribute fills one buffer; a variable-sized one fills an
    offsets buffer (one 8-byte offset per cell into the values buffer) and
    a values buffer. */
module CellCopy {
  import opened Common
  import opened QuerySchema

  /** The tiles of one attribute inside an overlapping tile: `data` holds
      fixed-size cells; for variable-sized cells `offsets` holds the
      offset of each cell's values (the contents of the offsets tile) and
      `varData` the values. */
  datatype AttrTile = AttrTile(data: seq<byte>, offsets: seq<nat>, varData: seq<byte>)

  /** A tile together with the tiles of every attribute read from it. */
  datatype OverlappingTile = OverlappingTile(attrTiles: map<string, AttrTile>)

  /** Cells `start..end` (inclusive) of `tile`; with no tile the range is
      empty and is filled. */
  datatype CellRange = CellRange(tile: Option<OverlappingTile>, start: nat, end: nat)

  /** Size in bytes of a fixed-size cell. */
  function CellSize(a: Attribute): nat
  {
    a.cellValNum * |a.fill|
  }

  function CellNum(r: CellRange): nat
    requires r.start <= r.end
  {
    r.end - r.start + 1
  }

  lemma MulAssoc(a: nat, b: nat, c: nat)
    ensures (a * b) * c == a * (b * c)
  {
  }

  lemma MulAddRight(a: nat, b: nat, c: nat)
    ensures a * c + b * c == (a + b) * c
  {
  }

  lemma MulLe(f: nat, x: nat, y: nat)
    requires x <= y
    ensures f * x <= f * y
  {
    assert f * y == f * x + f * (y - x);
  }

  /** Division exactly undoes a multiplication. */
  lemma MulDivCancel(a: nat, f: nat)
    requires f > 0
    ensures (a * f) / f == a
  {
    var q := (a * f) / f;
    var r := (a * f) % f;
    assert a * f == f * q + r && 0 <= r < f;
    if q < a {
      MulLe(f, q + 1, a);
      assert false;
    } else if q > a {
      MulLe(f, a + 1, q);
      assert false;
    }
  }

  // ---------------------------------------------------------------------
  // Fixed-size cells
  // ---------------------------------------------------------------------

  /** A range the copy can read: a tile range names a tile that holds the
      attribute and all cells of the range. */
  predicate FixedRangeOk(name: string, a: Attribute, r: CellRange)
  {
    && r.start <= r.end
    && (r.tile.Some? ==>
          name in r.tile.value.attrTiles
          && (r.end + 1) * CellSize(a) <= |r.tile.value.attrTiles[name].data|)
  }

  predicate FixedRangesOk(name: string, a: Attribute, ranges: seq<CellRange>)
  {
    forall k :: 0 <= k < |ranges| ==> FixedRangeOk(name, a, ranges[k])
  }

  /** The bytes one range contributes: the range's cells of the tile, or
      as many fill values as the range's cells hold values. */
  function FixedRangeBytes(name: string, a: Attribute, r: CellRange): (b: seq<byte>)
    requires FixedRangeOk(name, a, r)
    ensures |b| == CellNum(r) * CellSize(a)
  {
    MulAssoc(CellNum(r), a.cellValNum, |a.fill|);
    RepeatLength(a.fill, CellNum(r) * a.cellValNum);
    if r.tile.None? then Repeat(a.fill, CellNum(r) * a.cellValNum)
    else
      var cs := CellSize(a);
      MulAddRight(r.start, CellNum(r), cs);
      r.tile.value.attrTiles[name].data[r.start * cs .. r.start * cs + CellNum(r) * cs]
  }

  /** Everything the ranges contribute, range after range. */
  function FixedImage(name: string, a: Attribute, ranges: seq<CellRange>): seq<byte>
    requires FixedRangesOk(name, a, ranges)
  {
    if ranges == [] then []
    else FixedImage(name, a, ranges[..|ranges| - 1]) + FixedRangeBytes(name, a, ranges[|ranges| - 1])
  }

  lemma FixedImageSnoc(name: string, a: Attribute, ranges: seq<CellRange>, i: nat)
    requires FixedRangesOk(name, a, ranges) && i < |ranges|
    ensures FixedRangesOk(name, a, ranges[..i]) && FixedRangesOk(name, a, ranges[..i + 1])
    ensures FixedImage(name, a, ranges[..i + 1]) == FixedImage(name, a, ranges[..i]) + FixedRangeBytes(name, a, ranges[i])
  {
    assert ranges[..i + 1][..i] == ranges[..i];
  }

  /** The image holds `CellSize` bytes per cell: the size the buffer-size
      update reports. */
  lemma {:induction false} FixedImageLength(name: string, a: Attribute, ranges: seq<CellRange>)
    requires FixedRangesOk(name, a, ranges)
    ensures |FixedImage(name, a, ranges)| == TotalCells(ranges) * CellSize(a)
    decreases |ranges|
  {
    if ranges != [] {
      var init := ranges[..|ranges| - 1];
      assert FixedRangesOk(name, a, init);
      assert TotalCellsOk(init);
      FixedImageLength(name, a, init);
      MulAddRight(TotalCells(init), CellNum(ranges[|ranges| - 1]), CellSize(a));
    }
  }

  predicate TotalCellsOk(ranges: seq<CellRange>)
  {
    forall k :: 0 <= k < |ranges| ==> ranges[k].start <= ranges[k].end
  }

  function TotalCells(ranges: seq<CellRange>): nat
    requires TotalCellsOk(ranges)
  {
    if ranges == [] then 0
    else TotalCells(ranges[..|ranges| - 1]) + CellNum(ranges[|ranges| - 1])
  }

  /** The image of a prefix of the ranges is a prefix of the image. */
  lemma {:induction false} FixedImagePrefix(name: string, a: Attribute, ranges: seq<CellRange>, k: nat)
    requires FixedRangesOk(name, a, ranges) && k <= |ranges|
    ensures FixedRangesOk(name, a, ranges[..k])
    ensures |FixedImage(name, a, ranges[..k])| <= |FixedImage(name, a, ranges)|
    ensures FixedImage(name, a, ranges)[..|FixedImage(name, a, ranges[..k])|] == FixedImage(name, a, ranges[..k])
    decreases |ranges|
  {
    if k < |ranges| {
      var init := ranges[..|ranges| - 1];
      assert init[..k] == ranges[..k];
      FixedImagePrefix(name, a, init, k);
    } else {
      assert ranges[..k] == ranges;
    }
  }

  /** Range `k` is the first whose bytes do not fit in `cap`. */
  predicate OverflowsAt(name: string, a: Attribute, ranges: seq<CellRange>, k: nat, cap: nat)
    requires FixedRangesOk(name, a, ranges)
  {
    k < |ranges|
    && |FixedImage(name, a, ranges[..k])| <= cap
    && cap < |FixedImage(name, a, ranges[..k])| + CellNum(ranges[k]) * CellSize(a)
  }

  /** The bytes of one range at `at`: the fill value once per value of
      the range's cells, or one memcpy of the range's cells of the tile. */
  method CopyFixedRange(buffer: array<byte>, at: nat, name: string, a: Attribute, r: CellRange)
    requires FixedRangeOk(name, a, r) && |a.fill| > 0
    requires at + CellNum(r) * CellSize(a) <= buffer.Length
    modifies buffer
    ensures buffer[..] == Splice(old(buffer[..]), at, FixedRangeBytes(name, a, r))
  {
    var cs := CellSize(a);
    var bytes := CellNum(r) * cs;
    if r.tile.None? {
      MulAssoc(CellNum(r), a.cellValNum, |a.fill|);
      MulDivCancel(CellNum(r) * a.cellValNum, |a.fill|);
      var fillNum := bytes / |a.fill|;
      RepeatLength(a.fill, fillNum);
      CopyFill(buffer, at, a.fill, fillNum);
    } else {
      var data := r.tile.value.attrTiles[name].data;
      MulAddRight(r.start, CellNum(r), cs);
      Memcpy(buffer, at, data[r.start * cs .. r.start * cs + bytes]);
    }
  }

  /** The fixed-size copy loop: before each range it checks that the
      range's bytes fit in `cap`; `ok` is false at the first that does
      not, with the ranges before it already written. */
  method CopyFixedRanges(buffer: array<byte>, cap: nat, name: string, a: Attribute, ranges: seq<CellRange>)
    returns (ok: bool, size: nat)
    requires FixedRangesOk(name, a, ranges) && |a.fill| > 0 && cap <= buffer.Length
    modifies buffer
    ensures ok <==> |FixedImage(name, a, ranges)| <= cap
    ensures ok ==> size == |FixedImage(name, a, ranges)|
    ensures ok ==> buffer[..] == Splice(old(buffer[..]), 0, FixedImage(name, a, ranges))
    ensures !ok ==> exists k: nat :: OverflowsAt(name, a, ranges, k, cap)
                     && buffer[..] == Splice(old(buffer[..]), 0, FixedImage(name, a, ranges[..k]))
  {
    ghost var b0 := buffer[..];
    var offset := 0;
    var i := 0;
    assert ranges[..0] == [];
    while i < |ranges|
      invariant i <= |ranges| && FixedRangesOk(name, a, ranges[..i])
      invariant offset == |FixedImage(name, a, ranges[..i])| <= cap
      invariant buffer[..] == Splice(b0, 0, FixedImage(name, a, ranges[..i]))
    {
      var r := ranges[i];
      var bytes := CellNum(r) * CellSize(a);
      FixedImageSnoc(name, a, ranges, i);
      FixedImagePrefix(name, a, ranges, i + 1);
      if offset + bytes > cap {
        assert OverflowsAt(name, a, ranges, i, cap);
        return false, offset;
      }
      CopyFixedRange(buffer, offset, name, a, r);
      SpliceAppend(b0, FixedImage(name, a, ranges[..i]), FixedRangeBytes(name, a, r));
      offset := offset + bytes;
      i := i + 1;
    }
    assert ranges[..i] == ranges;
    return true, offset;
  }

  /** `n` memcpys of `fill` at `at`, `at + |fill|`, ... */
  method CopyFill(buffer: array<byte>, at: nat, fill: seq<byte>, n: nat)
    requires at + |Repeat(fill, n)| <= buffer.Length
    modifies buffer
    ensures buffer[..] == Splice(old(buffer[..]), at, Repeat(fill, n))
  {
    var i := 0;
    var offset := at;
    while i < n
      invariant 0 <= i <= n && offset == at + |Repeat(fill, i)| <= at + |Repeat(fill, n)|
      invariant buffer[..] == Splice(old(buffer[..]), at, Repeat(fill, i))
    {
      RepeatGrows(fill, i + 1, n);
      assert Repeat(fill, i + 1) == Repeat(fill, i) + fill;
      Memcpy(buffer, offset, fill);
      SpliceAt(old(buffer[..]), at, Repeat(fill, i), fill);
      offset := offset + |fill|;
      i := i + 1;
    }
  }

  lemma SpliceAt(s: seq<byte>, at: nat, a: seq<byte>, b: seq<byte>)
    requires at + |a| + |b| <= |s|
    ensures Splice(Splice(s, at, a), at + |a|, b) == Splice(s, at, a + b)
  {
  }

  lemma {:induction false} RepeatGrows(fill: seq<byte>, i: nat, n: nat)
    requires i <= n
    ensures |Repeat(fill, i)| <= |Repeat(fill, n)|
    decreases n - i
  {
    if i < n {
      RepeatGrows(fill, i, n - 1);
    }
  }

  // ---------------------------------------------------------------------
  // Variable-sized cells
  // ---------------------------------------------------------------------

  /** A variable-sized tile whose offsets ascend from the first one and
      stay within its values. */
  predicate VarTileOk(t: AttrTile)
  {
    && |t.offsets| > 0
    && (forall i, j :: 0 <= i <= j < |t.offsets| ==> t.offsets[i] <= t.offsets[j])
    && t.offsets[|t.offsets| - 1] - t.offsets[0] <= |t.varData|
  }

  /** Size of the values of cell `i`: up to the next cell's offset, and
      for the last cell up to the end of the values tile. */
  function CellVarSize(t: AttrTile, i: nat): nat
    requires VarTileOk(t) && i < |t.offsets|
  {
    if i != |t.offsets| - 1 then t.offsets[i + 1] - t.offsets[i]
    else |t.varData| - (t.offsets[i] - t.offsets[0])
  }

  /** The values of cell `i`, read relative to the first cell's offset. */
  function TileCell(t: AttrTile, i: nat): (v: seq<byte>)
    requires VarTileOk(t) && i < |t.offsets|
    ensures |v| == CellVarSize(t, i)
  {
    var at := t.offsets[i] - t.offsets[0];
    if i != |t.offsets| - 1 then
      assert t.offsets[i + 1] <= t.offsets[|t.offsets| - 1];
      t.varData[at .. at + CellVarSize(t, i)]
    else t.varData[at .. at + CellVarSize(t, i)]
  }

  /** The values of cells `0..k` back to back are the tile's first values
      up to cell `k`'s offset, and all cells together are the whole values
      tile: the size formula neither loses nor repeats a byte. */
  lemma {:induction false} TileCellsTile(t: AttrTile, k: nat)
    requires VarTileOk(t) && k <= |t.offsets|
    ensures Flatten(seq(k, i requires 0 <= i < k => TileCell(t, i)))
            == t.varData[.. if k < |t.offsets| then t.offsets[k] - t.offsets[0] else |t.varData|]
    decreases k
  {
    var cells := seq(k, i requires 0 <= i < k => TileCell(t, i));
    if k > 0 {
      TileCellsTile(t, k - 1);
      assert cells[..k - 1] == seq(k - 1, i requires 0 <= i < k - 1 => TileCell(t, i));
      assert t.offsets[k - 1] <= t.offsets[|t.offsets| - 1];
    }
  }

  predicate VarRangeOk(name: string, r: CellRange)
  {
    && r.start <= r.end
    && (r.tile.Some? ==>
          name in r.tile.value.attrTiles
          && VarTileOk(r.tile.value.attrTiles[name])
          && r.end < |r.tile.value.attrTiles[name].offsets|)
  }

  predicate VarRangesOk(name: string, ranges: seq<CellRange>)
  {
    forall k :: 0 <= k < |ranges| ==> VarRangeOk(name, ranges[k])
  }

  /** The values of each cell of a range: one fill value per cell of an
      empty range, the tile's cells otherwise. */
  function RangeCells(name: string, fill: seq<byte>, r: CellRange): (cells: seq<seq<byte>>)
    requires VarRangeOk(name, r)
    ensures |cells| == CellNum(r)
  {
    if r.tile.None? then FillCells(fill, CellNum(r))
    else TileCells(r.tile.value.attrTiles[name], r.start, r.end)
  }

  /** The values of every cell the ranges stand for, in order. */
  function VarCells(name: string, fill: seq<byte>, ranges: seq<CellRange>): seq<seq<byte>>
    requires VarRangesOk(name, ranges)
  {
    if ranges == [] then []
    else VarCells(name, fill, ranges[..|ranges| - 1]) + RangeCells(name, fill, ranges[|ranges| - 1])
  }

  lemma VarCellsSnoc(name: string, fill: seq<byte>, ranges: seq<CellRange>, i: nat)
    requires VarRangesOk(name, ranges) && i < |ranges|
    ensures VarRangesOk(name, ranges[..i]) && VarRangesOk(name, ranges[..i + 1])
    ensures VarCells(name, fill, ranges[..i + 1]) == VarCells(name, fill, ranges[..i]) + RangeCells(name, fill, ranges[i])
  {
    assert ranges[..i + 1][..i] == ranges[..i];
  }

  /** The values buffer: all cells' values back to back. */
  function Flatten(cells: seq<seq<byte>>): seq<byte>
  {
    if cells == [] then [] else Flatten(cells[..|cells| - 1]) + cells[|cells| - 1]
  }

  /** The offsets buffer: for each cell, where its values start in the
      values buffer, as an 8-byte `uint64_t`. */
  function OffsetsImage(cells: seq<seq<byte>>): (b: seq<byte>)
    ensures |b| == 8 * |cells|
  {
    if cells == [] then []
    else OffsetsImage(cells[..|cells| - 1]) + U64Bytes(|Flatten(cells[..|cells| - 1])|)
  }

  lemma ImagesSnoc(cells: seq<seq<byte>>, v: seq<byte>)
    ensures Flatten(cells + [v]) == Flatten(cells) + v
    ensures OffsetsImage(cells + [v]) == OffsetsImage(cells) + U64Bytes(|Flatten(cells)|)
  {
    assert (cells + [v])[..|cells|] == cells;
  }

  lemma {:induction false} FlattenPrefix(cells: seq<seq<byte>>, c: nat)
    requires c <= |cells|
    ensures |Flatten(cells[..c])| <= |Flatten(cells)|
    ensures Flatten(cells)[..|Flatten(cells[..c])|] == Flatten(cells[..c])
    decreases |cells|
  {
    if c < |cells| {
      var init := cells[..|cells| - 1];
      assert init[..c] == cells[..c];
      FlattenPrefix(init, c);
    } else {
      assert cells[..c] == cells;
    }
  }

  lemma {:induction false} OffsetsPrefix(cells: seq<seq<byte>>, c: nat)
    requires c <= |cells|
    ensures OffsetsImage(cells)[..8 * c] == OffsetsImage(cells[..c])
    decreases |cells|
  {
    if c < |cells| {
      var init := cells[..|cells| - 1];
      assert init[..c] == cells[..c];
      OffsetsPrefix(init, c);
    } else {
      assert cells[..c] == cells;
    }
  }

  /** The offset stored for cell `c` is the size of the values before it. */
  lemma OffsetAt(cells: seq<seq<byte>>, c: nat)
    requires c < |cells|
    ensures OffsetsImage(cells)[8 * c .. 8 * c + 8] == U64Bytes(|Flatten(cells[..c])|)
  {
    OffsetsPrefix(cells, c + 1);
    assert cells[..c + 1] == cells[..c] + [cells[c]];
    ImagesSnoc(cells[..c], cells[c]);
    var img := OffsetsImage(cells);
    assert img[8 * c .. 8 * c + 8] == img[..8 * (c + 1)][8 * c ..];
  }

  /** Cell `c`'s values follow the values of the cells before it. */
  lemma ValuesAt(cells: seq<seq<byte>>, c: nat)
    requires c < |cells|
    ensures |Flatten(cells[..c])| + |cells[c]| <= |Flatten(cells)|
    ensures Flatten(cells)[|Flatten(cells[..c])| .. |Flatten(cells[..c])| + |cells[c]|] == cells[c]
  {
    assert cells[..c + 1] == cells[..c] + [cells[c]];
    ImagesSnoc(cells[..c], cells[c]);
    FlattenPrefix(cells, c + 1);
    var o := |Flatten(cells[..c])|;
    assert Flatten(cells)[o .. o + |cells[c]|] == Flatten(cells[..c + 1])[o..];
  }

  /** Reading the buffers back: the offset stored for cell `c` decodes to
      the position where its values sit in the values buffer. */
  lemma OffsetsLocateValues(cells: seq<seq<byte>>, c: nat)
    requires c < |cells| && |Flatten(cells)| < UINT64_MODULUS
    ensures var o := DecodeLittleEndian(OffsetsImage(cells)[8 * c .. 8 * c + 8]);
            o + |cells[c]| <= |Flatten(cells)| && Flatten(cells)[o .. o + |cells[c]|] == cells[c]
  {
    OffsetAt(cells, c);
    ValuesAt(cells, c);
    Pow256Eight();
    LittleEndianRoundTrip(|Flatten(cells[..c])|, 8);
  }

  /** `n` cells each holding one fill value. */
  function FillCells(fill: seq<byte>, n: nat): (cells: seq<seq<byte>>)
    ensures |cells| == n
    ensures forall k :: 0 <= k < n ==> cells[k] == fill
  {
    seq(n, _ => fill)
  }

  lemma {:induction false} FlattenFillCells(fill: seq<byte>, n: nat)
    ensures Flatten(FillCells(fill, n)) == Repeat(fill, n)
    decreases n
  {
    if n > 0 {
      assert FillCells(fill, n)[..n - 1] == FillCells(fill, n - 1);
      FlattenFillCells(fill, n - 1);
    }
  }

  lemma {:induction false} FlattenAppend(a: seq<seq<byte>>, b: seq<seq<byte>>)
    ensures Flatten(a + b) == Flatten(a) + Flatten(b)
    decreases |b|
  {
    if b != [] {
      var b' := b[..|b| - 1];
      assert (a + b)[..|a + b| - 1] == a + b';
      FlattenAppend(a, b');
    } else {
      assert a + b == a;
    }
  }

  /** memcpy of the running values offset into the offsets buffer: the
      offset of one more cell `v` after `done`. */
  method WriteOffset(buffer: array<byte>, off: nat, varOff: nat, ghost done: seq<seq<byte>>,
                     ghost v: seq<byte>, ghost b0: seq<byte>)
    requires off == 8 * |done| && varOff == |Flatten(done)|
    requires |b0| == buffer.Length && off + 8 <= buffer.Length
    requires buffer[..] == Splice(b0, 0, OffsetsImage(done))
    modifies buffer
    ensures buffer[..] == Splice(b0, 0, OffsetsImage(done + [v]))
  {
    ImagesSnoc(done, v);
    Memcpy(buffer, off, U64Bytes(varOff));
    SpliceAppend(b0, OffsetsImage(done), U64Bytes(varOff));
  }

  /** memcpy of the values of one more cell `v` after `done`. */
  method WriteValue(bufferVar: array<byte>, varOff: nat, v: seq<byte>, ghost done: seq<seq<byte>>,
                    ghost v0: seq<byte>)
    requires varOff == |Flatten(done)|
    requires |v0| == bufferVar.Length && varOff + |v| <= bufferVar.Length
    requires bufferVar[..] == Splice(v0, 0, Flatten(done))
    modifies bufferVar
    ensures bufferVar[..] == Splice(v0, 0, Flatten(done + [v]))
    ensures |Flatten(done + [v])| == varOff + |v|
  {
    ImagesSnoc(done, v);
    Memcpy(bufferVar, varOff, v);
    SpliceAppend(v0, Flatten(done), v);
  }

  /** The offset and the values of one more cell `v` after `done`. */
  method WriteCell(buffer: array<byte>, bufferVar: array<byte>, off: nat, varOff: nat,
                   v: seq<byte>, ghost done: seq<seq<byte>>, ghost b0: seq<byte>, ghost v0: seq<byte>)
    requires buffer != bufferVar
    requires off == 8 * |done| && varOff == |Flatten(done)|
    requires |b0| == buffer.Length && off + 8 <= buffer.Length
    requires |v0| == bufferVar.Length && varOff + |v| <= bufferVar.Length
    requires buffer[..] == Splice(b0, 0, OffsetsImage(done))
    requires bufferVar[..] == Splice(v0, 0, Flatten(done))
    modifies buffer, bufferVar
    ensures buffer[..] == Splice(b0, 0, OffsetsImage(done + [v]))
    ensures bufferVar[..] == Splice(v0, 0, Flatten(done + [v]))
    ensures |Flatten(done + [v])| == varOff + |v|
  {
    WriteOffset(buffer, off, varOff, done, v, b0);
    WriteValue(bufferVar, varOff, v, done, v0);
  }

  /** The values of `n` fill cells take `|Repeat(fill, n)|` bytes. */
  lemma FillCellsLength(cells: seq<seq<byte>>, fill: seq<byte>, n: nat)
    ensures |Flatten(cells + FillCells(fill, n))| == |Flatten(cells)| + |Repeat(fill, n)|
  {
    FlattenAppend(cells, FillCells(fill, n));
    FlattenFillCells(fill, n);
  }

  lemma FillStep(cells: seq<seq<byte>>, fill: seq<byte>, n: nat, i: nat)
    requires i < n
    ensures (cells + FillCells(fill, n))[..|cells| + i + 1] == (cells + FillCells(fill, n))[..|cells| + i] + [fill]
    ensures |Flatten((cells + FillCells(fill, n))[..|cells| + i + 1])| <= |Flatten(cells + FillCells(fill, n))|
  {
    var all := cells + FillCells(fill, n);
    assert all[..|cells| + i + 1] == all[..|cells| + i] + [all[|cells| + i]];
    FlattenPrefix(all, |cells| + i + 1);
  }

  /** The offsets and values of `n` fill cells after `cells`. */
  method CopyFillCells(buffer: array<byte>, bufferVar: array<byte>, off: nat, varOff: nat,
                       fill: seq<byte>, n: nat, ghost cells: seq<seq<byte>>,
                       ghost b0: seq<byte>, ghost v0: seq<byte>)
    returns (off': nat, varOff': nat)
    requires buffer != bufferVar
    requires off == 8 * |cells| && varOff == |Flatten(cells)|
    requires |b0| == buffer.Length && |v0| == bufferVar.Length
    requires off + 8 * n <= buffer.Length && varOff + |Repeat(fill, n)| <= bufferVar.Length
    requires buffer[..] == Splice(b0, 0, OffsetsImage(cells))
    requires bufferVar[..] == Splice(v0, 0, Flatten(cells))
    modifies buffer, bufferVar
    ensures off' == 8 * (|cells| + n)
    ensures varOff' == |Flatten(cells + FillCells(fill, n))| == varOff + |Repeat(fill, n)|
    ensures buffer[..] == Splice(b0, 0, OffsetsImage(cells + FillCells(fill, n)))
    ensures bufferVar[..] == Splice(v0, 0, Flatten(cells + FillCells(fill, n)))
  {
    off' := off;
    varOff' := varOff;
    ghost var all := cells + FillCells(fill, n);
    FillCellsLength(cells, fill, n);
    ghost var cap := |Flatten(all)|;
    var i := 0;
    ghost var done := cells;
    assert all[..|cells|] == cells;
    while i < n
      invariant 0 <= i <= n && done == all[..|cells| + i]
      invariant off' == 8 * |done| && varOff' == |Flatten(done)| <= cap
      invariant buffer[..] == Splice(b0, 0, OffsetsImage(done))
      invariant bufferVar[..] == Splice(v0, 0, Flatten(done))
    {
      FillStep(cells, fill, n, i);
      WriteCell(buffer, bufferVar, off', varOff', fill, done, b0, v0);
      off' := off' + 8;
      varOff' := varOff' + |fill|;
      done := done + [fill];
      i := i + 1;
    }
    assert done == all;
  }

  /** The cells `start..end` of a variable-sized tile. */
  function TileCells(t: AttrTile, start: nat, end: nat): (cells: seq<seq<byte>>)
    requires VarTileOk(t) && start <= end < |t.offsets|
    ensures |cells| == end - start + 1
  {
    seq(end - start + 1, k requires 0 <= k < end - start + 1 => TileCell(t, start + k))
  }

  /** The offsets and values of cells `start..end` of a tile after
      `cells`, checking before each cell's values that they fit in
      `capVar` bytes; `ok` is false when a cell did not fit. */
  method CopyTileCells(buffer: array<byte>, bufferVar: array<byte>, off: nat, varOff: nat,
                       capVar: nat, t: AttrTile, start: nat, end: nat, ghost cells: seq<seq<byte>>,
                       ghost b0: seq<byte>, ghost v0: seq<byte>)
    returns (ok: bool, off': nat, varOff': nat)
    requires buffer != bufferVar && VarTileOk(t) && start <= end < |t.offsets|
    requires off == 8 * |cells| && varOff == |Flatten(cells)| <= capVar
    requires |b0| == buffer.Length && |v0| == bufferVar.Length && capVar <= bufferVar.Length
    requires off + 8 * (end - start + 1) <= buffer.Length
    requires buffer[..] == Splice(b0, 0, OffsetsImage(cells))
    requires bufferVar[..] == Splice(v0, 0, Flatten(cells))
    modifies buffer, bufferVar
    ensures ok <==> |Flatten(cells + TileCells(t, start, end))| <= capVar
    ensures ok ==> off' == 8 * (|cells| + end - start + 1)
    ensures ok ==> varOff' == |Flatten(cells + TileCells(t, start, end))|
    ensures ok ==> buffer[..] == Splice(b0, 0, OffsetsImage(cells + TileCells(t, start, end)))
    ensures ok ==> bufferVar[..] == Splice(v0, 0, Flatten(cells + TileCells(t, start, end)))
  {
    off' := off;
    varOff' := varOff;
    ghost var all := TileCells(t, start, end);
    ghost var done := cells;
    assert all[..0] == [];
    assert cells + all[..0] == cells;
    var i := start;
    while i <= end
      invariant start <= i <= end + 1 && done == cells + all[..i - start]
      invariant off' == 8 * |done| && varOff' == |Flatten(done)| && varOff' <= capVar
      invariant off' + 8 * (end + 1 - i) <= buffer.Length
      invariant buffer[..] == Splice(b0, 0, OffsetsImage(done))
      invariant bufferVar[..] == Splice(v0, 0, Flatten(done))
    {
      var fits;
      fits, off', varOff' := CopyTileCell(buffer, bufferVar, off', varOff', capVar, t, i, done, b0, v0);
      if !fits {
        TileOverflow(cells, t, start, end, i, capVar);
        return false, off', varOff';
      }
      TileStep(cells, t, start, end, i);
      done := done + [TileCell(t, i)];
      i := i + 1;
    }
    assert all[..end + 1 - start] == all;
    assert done == cells + all;
    ok := true;
  }

  /** Cell `i` of a tile after `done`: its offset is written, then its
      values if they fit in `capVar` bytes. */
  method CopyTileCell(buffer: array<byte>, bufferVar: array<byte>, off: nat, varOff: nat,
                      capVar: nat, t: AttrTile, i: nat, ghost done: seq<seq<byte>>,
                      ghost b0: seq<byte>, ghost v0: seq<byte>)
    returns (fits: bool, off': nat, varOff': nat)
    requires buffer != bufferVar && VarTileOk(t) && i < |t.offsets|
    requires off == 8 * |done| && varOff == |Flatten(done)| <= capVar
    requires |b0| == buffer.Length && |v0| == bufferVar.Length && capVar <= bufferVar.Length
    requires off + 8 <= buffer.Length
    requires buffer[..] == Splice(b0, 0, OffsetsImage(done))
    requires bufferVar[..] == Splice(v0, 0, Flatten(done))
    modifies buffer, bufferVar
    ensures off' == off + 8
    ensures fits <==> varOff + CellVarSize(t, i) <= capVar
    ensures fits ==> varOff' == |Flatten(done + [TileCell(t, i)])| <= capVar
    ensures fits ==> buffer[..] == Splice(b0, 0, OffsetsImage(done + [TileCell(t, i)]))
    ensures fits ==> bufferVar[..] == Splice(v0, 0, Flatten(done + [TileCell(t, i)]))
  {
    var v := TileCell(t, i);
    WriteOffset(buffer, off, varOff, done, v, b0);
    off' := off + 8;
    var cellVarSize := CellVarSize(t, i);
    if varOff + cellVarSize > capVar {
      return false, off', varOff;
    }
    WriteValue(bufferVar, varOff, v, done, v0);
    varOff' := varOff + cellVarSize;
    fits := true;
  }

  lemma TileStep(cells: seq<seq<byte>>, t: AttrTile, start: nat, end: nat, i: nat)
    requires VarTileOk(t) && start <= i <= end < |t.offsets|
    ensures cells + TileCells(t, start, end)[..i + 1 - start]
            == (cells + TileCells(t, start, end)[..i - start]) + [TileCell(t, i)]
  {
    var all := TileCells(t, start, end);
    assert all[..i + 1 - start] == all[..i - start] + [all[i - start]];
  }

  /** A tile cell whose values do not fit after the cells before it
      makes the whole copy overflow. */
  lemma TileOverflow(cells: seq<seq<byte>>, t: AttrTile, start: nat, end: nat, i: nat, capVar: nat)
    requires VarTileOk(t) && start <= i <= end < |t.offsets|
    requires |Flatten(cells + TileCells(t, start, end)[..i - start])| + CellVarSize(t, i) > capVar
    ensures |Flatten(cells + TileCells(t, start, end))| > capVar
  {
    var all := TileCells(t, start, end);
    TileStep(cells, t, start, end, i);
    ImagesSnoc(cells + all[..i - start], TileCell(t, i));
    TileCellsGrow(cells, all, i + 1 - start);
  }

  /** Values only grow as cells are appended. */
  lemma TileCellsGrow(cells: seq<seq<byte>>, all: seq<seq<byte>>, k: nat)
    requires k <= |all|
    ensures |Flatten(cells + all[..k])| <= |Flatten(cells + all)|
  {
    assert (cells + all)[..|cells| + k] == cells + all[..k];
    FlattenPrefix(cells + all, |cells| + k);
  }

  /** The cells of a prefix of the ranges are a prefix of the cells, so
      both their number and their values only grow. */
  lemma {:induction false} VarCellsPrefix(name: string, fill: seq<byte>, ranges: seq<CellRange>, k: nat)
    requires VarRangesOk(name, ranges) && k <= |ranges|
    ensures VarRangesOk(name, ranges[..k])
    ensures |VarCells(name, fill, ranges[..k])| <= |VarCells(name, fill, ranges)|
    ensures VarCells(name, fill, ranges)[..|VarCells(name, fill, ranges[..k])|] == VarCells(name, fill, ranges[..k])
    decreases |ranges|
  {
    if k < |ranges| {
      var init := ranges[..|ranges| - 1];
      assert init[..k] == ranges[..k];
      VarCellsPrefix(name, fill, init, k);
    } else {
      assert ranges[..k] == ranges;
    }
  }

  lemma VarCellsGrow(name: string, fill: seq<byte>, ranges: seq<CellRange>, k: nat)
    requires VarRangesOk(name, ranges) && k <= |ranges|
    ensures VarRangesOk(name, ranges[..k])
    ensures |VarCells(name, fill, ranges[..k])| <= |VarCells(name, fill, ranges)|
    ensures |Flatten(VarCells(name, fill, ranges[..k]))| <= |Flatten(VarCells(name, fill, ranges))|
  {
    VarCellsPrefix(name, fill, ranges, k);
    FlattenPrefix(VarCells(name, fill, ranges), |VarCells(name, fill, ranges[..k])|);
  }

  /** One range of the variable-sized copy loop, after `cells`: `ok`
      false means the range's offsets did not fit in `cap` or its values
      did not fit in `capVar`, and `offsetsFull` tells which. */
  method CopyVarRange(buffer: array<byte>, bufferVar: array<byte>, cap: nat, capVar: nat,
                      name: string, fill: seq<byte>, r: CellRange, off: nat, varOff: nat,
                      ghost cells: seq<seq<byte>>, ghost b0: seq<byte>, ghost v0: seq<byte>)
    returns (ok: bool, offsetsFull: bool, off': nat, varOff': nat)
    requires buffer != bufferVar && VarRangeOk(name, r)
    requires cap <= buffer.Length && capVar <= bufferVar.Length
    requires |b0| == buffer.Length && |v0| == bufferVar.Length
    requires off == 8 * |cells| <= cap && varOff == |Flatten(cells)| <= capVar
    requires buffer[..] == Splice(b0, 0, OffsetsImage(cells))
    requires bufferVar[..] == Splice(v0, 0, Flatten(cells))
    modifies buffer, bufferVar
    ensures ok ==> off' == 8 * |cells + RangeCells(name, fill, r)| <= cap
    ensures ok ==> varOff' == |Flatten(cells + RangeCells(name, fill, r))| <= capVar
    ensures ok ==> buffer[..] == Splice(b0, 0, OffsetsImage(cells + RangeCells(name, fill, r)))
    ensures ok ==> bufferVar[..] == Splice(v0, 0, Flatten(cells + RangeCells(name, fill, r)))
    ensures !ok && offsetsFull ==> 8 * |cells + RangeCells(name, fill, r)| > cap
    ensures !ok && !offsetsFull ==> |Flatten(cells + RangeCells(name, fill, r))| > capVar
  {
    var num := CellNum(r);
    if off + num * 8 > cap {
      return false, true, off, varOff;
    }
    if r.tile.None? {
      FillCellsLength(cells, fill, num);
      RepeatLength(fill, num);
      if varOff + num * |fill| > capVar {
        return false, false, off, varOff;
      }
      off', varOff' := CopyFillCells(buffer, bufferVar, off, varOff, fill, num, cells, b0, v0);
      ok, offsetsFull := true, false;
    } else {
      ok, off', varOff' := CopyTileCells(buffer, bufferVar, off, varOff, capVar,
                                         r.tile.value.attrTiles[name], r.start, r.end, cells, b0, v0);
      offsetsFull := false;
    }
  }

  /** The variable-sized copy loop: before each range it checks the
      range's offsets against `cap`, and then the values, for a fill range
      all at once and for a tile range cell by cell, against `capVar`. It
      fails exactly when one of the two buffers cannot hold the whole
      result, and names the buffer that overflowed. */
  method CopyVarRanges(buffer: array<byte>, bufferVar: array<byte>, cap: nat, capVar: nat,
                       name: string, fill: seq<byte>, ranges: seq<CellRange>)
    returns (st: Outcome<QueryError>, size: nat, sizeVar: nat)
    requires buffer != bufferVar && VarRangesOk(name, ranges)
    requires cap <= buffer.Length && capVar <= bufferVar.Length
    modifies buffer, bufferVar
    ensures st.Ok? <==> 8 * |VarCells(name, fill, ranges)| <= cap
                        && |Flatten(VarCells(name, fill, ranges))| <= capVar
    ensures st.Ok? ==> size == 8 * |VarCells(name, fill, ranges)|
                       && sizeVar == |Flatten(VarCells(name, fill, ranges))|
    ensures st.Ok? ==> buffer[..] == Splice(old(buffer[..]), 0, OffsetsImage(VarCells(name, fill, ranges)))
    ensures st.Ok? ==> bufferVar[..] == Splice(old(bufferVar[..]), 0, Flatten(VarCells(name, fill, ranges)))
    ensures st.Fail? ==>
      || (st.error == OffsetsBufferOverflow(name) && 8 * |VarCells(name, fill, ranges)| > cap)
      || (st.error == ResultBufferOverflow(name) && |Flatten(VarCells(name, fill, ranges))| > capVar)
  {
    ghost var b0 := buffer[..];
    ghost var v0 := bufferVar[..];
    var off := 0;
    var varOff := 0;
    ghost var cells: seq<seq<byte>> := [];
    var i := 0;
    assert ranges[..0] == [];
    while i < |ranges|
      invariant i <= |ranges| && VarRangesOk(name, ranges[..i])
      invariant cells == VarCells(name, fill, ranges[..i])
      invariant off == 8 * |cells| <= cap && varOff == |Flatten(cells)| <= capVar
      invariant buffer[..] == Splice(b0, 0, OffsetsImage(cells))
      invariant bufferVar[..] == Splice(v0, 0, Flatten(cells))
    {
      VarCellsSnoc(name, fill, ranges, i);
      VarCellsGrow(name, fill, ranges, i + 1);
      var ok, offsetsFull;
      ok, offsetsFull, off, varOff := CopyVarRange(buffer, bufferVar, cap, capVar, name, fill,
                                                   ranges[i], off, varOff, cells, b0, v0);
      if !ok {
        if offsetsFull {
          return Fail(OffsetsBufferOverflow(name)), off, varOff;
        }
        return Fail(ResultBufferOverflow(name)), off, varOff;
      }
      cells := cells + RangeCells(name, fill, ranges[i]);
      i := i + 1;
    }
    assert ranges[..i] == ranges;
    return Ok, off, varOff;
  }
}
