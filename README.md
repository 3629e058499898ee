# TileDB storage-manager core in Dafny

This project models three parts of TileDB's storage manager and proves
properties of them.

- **The virtual filesystem** (`VFS`, tiledb/sm/filesystem/vfs.cc). Every
  operation classifies its URI as a local file, HDFS, S3 or something
  else. It then calls that backend or returns a fixed error ("built
  without HDFS/S3 support", "Unsupported URI scheme"). The model covers the
  extra rules some operations add on top of that routing:
  - `create_dir` treats an existing directory as success.
  - `ls` returns its listing sorted.
  - Moves across schemes are refused, and `move_file` first deletes the
    destination file.
  - `open_file` has separate rules for read, write and append.
  - Locks outside the local filesystem do nothing.
  - Bucket operations work only on S3.
  - A parallel `read` splits one byte range into chunks.

  The backends are one stand-in: a map from URI to a node, which is a file
  with its bytes, a directory or a bucket. The set of backends compiled into
  the build is a constructor parameter.
- **The query** (tiledb/sm/query/query.cc):
  - coalesce sorted cell positions into cell ranges (`compute_cell_ranges`);
  - remove adjacent duplicate coordinates, keeping the newer fragment's
    copy (`dedup_coords`);
  - hyper-rectangle overlap and containment (`overlap`);
  - fill an interval of cells from prioritised fragment ranges
    (`compute_dense_cell_ranges`);
  - index the per-attribute buffer slots (`buffer_idx`, `coords_buffer_i`,
    `zero_out_buffer_sizes`);
  - copy fixed-size and variable-size cells into the caller's buffers, with
    overflow checks (`copy_fixed_cells`, `copy_var_cells`);
  - validate attributes, layout and subarray;
  - add the coordinates attribute;
  - handle statuses when fragments are finalised and when a query is
    processed.

  `Query` is a class. Its mutable fields are the layout, status, attribute
  names and ids, fragments and callback count. Its result buffers are
  `array<byte>` values (`byte` is an integer from 0 to 255), and its buffer sizes are an `array<nat>`.
- **The dense cell-range iterator** (`DenseCellRangeIter`,
  tiledb/sm/query/dense_cell_range_iter.cc). This is a class with the
  iterator's fields (`end_`, start and end coordinates, tile information,
  range positions), its `begin` and `++` transitions, and its subarray
  validator `sanity_check`. The domain geometry it calls is a datatype of
  arbitrary functions:
  - the end of a cell slab;
  - cell positions;
  - the next cell and next tile coordinates;
  - tiles and overlaps.

Modules:
- `Common` (common.dfy): Option/Outcome/Result, bytes, `memcpy` as a
  splice, and the 8-byte little-endian encoding of an offset.
- `ReadChunks` (read_chunks.dfy): the chunk arithmetic of `VFS::read`.
- `PathOrder` (path_order.dfy): string order and sorting for `ls`.
- `Vfs` (vfs.dfy) and `VfsLaws` (vfs_laws.dfy).
- `CellRanges` (cell_ranges.dfy): `compute_cell_ranges`, `dedup_coords`,
  `overlap`.
- `DenseRanges` (dense_ranges.dfy): `compute_dense_cell_ranges`.
- `QuerySchema` (query_schema.dfy): the array schema, attribute ids and
  buffer-slot arithmetic.
- `CellCopy` (cell_copy.dfy): the byte images of the fixed and variable
  copies, and the loops that produce them.
- `QueryModel` (query.dfy): the `Query` class.
- `CellRangeIter` (dense_cell_range_iter.dfy): the iterator.

Where the documented behaviour and the code disagree, the model
follows the code:
- Opening a file in WRITE mode removes an existing file. The file then does
  not exist until something is written (tiledb/sm/filesystem/vfs.cc:790-793). It is not reset to
  zero length.
- `check_subarray` compares only the lower bound with the domain's lower
  end and the upper bound with the domain's upper end (tiledb/sm/query/query.cc:1532-1533). It
  accepts an inverted range.

The backend calls follow their documented behaviour, because vfs.cc only
routes them and the drivers are not part of this model. For example,
`touch` on an existing file leaves it at zero length.

## Model

| member | source | states |
|---|---|---|
| Vfs.RouteOf | tiledb/sm/filesystem/vfs.cc:123-142 | a call reaches a backend iff its scheme is local, or HDFS/S3 compiled in; an uncompiled HDFS or S3 gives "built without" that backend, any other scheme "Unsupported URI scheme" |
| Vfs.BucketRouteOf | tiledb/sm/filesystem/vfs.cc:178-194 | bucket operations reach the backend iff the URI is S3 and S3 is compiled in; a non-S3 URI is an unsupported scheme |
| Vfs.BuiltWith | tiledb/sm/filesystem/vfs.cc:49-60 | the compiled set holds HDFS iff built with HDFS, and S3 iff built with S3 |
| Vfs.VFS.constructor | tiledb/sm/filesystem/vfs.cc:49-60 | the supported set is the compiled one, and no thread pool exists yet |
| Vfs.VFS.SupportsFs | tiledb/sm/filesystem/vfs.cc:738-744 | true iff the filesystem is in the supported set |
| Vfs.VFS.Init | tiledb/sm/filesystem/vfs.cc:495-528 | stores the parameters; a failed pool creation gives the pool error (the state is otherwise unchanged); otherwise the HDFS connect status if it fails, else the S3 connect status, else Ok |
| Vfs.VFS.IsDir | tiledb/sm/filesystem/vfs.cc:405-438 | routed query: whether a directory is at the URI |
| Vfs.VFS.IsFile | tiledb/sm/filesystem/vfs.cc:440-474 | routed query: whether a file is at the URI |
| Vfs.VFS.IsBucket | tiledb/sm/filesystem/vfs.cc:476-493 | S3-only query: whether a bucket is at the URI |
| Vfs.VFS.FileSize | tiledb/sm/filesystem/vfs.cc:374-403 | routed query: the byte length of an existing file, else a backend error |
| Vfs.VFS.CreateDir | tiledb/sm/filesystem/vfs.cc:108-145 | the new status and filesystem are those of create_dir: an existing non-S3 directory is Ok with no backend call; S3 is a no-op |
| Vfs.VFS.Touch | tiledb/sm/filesystem/vfs.cc:147-176 | routed touch: the URI ends up a zero-length file, whether absent or an existing file; a directory or bucket there is a backend error |
| Vfs.VFS.RemoveDir | tiledb/sm/filesystem/vfs.cc:251-279 | routed removal of a directory with its whole tree |
| Vfs.VFS.RemoveFile | tiledb/sm/filesystem/vfs.cc:281-310 | routed removal of one file |
| Vfs.VFS.CreateBucket | tiledb/sm/filesystem/vfs.cc:178-194 | S3-only creation of a bucket |
| Vfs.VFS.RemoveBucket | tiledb/sm/filesystem/vfs.cc:196-212 | S3-only removal of a bucket and its contents |
| Vfs.VFS.EmptyBucket | tiledb/sm/filesystem/vfs.cc:214-230 | S3-only removal of a bucket's contents, keeping the bucket |
| Vfs.VFS.IsEmptyBucket | tiledb/sm/filesystem/vfs.cc:232-249 | S3-only query: nothing lies below the bucket |
| Vfs.VFS.FilelockLock | tiledb/sm/filesystem/vfs.cc:312-341 | local files lock iff they exist; HDFS and S3 return Ok when compiled in |
| Vfs.VFS.FilelockUnlock | tiledb/sm/filesystem/vfs.cc:343-372 | routed unlock, Ok whenever the scheme is compiled in |
| Vfs.VFS.Ls | tiledb/sm/filesystem/vfs.cc:530-564 | the result fails iff the backend listing fails, with its error; on success it holds exactly the backend's entries, sorted by path and without repeats |
| Vfs.VFS.ReadImpl | tiledb/sm/filesystem/vfs.cc:710-736 | the backend read's status; on success the buffer holds the file's bytes at the position, otherwise the buffer is unchanged |
| Vfs.VFS.Read | tiledb/sm/filesystem/vfs.cc:672-708 | the status is the single read's for one op, else Ok iff every chunk read succeeds; on Ok the buffer's first nbytes are the file's bytes at offset; nothing past nbytes changes |
| Vfs.VFS.ReadEachChunk | tiledb/sm/filesystem/vfs.cc:690-704 | the sequential stand-in for the futures: all-ok iff every chunk's read succeeds, and then the whole range is read |
| Vfs.VFS.Sync | tiledb/sm/filesystem/vfs.cc:746-775 | routed sync; S3 is Ok |
| Vfs.VFS.CloseFile | tiledb/sm/filesystem/vfs.cc:813-842 | routed close: local and HDFS files sync, S3 flushes |
| Vfs.VFS.Write | tiledb/sm/filesystem/vfs.cc:844-874 | routed write appending to the file |
| Vfs.VFS.MoveDir | tiledb/sm/filesystem/vfs.cc:622-670 | a move of the tree when both schemes agree; an other scheme, or differing schemes, give their errors with no change |
| Vfs.VFS.MoveFile | tiledb/sm/filesystem/vfs.cc:566-620 | an existing destination file is removed first, then the scheme checks and the move |
| Vfs.VFS.OpenFile | tiledb/sm/filesystem/vfs.cc:777-811 | READ needs a file, WRITE removes one, APPEND on S3 fails |
| Vfs.ListInBackendOrder | tiledb/sm/filesystem/vfs.cc:533-556 | the paths of a finite set of URIs in some order: exactly the set's paths, each once |
| Vfs.ReadImplSuccess | tiledb/sm/filesystem/vfs.cc:710-736 | a successful read lies inside an existing file and returns exactly its bytes there |
| VfsLaws.UncompiledSchemeBuiltWithout | tiledb/sm/filesystem/vfs.cc:125-142 | HDFS or S3 not compiled in: every general operation fails with "built without" that backend and changes nothing |
| VfsLaws.OtherSchemeUnsupported | tiledb/sm/filesystem/vfs.cc:141-142 | a non-storage scheme: every general operation fails with "Unsupported URI scheme" and changes nothing |
| VfsLaws.BucketOpsS3Only | tiledb/sm/filesystem/vfs.cc:189-191 | every bucket operation on a non-S3 URI fails with unsupported scheme and changes nothing |
| VfsLaws.RemoteLocksAreNoOps | tiledb/sm/filesystem/vfs.cc:322-336 | lock and unlock on compiled-in HDFS or S3 return Ok |
| VfsLaws.LocalLockNeedsFile | tiledb/sm/filesystem/vfs.cc:315-321 | a local lock is Ok iff the file exists |
| VfsLaws.CreateDirOnExistingDir | tiledb/sm/filesystem/vfs.cc:111-116 | an existing non-S3 directory makes create_dir Ok with no change |
| VfsLaws.CreateDirOnS3 | tiledb/sm/filesystem/vfs.cc:133-140 | create_dir on S3 changes nothing and is Ok iff S3 is compiled in |
| VfsLaws.CreateDirIdempotent | tiledb/sm/filesystem/vfs.cc:108-145 | after a successful create_dir, the directory exists (off S3) and a second call is Ok with no change |
| VfsLaws.TouchMakesFile | tiledb/sm/filesystem/vfs.cc:147-176 | touch succeeds iff the scheme is compiled in and no directory or bucket is at the URI; then exactly that entry changes, to a file of size 0 |
| VfsLaws.RemoveFileRemovesOne | tiledb/sm/filesystem/vfs.cc:281-310 | remove_file succeeds iff the URI is a file, and then removes exactly that entry |
| VfsLaws.RemoveDirRemovesTree | tiledb/sm/filesystem/vfs.cc:251-279 | a successful remove_dir removes exactly the directory's tree |
| VfsLaws.WriteThenRead | tiledb/sm/filesystem/vfs.cc:844-874 | after a write, reading at the old end returns the data, and the size grows by its length |
| VfsLaws.OpenReadNeedsFile | tiledb/sm/filesystem/vfs.cc:780-789 | READ succeeds iff the URI is a file, changes nothing, and a missing file is its error |
| VfsLaws.OpenWriteRemovesFile | tiledb/sm/filesystem/vfs.cc:790-793 | WRITE on an existing file removes it and is Ok |
| VfsLaws.OpenAppendOnS3Fails | tiledb/sm/filesystem/vfs.cc:794-805 | APPEND on S3 always fails and changes nothing |
| VfsLaws.OpenOtherwiseNoChange | tiledb/sm/filesystem/vfs.cc:777-811 | every other mode/state combination is Ok with no change |
| VfsLaws.CrossSchemeMoveFails | tiledb/sm/filesystem/vfs.cc:571-617 | both moves fail when the schemes differ, move_dir with no change |
| VfsLaws.CrossSchemeMoveFileDeletesDestination | tiledb/sm/filesystem/vfs.cc:566-575 | a failing cross-scheme move_file still deletes an existing destination file |
| VfsLaws.MoveTreeMovesRoot | tiledb/sm/filesystem/vfs.cc:622-670 | after a move the root's node is at the destination and gone from the source |
| VfsLaws.MoveFileMovesFile | tiledb/sm/filesystem/vfs.cc:566-620 | a successful move_file of a file puts that file at the destination and removes the source |
| VfsLaws.ParallelReadAgreesWithSingle | tiledb/sm/filesystem/vfs.cc:683-704 | without device failures, the split read succeeds iff one read of the whole range does |
| ReadChunks.Ceil | tiledb/sm/filesystem/vfs.cc:688 | the least r with y*r >= x |
| ReadChunks.NumOps | tiledb/sm/filesystem/vfs.cc:679-681 | 1 <= num_ops <= pool size, and num_ops > 1 only if each op gets at least min_parallel_size bytes |
| ReadChunks.ChunksPartition | tiledb/sm/filesystem/vfs.cc:688-695 | the (corrected) chunks are non-empty, ascending and contiguous, cover [0, nbytes) exactly, and number at most num_ops |
| ReadChunks.CoversOwner | tiledb/sm/filesystem/vfs.cc:690-695 | every byte of the range lies in exactly one chunk |
| ReadChunks.CoversBounds | tiledb/sm/filesystem/vfs.cc:690-695 | every chunk lies inside the range |
| ReadChunks.SourceChunks | tiledb/sm/filesystem/vfs.cc:690-695 | the source's ranges in uint64 arithmetic, one per op |
| ReadChunks.SourceChunkNonEmptyIff | tiledb/sm/filesystem/vfs.cc:691-693 | the source's chunk i has begin <= end iff i*c < nbytes |
| ReadChunks.SourceChunksNonEmptyIff | tiledb/sm/filesystem/vfs.cc:688-695 | all source chunks are non-empty iff (num_ops-1)*c < nbytes |
| ReadChunks.ChunksAgreeWithSource | tiledb/sm/filesystem/vfs.cc:688-695 | under (num_ops-1)*c < nbytes the corrected chunks are exactly the source's ranges |
| ReadChunks.SourceFourthChunkUnderflows | tiledb/sm/filesystem/vfs.cc:691-693 | nbytes 5, min 1, pool 4: the 4th range is [6, 4] with a wrapped size |
| PathOrder.LexLeTotal | tiledb/sm/filesystem/vfs.cc:557-560 | the string order in which ls sorts is total |
| PathOrder.LexLeTransitive | tiledb/sm/filesystem/vfs.cc:557-560 | the string order is transitive |
| PathOrder.LexLeAntisymmetric | tiledb/sm/filesystem/vfs.cc:557-560 | the string order is antisymmetric |
| PathOrder.Sort | tiledb/sm/filesystem/vfs.cc:557-560 | the sort is sorted and a permutation of its input |
| PathOrder.SortedUnique | tiledb/sm/filesystem/vfs.cc:557-560 | two sorted permutations of one list are equal |
| PathOrder.SortOrderIndependent | tiledb/sm/filesystem/vfs.cc:557-560 | the sorted listing does not depend on the backend's order |
| CellRanges.DedupCoords | tiledb/sm/query/query.cc:960-980 | the loop's result is the dedup specification |
| CellRanges.DedupSubsequence | tiledb/sm/query/query.cc:960-980 | the result is a subsequence of the input |
| CellRanges.DedupNoAdjacentDuplicates | tiledb/sm/query/query.cc:960-980 | no two adjacent entries have equal coordinates |
| CellRanges.DedupKeepsNewest | tiledb/sm/query/query.cc:966-976 | every input's coordinates survive with a fragment index at least as large |
| CellRanges.DedupHead | tiledb/sm/query/query.cc:960-980 | empty iff the input is empty, and the first coordinates are kept |
| CellRanges.ComputeCellRanges | tiledb/sm/query/query.cc:983-1018 | empty input gives no ranges; each range has start <= end; the ranges expand to exactly the input positions in order; no two adjacent ranges could have been merged |
| CellRanges.ComputedRangesCount | tiledb/sm/query/query.cc:983-1018 | the ranges' cell counts sum to the number of input coordinates |
| CellRanges.Overlap | tiledb/sm/query/query.cc:1021-1037 | true iff no dimension is disjoint; when true, a_contains_b iff a encloses b in every dimension; otherwise it is untouched |
| CellRanges.OverlapsSymmetric | tiledb/sm/query/query.cc:1021-1037 | overlap is symmetric |
| CellRanges.ContainsImpliesOverlaps | tiledb/sm/query/query.cc:1021-1037 | a non-empty b that a contains overlaps a |
| DenseRanges.TopBelowFirst | tiledb/sm/query/query.cc:1552-1567 | the highest-priority live fragment among the first n: none iff all of them are exhausted, else one that precedes every live one |
| DenseRanges.QueueTop | tiledb/sm/query/query.cc:1565-1567 | the entry read from the queue top is a live fragment that precedes every other live fragment in the queue order |
| DenseRanges.RemainingAdvance | tiledb/sm/query/query.cc:1570-1581 | advancing an iterator consumes exactly one range |
| DenseRanges.CutPiece | tiledb/sm/query/query.cc:1584-1611 | the piece starts at start and stays inside [start, end]: empty-filled before the top range, the top fragment's cells inside it, and the iterator advances iff its range ends by end |
| DenseRanges.SkipTop | tiledb/sm/query/query.cc:1570-1581 | a top range ending before start is popped: its iterator advances, one range fewer remains, and the pieces still to come are the same |
| DenseRanges.TakePiece | tiledb/sm/query/query.cc:1589-1611 | one loop pass: start moves forward within end+1, the pieces emitted so far plus those to come are unchanged, and iterators only advance |
| DenseRanges.PieceSupplied | tiledb/sm/query/query.cc:1584-1611 | a fill piece cut before the top range meets no range of any fragment; a piece of the top fragment lies in its current range, which comes first among all ranges containing each of its cells |
| DenseRanges.CellRangesFromPartition | tiledb/sm/query/query.cc:1540-1623 | the pieces cut from [start, end] are non-empty, contiguous and ascending, and cover exactly [start, end] |
| DenseRanges.CellRangesFromPiece | tiledb/sm/query/query.cc:1540-1623 | from iterators that have only moved past ranges ending before start, every piece is a fill piece meeting no range, or a piece of fragment f inside one of f's ranges that comes first, ties to the newer fragment, among the ranges containing each of its cells |
| DenseRanges.CellRangesFromSupplied | tiledb/sm/query/query.cc:1540-1623 | from the initial iterators the pieces partition [start, end] and each is supplied as the queue order says |
| DenseRanges.ComputeDenseCellRanges | tiledb/sm/query/query.cc:1540-1623 | (corrected) the output is the pieces of [start, end]: it partitions the interval into non-empty contiguous ascending pieces, a fill piece (-1) meets no range of any fragment, a tagged piece lies inside one range of its fragment that comes first in the queue order, ties to the newer fragment, for each of its cells; every iterator only advances |
| DenseRanges.AsWrittenEmitsTwice | tiledb/sm/query/query.cc:1584-1587 | as written, a lone fragment starting after end yields [start, end] twice, which is no partition |
| DenseRanges.AsWrittenRepeatsLast | tiledb/sm/query/query.cc:1540-1623 | the loop as written emits the corrected pieces, except that the last piece may be emitted a second time |
| QuerySchema.AttributeId | tiledb/sm/query/query.cc:1055-1056 | the coordinates name has id attribute_num; any other name its first index in the schema, or none |
| QuerySchema.SlotOfFound | tiledb/sm/query/query.cc:1049-1061 | an attribute found after known ones has slot Σ(1+var_size) of those before it |
| QuerySchema.SlotOfUnknown | tiledb/sm/query/query.cc:1049-1061 | an unknown attribute met first is an error |
| QuerySchema.SlotOfAbsent | tiledb/sm/query/query.cc:1059-1061 | an absent attribute is an invalid-attribute error |
| QuerySchema.SlotOfWithinCount | tiledb/sm/query/query.cc:1049-1061 | a present attribute's slots lie below the total slot count |
| QuerySchema.SlotsAscend | tiledb/sm/query/query.cc:1049-1061 | later attributes have strictly later slots |
| QuerySchema.ValuesSlotIsNotFirst | tiledb/sm/query/query.cc:1855-1866 | a var-sized attribute's values slot is no attribute's first slot |
| QuerySchema.CoordsSlotAgrees | tiledb/sm/query/query.cc:164-186 | the coordinates slot is the slot of the first coordinates id, found the same way by name |
| QuerySchema.InvertedSubarrayInDomain | tiledb/sm/query/query.cc:1527-1537 | the query's subarray check accepts [7, 2] in the domain [0, 9] |
| QueryModel.FirstFailure | tiledb/sm/query/query.cc:149-162 | Ok iff every fragment finalises Ok, else the first failing status |
| QueryModel.ElemsCard | tiledb/sm/query/query.cc:1435-1442 | the id set is as large as the id list iff the ids are distinct |
| QueryModel.ChosenLayoutProperties | tiledb/sm/query/query.cc:1290-1311 | the layout fails iff key-value, or sparse write with an ordered layout; 1-D col-major becomes row-major; otherwise unchanged; the choice is idempotent |
| QueryModel.WithCoordsProperties | tiledb/sm/query/query.cc:1418-1431 | adding coordinates puts the coordinates id in, keeps the prefix, is idempotent, and an appended id has slot after all others |
| QueryModel.Query.constructor | tiledb/sm/query/query.cc:58-75 | given buffers that fit the requested attributes, a fresh query is valid, row-major and in progress with no fragments, nothing initialised or borrowed, and no common query |
| QueryModel.Query.FromCommon | tiledb/sm/query/query.cc:77-92 | given buffers that fit the common query's schema, a query built from a common one is valid, takes its schema, type and layout and is in progress |
| QueryModel.SlotSearch | tiledb/sm/query/query.cc:1051-1061 | the loop returns the slot of the attribute, Σ(1+var_size) over the names before it, or the unknown/invalid attribute error |
| QueryModel.Query.BufferIdx | tiledb/sm/query/query.cc:1049-1062 | on the query's own schema and requested attributes: the slot of the attribute, or the unknown/invalid attribute error |
| QueryModel.Query.CoordsBufferI | tiledb/sm/query/query.cc:164-186 | the slot of the first coordinates id; without one, the no-coordinates-buffer error if the caller's value is -1, else that value |
| QueryModel.Query.ZeroOutBufferSizes | tiledb/sm/query/query.cc:1855-1866 | exactly the first slot of every attribute becomes 0; all other sizes are unchanged |
| QueryModel.Query.CopyFixedCells | tiledb/sm/query/query.cc:1064-1108 | unknown attribute or slot error: nothing changes; otherwise Ok iff the ranges' image fits, then the buffer starts with it and its size is the image length; on overflow the size is unchanged and the ranges before the overflowing one are written; other buffers are unchanged |
| QueryModel.Query.CopyVarCells | tiledb/sm/query/query.cc:1110-1198 | Ok iff the offsets and the values fit; then the offsets buffer holds each cell's running value offset, the values buffer the concatenated cells, and both sizes are set; an overflow names the buffer that overflowed; other buffers are unchanged |
| QueryModel.Query.CheckAttributes | tiledb/sm/query/query.cc:1433-1454 | a write with repeated ids fails as duplicate; an unordered write with distinct ids not numbering attribute_num+1 fails as missing; everything else is Ok |
| QueryModel.Query.SetLayout | tiledb/sm/query/query.cc:1290-1311 | the chosen layout is stored, or its error returned with nothing changed |
| QueryModel.Query.CheckSubarray | tiledb/sm/query/query.cc:1485-1537 | Ok iff there is no subarray or every lower bound >= the domain's low end and every upper bound <= its high end; the error is out of bounds |
| QueryModel.Query.AddCoords | tiledb/sm/query/query.cc:1418-1431 | only the ids change, to those with the coordinates appended when absent |
| QueryModel.Query.ClearFragments | tiledb/sm/query/query.cc:149-162 | a borrowed list is dropped with Ok; otherwise every fragment is finalised and the first failure returned; the list ends empty |
| QueryModel.Query.InitFragments | tiledb/sm/query/query.cc:1668-1683 | already initialised: Ok, no change; otherwise the creation status, and initialised iff Ok |
| QueryModel.Query.AsyncProcess | tiledb/sm/query/query.cc:111-143 | with a common query its fragments are borrowed; an init failure is returned with the status untouched; otherwise the run's status, Completed plus one callback iff Ok, else Failed |
| CellCopy.FixedRangeBytes | tiledb/sm/query/query.cc:1088-1100 | an empty range's bytes are the type's fill value repeated once per cell value, cells*cell_val_num times (fill_num = bytes_to_copy / fill_size); a tile range's are its bytes from start*cell_size; either is cells*cell_size long |
| CellCopy.FixedImageLength | tiledb/sm/query/query.cc:1104-1105 | the copied image is Σ(end-start+1)*cell_size bytes |
| CellCopy.CopyFixedRanges | tiledb/sm/query/query.cc:1079-1107 | ok iff the image fits the buffer size; then the buffer starts with the image; otherwise the first overflowing range is named and exactly the ranges before it are written |
| CellCopy.OffsetsLocateValues | tiledb/sm/query/query.cc:1129-1195 | the offset stored for cell c, decoded, points at exactly cell c's bytes in the values buffer |
| CellCopy.TileCellsTile | tiledb/sm/query/query.cc:1173-1187 | the cells cut from a var tile by consecutive offsets, with the last running to the tile's end, concatenate back to the tile's data |
| CellCopy.CopyVarRanges | tiledb/sm/query/query.cc:1129-1195 | Ok iff 8 bytes per cell fit the offsets buffer and all cell bytes fit the values buffer; then both images are written and both sizes returned; an overflow names its buffer |
| CellRangeIter.DenseCellRangeIter.Empty | tiledb/sm/query/dense_cell_range_iter.cc:54-57 | the default iterator has no domain and is at its end |
| CellRangeIter.DenseCellRangeIter.constructor | tiledb/sm/query/dense_cell_range_iter.cc:59-66 | an iterator over a domain and subarray starts at its end |
| CellRangeIter.DenseCellRangeIter.SanityCheck | tiledb/sm/query/dense_cell_range_iter.cc:229-263 | rejects, in order, the unordered layout, a subarray not of length 2·dim_num, a dimension with lower > upper, a bound outside the domain; else Ok |
| CellRangeIter.SanityOkBox | tiledb/sm/query/dense_cell_range_iter.cc:229-263 | a subarray passing the check is ordered, non-empty and lies in the domain in every dimension |
| CellRangeIter.IteratorRejectsInverted | tiledb/sm/query/dense_cell_range_iter.cc:241-247 | the inverted range the query's check accepts is rejected by the iterator's |
| CellRangeIter.DenseCellRangeIter.Begin | tiledb/sm/query/dense_cell_range_iter.cc:72-97 | no domain: Ok and nothing changes; a failing check returns its error and nothing changes (so the iterator stays at its end); otherwise not at the end, the start is the subarray's lower corner, and the first range is ordered |
| CellRangeIter.DenseCellRangeIter.Next | tiledb/sm/query/dense_cell_range_iter.cc:124-149 | the new state is one step of `++` |
| CellRangeIter.NextProperties | tiledb/sm/query/dense_cell_range_iter.cc:127-148 | `++` at the end changes nothing; once it reaches the end every later step stays there; a step that does not end gives an ordered range; the unordered layout always ends |
| CellRangeIter.CurrentRange | tiledb/sm/query/dense_cell_range_iter.cc:155-167 | with ordered slabs, the range start is at most its end |
| CellRangeIter.DenseCellRangeIter.ComputeNextStartCoords | tiledb/sm/query/dense_cell_range_iter.cc:179-197 | row and col layouts step in the subarray, the global order inside the tile, and anything else reports no next cell |
| CellRangeIter.DenseCellRangeIter.ComputeNextStartCoordsGlobal | tiledb/sm/query/dense_cell_range_iter.cc:199-227 | the next cell in the tile in the domain's cell order, else the next tile's overlap's corner |
| CellRangeIter.DenseCellRangeIter.ComputeCurrentTileInfo | tiledb/sm/query/dense_cell_range_iter.cc:169-177 | the tile, its subarray, overlap, tile domain and position of the start coordinates |

## Left out

- The concrete backends (POSIX, Windows, HDFS, S3 drivers) and path conversion: one stand-in map from URI to node, with plain semantics for each call.
- The thread pool and futures of `VFS::read`: the chunks are read one after another, and device failures are a function of (offset, length).
- Vfs.VFS.Read: requires a created pool with at least one thread and a non-zero `min_parallel_size`, which the source divides by. The model reads the corrected chunks (see Findings), not the source's underflowing fourth range.
- Vfs.VFS.Init: the HDFS and S3 connection results are parameters.
- Config, statistics macros, logging and the exact error wording: errors are kinds.
- `abs_path` and `config`: path conversion and configuration access, outside the modelled operations.
- `sort_coords`, `read_tiles`, `compute_subarrays`, `compute_overlapping_tiles`, `compute_overlapping_coords`, `get_all_coords`, `compute_dense_overlapping_tiles_and_cell_ranges`, `init_tile_fragment_dense_cell_range_iters`, dense/sparse read and write orchestration: these depend on tile I/O, comparators or domain geometry that are not shown.
- `copy_cells` dispatch and `zero_out_buffers`: not modelled; the copies are called per attribute.
- DenseRanges.ComputeDenseCellRanges: the fragment iterators are lists of remaining ranges. The priority between fragments is taken as the order of their current range starts with ties broken towards the newer fragment, because the comparator is not shown.
- DenseRanges.ComputeDenseCellRanges: requires each fragment's ranges to be non-empty, ascending and disjoint, as the dense iterator produces them; this is not derived from the iterator model.
- Vfs.VFS.FilelockUnlock: the local unlock always succeeds in the model; a failing `unlock` of the POSIX or Windows lock is not modelled.
- Vfs.VFS.Ls: the backend listing is a set, so the result holds no repeats; a backend that lists a path twice, which `std::sort` would keep, is not modelled.
- Tiles are identified by value, not by pointer.
- QueryModel.Query.constructor: `set_attributes`, `set_buffers`, `set_subarray`, `set_callback` and the `init` overloads are folded into constructor parameters.
- QueryModel.Query.InitFragments: the effect of `new_fragment`/`open_fragments` on the fragment list is not modelled, only the status and the initialised flag.
- QueryModel.Query.AsyncProcess: `init_fragments`, `init_states`, `read` and `write` are results passed in, not run.
- QueryModel.Query.CopyFixedCells: the byte offsets are unbounded integers; uint64 wrap-around of the offsets is not modelled.
- QueryModel.Query.CopyVarCells: on an overflow the bytes already written are not characterised, only that the sizes stay unchanged and which buffer overflowed.
- QueryModel.Query.CheckSubarray: the FLOAT32/FLOAT64 instantiations and the unsupported domain types are not modelled; coordinates are integers.
- CellRangeIter.DenseCellRangeIter.Begin: `get_cell_pos` is taken as total, so the error `compute_current_range` can return is not modelled. The assertion `range_start <= range_end` becomes the domain property that no slab ends before it starts.
- CellRangeIter.DenseCellRangeIter.ComputeNextStartCoordsGlobal: a start coordinate past the end of the subarray-in-tile buffer reads as 0. The source's buffer always has 2·dim_num entries.
- The getters of the iterator (`end`, `tile_idx`, `range_start`, `range_end`, `tile_coords`) are the fields themselves.
- `malloc`/`new` failure paths other than the thread-pool check in `init`.

## Findings

| source | as written | input that shows it | evidently intended | confidence | as-written member | corrected member |
|---|---|---|---|---|---|---|
| tiledb/sm/filesystem/vfs.cc:688-695 | with c = ceil(nbytes/num_ops), ranges i*c .. min((i+1)*c-1, nbytes-1) for every i < num_ops | nbytes 5, min_parallel_size 1, pool 4: c = 2 and the 4th range is [6, 4], so its size wraps in uint64 | only ranges that start below nbytes, partitioning [0, nbytes) | not executed | ReadChunks.SourceFourthChunkUnderflows | ReadChunks.ChunksPartition |
| tiledb/sm/query/query.cc:1584-1587 | the loop breaks when the top fragment starts after end, without advancing start; 1619-1620 then emits [start, end] again | one fragment with range [5, 9], cells [0, 3]: the output is [0, 3] twice | [start, end] emitted once, so the output partitions the interval | not executed | DenseRanges.AsWrittenEmitsTwice | DenseRanges.ComputeDenseCellRanges |
