/** What the VFS operations promise, proved about their definitions. */
module VfsLaws {
  import opened Common
  import opened ReadChunks
  import opened Vfs

  /* Routing */

  /** A known scheme whose backend is not compiled in gives the
      "built without" error, never "unsupported scheme", and changes
      nothing, whichever operation is called. */
  lemma UncompiledSchemeBuiltWithout(sup: set<Filesystem>, nodes: map<Uri, Node>, uri: Uri, fs: Filesystem,
                                     mode: VfsMode, data: seq<byte>)
    requires (uri.scheme == HdfsScheme && fs == HDFS) || (uri.scheme == S3Scheme && fs == S3)
    requires fs !in sup
    ensures CreateDirOf(sup, nodes, uri) == Effect(Fail(BuiltWithout(fs)), nodes)
    ensures TouchOf(sup, nodes, uri) == Effect(Fail(BuiltWithout(fs)), nodes)
    ensures RemoveDirOf(sup, nodes, uri) == Effect(Fail(BuiltWithout(fs)), nodes)
    ensures RemoveFileOf(sup, nodes, uri) == Effect(Fail(BuiltWithout(fs)), nodes)
    ensures WriteOf(sup, nodes, uri, data) == Effect(Fail(BuiltWithout(fs)), nodes)
    ensures OpenFileOf(sup, nodes, uri, mode) == Effect(Fail(BuiltWithout(fs)), nodes)
    ensures IsDirOf(sup, nodes, uri) == Failure(BuiltWithout(fs))
    ensures IsFileOf(sup, nodes, uri) == Failure(BuiltWithout(fs))
    ensures FileSizeOf(sup, nodes, uri) == Failure(BuiltWithout(fs))
    ensures LsOf(sup, nodes, uri) == Failure(BuiltWithout(fs))
    ensures LockOf(sup, nodes, uri) == Fail(BuiltWithout(fs)) && UnlockOf(sup, uri) == Fail(BuiltWithout(fs))
    ensures SyncOf(sup, nodes, uri) == Fail(BuiltWithout(fs)) && CloseFileOf(sup, nodes, uri) == Fail(BuiltWithout(fs))
  {
  }

  /** A URI of no storage scheme is refused by every operation. */
  lemma OtherSchemeUnsupported(sup: set<Filesystem>, nodes: map<Uri, Node>, uri: Uri, other: Uri,
                               mode: VfsMode, data: seq<byte>)
    requires uri.scheme == OtherScheme
    ensures CreateDirOf(sup, nodes, uri) == Effect(Fail(UnsupportedScheme), nodes)
    ensures TouchOf(sup, nodes, uri) == Effect(Fail(UnsupportedScheme), nodes)
    ensures RemoveDirOf(sup, nodes, uri) == Effect(Fail(UnsupportedScheme), nodes)
    ensures RemoveFileOf(sup, nodes, uri) == Effect(Fail(UnsupportedScheme), nodes)
    ensures WriteOf(sup, nodes, uri, data) == Effect(Fail(UnsupportedScheme), nodes)
    ensures OpenFileOf(sup, nodes, uri, mode) == Effect(Fail(UnsupportedScheme), nodes)
    ensures MoveDirOf(sup, nodes, uri, other) == Effect(Fail(UnsupportedScheme), nodes)
    ensures LsOf(sup, nodes, uri) == Failure(UnsupportedScheme)
    ensures LockOf(sup, nodes, uri) == Fail(UnsupportedScheme) && UnlockOf(sup, uri) == Fail(UnsupportedScheme)
    ensures SyncOf(sup, nodes, uri) == Fail(UnsupportedScheme) && CloseFileOf(sup, nodes, uri) == Fail(UnsupportedScheme)
  {
  }

  /** Bucket operations fail on every URI that is not an S3 URI, and
      change nothing. */
  lemma BucketOpsS3Only(sup: set<Filesystem>, nodes: map<Uri, Node>, uri: Uri)
    requires uri.scheme != S3Scheme
    ensures CreateBucketOf(sup, nodes, uri) == Effect(Fail(UnsupportedScheme), nodes)
    ensures RemoveBucketOf(sup, nodes, uri) == Effect(Fail(UnsupportedScheme), nodes)
    ensures EmptyBucketOf(sup, nodes, uri) == Effect(Fail(UnsupportedScheme), nodes)
    ensures IsEmptyBucketOf(sup, nodes, uri) == Failure(UnsupportedScheme)
    ensures IsBucketOf(sup, nodes, uri) == Failure(UnsupportedScheme)
  {
  }

  /** On HDFS and S3, when compiled in, locking and unlocking succeed
      whatever the URI names. */
  lemma RemoteLocksAreNoOps(sup: set<Filesystem>, nodes: map<Uri, Node>, uri: Uri)
    requires (uri.scheme == HdfsScheme && HDFS in sup) || (uri.scheme == S3Scheme && S3 in sup)
    ensures LockOf(sup, nodes, uri) == Ok && UnlockOf(sup, uri) == Ok
  {
  }

  /** A local lock succeeds exactly on an existing file. */
  lemma LocalLockNeedsFile(sup: set<Filesystem>, nodes: map<Uri, Node>, uri: Uri)
    requires uri.scheme == FileScheme
    ensures LockOf(sup, nodes, uri) == Ok <==> IsFileNode(nodes, uri)
  {
  }

  /* create_dir */

  /** On a directory that already exists (outside S3), `create_dir` succeeds
      with no backend call and no change. */
  lemma CreateDirOnExistingDir(sup: set<Filesystem>, nodes: map<Uri, Node>, uri: Uri)
    requires uri.scheme != S3Scheme && IsDirOf(sup, nodes, uri) == Success(true)
    ensures CreateDirOf(sup, nodes, uri) == Effect(Ok, nodes)
  {
  }

  /** On S3, `create_dir` is a no-op that succeeds when S3 is compiled in. */
  lemma CreateDirOnS3(sup: set<Filesystem>, nodes: map<Uri, Node>, uri: Uri)
    requires uri.scheme == S3Scheme
    ensures CreateDirOf(sup, nodes, uri) == Effect(if S3 in sup then Ok else Fail(BuiltWithout(S3)), nodes)
  {
  }

  /** A successful `create_dir` leaves a directory (outside S3), and calling
      it again succeeds and changes nothing. */
  lemma CreateDirIdempotent(sup: set<Filesystem>, nodes: map<Uri, Node>, uri: Uri)
    requires CreateDirOf(sup, nodes, uri).status == Ok
    ensures uri.scheme != S3Scheme ==> IsDirOf(sup, CreateDirOf(sup, nodes, uri).nodes, uri) == Success(true)
    ensures CreateDirOf(sup, CreateDirOf(sup, nodes, uri).nodes, uri)
            == Effect(Ok, CreateDirOf(sup, nodes, uri).nodes)
  {
    var e := CreateDirOf(sup, nodes, uri);
    if uri.scheme != S3Scheme {
      assert IsDirNode(e.nodes, uri);
      CreateDirOnExistingDir(sup, e.nodes, uri);
    }
  }

  /* Files */

  /** `touch` succeeds exactly on a compiled scheme where no directory or
      bucket is in the way, and then leaves a zero-length file: an existing
      file is truncated, an absent one created. */
  lemma TouchMakesFile(sup: set<Filesystem>, nodes: map<Uri, Node>, uri: Uri)
    ensures TouchOf(sup, nodes, uri).status == Ok
            <==> Compiled(sup, uri.scheme) && (uri !in nodes || nodes[uri].File?)
    ensures TouchOf(sup, nodes, uri).status == Ok ==>
              TouchOf(sup, nodes, uri).nodes == nodes[uri := File([])]
              && IsFileOf(sup, TouchOf(sup, nodes, uri).nodes, uri) == Success(true)
              && FileSizeOf(sup, TouchOf(sup, nodes, uri).nodes, uri) == Success(0)
  {
  }

  /** `remove_file` succeeds exactly on an existing file of a compiled
      scheme, and removes that one entry. */
  lemma RemoveFileRemovesOne(sup: set<Filesystem>, nodes: map<Uri, Node>, uri: Uri)
    ensures RemoveFileOf(sup, nodes, uri).status == Ok <==> IsFileOf(sup, nodes, uri) == Success(true)
    ensures RemoveFileOf(sup, nodes, uri).status == Ok ==>
              RemoveFileOf(sup, nodes, uri).nodes == nodes - {uri}
              && IsFileOf(sup, RemoveFileOf(sup, nodes, uri).nodes, uri) == Success(false)
  {
  }

  /** A successful `remove_dir` leaves nothing at or below the directory
      and keeps everything else. */
  lemma RemoveDirRemovesTree(sup: set<Filesystem>, nodes: map<Uri, Node>, uri: Uri)
    requires RemoveDirOf(sup, nodes, uri).status == Ok
    ensures forall u :: u in RemoveDirOf(sup, nodes, uri).nodes <==> u in nodes && !InTree(u, uri)
    ensures IsDirOf(sup, RemoveDirOf(sup, nodes, uri).nodes, uri) == Success(false)
  {
    assert InTree(uri, uri);
  }

  /** What a successful `write` appended can be read back, and the file
      grew by exactly as much. */
  lemma WriteThenRead(sup: set<Filesystem>, nodes: map<Uri, Node>, uri: Uri, data: seq<byte>,
                      transient: (nat, nat) -> bool)
    requires WriteOf(sup, nodes, uri, data).status == Ok
    requires forall o, n :: !transient(o, n)
    ensures var size := if IsFileNode(nodes, uri) then |nodes[uri].bytes| else 0;
            ReadImplOf(sup, WriteOf(sup, nodes, uri, data).nodes, uri, size, |data|, transient) == Success(data)
            && FileSizeOf(sup, WriteOf(sup, nodes, uri, data).nodes, uri) == Success(size + |data|)
  {
    var size := if IsFileNode(nodes, uri) then |nodes[uri].bytes| else 0;
    var after := WriteOf(sup, nodes, uri, data).nodes;
    assert after[uri].bytes[size..size + |data|] == data;
  }

  /* open_file */

  /** Opening for reading succeeds exactly on an existing file, and never
      changes anything. */
  lemma OpenReadNeedsFile(sup: set<Filesystem>, nodes: map<Uri, Node>, uri: Uri)
    ensures OpenFileOf(sup, nodes, uri, VfsRead).status == Ok <==> IsFileOf(sup, nodes, uri) == Success(true)
    ensures OpenFileOf(sup, nodes, uri, VfsRead).nodes == nodes
    ensures IsFileOf(sup, nodes, uri) == Success(false) ==>
              OpenFileOf(sup, nodes, uri, VfsRead).status == Fail(FileDoesNotExist)
  {
  }

  /** Opening an existing file for writing removes it. */
  lemma OpenWriteRemovesFile(sup: set<Filesystem>, nodes: map<Uri, Node>, uri: Uri)
    requires IsFileOf(sup, nodes, uri) == Success(true)
    ensures OpenFileOf(sup, nodes, uri, VfsWrite) == Effect(Ok, nodes - {uri})
  {
  }

  /** Appending is refused on every S3 URI. */
  lemma OpenAppendOnS3Fails(sup: set<Filesystem>, nodes: map<Uri, Node>, uri: Uri)
    requires uri.scheme == S3Scheme
    ensures OpenFileOf(sup, nodes, uri, VfsAppend).status.Fail?
    ensures OpenFileOf(sup, nodes, uri, VfsAppend).nodes == nodes
    ensures S3 in sup ==> OpenFileOf(sup, nodes, uri, VfsAppend).status == Fail(NoAppendOnS3)
  {
  }

  /** Every other combination succeeds and changes nothing. */
  lemma OpenOtherwiseNoChange(sup: set<Filesystem>, nodes: map<Uri, Node>, uri: Uri, mode: VfsMode)
    requires IsFileOf(sup, nodes, uri).Success?
    requires (mode == VfsRead && IsFileOf(sup, nodes, uri).value)
          || (mode == VfsWrite && !IsFileOf(sup, nodes, uri).value)
          || (mode == VfsAppend && uri.scheme != S3Scheme)
    ensures OpenFileOf(sup, nodes, uri, mode) == Effect(Ok, nodes)
  {
  }

  /* Moves */

  /** Moves between different schemes always fail; `move_dir` then changes
      nothing. */
  lemma CrossSchemeMoveFails(sup: set<Filesystem>, nodes: map<Uri, Node>, from: Uri, to: Uri)
    requires from.scheme != to.scheme
    ensures MoveDirOf(sup, nodes, from, to).status.Fail?
    ensures MoveDirOf(sup, nodes, from, to).nodes == nodes
    ensures MoveFileOf(sup, nodes, from, to).status.Fail?
    ensures from.scheme != OtherScheme ==> MoveDirOf(sup, nodes, from, to).status == Fail(CrossFilesystemMove)
  {
  }

  /** A `move_file` across schemes fails, but only after it has removed an
      existing destination file. */
  lemma CrossSchemeMoveFileDeletesDestination(sup: set<Filesystem>, nodes: map<Uri, Node>, from: Uri, to: Uri)
    requires from.scheme != to.scheme && from.scheme != OtherScheme
    requires IsFileOf(sup, nodes, to) == Success(true)
    ensures MoveFileOf(sup, nodes, from, to) == Effect(Fail(CrossFilesystemMove), nodes - {to})
  {
  }

  /** Moving a tree puts the node of `from` at `to` and leaves nothing at
      `from`. */
  lemma MoveTreeMovesRoot(nodes: map<Uri, Node>, from: Uri, to: Uri)
    requires from in nodes && forall u :: u in nodes ==> !InTree(u, to)
    ensures to in MoveTree(nodes, from, to) && MoveTree(nodes, from, to)[to] == nodes[from]
    ensures from !in MoveTree(nodes, from, to)
  {
    var m := MoveTree(nodes, from, to);
    assert from.path[|from.path|..] == [];
    assert from.path + "" == from.path;
    assert to.path + "" == to.path;
    assert InTree(from, from);
    assert Moved(from, from, to) == to;
    MovedInjective(nodes, from, to);
    assert to in m;
    if from in m {
      var u :| u in nodes && Moved(u, from, to) == from;
      if InTree(u, from) {
        RerootInTree(u, from, to);
      }
      assert false;
    }
  }

  /** A successful `move_file` of a file leaves that file, with its bytes,
      at the destination and nothing at the source. */
  lemma MoveFileMovesFile(sup: set<Filesystem>, nodes: map<Uri, Node>, from: Uri, to: Uri)
    requires MoveFileOf(sup, nodes, from, to).status == Ok && IsFileNode(nodes, from) && from != to
    ensures IsFileNode(MoveFileOf(sup, nodes, from, to).nodes, to)
    ensures MoveFileOf(sup, nodes, from, to).nodes[to] == nodes[from]
    ensures from !in MoveFileOf(sup, nodes, from, to).nodes
  {
    var removed := if IsFileNode(nodes, to) then nodes - {to} else nodes;
    assert from in removed;
    MoveTreeMovesRoot(removed, from, to);
  }

  /* read */

  /** Without transient device faults, a read split into chunks succeeds
      exactly when the same read done in one piece would. */
  lemma ParallelReadAgreesWithSingle(sup: set<Filesystem>, nodes: map<Uri, Node>, uri: Uri, offset: nat,
                                     nbytes: nat, minParallelSize: nat, poolSize: nat,
                                     transient: (nat, nat) -> bool)
    requires minParallelSize > 0 && poolSize > 0
    requires forall o, n :: !transient(o, n)
    ensures ReadStatusOf(sup, nodes, uri, offset, nbytes, NumOps(nbytes, minParallelSize, poolSize), transient) == Ok
            <==> ReadImplOf(sup, nodes, uri, offset, nbytes, transient).Success?
  {
    var k := NumOps(nbytes, minParallelSize, poolSize);
    if k > 1 {
      var cs := Chunks(nbytes, k);
      ChunksPartition(nbytes, k);
      CoversBounds(cs, 0, nbytes);
      if ReadImplOf(sup, nodes, uri, offset, nbytes, transient).Success? {
        forall i | 0 <= i < |cs|
          ensures ReadImplOf(sup, nodes, uri, offset + cs[i].begin, cs[i].len, transient).Success?
        {
        }
      }
      if forall i :: 0 <= i < |cs| ==> ReadImplOf(sup, nodes, uri, offset + cs[i].begin, cs[i].len, transient).Success? {
        var last := |cs| - 1;
        CoversAt(cs, 0, nbytes, last);
        assert ReadImplOf(sup, nodes, uri, offset + cs[last].begin, cs[last].len, transient).Success?;
      }
    }
  }
}
