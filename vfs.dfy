/** The virtual filesystem: routing of every operation on a URI to the
    local, HDFS or S3 backend (or to a fixed error), the extra semantics
    some operations put on top, and the parallel read.

    The backends themselves are one stand-in: a map from URI to node (a
    file with its bytes, a directory or a bucket), with the plain
    semantics each backend call is documented to have. */
module Vfs {
  import opened Common
  import opened ReadChunks
  import PathOrder

  /** What `URI::is_file`, `is_hdfs` and `is_s3` classify a URI as. */
  datatype Scheme = FileScheme | HdfsScheme | S3Scheme | OtherScheme

  datatype Uri = Uri(scheme: Scheme, path: string)

  /** The optional backends a build can have compiled in. */
  datatype Filesystem = HDFS | S3

  datatype Node = File(bytes: seq<byte>) | Dir | Bucket

  datatype VfsMode = VfsRead | VfsWrite | VfsAppend

  /** The error kinds `VFS` returns (their wording is not modelled). */
  datatype VfsError =
    | BuiltWithout(fs: Filesystem)  // "TileDB was built without ... support"
    | UnsupportedScheme             // "Unsupported URI scheme"
    | CrossFilesystemMove           // "Moving files across filesystems is not supported yet"
    | FileDoesNotExist              // open_file in read mode on a missing file
    | NoAppendOnS3                  // "S3 does not support append mode"
    | ParallelReadError             // "VFS parallel read error"
    | ThreadPoolCreationFailed      // "Could not create VFS thread pool"
    | BackendError                  // whatever error the backend call reports

  datatype VfsParams = VfsParams(maxParallelOps: nat, minParallelSize: nat)

  /** The status of a call together with the filesystem after it. */
  datatype Effect = Effect(status: Outcome<VfsError>, nodes: map<Uri, Node>)

  /** Where the scheme test of one operation sends a call. */
  datatype Route = Backend | Refuse(error: VfsError)

  /* ---------------------------------------------------------------- */
  /* Routing                                                          */
  /* ---------------------------------------------------------------- */

  /** The scheme has a backend in this build. */
  predicate Compiled(supported: set<Filesystem>, s: Scheme)
  {
    s == FileScheme || (s == HdfsScheme && HDFS in supported) || (s == S3Scheme && S3 in supported)
  }

  /** The if-chain every general operation starts with: local files always
      have a backend, HDFS and S3 only when compiled in, anything else is
      an unsupported scheme. */
  function RouteOf(supported: set<Filesystem>, s: Scheme): (r: Route)
    ensures r.Backend? <==> Compiled(supported, s)
    ensures s == OtherScheme ==> r == Refuse(UnsupportedScheme)
    ensures s == HdfsScheme && r.Refuse? ==> r.error == BuiltWithout(HDFS)
    ensures s == S3Scheme && r.Refuse? ==> r.error == BuiltWithout(S3)
  {
    match s
    case FileScheme => Backend
    case HdfsScheme => if HDFS in supported then Backend else Refuse(BuiltWithout(HDFS))
    case S3Scheme => if S3 in supported then Backend else Refuse(BuiltWithout(S3))
    case OtherScheme => Refuse(UnsupportedScheme)
  }

  /** The routing of the bucket operations and `is_bucket`: S3 only. */
  function BucketRouteOf(supported: set<Filesystem>, s: Scheme): (r: Route)
    ensures r.Backend? <==> s == S3Scheme && S3 in supported
    ensures s != S3Scheme ==> r == Refuse(UnsupportedScheme)
    ensures s == S3Scheme && r.Refuse? ==> r.error == BuiltWithout(S3)
  {
    if s != S3Scheme then Refuse(UnsupportedScheme)
    else if S3 in supported then Backend
    else Refuse(BuiltWithout(S3))
  }

  /** Apply a backend effect when routed there; otherwise the error and
      no change. */
  function Dispatch(r: Route, e: Effect, nodes: map<Uri, Node>): Effect
  {
    match r
    case Backend => e
    case Refuse(err) => Effect(Fail(err), nodes)
  }

  /** The same for a call that only reports a value. */
  function Ask<T>(r: Route, v: Result<T, VfsError>): Result<T, VfsError>
  {
    match r
    case Backend => v
    case Refuse(err) => Failure(err)
  }

  function StatusOf<T>(v: Result<T, VfsError>): Outcome<VfsError>
  {
    match v
    case Success(_) => Ok
    case Failure(e) => Fail(e)
  }

  /* ---------------------------------------------------------------- */
  /* The stand-in backend                                             */
  /* ---------------------------------------------------------------- */

  /** `u` is `root` or lies below it. */
  predicate InTree(u: Uri, root: Uri)
  {
    u.scheme == root.scheme && (u.path == root.path || root.path + "/" <= u.path)
  }

  /** `u` is an immediate entry of directory `parent`. */
  predicate IsChild(u: Uri, parent: Uri)
  {
    var n := |parent.path|;
    u.scheme == parent.scheme && |u.path| > n + 1 && u.path[..n + 1] == parent.path + "/"
    && '/' !in u.path[n + 1..]
  }

  function Children(nodes: map<Uri, Node>, parent: Uri): set<Uri>
  {
    set u | u in nodes && IsChild(u, parent)
  }

  predicate IsFileNode(nodes: map<Uri, Node>, u: Uri) { u in nodes && nodes[u].File? }

  predicate IsDirNode(nodes: map<Uri, Node>, u: Uri) { u in nodes && nodes[u].Dir? }

  predicate IsBucketNode(nodes: map<Uri, Node>, u: Uri) { u in nodes && nodes[u].Bucket? }

  /** The filesystem without `root` and everything below it. */
  function RemoveTree(nodes: map<Uri, Node>, root: Uri): (r: map<Uri, Node>)
    ensures forall u :: u in r <==> u in nodes && !InTree(u, root)
    ensures forall u :: u in r ==> r[u] == nodes[u]
  {
    map u | u in nodes && !InTree(u, root) :: nodes[u]
  }

  /** `u`, which lies in the tree of `from`, moved to the tree of `to`. */
  function Reroot(u: Uri, from: Uri, to: Uri): Uri
    requires InTree(u, from)
  {
    Uri(to.scheme, to.path + u.path[|from.path|..])
  }

  lemma RerootInTree(u: Uri, from: Uri, to: Uri)
    requires InTree(u, from)
    ensures InTree(Reroot(u, from, to), to)
  {
    var rest := u.path[|from.path|..];
    if u.path != from.path {
      assert u.path == from.path + rest by {
        assert u.path[..|from.path|] == from.path;
      }
      assert rest[..1] == "/" by {
        assert (from.path + "/")[|from.path|] == '/';
      }
      assert (to.path + rest)[..|to.path| + 1] == to.path + "/";
    }
  }

  lemma RerootInjective(u1: Uri, u2: Uri, from: Uri, to: Uri)
    requires InTree(u1, from) && InTree(u2, from) && Reroot(u1, from, to) == Reroot(u2, from, to)
    ensures u1 == u2
  {
    var r1 := u1.path[|from.path|..];
    var r2 := u2.path[|from.path|..];
    assert (to.path + r1)[|to.path|..] == r1;
    assert (to.path + r2)[|to.path|..] == r2;
    assert u1.path == u1.path[..|from.path|] + r1;
    assert u2.path == u2.path[..|from.path|] + r2;
  }

  /** A node's place after moving the tree of `from` to `to`. */
  function Moved(u: Uri, from: Uri, to: Uri): Uri
  {
    if InTree(u, from) then Reroot(u, from, to) else u
  }

  /** With nothing at or below `to`, no two nodes land on the same place. */
  lemma MovedInjective(nodes: map<Uri, Node>, from: Uri, to: Uri)
    requires forall u :: u in nodes ==> !InTree(u, to)
    ensures forall u1, u2 :: u1 in nodes && u2 in nodes && Moved(u1, from, to) == Moved(u2, from, to) ==> u1 == u2
  {
    forall u1, u2 | u1 in nodes && u2 in nodes && Moved(u1, from, to) == Moved(u2, from, to)
      ensures u1 == u2
    {
      if InTree(u1, from) { RerootInTree(u1, from, to); }
      if InTree(u2, from) { RerootInTree(u2, from, to); }
      if InTree(u1, from) && InTree(u2, from) { RerootInjective(u1, u2, from, to); }
    }
  }

  /** `from` and its tree moved to `to`, given nothing is at or below `to`. */
  function MoveTree(nodes: map<Uri, Node>, from: Uri, to: Uri): map<Uri, Node>
    requires forall u :: u in nodes ==> !InTree(u, to)
  {
    MovedInjective(nodes, from, to);
    map u | u in nodes :: Moved(u, from, to) := nodes[u]
  }

  function BackendCreateDir(nodes: map<Uri, Node>, uri: Uri): Effect
  {
    if uri in nodes then Effect(Fail(BackendError), nodes) else Effect(Ok, nodes[uri := Dir])
  }

  /** `touch` leaves a zero-length file at the URI, whether or not a file
      was there; a directory or bucket there is an error. */
  function BackendTouch(nodes: map<Uri, Node>, uri: Uri): Effect
  {
    if uri !in nodes || nodes[uri].File? then Effect(Ok, nodes[uri := File([])])
    else Effect(Fail(BackendError), nodes)
  }

  function BackendRemoveDir(nodes: map<Uri, Node>, uri: Uri): Effect
  {
    if IsDirNode(nodes, uri) then Effect(Ok, RemoveTree(nodes, uri)) else Effect(Fail(BackendError), nodes)
  }

  function BackendRemoveFile(nodes: map<Uri, Node>, uri: Uri): Effect
  {
    if IsFileNode(nodes, uri) then Effect(Ok, nodes - {uri}) else Effect(Fail(BackendError), nodes)
  }

  function BackendFileSize(nodes: map<Uri, Node>, uri: Uri): Result<nat, VfsError>
  {
    if IsFileNode(nodes, uri) then Success(|nodes[uri].bytes|) else Failure(BackendError)
  }

  /** The backend's listing, in no particular order. */
  function BackendLs(nodes: map<Uri, Node>, parent: Uri): Result<set<Uri>, VfsError>
  {
    if IsDirNode(nodes, parent) || IsBucketNode(nodes, parent) then Success(Children(nodes, parent))
    else Failure(BackendError)
  }

  function BackendMove(nodes: map<Uri, Node>, from: Uri, to: Uri): Effect
  {
    if from in nodes && forall u :: u in nodes ==> !InTree(u, to) then
      Effect(Ok, MoveTree(nodes, from, to))
    else
      Effect(Fail(BackendError), nodes)
  }

  /** `nbytes` bytes at `offset`; `transient(offset, nbytes)` says whether
      the device fails this particular request. */
  function BackendRead(nodes: map<Uri, Node>, uri: Uri, offset: nat, nbytes: nat,
                       transient: (nat, nat) -> bool): Result<seq<byte>, VfsError>
  {
    if IsFileNode(nodes, uri) && offset + nbytes <= |nodes[uri].bytes| && !transient(offset, nbytes) then
      Success(nodes[uri].bytes[offset..offset + nbytes])
    else
      Failure(BackendError)
  }

  /** Writes append to the file, creating it when absent. */
  function BackendWrite(nodes: map<Uri, Node>, uri: Uri, data: seq<byte>): Effect
  {
    if uri !in nodes then Effect(Ok, nodes[uri := File(data)])
    else if nodes[uri].File? then Effect(Ok, nodes[uri := File(nodes[uri].bytes + data)])
    else Effect(Fail(BackendError), nodes)
  }

  function BackendSync(nodes: map<Uri, Node>, uri: Uri): Outcome<VfsError>
  {
    if uri in nodes then Ok else Fail(BackendError)
  }

  function BackendLock(nodes: map<Uri, Node>, uri: Uri): Outcome<VfsError>
  {
    if IsFileNode(nodes, uri) then Ok else Fail(BackendError)
  }

  function BackendCreateBucket(nodes: map<Uri, Node>, uri: Uri): Effect
  {
    if uri in nodes then Effect(Fail(BackendError), nodes) else Effect(Ok, nodes[uri := Bucket])
  }

  function BackendRemoveBucket(nodes: map<Uri, Node>, uri: Uri): Effect
  {
    if IsBucketNode(nodes, uri) then Effect(Ok, RemoveTree(nodes, uri)) else Effect(Fail(BackendError), nodes)
  }

  function BackendEmptyBucket(nodes: map<Uri, Node>, uri: Uri): Effect
  {
    if IsBucketNode(nodes, uri) then Effect(Ok, RemoveTree(nodes, uri)[uri := Bucket])
    else Effect(Fail(BackendError), nodes)
  }

  predicate NothingBelow(nodes: map<Uri, Node>, uri: Uri)
  {
    forall u :: u in nodes && InTree(u, uri) ==> u == uri
  }

  function BackendIsEmptyBucket(nodes: map<Uri, Node>, uri: Uri): Result<bool, VfsError>
  {
    if IsBucketNode(nodes, uri) then Success(NothingBelow(nodes, uri)) else Failure(BackendError)
  }

  /* ---------------------------------------------------------------- */
  /* What each VFS operation does, on values                          */
  /* ---------------------------------------------------------------- */

  function IsDirOf(sup: set<Filesystem>, nodes: map<Uri, Node>, uri: Uri): Result<bool, VfsError>
  {
    Ask(RouteOf(sup, uri.scheme), Success(IsDirNode(nodes, uri)))
  }

  function IsFileOf(sup: set<Filesystem>, nodes: map<Uri, Node>, uri: Uri): Result<bool, VfsError>
  {
    Ask(RouteOf(sup, uri.scheme), Success(IsFileNode(nodes, uri)))
  }

  function IsBucketOf(sup: set<Filesystem>, nodes: map<Uri, Node>, uri: Uri): Result<bool, VfsError>
  {
    Ask(BucketRouteOf(sup, uri.scheme), Success(IsBucketNode(nodes, uri)))
  }

  function FileSizeOf(sup: set<Filesystem>, nodes: map<Uri, Node>, uri: Uri): Result<nat, VfsError>
  {
    Ask(RouteOf(sup, uri.scheme), BackendFileSize(nodes, uri))
  }

  function LsOf(sup: set<Filesystem>, nodes: map<Uri, Node>, parent: Uri): Result<set<Uri>, VfsError>
  {
    Ask(RouteOf(sup, parent.scheme), BackendLs(nodes, parent))
  }

  /** `create_dir`: except on S3, an existing directory is success with no
      backend call; on S3 directories do not exist and the call is a no-op. */
  function CreateDirOf(sup: set<Filesystem>, nodes: map<Uri, Node>, uri: Uri): Effect
  {
    if uri.scheme != S3Scheme then
      match IsDirOf(sup, nodes, uri)
      case Failure(e) => Effect(Fail(e), nodes)
      case Success(isDir) =>
        if isDir then Effect(Ok, nodes)
        else Dispatch(RouteOf(sup, uri.scheme), BackendCreateDir(nodes, uri), nodes)
    else
      Dispatch(RouteOf(sup, uri.scheme), Effect(Ok, nodes), nodes)
  }

  function TouchOf(sup: set<Filesystem>, nodes: map<Uri, Node>, uri: Uri): Effect
  {
    Dispatch(RouteOf(sup, uri.scheme), BackendTouch(nodes, uri), nodes)
  }

  function RemoveDirOf(sup: set<Filesystem>, nodes: map<Uri, Node>, uri: Uri): Effect
  {
    Dispatch(RouteOf(sup, uri.scheme), BackendRemoveDir(nodes, uri), nodes)
  }

  function RemoveFileOf(sup: set<Filesystem>, nodes: map<Uri, Node>, uri: Uri): Effect
  {
    Dispatch(RouteOf(sup, uri.scheme), BackendRemoveFile(nodes, uri), nodes)
  }

  function CreateBucketOf(sup: set<Filesystem>, nodes: map<Uri, Node>, uri: Uri): Effect
  {
    Dispatch(BucketRouteOf(sup, uri.scheme), BackendCreateBucket(nodes, uri), nodes)
  }

  function RemoveBucketOf(sup: set<Filesystem>, nodes: map<Uri, Node>, uri: Uri): Effect
  {
    Dispatch(BucketRouteOf(sup, uri.scheme), BackendRemoveBucket(nodes, uri), nodes)
  }

  function EmptyBucketOf(sup: set<Filesystem>, nodes: map<Uri, Node>, uri: Uri): Effect
  {
    Dispatch(BucketRouteOf(sup, uri.scheme), BackendEmptyBucket(nodes, uri), nodes)
  }

  function IsEmptyBucketOf(sup: set<Filesystem>, nodes: map<Uri, Node>, uri: Uri): Result<bool, VfsError>
  {
    Ask(BucketRouteOf(sup, uri.scheme), BackendIsEmptyBucket(nodes, uri))
  }

  /** File locks are real only on local files; HDFS and S3 accept them. */
  function LockOf(sup: set<Filesystem>, nodes: map<Uri, Node>, uri: Uri): Outcome<VfsError>
  {
    match RouteOf(sup, uri.scheme)
    case Refuse(e) => Fail(e)
    case Backend => if uri.scheme == FileScheme then BackendLock(nodes, uri) else Ok
  }

  /** Unlocking a local file releases its descriptor, which cannot fail in
      this model. */
  function UnlockOf(sup: set<Filesystem>, uri: Uri): Outcome<VfsError>
  {
    match RouteOf(sup, uri.scheme)
    case Refuse(e) => Fail(e)
    case Backend => Ok
  }

  /** The scheme comparison shared by `move_file` and `move_dir`. */
  function MoveOf(sup: set<Filesystem>, nodes: map<Uri, Node>, from: Uri, to: Uri): Effect
  {
    if from.scheme == OtherScheme then Effect(Fail(UnsupportedScheme), nodes)
    else if to.scheme != from.scheme then Effect(Fail(CrossFilesystemMove), nodes)
    else Dispatch(RouteOf(sup, from.scheme), BackendMove(nodes, from, to), nodes)
  }

  /** `move_file`: an existing destination file is removed first, before
      the schemes are compared. */
  function MoveFileOf(sup: set<Filesystem>, nodes: map<Uri, Node>, from: Uri, to: Uri): Effect
  {
    match IsFileOf(sup, nodes, to)
    case Failure(e) => Effect(Fail(e), nodes)
    case Success(isFile) =>
      var removed := if isFile then RemoveFileOf(sup, nodes, to) else Effect(Ok, nodes);
      if removed.status.Fail? then removed else MoveOf(sup, removed.nodes, from, to)
  }

  function MoveDirOf(sup: set<Filesystem>, nodes: map<Uri, Node>, from: Uri, to: Uri): Effect
  {
    MoveOf(sup, nodes, from, to)
  }

  function ReadImplOf(sup: set<Filesystem>, nodes: map<Uri, Node>, uri: Uri, offset: nat, nbytes: nat,
                      transient: (nat, nat) -> bool): Result<seq<byte>, VfsError>
  {
    Ask(RouteOf(sup, uri.scheme), BackendRead(nodes, uri, offset, nbytes, transient))
  }

  /** The status of `read` split `numOps` ways: the single read's own
      status, or success exactly when every chunk succeeds. */
  function ReadStatusOf(sup: set<Filesystem>, nodes: map<Uri, Node>, uri: Uri, offset: nat, nbytes: nat,
                        numOps: nat, transient: (nat, nat) -> bool): Outcome<VfsError>
    requires numOps >= 1
  {
    if numOps == 1 then StatusOf(ReadImplOf(sup, nodes, uri, offset, nbytes, transient))
    else
      var cs := Chunks(nbytes, numOps);
      if forall i :: 0 <= i < |cs| ==> ReadImplOf(sup, nodes, uri, offset + cs[i].begin, cs[i].len, transient).Success?
      then Ok
      else Fail(ParallelReadError)
  }

  function SyncOf(sup: set<Filesystem>, nodes: map<Uri, Node>, uri: Uri): Outcome<VfsError>
  {
    match RouteOf(sup, uri.scheme)
    case Refuse(e) => Fail(e)
    case Backend => if uri.scheme == S3Scheme then Ok else BackendSync(nodes, uri)
  }

  /** `close_file`: local files and HDFS are synced, S3 objects flushed
      (writes reach this model's S3 at once, so the flush succeeds). */
  function CloseFileOf(sup: set<Filesystem>, nodes: map<Uri, Node>, uri: Uri): Outcome<VfsError>
  {
    match RouteOf(sup, uri.scheme)
    case Refuse(e) => Fail(e)
    case Backend => if uri.scheme == S3Scheme then Ok else BackendSync(nodes, uri)
  }

  function WriteOf(sup: set<Filesystem>, nodes: map<Uri, Node>, uri: Uri, data: seq<byte>): Effect
  {
    Dispatch(RouteOf(sup, uri.scheme), BackendWrite(nodes, uri, data), nodes)
  }

  /** `open_file`: read needs an existing file, write removes one, append
      is refused on S3. */
  function OpenFileOf(sup: set<Filesystem>, nodes: map<Uri, Node>, uri: Uri, mode: VfsMode): Effect
  {
    match IsFileOf(sup, nodes, uri)
    case Failure(e) => Effect(Fail(e), nodes)
    case Success(isFile) =>
      match mode
      case VfsRead => if isFile then Effect(Ok, nodes) else Effect(Fail(FileDoesNotExist), nodes)
      case VfsWrite => if isFile then RemoveFileOf(sup, nodes, uri) else Effect(Ok, nodes)
      case VfsAppend =>
        if uri.scheme == S3Scheme then
          Effect(Fail(if S3 in sup then NoAppendOnS3 else BuiltWithout(S3)), nodes)
        else
          Effect(Ok, nodes)
  }

  /** The compiled set the constructor builds. */
  function BuiltWith(haveHdfs: bool, haveS3: bool): (r: set<Filesystem>)
    ensures HDFS in r <==> haveHdfs
    ensures S3 in r <==> haveS3
  {
    (if haveHdfs then {HDFS} else {}) + (if haveS3 then {S3} else {})
  }

  /* ---------------------------------------------------------------- */
  /* The VFS object                                                   */
  /* ---------------------------------------------------------------- */

  class VFS {
    /** `supported_fs_`: the backends compiled in. */
    const supportedFs: set<Filesystem>
    /** The state of every backend. */
    var nodes: map<Uri, Node>
    /** `vfs_params_`. */
    var params: VfsParams
    /** `thread_pool_`: its number of threads, or none if not created. */
    var threadPool: Option<nat>

    constructor(haveHdfs: bool, haveS3: bool, initial: map<Uri, Node>)
      ensures supportedFs == BuiltWith(haveHdfs, haveS3)
      ensures nodes == initial && threadPool == None
    {
      var fs: set<Filesystem> := {};
      if haveHdfs {
        fs := fs + {HDFS};
      }
      if haveS3 {
        fs := fs + {S3};
      }
      supportedFs := fs;
      nodes := initial;
      params := VfsParams(0, 0);
      threadPool := None;
    }

    method SupportsFs(fs: Filesystem) returns (b: bool)
      ensures b <==> fs in supportedFs
    {
      b := fs in supportedFs;
    }

    /** `init`: store the parameters, create the thread pool (its failure
        is `poolCreated == false`), then connect each compiled backend. */
    method Init(p: VfsParams, poolCreated: bool, hdfsConnect: Outcome<VfsError>, s3Connect: Outcome<VfsError>)
      returns (st: Outcome<VfsError>)
      modifies this
      ensures params == p && nodes == old(nodes)
      ensures threadPool == (if poolCreated then Some(p.maxParallelOps) else None)
      ensures !poolCreated ==> st == Fail(ThreadPoolCreationFailed)
      ensures poolCreated && HDFS in supportedFs && hdfsConnect.Fail? ==> st == hdfsConnect
      ensures poolCreated && (HDFS !in supportedFs || hdfsConnect.Ok?) ==>
                st == (if S3 in supportedFs then s3Connect else Ok)
    {
      params := p;
      if !poolCreated {
        threadPool := None;
        return Fail(ThreadPoolCreationFailed);
      }
      threadPool := Some(p.maxParallelOps);
      if HDFS in supportedFs && hdfsConnect.Fail? {
        return hdfsConnect;
      }
      if S3 in supportedFs && s3Connect.Fail? {
        return s3Connect;
      }
      return Ok;
    }

    method IsDir(uri: Uri) returns (r: Result<bool, VfsError>)
      ensures r == IsDirOf(supportedFs, nodes, uri)
    {
      if uri.scheme == FileScheme {
        return Success(IsDirNode(nodes, uri));
      }
      if uri.scheme == HdfsScheme {
        if HDFS in supportedFs {
          return Success(IsDirNode(nodes, uri));
        }
        return Failure(BuiltWithout(HDFS));
      }
      if uri.scheme == S3Scheme {
        if S3 in supportedFs {
          return Success(IsDirNode(nodes, uri));
        }
        return Failure(BuiltWithout(S3));
      }
      return Failure(UnsupportedScheme);
    }

    method IsFile(uri: Uri) returns (r: Result<bool, VfsError>)
      ensures r == IsFileOf(supportedFs, nodes, uri)
    {
      if uri.scheme == FileScheme {
        return Success(IsFileNode(nodes, uri));
      }
      if uri.scheme == HdfsScheme {
        if HDFS in supportedFs {
          return Success(IsFileNode(nodes, uri));
        }
        return Failure(BuiltWithout(HDFS));
      }
      if uri.scheme == S3Scheme {
        if S3 in supportedFs {
          return Success(IsFileNode(nodes, uri));
        }
        return Failure(BuiltWithout(S3));
      }
      return Failure(UnsupportedScheme);
    }

    method IsBucket(uri: Uri) returns (r: Result<bool, VfsError>)
      ensures r == IsBucketOf(supportedFs, nodes, uri)
    {
      if uri.scheme == S3Scheme {
        if S3 in supportedFs {
          return Success(IsBucketNode(nodes, uri));
        }
        return Failure(BuiltWithout(S3));
      }
      return Failure(UnsupportedScheme);
    }

    method FileSize(uri: Uri) returns (r: Result<nat, VfsError>)
      ensures r == FileSizeOf(supportedFs, nodes, uri)
    {
      match RouteOf(supportedFs, uri.scheme)
      case Refuse(e) => r := Failure(e);
      case Backend => r := BackendFileSize(nodes, uri);
    }

    method CreateDir(uri: Uri) returns (st: Outcome<VfsError>)
      modifies this
      ensures Effect(st, nodes) == CreateDirOf(supportedFs, old(nodes), uri)
      ensures params == old(params) && threadPool == old(threadPool)
    {
      if uri.scheme != S3Scheme {
        var isDir := IsDir(uri);
        if isDir.Failure? {
          return Fail(isDir.error);
        }
        if isDir.value {
          return Ok;
        }
      }
      match RouteOf(supportedFs, uri.scheme)
      case Refuse(e) =>
        st := Fail(e);
      case Backend =>
        if uri.scheme != S3Scheme {
          var e := BackendCreateDir(nodes, uri);
          nodes := e.nodes;
          st := e.status;
        } else {
          st := Ok;
        }
    }

    method Touch(uri: Uri) returns (st: Outcome<VfsError>)
      modifies this
      ensures Effect(st, nodes) == TouchOf(supportedFs, old(nodes), uri)
      ensures params == old(params) && threadPool == old(threadPool)
    {
      match RouteOf(supportedFs, uri.scheme)
      case Refuse(e) =>
        st := Fail(e);
      case Backend =>
        var e := BackendTouch(nodes, uri);
        nodes := e.nodes;
        st := e.status;
    }

    method RemoveDir(uri: Uri) returns (st: Outcome<VfsError>)
      modifies this
      ensures Effect(st, nodes) == RemoveDirOf(supportedFs, old(nodes), uri)
      ensures params == old(params) && threadPool == old(threadPool)
    {
      match RouteOf(supportedFs, uri.scheme)
      case Refuse(e) =>
        st := Fail(e);
      case Backend =>
        var e := BackendRemoveDir(nodes, uri);
        nodes := e.nodes;
        st := e.status;
    }

    method RemoveFile(uri: Uri) returns (st: Outcome<VfsError>)
      modifies this
      ensures Effect(st, nodes) == RemoveFileOf(supportedFs, old(nodes), uri)
      ensures params == old(params) && threadPool == old(threadPool)
    {
      match RouteOf(supportedFs, uri.scheme)
      case Refuse(e) =>
        st := Fail(e);
      case Backend =>
        var e := BackendRemoveFile(nodes, uri);
        nodes := e.nodes;
        st := e.status;
    }

    method CreateBucket(uri: Uri) returns (st: Outcome<VfsError>)
      modifies this
      ensures Effect(st, nodes) == CreateBucketOf(supportedFs, old(nodes), uri)
      ensures params == old(params) && threadPool == old(threadPool)
    {
      match BucketRouteOf(supportedFs, uri.scheme)
      case Refuse(e) =>
        st := Fail(e);
      case Backend =>
        var e := BackendCreateBucket(nodes, uri);
        nodes := e.nodes;
        st := e.status;
    }

    method RemoveBucket(uri: Uri) returns (st: Outcome<VfsError>)
      modifies this
      ensures Effect(st, nodes) == RemoveBucketOf(supportedFs, old(nodes), uri)
      ensures params == old(params) && threadPool == old(threadPool)
    {
      match BucketRouteOf(supportedFs, uri.scheme)
      case Refuse(e) =>
        st := Fail(e);
      case Backend =>
        var e := BackendRemoveBucket(nodes, uri);
        nodes := e.nodes;
        st := e.status;
    }

    method EmptyBucket(uri: Uri) returns (st: Outcome<VfsError>)
      modifies this
      ensures Effect(st, nodes) == EmptyBucketOf(supportedFs, old(nodes), uri)
      ensures params == old(params) && threadPool == old(threadPool)
    {
      match BucketRouteOf(supportedFs, uri.scheme)
      case Refuse(e) =>
        st := Fail(e);
      case Backend =>
        var e := BackendEmptyBucket(nodes, uri);
        nodes := e.nodes;
        st := e.status;
    }

    method IsEmptyBucket(uri: Uri) returns (r: Result<bool, VfsError>)
      ensures r == IsEmptyBucketOf(supportedFs, nodes, uri)
    {
      match BucketRouteOf(supportedFs, uri.scheme)
      case Refuse(e) => r := Failure(e);
      case Backend => r := BackendIsEmptyBucket(nodes, uri);
    }

    method FilelockLock(uri: Uri) returns (st: Outcome<VfsError>)
      ensures st == LockOf(supportedFs, nodes, uri)
    {
      if uri.scheme == FileScheme {
        return BackendLock(nodes, uri);
      }
      if uri.scheme == HdfsScheme {
        return if HDFS in supportedFs then Ok else Fail(BuiltWithout(HDFS));
      }
      if uri.scheme == S3Scheme {
        return if S3 in supportedFs then Ok else Fail(BuiltWithout(S3));
      }
      return Fail(UnsupportedScheme);
    }

    method FilelockUnlock(uri: Uri) returns (st: Outcome<VfsError>)
      ensures st == UnlockOf(supportedFs, uri)
    {
      if uri.scheme == FileScheme {
        return Ok;
      }
      if uri.scheme == HdfsScheme {
        return if HDFS in supportedFs then Ok else Fail(BuiltWithout(HDFS));
      }
      if uri.scheme == S3Scheme {
        return if S3 in supportedFs then Ok else Fail(BuiltWithout(S3));
      }
      return Fail(UnsupportedScheme);
    }

    /** `ls`: the backend's listing, in whatever order it comes, sorted. */
    method Ls(parent: Uri) returns (r: Result<seq<Uri>, VfsError>)
      ensures LsOf(supportedFs, nodes, parent).Failure? <==> r.Failure?
      ensures r.Failure? ==> r.error == LsOf(supportedFs, nodes, parent).error
      ensures r.Success? ==>
                (forall u :: u in r.value <==> u in LsOf(supportedFs, nodes, parent).value)
                && PathOrder.Sorted(Paths(r.value))
                && (forall i, j :: 0 <= i < j < |r.value| ==> r.value[i] != r.value[j])
    {
      var listing := LsOf(supportedFs, nodes, parent);
      if listing.Failure? {
        return Failure(listing.error);
      }
      var paths := ListInBackendOrder(listing.value, parent.scheme);
      var sorted := PathOrder.Sort(paths);
      SortedListing(listing.value, parent.scheme, paths, sorted);
      r := Success(WithScheme(parent.scheme, sorted));
    }

    method ReadImpl(uri: Uri, offset: nat, buffer: array<byte>, at: nat, nbytes: nat,
                    transient: (nat, nat) -> bool) returns (st: Outcome<VfsError>)
      requires at + nbytes <= buffer.Length
      modifies buffer
      ensures st == StatusOf(ReadImplOf(supportedFs, nodes, uri, offset, nbytes, transient))
      ensures ReadImplOf(supportedFs, nodes, uri, offset, nbytes, transient).Success? ==>
                buffer[..] == Splice(old(buffer[..]), at, ReadImplOf(supportedFs, nodes, uri, offset, nbytes, transient).value)
      ensures ReadImplOf(supportedFs, nodes, uri, offset, nbytes, transient).Failure? ==>
                buffer[..] == old(buffer[..])
    {
      var r := ReadImplOf(supportedFs, nodes, uri, offset, nbytes, transient);
      match r
      case Failure(e) =>
        st := Fail(e);
      case Success(bytes) =>
        Memcpy(buffer, at, bytes);
        st := Ok;
    }

    /** `read`: one `read_impl` over the whole range, or one per chunk. */
    method Read(uri: Uri, offset: nat, buffer: array<byte>, nbytes: nat,
                transient: (nat, nat) -> bool) returns (st: Outcome<VfsError>)
      requires threadPool.Some? && threadPool.value >= 1 && params.minParallelSize >= 1
      requires nbytes <= buffer.Length
      modifies buffer
      ensures st == ReadStatusOf(supportedFs, nodes, uri, offset, nbytes,
                                 NumOps(nbytes, params.minParallelSize, threadPool.value), transient)
      ensures st.Ok? ==> IsFileNode(nodes, uri) && offset + nbytes <= |nodes[uri].bytes|
                         && buffer[..nbytes] == nodes[uri].bytes[offset..offset + nbytes]
      ensures buffer[nbytes..] == old(buffer[nbytes..])
    {
      var numOps := NumOps(nbytes, params.minParallelSize, threadPool.value);
      if numOps == 1 {
        st := ReadImpl(uri, offset, buffer, 0, nbytes, transient);
        return;
      }
      var cs := Chunks(nbytes, numOps);
      ChunksPartition(nbytes, numOps);
      var allOk := ReadEachChunk(uri, offset, buffer, nbytes, cs, transient);
      st := if allOk then Ok else Fail(ParallelReadError);
    }

    /** The loop of `read` over the chunks of a parallel read, run one
        chunk after the other; `allOk` is the verdict of `wait_all`. */
    method ReadEachChunk(uri: Uri, offset: nat, buffer: array<byte>, nbytes: nat, cs: seq<Chunk>,
                         transient: (nat, nat) -> bool) returns (allOk: bool)
      requires Covers(cs, 0, nbytes) && nbytes <= buffer.Length
      modifies buffer
      ensures allOk <==> forall j :: 0 <= j < |cs| ==>
                ReadImplOf(supportedFs, nodes, uri, offset + cs[j].begin, cs[j].len, transient).Success?
      ensures allOk && nbytes > 0 ==>
                (IsFileNode(nodes, uri) && offset + nbytes <= |nodes[uri].bytes|
                 && buffer[..nbytes] == nodes[uri].bytes[offset..offset + nbytes])
      ensures buffer[nbytes..] == old(buffer[nbytes..])
    {
      CoversBounds(cs, 0, nbytes);
      ghost var file := if IsFileNode(nodes, uri) then nodes[uri].bytes else [];
      allOk := true;
      var pos := 0;
      var i := 0;
      while i < |cs|
        invariant 0 <= i <= |cs| && pos <= nbytes
        invariant i < |cs| ==> cs[i].begin == pos
        invariant i == |cs| ==> pos == nbytes
        invariant cs == [] ==> nbytes == 0
        invariant buffer[nbytes..] == old(buffer[nbytes..])
        invariant allOk <==> ChunksRead(supportedFs, nodes, uri, offset, cs, i, transient)
        invariant allOk && pos > 0 ==> IsFileNode(nodes, uri) && PrefixRead(buffer[..], file, offset, pos)
      {
        var ok := ReadChunk(uri, offset, buffer, pos, cs[i].len, nbytes, transient, file, allOk && pos > 0);
        ChunksReadSnoc(supportedFs, nodes, uri, offset, cs, i, transient);
        allOk := allOk && ok;
        CoversAt(cs, 0, nbytes, i);
        pos := pos + cs[i].len;
        i := i + 1;
      }
    }

    /** One `read_impl` of the parallel read: bytes [pos, pos + len) of
        the request. */
    method ReadChunk(uri: Uri, offset: nat, buffer: array<byte>, pos: nat, len: nat, nbytes: nat,
                     transient: (nat, nat) -> bool, ghost file: seq<byte>, ghost prefixRead: bool)
      returns (ok: bool)
      requires pos + len <= nbytes <= buffer.Length
      requires file == if IsFileNode(nodes, uri) then nodes[uri].bytes else []
      requires prefixRead ==> PrefixRead(buffer[..], file, offset, pos)
      modifies buffer
      ensures ok == ReadImplOf(supportedFs, nodes, uri, offset + pos, len, transient).Success?
      ensures buffer[nbytes..] == old(buffer[nbytes..])
      ensures ok && (prefixRead || pos == 0) ==> IsFileNode(nodes, uri) && PrefixRead(buffer[..], file, offset, pos + len)
    {
      ghost var before := buffer[..];
      var s := ReadImpl(uri, offset + pos, buffer, pos, len, transient);
      ok := s.Ok?;
      if ok {
        ReadImplSuccess(supportedFs, nodes, uri, offset + pos, len, transient);
        ReadStep(before, buffer[..], file, offset, pos, len, nbytes, prefixRead);
      }
    }

    method Sync(uri: Uri) returns (st: Outcome<VfsError>)
      ensures st == SyncOf(supportedFs, nodes, uri)
    {
      match RouteOf(supportedFs, uri.scheme)
      case Refuse(e) => st := Fail(e);
      case Backend => st := if uri.scheme == S3Scheme then Ok else BackendSync(nodes, uri);
    }

    method CloseFile(uri: Uri) returns (st: Outcome<VfsError>)
      ensures st == CloseFileOf(supportedFs, nodes, uri)
    {
      if uri.scheme == FileScheme {
        return BackendSync(nodes, uri);
      }
      if uri.scheme == HdfsScheme {
        return if HDFS in supportedFs then BackendSync(nodes, uri) else Fail(BuiltWithout(HDFS));
      }
      if uri.scheme == S3Scheme {
        return if S3 in supportedFs then Ok else Fail(BuiltWithout(S3));
      }
      return Fail(UnsupportedScheme);
    }

    method Write(uri: Uri, data: seq<byte>) returns (st: Outcome<VfsError>)
      modifies this
      ensures Effect(st, nodes) == WriteOf(supportedFs, old(nodes), uri, data)
      ensures params == old(params) && threadPool == old(threadPool)
    {
      match RouteOf(supportedFs, uri.scheme)
      case Refuse(e) =>
        st := Fail(e);
      case Backend =>
        var e := BackendWrite(nodes, uri, data);
        nodes := e.nodes;
        st := e.status;
    }

    method MoveDir(from: Uri, to: Uri) returns (st: Outcome<VfsError>)
      modifies this
      ensures Effect(st, nodes) == MoveDirOf(supportedFs, old(nodes), from, to)
      ensures params == old(params) && threadPool == old(threadPool)
    {
      if from.scheme == OtherScheme {
        return Fail(UnsupportedScheme);
      }
      if to.scheme != from.scheme {
        return Fail(CrossFilesystemMove);
      }
      match RouteOf(supportedFs, from.scheme)
      case Refuse(e) =>
        st := Fail(e);
      case Backend =>
        var e := BackendMove(nodes, from, to);
        nodes := e.nodes;
        st := e.status;
    }

    method MoveFile(from: Uri, to: Uri) returns (st: Outcome<VfsError>)
      modifies this
      ensures Effect(st, nodes) == MoveFileOf(supportedFs, old(nodes), from, to)
      ensures params == old(params) && threadPool == old(threadPool)
    {
      var isFile := IsFile(to);
      if isFile.Failure? {
        return Fail(isFile.error);
      }
      if isFile.value {
        var removed := RemoveFile(to);
        if removed.Fail? {
          return removed;
        }
      }
      st := MoveDir(from, to);
    }

    method OpenFile(uri: Uri, mode: VfsMode) returns (st: Outcome<VfsError>)
      modifies this
      ensures Effect(st, nodes) == OpenFileOf(supportedFs, old(nodes), uri, mode)
      ensures params == old(params) && threadPool == old(threadPool)
    {
      var isFile := IsFile(uri);
      if isFile.Failure? {
        return Fail(isFile.error);
      }
      match mode {
        case VfsRead =>
          if !isFile.value {
            return Fail(FileDoesNotExist);
          }
        case VfsWrite =>
          if isFile.value {
            var removed := RemoveFile(uri);
            if removed.Fail? {
              return removed;
            }
          }
        case VfsAppend =>
          if uri.scheme == S3Scheme {
            return Fail(if S3 in supportedFs then NoAppendOnS3 else BuiltWithout(S3));
          }
      }
      st := Ok;
    }
  }

  /** The path strings of a listing. */
  function Paths(us: seq<Uri>): (r: seq<string>)
    ensures |r| == |us|
    ensures forall i :: 0 <= i < |us| ==> r[i] == us[i].path
  {
    if us == [] then [] else [us[0].path] + Paths(us[1..])
  }

  /** The backend hands its listing over as path strings, one per entry,
      in an order of its own choosing. */
  method ListInBackendOrder(entries: set<Uri>, scheme: Scheme) returns (paths: seq<string>)
    requires forall u :: u in entries ==> u.scheme == scheme
    ensures forall u :: u in entries ==> u.path in paths
    ensures forall i :: 0 <= i < |paths| ==> Uri(scheme, paths[i]) in entries
    ensures forall i, j :: 0 <= i < j < |paths| ==> paths[i] != paths[j]
  {
    paths := [];
    var rest := entries;
    ghost var taken: set<Uri> := {};
    while rest != {}
      invariant rest + taken == entries && rest !! taken
      invariant forall u :: u in taken ==> u.path in paths
      invariant forall i :: 0 <= i < |paths| ==> Uri(scheme, paths[i]) in taken
      invariant forall i, j :: 0 <= i < j < |paths| ==> paths[i] != paths[j]
      decreases |rest|
    {
      var u :| u in rest;
      TakeEntry(scheme, paths, taken, u);
      paths := paths + [u.path];
      rest := rest - {u};
      taken := taken + {u};
    }
  }

  /** URIs of one scheme for the given paths. */
  function WithScheme(scheme: Scheme, ps: seq<string>): (r: seq<Uri>)
    ensures |r| == |ps| && Paths(r) == ps
    ensures forall i :: 0 <= i < |ps| ==> r[i] == Uri(scheme, ps[i])
  {
    var r := seq(|ps|, i requires 0 <= i < |ps| => Uri(scheme, ps[i]));
    assert Paths(r) == ps;
    r
  }

  /** Sorting the backend's paths and putting the scheme back gives the
      entries, sorted, each once. */
  lemma SortedListing(entries: set<Uri>, scheme: Scheme, paths: seq<string>, sorted: seq<string>)
    requires forall u :: u in entries ==> u.scheme == scheme
    requires forall u :: u in entries ==> u.path in paths
    requires forall i :: 0 <= i < |paths| ==> Uri(scheme, paths[i]) in entries
    requires forall i, j :: 0 <= i < j < |paths| ==> paths[i] != paths[j]
    requires PathOrder.Sorted(sorted) && multiset(sorted) == multiset(paths)
    ensures forall u :: u in WithScheme(scheme, sorted) <==> u in entries
    ensures PathOrder.Sorted(Paths(WithScheme(scheme, sorted)))
    ensures forall i, j :: 0 <= i < j < |sorted| ==> WithScheme(scheme, sorted)[i] != WithScheme(scheme, sorted)[j]
  {
    var us := WithScheme(scheme, sorted);
    forall u ensures u in us <==> u in entries {
      if u in entries {
        assert u.path in multiset(sorted);
        var i :| 0 <= i < |sorted| && sorted[i] == u.path;
        assert us[i] == u;
      }
      if u in us {
        var i :| 0 <= i < |us| && us[i] == u;
        assert sorted[i] in multiset(paths);
      }
    }
    PathOrder.DistinctPermutation(paths, sorted);
    forall i, j | 0 <= i < j < |sorted| ensures us[i] != us[j] {
      assert sorted[i] != sorted[j];
    }
  }

  /** Appending the path of one more entry `u` keeps the paths those of
      the entries taken so far, each once. */
  lemma TakeEntry(scheme: Scheme, paths: seq<string>, taken: set<Uri>, u: Uri)
    requires u !in taken && u.scheme == scheme
    requires forall v :: v in taken ==> v.path in paths
    requires forall i :: 0 <= i < |paths| ==> Uri(scheme, paths[i]) in taken
    requires forall i, j :: 0 <= i < j < |paths| ==> paths[i] != paths[j]
    ensures forall v :: v in taken + {u} ==> v.path in paths + [u.path]
    ensures forall i :: 0 <= i < |paths + [u.path]| ==> Uri(scheme, (paths + [u.path])[i]) in taken + {u}
    ensures forall i, j :: 0 <= i < j < |paths + [u.path]| ==> (paths + [u.path])[i] != (paths + [u.path])[j]
  {
    forall i | 0 <= i < |paths| ensures paths[i] != u.path {
      assert Uri(scheme, paths[i]) in taken;
    }
  }

  /** What a successful `read_impl` returns. */
  lemma ReadImplSuccess(sup: set<Filesystem>, nodes: map<Uri, Node>, uri: Uri, offset: nat, nbytes: nat,
                        transient: (nat, nat) -> bool)
    requires ReadImplOf(sup, nodes, uri, offset, nbytes, transient).Success?
    ensures IsFileNode(nodes, uri) && offset + nbytes <= |nodes[uri].bytes|
    ensures ReadImplOf(sup, nodes, uri, offset, nbytes, transient).value == nodes[uri].bytes[offset..offset + nbytes]
  {
  }

  /** The first `pos` bytes of `buf` hold the file's bytes from `offset`. */
  ghost predicate PrefixRead(buf: seq<byte>, file: seq<byte>, offset: nat, pos: nat)
  {
    pos <= |buf| && offset + pos <= |file| && buf[..pos] == file[offset..offset + pos]
  }

  /** One successful chunk read extends the verified prefix of the
      buffer and leaves everything past the request alone. */
  lemma ReadStep(before: seq<byte>, after: seq<byte>, file: seq<byte>, offset: nat, pos: nat, len: nat,
                 nbytes: nat, prefixRead: bool)
    requires pos + len <= nbytes <= |before| && offset + pos + len <= |file|
    requires after == Splice(before, pos, file[offset + pos..offset + pos + len])
    requires prefixRead ==> PrefixRead(before, file, offset, pos)
    ensures after[nbytes..] == before[nbytes..]
    ensures prefixRead || pos == 0 ==> PrefixRead(after, file, offset, pos + len)
  {
    assert after[pos + len..] == before[pos + len..];
    assert after[nbytes..] == after[pos + len..][nbytes - (pos + len)..];
    assert before[nbytes..] == before[pos + len..][nbytes - (pos + len)..];
    if prefixRead || pos == 0 {
      assert after[..pos + len] == after[..pos] + after[pos..pos + len];
      assert file[offset..offset + pos + len] == file[offset..offset + pos] + file[offset + pos..offset + pos + len];
    }
  }

  /** What `Covers` says about chunk `i` and the one after it. */
  /** Reads of chunks `0..i` all succeed. */
  ghost predicate ChunksRead(sup: set<Filesystem>, nodes: map<Uri, Node>, uri: Uri, offset: nat,
                             cs: seq<Chunk>, i: nat, transient: (nat, nat) -> bool)
    requires i <= |cs|
  {
    forall j :: 0 <= j < i ==> ReadImplOf(sup, nodes, uri, offset + cs[j].begin, cs[j].len, transient).Success?
  }

  lemma ChunksReadSnoc(sup: set<Filesystem>, nodes: map<Uri, Node>, uri: Uri, offset: nat,
                       cs: seq<Chunk>, i: nat, transient: (nat, nat) -> bool)
    requires i < |cs|
    ensures ChunksRead(sup, nodes, uri, offset, cs, i + 1, transient)
            <==> ChunksRead(sup, nodes, uri, offset, cs, i, transient)
                 && ReadImplOf(sup, nodes, uri, offset + cs[i].begin, cs[i].len, transient).Success?
  {
  }

  lemma {:induction false} CoversAt(cs: seq<Chunk>, from: nat, to: nat, i: nat)
    requires Covers(cs, from, to) && i < |cs|
    ensures i + 1 < |cs| ==> cs[i + 1].begin == cs[i].begin + cs[i].len
    ensures i + 1 == |cs| ==> cs[i].begin + cs[i].len == to
    decreases i
  {
    if i > 0 {
      CoversAt(cs[1..], from + cs[0].len, to, i - 1);
      assert cs[i] == cs[1..][i - 1];
      if i + 1 < |cs| { assert cs[i + 1] == cs[1..][i]; }
    }
  }
}
