// main.c: over any run, the file system is a map from paths to bytes.

module HelloRuns {
  import opened Common
  import opened TgBuffer
  import opened TgStorage
  import opened FileSystem
  import opened Hello

  type Model = map<seq<byte>, seq<byte>>

  datatype FsOp =
    | CreateOp(path: seq<byte>)
    | WriteOp(path: seq<byte>, data: seq<byte>, offset: nat, piece: nat -> nat)
    | ReadOp(path: seq<byte>, size: nat, offset: nat, piece: nat -> nat)
    | UnlinkOp(path: seq<byte>)

  const ROOT: seq<byte> := [47]

  // Creates are of fresh paths, writes do not leave a gap.
  predicate Legal(m: Model, op: FsOp) {
    match op
    case CreateOp(path) => path !in m && path != ROOT
    case WriteOp(path, _, offset, _) => path in m && offset <= |m[path]|
    case ReadOp(_, _, _, _) => true
    case UnlinkOp(path) => path != [] && path != ROOT
  }

  function Next(m: Model, op: FsOp): Model {
    match op
    case CreateOp(path) => m[path := []]
    case WriteOp(path, data, offset, _) =>
      if path in m && offset <= |m[path]| then m[path := Splice(m[path], offset, data)] else m
    case ReadOp(_, _, _, _) => m
    case UnlinkOp(path) => m - {path}
  }

  // The map after a run that starts with none.
  function Final(ops: seq<FsOp>): Model {
    if ops == [] then map[] else Next(Final(ops[..|ops| - 1]), ops[|ops| - 1])
  }

  predicate LegalRun(ops: seq<FsOp>) {
    forall k :: 0 <= k < |ops| ==> Legal(Final(ops[..k]), ops[k])
  }

  ghost predicate Agrees(m: Model, fs: Fs)
    requires fs.Sane()
    reads fs, fs.storage, fs.storage.files, fs.remote
  {
    forall q :: fs.File(q) == if q in m then Some(m[q]) else None
  }

  ghost predicate OnlyRoot(fs: Fs)
    requires fs.Sane()
    reads fs, fs.storage, fs.storage.files, fs.remote
  {
    forall q :: IsDir(fs.storage.View(), q) <==> q == ROOT
  }

  // What a read of a file that is not empty must give.
  predicate ReplyFits(m: Model, op: FsOp, reply: seq<byte>) {
    op.ReadOp? && op.path in m && m[op.path] != [] ==> reply == Slice(m[op.path], op.offset, op.size)
  }

  method Do(fs: Fs, op: FsOp, ghost m: Model) returns (reply: seq<byte>)
    requires fs.Valid() && Agrees(m, fs) && OnlyRoot(fs) && Legal(m, op)
    modifies fs.storage, fs.storage.files, fs.remote
    ensures fs.Valid() && Agrees(Next(m, op), fs) && OnlyRoot(fs) && ReplyFits(m, op, reply)
    ensures old(NoStrays(fs.storage.View(), fs.remote.cloud)) ==> NoStrays(fs.storage.View(), fs.remote.cloud)
    ensures fs.storage.files == old(fs.storage.files) || fresh(fs.storage.files)
  {
    hide Good, Holds, FindIn, Splice, Slice, NoStrays;
    reply := [];
    match op
    case CreateOp(path) =>
      assert fs.File(path) == None && !IsDir(fs.storage.View(), path);
      HoldsNone(fs.storage.View(), fs.remote.cloud, path);
      var res := fs.Create(path);
    case WriteOp(path, data, offset, piece) =>
      assert fs.File(path) == Some(m[path]);
      HoldsSome(fs.storage.View(), fs.remote.cloud, path);
      var res := fs.Write(path, data, offset, piece);
      HoldsSome(fs.storage.View(), fs.remote.cloud, path);
    case ReadOp(path, size, offset, piece) =>
      var res;
      res, reply := fs.Read(path, size, offset, piece);
    case UnlinkOp(path) =>
      if path in m {
        assert fs.File(path) == Some(m[path]);
        HoldsSome(fs.storage.View(), fs.remote.cloud, path);
      } else {
        assert fs.File(path) == None && !IsDir(fs.storage.View(), path);
        HoldsNone(fs.storage.View(), fs.remote.cloud, path);
      }
      var res := fs.Unlink(path);
  }

  lemma HoldsNone(files: seq<TgFile>, c: Cloud, path: seq<byte>)
    requires Holds(files, c, path) == None && !IsDir(files, path)
    ensures FindIn(files, path) == None
  {
  }

  lemma HoldsSome(files: seq<TgFile>, c: Cloud, path: seq<byte>)
    requires Holds(files, c, path).Some?
    ensures FindIn(files, path).Some? && !IsDir(files, path)
  {
  }

  // Every run of creates, writes, reads and unlinks refines the map, and leaves no document or message in
  // the chat that belongs to no file.
  method Run(ops: seq<FsOp>) returns (fs: Fs, replies: seq<seq<byte>>)
    requires LegalRun(ops)
    ensures fs.Valid() && Agrees(Final(ops), fs) && NoStrays(fs.storage.View(), fs.remote.cloud)
    ensures |replies| == |ops| && forall k :: 0 <= k < |ops| ==> ReplyFits(Final(ops[..k]), ops[k], replies[k])
  {
    hide Legal, ReplyFits, Next, Good, Agrees, OnlyRoot, Final, NoStrays;
    fs := new Fs();
    replies := [];
    FinalNone(fs);
    for k := 0 to |ops|
      invariant fs.Valid() && Agrees(Final(ops[..k]), fs) && OnlyRoot(fs)
      invariant NoStrays(fs.storage.View(), fs.remote.cloud)
      invariant fresh(fs) && fresh(fs.storage) && fresh(fs.storage.files) && fresh(fs.remote)
      invariant |replies| == k && forall j :: 0 <= j < k ==> ReplyFits(Final(ops[..j]), ops[j], replies[j])
    {
      FinalStep(ops, k);
      var reply := Do(fs, ops[k], Final(ops[..k]));
      replies := replies + [reply];
    }
    assert ops[..|ops|] == ops;
  }

  lemma FinalStep(ops: seq<FsOp>, k: nat)
    requires k < |ops|
    ensures Final(ops[..k + 1]) == Next(Final(ops[..k]), ops[k])
  {
    assert ops[..k + 1][..k] == ops[..k];
  }

  lemma FinalNone(fs: Fs)
    requires fs.Sane() && forall q :: fs.File(q) == None && (IsDir(fs.storage.View(), q) <==> q == ROOT)
    ensures Agrees(Final([]), fs) && OnlyRoot(fs)
  {
  }
}
