// main.c: the callbacks that create, write, read and unlink files; src/tg_file.c: storing and loading.

module Hello {
  import opened Common
  import opened TgBuffer
  import opened TgStorage
  import opened FileSystem

  const ENOENT: int := 2
  const EISDIR: int := 21

  // The chat. It stores what it is sent and delivers it in pieces of any size.
  class Remote {
    var cloud: Cloud

    constructor ()
      ensures cloud == Cloud(map[], map[], 0)
    {
      cloud := Cloud(map[], map[], 0);
    }

    // tg_put_file: sendDocument for a file without an id, else editMessageMedia.
    method PutFile(f: TgFile, data: seq<byte>) returns (f': TgFile)
      modifies this
      ensures Stored(f, old(cloud), data) == (f'.(fileSize := |data|), cloud) && f'.fileSize == f.fileSize
      ensures f'.path == f.path
    {
      var r := Stored(f, cloud, data);
      f', cloud := r.0.(fileSize := f.fileSize), r.1;
    }

    // tg_file_load_contents with curl_response_file_writer; `piece` gives the sizes of the pieces.
    method LoadContents(f: TgFile, piece: nat -> nat) returns (buf: Buffer)
      ensures fresh(buf) && fresh(buf.ptr) && buf.Valid() && buf.Contents() == Content(f, cloud)
    {
      buf := new Buffer();
      if f.fileId == None || f.fileId.value !in cloud.blobs {
        return;
      }
      var blob := cloud.blobs[f.fileId.value];
      var sent, k := 0, 0;
      while sent < |blob|
        invariant sent <= |blob| && fresh(buf) && fresh(buf.ptr) && buf.Valid() && buf.Contents() == blob[..sent]
        decreases |blob| - sent
      {
        var n := Min(1 + piece(k), |blob| - sent);
        assert blob[..sent + n] == blob[..sent] + blob[sent..sent + n];
        buf.Append(blob[sent..sent + n]);
        sent, k := sent + n, k + 1;
      }
      assert blob[..sent] == blob;
    }

    // tg_remove_message_with_file
    method RemoveMessage(f: TgFile)
      modifies this
      ensures cloud == Deleted(f, old(cloud))
    {
      cloud := Deleted(f, cloud);
    }
  }

  // The slice of a file a read of `size` bytes at `offset` asks for.
  function Slice(content: seq<byte>, offset: nat, size: nat): seq<byte> {
    if offset < |content| then content[offset..Min(offset + size, |content|)] else []
  }

  lemma SliceMeans(content: seq<byte>, offset: nat, size: nat)
    ensures var r := Slice(content, offset, size);
      && |r| == Min(size, if offset < |content| then |content| - offset else 0)
      && forall k :: 0 <= k < |r| ==> r[k] == content[offset + k]
  {
  }

  class Fs {
    const storage: Storage
    const remote: Remote

    ghost predicate Sane()
      reads this, storage, storage.files, remote
    {
      storage.Valid()
    }

    ghost predicate Valid()
      reads this, storage, storage.files, remote
    {
      Sane() && Good(storage.View(), remote.cloud)
    }

    // The content of the file at a path.
    ghost function File(path: seq<byte>): Option<seq<byte>>
      requires Sane()
      reads this, storage, storage.files, remote
    {
      Holds(storage.View(), remote.cloud, path)
    }

    ghost function RecordAt(path: seq<byte>): TgFile
      requires Sane() && FindIn(storage.View(), path).Some?
      reads this, storage, storage.files, remote
    {
      storage.View()[FindIn(storage.View(), path).value]
    }

    // main: a table with the root directory
    constructor ()
      ensures Valid() && fresh(storage) && fresh(storage.files) && fresh(remote)
      ensures NoStrays(storage.View(), remote.cloud)
      ensures forall q :: File(q) == None
      ensures forall q :: IsDir(storage.View(), q) <==> q == [47]
    {
      storage := new Storage();
      remote := new Remote();
      new;
      storage.Push(TgFile([47], None, None, 0, TgDirType));
      PushKeeps([], remote.cloud, TgFile([47], None, None, 0, TgDirType));
      assert [] + [TgFile([47], None, None, 0, TgDirType)] == storage.View();
    }

    // hello_create
    method Create(path: seq<byte>) returns (res: int)
      requires Valid()
      modifies storage, storage.files
      ensures Sane() && (storage.files == old(storage.files) || fresh(storage.files))
      ensures IsDir(old(storage.View()), path) ==> res == -EISDIR && storage.View() == old(storage.View())
      ensures !IsDir(old(storage.View()), path) ==>
        res == 0 && storage.View() == old(storage.View()) + [TgFile(path, None, None, 0, TgFileType)]
      ensures Valid() <==> IsDir(old(storage.View()), path) || FindIn(old(storage.View()), path) == None
      ensures FindIn(old(storage.View()), path) == None ==> File(path) == Some([]) && !IsDir(storage.View(), path)
      ensures SameElsewhere(old(storage.View()), remote.cloud, storage.View(), remote.cloud, path)
      ensures NoStrays(old(storage.View()), remote.cloud) ==> NoStrays(storage.View(), remote.cloud)
    {
      hide Good, Holds, IsDir, FindIn, SameElsewhere, NoStrays;
      ghost var files := storage.View();
      HoldsMeans(files, remote.cloud, path);
      var r := storage.FindByPath(path);
      if r.Some? && storage.files[r.value].fileType == TgDirType {
        SameAsBefore(files, remote.cloud, path);
        return -EISDIR;
      }
      var f := TgFile(path, None, None, 0, TgFileType);
      Created(files, remote.cloud, f);
      storage.Push(f);
      return 0;
    }

    // hello_write. For a path without a record it stores a document no record leads to.
    method Write(path: seq<byte>, buf: seq<byte>, offset: nat, piece: nat -> nat) returns (res: int)
      requires Valid()
      modifies storage, storage.files, remote
      ensures Sane() && (storage.files == old(storage.files) || fresh(storage.files))
      ensures FindIn(old(storage.View()), path) == None ==>
        res == |buf| && storage.View() == old(storage.View()) + [TgFile(path, None, None, offset + |buf|, TgFileType)]
      ensures IsDir(old(storage.View()), path) ==>
        res == -ENOENT && storage.View() == old(storage.View()) && remote.cloud == old(remote.cloud)
      ensures Valid() <==> FindIn(old(storage.View()), path).Some? || offset + |buf| == 0
      ensures old(File(path)).Some? ==>
        && res == |buf| && File(path).Some?
        && Stored(old(RecordAt(path)), old(remote.cloud), File(path).value) == (RecordAt(path), remote.cloud)
        && SameElsewhere(old(storage.View()), old(remote.cloud), storage.View(), remote.cloud, path)
      ensures FindIn(old(storage.View()), path) == None ==> !NoStrays(storage.View(), remote.cloud)
      ensures FindIn(old(storage.View()), path).Some? && old(NoStrays(storage.View(), remote.cloud)) ==>
        NoStrays(storage.View(), remote.cloud)
      ensures old(File(path)).Some? && offset <= |old(File(path)).value| ==>
        File(path).value == Splice(old(File(path)).value, offset, buf)
      ensures old(File(path)).Some? && offset > |old(File(path)).value| ==>
        && |File(path).value| == offset + |buf| && File(path).value[offset..] == buf
        && File(path).value[..|old(File(path)).value|] == old(File(path)).value
      ensures FindIn(old(storage.View()), path).Some? ==>
        forall q :: FindIn(storage.View(), q) == FindIn(old(storage.View()), q)
    {
      hide Good, Holds, IsDir, SameElsewhere, FindIn, Splice, Content, Stored, DistinctPaths, NoStrays;
      ghost var files, cloud := storage.View(), remote.cloud;
      HoldsMeans(files, cloud, path);
      var r := storage.FindByPath(path);
      var data: Buffer;
      var file: TgFile;
      if r == None {
        file := TgFile(path, None, None, offset + |buf|, TgFileType);
        storage.Push(file);
        data := new Buffer();
      } else {
        file := storage.files[r.value];
        if file.fileType == TgDirType {
          return -ENOENT;
        }
        RecordSize(files, cloud, r.value);
        if file.fileSize > 0 {
          data := remote.LoadContents(file, piece);
        } else {
          data := new Buffer();
        }
        assert data.Contents() == Content(file, cloud);
      }
      data.Insert(offset, buf);
      ghost var content := data.Contents();
      file := remote.PutFile(file, data.ptr[..data.size]);
      file := file.(fileSize := data.size);
      if r.Some? {
        StoredAll(files, cloud, r.value, content);
        storage.Set(r.value, file);
      } else {
        PushStray(files, cloud, TgFile(path, None, None, offset + |buf|, TgFileType), content);
        StrayLeft(files, cloud, TgFile(path, None, None, offset + |buf|, TgFileType), content);
      }
      return |buf|;
    }

    // hello_read; `out` is what it puts into the buffer.
    method Read(path: seq<byte>, size: nat, offset: nat, piece: nat -> nat) returns (res: int, out: seq<byte>)
      requires Valid()
      ensures FindIn(storage.View(), path) == None ==> res == -ENOENT
      ensures IsDir(storage.View(), path) ==> res == 0
      ensures File(path).Some? && File(path).value != [] ==>
        res == |out| && out == Slice(File(path).value, offset, size)
      ensures File(path) == Some([]) ==>
        out == [] && res == if storage.View()[FindIn(storage.View(), path).value].fileId == None then 0 else -ENOENT
    {
      out := [];
      var r := storage.FindByPath(path);
      if r == None {
        return -ENOENT, [];
      }
      var file := storage.files[r.value];
      if file.fileId == None {
        return 0, [];
      }
      var src := remote.LoadContents(file, piece);
      if src.size == 0 {
        return -ENOENT, [];
      }
      if offset < src.size {
        out := src.ptr[offset..Min(offset + size, src.size)];
        ghost var content := src.Contents();
        assert out == content[offset..Min(offset + size, src.size)];
      }
      res := |out|;
    }

    // hello_getattr: whether there is something, a directory, and the size of a file
    method Getattr(path: seq<byte>) returns (found: bool, dir: bool, size: nat)
      requires Valid()
      ensures path != [47] ==> (found <==> FindIn(storage.View(), path).Some?)
      ensures path != [47] && found ==> (dir <==> IsDir(storage.View(), path))
      ensures path != [47] && File(path).Some? ==> size == |File(path).value|
      ensures path == [47] ==> found && dir
    {
      if path == [47] {
        return true, true, 0;
      }
      var r := storage.FindByPath(path);
      if r == None {
        return false, false, 0;
      }
      var file := storage.files[r.value];
      return true, file.fileType == TgDirType, file.fileSize;
    }

    // hello_unlink
    method Unlink(path: seq<byte>) returns (res: int)
      requires Valid() && path != []
      modifies storage, storage.files, remote
      ensures Valid() && storage.files == old(storage.files)
      ensures old(NoStrays(storage.View(), remote.cloud)) ==> NoStrays(storage.View(), remote.cloud)
      ensures FindIn(old(storage.View()), path) == None ==>
        res == -ENOENT && storage.View() == old(storage.View()) && remote.cloud == old(remote.cloud)
      ensures FindIn(old(storage.View()), path).Some? ==>
        && res == 0 && File(path) == None && !IsDir(storage.View(), path)
        && SameElsewhere(old(storage.View()), old(remote.cloud), storage.View(), remote.cloud, path)
        && var i := FindIn(old(storage.View()), path).value;
           storage.View() == SwapRemoved(old(storage.View()), i)
           && remote.cloud == Deleted(old(storage.View())[i], old(remote.cloud))
    {
      ghost var files, cloud := storage.View(), remote.cloud;
      var file := storage.RemoveByPath(path);
      if file.path == [] {
        return -ENOENT;
      }
      RemoveKeeps(files, cloud, FindIn(files, path).value);
      if NoStrays(files, cloud) {
        RemoveNoStrays(files, cloud, FindIn(files, path).value);
      }
      remote.RemoveMessage(file);
      return 0;
    }
  }
}
