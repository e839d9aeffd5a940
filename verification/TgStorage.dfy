// src/tg_storage.c: the table of file records.

module TgStorage {
  import opened Common

  datatype FileType = TgFileType | TgDirType

  // tg_file; None stands for an empty id.
  datatype TgFile = TgFile(
    path: seq<byte>,
    fileId: Option<nat>,
    messageId: Option<nat>,
    fileSize: nat,
    fileType: FileType)

  const NO_FILE: TgFile := TgFile([], None, None, 0, TgFileType)

  ghost predicate DistinctPaths(files: seq<TgFile>) {
    forall i, j :: 0 <= i < j < |files| ==> files[i].path != files[j].path
  }

  // The first record of a path.
  function FindIn(files: seq<TgFile>, path: seq<byte>): (r: Option<nat>)
    ensures r.Some? ==> r.value < |files| && files[r.value].path == path
    ensures r.Some? ==> forall i :: 0 <= i < r.value ==> files[i].path != path
    ensures r == None ==> forall i :: 0 <= i < |files| ==> files[i].path != path
  {
    if files == [] then None
    else if files[0].path == path then Some(0)
    else
      match FindIn(files[1..], path)
      case None =>
        assert forall i :: 1 <= i < |files| ==> files[i] == files[1..][i - 1];
        None
      case Some(k) =>
        assert forall i :: 1 <= i < k + 1 ==> files[i] == files[1..][i - 1];
        Some(k + 1)
  }

  // The table after the last record took the place of record i.
  function SwapRemoved(files: seq<TgFile>, i: nat): (r: seq<TgFile>)
    requires i < |files|
    ensures |r| == |files| - 1
  {
    files[i := files[|files| - 1]][..|files| - 1]
  }

  // Just the one record is gone.
  lemma SwapRemovedMembers(files: seq<TgFile>, i: nat)
    requires i < |files|
    ensures multiset(SwapRemoved(files, i)) == multiset(files) - multiset{files[i]}
  {
    var n := |files| - 1;
    if i < n {
      SwappedParts(files, i);
      PartsMembers(files[..i], files[i], files[i + 1..n], files[n]);
    } else {
      assert files == files[..n] + [files[n]] && SwapRemoved(files, i) == files[..n];
    }
  }

  lemma SwappedParts(files: seq<TgFile>, i: nat)
    requires i < |files| - 1
    ensures var n := |files| - 1;
      && files == files[..i] + [files[i]] + files[i + 1..n] + [files[n]]
      && SwapRemoved(files, i) == files[..i] + [files[n]] + files[i + 1..n]
  {
  }

  lemma PartsMembers(a: seq<TgFile>, f: TgFile, b: seq<TgFile>, last: TgFile)
    ensures multiset(a + [last] + b) == multiset(a + [f] + b + [last]) - multiset{f}
  {
    assert multiset(a + [last] + b) == multiset(a) + multiset{last} + multiset(b);
    assert multiset(a + [f] + b + [last]) == multiset(a) + multiset{f} + multiset(b) + multiset{last};
  }

  // Taking a path out of the table leaves every other path its record.
  lemma SwapRemovedFind(files: seq<TgFile>, i: nat, path: seq<byte>)
    requires DistinctPaths(files) && i < |files|
    ensures DistinctPaths(SwapRemoved(files, i))
    ensures var r := FindIn(SwapRemoved(files, i), path); var f := FindIn(files, path);
      if path == files[i].path then r == None
      else if f == None then r == None
      else r.Some? && SwapRemoved(files, i)[r.value] == files[f.value]
  {
    var n, s := |files| - 1, SwapRemoved(files, i);
    assert forall k :: 0 <= k < n ==> s[k] == if k == i then files[n] else files[k];
    var f := FindIn(files, path);
    if path != files[i].path && f.Some? {
      var k := if f.value == n then i else f.value;
      assert s[k] == files[f.value];
      FindOnly(s, k);
    }
  }

  lemma FindOnly(files: seq<TgFile>, i: nat)
    requires DistinctPaths(files) && i < |files|
    ensures FindIn(files, files[i].path) == Some(i)
  {
  }

  // A new record behind the others leaves them their places.
  lemma FindAppended(files: seq<TgFile>, f: TgFile, path: seq<byte>)
    ensures FindIn(files + [f], path) ==
      if FindIn(files, path).Some? then FindIn(files, path) else if f.path == path then Some(|files|) else None
  {
    var all, r := files + [f], FindIn(files + [f], path);
    assert forall i :: 0 <= i < |files| ==> all[i] == files[i];
    assert all[|files|] == f;
  }

  class Storage {
    var files: array<TgFile>
    var size: nat

    ghost predicate Valid()
      reads this
    {
      size <= files.Length  // cap
    }

    ghost function View(): seq<TgFile>
      requires Valid()
      reads this, files
    {
      files[..size]
    }

    // tg_storage_new
    constructor ()
      ensures Valid() && View() == [] && fresh(files) && files.Length == 2
    {
      files, size := new TgFile[2], 0;
    }

    // tg_storage_push
    method Push(f: TgFile)
      requires Valid()
      modifies this, files
      ensures Valid() && View() == old(View()) + [f]
      ensures if old(size) >= old(files.Length) then fresh(files) && files.Length == 2 * old(files.Length) + 1
              else files == old(files)
    {
      if size >= files.Length {
        var more := new TgFile[files.Length * 2 + 1];
        for i := 0 to size
          invariant size == old(size) && files == old(files) && files[..] == old(files[..]) && fresh(more)
          invariant forall k :: 0 <= k < i ==> more[k] == files[k]
        {
          more[i] := files[i];
        }
        files := more;
        assert files[..size] == old(View());
      }
      files[size] := f;
      size := size + 1;
    }

    // tg_storage_find_by_path
    method FindByPath(path: seq<byte>) returns (r: Option<nat>)
      requires Valid()
      ensures r == FindIn(View(), path)
    {
      for i := 0 to size
        invariant forall k :: 0 <= k < i ==> files[k].path != path
      {
        if files[i].path == path {
          FirstFound(View(), path, i);
          return Some(i);
        }
      }
      return None;
    }

    // Storing through the pointer tg_storage_find_by_path gave.
    method Set(i: nat, f: TgFile)
      requires Valid() && i < size
      modifies files
      ensures Valid() && View() == old(View())[i := f]
    {
      files[i] := f;
    }

    // tg_storage_remove_by_path
    method RemoveByPath(path: seq<byte>) returns (f: TgFile)
      requires Valid()
      modifies this, files
      ensures Valid() && files == old(files)
      ensures match FindIn(old(View()), path)
        case None => f == NO_FILE && View() == old(View())
        case Some(i) => f == old(View())[i] && View() == SwapRemoved(old(View()), i)
    {
      if size == 0 {
        return NO_FILE;
      }
      for i := 0 to size
        invariant forall k :: 0 <= k < i ==> files[k].path != path
        invariant size == old(size) && files == old(files) && files[..] == old(files[..])
      {
        if files[i].path == path {
          FirstFound(View(), path, i);
          f := files[i];
          size := size - 1;
          files[i] := files[size];
          return;
        }
      }
      f := NO_FILE;
    }
  }

  lemma FirstFound(files: seq<TgFile>, path: seq<byte>, i: nat)
    requires i < |files| && files[i].path == path && forall k :: 0 <= k < i ==> files[k].path != path
    ensures FindIn(files, path) == Some(i)
  {
  }
}
