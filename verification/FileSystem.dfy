// main.c and src/tg_file.c: files whose contents are documents in a remote chat.

module FileSystem {
  import opened Common
  import opened TgStorage

  // The documents in the chat: their bytes by file id, and the message each is attached to. Ids below
  // nextId were given out.
  datatype Cloud = Cloud(blobs: map<nat, seq<byte>>, messages: map<nat, nat>, nextId: nat)

  ghost predicate GoodCloud(c: Cloud) {
    && (forall id :: id in c.blobs ==> id < c.nextId)
    && (forall m :: m in c.messages ==> m < c.nextId)
  }

  // The document of a record is there and has the recorded size; a record without one is empty.
  ghost predicate GoodRecord(f: TgFile, c: Cloud) {
    if f.fileId == None || f.messageId == None then
      f.fileId == None && f.messageId == None && f.fileSize == 0
    else
      && f.fileType == TgFileType
      && f.fileId.value in c.blobs && |c.blobs[f.fileId.value]| == f.fileSize
      && f.messageId.value in c.messages && c.messages[f.messageId.value] == f.fileId.value
  }

  // No two records share a path or a document.
  ghost predicate Apart(f: TgFile, g: TgFile) {
    && f.path != g.path
    && (f.fileId.Some? ==> f.fileId != g.fileId)
    && (f.messageId.Some? ==> f.messageId != g.messageId)
  }

  ghost predicate Good(files: seq<TgFile>, c: Cloud) {
    && GoodCloud(c)
    && (forall i :: 0 <= i < |files| ==> GoodRecord(files[i], c))
    && (forall i, j :: 0 <= i < |files| && 0 <= j < |files| && i != j ==> Apart(files[i], files[j]))
  }

  // ---- what the file system holds ----

  ghost function Content(f: TgFile, c: Cloud): seq<byte> {
    if f.fileId.Some? && f.fileId.value in c.blobs then c.blobs[f.fileId.value] else []
  }

  // The content of the file at a path, None if there is no file.
  ghost function Holds(files: seq<TgFile>, c: Cloud, path: seq<byte>): Option<seq<byte>> {
    match FindIn(files, path)
    case None => None
    case Some(i) => if files[i].fileType == TgDirType then None else Some(Content(files[i], c))
  }

  predicate IsDir(files: seq<TgFile>, path: seq<byte>) {
    var r := FindIn(files, path); r.Some? && files[r.value].fileType == TgDirType
  }

  lemma HoldsMeans(files: seq<TgFile>, c: Cloud, path: seq<byte>)
    ensures var r := FindIn(files, path);
      && (r == None ==> Holds(files, c, path) == None && !IsDir(files, path))
      && (r.Some? && files[r.value].fileType == TgDirType ==> Holds(files, c, path) == None && IsDir(files, path))
      && (r.Some? && files[r.value].fileType != TgDirType ==>
            Holds(files, c, path) == Some(Content(files[r.value], c)) && !IsDir(files, path))
  {
  }

  lemma RecordSize(files: seq<TgFile>, c: Cloud, i: nat)
    requires Good(files, c) && i < |files|
    ensures |Content(files[i], c)| == files[i].fileSize
  {
  }

  lemma GoodDistinct(files: seq<TgFile>, c: Cloud)
    requires Good(files, c)
    ensures DistinctPaths(files)
  {
    assert forall i, j :: 0 <= i < j < |files| ==> Apart(files[i], files[j]);
  }

  // The size hello_getattr reports is the length of the content.
  lemma SizeIsLength(files: seq<TgFile>, c: Cloud, path: seq<byte>)
    requires Good(files, c) && Holds(files, c, path).Some?
    ensures files[FindIn(files, path).value].fileSize == |Holds(files, c, path).value|
  {
  }

  // ---- what the operations do to it ----

  ghost predicate SameElsewhere(files: seq<TgFile>, c: Cloud, files': seq<TgFile>, c': Cloud, path: seq<byte>) {
    && (forall q :: q != path ==> Holds(files', c', q) == Holds(files, c, q))
    && (forall q :: q != path ==> IsDir(files', q) == IsDir(files, q))
  }

  lemma PushKeeps(files: seq<TgFile>, c: Cloud, f: TgFile)
    requires Good(files, c) && FindIn(files, f.path) == None
    requires f.fileId == None && f.messageId == None && f.fileSize == 0
    ensures Good(files + [f], c) && SameElsewhere(files, c, files + [f], c, f.path)
    ensures Holds(files + [f], c, f.path) == if f.fileType == TgFileType then Some([]) else None
    ensures IsDir(files + [f], f.path) <==> f.fileType == TgDirType
  {
    var files' := files + [f];
    assert forall i :: 0 <= i < |files'| ==> files'[i] == if i < |files| then files[i] else f;
    forall q
      ensures FindIn(files', q) ==
        if FindIn(files, q).Some? then FindIn(files, q) else if f.path == q then Some(|files|) else None
    {
      FindAppended(files, f, q);
    }
  }

  // A record of a path in use makes the table no good.
  lemma PushTwice(files: seq<TgFile>, c: Cloud, f: TgFile)
    requires FindIn(files, f.path).Some?
    ensures !Good(files + [f], c)
  {
    var i := FindIn(files, f.path).value;
    assert (files + [f])[i] == files[i] && (files + [f])[|files|] == f;
    assert !Apart((files + [f])[i], (files + [f])[|files|]);
  }

  // A document that no record leads to changes nothing; the new record beside it is good when its size is 0.
  lemma PushStray(files: seq<TgFile>, c: Cloud, f: TgFile, data: seq<byte>)
    requires Good(files, c) && FindIn(files, f.path) == None && f.fileId == None && f.messageId == None
    ensures var c' := Stored(f, c, data).1; Good(files + [f], c') <==> f.fileSize == 0
  {
    var c' := Stored(f, c, data).1;
    var files' := files + [f];
    assert forall i :: 0 <= i < |files'| ==> files'[i] == if i < |files| then files[i] else f;
    assert files'[|files|] == f;
    assert GoodRecord(f, c') <==> f.fileSize == 0;
    forall i | 0 <= i < |files|
      ensures GoodRecord(files[i], c') && Apart(files[i], f) && Apart(f, files[i])
    {
      assert GoodRecord(files[i], c);
    }
  }

  // A document for record i: sent first, or put in the place of the one before.
  function Stored(f: TgFile, c: Cloud, data: seq<byte>): (TgFile, Cloud) {
    if f.fileId == None then
      ( f.(fileId := Some(c.nextId), messageId := Some(c.nextId + 1), fileSize := |data|),
        Cloud(c.blobs[c.nextId := data], c.messages[c.nextId + 1 := c.nextId], c.nextId + 2) )
    else
      var m := if f.messageId.Some? then f.messageId.value else 0;
      ( f.(fileId := Some(c.nextId), fileSize := |data|),
        Cloud((c.blobs - {f.fileId.value})[c.nextId := data], c.messages[m := c.nextId], c.nextId + 1) )
  }

  lemma StoredKeeps(files: seq<TgFile>, c: Cloud, i: nat, data: seq<byte>)
    requires Good(files, c) && i < |files| && files[i].fileType == TgFileType
    ensures var (f', c') := Stored(files[i], c, data); var files' := files[i := f'];
      && Good(files', c') && SameElsewhere(files, c, files', c', files[i].path)
      && Holds(files', c', files[i].path) == Some(data)
  {
    hide Stored, GoodRecord, GoodCloud, Apart, Content;
    var (f', c') := Stored(files[i], c, data);
    var files' := files[i := f'];
    GoodDistinct(files, c);
    StoredItself(files[i], c, data);
    forall j | 0 <= j < |files| && j != i
      ensures GoodRecord(files'[j], c') && Content(files'[j], c') == Content(files[j], c)
      ensures Apart(files'[j], f') && Apart(f', files'[j])
    {
      assert Apart(files[i], files[j]);
      StoredElsewhere(files[i], c, data, files[j]);
    }
    FindSame(files, i, f');
  }

  lemma StoredItself(f: TgFile, c: Cloud, data: seq<byte>)
    requires GoodCloud(c) && GoodRecord(f, c) && f.fileType == TgFileType
    ensures var (f', c') := Stored(f, c, data);
      && GoodCloud(c') && GoodRecord(f', c') && Content(f', c') == data
      && f'.path == f.path && f'.fileType == f.fileType
  {
  }

  lemma StoredElsewhere(f: TgFile, c: Cloud, data: seq<byte>, g: TgFile)
    requires GoodCloud(c) && GoodRecord(f, c) && GoodRecord(g, c) && Apart(f, g)
    ensures var (f', c') := Stored(f, c, data);
      && GoodRecord(g, c') && Content(g, c') == Content(g, c)
      && Apart(g, f') && Apart(f', g)
  {
  }

  lemma FindSame(files: seq<TgFile>, i: nat, f: TgFile)
    requires DistinctPaths(files) && i < |files| && f.path == files[i].path
    ensures forall q :: FindIn(files[i := f], q) == FindIn(files, q)
    ensures FindIn(files, f.path) == Some(i)
  {
    FindOnly(files, i);
    forall q
      ensures FindIn(files[i := f], q) == FindIn(files, q)
    {
      var r := FindIn(files, q);
      if r.Some? {
        FirstFound(files[i := f], q, r.value);
      }
    }
  }

  // The cloud after the message of a record was deleted.
  function Deleted(f: TgFile, c: Cloud): Cloud {
    if f.fileId.Some? && f.messageId.Some? then
      c.(blobs := c.blobs - {f.fileId.value}, messages := c.messages - {f.messageId.value})
    else c
  }

  lemma RemoveKeeps(files: seq<TgFile>, c: Cloud, i: nat)
    requires Good(files, c) && i < |files|
    ensures var files' := SwapRemoved(files, i); var c' := Deleted(files[i], c);
      && Good(files', c') && SameElsewhere(files, c, files', c', files[i].path)
      && Holds(files', c', files[i].path) == None && !IsDir(files', files[i].path)
  {
    var files', c' := SwapRemoved(files, i), Deleted(files[i], c);
    var n := |files| - 1;
    GoodDistinct(files, c);
    assert forall k :: 0 <= k < n ==> files'[k] == files[if k == i then n else k];
    forall k | 0 <= k < |files| && k != i
      ensures GoodRecord(files[k], c') && Content(files[k], c') == Content(files[k], c)
    {
      assert Apart(files[i], files[k]);
    }
    forall q
      ensures q != files[i].path ==> Holds(files', c', q) == Holds(files, c, q) && IsDir(files', q) == IsDir(files, q)
      ensures q == files[i].path ==> FindIn(files', q) == None
    {
      SwapRemovedFind(files, i, q);
    }
  }

  // ---- what is left in the chat ----

  ghost predicate HasDocument(files: seq<TgFile>, id: nat) {
    exists i :: 0 <= i < |files| && files[i].fileId == Some(id)
  }

  ghost predicate HasMessage(files: seq<TgFile>, m: nat) {
    exists i :: 0 <= i < |files| && files[i].messageId == Some(m)
  }

  // Every document and every message belongs to a record.
  ghost predicate NoStrays(files: seq<TgFile>, c: Cloud) {
    (forall id :: id in c.blobs ==> HasDocument(files, id)) && (forall m :: m in c.messages ==> HasMessage(files, m))
  }

  lemma GoodAt(files: seq<TgFile>, c: Cloud, i: nat)
    requires Good(files, c) && i < |files|
    ensures GoodRecord(files[i], c)
  {
  }

  lemma PushNoStrays(files: seq<TgFile>, c: Cloud, f: TgFile)
    requires NoStrays(files, c)
    ensures NoStrays(files + [f], c)
  {
    assert forall i :: 0 <= i < |files| ==> (files + [f])[i] == files[i];
  }

  // What other records have they still have when record i changes or goes.
  lemma HasStill(files: seq<TgFile>, i: nat, f: TgFile, id: nat)
    requires i < |files|
    ensures HasDocument(files, id) && files[i].fileId != Some(id) ==>
      HasDocument(files[i := f], id) && HasDocument(SwapRemoved(files, i), id)
    ensures HasMessage(files, id) && files[i].messageId != Some(id) ==>
      HasMessage(files[i := f], id) && HasMessage(SwapRemoved(files, i), id)
  {
    var n, s := |files| - 1, SwapRemoved(files, i);
    assert forall k :: 0 <= k < n ==> s[k] == files[if k == i then n else k];
    if k :| 0 <= k < |files| && files[k].fileId == Some(id) && k != i {
      assert files[i := f][k] == files[k] && s[if k == n then i else k] == files[k];
    }
    if k :| 0 <= k < |files| && files[k].messageId == Some(id) && k != i {
      assert files[i := f][k] == files[k] && s[if k == n then i else k] == files[k];
    }
  }

  // Storing again drops the document from before, so that there is still one for each record.
  lemma StoredNoStrays(files: seq<TgFile>, c: Cloud, i: nat, data: seq<byte>)
    requires Good(files, c) && i < |files| && files[i].fileType == TgFileType && NoStrays(files, c)
    ensures var (f', c') := Stored(files[i], c, data); NoStrays(files[i := f'], c')
  {
    hide Good, HasDocument, HasMessage;
    var (f', c') := Stored(files[i], c, data);
    GoodAt(files, c, i);
    HasItsOwn(files[i := f'], i);
    forall id | id in c'.blobs
      ensures HasDocument(files[i := f'], id)
    {
      HasStill(files, i, f', id);
    }
    forall m | m in c'.messages
      ensures HasMessage(files[i := f'], m)
    {
      HasStill(files, i, f', m);
    }
  }

  // All that storing a document for record i does.
  lemma StoredAll(files: seq<TgFile>, c: Cloud, i: nat, data: seq<byte>)
    requires Good(files, c) && i < |files| && files[i].fileType == TgFileType
    ensures var (f', c') := Stored(files[i], c, data); var files' := files[i := f'];
      && Good(files', c') && SameElsewhere(files, c, files', c', files[i].path)
      && Holds(files', c', files[i].path) == Some(data)
      && (forall q :: FindIn(files', q) == FindIn(files, q)) && FindIn(files, files[i].path) == Some(i)
      && (NoStrays(files, c) ==> NoStrays(files', c'))
  {
    hide Good, Holds, SameElsewhere, NoStrays, FindIn, DistinctPaths, GoodRecord, GoodCloud;
    StoredKeeps(files, c, i, data);
    GoodDistinct(files, c);
    FindSame(files, i, Stored(files[i], c, data).0);
    if NoStrays(files, c) {
      StoredNoStrays(files, c, i, data);
    }
  }

  lemma HasItsOwn(files: seq<TgFile>, i: nat)
    requires i < |files|
    ensures files[i].fileId.Some? ==> HasDocument(files, files[i].fileId.value)
    ensures files[i].messageId.Some? ==> HasMessage(files, files[i].messageId.value)
  {
  }

  // With a record its document and its message go.
  lemma RemoveNoStrays(files: seq<TgFile>, c: Cloud, i: nat)
    requires Good(files, c) && i < |files| && NoStrays(files, c)
    ensures NoStrays(SwapRemoved(files, i), Deleted(files[i], c))
  {
    hide Good, HasDocument, HasMessage, SwapRemoved;
    var c' := Deleted(files[i], c);
    GoodAt(files, c, i);
    forall id | id in c'.blobs
      ensures HasDocument(SwapRemoved(files, i), id)
    {
      HasStill(files, i, files[i], id);
    }
    forall m | m in c'.messages
      ensures HasMessage(SwapRemoved(files, i), m)
    {
      HasStill(files, i, files[i], m);
    }
  }

  lemma SameAsBefore(files: seq<TgFile>, c: Cloud, path: seq<byte>)
    ensures SameElsewhere(files, c, files, c, path)
  {
  }

  // A new, empty record.
  lemma Created(files: seq<TgFile>, c: Cloud, f: TgFile)
    requires Good(files, c) && f.fileId == None && f.messageId == None && f.fileSize == 0 && f.fileType == TgFileType
    ensures Good(files + [f], c) <==> FindIn(files, f.path) == None
    ensures SameElsewhere(files, c, files + [f], c, f.path)
    ensures FindIn(files, f.path) == None ==>
      Holds(files + [f], c, f.path) == Some([]) && !IsDir(files + [f], f.path)
    ensures NoStrays(files, c) ==> NoStrays(files + [f], c)
  {
    hide Good, NoStrays;
    if FindIn(files, f.path) == None {
      PushKeeps(files, c, f);
    } else {
      PushTwice(files, c, f);
      AppendedElsewhere(files, c, f);
    }
    if NoStrays(files, c) {
      PushNoStrays(files, c, f);
    }
  }

  lemma AppendedElsewhere(files: seq<TgFile>, c: Cloud, f: TgFile)
    ensures SameElsewhere(files, c, files + [f], c, f.path)
  {
    forall q
      ensures FindIn(files + [f], q) ==
        if FindIn(files, q).Some? then FindIn(files, q) else if f.path == q then Some(|files|) else None
    {
      FindAppended(files, f, q);
    }
  }

  // A document stored for a path without a record is left over at once.
  lemma StrayLeft(files: seq<TgFile>, c: Cloud, f: TgFile, data: seq<byte>)
    requires Good(files, c) && f.fileId == None && f.messageId == None
    ensures !NoStrays(files + [f], Stored(f, c, data).1)
  {
    var files', c' := files + [f], Stored(f, c, data).1;
    assert c.nextId in c'.blobs;
    forall i | 0 <= i < |files'|
      ensures files'[i].fileId != Some(c.nextId)
    {
      assert i < |files| ==> GoodRecord(files[i], c) && files'[i] == files[i];
    }
  }
}
