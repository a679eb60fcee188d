/** The server's persistent and in-memory state: the two tables of database.py, the file
    dictionary of file_handler.py, keyed by full path, and the disk. */
module Store {
  import opened Octets
  import opened Protocol
  import opened Payload
  import opened Paths
  import opened Wrappers
  import Crc

  /** A `File` object. The content is missing after a failed decryption. */
  datatype Entry = Entry(content: Option<Bytes>, crc: bv32, verified: bool)

  datatype ClientRow = ClientRow(name: Bytes, publicKey: Option<Bytes>, aesKey: Option<Key>)

  /** A row of the file table, whose primary key is the file name alone. */
  datatype FileRow = FileRow(owner: Id, verified: bool)

  datatype Tables = Tables(
    clients: map<Id, ClientRow>,
    files: map<Bytes, FileRow>,
    dict: map<Bytes, Entry>,
    disk: map<Bytes, Bytes>)

  /** The checksum of an entry that was never digested. */
  const UNHASHED: bv32 := 0xFFFFFF

  // ----- what the operations do to the state -----

  function NewEntry(content: Option<Bytes>): Entry {
    Entry(content, if content.Some? then Crc.Crc32(content.value) else UNHASHED, false)
  }

  /** `fileExists`. */
  predicate Owns(t: Tables, id: Id, name: Bytes) {
    name in t.files && t.files[name].owner == id
  }

  /** `storeFileinDB`: the new tables, and the checksum when the file was stored. The dictionary
      is overwritten in every case, whoever's entry it was; a missing content raises in the digest,
      and a name that another client owns violates the primary key. */
  function StoreFile(fs: FileSystem, t: Tables, id: Id, name: Bytes, content: Option<Bytes>): (Tables, Option<bv32>) {
    var t1 := t.(dict := t.dict[FullPath(fs, id, name) := NewEntry(content)]);
    if content.None? then (t1, None)
    else if name in t.files && t.files[name].owner != id then (t1, None)
    else (t1.(files := t.files[name := FileRow(id, false)]), Some(Crc.Crc32(content.value)))
  }

  /** What `saveFile` leaves in a file it has opened for writing. */
  function Saved(content: Option<Bytes>): Bytes {
    if content.Some? then content.value else []
  }

  /** `updateVerification(id, name, True)`. When the file does not open, for want of its directory,
      the failure is only logged. */
  function Verify(fs: FileSystem, t: Tables, id: Id, name: Bytes, opens: bool): (Tables, bool) {
    var p := FullPath(fs, id, name);
    if !Owns(t, id, name) || p !in t.dict then (t, false)
    else (t.(dict := t.dict[p := t.dict[p].(verified := true)],
             disk := if opens then t.disk[fs.file(p) := Saved(t.dict[p].content)] else t.disk,
             files := t.files[name := FileRow(id, true)]), true)
  }

  function AddClient(t: Tables, id: Id, name: Bytes): (Tables, bool) {
    if id in t.clients then (t, false)
    else (t.(clients := t.clients[id := ClientRow(name, None, None)]), true)
  }

  predicate NameTaken(t: Tables, name: Bytes) {
    exists id :: id in t.clients && t.clients[id].name == name
  }

  function SetKeys(t: Tables, id: Id, publicKey: Bytes, aesKey: Key): Tables
    requires id in t.clients
  {
    t.(clients := t.clients[id := t.clients[id].(publicKey := Some(publicKey), aesKey := Some(aesKey))])
  }

  // ----- the objects -----

  class FileHandler {
    const fs: FileSystem
    var fileDict: map<Bytes, Entry>
    var disk: map<Bytes, Bytes>

    constructor (fs: FileSystem)
      ensures this.fs == fs && fileDict == map[] && disk == map[]
    {
      this.fs := fs;
      fileDict, disk := map[], map[];
    }

    /** `newFile`: the fresh entry replaces any entry at its path before it is digested. */
    method NewFile(path: Bytes, content: Option<Bytes>) returns (raised: bool)
      modifies this
      ensures fileDict == old(fileDict)[path := match content
                                                case None => Entry(None, 0xFFFFFF, false)
                                                case Some(bytes) => Entry(content, Crc.Crc32(bytes), false)]
      ensures disk == old(disk)
      ensures raised == content.None?
    {
      fileDict := fileDict[path := Entry(content, UNHASHED, false)];
      raised := DigestCrc(path);
    }

    method DigestCrc(path: Bytes) returns (raised: bool)
      requires path in fileDict
      modifies this
      ensures disk == old(disk) && raised == old(fileDict)[path].content.None?
      ensures fileDict == if raised then old(fileDict)
                          else old(fileDict)[path := old(fileDict)[path].
                            (crc := Crc.Crc32(old(fileDict)[path].content.value))]
    {
      var content := fileDict[path].content;
      if content.None? {
        return true;
      }
      var crc := Checksum(content.value);
      fileDict := fileDict[path := fileDict[path].(crc := crc)];
      raised := false;
    }

    /** `verified`: set the flag, and if it is set try to write the file. */
    method Verified(path: Bytes, flag: bool, opens: bool)
      requires path in fileDict
      modifies this
      ensures fileDict == old(fileDict)[path := old(fileDict)[path].(verified := flag)]
      ensures disk == if flag && opens then old(disk)[fs.file(path) := Saved(old(fileDict)[path].content)] else old(disk)
    {
      fileDict := fileDict[path := fileDict[path].(verified := flag)];
      if fileDict[path].verified {
        var _ := SaveFile(path, opens);
      }
    }

    /** `saveFile`: opening, if it succeeds, truncates; only then is the content written. */
    method SaveFile(path: Bytes, opens: bool) returns (ok: bool)
      requires path in fileDict
      modifies this
      ensures fileDict == old(fileDict) && ok == (opens && fileDict[path].content.Some?)
      ensures disk == if opens then old(disk)[fs.file(path) := Saved(fileDict[path].content)] else old(disk)
    {
      if !opens {
        return false;
      }
      disk := disk[fs.file(path) := []];
      match fileDict[path].content
      case None =>
        ok := false;
      case Some(content) =>
        disk := disk[fs.file(path) := content];
        ok := true;
    }

    method GetFileInstance(id: Id, name: Bytes) returns (entry: Option<Entry>)
      ensures entry == if FullPath(fs, id, name) in fileDict then Some(fileDict[FullPath(fs, id, name)]) else None
    {
      var path := FullPath(fs, id, name);
      entry := if path in fileDict then Some(fileDict[path]) else None;
    }
  }

  /** The library checksum, byte by byte. */
  method Checksum(content: Bytes) returns (crc: bv32)
    ensures crc == Crc.Crc32(content)
  {
    var hash := new Crc.Crc32Hash();
    for i := 0 to |content|
      invariant hash.Valid() && hash.hashed == content[..i]
    {
      hash.UpdateByte(content[i]);
      assert content[..i + 1] == content[..i] + [content[i]];
    }
    assert content[..|content|] == content;
    crc := Crc.Plus(hash.crc, Crc.CRC32_NEGL);
  }

  class Database {
    var clients: map<Id, ClientRow>
    var files: map<Bytes, FileRow>
    const fileHandler: FileHandler

    constructor (fs: FileSystem, clients: map<Id, ClientRow>, files: map<Bytes, FileRow>)
      ensures Snapshot() == Tables(clients, files, map[], map[])
      ensures fresh(fileHandler) && fileHandler.fs == fs
    {
      this.clients, this.files := clients, files;
      this.fileHandler := new FileHandler(fs);
    }

    function Snapshot(): Tables
      reads this, fileHandler
    {
      Tables(clients, files, fileHandler.fileDict, fileHandler.disk)
    }

    method FileExists(id: Id, name: Bytes) returns (b: bool)
      ensures b == Owns(Snapshot(), id, name)
    {
      b := name in files && files[name].owner == id;
    }

    method StoreFileInDb(id: Id, name: Bytes, content: Option<Bytes>) returns (crc: Option<bv32>)
      modifies this, fileHandler
      ensures Snapshot() == StoreFile(fileHandler.fs, old(Snapshot()), id, name, content).0
      ensures crc == StoreFile(fileHandler.fs, old(Snapshot()), id, name, content).1
    {
      var path := FullPath(fileHandler.fs, id, name);
      var raised := fileHandler.NewFile(path, content);
      if raised {
        return None;
      }
      var known := FileExists(id, name);
      if known {
        files := files[name := files[name].(verified := false)];
        assert Snapshot() == StoreFile(fileHandler.fs, old(Snapshot()), id, name, content).0;
        return Some(fileHandler.fileDict[path].crc);
      }
      raised := fileHandler.NewFile(path, content);
      if raised || name in files {
        return None;
      }
      files := files[name := FileRow(id, false)];
      crc := Some(fileHandler.fileDict[path].crc);
    }

    method UpdateVerification(id: Id, name: Bytes, opens: bool) returns (ok: bool)
      modifies this, fileHandler
      ensures (Snapshot(), ok) == Verify(fileHandler.fs, old(Snapshot()), id, name, opens)
    {
      ok := FileExists(id, name);
      if ok {
        var file := fileHandler.GetFileInstance(id, name);
        if file.None? {
          return false;
        }
        fileHandler.Verified(FullPath(fileHandler.fs, id, name), true, opens);
        files := files[name := files[name].(verified := true)];
      }
    }

    method GetFile(id: Id, name: Bytes) returns (file: Option<Entry>)
      ensures file == if Owns(Snapshot(), id, name) && FullPath(fileHandler.fs, id, name) in fileHandler.fileDict
                      then Some(fileHandler.fileDict[FullPath(fileHandler.fs, id, name)]) else None
    {
      var b := FileExists(id, name);
      if !b {
        return None;
      }
      file := fileHandler.GetFileInstance(id, name);
    }

    /** The query over all rows. */
    method ClientUsernameExists(name: Bytes) returns (b: bool)
      ensures b == NameTaken(Snapshot(), name)
    {
      var rest := clients.Keys;
      while rest != {}
        invariant rest <= clients.Keys
        invariant forall id :: id in clients && clients[id].name == name ==> id in rest
        decreases |rest|
      {
        var id :| id in rest;
        if clients[id].name == name {
          return true;
        }
        rest := rest - {id};
      }
      b := false;
    }

    method InsertClient(id: Id, name: Bytes) returns (ok: bool)
      modifies this
      ensures (Snapshot(), ok) == AddClient(old(Snapshot()), id, name)
      ensures ok == (id !in old(clients)) && files == old(files)
      ensures clients == if ok then old(clients)[id := ClientRow(name, None, None)] else old(clients)
    {
      ok := id !in clients;
      if ok {
        clients := clients[id := ClientRow(name, None, None)];
      }
    }

    method StoreKeys(id: Id, publicKey: Bytes, aesKey: Key)
      requires id in clients
      modifies this
      ensures Snapshot() == SetKeys(old(Snapshot()), id, publicKey, aesKey)
      ensures clients == old(clients)[id := ClientRow(old(clients)[id].name, Some(publicKey), Some(aesKey))]
      ensures files == old(files)
    {
      clients := clients[id := clients[id].(publicKey := Some(publicKey))];
      clients := clients[id := clients[id].(aesKey := Some(aesKey))];
    }
  }

  // ----- what leaves the clients alone -----

  lemma StoreKeepsClients(fs: FileSystem, t: Tables, id: Id, name: Bytes, content: Option<Bytes>)
    ensures StoreFile(fs, t, id, name, content).0.clients == t.clients
  {}

  lemma VerifyKeepsClients(fs: FileSystem, t: Tables, id: Id, name: Bytes, opens: bool)
    ensures Verify(fs, t, id, name, opens).0.clients == t.clients
  {}

  // ----- names of clients -----

  predicate NamesUnique(t: Tables) {
    forall i, j :: i in t.clients && j in t.clients && t.clients[i].name == t.clients[j].name ==> i == j
  }

  /** The check decides it: inserting a client keeps names unique exactly when the name is free. */
  lemma FreeNameInserts(t: Tables, id: Id, name: Bytes)
    requires NamesUnique(t) && id !in t.clients
    ensures NamesUnique(AddClient(t, id, name).0) <==> !NameTaken(t, name)
  {
    var t' := AddClient(t, id, name).0;
    if NameTaken(t, name) {
      var i :| i in t.clients && t.clients[i].name == name;
      assert t'.clients[i].name == t'.clients[id].name;
    }
  }

  // ----- the store invariant -----

  function RowPath(fs: FileSystem, t: Tables, name: Bytes): Bytes
    requires name in t.files
  {
    FullPath(fs, t.files[name].owner, name)
  }

  /** A row and its dictionary entry agree, the checksum is that of the content, and a verified
      file is on disk as it is in memory. */
  predicate RowOk(fs: FileSystem, t: Tables, name: Bytes)
    requires name in t.files
  {
    var p := RowPath(fs, t, name);
    && p in t.dict && t.dict[p].content.Some?
    && t.files[name].verified == t.dict[p].verified
    && t.dict[p].crc == Crc.Crc32(t.dict[p].content.value)
    && (t.dict[p].verified ==> fs.file(p) in t.disk && t.disk[fs.file(p)] == t.dict[p].content.value)
  }

  predicate StoreOk(fs: FileSystem, t: Tables) {
    forall name :: name in t.files ==> RowOk(fs, t, name)
  }

  /** The rows whose entry a store at the sender's path replaces bear it: with a content, all but
      the verified rows other than the sender's own; without one, none. */
  predicate Replaceable(fs: FileSystem, t: Tables, id: Id, name: Bytes, decrypted: bool) {
    forall n :: n in t.files && RowPath(fs, t, n) == FullPath(fs, id, name) ==>
      decrypted && (t.files[n].verified ==> n == name && t.files[n].owner == id)
  }

  /** Row `n` after a store: off the path nothing changes, on it all depends on the new entry. */
  lemma StoredRow(fs: FileSystem, t: Tables, id: Id, name: Bytes, content: Option<Bytes>, n: Bytes)
    requires n in t.files && RowOk(fs, t, n)
    ensures var t' := StoreFile(fs, t, id, name, content).0;
      n in t'.files
      && (RowOk(fs, t', n) <==>
            (RowPath(fs, t, n) == FullPath(fs, id, name) ==>
               content.Some? && (t.files[n].verified ==> n == name && t.files[n].owner == id)))
  {
    hide FullPath;
  }

  lemma NewRow(fs: FileSystem, t: Tables, id: Id, name: Bytes, content: Option<Bytes>, n: Bytes)
    requires n !in t.files && n in StoreFile(fs, t, id, name, content).0.files
    ensures RowOk(fs, StoreFile(fs, t, id, name, content).0, n)
  {
    hide FullPath;
  }

  /** Storing keeps the invariant exactly when the entry it replaces may be replaced. */
  lemma StoreFileInvariant(fs: FileSystem, t: Tables, id: Id, name: Bytes, content: Option<Bytes>)
    requires StoreOk(fs, t)
    ensures StoreOk(fs, StoreFile(fs, t, id, name, content).0) <==> Replaceable(fs, t, id, name, content.Some?)
  {
    hide FullPath, RowOk, StoreFile, RowPath;
    var t' := StoreFile(fs, t, id, name, content).0;
    forall n | n in t.files
      ensures n in t'.files
      ensures RowOk(fs, t', n) <==>
        (RowPath(fs, t, n) == FullPath(fs, id, name) ==>
           content.Some? && (t.files[n].verified ==> n == name && t.files[n].owner == id))
    {
      StoredRow(fs, t, id, name, content, n);
    }
    forall n | n in t'.files && n !in t.files ensures RowOk(fs, t', n) {
      NewRow(fs, t, id, name, content, n);
    }
  }

  /** Row `n` is verified and kept in the file that path `p` leads to. */
  predicate SharesFile(fs: FileSystem, t: Tables, n: Bytes, p: Bytes)
    requires n in t.files
  {
    t.files[n].verified && RowPath(fs, t, n) in t.dict && fs.file(RowPath(fs, t, n)) == fs.file(p)
  }

  /** The verified rows kept in that file hold the content at path `p`. */
  predicate Agreeing(fs: FileSystem, t: Tables, p: Bytes)
    requires p in t.dict
  {
    forall n :: n in t.files && SharesFile(fs, t, n, p) ==> t.dict[RowPath(fs, t, n)].content == t.dict[p].content
  }

  /** An approval finds its own row alone on its path, or in agreement, and its write, or the write
      that failed to open, leaves every verified row's file as it should be. */
  predicate Approvable(fs: FileSystem, t: Tables, id: Id, name: Bytes, opens: bool) {
    Owns(t, id, name) && FullPath(fs, id, name) in t.dict ==>
      var p := FullPath(fs, id, name);
      && (forall n :: n in t.files && n != name && RowPath(fs, t, n) == p ==> t.files[n].verified)
      && (opens ==> Agreeing(fs, t, p))
      && (!opens ==> fs.file(p) in t.disk && t.dict[p].content == Some(t.disk[fs.file(p)]))
  }

  lemma VerifyInvariant(fs: FileSystem, t: Tables, id: Id, name: Bytes, opens: bool)
    requires StoreOk(fs, t)
    ensures StoreOk(fs, Verify(fs, t, id, name, opens).0) <==> Approvable(fs, t, id, name, opens)
    ensures Verify(fs, t, id, name, opens).1 <==> Owns(t, id, name)
  {
    hide FullPath;
    if Owns(t, id, name) {
      assert RowOk(fs, t, name);
      if Approvable(fs, t, id, name, opens) {
        ApprovableKeeps(fs, t, id, name, opens);
      } else {
        NotApprovableBreaks(fs, t, id, name, opens);
      }
    }
  }

  lemma ApprovableKeeps(fs: FileSystem, t: Tables, id: Id, name: Bytes, opens: bool)
    requires StoreOk(fs, t) && Owns(t, id, name) && Approvable(fs, t, id, name, opens)
    ensures StoreOk(fs, Verify(fs, t, id, name, opens).0)
  {
    hide FullPath;
    var t', p := Verify(fs, t, id, name, opens).0, FullPath(fs, id, name);
    assert RowOk(fs, t, name);
    forall n | n in t'.files ensures RowOk(fs, t', n) {
      assert RowOk(fs, t, n);
      ApprovedRow(fs, t, id, name, opens, n);
    }
  }

  lemma ApprovedRow(fs: FileSystem, t: Tables, id: Id, name: Bytes, opens: bool, n: Bytes)
    requires n in t.files && RowOk(fs, t, n) && Owns(t, id, name) && RowOk(fs, t, name)
    requires n != name && RowPath(fs, t, n) == FullPath(fs, id, name) ==> t.files[n].verified
    requires var p := FullPath(fs, id, name);
      opens && SharesFile(fs, t, n, p) ==> t.dict[RowPath(fs, t, n)].content == t.dict[p].content
    requires var p := FullPath(fs, id, name);
      !opens ==> fs.file(p) in t.disk && t.dict[p].content == Some(t.disk[fs.file(p)])
    ensures RowOk(fs, Verify(fs, t, id, name, opens).0, n)
  {
    hide FullPath;
    var t', p := Verify(fs, t, id, name, opens).0, FullPath(fs, id, name);
    assert t'.dict[p].content == t.dict[p].content;
    assert RowPath(fs, t', n) == RowPath(fs, t, n);
  }

  lemma NotApprovableBreaks(fs: FileSystem, t: Tables, id: Id, name: Bytes, opens: bool)
    requires StoreOk(fs, t) && Owns(t, id, name) && !Approvable(fs, t, id, name, opens)
    ensures !StoreOk(fs, Verify(fs, t, id, name, opens).0)
  {
    hide FullPath;
    var t', p := Verify(fs, t, id, name, opens).0, FullPath(fs, id, name);
    assert RowOk(fs, t, name);
    if n :| n in t.files && n != name && RowPath(fs, t, n) == p && !t.files[n].verified {
      assert !RowOk(fs, t', n);
    } else if !opens {
      assert !RowOk(fs, t', name);
    } else {
      var n :| n in t.files && SharesFile(fs, t, n, p) && t.dict[RowPath(fs, t, n)].content != t.dict[p].content;
      assert RowOk(fs, t, n);
      assert !RowOk(fs, t', n);
    }
  }

  /** A checksum is announced exactly when the row belongs to the sender, and then an approval
      that opens the file puts there the content it was computed for; until then the disk does not
      move. */
  lemma StoreThenVerify(fs: FileSystem, t: Tables, id: Id, name: Bytes, content: Option<Bytes>, opens: bool)
    ensures var (t1, crc) := StoreFile(fs, t, id, name, content);
            var (t2, ok) := Verify(fs, t1, id, name, opens);
            && t1.disk == t.disk
            && (crc.Some? <==> content.Some? && (name in t.files ==> Owns(t, id, name)))
            && (crc.Some? ==> crc.value == Crc.Crc32(content.value))
            && (crc.Some? ==> ok)
            && (crc.Some? && opens ==> t2.disk == t.disk[fs.file(FullPath(fs, id, name)) := content.value])
            && (crc.Some? && !opens ==> t2.disk == t.disk)
            && (name in t.files && !Owns(t, id, name) ==> !ok && t2.disk == t.disk)
  {}

  // ----- plain names and others -----

  predicate PlainRows(t: Tables) { forall n :: n in t.files ==> Plain(n) }

  /** Among plain names a path belongs to one row, and so does the file it leads to. */
  lemma PlainRowsApart(fs: FileSystem, t: Tables, id: Id, name: Bytes, n: Bytes)
    requires PlainRows(t) && Plain(name) && n in t.files
    ensures RowPath(fs, t, n) == FullPath(fs, id, name) <==> n == name && t.files[n].owner == id
    ensures PlainApart(fs) && fs.file(RowPath(fs, t, n)) == fs.file(FullPath(fs, id, name))
      ==> n == name && t.files[n].owner == id
  {
    RelativePathsApart(fs, t.files[n].owner, n, id, name);
  }

  lemma PlainStoreKeeps(fs: FileSystem, t: Tables, id: Id, name: Bytes, decrypted: bool)
    requires PlainRows(t) && Plain(name)
    ensures Replaceable(fs, t, id, name, decrypted) <==> decrypted || !Owns(t, id, name)
  {
    hide FullPath, Plain;
    forall n | n in t.files
      ensures RowPath(fs, t, n) == FullPath(fs, id, name) <==> n == name && t.files[n].owner == id
    {
      PlainRowsApart(fs, t, id, name, n);
    }
  }

  lemma PlainApprovalKeeps(fs: FileSystem, t: Tables, id: Id, name: Bytes)
    requires PlainRows(t) && Plain(name) && PlainApart(fs)
    ensures Approvable(fs, t, id, name, true)
  {
    hide FullPath, Plain, PlainApart;
    forall n | n in t.files
      ensures RowPath(fs, t, n) == FullPath(fs, id, name) <==> n == name && t.files[n].owner == id
      ensures fs.file(RowPath(fs, t, n)) == fs.file(FullPath(fs, id, name)) ==> n == name && t.files[n].owner == id
    {
      PlainRowsApart(fs, t, id, name, n);
    }
  }

  /** An absolute name is the same path for everyone: once its owner's file is verified, any other
      client that sends the name breaks the invariant, although its own insertion fails. */
  lemma AbsoluteNameBreaks(fs: FileSystem, t: Tables, id: Id, name: Bytes, content: Option<Bytes>)
    requires StoreOk(fs, t) && Absolute(name) && name in t.files && t.files[name].verified && t.files[name].owner != id
    ensures StoreFile(fs, t, id, name, content).1 == None
    ensures !StoreOk(fs, StoreFile(fs, t, id, name, content).0)
  {
    assert RowPath(fs, t, name) == FullPath(fs, id, name);
    StoreFileInvariant(fs, t, id, name, content);
  }

  /** A file that does not open is approved all the same, and breaks the invariant unless its
      content happens to be there. */
  lemma UnopenedBreaks(fs: FileSystem, t: Tables, id: Id, name: Bytes)
    requires StoreOk(fs, t) && Owns(t, id, name) && fs.file(FullPath(fs, id, name)) !in t.disk
    ensures Verify(fs, t, id, name, false).1 && Verify(fs, t, id, name, false).0.disk == t.disk
    ensures !StoreOk(fs, Verify(fs, t, id, name, false).0)
  {
    hide FullPath;
    VerifyInvariant(fs, t, id, name, false);
    assert RowOk(fs, t, name);
  }
}
