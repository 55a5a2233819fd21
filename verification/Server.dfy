/** The server program: its tables, its client objects and its handlers, changed in place. */
module Server {
  import opened Bytes
  import opened Paths
  import opened Text
  import opened Stores
  import opened StoreInvariants
  import opened PosixCksum
  import ServerCrc

  // ---- Reading a table row by row ----

  /** The rows are the table's, each key once. */
  ghost predicate ListsTable<K, V>(rows: seq<(K, V)>, table: map<K, V>) {
    && (forall k :: k in table ==> (k, table[k]) in rows)
    && (forall i :: 0 <= i < |rows| ==> rows[i].0 in table && table[rows[i].0] == rows[i].1)
    && (forall i, j :: 0 <= i < j < |rows| ==> rows[i].0 != rows[j].0)
  }

  /** The first i rows, gathered as a table. */
  ghost predicate ReadSoFar<K, V>(rows: seq<(K, V)>, i: nat, read: map<K, V>, table: map<K, V>)
    requires i <= |rows|
  {
    && (forall j :: 0 <= j < i ==> rows[j].0 in read)
    && (forall k :: k in read ==> k in table && read[k] == table[k] && exists j :: 0 <= j < i && rows[j].0 == k)
  }

  lemma ReadNone<K, V>(rows: seq<(K, V)>, table: map<K, V>)
    ensures ReadSoFar(rows, 0, map[], table)
  {
  }

  lemma ReadMore<K, V>(rows: seq<(K, V)>, i: nat, read: map<K, V>, table: map<K, V>)
    requires i < |rows| && ListsTable(rows, table) && ReadSoFar(rows, i, read, table)
    ensures rows[i].0 !in read && rows[i].0 in table && table[rows[i].0] == rows[i].1
    ensures ReadSoFar(rows, i + 1, read[rows[i].0 := rows[i].1], table)
  {
  }

  lemma ReadRows<K, V>(rows: seq<(K, V)>, i: nat, read: map<K, V>, table: map<K, V>)
    requires i <= |rows| && ReadSoFar(rows, i, read, table)
    ensures read.Keys <= table.Keys && forall k :: k in read ==> read[k] == table[k]
  {
  }

  lemma ReadAll<K, V>(rows: seq<(K, V)>, read: map<K, V>, table: map<K, V>)
    requires ListsTable(rows, table) && ReadSoFar(rows, |rows|, read, table)
    ensures read == table
  {
    forall k | k in table
      ensures k in read
    {
      assert (k, table[k]) in rows;
    }
  }

  lemma IndexNoFiles()
    ensures IndexFiles(map[]) == map[]
  {
  }

  lemma IndexKeys(clients: map<Id, ClientRow>, files: map<bytes, FileRow>)
    ensures IndexClients(clients, files).Keys == clients.Keys
  {
  }

  lemma IndexNoClients()
    ensures IndexClients(map[], map[]) == map[]
  {
  }

  lemma IndexOneMoreClient(clients: map<Id, ClientRow>, id: Id, row: ClientRow)
    ensures IndexClients(clients[id := row], map[])
         == IndexClients(clients, map[])[id := ClientEntry(id, row.name, map[])]
  {
    assert FilesOf(map[], id) == map[];
  }

  ghost predicate OwnersKnown(files: map<bytes, FileRow>, clients: map<Id, ClientRow>) {
    forall p :: p in files ==> files[p].clientId in clients
  }

  lemma ListsMore<K, V>(rows: seq<(K, V)>, table: map<K, V>, k: K, v: V)
    requires ListsTable(rows, table) && k !in table
    ensures ListsTable(rows + [(k, v)], table[k := v])
  {
    assert (rows + [(k, v)])[|rows|] == (k, v);
  }

  /** server/database.py: the two tables. */
  class Database {
    var clients: map<Id, ClientRow>
    var files: map<bytes, FileRow>

    constructor ()
      ensures clients == map[] && files == map[]
    {
      clients := map[];
      files := map[];
    }

    method ClientExistsByName(name: bytes) returns (found: bool)
      ensures found <==> exists id :: id in clients && clients[id].name == name
    {
      found := exists id | id in clients :: clients[id].name == name;
    }

    method ClientExistsById(id: Id) returns (found: bool)
      ensures found == (id in clients)
    {
      found := id in clients;
    }

    method FileExists(id: Id, filename: bytes) returns (found: bool)
      ensures found <==> exists p :: p in files && files[p].clientId == id && files[p].filename == filename
    {
      found := exists p | p in files :: files[p].clientId == id && files[p].filename == filename;
    }

    method GetAesKeyOfClient(id: Id) returns (key: Option<Key>)
      ensures key == if id in clients then clients[id].aesKey else None
    {
      key := None;
      if id in clients {
        key := clients[id].aesKey;
      }
    }

    method InsertNewClient(name: bytes, id: Id)
      modifies this`clients
      ensures clients == InsertClient(old(clients), id, name)
    {
      if id !in clients {
        clients := clients[id := ClientRow(name, None, None)];
      }
    }

    /** UPDATE: every row is looked at once, and those with the name get both keys. */
    method InsertKeysOfClient(name: bytes, publicKey: bytes, aesKey: Key)
      modifies this`clients
      ensures clients.Keys == old(clients.Keys)
      ensures forall id :: id in clients ==>
        var row := old(clients)[id];
        && clients[id].name == row.name
        && (row.name == name ==> clients[id].publicKey == Some(publicKey) && clients[id].aesKey == Some(aesKey))
        && (row.name != name ==> clients[id] == row)
      ensures clients == SetKeys(old(clients), name, publicKey, aesKey)
    {
      var left := clients.Keys;
      while left != {}
        invariant left <= clients.Keys == old(clients.Keys)
        invariant forall id :: id in clients ==>
          clients[id] == (if id in left then old(clients)[id] else SetKeys(old(clients), name, publicKey, aesKey)[id])
        decreases left
      {
        var id :| id in left;
        if clients[id].name == name {
          clients := clients[id := clients[id].(publicKey := Some(publicKey), aesKey := Some(aesKey))];
        }
        left := left - {id};
      }
    }

    method InsertFileDetails(id: Id, filename: bytes, path: bytes, verified: bool)
      modifies this`files
      ensures files == InsertFile(old(files), path, FileRow(id, filename, verified))
    {
      if path !in files {
        files := files[path := FileRow(id, filename, verified)];
      }
    }

    /** UPDATE: every row is looked at once, and those of this client and name get the flag. */
    method UpdateCksumVerification(id: Id, filename: bytes, verified: bool)
      modifies this`files
      ensures files.Keys == old(files.Keys)
      ensures forall p :: p in files ==>
        var row := old(files)[p];
        && files[p].clientId == row.clientId && files[p].filename == row.filename
        && files[p].verified == (if row.clientId == id && row.filename == filename then verified else row.verified)
      ensures files == SetVerified(old(files), id, filename, verified)
    {
      var left := files.Keys;
      while left != {}
        invariant left <= files.Keys == old(files.Keys)
        invariant forall p :: p in files ==>
          files[p] == (if p in left then old(files)[p] else SetVerified(old(files), id, filename, verified)[p])
        decreases left
      {
        var p :| p in left;
        if files[p].clientId == id && files[p].filename == filename {
          files := files[p := files[p].(verified := verified)];
        }
        left := left - {p};
      }
    }

    /** DELETE: every row is looked at once, and those of this client and name go. */
    method DeleteFileOfClient(id: Id, filename: bytes)
      modifies this`files
      ensures forall p :: p in files <==>
        p in old(files) && !(old(files)[p].clientId == id && old(files)[p].filename == filename)
      ensures forall p :: p in files ==> files[p] == old(files)[p]
      ensures files == DeleteRows(old(files), id, filename)
    {
      var left := files.Keys;
      while left != {}
        invariant left <= files.Keys <= old(files.Keys)
        invariant forall p :: p in files ==> files[p] == old(files)[p]
        invariant forall p :: p in old(files) && p !in left ==> (p in files <==> !Matches(old(files)[p], id, filename))
        decreases left
      {
        var p :| p in left;
        if files[p].clientId == id && files[p].filename == filename {
          files := files - {p};
        }
        left := left - {p};
      }
    }

    /** SELECT * FROM clients: every row once, in no particular order. */
    method GetClientList() returns (rows: seq<(Id, ClientRow)>)
      ensures ListsTable(rows, clients)
    {
      rows := [];
      var left := clients.Keys;
      while left != {}
        invariant left <= clients.Keys
        invariant ListsTable(rows, clients - left)
        decreases left
      {
        var id :| id in left;
        ListsMore(rows, clients - left, id, clients[id]);
        assert (clients - left)[id := clients[id]] == clients - (left - {id});
        left := left - {id};
        rows := rows + [(id, clients[id])];
      }
      assert clients - {} == clients;
    }

    method GetFileList() returns (rows: seq<(bytes, FileRow)>)
      ensures ListsTable(rows, files)
    {
      rows := [];
      var left := files.Keys;
      while left != {}
        invariant left <= files.Keys
        invariant ListsTable(rows, files - left)
        decreases left
      {
        var p :| p in left;
        ListsMore(rows, files - left, p, files[p]);
        assert (files - left)[p := files[p]] == files - (left - {p});
        left := left - {p};
        rows := rows + [(p, files[p])];
      }
      assert files - {} == files;
    }
  }

  /** server/client.py: one client's index of files. */
  class ClientRecord {
    const clientId: Id
    const name: bytes
    var files: map<bytes, File>

    constructor (clientId: Id, name: bytes)
      ensures this.clientId == clientId && this.name == name && files == map[]
    {
      this.clientId := clientId;
      this.name := name;
      files := map[];
    }

    ghost function Entry(): ClientEntry
      reads this
    {
      ClientEntry(clientId, name, files)
    }

    method AddFile(path: bytes, file: File)
      modifies this
      ensures files == old(files)[path := file]
    {
      files := files[path := file];
    }

    method RemoveFile(path: bytes)
      requires path in files
      modifies this
      ensures files == old(files) - {path}
    {
      files := files - {path};
    }
  }

  class Server {
    const database: Database
    var clientMap: map<Id, ClientRecord>
    var fileMap: map<bytes, File>
    var disk: map<Place, bytes>

    ghost function Repr(): set<object>
      reads this
    {
      {this, database} + clientMap.Values
    }

    /** No two clients share a record. */
    ghost predicate Valid()
      reads this
    {
      forall i, j :: i in clientMap && j in clientMap && i != j ==> clientMap[i] != clientMap[j]
    }

    ghost function Clients(): map<Id, ClientEntry>
      reads this`clientMap, clientMap.Values
    {
      map id | id in clientMap :: clientMap[id].Entry()
    }

    ghost function View(): State
      reads Repr()
    {
      State(database.clients, database.files, disk, Clients(), fileMap)
    }

    constructor ()
      ensures Valid() && fresh(Repr())
      ensures View() == State(map[], map[], map[], map[], map[])
    {
      database := new Database();
      clientMap := map[];
      fileMap := map[];
      disk := map[];
    }

    method AddClient(id: Id, name: bytes)
      requires Valid()
      modifies this`clientMap
      ensures Valid() && fresh(clientMap.Values - old(clientMap.Values))
      ensures clientMap.Keys == old(clientMap.Keys) + {id}
      ensures Clients() == old(Clients())[id := ClientEntry(id, name, map[])]
    {
      var client := new ClientRecord(id, name);
      assert forall j :: j in clientMap ==> clientMap[j] != client;
      clientMap := clientMap[id := client];
    }

    method HandleClientRegistration(payload: bytes, e: Env) returns (reply: Option<Reply>)
      requires Valid()
      modifies Repr()
      ensures Valid() && fresh(Repr() - old(Repr()))
      ensures (View(), reply) == HandleRegistration(old(View()), payload, e)
      ensures reply == Some(RegistrationErr) <==>
        exists id :: id in old(database.clients) && old(database.clients)[id].name == Strip(payload)
      ensures reply != Some(RegistrationErr) ==> reply == Some(RegistrationOk(e.freshId))
    {
      hide Strip;
      var name := Strip(payload);
      var taken := database.ClientExistsByName(name);
      if taken {
        return Some(RegistrationErr);
      }
      AddClient(e.freshId, name);
      database.InsertNewClient(name, e.freshId);
      reply := Some(RegistrationOk(e.freshId));
    }

    method SendAesKeyToClient(id: Id, payload: bytes, e: Env) returns (reply: Option<Reply>)
      requires Valid()
      modifies Repr()
      ensures Valid() && Repr() == old(Repr())
      ensures (View(), reply) == HandleKeys(old(View()), id, payload, e)
    {
      hide Strip;
      if |payload| != NAME_LENGTH + PUBLIC_KEY_LENGTH {
        return None;
      }
      var (name, publicKey) := (Strip(payload[..NAME_LENGTH]), payload[NAME_LENGTH..]);
      database.InsertKeysOfClient(name, publicKey, e.aesKey);
      var cipherKey := e.crypto.wrap(publicKey, e.aesKey);
      match cipherKey
      case None => reply := None;
      case Some(c) => reply := Some(SwitchingKeys(id, c));
    }

    method HandleFileRequest(id: Id, rawName: bytes, content: bytes, e: Env) returns (reply: Option<Reply>)
      requires Valid()
      modifies Repr()
      ensures Valid() && Repr() == old(Repr())
      ensures (View(), reply) == HandleFile(old(View()), id, rawName, content, e)
    {
      hide Strip, Lower;
      var filename := Lower(Strip(rawName));
      var key := database.GetAesKeyOfClient(id);
      if key == None {
        return None;
      }
      var plain := if e.diskOk then e.crypto.decrypt(key.value, content) else None;
      if plain == None {
        return None;
      }
      reply := ProcessFileContent(id, filename, plain.value);
    }

    method AddToIndex(id: Id, path: bytes, file: File)
      requires Valid() && id in clientMap
      modifies clientMap[id]
      ensures var m := old(Clients());
        Clients() == m[id := m[id].(files := m[id].files[path := file])]
    {
      clientMap[id].AddFile(path, file);
    }

    method RemoveFromIndex(id: Id, path: bytes)
      requires Valid() && id in clientMap
      modifies clientMap[id]
      ensures var m := old(Clients());
        Clients() == m[id := m[id].(files := m[id].files - {path})]
    {
      if path in clientMap[id].files {
        clientMap[id].RemoveFile(path);
      }
      assert clientMap[id].files == old(clientMap[id].files) - {path};
    }

    /** Inserts the row of a new file, or takes back the verification of a known one. */
    method RecordUpload(id: Id, filename: bytes, path: bytes)
      modifies database`files
      ensures database.files == StoredRows(old(database.files), id, filename, path)
    {
      var known := database.FileExists(id, filename);
      if !known {
        database.InsertFileDetails(id, filename, path, false);
      } else {
        database.UpdateCksumVerification(id, filename, false);
      }
    }

    /** Writes the file and enters it in both indexes; the second only if the client has a record. */
    method WriteAndIndex(id: Id, filename: bytes, path: bytes, plain: bytes) returns (known: bool)
      requires Valid()
      modifies this`disk, this`fileMap, clientMap.Values
      ensures known <==> id in clientMap
      ensures disk == old(disk)[Resolve(path) := plain] && fileMap == old(fileMap)[path := File(id, filename, path)]
      ensures var m := old(Clients());
        Clients() == if known then m[id := m[id].(files := m[id].files[path := File(id, filename, path)])] else m
    {
      hide Resolve, ClientRecord.Entry;
      ghost var clients := Clients();
      disk := disk[Resolve(path) := plain];
      var file := File(id, filename, path);
      fileMap := fileMap[path := file];
      assert Clients() == clients;
      known := id in clientMap;
      if known {
        AddToIndex(id, path, file);
      }
    }

    method ProcessFileContent(id: Id, filename: bytes, plain: bytes) returns (reply: Option<Reply>)
      requires Valid()
      modifies Repr()
      ensures Valid() && Repr() == old(Repr())
      ensures (View(), reply) == StoreFile(old(View()), id, filename, plain)
    {
      hide PathOf, Pad, Cksum, IsPosixCksum, SetVerified, InsertFile, Stores.FileExists, Resolve;
      var path := PathOf(id, filename);
      var known := WriteAndIndex(id, filename, path, plain);
      if !known {
        return None;
      }
      var cksum := ServerCrc.CksumCalc(disk[Resolve(path)]);
      RecordUpload(id, filename, path);
      reply := Some(CksumReady(id, |plain|, Pad(filename), cksum));
    }

    method HandleCksumOk(id: Id, rawName: bytes) returns (reply: Option<Reply>)
      requires Valid()
      modifies Repr()
      ensures Valid() && Repr() == old(Repr())
      ensures (View(), reply) == Stores.HandleCksumOk(old(View()), id, rawName)
    {
      hide Strip, Lower;
      database.UpdateCksumVerification(id, Lower(Strip(rawName)), true);
      reply := Some(MessageReceived(id));
    }

    method Unindex(id: Id, path: bytes)
      requires Valid()
      modifies this`fileMap, clientMap.Values
      ensures fileMap == old(fileMap) - {path}
      ensures var m := old(Clients());
        Clients() == Forget(m, id, path)
    {
      if id in clientMap {
        RemoveFromIndex(id, path);
      }
      if path in fileMap {
        fileMap := fileMap - {path};
      }
      assert fileMap == old(fileMap) - {path};
    }

    method HandleCksumErrFinal(id: Id, rawName: bytes, e: Env) returns (reply: Option<Reply>)
      requires Valid()
      modifies Repr()
      ensures Valid() && Repr() == old(Repr())
      ensures (View(), reply) == Stores.HandleCksumErrFinal(old(View()), id, rawName, e)
    {
      hide Strip, Lower, PathOf, Resolve, DeleteRows;
      var filename := Lower(Strip(rawName));
      var path := PathOf(id, filename);
      var place := Resolve(path);
      if place in disk {
        if !e.diskOk {
          return None;
        }
        disk := disk - {place};
      }
      database.DeleteFileOfClient(id, filename);
      Unindex(id, path);
      assert disk == old(disk) - {place};
      reply := Some(MessageReceived(id));
    }

    method HandleRequest(id: Id, body: Body, e: Env) returns (reply: Option<Reply>)
      requires Valid()
      modifies Repr()
      ensures Valid() && fresh(Repr() - old(Repr()))
      ensures (View(), reply) == Handle(old(View()), id, body, e)
    {
      hide HandleRegistration, HandleKeys, HandleFile, Stores.HandleCksumOk, Stores.HandleCksumErrFinal;
      if !body.Register? {
        var known := database.ClientExistsById(id);
        if !known {
          return Some(RegistrationErr);
        }
      }
      match body
      case Register(payload) => reply := HandleClientRegistration(payload, e);
      case SendPublicKey(payload) => reply := SendAesKeyToClient(id, payload, e);
      case SendFile(rawName, content) => reply := HandleFileRequest(id, rawName, content, e);
      case CksumOk(rawName) => reply := HandleCksumOk(id, rawName);
      case CksumErr(rawName) => reply := None;
      case CksumErrFinal(rawName) => reply := HandleCksumErrFinal(id, rawName, e);
      case Unknown(code) => reply := None;
    }

    // ---- Start-up ----

    /** Clears the client index and fills it from the clients table. */
    method LoadClients()
      modifies this`clientMap
      ensures Valid() && fresh(clientMap.Values)
      ensures Clients() == IndexClients(database.clients, map[])
    {
      hide ReadSoFar, ListsTable, IndexClients;
      clientMap := map[];
      var rows := database.GetClientList();
      assert ReadSoFar(rows, 0, map[], database.clients) by { ReadNone(rows, database.clients); }
      assert Clients() == IndexClients(map[], map[]) by { IndexNoClients(); }
      ghost var read: map<Id, ClientRow> := map[];
      for i := 0 to |rows|
        invariant Valid() && fresh(clientMap.Values)
        invariant ReadSoFar(rows, i, read, database.clients)
        invariant Clients() == IndexClients(read, map[])
        modifies this`clientMap
      {
        ReadMore(rows, i, read, database.clients);
        var (id, row) := rows[i];
        AddClient(id, row.name);
        IndexOneMoreClient(read, id, row);
        read := read[id := row];
      }
      ReadAll(rows, read, database.clients);
    }

    /** Indexes one row of the files table, after the rows read so far. */
    method LoadRow(p: bytes, row: FileRow, ghost clients: map<Id, ClientRow>, ghost read: map<bytes, FileRow>)
      requires Valid() && row.clientId in clientMap && p !in read
      requires Clients() == IndexClients(clients, read) && fileMap == IndexFiles(read)
      modifies this`fileMap, clientMap[row.clientId]
      ensures Clients() == IndexClients(clients, read[p := row]) && fileMap == IndexFiles(read[p := row])
    {
      hide IndexFiles, IndexClients;
      assert row.clientId in Clients();
      IndexKeys(clients, read);
      IndexPut(clients, read, p, row);
      var file := File(row.clientId, row.filename, p);
      fileMap := fileMap[p := file];
      AddToIndex(row.clientId, p, file);
    }

    /** How an unfinished scan leaves the indexes: the rows before the first without its client, and that row's path. */
    ghost predicate StoppedAt(read: map<bytes, FileRow>, p: bytes)
      reads this, database, clientMap.Values
    {
      && read.Keys <= database.files.Keys && (forall q :: q in read ==> read[q] == database.files[q])
      && p in database.files && p !in read && database.files[p].clientId !in database.clients
      && OwnersKnown(read, database.clients)
      && Clients() == IndexClients(database.clients, read)
      && fileMap == IndexFiles(read)[p := FileOf(p, database.files[p])]
    }

    /**
     Rebuilds both indexes from the tables. A file row without its client raises, after its path has
     gone into one index and before the other is touched; `complete` says whether that happened.
     */
    method LoadDataFromDatabase() returns (complete: bool)
      modifies this`clientMap, this`fileMap
      ensures Valid() && fresh(clientMap.Values)
      ensures clientMap.Keys == database.clients.Keys
      ensures complete <==> OwnersKnown(database.files, database.clients)
      ensures complete ==> Clients() == IndexClients(database.clients, database.files)
      ensures complete ==> fileMap == IndexFiles(database.files)
      ensures !complete ==> exists read, p :: StoppedAt(read, p)
    {
      LoadClients();
      assert clientMap.Keys == Clients().Keys;
      fileMap := map[];
      complete := LoadFiles();
    }

    method LoadFiles() returns (complete: bool)
      requires Valid() && clientMap.Keys == database.clients.Keys && fileMap == map[]
      requires Clients() == IndexClients(database.clients, map[])
      modifies this`fileMap, clientMap.Values
      ensures complete <==> OwnersKnown(database.files, database.clients)
      ensures complete ==> Clients() == IndexClients(database.clients, database.files)
      ensures complete ==> fileMap == IndexFiles(database.files)
      ensures !complete ==> exists read, p :: StoppedAt(read, p)
    {
      hide ReadSoFar, ListsTable, IndexClients, IndexFiles;
      complete := true;
      var rows := database.GetFileList();
      ghost var read: map<bytes, FileRow> := map[];
      assert ReadSoFar(rows, 0, read, database.files) by { ReadNone(rows, database.files); }
      assert IndexFiles(map[]) == map[] by { IndexNoFiles(); }
      for i := 0 to |rows|
        invariant ReadSoFar(rows, i, read, database.files)
        invariant OwnersKnown(read, database.clients)
        invariant Clients() == IndexClients(database.clients, read) && fileMap == IndexFiles(read)
        modifies this`fileMap, clientMap.Values
      {
        ReadMore(rows, i, read, database.files);
        var (p, row) := rows[i];
        if row.clientId !in clientMap {
          fileMap := fileMap[p := File(row.clientId, row.filename, p)];
          ReadRows(rows, i, read, database.files);
          assert StoppedAt(read, p);
          return false;
        }
        LoadRow(p, row, database.clients, read);
        read := read[p := row];
      }
      ReadAll(rows, read, database.files);
    }

    /** A restart after any run finds in the tables exactly the indexes it lost. */
    method Restart()
      requires Indexed(View())
      modifies this`clientMap, this`fileMap
      ensures Valid() && View() == old(View())
    {
      var complete := LoadDataFromDatabase();
    }
  }
}
