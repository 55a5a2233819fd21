/** What every request keeps, what it leaves alone, and why the tables suffice to start again. */
module StoreInvariants {
  import opened Bytes
  import opened Paths
  import opened Text
  import opened PosixCksum
  import opened Stores

  // ---- Key safety: paths stand for (client, file name) pairs ----

  /** Under agreement the row matching (id, filename) is the row at its path: the guard on the pair guards the key. */
  lemma RowIsAtItsPath(clients: map<Id, ClientRow>, files: map<bytes, FileRow>, id: Id, filename: bytes)
    requires WellPlaced(clients, files)
    ensures FileExists(files, id, filename) <==> PathOf(id, filename) in files
    ensures forall p :: p in files ==> (Matches(files[p], id, filename) <==> p == PathOf(id, filename))
  {
    hide PathOf;
    forall p | p in files
      ensures Matches(files[p], id, filename) <==> p == PathOf(id, filename)
    {
      if p == PathOf(id, filename) {
        PathInjective(files[p].clientId, files[p].filename, id, filename);
      }
    }
    if PathOf(id, filename) in files {
      assert Matches(files[PathOf(id, filename)], id, filename);
    }
  }

  // Selecting by (id, filename) is selecting by path, for each statement on the files table.

  lemma InsertByPath(clients: map<Id, ClientRow>, files: map<bytes, FileRow>, id: Id, filename: bytes)
    requires WellPlaced(clients, files)
    ensures var p := PathOf(id, filename);
      StoredRows(files, id, filename, p) == files[p := FileRow(id, filename, false)]
  {
    RowIsAtItsPath(clients, files, id, filename);
    var p := PathOf(id, filename);
    hide PathOf, WellPlaced;
    if FileExists(files, id, filename) {
      UpdateByPath(clients, files, id, filename, false);
      hide SetVerified;
    }
    hide FileExists;
  }

  lemma UpdateByPath(clients: map<Id, ClientRow>, files: map<bytes, FileRow>, id: Id, filename: bytes, v: bool)
    requires WellPlaced(clients, files)
    ensures var p := PathOf(id, filename);
      SetVerified(files, id, filename, v) == if p in files then files[p := FileRow(id, filename, v)] else files
  {
    var p := PathOf(id, filename);
    RowIsAtItsPath(clients, files, id, filename);
    hide PathOf, WellPlaced, FileExists;
    assert p in files ==> Matches(files[p], id, filename);
  }

  lemma DeleteByPath(clients: map<Id, ClientRow>, files: map<bytes, FileRow>, id: Id, filename: bytes)
    requires WellPlaced(clients, files)
    ensures DeleteRows(files, id, filename) == files - {PathOf(id, filename)}
  {
    RowIsAtItsPath(clients, files, id, filename);
    hide PathOf, WellPlaced, FileExists, Matches;
  }

  /** The `files` insert never meets its primary key, and names stay unique. */
  lemma InsertsNeverCollide(s: State, id: Id, body: Body, e: Env)
    requires Indexed(s) && (body.Register? ==> e.freshId !in s.clients)
    ensures body.SendFile? ==>
      var filename := Lower(Strip(body.rawName));
      !FileExists(s.files, id, filename) ==> PathOf(id, filename) !in s.files
    ensures NamesUnique(Handle(s, id, body, e).0.clients)
  {
    hide PathOf, Lower, Strip;
    if body.SendFile? {
      RowIsAtItsPath(s.clients, s.files, id, Lower(Strip(body.rawName)));
    }
    HandleKeepsIndexed(s, id, body, e);
  }

  // ---- The indexes follow the tables ----

  lemma IndexPut(clients: map<Id, ClientRow>, files: map<bytes, FileRow>, p: bytes, row: FileRow)
    requires row.clientId in clients
    requires p in files ==> files[p].clientId == row.clientId
    ensures IndexFiles(files[p := row]) == IndexFiles(files)[p := FileOf(p, row)]
    ensures var (m, i) := (IndexClients(clients, files), row.clientId);
      IndexClients(clients, files[p := row]) == m[i := m[i].(files := m[i].files[p := FileOf(p, row)])]
  {
    var i := row.clientId;
    assert FilesOf(files[p := row], i) == FilesOf(files, i)[p := FileOf(p, row)];
    forall j | j in clients && j != i
      ensures FilesOf(files[p := row], j) == FilesOf(files, j)
    {
    }
  }

  lemma IndexDrop(clients: map<Id, ClientRow>, files: map<bytes, FileRow>, p: bytes, i: Id)
    requires i in clients && (p in files ==> files[p].clientId == i)
    ensures IndexFiles(files - {p}) == IndexFiles(files) - {p}
    ensures var m := IndexClients(clients, files);
      IndexClients(clients, files - {p}) == m[i := m[i].(files := m[i].files - {p})]
  {
    assert FilesOf(files - {p}, i) == FilesOf(files, i) - {p};
    forall j | j in clients && j != i
      ensures FilesOf(files - {p}, j) == FilesOf(files, j)
    {
    }
  }

  // ---- Tables and indexes stay together, whatever the names ----

  lemma RegistrationKeepsIndexed(s: State, payload: bytes, e: Env)
    requires Indexed(s) && e.freshId !in s.clients
    ensures Indexed(HandleRegistration(s, payload, e).0)
  {
    hide PathOf, Strip;
    if !NameTaken(s.clients, Strip(payload)) {
      IndexNewClient(s.clients, s.files, e.freshId, ClientRow(Strip(payload), None, None));
      hide IndexClients, IndexFiles;
    }
  }

  lemma IndexNewClient(clients: map<Id, ClientRow>, files: map<bytes, FileRow>, id: Id, row: ClientRow)
    requires WellPlaced(clients, files) && id !in clients
    ensures IndexClients(clients[id := row], files)
         == IndexClients(clients, files)[id := ClientEntry(id, row.name, map[])]
  {
    hide PathOf;
    assert FilesOf(files, id) == map[];
    hide FilesOf;
  }

  lemma KeysKeepIndexed(s: State, id: Id, payload: bytes, e: Env)
    requires Indexed(s)
    ensures Indexed(HandleKeys(s, id, payload, e).0)
  {
    hide PathOf, Strip, SetKeys;
    if |payload| == NAME_LENGTH + PUBLIC_KEY_LENGTH {
      var (name, publicKey) := (Strip(payload[..NAME_LENGTH]), payload[NAME_LENGTH..]);
      SetKeysKeepsNames(s.clients, s.files, name, publicKey, e.aesKey);
      hide IndexClients, IndexFiles;
    }
  }

  lemma SetKeysKeepsNames(
    clients: map<Id, ClientRow>, files: map<bytes, FileRow>, name: bytes, publicKey: bytes, aesKey: Key)
    ensures var t := SetKeys(clients, name, publicKey, aesKey);
      t.Keys == clients.Keys && (forall i :: i in clients ==> t[i].name == clients[i].name)
      && IndexClients(t, files) == IndexClients(clients, files)
  {
    hide FilesOf;
  }

  lemma ClientMapKeys(s: State)
    requires Indexed(s)
    ensures s.clientMap.Keys == s.clients.Keys
  {
  }

  // Each file handler is a write, or a removal, at one path in tables and indexes and at its place on disk.

  function Put(s: State, id: Id, filename: bytes, plain: bytes): State
    requires id in s.clientMap
  {
    var p := PathOf(id, filename);
    var (file, entry) := (File(id, filename, p), s.clientMap[id]);
    State(s.clients, s.files[p := FileRow(id, filename, false)], s.disk[Resolve(p) := plain],
          s.clientMap[id := entry.(files := entry.files[p := file])], s.fileMap[p := file])
  }

  function Drop(s: State, id: Id, filename: bytes): State
    requires id in s.clientMap
  {
    var p := PathOf(id, filename);
    State(s.clients, s.files - {p}, s.disk - {Resolve(p)}, Forget(s.clientMap, id, p), s.fileMap - {p})
  }

  function Mark(s: State, id: Id, filename: bytes): State {
    var p := PathOf(id, filename);
    if p in s.files then s.(files := s.files[p := FileRow(id, filename, true)]) else s
  }

  lemma StoreFileIsPut(s: State, id: Id, filename: bytes, plain: bytes)
    requires Indexed(s) && id in s.clients
    ensures id in s.clientMap
    ensures StoreFile(s, id, filename, plain)
         == (Put(s, id, filename, plain), Some(CksumReady(id, |plain|, Pad(filename), Cksum(plain))))
  {
    ClientMapKeys(s);
    InsertByPath(s.clients, s.files, id, filename);
    hide Indexed, PathOf, Resolve, StoredRows, Cksum, Pad;
  }

  /** 1106 removes the file, unless the disk refuses; then nothing changes and no answer is sent. */
  lemma FinalIsDrop(s: State, id: Id, rawName: bytes, e: Env)
    requires Indexed(s) && id in s.clients
    ensures id in s.clientMap
    ensures var filename := Lower(Strip(rawName));
      HandleCksumErrFinal(s, id, rawName, e)
      == if Resolve(PathOf(id, filename)) in s.disk && !e.diskOk then (s, None)
         else (Drop(s, id, filename), Some(MessageReceived(id)))
  {
    ClientMapKeys(s);
    hide Lower, Strip;
    DeleteByPath(s.clients, s.files, id, Lower(Strip(rawName)));
    hide Indexed, PathOf, Resolve, DeleteRows, Forget;
  }

  lemma VerifyIsMark(s: State, id: Id, filename: bytes)
    requires Indexed(s)
    ensures s.(files := SetVerified(s.files, id, filename, true)) == Mark(s, id, filename)
  {
    UpdateByPath(s.clients, s.files, id, filename, true);
    hide Indexed, PathOf, SetVerified;
  }

  /** Whoever owns the row at a client's path is that client. */
  lemma OwnerOfPath(s: State, id: Id, filename: bytes)
    requires WellPlaced(s.clients, s.files) && PathOf(id, filename) in s.files
    ensures s.files[PathOf(id, filename)].clientId == id && s.files[PathOf(id, filename)].filename == filename
  {
    hide PathOf;
    var row := s.files[PathOf(id, filename)];
    PathInjective(row.clientId, row.filename, id, filename);
  }

  lemma PutKeepsPlaces(clients: map<Id, ClientRow>, files: map<bytes, FileRow>, id: Id, filename: bytes, v: bool)
    requires WellPlaced(clients, files) && id in clients
    ensures WellPlaced(clients, files[PathOf(id, filename) := FileRow(id, filename, v)])
  {
    hide PathOf;
  }

  lemma PutKeepsIndexed(s: State, id: Id, filename: bytes, plain: bytes)
    requires Indexed(s) && id in s.clientMap
    ensures Indexed(Put(s, id, filename, plain))
  {
    var p := PathOf(id, filename);
    if p in s.files {
      OwnerOfPath(s, id, filename);
    }
    ClientMapKeys(s);
    IndexPut(s.clients, s.files, p, FileRow(id, filename, false));
    PutKeepsPlaces(s.clients, s.files, id, filename, false);
    hide PathOf, Resolve, IndexClients, IndexFiles, NamesUnique, WellPlaced;
  }

  lemma DropKeepsIndexed(s: State, id: Id, filename: bytes)
    requires Indexed(s) && id in s.clientMap
    ensures Indexed(Drop(s, id, filename))
  {
    var p := PathOf(id, filename);
    if p in s.files {
      OwnerOfPath(s, id, filename);
    }
    ClientMapKeys(s);
    IndexDrop(s.clients, s.files, p, id);
    hide PathOf, Resolve, IndexClients, IndexFiles, NamesUnique;
  }

  lemma MarkKeepsIndexed(s: State, id: Id, filename: bytes)
    requires Indexed(s) && id in s.clientMap
    ensures Indexed(Mark(s, id, filename))
  {
    var p := PathOf(id, filename);
    if p in s.files {
      OwnerOfPath(s, id, filename);
      ClientMapKeys(s);
      PutKeepsPlaces(s.clients, s.files, id, filename, true);
      MarkKeepsIndexes(s.clients, s.files, p);
      hide PathOf, IndexClients, IndexFiles, NamesUnique, WellPlaced;
    }
  }

  lemma MarkKeepsIndexes(clients: map<Id, ClientRow>, files: map<bytes, FileRow>, p: bytes)
    requires p in files
    ensures var marked := files[p := files[p].(verified := true)];
      IndexFiles(marked) == IndexFiles(files) && IndexClients(clients, marked) == IndexClients(clients, files)
  {
    var marked := files[p := files[p].(verified := true)];
    forall i | i in clients
      ensures FilesOf(marked, i) == FilesOf(files, i)
    {
    }
  }

  /** Every request, with any name in it, keeps tables and indexes together. */
  lemma HandleKeepsIndexed(s: State, id: Id, body: Body, e: Env)
    requires Indexed(s) && (body.Register? ==> e.freshId !in s.clients)
    ensures Indexed(Handle(s, id, body, e).0)
  {
    hide Indexed, Lower, Strip, Put, Drop, Mark, StoreFile, SetVerified, HandleCksumErrFinal, HandleRegistration,
      HandleKeys, Resolve, PathOf;
    if body.Register? || id in s.clients {
      match body
      case Register(payload) => RegistrationKeepsIndexed(s, payload, e);
      case SendPublicKey(payload) => KeysKeepIndexed(s, id, payload, e);
      case SendFile(rawName, content) =>
        if Received(s, id, content, e).Some? {
          StoreFileIsPut(s, id, Lower(Strip(rawName)), Received(s, id, content, e).value);
          PutKeepsIndexed(s, id, Lower(Strip(rawName)), Received(s, id, content, e).value);
        }
      case CksumOk(rawName) =>
        ClientMapKeys(s);
        VerifyIsMark(s, id, Lower(Strip(rawName)));
        MarkKeepsIndexed(s, id, Lower(Strip(rawName)));
      case CksumErrFinal(rawName) =>
        FinalIsDrop(s, id, rawName, e);
        DropKeepsIndexed(s, id, Lower(Strip(rawName)));
      case _ =>
    }
  }

  // ---- The disk agrees too, exactly while no two paths share a place ----

  /** No other row's path leads where this one leads. */
  ghost predicate Alone(files: map<bytes, FileRow>, p: bytes) {
    forall q :: q in files && q != p ==> Resolve(q) != Resolve(p)
  }

  /** The path at which a request writes to the disk or removes from it. */
  function DiskPath(s: State, id: Id, body: Body, e: Env): Option<bytes> {
    if (!body.SendFile? && !body.CksumErrFinal?) || id !in s.clients then None
    else
      var p := PathOf(id, Lower(Strip(body.rawName)));
      if body.SendFile? then if Received(s, id, body.content, e).Some? then Some(p) else None
      else if Resolve(p) in s.disk && !e.diskOk then None else Some(p)
  }

  lemma PutOnDisk(files: map<bytes, FileRow>, disk: map<Place, bytes>, p: bytes, row: FileRow, plain: bytes)
    requires OnDisk(files, disk)
    ensures OnDisk(files[p := row], disk[Resolve(p) := plain]) <==> Alone(files, p)
  {
    hide Resolve;
    var (files', disk') := (files[p := row], disk[Resolve(p) := plain]);
    if Alone(files, p) {
      assert p in files';
      forall d | d in disk'
        ensures exists q :: q in files' && Resolve(q) == d
      {
        if d in disk {
          var q :| q in files && Resolve(q) == d;
          assert q in files';
        }
      }
    } else {
      var q :| q in files && q != p && Resolve(q) == Resolve(p);
      assert p in files' && q in files';
    }
  }

  lemma DropOnDisk(files: map<bytes, FileRow>, disk: map<Place, bytes>, p: bytes)
    requires OnDisk(files, disk)
    ensures OnDisk(files - {p}, disk - {Resolve(p)}) <==> Alone(files, p)
  {
    hide Resolve;
    var (files', disk') := (files - {p}, disk - {Resolve(p)});
    if Alone(files, p) {
      forall d | d in disk'
        ensures exists q :: q in files' && Resolve(q) == d
      {
        var q :| q in files && Resolve(q) == d;
        assert q in files';
      }
    } else {
      var q :| q in files && q != p && Resolve(q) == Resolve(p);
      assert q in files';
    }
  }

  lemma MarkOnDisk(files: map<bytes, FileRow>, disk: map<Place, bytes>, p: bytes, row: FileRow)
    requires OnDisk(files, disk) && p in files
    ensures OnDisk(files[p := row], disk)
  {
    hide Resolve;
    forall d | d in disk
      ensures exists q :: q in files[p := row] && Resolve(q) == d
    {
      var q :| q in files && Resolve(q) == d;
      assert q in files[p := row];
    }
  }

  /** A request keeps the five stores in agreement exactly when no other row's path leads where its own leads. */
  lemma AgreementExactly(s: State, id: Id, body: Body, e: Env)
    requires Agreement(s) && (body.Register? ==> e.freshId !in s.clients)
    ensures Agreement(Handle(s, id, body, e).0)
      <==> DiskPath(s, id, body, e).Some? ==> Alone(s.files, DiskPath(s, id, body, e).value)
  {
    HandleKeepsIndexed(s, id, body, e);
    RequestOnDisk(s, id, body, e);
    hide Indexed, OnDisk, Handle, Alone, DiskPath;
  }

  lemma RequestOnDisk(s: State, id: Id, body: Body, e: Env)
    requires Agreement(s)
    ensures var t := Handle(s, id, body, e).0;
      OnDisk(t.files, t.disk) <==> DiskPath(s, id, body, e).Some? ==> Alone(s.files, DiskPath(s, id, body, e).value)
  {
    hide Indexed, OnDisk, Alone, Lower, Strip, StoreFile, SetVerified, HandleCksumErrFinal, Resolve, PathOf,
      Received;
    if id in s.clients {
      match body
      case SendFile(rawName, content) =>
        var (filename, plain) := (Lower(Strip(rawName)), Received(s, id, content, e));
        if plain.Some? {
          StoreFileIsPut(s, id, filename, plain.value);
          PutOnDisk(s.files, s.disk, PathOf(id, filename), FileRow(id, filename, false), plain.value);
        }
      case CksumOk(rawName) =>
        var filename := Lower(Strip(rawName));
        VerifyIsMark(s, id, filename);
        if PathOf(id, filename) in s.files {
          MarkOnDisk(s.files, s.disk, PathOf(id, filename), FileRow(id, filename, true));
        }
      case CksumErrFinal(rawName) =>
        FinalIsDrop(s, id, rawName, e);
        DropOnDisk(s.files, s.disk, PathOf(id, Lower(Strip(rawName))));
      case _ =>
    }
  }

  // ---- Plain names keep everything in order ----

  ghost predicate PlainRows(files: map<bytes, FileRow>) {
    forall p :: p in files ==> PlainName(files[p].filename)
  }

  function NameOf(rawName: bytes): bytes {
    Lower(Strip(rawName))
  }

  /** The file name in the request, if it has one, stays in its directory. */
  predicate PlainBody(body: Body) {
    body.SendFile? || body.CksumErrFinal? ==> PlainName(NameOf(body.rawName))
  }

  ghost predicate Orderly(s: State) {
    Agreement(s) && PlainRows(s.files)
  }

  lemma PlainIsAlone(clients: map<Id, ClientRow>, files: map<bytes, FileRow>, id: Id, filename: bytes)
    requires WellPlaced(clients, files) && PlainRows(files) && PlainName(filename)
    ensures Alone(files, PathOf(id, filename))
  {
    hide PathOf, Resolve, PlainName;
    forall q | q in files && q != PathOf(id, filename)
      ensures Resolve(q) != Resolve(PathOf(id, filename))
    {
      if Resolve(q) == Resolve(PathOf(id, filename)) {
        PlainPlacesDiffer(files[q].clientId, files[q].filename, id, filename);
      }
    }
  }

  lemma RowsStayPlain(s: State, id: Id, body: Body, e: Env)
    requires Indexed(s) && PlainRows(s.files) && PlainBody(body)
    ensures PlainRows(Handle(s, id, body, e).0.files)
  {
    hide PathOf, Resolve, Strip, Lower, PlainName, StoreFile;
    if body.SendFile? && id in s.clients && Received(s, id, body.content, e).Some? {
      StoreFileIsPut(s, id, NameOf(body.rawName), Received(s, id, body.content, e).value);
    }
    hide Indexed;
  }

  /** With plain names every request keeps all five stores in agreement. */
  lemma HandleKeepsOrder(s: State, id: Id, body: Body, e: Env)
    requires Orderly(s) && PlainBody(body) && (body.Register? ==> e.freshId !in s.clients)
    ensures Orderly(Handle(s, id, body, e).0)
  {
    RowsStayPlain(s, id, body, e);
    AgreementExactly(s, id, body, e);
    if DiskPath(s, id, body, e).Some? {
      PlainIsAlone(s.clients, s.files, id, NameOf(body.rawName));
    }
    hide Handle, Indexed, OnDisk, Alone, PlainRows, PathOf, Resolve, Lower, Strip, Received;
  }

  datatype Call = Call(id: Id, body: Body, e: Env)

  /** The stores after a list of requests. */
  function Run(s: State, calls: seq<Call>): State {
    if calls == [] then s
    else
      var c := calls[|calls| - 1];
      Handle(Run(s, calls[..|calls| - 1]), c.id, c.body, c.e).0
  }

  /** Each UUID a registration draws is new to the clients table at the time. */
  ghost predicate FreshIds(s: State, calls: seq<Call>) {
    forall k :: 0 <= k < |calls| && calls[k].body.Register? ==> calls[k].e.freshId !in Run(s, calls[..k]).clients
  }

  /** One more call keeps the promise exactly when the id it draws is new to the table its predecessors leave. */
  lemma FreshIdsMean(s: State, calls: seq<Call>, c: Call)
    ensures FreshIds(s, [])
    ensures FreshIds(s, calls + [c])
      <==> FreshIds(s, calls) && (c.body.Register? ==> c.e.freshId !in Run(s, calls).clients)
  {
    hide Run;
    var more := calls + [c];
    assert more[..|calls|] == calls && more[|calls|] == c;
    assert forall k :: 0 <= k < |calls| ==> more[..k] == calls[..k] && more[k] == calls[k];
  }

  ghost predicate PlainCalls(calls: seq<Call>) {
    forall k :: 0 <= k < |calls| ==> PlainBody(calls[k].body)
  }

  const EMPTY: State := State(map[], map[], map[], map[], map[])

  /** In every reachable state tables and indexes agree; with plain names the disk agrees with them too. */
  lemma {:induction false} ReachableStatesAgree(calls: seq<Call>)
    requires FreshIds(EMPTY, calls)
    ensures Indexed(Run(EMPTY, calls))
    ensures PlainCalls(calls) ==> Orderly(Run(EMPTY, calls))
  {
    hide Handle, PlainBody;
    if calls == [] {
    } else {
      var n := |calls| - 1;
      var (shorter, c) := (calls[..n], calls[n]);
      assert forall k :: 0 <= k <= n ==> shorter[..k] == calls[..k];
      ReachableStatesAgree(shorter);
      var s := Run(EMPTY, shorter);
      hide Indexed, Orderly;
      HandleKeepsIndexed(s, c.id, c.body, c.e);
      if PlainCalls(calls) {
        HandleKeepsOrder(s, c.id, c.body, c.e);
      }
    }
  }

  /** Indexes spelled out: one key set, and one (client id, filename) for each path. */
  lemma IndexedMeans(s: State)
    requires Indexed(s)
    ensures s.fileMap.Keys == s.files.Keys
    ensures s.clientMap.Keys == s.clients.Keys
    ensures forall id :: id in s.clients ==>
      s.clientMap[id].clientId == id && s.clientMap[id].name == s.clients[id].name
    ensures forall p :: p in s.files <==> exists id :: id in s.clientMap && p in s.clientMap[id].files
    ensures forall id, p :: id in s.clientMap && p in s.clientMap[id].files ==>
      s.clientMap[id].files[p] == s.fileMap[p] == File(id, s.files[p].filename, p)
  {
    ClientMapKeys(s);
    forall id, p | id in s.clientMap
      ensures p in s.clientMap[id].files <==> p in s.files && s.files[p].clientId == id
      ensures p in s.clientMap[id].files ==>
        s.clientMap[id].files[p] == s.fileMap[p] == File(id, s.files[p].filename, p)
    {
      RecordsFollowRows(s, id, p);
    }
    forall id | id in s.clients
      ensures s.clientMap[id].clientId == id && s.clientMap[id].name == s.clients[id].name
    {
      hide FilesOf;
    }
    forall p | p in s.files
      ensures s.files[p].clientId in s.clientMap && p in s.clientMap[s.files[p].clientId].files
    {
      hide PathOf;
    }
    hide Indexed;
  }

  lemma RecordsFollowRows(s: State, id: Id, p: bytes)
    requires Indexed(s) && id in s.clientMap
    ensures p in s.clientMap[id].files <==> p in s.files && s.files[p].clientId == id
    ensures p in s.clientMap[id].files ==>
      s.clientMap[id].files[p] == s.fileMap[p] == File(id, s.files[p].filename, p)
  {
    hide WellPlaced, NamesUnique;
    assert s.clientMap[id].files == FilesOf(s.files, id);
  }

  /** Agreement spelled out for the disk: rows and stored files match one to one. */
  lemma AgreementMeans(s: State)
    requires Agreement(s)
    ensures s.disk.Keys == set p | p in s.files :: Resolve(p)
    ensures |s.disk.Keys| == |s.files.Keys|
  {
    hide Indexed, Resolve;
    var places := set p | p in s.files :: Resolve(p);
    assert forall d :: d in s.disk <==> d in places;
    ImageSize(s.files.Keys);
    assert places == set p | p in s.files.Keys :: Resolve(p);
  }

  lemma {:induction false} ImageSize(paths: set<bytes>)
    requires forall p, q :: p in paths && q in paths && p != q ==> Resolve(p) != Resolve(q)
    ensures |set p | p in paths :: Resolve(p)| == |paths|
    decreases paths
  {
    hide Resolve;
    if paths == {} {
    } else {
      var p :| p in paths;
      var rest := paths - {p};
      ImageSize(rest);
      assert (set q | q in paths :: Resolve(q)) == (set q | q in rest :: Resolve(q)) + {Resolve(p)};
    }
  }

  // ---- File isolation ----

  /** The path a request is about, if it is about a file. */
  function Target(id: Id, body: Body): Option<bytes> {
    if body.SendFile? || body.CksumOk? || body.CksumErr? || body.CksumErrFinal?
    then Some(PathOf(id, NameOf(body.rawName)))
    else None
  }

  /** Row, verified flag and index entries of one path. */
  ghost predicate SameEntries(s: State, t: State, p: bytes) {
    && (p in s.files <==> p in t.files) && (p in s.files ==> s.files[p] == t.files[p])
    && (p in s.fileMap <==> p in t.fileMap) && (p in s.fileMap ==> s.fileMap[p] == t.fileMap[p])
    && forall i :: i in s.clientMap ==>
         i in t.clientMap
         && (p in s.clientMap[i].files <==> p in t.clientMap[i].files)
         && (p in s.clientMap[i].files ==> s.clientMap[i].files[p] == t.clientMap[i].files[p])
  }

  /** What is stored at one place. */
  ghost predicate SameOctets(s: State, t: State, d: Place) {
    (d in s.disk <==> d in t.disk) && (d in s.disk ==> s.disk[d] == t.disk[d])
  }

  ghost predicate SameFile(s: State, t: State, p: bytes) {
    SameEntries(s, t, p) && SameOctets(s, t, Resolve(p))
  }

  lemma PutIsolates(s: State, id: Id, filename: bytes, plain: bytes, p: bytes)
    requires id in s.clientMap && p != PathOf(id, filename)
    ensures SameEntries(s, Put(s, id, filename, plain), p)
  {
    hide PathOf, Resolve;
  }

  lemma DropIsolates(s: State, id: Id, filename: bytes, p: bytes)
    requires id in s.clientMap && p != PathOf(id, filename)
    ensures SameEntries(s, Drop(s, id, filename), p)
  {
    hide PathOf, Resolve;
  }

  lemma MarkIsolates(s: State, id: Id, filename: bytes, p: bytes)
    requires p != PathOf(id, filename)
    ensures SameEntries(s, Mark(s, id, filename), p)
  {
    hide PathOf;
  }

  lemma RegistrationIsolates(s: State, payload: bytes, e: Env, p: bytes)
    requires e.freshId !in s.clientMap
    ensures SameEntries(s, HandleRegistration(s, payload, e).0, p)
  {
    hide Strip, InsertClient;
  }

  lemma KeysIsolate(s: State, id: Id, payload: bytes, e: Env, p: bytes)
    ensures SameEntries(s, HandleKeys(s, id, payload, e).0, p)
  {
    hide Strip, SetKeys;
  }

  lemma SameEntriesReflexive(s: State, p: bytes)
    ensures SameEntries(s, s, p)
  {
  }

  /** Whatever the request and the names, only the row and entries of the file it names can change. */
  lemma EntriesIsolation(s: State, id: Id, body: Body, e: Env, p: bytes)
    requires Indexed(s) && (body.Register? ==> e.freshId !in s.clients)
    requires Target(id, body) != Some(p)
    ensures SameEntries(s, Handle(s, id, body, e).0, p)
  {
    ClientMapKeys(s);
    SameEntriesReflexive(s, p);
    hide PathOf, Resolve, Indexed, SameEntries, Lower, Strip, Put, Drop, Mark, StoreFile, SetVerified,
      HandleCksumErrFinal, HandleRegistration, HandleKeys;
    if body.Register? || id in s.clients {
      match body
      case Register(payload) => RegistrationIsolates(s, payload, e, p);
      case SendPublicKey(payload) => KeysIsolate(s, id, payload, e, p);
      case SendFile(rawName, content) =>
        if Received(s, id, content, e).Some? {
          StoreFileIsPut(s, id, NameOf(rawName), Received(s, id, content, e).value);
          PutIsolates(s, id, NameOf(rawName), Received(s, id, content, e).value, p);
        }
      case CksumOk(rawName) =>
        VerifyIsMark(s, id, NameOf(rawName));
        MarkIsolates(s, id, NameOf(rawName), p);
      case CksumErrFinal(rawName) =>
        FinalIsDrop(s, id, rawName, e);
        DropIsolates(s, id, NameOf(rawName), p);
      case _ =>
    }
  }

  /** What the disk holds after a request: one place written, one removed, or none touched. */
  lemma DiskAfter(s: State, id: Id, body: Body, e: Env)
    ensures var (t, p) := (Handle(s, id, body, e).0, DiskPath(s, id, body, e));
      t.disk == match p
                case None => s.disk
                case Some(path) =>
                  if body.SendFile? then s.disk[Resolve(path) := Received(s, id, body.content, e).value]
                  else s.disk - {Resolve(path)}
  {
    hide PathOf, Resolve, Lower, Strip, StoredRows, Cksum, Pad;
  }

  /** Octets at a place survive a request exactly when it writes elsewhere, or writes what is there already. */
  lemma OctetsIsolation(s: State, id: Id, body: Body, e: Env, d: Place)
    ensures SameOctets(s, Handle(s, id, body, e).0, d) <==>
      match DiskPath(s, id, body, e)
      case None => true
      case Some(p) =>
        d != Resolve(p)
        || if body.SendFile? then d in s.disk && Received(s, id, body.content, e) == Some(s.disk[d]) else d !in s.disk
  {
    DiskAfter(s, id, body, e);
    assert body.SendFile? && DiskPath(s, id, body, e).Some? ==> Received(s, id, body.content, e).Some?;
    hide Handle, DiskPath, Received, Resolve;
  }

  /**
   Why names must be plain: a client that names its upload by a way up and down again into another
   client's directory writes that client's file, and the row there keeps its flag.
   */
  lemma ClimbingUpload(s: State, id: Id, other: Id, c: byte, f: bytes, content: bytes, plain: bytes, e: Env)
    requires Indexed(s) && id in s.clients && id != other && IsSeparator(c)
    requires PlainName(f) && Clean(f) && Lower(f) == f && |f| <= NAME_LENGTH - 36
    requires Received(s, id, content, e) == Some(plain)
    ensures var (t, p) := (Handle(s, id, SendFile(Pad(Climb(c, other, f)), content), e).0, PathOf(other, f));
      SameEntries(s, t, p) && Resolve(p) in t.disk && t.disk[Resolve(p)] == plain
  {
    var (name, p) := (Climb(c, other, f), PathOf(other, f));
    var body := SendFile(Pad(name), content);
    ClimbIsClean(c, other, f);
    StripPad(name);
    ClimbReaches(c, id, other, f);
    if PathOf(id, name) == p {
      PathInjective(id, name, other, f);
    }
    EntriesIsolation(s, id, body, e, p);
    DiskAfter(s, id, body, e);
    hide Handle, Indexed, SameEntries, Resolve, PathOf, Lower, Strip, Pad, Climb, Received;
  }

  lemma ClimbIsClean(c: byte, id: Id, f: bytes)
    requires IsSeparator(c) && Clean(f) && f != [] && Lower(f) == f && |f| <= NAME_LENGTH - 36
    ensures Clean(Climb(c, id, f)) && Lower(Climb(c, id, f)) == Climb(c, id, f)
  {
    var name := Climb(c, id, f);
    HexIsLower(id);
    assert |Hex(id)| == 32 && |name| == 36 + |f|;
    hide Hex;
    forall i | 0 <= i < |name|
      ensures LowerChar(name[i]) == name[i]
    {
      if i < 3 {
      } else if i < 35 {
        assert name[i] == Hex(id)[i - 3] == Lower(Hex(id))[i - 3];
      } else if i > 35 {
        assert name[i] == f[i - 36] == Lower(f)[i - 36];
      }
    }
  }

  /** A request leaves a file alone, octets included, when its path neither is nor leads where that file is. */
  lemma FileIsolation(s: State, id: Id, body: Body, e: Env, p: bytes)
    requires Indexed(s) && (body.Register? ==> e.freshId !in s.clients)
    requires Target(id, body) != Some(p)
    requires body.SendFile? || body.CksumErrFinal? ==> Resolve(Target(id, body).value) != Resolve(p)
    ensures SameFile(s, Handle(s, id, body, e).0, p)
  {
    EntriesIsolation(s, id, body, e, p);
    DiskAfter(s, id, body, e);
    hide Handle, Indexed, SameEntries, Resolve, PathOf, Lower, Strip, Received;
  }

  /** Among plain names: only the file the request names can change, octets included. */
  lemma PlainIsolation(s: State, id: Id, body: Body, e: Env, other: Id, filename: bytes)
    requires Indexed(s) && (body.Register? ==> e.freshId !in s.clients)
    requires PlainBody(body) && PlainName(filename)
    requires Target(id, body).Some? ==> other != id || filename != NameOf(body.rawName)
    ensures SameFile(s, Handle(s, id, body, e).0, PathOf(other, filename))
  {
    var (p, target) := (PathOf(other, filename), Target(id, body));
    if target.Some? {
      if target.value == p {
        PathInjective(id, NameOf(body.rawName), other, filename);
      }
      if Resolve(target.value) == Resolve(p) && PlainName(NameOf(body.rawName)) {
        PlainPlacesDiffer(id, NameOf(body.rawName), other, filename);
      }
    }
    hide Indexed, SameFile, Handle, PathOf, Resolve, Lower, Strip, PlainName;
    FileIsolation(s, id, body, e, p);
  }

  /** A request of one client, plainly named, leaves every plainly named file of every other client as it was. */
  lemma ClientsAreIsolated(s: State, id: Id, body: Body, e: Env, other: Id, filename: bytes)
    requires Indexed(s) && (body.Register? ==> e.freshId !in s.clients) && other != id
    requires PlainBody(body) && PlainName(filename)
    ensures SameFile(s, Handle(s, id, body, e).0, PathOf(other, filename))
  {
    hide Indexed, SameFile, Handle, PathOf, Resolve, PlainName;
    PlainIsolation(s, id, body, e, other, filename);
  }

  // ---- Keys are stored by name and read by id ----

  /** After an exchange the key read for an id is the new one exactly when it named that row, or by coincidence. */
  lemma KeyStoredForId(s: State, id: Id, payload: bytes, e: Env, i: Id)
    requires |payload| == NAME_LENGTH + PUBLIC_KEY_LENGTH && i in s.clients
    ensures KeyOf(HandleKeys(s, id, payload, e).0, i) == Some(e.aesKey)
      <==> s.clients[i].name == Strip(payload[..NAME_LENGTH]) || KeyOf(s, i) == Some(e.aesKey)
  {
  }

  // ---- What each request means, said without the functions that compute it ----

  /** A registration is refused exactly when some row carries the name; otherwise the table gains one row. */
  lemma RegistrationMeans(s: State, payload: bytes, e: Env)
    requires e.freshId !in s.clients
    ensures var (t, r) := HandleRegistration(s, payload, e);
      if exists i :: i in s.clients && s.clients[i].name == Strip(payload) then t == s && r == Some(RegistrationErr)
      else
        && r == Some(RegistrationOk(e.freshId))
        && t.clients == s.clients[e.freshId := ClientRow(Strip(payload), None, None)]
        && t.clientMap == s.clientMap[e.freshId := ClientEntry(e.freshId, Strip(payload), map[])]
        && t.files == s.files && t.disk == s.disk && t.fileMap == s.fileMap
  {
    hide Strip;
  }

  /** Both keys go into every row with the name of the payload; the reply, under the sender's id, wraps the new one. */
  lemma KeysMean(s: State, id: Id, name: bytes, publicKey: bytes, e: Env)
    requires |name| == 255 && |publicKey| == 160
    ensures var (t, r) := HandleKeys(s, id, name + publicKey, e);
      && t.clients.Keys == s.clients.Keys
      && (forall i :: i in s.clients ==>
            t.clients[i] == if s.clients[i].name == Strip(name)
                            then ClientRow(s.clients[i].name, Some(publicKey), Some(e.aesKey)) else s.clients[i])
      && t.files == s.files && t.disk == s.disk && t.fileMap == s.fileMap && t.clientMap == s.clientMap
      && (r.None? <==> e.crypto.wrap(publicKey, e.aesKey).None?)
      && (r.Some? ==> r == Some(SwitchingKeys(id, e.crypto.wrap(publicKey, e.aesKey).value)))
  {
    hide Strip;
    assert (name + publicKey)[..NAME_LENGTH] == name && (name + publicKey)[NAME_LENGTH..] == publicKey;
  }

  /** Whoever is not in the table is refused, whatever it asks, and changes nothing. */
  lemma StrangersAreRefused(s: State, id: Id, body: Body, e: Env)
    requires id !in s.clients && !body.Register?
    ensures Handle(s, id, body, e) == (s, Some(RegistrationErr))
  {
  }

  /** A known client's complaint, its unknown code, or its key request of another length: no change and no answer. */
  lemma SilentRequests(s: State, id: Id, rawName: bytes, code: nat, payload: bytes, e: Env)
    requires id in s.clients
    ensures Handle(s, id, CksumErr(rawName), e) == (s, None)
    ensures Handle(s, id, Unknown(code), e) == (s, None)
    ensures |payload| != 255 + 160 ==> Handle(s, id, SendPublicKey(payload), e) == (s, None)
  {
  }

  /** An upload: nothing without a key, or when the disk or the decryption fails; else the file in all five places. */
  lemma UploadMeans(s: State, id: Id, rawName: bytes, content: bytes, e: Env)
    requires Indexed(s) && id in s.clients
    ensures var (t, r) := Handle(s, id, SendFile(rawName, content), e);
      var name := Lower(Strip(rawName));
      var path := PathOf(id, name);
      var key := s.clients[id].aesKey;
      if key.None? || !e.diskOk || e.crypto.decrypt(key.value, content).None? then t == s && r == None
      else
        var plain := e.crypto.decrypt(key.value, content).value;
        && t.disk == s.disk[Resolve(path) := plain]
        && t.files == s.files[path := FileRow(id, name, false)]
        && t.fileMap == s.fileMap[path := File(id, name, path)]
        && t.clientMap.Keys == s.clientMap.Keys && id in t.clientMap && id in s.clientMap
        && t.clientMap[id].files == s.clientMap[id].files[path := File(id, name, path)]
        && t.clients == s.clients
        && r == Some(CksumReady(id, |plain|, Pad(name), Cksum(plain)))
  {
    hide Indexed, StoreFile, PathOf, Resolve, Lower, Strip, Pad, Cksum;
    if Received(s, id, content, e).Some? {
      StoreFileIsPut(s, id, Lower(Strip(rawName)), Received(s, id, content, e).value);
    }
  }

  /** A confirmation is always acknowledged; it sets the flag of the client's row of that name, if there is one. */
  lemma ConfirmationMeans(s: State, id: Id, rawName: bytes, e: Env)
    requires id in s.clients
    ensures var (t, r) := Handle(s, id, CksumOk(rawName), e);
      && r == Some(MessageReceived(id)) && t == s.(files := t.files) && t.files.Keys == s.files.Keys
      && forall p :: p in s.files ==>
           && t.files[p].clientId == s.files[p].clientId && t.files[p].filename == s.files[p].filename
           && t.files[p].verified ==
                (s.files[p].verified || (s.files[p].clientId == id && s.files[p].filename == Lower(Strip(rawName))))
  {
    hide Lower, Strip;
  }

  /** A last complaint is acknowledged unless the file is there and cannot be removed; then the file is nowhere. */
  lemma GivingUpMeans(s: State, id: Id, rawName: bytes, e: Env)
    requires Indexed(s) && id in s.clients
    ensures var (t, r) := Handle(s, id, CksumErrFinal(rawName), e);
      var path := PathOf(id, Lower(Strip(rawName)));
      if Resolve(path) in s.disk && !e.diskOk then t == s && r == None
      else
        && r == Some(MessageReceived(id)) && t.clients == s.clients
        && t.disk == s.disk - {Resolve(path)} && t.files == s.files - {path} && t.fileMap == s.fileMap - {path}
        && t.clientMap.Keys == s.clientMap.Keys && id in s.clientMap && id in t.clientMap
        && t.clientMap[id].files == s.clientMap[id].files - {path}
  {
    hide Indexed, PathOf, Resolve, Lower, Strip, HandleCksumErrFinal;
    FinalIsDrop(s, id, rawName, e);
  }

  /** Names that differ only in the case of letters, and in the NULs around them, are one file to every handler. */
  lemma CaseIsIgnored(s: State, id: Id, a: bytes, b: bytes, content: bytes, e: Env)
    ensures SameButCase(Strip(a), Strip(b)) <==> PathOf(id, NameOf(a)) == PathOf(id, NameOf(b))
    ensures SameButCase(Strip(a), Strip(b)) ==>
      && Handle(s, id, SendFile(a, content), e) == Handle(s, id, SendFile(b, content), e)
      && Handle(s, id, CksumOk(a), e) == Handle(s, id, CksumOk(b), e)
      && Handle(s, id, CksumErrFinal(a), e) == Handle(s, id, CksumErrFinal(b), e)
  {
    hide PathOf, SameButCase, Strip, Lower, StoreFile, SetVerified, DeleteRows, Forget, Resolve;
    LowerAgrees(Strip(a), Strip(b));
    if PathOf(id, NameOf(a)) == PathOf(id, NameOf(b)) {
      PathInjective(id, NameOf(a), id, NameOf(b));
    }
  }
}
