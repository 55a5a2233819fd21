/**
 The server's five stores as one value, and what each request does to them: the two tables of the
 database, the disk, and the two in-memory indexes with the per-client file dictionaries.
 */
module Stores {
  import opened Bytes
  import opened Paths
  import opened Text
  import opened PosixCksum

  type Id = b: bytes | |b| == 16 witness NO_ID

  /** Sixteen zero octets: what the server packs when it has no client id to give. */
  const NO_ID: bytes := Zeros(16)

  /** An AES key: sixteen octets. */
  type Key = b: bytes | |b| == 16 witness NO_ID

  const PUBLIC_KEY_LENGTH: nat := 160

  datatype ClientRow = ClientRow(name: bytes, publicKey: Option<bytes>, aesKey: Option<Key>)
  datatype FileRow = FileRow(clientId: Id, filename: bytes, verified: bool)
  datatype File = File(clientId: Id, filename: bytes, pathname: bytes)
  datatype ClientEntry = ClientEntry(clientId: Id, name: bytes, files: map<bytes, File>)

  datatype State = State(
    clients: map<Id, ClientRow>,          // table `clients`, by primary key
    files: map<bytes, FileRow>,           // table `files`, by its primary key `pathname`
    disk: map<Place, bytes>,
    clientMap: map<Id, ClientEntry>,
    fileMap: map<bytes, File>)

  /** A request after framing. The name fields are the 255 octets of the wire. */
  datatype Body =
    | Register(payload: bytes)
    | SendPublicKey(payload: bytes)
    | SendFile(rawName: bytes, content: bytes)
    | CksumOk(rawName: bytes)
    | CksumErr(rawName: bytes)
    | CksumErrFinal(rawName: bytes)
    | Unknown(code: nat)

  datatype Reply =
    | RegistrationOk(id: Id)
    | RegistrationErr
    | SwitchingKeys(id: Id, cipherKey: bytes)
    | CksumReady(id: Id, contentSize: nat, rawName: bytes, cksum: u32)
    | MessageReceived(id: Id)

  /**
   The foreign libraries. `decrypt` is None when AES refuses the key or the padding is wrong,
   `wrap` is None when the public key cannot be imported.
   */
  datatype Crypto = Crypto(
    encrypt: (bytes, bytes) -> bytes,
    decrypt: (bytes, bytes) -> Option<bytes>,
    wrap: (bytes, bytes) -> Option<bytes>,
    unwrap: (bytes, bytes) -> Option<bytes>,
    publicOf: bytes -> bytes)

  /** What one handler run draws from outside: a fresh UUID, a random key, and a disk that may fail. */
  datatype Env = Env(freshId: Id, aesKey: Key, diskOk: bool, crypto: Crypto)

  // ---- The statements the database runs ----

  predicate NameTaken(clients: map<Id, ClientRow>, name: bytes) {
    exists id | id in clients :: clients[id].name == name
  }

  function SetKeys(clients: map<Id, ClientRow>, name: bytes, publicKey: bytes, aesKey: Key): map<Id, ClientRow> {
    map id | id in clients ::
      if clients[id].name == name
      then clients[id].(publicKey := Some(publicKey), aesKey := Some(aesKey))
      else clients[id]
  }

  predicate Matches(row: FileRow, id: Id, filename: bytes) {
    row.clientId == id && row.filename == filename
  }

  predicate FileExists(files: map<bytes, FileRow>, id: Id, filename: bytes) {
    exists p | p in files :: Matches(files[p], id, filename)
  }

  function SetVerified(files: map<bytes, FileRow>, id: Id, filename: bytes, verified: bool): map<bytes, FileRow>
  {
    map p | p in files :: if Matches(files[p], id, filename) then files[p].(verified := verified) else files[p]
  }

  function DeleteRows(files: map<bytes, FileRow>, id: Id, filename: bytes): map<bytes, FileRow> {
    map p | p in files && !Matches(files[p], id, filename) :: files[p]
  }

  /** An insert that meets its primary key raises, and the table stays as it was. */
  function InsertFile(files: map<bytes, FileRow>, path: bytes, row: FileRow): map<bytes, FileRow> {
    if path in files then files else files[path := row]
  }

  /** The row an upload leaves: the guard on (id, filename) chooses between the insert and the update. */
  function StoredRows(files: map<bytes, FileRow>, id: Id, filename: bytes, path: bytes): map<bytes, FileRow> {
    if FileExists(files, id, filename) then SetVerified(files, id, filename, false)
    else InsertFile(files, path, FileRow(id, filename, false))
  }

  function InsertClient(clients: map<Id, ClientRow>, id: Id, name: bytes): map<Id, ClientRow> {
    if id in clients then clients else clients[id := ClientRow(name, None, None)]
  }

  // ---- The handlers ----

  type Outcome = (State, Option<Reply>)

  function HandleRegistration(s: State, payload: bytes, e: Env): Outcome {
    var name := Strip(payload);
    if NameTaken(s.clients, name) then (s, Some(RegistrationErr))
    else
      (s.(clientMap := s.clientMap[e.freshId := ClientEntry(e.freshId, name, map[])],
          clients := InsertClient(s.clients, e.freshId, name)),
       Some(RegistrationOk(e.freshId)))
  }

  function HandleKeys(s: State, id: Id, payload: bytes, e: Env): Outcome {
    if |payload| != NAME_LENGTH + PUBLIC_KEY_LENGTH then (s, None)
    else
      var (name, publicKey) := (Strip(payload[..NAME_LENGTH]), payload[NAME_LENGTH..]);
      var t := s.(clients := SetKeys(s.clients, name, publicKey, e.aesKey));
      match e.crypto.wrap(publicKey, e.aesKey)
      case None => (t, None)
      case Some(c) => (t, Some(SwitchingKeys(id, c)))
  }

  /** The key the server decrypts with: looked up by client id. */
  function KeyOf(s: State, id: Id): Option<Key> {
    if id in s.clients then s.clients[id].aesKey else None
  }

  /** The octets that reach the disk, if the upload gets that far. */
  function Received(s: State, id: Id, content: bytes, e: Env): Option<bytes> {
    match KeyOf(s, id)
    case None => None
    case Some(key) => if e.diskOk then e.crypto.decrypt(key, content) else None
  }

  function HandleFile(s: State, id: Id, rawName: bytes, content: bytes, e: Env): Outcome {
    match Received(s, id, content, e)
    case None => (s, None)
    case Some(plain) => StoreFile(s, id, Lower(Strip(rawName)), plain)
  }

  function StoreFile(s: State, id: Id, filename: bytes, plain: bytes): Outcome {
    var path := PathOf(id, filename);
    var file := File(id, filename, path);
    var t := s.(disk := s.disk[Resolve(path) := plain], fileMap := s.fileMap[path := file]);
    if id !in s.clientMap then (t, None)
    else
      var entry := s.clientMap[id];
      (t.(clientMap := s.clientMap[id := entry.(files := entry.files[path := file])],
          files := StoredRows(s.files, id, filename, path)),
       Some(CksumReady(id, |plain|, Pad(filename), Cksum(plain))))
  }

  function HandleCksumOk(s: State, id: Id, rawName: bytes): Outcome {
    (s.(files := SetVerified(s.files, id, Lower(Strip(rawName)), true)), Some(MessageReceived(id)))
  }

  function Forget(m: map<Id, ClientEntry>, id: Id, path: bytes): map<Id, ClientEntry> {
    if id in m then m[id := m[id].(files := m[id].files - {path})] else m
  }

  function HandleCksumErrFinal(s: State, id: Id, rawName: bytes, e: Env): Outcome {
    var filename := Lower(Strip(rawName));
    var path := PathOf(id, filename);
    if Resolve(path) in s.disk && !e.diskOk then (s, None)
    else
      (s.(disk := s.disk - {Resolve(path)},
          files := DeleteRows(s.files, id, filename),
          clientMap := Forget(s.clientMap, id, path),
          fileMap := s.fileMap - {path}),
       Some(MessageReceived(id)))
  }

  /** One request, handled to its end. */
  function Handle(s: State, id: Id, body: Body, e: Env): Outcome {
    if !body.Register? && id !in s.clients then (s, Some(RegistrationErr))
    else
      match body
      case Register(payload) => HandleRegistration(s, payload, e)
      case SendPublicKey(payload) => HandleKeys(s, id, payload, e)
      case SendFile(rawName, content) => HandleFile(s, id, rawName, content, e)
      case CksumOk(rawName) => HandleCksumOk(s, id, rawName)
      case CksumErr(rawName) => (s, None)
      case CksumErrFinal(rawName) => HandleCksumErrFinal(s, id, rawName, e)
      case Unknown(code) => (s, None)
  }

  // ---- What the indexes should hold ----

  function FileOf(path: bytes, row: FileRow): File {
    File(row.clientId, row.filename, path)
  }

  function FilesOf(files: map<bytes, FileRow>, id: Id): map<bytes, File> {
    map p | p in files && files[p].clientId == id :: FileOf(p, files[p])
  }

  function IndexClients(clients: map<Id, ClientRow>, files: map<bytes, FileRow>): map<Id, ClientEntry> {
    map id | id in clients :: ClientEntry(id, clients[id].name, FilesOf(files, id))
  }

  function IndexFiles(files: map<bytes, FileRow>): map<bytes, File> {
    map p | p in files :: FileOf(p, files[p])
  }

  ghost predicate NamesUnique(clients: map<Id, ClientRow>) {
    forall i, j :: i in clients && j in clients && clients[i].name == clients[j].name ==> i == j
  }

  ghost predicate WellPlaced(clients: map<Id, ClientRow>, files: map<bytes, FileRow>) {
    forall p :: p in files ==>
      files[p].clientId in clients && p == PathOf(files[p].clientId, files[p].filename)
  }

  /** Tables and indexes tell one story. */
  ghost predicate Indexed(s: State) {
    && s.clientMap == IndexClients(s.clients, s.files)
    && s.fileMap == IndexFiles(s.files)
    && WellPlaced(s.clients, s.files)
    && NamesUnique(s.clients)
  }

  /** The disk holds one file for each row, and nothing else. */
  ghost predicate OnDisk(files: map<bytes, FileRow>, disk: map<Place, bytes>) {
    && (forall p :: p in files ==> Resolve(p) in disk)
    && (forall d :: d in disk ==> exists p :: p in files && Resolve(p) == d)
    && (forall p, q :: p in files && q in files && p != q ==> Resolve(p) != Resolve(q))
  }

  /** All five stores tell one story. */
  ghost predicate Agreement(s: State) {
    Indexed(s) && OnDisk(s.files, s.disk)
  }
}
