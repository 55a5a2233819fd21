/**
 Clients, server and channel together. Each step is one whole handler, on either side; steps of
 different clients interleave freely, one live session per client id. File contents may arrive
 changed in any way. `source` remembers, for each stored file, the octets the client had read when
 it made the upload that was stored; no program reads it.
 */
module Protocol {
  import opened Bytes
  import opened Paths
  import opened Text
  import opened PosixCksum
  import opened Stores
  import opened StoreInvariants
  import opened Wire

  const ATTEMPTS: nat := 4

  /** A request on its way, with the octets that were encrypted when it carries a file. */
  datatype Parcel = Parcel(body: Body, original: bytes)

  datatype Peer = Peer(
    name: bytes,
    privateKey: bytes,
    aesKey: Option<bytes>,
    trials: nat,
    cksum: u32,
    filename: bytes,
    outbox: seq<Parcel>,
    inbox: seq<Reply>,
    log: seq<nat>)          // codes sent about files since the client started

  datatype System = System(server: State, peers: map<Id, Peer>, source: map<bytes, bytes>)

  datatype Event =
    | Join(name: bytes, freshId: Id)
    | AskKey(id: Id, privateKey: bytes)
    | Upload(id: Id, filename: bytes, content: bytes)
    | Serve(id: Id, delivered: bytes, aesKey: Key, diskOk: bool)
    | React(id: Id, content: bytes)
    | Leave(id: Id)
    | Restart

  /** RSA wraps and unwraps a sixteen-octet key for a matching pair, and an exported public key fills its field. */
  ghost predicate Sound(c: Crypto) {
    forall p, k :: PairWorks(c, p, k)
  }

  ghost predicate PairWorks(c: Crypto, privateKey: bytes, k: Key) {
    var wrapped := c.wrap(c.publicOf(privateKey), k);
    |c.publicOf(privateKey)| == PUBLIC_KEY_LENGTH && wrapped.Some? && c.unwrap(privateKey, wrapped.value) == Some(k)
  }

  // ---- The client's moves ----

  predicate Quiet(p: Peer) {
    p.outbox == [] && p.inbox == []
  }

  function FileParcel(c: Crypto, p: Peer, content: bytes): Parcel {
    var key := if p.aesKey.Some? then p.aesKey.value else [];
    Parcel(SendFile(Pad(p.filename), c.encrypt(key, content)), content)
  }

  /** A fresh key pair, and its public half on the way to the server. */
  function AskForKey(c: Crypto, p: Peer, privateKey: bytes): Peer {
    p.(privateKey := privateKey, outbox := [Parcel(SendPublicKey(Pad(p.name) + c.publicOf(privateKey)), [])])
  }

  function StartUpload(c: Crypto, p: Peer, filename: bytes, content: bytes): Peer {
    var q := p.(filename := filename, cksum := if |content| < WORD then Cksum(content) else 0);
    q.(outbox := [FileParcel(c, q, content)], log := p.log + [SEND_FILE])
  }

  /** The comparison after a 2103: confirm, try again, or give up. `content` is what a new reading finds. */
  function Compare(c: Crypto, p: Peer, rawName: bytes, cksumFromServer: u32, content: bytes): Peer {
    if p.cksum == cksumFromServer then
      p.(outbox := [Parcel(CksumOk(rawName), [])], log := p.log + [CKSUM_OK])
    else if p.trials < ATTEMPTS then
      p.(trials := p.trials + 1, cksum := Cksum(content),
         outbox := [Parcel(CksumErr(rawName), []), FileParcel(c, p, content)],
         log := p.log + [CKSUM_ERR, SEND_FILE])
    else
      p.(trials := 1, cksum := 0,
         outbox := [Parcel(CksumErrFinal(rawName), [])],
         log := p.log + [CKSUM_ERR_FINAL])
  }

  function ReactTo(c: Crypto, p: Peer, r: Reply, content: bytes): Peer {
    match r
    case CksumReady(_, _, rawName, k) => Compare(c, p, rawName, k, content)
    case SwitchingKeys(_, cipherKey) =>
      var key := c.unwrap(p.privateKey, cipherKey);
      if key.Some? then p.(aesKey := key) else p
    case _ => p
  }

  /** A new process of the same client: only the id and the name survive. */
  function Fresh(p: Peer): Peer {
    Peer(p.name, [], None, 1, 0, [], [], [], [])
  }

  // ---- One step of the whole ----

  function Delivered(body: Body, delivered: bytes): Body {
    if body.SendFile? then body.(content := delivered) else body
  }

  function PathFor(id: Id, rawName: bytes): bytes {
    PathOf(id, NameOf(rawName))
  }

  function Posted(p: Peer, r: Option<Reply>): Peer
    requires p.outbox != []
  {
    p.(outbox := p.outbox[1..], inbox := if r.Some? then p.inbox + [r.value] else p.inbox)
  }

  /** The head of a client's outbox is handled and its answer, if any, put in the inbox. */
  function ServePeer(
    s: State, source: map<bytes, bytes>, p: Peer, original: bytes, body: Body, id: Id, e: Env)
    : (State, map<bytes, bytes>, Peer)
    requires p.outbox != []
  {
    var (t, r) := Handle(s, id, body, e);
    var stored := body.SendFile? && r.Some? && r.value.CksumReady?;
    (t,
     if stored then source[PathFor(id, body.rawName) := original] else source,
     Posted(p, r))
  }

  function ServeHead(c: Crypto, y: System, id: Id, delivered: bytes, aesKey: Key, diskOk: bool): System
    requires id in y.peers && y.peers[id].outbox != []
  {
    var (p, parcel) := (y.peers[id], y.peers[id].outbox[0]);
    var (body, e) := (Delivered(parcel.body, delivered), Env(id, aesKey, diskOk, c));
    var (t, source, q) := ServePeer(y.server, y.source, p, parcel.original, body, id, e);
    System(t, y.peers[id := q], source)
  }

  function Step(c: Crypto, y: System, ev: Event): System {
    match ev
    case Join(name, freshId) =>
      if !Clean(name) || freshId in y.server.clients then y
      else
        var (t, r) := Handle(y.server, NO_ID, Register(Pad(name)), Env(freshId, NO_ID, true, c));
        if r == Some(RegistrationOk(freshId))
        then System(t, y.peers[freshId := Peer(name, [], None, 1, 0, [], [], [], [])], y.source)
        else y.(server := t)
    case AskKey(id, privateKey) =>
      if id !in y.peers || !Quiet(y.peers[id]) then y
      else y.(peers := y.peers[id := AskForKey(c, y.peers[id], privateKey)])
    case Upload(id, filename, content) =>
      if id !in y.peers || !Quiet(y.peers[id]) || y.peers[id].aesKey.None? || |content| >= WORD then y
      else y.(peers := y.peers[id := StartUpload(c, y.peers[id], filename, content)])
    case Serve(id, delivered, aesKey, diskOk) =>
      if id !in y.peers || y.peers[id].outbox == [] then y else ServeHead(c, y, id, delivered, aesKey, diskOk)
    case React(id, content) =>
      if id !in y.peers || y.peers[id].inbox == [] || |content| >= WORD then y
      else
        var p := y.peers[id];
        y.(peers := y.peers[id := ReactTo(c, p.(inbox := p.inbox[1..]), p.inbox[0], content)])
    case Leave(id) =>
      if id !in y.peers then y else y.(peers := y.peers[id := Fresh(y.peers[id])])
    case Restart =>
      var (clients, files) := (y.server.clients, y.server.files);
      System(y.server.(clientMap := IndexClients(clients, files), fileMap := IndexFiles(files)),
             map id | id in y.peers :: Fresh(y.peers[id]),
             y.source)
  }

  const START: System := System(EMPTY, map[], map[])

  /** The system after a run of events. */
  function Reach(c: Crypto, events: seq<Event>): System {
    if events == [] then START else Step(c, Reach(c, events[..|events| - 1]), events[|events| - 1])
  }

  // ---- What holds in every reachable state ----

  /** The 1105s in a log after its last 1106. */
  function RetriesSinceFinal(log: seq<nat>): nat {
    if log == [] || log[|log| - 1] == CKSUM_ERR_FINAL then 0
    else RetriesSinceFinal(log[..|log| - 1]) + if log[|log| - 1] == CKSUM_ERR then 1 else 0
  }

  /** The file on disk has the checksum of what the client had read. */
  ghost predicate Honest(s: State, source: map<bytes, bytes>, p: bytes) {
    Resolve(p) in s.disk && p in source && Cksum(s.disk[Resolve(p)]) == Cksum(source[p])
  }

  ghost predicate PlainField(rawName: bytes) {
    |rawName| == NAME_LENGTH && PlainName(NameOf(rawName))
  }

  // What holds of a client's mail. `plain` says whether all names in the run are plain; what is said
  // about octets on disk depends on it.

  ghost predicate ParcelOk(
    c: Crypto, plain: bool, s: State, source: map<bytes, bytes>, id: Id, p: Peer, m: Parcel)
  {
    match m.body
    case SendFile(rawName, _) => p.cksum == Cksum(m.original) && (plain ==> PlainField(rawName))
    case CksumOk(rawName) =>
      plain ==> PlainField(rawName) && (PathFor(id, rawName) in s.files ==> Honest(s, source, PathFor(id, rawName)))
    case SendPublicKey(payload) => payload == Pad(p.name) + c.publicOf(p.privateKey)
    case CksumErr(_) => true
    case CksumErrFinal(rawName) => plain ==> PlainField(rawName)
    case _ => false
  }

  ghost predicate ReplyOk(
    c: Crypto, plain: bool, s: State, source: map<bytes, bytes>, id: Id, p: Peer, r: Reply)
  {
    match r
    case CksumReady(_, _, rawName, k) =>
      plain ==>
        var path := PathFor(id, rawName);
        && PlainField(rawName) && Resolve(path) in s.disk && path in source
        && k == Cksum(s.disk[Resolve(path)]) && p.cksum == Cksum(source[path])
    case SwitchingKeys(_, cipherKey) =>
      KeyOf(s, id).Some? && c.wrap(c.publicOf(p.privateKey), KeyOf(s, id).value) == Some(cipherKey)
    case _ => true
  }

  ghost predicate KeyPending(p: Peer) {
    (p.outbox != [] && p.outbox[0].body.SendPublicKey?) || (p.inbox != [] && p.inbox[0].SwitchingKeys?)
  }

  /** With a library that does its part, both sides hold one key once no exchange is under way. */
  ghost predicate KeyOk(c: Crypto, s: State, id: Id, p: Peer) {
    Sound(c) && p.aesKey.Some? && !KeyPending(p) ==> KeyOf(s, id) == p.aesKey
  }

  ghost predicate BudgetOk(p: Peer) {
    1 <= p.trials <= ATTEMPTS && RetriesSinceFinal(p.log) == p.trials - 1
  }

  ghost predicate MailOk(c: Crypto, plain: bool, s: State, source: map<bytes, bytes>, id: Id, p: Peer) {
    && |p.outbox| <= 2 && |p.inbox| <= 1
    && (p.inbox != [] ==> p.outbox == [] && ReplyOk(c, plain, s, source, id, p, p.inbox[0]))
    && (forall i :: 0 <= i < |p.outbox| ==> ParcelOk(c, plain, s, source, id, p, p.outbox[i]))
    && (|p.outbox| == 2 ==> p.outbox[0].body.CksumErr? && p.outbox[1].body.SendFile?)
    && (plain ==> PlainField(Pad(p.filename)) || Idle(p))
  }

  /** Nothing about a file is under way. */
  predicate Idle(p: Peer) {
    && (forall i :: 0 <= i < |p.outbox| ==> p.outbox[i].body.SendPublicKey?)
    && (forall i :: 0 <= i < |p.inbox| ==> !p.inbox[i].CksumReady?)
  }

  ghost predicate PeerOk(c: Crypto, plain: bool, s: State, source: map<bytes, bytes>, id: Id, p: Peer) {
    && id in s.clients && s.clients[id].name == p.name && Clean(p.name)
    && BudgetOk(p)
    && KeyOk(c, s, id, p)
    && MailOk(c, plain, s, source, id, p)
  }

  ghost predicate VerifiedOk(s: State, source: map<bytes, bytes>) {
    forall p :: p in s.files && s.files[p].verified ==> Honest(s, source, p)
  }

  ghost predicate Inv(c: Crypto, plain: bool, y: System) {
    && Indexed(y.server)
    && (plain ==> Orderly(y.server) && VerifiedOk(y.server, y.source))
    && forall id :: id in y.peers ==> PeerOk(c, plain, y.server, y.source, id, y.peers[id])
  }

  /** An upload under a plain name. */
  predicate PlainEvent(ev: Event) {
    ev.Upload? ==> PlainName(NameOf(Pad(ev.filename)))
  }

  // ---- Other clients' steps do not matter ----

  /** What the server and `source` hold about one client: its row and, with plain names, its files. */
  ghost predicate SameClient(
    plain: bool, s: State, source: map<bytes, bytes>, t: State, source': map<bytes, bytes>, id: Id)
  {
    && id in s.clients && id in t.clients && s.clients[id] == t.clients[id]
    && (plain ==> forall f {:trigger PathOf(id, f)} :: PlainName(f) ==>
          var p := PathOf(id, f);
          SameFile(s, t, p) && (p in source <==> p in source') && (p in source ==> source[p] == source'[p]))
  }

  lemma PeerFrame(
    c: Crypto, plain: bool, s: State, source: map<bytes, bytes>, t: State, source': map<bytes, bytes>, id: Id, p: Peer)
    requires PeerOk(c, plain, s, source, id, p) && SameClient(plain, s, source, t, source', id)
    ensures PeerOk(c, plain, t, source', id, p)
  {
    hide PathOf, Resolve, Lower, Strip, Pad, PlainName, BudgetOk, Sound, Cksum, Idle;
    forall i | 0 <= i < |p.outbox|
      ensures ParcelOk(c, plain, t, source', id, p, p.outbox[i])
    {
    }
  }

  /** A request of another client keeps a client's row unless it presents that client's name. */
  lemma RowFrame(s: State, id: Id, body: Body, e: Env, other: Id)
    requires other in s.clients
    requires body.SendPublicKey? ==>
      |body.payload| < NAME_LENGTH || Strip(body.payload[..NAME_LENGTH]) != s.clients[other].name
    requires body.Register? ==> e.freshId !in s.clients
    ensures var t := Handle(s, id, body, e).0; other in t.clients && t.clients[other] == s.clients[other]
  {
    hide Strip, Lower, PathOf, Resolve;
  }

  /** A library that meets the demands: it wraps a key as itself. */
  function PlainLibrary(): Crypto {
    Crypto((k, x) => x, (k, x) => Some(x), (p, k) => Some(k), (p, x) => Some(x), p => Zeros(160))
  }

  lemma PlainLibraryIsSound()
    ensures Sound(PlainLibrary())
  {
    forall p, k
      ensures PairWorks(PlainLibrary(), p, k)
    {
    }
  }
}
