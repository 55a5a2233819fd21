/** Every run of the protocol keeps its invariant; what that means for files, keys and retries. */
module ProtocolRuns {
  import opened Bytes
  import opened Paths
  import opened Text
  import opened PosixCksum
  import opened Stores
  import opened StoreInvariants
  import opened Protocol
  import opened Wire

  // ---- The server answers a client: that client and its files ----

  /** What serving the head of a mailbox must re-establish. */
  ghost predicate ServedOk(
    c: Crypto, plain: bool, id: Id, t: State, source: map<bytes, bytes>, q: Peer)
  {
    PeerOk(c, plain, t, source, id, q) && (plain ==> VerifiedOk(t, source))
  }

  /** What is known when the head is about to be served. */
  ghost predicate ToServe(c: Crypto, plain: bool, y: System, id: Id, p: Peer) {
    Inv(c, plain, y) && id in y.peers && y.peers[id] == p && p.outbox != []
  }

  /** An answer that is not a key: it only has to be right about the file. */
  lemma AnswerKeepsPeer(
    c: Crypto, plain: bool, s: State, source: map<bytes, bytes>, t: State, source': map<bytes, bytes>,
    id: Id, p: Peer, r: Option<Reply>)
    requires PeerOk(c, plain, s, source, id, p) && |p.outbox| == 1 && !p.outbox[0].body.SendPublicKey?
    requires t.clients == s.clients
    requires r.Some? ==> !r.value.SwitchingKeys? && ReplyOk(c, plain, t, source', id, p, r.value)
    ensures PeerOk(c, plain, t, source', id, Posted(p, r))
  {
    hide Sound, PathFor, PlainField, Resolve, Cksum, Clean, Pad;
  }

  lemma ServeFileStored(
    c: Crypto, plain: bool, y: System, id: Id, p: Peer, rawName: bytes, octets: bytes, original: bytes)
    requires ToServe(c, plain, y, id, p) && |p.outbox| == 1 && p.outbox[0].body.SendFile?
    requires p.cksum == Cksum(original) && (plain ==> PlainField(rawName))
    ensures var (t, r) := StoreFile(y.server, id, NameOf(rawName), octets);
      r.Some? && r.value.CksumReady?
      && ServedOk(c, plain, id, t, y.source[PathFor(id, rawName) := original], Posted(p, r))
  {
    var (s, filename, source) := (y.server, NameOf(rawName), y.source[PathFor(id, rawName) := original]);
    StoreFileIsPut(s, id, filename, octets);
    var (t, r) := StoreFile(s, id, filename, octets);
    assert t.clients == s.clients;
    if plain {
      StoredReply(c, s, y.source, id, p, rawName, octets, original);
      PlainIsAlone(s.clients, s.files, id, filename);
      PutVerified(s, y.source, id, filename, octets, original);
    }
    hide VerifiedOk, Put, StoreFile, PathOf, Resolve, Strip, Lower, Pad, Cksum, PeerOk, Indexed, Orderly;
    AnswerKeepsPeer(c, plain, s, y.source, t, source, id, p, r);
  }

  /** The answer to an upload is right about the file now stored, and names it in a way that leads back to it. */
  lemma StoredReply(
    c: Crypto, s: State, source: map<bytes, bytes>, id: Id, p: Peer, rawName: bytes, octets: bytes, original: bytes)
    requires id in s.clientMap && PlainField(rawName) && p.cksum == Cksum(original)
    ensures var (filename, path) := (NameOf(rawName), PathFor(id, rawName));
      var t := Put(s, id, filename, octets);
      ReplyOk(c, true, t, source[path := original], id, p, CksumReady(id, |octets|, Pad(filename), Cksum(octets)))
  {
    hide PathOf, Resolve, PlainName, Strip, Lower, Pad, Cksum;
    LowerClean(Strip(rawName));
    StripPad(NameOf(rawName));
    LowerTwice(Strip(rawName));
    hide Cksum;
  }

  lemma PutVerified(s: State, source: map<bytes, bytes>, id: Id, filename: bytes, octets: bytes, original: bytes)
    requires VerifiedOk(s, source) && id in s.clientMap && Alone(s.files, PathOf(id, filename))
    ensures VerifiedOk(Put(s, id, filename, octets), source[PathOf(id, filename) := original])
  {
    hide PathOf, Resolve, Cksum;
  }

  /**
   Why the names must be plain: another verified row stays honest after an upload exactly when the
   upload's path leads elsewhere, or the octets that replaced its file happen to have its checksum.
   */
  lemma HonestUnlessShared(
    s: State, source: map<bytes, bytes>, id: Id, filename: bytes, octets: bytes, original: bytes, q: bytes)
    requires id in s.clientMap && q != PathOf(id, filename) && Honest(s, source, q)
    ensures Honest(Put(s, id, filename, octets), source[PathOf(id, filename) := original], q)
      <==> Resolve(q) != Resolve(PathOf(id, filename)) || Cksum(octets) == Cksum(source[q])
  {
    hide PathOf, Resolve, Cksum;
  }

  lemma ServeCksumOk(c: Crypto, plain: bool, y: System, id: Id, p: Peer, rawName: bytes)
    requires ToServe(c, plain, y, id, p) && |p.outbox| == 1 && p.outbox[0].body == CksumOk(rawName)
    ensures var (t, r) := HandleCksumOk(y.server, id, rawName);
      r.Some? && ServedOk(c, plain, id, t, y.source, Posted(p, r))
  {
    hide ToServe, SetVerified, Mark, PathOf, Resolve, Strip, Lower, PlainName, PeerOk, VerifiedOk, Honest, Indexed;
    var (s, filename) := (y.server, NameOf(rawName));
    OutboxMeans(c, plain, y, id, p);
    VerifyIsMark(s, id, filename);
    var (t, r) := HandleCksumOk(s, id, rawName);
    assert t == Mark(s, id, filename);
    if plain {
      MarkVerified(s, y.source, id, filename);
    }
    AnswerKeepsPeer(c, plain, s, y.source, t, y.source, id, p, r);
  }

  /** What the invariant says about a client whose head is served, in one place. */
  lemma OutboxMeans(c: Crypto, plain: bool, y: System, id: Id, p: Peer)
    requires ToServe(c, plain, y, id, p)
    ensures Indexed(y.server) && id in y.server.clients && PeerOk(c, plain, y.server, y.source, id, p)
    ensures plain ==> PlainRows(y.server.files) && WellPlaced(y.server.clients, y.server.files)
    ensures plain ==> VerifiedOk(y.server, y.source)
    ensures ParcelOk(c, plain, y.server, y.source, id, p, p.outbox[0])
  {
    hide IndexClients, IndexFiles, PathOf, OnDisk, PlainName, ParcelOk, BudgetOk, KeyOk, Honest, ReplyOk;
  }

  lemma MarkVerified(s: State, source: map<bytes, bytes>, id: Id, filename: bytes)
    requires VerifiedOk(s, source)
    requires PathOf(id, filename) in s.files ==> Honest(s, source, PathOf(id, filename))
    ensures VerifiedOk(Mark(s, id, filename), source)
  {
    hide PathOf, Resolve, Cksum;
  }

  lemma ServeFinal(c: Crypto, plain: bool, y: System, id: Id, p: Peer, rawName: bytes, e: Env)
    requires ToServe(c, plain, y, id, p) && |p.outbox| == 1 && p.outbox[0].body == CksumErrFinal(rawName)
    ensures var (t, r) := HandleCksumErrFinal(y.server, id, rawName, e);
      (r.Some? ==> r.value.MessageReceived?) && ServedOk(c, plain, id, t, y.source, Posted(p, r))
  {
    hide ToServe, HandleCksumErrFinal, Drop, PathOf, Resolve, Strip, Lower, PlainName, PeerOk, VerifiedOk, Honest,
      Indexed, Alone, WellPlaced, PlainRows;
    var (s, filename) := (y.server, NameOf(rawName));
    OutboxMeans(c, plain, y, id, p);
    FinalIsDrop(s, id, rawName, e);
    DropKeepsClients(s, id, filename);
    if plain {
      PlainIsAlone(s.clients, s.files, id, filename);
      DropVerified(s, y.source, id, filename);
    }
    var (t, r) := HandleCksumErrFinal(s, id, rawName, e);
    AnswerKeepsPeer(c, plain, s, y.source, t, y.source, id, p, r);
  }

  lemma DropKeepsClients(s: State, id: Id, filename: bytes)
    requires id in s.clientMap
    ensures Drop(s, id, filename).clients == s.clients
  {
  }

  lemma DropVerified(s: State, source: map<bytes, bytes>, id: Id, filename: bytes)
    requires VerifiedOk(s, source) && id in s.clientMap && Alone(s.files, PathOf(id, filename))
    ensures VerifiedOk(Drop(s, id, filename), source)
  {
    hide PathOf, Resolve, Cksum, Forget;
  }

  lemma ServeKeys(c: Crypto, plain: bool, y: System, id: Id, p: Peer, payload: bytes, e: Env)
    requires ToServe(c, plain, y, id, p) && e.crypto == c
    requires |p.outbox| == 1 && p.outbox[0].body == SendPublicKey(payload)
    ensures var (t, r) := HandleKeys(y.server, id, payload, e);
      (r.Some? ==> r.value.SwitchingKeys?) && ServedOk(c, plain, id, t, y.source, Posted(p, r))
  {
    assert ParcelOk(c, plain, y.server, y.source, id, p, p.outbox[0]);
    var (k, pub) := (e.aesKey, c.publicOf(p.privateKey));
    assert Sound(c) ==> PairWorks(c, p.privateKey, k);
    assert payload[..NAME_LENGTH] == Pad(p.name) && payload[NAME_LENGTH..] == pub;
    StripPad(p.name);
    hide Sound, PathOf, Resolve, PlainName, Strip, Pad, Lower, Cksum, BudgetOk, Orderly, Indexed;
    var (t, r) := HandleKeys(y.server, id, payload, e);
    if |pub| == PUBLIC_KEY_LENGTH {
      assert t == y.server.(clients := SetKeys(y.server.clients, p.name, pub, k));
      assert KeyOf(t, id) == Some(k);
      assert r == if c.wrap(pub, k).Some? then Some(SwitchingKeys(id, c.wrap(pub, k).value)) else None;
    }
    assert plain ==> VerifiedOk(t, y.source);
    hide VerifiedOk;
    KeysServed(c, plain, t, y.source, id, p, r);
  }

  /** After a key request the mailbox holds the new key, wrapped, or nothing. */
  lemma KeysServed(
    c: Crypto, plain: bool, t: State, source: map<bytes, bytes>, id: Id, p: Peer, r: Option<Reply>)
    requires |p.outbox| == 1 && p.outbox[0].body.SendPublicKey? && p.inbox == []
    requires id in t.clients && t.clients[id].name == p.name && Clean(p.name) && BudgetOk(p)
    requires plain ==> PlainField(Pad(p.filename)) || Idle(p)
    requires r.Some? ==> r.value.SwitchingKeys? && ReplyOk(c, plain, t, source, id, p, r.value)
    requires Sound(c) ==> r.Some?
    ensures PeerOk(c, plain, t, source, id, Posted(p, r))
  {
    hide Sound, PlainField, Pad, Clean;
  }

  /** Serving the head of a client's mailbox keeps that client's facts and the verified files honest. */
  lemma ServeSelf(c: Crypto, plain: bool, y: System, id: Id, p: Peer, delivered: bytes, body: Body, e: Env)
    requires e.crypto == c && ToServe(c, plain, y, id, p)
    requires body == Delivered(p.outbox[0].body, delivered)
    ensures var (t, source, q) := ServePeer(y.server, y.source, p, p.outbox[0].original, body, id, e);
      ServedOk(c, plain, id, t, source, q)
  {
    var (s, parcel) := (y.server, p.outbox[0]);
    ServeNothing(c, plain, y, id, p);
    assert ParcelOk(c, plain, s, y.source, id, p, parcel) && id in s.clients
        && (parcel.body.SendFile? ==> |p.outbox| == 1);
    hide ServedOk, Posted, ToServe, StoreFile, HandleKeys, HandleCksumErrFinal, HandleCksumOk, Received, PathFor,
      PlainField, Lower, Strip, Cksum, Honest;
    match body
    case SendFile(rawName, content) =>
      var octets := Received(s, id, content, e);
      if octets.Some? {
        ServeFileStored(c, plain, y, id, p, rawName, octets.value, parcel.original);
      }
    case CksumOk(rawName) => ServeCksumOk(c, plain, y, id, p, rawName);
    case CksumErr(rawName) =>
    case CksumErrFinal(rawName) => ServeFinal(c, plain, y, id, p, rawName, e);
    case SendPublicKey(payload) => ServeKeys(c, plain, y, id, p, payload, e);
    case _ =>
  }

  lemma ServeNothing(c: Crypto, plain: bool, y: System, id: Id, p: Peer)
    requires ToServe(c, plain, y, id, p)
    ensures p.inbox == [] && (!p.outbox[0].body.CksumErr? ==> |p.outbox| == 1)
    ensures p.outbox[0].body.SendFile? || p.outbox[0].body.CksumErr? ==>
      ServedOk(c, plain, id, y.server, y.source, Posted(p, None))
  {
    hide PathFor, Resolve, PlainField, Pad, Cksum, Sound, Indexed, Orderly, VerifiedOk;
    var q := p.(outbox := p.outbox[1..]);
    forall i | 0 <= i < |q.outbox|
      ensures ParcelOk(c, plain, y.server, y.source, id, q, q.outbox[i])
    {
      assert ParcelOk(c, plain, y.server, y.source, id, p, p.outbox[i + 1]);
    }
  }

  // ---- The other clients meanwhile ----

  /** The name a client's key request carries is its own. */
  ghost predicate OwnName(s: State, id: Id, body: Body) {
    body.SendPublicKey? ==>
      |body.payload| >= NAME_LENGTH && id in s.clients && Strip(body.payload[..NAME_LENGTH]) == s.clients[id].name
  }

  ghost predicate SameExcept(source: map<bytes, bytes>, source': map<bytes, bytes>, target: Option<bytes>) {
    forall p :: target != Some(p) ==> (p in source <==> p in source') && (p in source ==> source[p] == source'[p])
  }

  lemma OthersUnmoved(
    plain: bool, s: State, id: Id, body: Body, e: Env,
    source: map<bytes, bytes>, source': map<bytes, bytes>, other: Id)
    requires Indexed(s) && other in s.clients && (body.Register? || (other != id && OwnName(s, id, body)))
    requires (body.Register? ==> e.freshId !in s.clients) && (plain ==> PlainBody(body))
    requires SameExcept(source, source', Target(id, body))
    ensures SameClient(plain, s, source, Handle(s, id, body, e).0, source', other)
  {
    var t := Handle(s, id, body, e).0;
    OtherRowUnmoved(s, id, body, e, other);
    hide Handle, Indexed, PlainBody, PlainName;
    if plain {
      forall f {:trigger PathOf(other, f)} | PlainName(f)
        ensures Target(id, body) != Some(PathOf(other, f))
        ensures SameFile(s, t, PathOf(other, f))
      {
        if Target(id, body) == Some(PathOf(other, f)) {
          PathInjective(id, NameOf(body.rawName), other, f);
        }
        PlainIsolation(s, id, body, e, other, f);
      }
    }
    hide Target, SameFile, PathOf;
  }

  lemma OtherRowUnmoved(s: State, id: Id, body: Body, e: Env, other: Id)
    requires Indexed(s) && other in s.clients && (body.Register? || (other != id && OwnName(s, id, body)))
    requires body.Register? ==> e.freshId !in s.clients
    ensures var t := Handle(s, id, body, e).0; other in t.clients && t.clients[other] == s.clients[other]
  {
    hide Handle, WellPlaced, IndexClients, IndexFiles, Strip;
    RowFrame(s, id, body, e, other);
  }

  lemma ServeOthers(
    c: Crypto, plain: bool, y: System, id: Id, delivered: bytes, aesKey: Key, diskOk: bool, other: Id)
    requires Inv(c, plain, y) && id in y.peers && y.peers[id].outbox != [] && other in y.peers && other != id
    ensures var z := ServeHead(c, y, id, delivered, aesKey, diskOk);
      PeerOk(c, plain, z.server, z.source, other, z.peers[other])
  {
    hide ServeHead, Handle, PeerOk, Inv, SameClient, SameExcept, Delivered, Indexed, OwnName, PlainBody;
    var (s, q) := (y.server, y.peers[other]);
    var (body, e) := (Delivered(y.peers[id].outbox[0].body, delivered), Env(id, aesKey, diskOk, c));
    var z := ServeHead(c, y, id, delivered, aesKey, diskOk);
    InvMeans(c, plain, y, other);
    HeadIsItsOwn(c, plain, y, id, delivered);
    HeadChangesLittle(c, y, id, delivered, aesKey, diskOk);
    OthersUnmoved(plain, s, id, body, e, y.source, z.source, other);
    PeerFrame(c, plain, s, y.source, z.server, z.source, other, q);
  }

  lemma InvMeans(c: Crypto, plain: bool, y: System, id: Id)
    requires Inv(c, plain, y) && id in y.peers
    ensures Indexed(y.server) && id in y.server.clients && PeerOk(c, plain, y.server, y.source, id, y.peers[id])
  {
    hide Indexed, BudgetOk, KeyOk, MailOk, Clean;
  }

  /** Serving a head changes the server as its request does, that mailbox, and the request's path in `source`. */
  lemma HeadChangesLittle(c: Crypto, y: System, id: Id, delivered: bytes, aesKey: Key, diskOk: bool)
    requires id in y.peers && y.peers[id].outbox != []
    ensures var z := ServeHead(c, y, id, delivered, aesKey, diskOk);
      var body := Delivered(y.peers[id].outbox[0].body, delivered);
      && z.server == Handle(y.server, id, body, Env(id, aesKey, diskOk, c)).0
      && SameExcept(y.source, z.source, Target(id, body))
      && z.peers.Keys == y.peers.Keys
      && forall other :: other in y.peers && other != id ==> z.peers[other] == y.peers[other]
  {
    hide Handle, Posted, Delivered, PathOf, NameOf;
  }

  lemma HeadIsItsOwn(c: Crypto, plain: bool, y: System, id: Id, delivered: bytes)
    requires Inv(c, plain, y) && id in y.peers && y.peers[id].outbox != []
    ensures var body := Delivered(y.peers[id].outbox[0].body, delivered);
      !body.Register? && OwnName(y.server, id, body) && (plain ==> PlainBody(body))
  {
    hide PathOf, Resolve, PlainName, Strip, Lower, Pad;
    var p := y.peers[id];
    assert ParcelOk(c, plain, y.server, y.source, id, p, p.outbox[0]);
    if p.outbox[0].body.SendPublicKey? {
      var payload := p.outbox[0].body.payload;
      assert payload[..NAME_LENGTH] == Pad(p.name);
      StripPad(p.name);
    }
    hide Pad;
  }

  lemma ServeKeepsInv(
    c: Crypto, plain: bool, y: System, id: Id, delivered: bytes, aesKey: Key, diskOk: bool)
    requires Inv(c, plain, y) && id in y.peers && y.peers[id].outbox != []
    ensures Inv(c, plain, ServeHead(c, y, id, delivered, aesKey, diskOk))
  {
    hide Handle, Delivered, PeerOk, VerifiedOk, Indexed, Orderly;
    var z := ServeHead(c, y, id, delivered, aesKey, diskOk);
    var (p, e) := (y.peers[id], Env(id, aesKey, diskOk, c));
    var body := Delivered(p.outbox[0].body, delivered);
    HeadIsItsOwn(c, plain, y, id, delivered);
    HandleKeepsIndexed(y.server, id, body, e);
    if plain {
      HandleKeepsOrder(y.server, id, body, e);
    }
    ServeSelf(c, plain, y, id, p, delivered, body, e);
    forall other | other in y.peers && other != id
      ensures PeerOk(c, plain, z.server, z.source, other, z.peers[other])
    {
      ServeOthers(c, plain, y, id, delivered, aesKey, diskOk, other);
    }
    hide Orderly;
  }

  // ---- The client's moves ----

  lemma RetriesAppend(log: seq<nat>, code: nat)
    ensures RetriesSinceFinal(log + [code]) ==
      if code == CKSUM_ERR_FINAL then 0 else RetriesSinceFinal(log) + if code == CKSUM_ERR then 1 else 0
  {
    assert (log + [code])[..|log|] == log;
  }

  lemma ConfirmKeepsPeer(
    c: Crypto, plain: bool, s: State, source: map<bytes, bytes>, id: Id, p: Peer,
    rawName: bytes, k: u32, content: bytes)
    requires PeerOk(c, plain, s, source, id, p) && Quiet(p) && p.cksum == k
    requires plain ==> PlainField(Pad(p.filename)) && PlainField(rawName)
    requires plain ==> (PathFor(id, rawName) in s.files ==> Honest(s, source, PathFor(id, rawName)))
    ensures PeerOk(c, plain, s, source, id, Compare(c, p, rawName, k, content))
  {
    RetriesAppend(p.log, CKSUM_OK);
    hide RetriesSinceFinal, PathFor, PlainField, Pad, Sound, Honest, FileParcel;
  }

  lemma RetryKeepsPeer(
    c: Crypto, plain: bool, s: State, source: map<bytes, bytes>, id: Id, p: Peer,
    rawName: bytes, k: u32, content: bytes)
    requires PeerOk(c, plain, s, source, id, p) && Quiet(p) && p.cksum != k && p.trials < ATTEMPTS
    requires plain ==> PlainField(Pad(p.filename))
    ensures PeerOk(c, plain, s, source, id, Compare(c, p, rawName, k, content))
  {
    hide RetriesSinceFinal, PlainField, Pad, Sound, Cksum;
    RetriesAppend(p.log, CKSUM_ERR);
    RetriesAppend(p.log + [CKSUM_ERR], SEND_FILE);
    assert p.log + [CKSUM_ERR, SEND_FILE] == p.log + [CKSUM_ERR] + [SEND_FILE];
    hide Cksum;
  }

  lemma GiveUpKeepsPeer(
    c: Crypto, plain: bool, s: State, source: map<bytes, bytes>, id: Id, p: Peer,
    rawName: bytes, k: u32, content: bytes)
    requires PeerOk(c, plain, s, source, id, p) && Quiet(p) && p.cksum != k && p.trials >= ATTEMPTS
    requires plain ==> PlainField(Pad(p.filename)) && PlainField(rawName)
    ensures PeerOk(c, plain, s, source, id, Compare(c, p, rawName, k, content))
  {
    RetriesAppend(p.log, CKSUM_ERR_FINAL);
    hide RetriesSinceFinal, PlainField, Pad, Sound, FileParcel;
  }

  /** The client takes the answer out of its mailbox. */
  lemma TakenKeepsPeer(c: Crypto, plain: bool, s: State, source: map<bytes, bytes>, id: Id, p: Peer)
    requires PeerOk(c, plain, s, source, id, p) && p.inbox != []
    ensures p.inbox[1..] == [] && p.outbox == [] && ReplyOk(c, plain, s, source, id, p, p.inbox[0])
    ensures !p.inbox[0].SwitchingKeys? ==> PeerOk(c, plain, s, source, id, p.(inbox := []))
    ensures plain && p.inbox[0].CksumReady? ==> PlainField(Pad(p.filename))
  {
    hide ReplyOk, PlainField, Pad, Sound;
    assert p.inbox[0].CksumReady? ==> !Idle(p);
  }

  lemma ReactKeepsPeer(
    c: Crypto, plain: bool, s: State, source: map<bytes, bytes>, id: Id, p: Peer, content: bytes)
    requires PeerOk(c, plain, s, source, id, p) && p.inbox != [] && |content| < WORD
    ensures PeerOk(c, plain, s, source, id, ReactTo(c, p.(inbox := p.inbox[1..]), p.inbox[0], content))
  {
    var (q, r) := (p.(inbox := []), p.inbox[0]);
    TakenKeepsPeer(c, plain, s, source, id, p);
    match r
    case CksumReady(_, _, rawName, k) =>
      hide PeerOk, PathFor, PlainField, Pad, Cksum, Compare;
      if q.cksum == k {
        ConfirmKeepsPeer(c, plain, s, source, id, q, rawName, k, content);
      } else if q.trials < ATTEMPTS {
        RetryKeepsPeer(c, plain, s, source, id, q, rawName, k, content);
      } else {
        GiveUpKeepsPeer(c, plain, s, source, id, q, rawName, k, content);
      }
    case SwitchingKeys(_, cipherKey) =>
      assert Sound(c) ==> PairWorks(c, p.privateKey, KeyOf(s, id).value);
      hide Sound, PlainField, Pad;
    case _ =>
  }

  lemma OwnMoveKeepsInv(c: Crypto, plain: bool, y: System, id: Id, q: Peer)
    requires Inv(c, plain, y) && id in y.peers && PeerOk(c, plain, y.server, y.source, id, q)
    ensures Inv(c, plain, y.(peers := y.peers[id := q]))
  {
    hide PeerOk, VerifiedOk, Indexed, Orderly;
  }

  lemma StartUploadKeepsPeer(
    c: Crypto, plain: bool, s: State, source: map<bytes, bytes>, id: Id, p: Peer, filename: bytes, content: bytes)
    requires PeerOk(c, plain, s, source, id, p) && Quiet(p) && |content| < WORD
    requires plain ==> PlainField(Pad(filename))
    ensures PeerOk(c, plain, s, source, id, StartUpload(c, p, filename, content))
  {
    RetriesAppend(p.log, SEND_FILE);
    hide RetriesSinceFinal, PlainField, Sound, Pad, Cksum;
  }

  lemma AskKeyKeepsPeer(
    c: Crypto, plain: bool, s: State, source: map<bytes, bytes>, id: Id, p: Peer, privateKey: bytes)
    requires PeerOk(c, plain, s, source, id, p) && Quiet(p)
    ensures PeerOk(c, plain, s, source, id, AskForKey(c, p, privateKey))
  {
    hide Pad, Sound, PlainField;
  }

  lemma FreshIsOk(c: Crypto, plain: bool, s: State, source: map<bytes, bytes>, id: Id, p: Peer)
    requires PeerOk(c, plain, s, source, id, p)
    ensures PeerOk(c, plain, s, source, id, Fresh(p))
  {
    hide Sound, Pad;
  }

  lemma JoinKeepsInv(c: Crypto, plain: bool, y: System, name: bytes, freshId: Id)
    requires Inv(c, plain, y) && Clean(name) && freshId !in y.server.clients
    ensures Inv(c, plain, Step(c, y, Join(name, freshId)))
  {
    hide Step, Handle, Indexed, Orderly, VerifiedOk, PeerOk, Pad, Clean;
    var (s, body, e) := (y.server, Register(Pad(name)), Env(freshId, NO_ID, true, c));
    var z := Step(c, y, Join(name, freshId));
    JoinOutcome(c, y, name, freshId);
    HandleKeepsIndexed(s, NO_ID, body, e);
    if plain {
      HandleKeepsOrder(s, NO_ID, body, e);
      SameFilesVerified(s, y.source, z.server);
    }
    forall id | id in y.peers
      ensures PeerOk(c, plain, z.server, y.source, id, y.peers[id])
    {
      JoinKeepsOther(c, plain, y, name, freshId, id);
    }
    NewPeerIsOk(c, plain, z.server, y.source, freshId, name);
  }

  lemma SameFilesVerified(s: State, source: map<bytes, bytes>, t: State)
    requires VerifiedOk(s, source) && t.files == s.files && t.disk == s.disk
    ensures VerifiedOk(t, source)
  {
    hide Resolve, Cksum;
  }

  /** A registration changes no file; it adds the client exactly when no row carries its name. */
  lemma JoinOutcome(c: Crypto, y: System, name: bytes, freshId: Id)
    requires Clean(name) && freshId !in y.server.clients
    ensures var (s, z) := (y.server, Step(c, y, Join(name, freshId)));
      && z.server == Handle(s, NO_ID, Register(Pad(name)), Env(freshId, NO_ID, true, c)).0
      && z.source == y.source && z.server.files == s.files && z.server.disk == s.disk
      && if exists i :: i in s.clients && s.clients[i].name == name then z.peers == y.peers && z.server == s
         else
           && z.peers == y.peers[freshId := Peer(name, [], None, 1, 0, [], [], [], [])]
           && z.server.clients == s.clients[freshId := ClientRow(name, None, None)]
  {
    hide Strip, Pad, HandleRegistration;
    StripPad(name);
    RegistrationMeans(y.server, Pad(name), Env(freshId, NO_ID, true, c));
  }

  lemma JoinKeepsOther(c: Crypto, plain: bool, y: System, name: bytes, freshId: Id, id: Id)
    requires Inv(c, plain, y) && freshId !in y.server.clients && id in y.peers
    ensures var t := Handle(y.server, NO_ID, Register(Pad(name)), Env(freshId, NO_ID, true, c)).0;
      PeerOk(c, plain, t, y.source, id, y.peers[id])
  {
    var (s, body, e) := (y.server, Register(Pad(name)), Env(freshId, NO_ID, true, c));
    assert id in s.clients;
    hide Handle, Pad, PeerOk, SameClient, Indexed;
    OthersUnmoved(plain, s, NO_ID, body, e, y.source, y.source, id);
    PeerFrame(c, plain, s, y.source, Handle(s, NO_ID, body, e).0, y.source, id, y.peers[id]);
  }

  lemma NewPeerIsOk(c: Crypto, plain: bool, s: State, source: map<bytes, bytes>, id: Id, name: bytes)
    requires Clean(name)
    ensures id in s.clients && s.clients[id].name == name ==>
      PeerOk(c, plain, s, source, id, Peer(name, [], None, 1, 0, [], [], [], []))
  {
    hide Sound, Pad;
  }

  lemma RestartKeepsInv(c: Crypto, plain: bool, y: System)
    requires Inv(c, plain, y)
    ensures Inv(c, plain, Step(c, y, Restart)) && Step(c, y, Restart).server == y.server
  {
    var z := Step(c, y, Restart);
    forall id | id in z.peers
      ensures PeerOk(c, plain, z.server, z.source, id, z.peers[id])
    {
      FreshIsOk(c, plain, y.server, y.source, id, y.peers[id]);
    }
    hide PeerOk, VerifiedOk, OnDisk, PlainRows;
  }

  lemma StepKeepsInv(c: Crypto, plain: bool, y: System, ev: Event)
    requires Inv(c, plain, y) && (plain ==> PlainEvent(ev))
    ensures Inv(c, plain, Step(c, y, ev))
  {
    hide Indexed, Orderly, VerifiedOk, PeerOk, PlainName, Pad, StartUpload, ReactTo, AskForKey, ServeHead, Fresh;
    match ev
    case Join(name, freshId) =>
      if Clean(name) && freshId !in y.server.clients {
        JoinKeepsInv(c, plain, y, name, freshId);
      }
    case Restart => RestartKeepsInv(c, plain, y);
    case Serve(id, delivered, aesKey, diskOk) =>
      if id in y.peers && y.peers[id].outbox != [] {
        ServeKeepsInv(c, plain, y, id, delivered, aesKey, diskOk);
      }
    case AskKey(id, privateKey) =>
      if id in y.peers && Quiet(y.peers[id]) {
        AskKeyKeepsPeer(c, plain, y.server, y.source, id, y.peers[id], privateKey);
        OwnMoveKeepsInv(c, plain, y, id, AskForKey(c, y.peers[id], privateKey));
      }
    case Upload(id, filename, content) =>
      if Step(c, y, ev) != y {
        StartUploadKeepsPeer(c, plain, y.server, y.source, id, y.peers[id], filename, content);
        OwnMoveKeepsInv(c, plain, y, id, StartUpload(c, y.peers[id], filename, content));
      }
    case React(id, content) =>
      if Step(c, y, ev) != y {
        ReactKeepsPeer(c, plain, y.server, y.source, id, y.peers[id], content);
        var p := y.peers[id];
        OwnMoveKeepsInv(c, plain, y, id, ReactTo(c, p.(inbox := p.inbox[1..]), p.inbox[0], content));
      }
    case Leave(id) =>
      if id in y.peers {
        FreshIsOk(c, plain, y.server, y.source, id, y.peers[id]);
        OwnMoveKeepsInv(c, plain, y, id, Fresh(y.peers[id]));
      }
  }

  // ---- The theorems ----

  /** Every upload in the run is under a plain name. */
  predicate PlainRun(events: seq<Event>) {
    forall i :: 0 <= i < |events| ==> PlainEvent(events[i])
  }

  lemma {:induction false} EveryRunKeepsInv(c: Crypto, plain: bool, events: seq<Event>)
    requires plain ==> PlainRun(events)
    ensures Inv(c, plain, Reach(c, events))
  {
    hide Step, PlainEvent;
    if events == [] {
    } else {
      var n := |events| - 1;
      EveryRunKeepsInv(c, plain, events[..n]);
      hide Inv;
      StepKeepsInv(c, plain, Reach(c, events[..n]), events[n]);
    }
  }

  /** After any plainly named run, a verified row's file has, on disk, the checksum of what its client had read. */
  lemma VerifiedIsHonest(c: Crypto, events: seq<Event>, p: bytes)
    requires PlainRun(events)
    requires var s := Reach(c, events).server; p in s.files && s.files[p].verified
    ensures var y := Reach(c, events);
      Resolve(p) in y.server.disk && p in y.source && Cksum(y.server.disk[Resolve(p)]) == Cksum(y.source[p])
  {
    hide Reach;
    EveryRunKeepsInv(c, true, events);
  }

  /** Once an exchange is over, the client encrypts with the key the server will look up for its id. */
  lemma KeysAgree(c: Crypto, events: seq<Event>, id: Id)
    requires Sound(c)
    requires var y := Reach(c, events); id in y.peers && y.peers[id].aesKey.Some? && !KeyPending(y.peers[id])
    ensures var y := Reach(c, events); KeyOf(y.server, id) == y.peers[id].aesKey
  {
    hide Reach;
    EveryRunKeepsInv(c, false, events);
  }

  /** The counter stays within its bounds and counts the 1105s since the start or the last 1106. */
  lemma RetryBudget(c: Crypto, events: seq<Event>, id: Id)
    requires id in Reach(c, events).peers
    ensures var p := Reach(c, events).peers[id];
      1 <= p.trials <= ATTEMPTS && RetriesSinceFinal(p.log) == p.trials - 1
  {
    hide Reach;
    EveryRunKeepsInv(c, false, events);
  }

  /** In every state a run reaches, tables and indexes agree; after a plainly named run the disk does too. */
  lemma EveryRunAgrees(c: Crypto, events: seq<Event>)
    ensures Indexed(Reach(c, events).server)
    ensures PlainRun(events) ==> Agreement(Reach(c, events).server)
  {
    hide Reach;
    EveryRunKeepsInv(c, false, events);
    if PlainRun(events) {
      EveryRunKeepsInv(c, true, events);
    }
  }

  // ---- What runs do achieve ----

  /** The system after more events. */
  function Follow(c: Crypto, y: System, events: seq<Event>): System
    decreases |events|
  {
    if events == [] then y else Follow(c, Step(c, y, events[0]), events[1..])
  }

  lemma {:induction false} ReachFollows(c: Crypto, before: seq<Event>, events: seq<Event>)
    ensures Reach(c, before + events) == Follow(c, Reach(c, before), events)
    decreases |events|
  {
    hide Step;
    if events == [] {
      assert before + events == before;
    } else {
      var once := before + [events[0]];
      assert once[..|once| - 1] == before;
      assert before + events == once + events[1..];
      ReachFollows(c, once, events[1..]);
    }
  }

  /** What a client does on a 2103: confirm, send again what a new reading finds, or give up. */
  lemma ReactMeans(c: Crypto, y: System, id: Id, raw: bytes, k: u32, size: nat, content: bytes)
    requires id in y.peers && |content| < WORD && y.peers[id].aesKey.Some?
    requires y.peers[id].inbox == [CksumReady(id, size, raw, k)] && y.peers[id].outbox == []
    ensures var (z, p) := (Step(c, y, React(id, content)), y.peers[id]);
      var cipher := c.encrypt(p.aesKey.value, content);
      && z.server == y.server && z.source == y.source
      && z.peers == y.peers[id :=
           if p.cksum == k then
             p.(inbox := [], outbox := [Parcel(CksumOk(raw), [])], log := p.log + [1104])
           else if p.trials < 4 then
             p.(inbox := [], trials := p.trials + 1, cksum := Cksum(content), log := p.log + [1105, 1103],
                outbox := [Parcel(CksumErr(raw), []), Parcel(SendFile(Pad(p.filename), cipher), content)])
           else
             p.(inbox := [], trials := 1, cksum := 0, log := p.log + [1106],
                outbox := [Parcel(CksumErrFinal(raw), [])])]
  {
    hide Cksum, Pad;
    assert y.peers[id].inbox[1..] == [];
  }

  /** A client that is known to the server, under its name, and has nothing under way. */
  ghost predicate AtRest(y: System, id: Id, p: Peer) {
    && id in y.peers && y.peers[id] == p && p.outbox == [] && p.inbox == [] && Clean(p.name)
    && id in y.server.clients && y.server.clients[id].name == p.name && Indexed(y.server)
  }

  /** One exchange: asked, answered, unwrapped. */
  lemma ExchangeRun(c: Crypto, y: System, id: Id, p: Peer, privateKey: bytes, key: Key)
    requires AtRest(y, id, p) && PairWorks(c, privateKey, key)
    ensures var z := Follow(c, y, [AskKey(id, privateKey), Serve(id, [], key, true), React(id, [])]);
      var q := p.(privateKey := privateKey, aesKey := Some(key));
      AtRest(z, id, q) && KeyOf(z.server, id) == Some(key) && z.server.files == y.server.files
  {
    hide Step, Indexed;
    var asked := p.(privateKey := privateKey,
                    outbox := [Parcel(SendPublicKey(Pad(p.name) + c.publicOf(privateKey)), [])]);
    var wrapped := c.wrap(c.publicOf(privateKey), key).value;
    var answered := asked.(outbox := [], inbox := [SwitchingKeys(id, wrapped)]);
    var (e1, e2, e3) := (AskKey(id, privateKey), Serve(id, [], key, true), React(id, []));
    var y1 := Step(c, y, e1);
    AskStep(c, y, id, p, privateKey);
    ServeKeyStep(c, y1, id, asked, privateKey, key);
    var y2 := Step(c, y1, e2);
    UnwrapStep(c, y2, id, answered, key, wrapped);
    assert [e1, e2, e3][1..] == [e2, e3] && [e2, e3][1..] == [e3] && [e3][1..] == [];
    assert Follow(c, y2, [e3]) == Step(c, y2, e3);
  }

  lemma AskStep(c: Crypto, y: System, id: Id, p: Peer, privateKey: bytes)
    requires id in y.peers && y.peers[id] == p && p.outbox == [] && p.inbox == []
    ensures var q := p.(privateKey := privateKey,
                        outbox := [Parcel(SendPublicKey(Pad(p.name) + c.publicOf(privateKey)), [])]);
      Step(c, y, AskKey(id, privateKey)) == y.(peers := y.peers[id := q])
  {
    hide Pad;
  }

  lemma ServeKeyStep(c: Crypto, y: System, id: Id, p: Peer, privateKey: bytes, key: Key)
    requires id in y.peers && y.peers[id] == p && p.inbox == [] && Clean(p.name)
    requires id in y.server.clients && y.server.clients[id].name == p.name && Indexed(y.server)
    requires p.outbox == [Parcel(SendPublicKey(Pad(p.name) + c.publicOf(privateKey)), [])]
    requires PairWorks(c, privateKey, key)
    ensures var z := Step(c, y, Serve(id, [], key, true));
      && z.peers == y.peers[id := p.(
           outbox := [], inbox := [SwitchingKeys(id, c.wrap(c.publicOf(privateKey), key).value)])]
      && id in z.server.clients && z.server.clients[id].name == p.name && KeyOf(z.server, id) == Some(key)
      && Indexed(z.server) && z.server.files == y.server.files
  {
    hide Pad, Strip, Indexed, HandleKeys;
    StripPad(p.name);
    KeysMean(y.server, id, Pad(p.name), c.publicOf(privateKey), Env(id, key, true, c));
    HandleKeepsIndexed(y.server, id, p.outbox[0].body, Env(id, key, true, c));
    assert p.outbox[1..] == [] && forall r: Reply :: p.inbox + [r] == [r];
  }

  lemma UnwrapStep(c: Crypto, y: System, id: Id, p: Peer, key: Key, wrapped: bytes)
    requires id in y.peers && y.peers[id] == p && p.inbox == [SwitchingKeys(id, wrapped)]
    requires c.unwrap(p.privateKey, wrapped) == Some(key)
    ensures Step(c, y, React(id, [])) == y.(peers := y.peers[id := p.(inbox := [], aesKey := Some(key))])
  {
    assert p.inbox[1..] == [];
  }

  /** What an arrived upload leaves: the file, unverified, on the server, and an answer for the client. */
  ghost predicate Arrived(y: System, z: System, id: Id, p: Peer, filename: bytes, content: bytes, plain: bytes) {
    var path := PathOf(id, Lower(filename));
    && path in z.server.files && z.server.files[path] == FileRow(id, Lower(filename), false)
    && Resolve(path) in z.server.disk && z.server.disk[Resolve(path)] == plain
    && path in z.source && z.source[path] == content
    && Indexed(z.server) && z.server.clients == y.server.clients
    && z.peers == y.peers[id := p.(
         filename := filename, cksum := Cksum(content), log := p.log + [1103],
         inbox := [CksumReady(id, |plain|, Pad(Lower(filename)), Cksum(plain))])]
  }

  lemma UploadRun(c: Crypto, y: System, id: Id, p: Peer, filename: bytes, content: bytes, x: bytes, plain: bytes)
    requires AtRest(y, id, p) && p.aesKey.Some? && KeyOf(y.server, id) == p.aesKey
    requires Clean(filename) && |content| < WORD && c.decrypt(p.aesKey.value, x) == Some(plain)
    ensures Arrived(
              y, Follow(c, y, [Upload(id, filename, content), Serve(id, x, NO_ID, true)]),
              id, p, filename, content, plain)
  {
    hide Step, Indexed, Arrived;
    var cipher := c.encrypt(p.aesKey.value, content);
    var q := p.(filename := filename, cksum := Cksum(content), log := p.log + [1103],
                outbox := [Parcel(SendFile(Pad(filename), cipher), content)]);
    var (e1, e2) := (Upload(id, filename, content), Serve(id, x, NO_ID, true));
    UploadStep(c, y, id, p, filename, content);
    var y1 := Step(c, y, e1);
    ServeFileStep(c, y1, id, q, filename, cipher, content, x, plain);
    assert [e1, e2][1..] == [e2] && [e2][1..] == [];
    assert Follow(c, y1, [e2]) == Step(c, y1, e2);
    var z := Step(c, y1, e2);
    assert Arrived(y, z, id, p, filename, content, plain) by {
      ArrivedMeans(y, y1, z, id, p, q, filename, content, plain);
    }
  }

  lemma UploadStep(c: Crypto, y: System, id: Id, p: Peer, filename: bytes, content: bytes)
    requires id in y.peers && y.peers[id] == p && p.outbox == [] && p.inbox == [] && p.aesKey.Some? && |content| < WORD
    ensures var q := p.(
        filename := filename, cksum := Cksum(content), log := p.log + [1103],
        outbox := [Parcel(SendFile(Pad(filename), c.encrypt(p.aesKey.value, content)), content)]);
      Step(c, y, Upload(id, filename, content)) == y.(peers := y.peers[id := q])
  {
    hide Pad, Cksum;
  }

  lemma ServeFileStep(
    c: Crypto, y: System, id: Id, p: Peer, filename: bytes, cipher: bytes, content: bytes, x: bytes, plain: bytes)
    requires id in y.peers && y.peers[id] == p && p.inbox == [] && Indexed(y.server) && id in y.server.clients
    requires p.outbox == [Parcel(SendFile(Pad(filename), cipher), content)] && Clean(filename)
    requires p.aesKey.Some? && KeyOf(y.server, id) == p.aesKey && c.decrypt(p.aesKey.value, x) == Some(plain)
    ensures var (z, path) := (Step(c, y, Serve(id, x, NO_ID, true)), PathOf(id, Lower(filename)));
      && z.server == UploadedTo(y.server, z.server, id, Lower(filename), plain)
      && z.source == y.source[path := content]
      && z.peers == y.peers[id := p.(
           outbox := [], inbox := [CksumReady(id, |plain|, Pad(Lower(filename)), Cksum(plain))])]
      && Indexed(z.server)
  {
    hide Indexed, StoreFile, PathOf, Resolve, Lower, Strip, Pad, Cksum;
    var (body, e) := (SendFile(Pad(filename), x), Env(id, NO_ID, true, c));
    StripPad(filename);
    UploadMeans(y.server, id, Pad(filename), x, e);
    HandleKeepsIndexed(y.server, id, body, e);
    assert p.outbox[1..] == [] && forall r: Reply :: p.inbox + [r] == [r];
  }

  /** A state whose table and disk are those of another with one file stored. */
  function UploadedTo(s: State, t: State, id: Id, filename: bytes, plain: bytes): State {
    var path := PathOf(id, filename);
    s.(files := s.files[path := FileRow(id, filename, false)], disk := s.disk[Resolve(path) := plain],
       clientMap := t.clientMap, fileMap := t.fileMap)
  }

  lemma ArrivedMeans(
    y: System, y1: System, z: System, id: Id, p: Peer, q: Peer, filename: bytes, content: bytes, plain: bytes)
    requires y1 == y.(peers := y.peers[id := q])
    requires q == p.(filename := filename, cksum := Cksum(content), log := p.log + [1103], outbox := q.outbox)
    requires p.outbox == [] && Indexed(z.server)
    requires z.server == UploadedTo(y.server, z.server, id, Lower(filename), plain)
    requires z.source == y.source[PathOf(id, Lower(filename)) := content]
    requires z.peers == y1.peers[id :=
               q.(outbox := [], inbox := [CksumReady(id, |plain|, Pad(Lower(filename)), Cksum(plain))])]
    ensures Arrived(y, z, id, p, filename, content, plain)
  {
    hide Indexed, PathOf, Resolve, Lower, Pad, Cksum;
  }

  /** After a confirmation the row is verified and everything else as it was. */
  lemma ConfirmStep(c: Crypto, y: System, id: Id, p: Peer, filename: bytes)
    requires id in y.peers && y.peers[id] == p && p.inbox == [] && Indexed(y.server) && id in y.server.clients
    requires p.outbox == [Parcel(CksumOk(Pad(Lower(filename))), [])] && Clean(filename)
    requires PathOf(id, Lower(filename)) in y.server.files
    ensures var (z, path) := (Step(c, y, Serve(id, [], NO_ID, true)), PathOf(id, Lower(filename)));
      && z.server.files == y.server.files[path := FileRow(id, Lower(filename), true)]
      && z.server.disk == y.server.disk && z.source == y.source
      && z.peers == y.peers[id := p.(outbox := [], inbox := [MessageReceived(id)])]
  {
    hide Indexed, PathOf, Resolve, Lower, Strip, Pad, SetVerified;
    LowerClean(filename);
    StripPad(Lower(filename));
    LowerTwice(filename);
    VerifyIsMark(y.server, id, Lower(filename));
    assert p.outbox[1..] == [] && forall r: Reply :: p.inbox + [r] == [r];
  }

  /** A new client registers, exchanges keys, and its file arrives as `x`. */
  function FirstEvents(name: bytes, id: Id, privateKey: bytes, key: Key, filename: bytes, content: bytes, x: bytes)
    : seq<Event>
  {
    [Join(name, id), AskKey(id, privateKey), Serve(id, [], key, true), React(id, []),
     Upload(id, filename, content), Serve(id, x, NO_ID, true)]
  }

  /** What that client is when the answer about its file has come. */
  function Uploader(
    name: bytes, privateKey: bytes, key: Key, id: Id, filename: bytes, content: bytes, plain: bytes): Peer
  {
    Peer(name, privateKey, Some(key), 1, Cksum(content), filename, [],
         [CksumReady(id, |plain|, Pad(Lower(filename)), Cksum(plain))], [1103])
  }

  lemma FirstUploadArrives(
    c: Crypto, y: System, name: bytes, id: Id, privateKey: bytes, key: Key,
    filename: bytes, content: bytes, x: bytes, plain: bytes)
    requires Indexed(y.server) && id !in y.server.clients && Clean(name) && Clean(filename) && |content| < WORD
    requires forall i :: i in y.server.clients ==> y.server.clients[i].name != name
    requires PairWorks(c, privateKey, key) && c.decrypt(key, x) == Some(plain)
    ensures var z := Follow(c, y, FirstEvents(name, id, privateKey, key, filename, content, x));
      var path := PathOf(id, Lower(filename));
      && id in z.peers && z.peers[id] == Uploader(name, privateKey, key, id, filename, content, plain)
      && path in z.server.files && z.server.files[path] == FileRow(id, Lower(filename), false)
      && Resolve(path) in z.server.disk && z.server.disk[Resolve(path)] == plain
      && path in z.source && z.source[path] == content
      && Indexed(z.server) && id in z.server.clients
  {
    hide Step, Indexed, PathOf, Resolve, Lower, Pad, Cksum, Clean;
    var joined := Peer(name, [], None, 1, 0, [], [], [], []);
    var keyed := joined.(privateKey := privateKey, aesKey := Some(key));
    var ask := [AskKey(id, privateKey), Serve(id, [], key, true), React(id, [])];
    var up := [Upload(id, filename, content), Serve(id, x, NO_ID, true)];
    var y1 := Step(c, y, Join(name, id));
    JoinOutcome(c, y, name, id);
    JoinKeepsIndexed(c, y, name, id);
    ExchangeRun(c, y1, id, joined, privateKey, key);
    var y2 := Follow(c, y1, ask);
    UploadRun(c, y2, id, keyed, filename, content, x, plain);
    FollowConcat(c, y1, ask, up);
    assert [Join(name, id)] + (ask + up) == FirstEvents(name, id, privateKey, key, filename, content, x);
    FollowOne(c, y, Join(name, id), ask + up);
    assert [] + [1103] == [1103];
  }

  lemma JoinKeepsIndexed(c: Crypto, y: System, name: bytes, id: Id)
    requires Indexed(y.server) && id !in y.server.clients && Clean(name)
    ensures Indexed(Step(c, y, Join(name, id)).server)
  {
    hide Step, Indexed, Handle, Pad, Clean;
    JoinOutcome(c, y, name, id);
    HandleKeepsIndexed(y.server, NO_ID, Register(Pad(name)), Env(id, NO_ID, true, c));
  }

  lemma FollowOne(c: Crypto, y: System, ev: Event, rest: seq<Event>)
    ensures Follow(c, y, [ev] + rest) == Follow(c, Step(c, y, ev), rest)
  {
    hide Step;
    assert ([ev] + rest)[1..] == rest;
  }

  lemma {:induction false} FollowConcat(c: Crypto, y: System, a: seq<Event>, b: seq<Event>)
    ensures Follow(c, y, a + b) == Follow(c, Follow(c, y, a), b)
    decreases |a|
  {
    hide Step;
    if a == [] {
      assert a + b == b;
    } else {
      assert (a + b)[1..] == a[1..] + b;
      FollowConcat(c, Step(c, y, a[0]), a[1..], b);
    }
  }

  /** The client's name and id are new to the server a run has reached. */
  ghost predicate Newcomer(c: Crypto, before: seq<Event>, name: bytes, id: Id) {
    var clients := Reach(c, before).server.clients;
    Clean(name) && id !in clients && forall i :: i in clients ==> clients[i].name != name
  }

  /**
   After any run a newcomer can register, get its key and upload a file that arrives undamaged: the row
   ends verified, the octets on disk are the file, and the client has sent 1103 and 1104.
   */
  lemma UndamagedUploadIsVerified(
    c: Crypto, before: seq<Event>, name: bytes, id: Id, privateKey: bytes, key: Key, filename: bytes, content: bytes)
    requires Newcomer(c, before, name, id) && Clean(filename) && |content| < WORD
    requires PairWorks(c, privateKey, key) && c.decrypt(key, c.encrypt(key, content)) == Some(content)
    ensures var first := FirstEvents(name, id, privateKey, key, filename, content, c.encrypt(key, content));
      var y := Reach(c, before + (first + [React(id, []), Serve(id, [], NO_ID, true)]));
      var path := PathOf(id, Lower(filename));
      && path in y.server.files && y.server.files[path] == FileRow(id, Lower(filename), true)
      && Resolve(path) in y.server.disk && y.server.disk[Resolve(path)] == content
      && path in y.source && y.source[path] == content
      && id in y.peers && y.peers[id].log == [1103, 1104] && y.peers[id].inbox == [MessageReceived(id)]
      && y.peers[id].aesKey == Some(key)
  {
    hide Step, Reach, Indexed, PathOf, Resolve, Lower, Pad, Cksum, Clean;
    var x := c.encrypt(key, content);
    var (y0, first) := (Reach(c, before), FirstEvents(name, id, privateKey, key, filename, content, x));
    var (r, e) := (React(id, []), Serve(id, [], NO_ID, true));
    EveryRunAgrees(c, before);
    FirstUploadArrives(c, y0, name, id, privateKey, key, filename, content, x, content);
    var z := Follow(c, y0, first);
    ReactMeans(c, z, id, Pad(Lower(filename)), Cksum(content), |content|, []);
    var z1 := Step(c, z, r);
    ConfirmStep(c, z1, id, z1.peers[id], filename);
    ReachFollows(c, before, first + [r, e]);
    FollowConcat(c, y0, first, [r, e]);
    assert [r, e] == [r] + [e];
    FollowOne(c, z, r, [e]);
    assert [e] == [e] + [];
    FollowOne(c, z1, e, []);
    assert [1103] + [1104] == [1103, 1104];
  }

  /**
   When it arrives damaged, so that the checksums differ, the damaged octets are what is stored, the row
   is not verified, and the client complains and sends again what a new reading finds.
   */
  lemma DamagedUploadIsSentAgain(
    c: Crypto, before: seq<Event>, name: bytes, id: Id, privateKey: bytes, key: Key,
    filename: bytes, content: bytes, x: bytes, plain: bytes, again: bytes)
    requires Newcomer(c, before, name, id) && Clean(filename) && |content| < WORD && |again| < WORD
    requires PairWorks(c, privateKey, key) && c.decrypt(key, x) == Some(plain) && Cksum(plain) != Cksum(content)
    ensures var first := FirstEvents(name, id, privateKey, key, filename, content, x);
      var y := Reach(c, before + (first + [React(id, again)]));
      var path := PathOf(id, Lower(filename));
      && path in y.server.files && y.server.files[path] == FileRow(id, Lower(filename), false)
      && Resolve(path) in y.server.disk && y.server.disk[Resolve(path)] == plain
      && id in y.peers && y.peers[id].log == [1103, 1105, 1103] && y.peers[id].trials == 2
      && y.peers[id].outbox == [Parcel(CksumErr(Pad(Lower(filename))), []),
                                Parcel(SendFile(Pad(filename), c.encrypt(key, again)), again)]
  {
    hide Step, Reach, Indexed, PathOf, Resolve, Lower, Pad, Cksum, Clean;
    var (y0, first) := (Reach(c, before), FirstEvents(name, id, privateKey, key, filename, content, x));
    EveryRunAgrees(c, before);
    FirstUploadArrives(c, y0, name, id, privateKey, key, filename, content, x, plain);
    var z := Follow(c, y0, first);
    ReactMeans(c, z, id, Pad(Lower(filename)), Cksum(plain), |plain|, again);
    ReachFollows(c, before, first + [React(id, again)]);
    FollowConcat(c, y0, first, [React(id, again)]);
    assert [React(id, again)] == [React(id, again)] + [];
    FollowOne(c, z, React(id, again), []);
    assert [1103] + [1105, 1103] == [1103, 1105, 1103];
  }

  /** What a restart and a departure leave of a client: its name, and its place in the table. */
  lemma LeavingMeans(c: Crypto, y: System, id: Id)
    requires id in y.peers
    ensures var p := Peer(y.peers[id].name, [], None, 1, 0, [], [], [], []);
      && Step(c, y, Leave(id)) == y.(peers := y.peers[id := p])
      && id in Step(c, y, Restart).peers && Step(c, y, Restart).peers[id] == p
  {
  }

  /** At the start every clean name is new, whatever the id. */
  lemma EveryoneIsNewAtTheStart(c: Crypto, name: bytes, id: Id)
    requires Clean(name)
    ensures Newcomer(c, [], name, id)
  {
  }

  /** A run stays plain when what is added to it uploads under plain names only. */
  lemma PlainRunMeans(before: seq<Event>, name: bytes, id: Id, privateKey: bytes, key: Key,
                      filename: bytes, content: bytes, x: bytes)
    requires Clean(filename)
    ensures PlainRun(before + FirstEvents(name, id, privateKey, key, filename, content, x))
      <==> PlainRun(before) && PlainName(Lower(filename))
  {
    hide Pad, Lower, Strip, PlainName;
    StripPad(filename);
    var first := FirstEvents(name, id, privateKey, key, filename, content, x);
    var events := before + first;
    assert forall i :: 0 <= i < |before| ==> events[i] == before[i];
    assert events[|before| + 4] == Upload(id, filename, content);
    assert forall i :: 0 <= i < |first| ==> events[|before| + i] == first[i];
    forall i | |before| <= i < |events|
      ensures events[i].Upload? ==> i == |before| + 4
    {
      assert events[i] == first[i - |before|];
    }
  }
}
