/**
 The client's upload: send the file, compare checksums, confirm, try again or give up. The methods
 call one another as the program's do; other clients' requests may run between any two of them.
 */
module Upload {
  import opened Bytes
  import opened Paths
  import opened Text
  import opened PosixCksum
  import opened Stores
  import opened StoreInvariants
  import opened Wire
  import Protocol
  import ProtocolRuns
  import BurstDetection
  import ClientCrc
  import Server

  const ATTEMPTS: nat := Protocol.ATTEMPTS

  type LocalFile = b: bytes | |b| < WORD witness []

  /**
   What the client does not decide: its file at the n-th reading, what the channel makes of the octets
   of the n-th upload, the server's disk, the key the server would draw at the client's k-th request, and
   what other clients ask before it.
   */
  datatype World = World(
    crypto: Crypto,
    reading: nat -> LocalFile,
    arriving: (nat, bytes) -> bytes,
    diskOk: nat -> bool,
    removeOk: bool,
    randomKey: nat -> Key,
    others: nat -> seq<Call>)

  // ---- What an upload comes to ----

  datatype Verdict = Match | Mismatch | Lost

  /** One client's upload: the key the server looks up for it, the key it encrypts with, and the file's name. */
  datatype Job = Job(w: World, key: Key, aesKey: bytes, filename: bytes)

  /** The octets the client encrypts at attempt n, encrypted. */
  function Cipher(j: Job, n: nat): bytes {
    j.w.crypto.encrypt(j.aesKey, j.w.reading(n))
  }

  /** The octets attempt n leaves on the server, if any. */
  function Stored(j: Job, n: nat): Option<bytes> {
    if j.w.diskOk(n) then j.w.crypto.decrypt(j.key, j.w.arriving(n, Cipher(j, n))) else None
  }

  function VerdictOf(j: Job, n: nat): Verdict {
    match Stored(j, n)
    case None => Lost
    case Some(plain) => if Cksum(j.w.reading(n)) == Cksum(plain) then Match else Mismatch
  }

  /** The 1103 of attempt n. */
  function FileRequest(j: Job, n: nat): Body {
    SendFile(Pad(j.filename), Cipher(j, n))
  }

  /** The name as the server echoes it and the client sends it back. */
  function Echo(j: Job): bytes {
    Pad(Lower(j.filename))
  }

  /** How an upload goes on once its 1103 is out: the requests that follow, its last attempt, the count it leaves. */
  datatype Course = Course(requests: seq<Body>, last: nat, trials: nat)

  function CourseOf(j: Job, trials: nat, n: nat): Course
    decreases ATTEMPTS - trials
  {
    match VerdictOf(j, n)
    case Lost => Course([], n, trials)
    case Match => Course([CksumOk(Echo(j))], n, trials)
    case Mismatch =>
      if trials < ATTEMPTS then
        var rest := CourseOf(j, trials + 1, n + 1);
        rest.(requests := [CksumErr(Echo(j)), FileRequest(j, n + 1)] + rest.requests)
      else Course([CksumErrFinal(Echo(j))], n, 1)
  }

  /** Whether the server answers the last request: not an upload it could not store, nor a removal that failed. */
  predicate Answered(j: Job, last: nat) {
    match VerdictOf(j, last)
    case Lost => false
    case Match => true
    case Mismatch => j.w.removeOk
  }

  /** Attempt n reaches the server as it was sent, is decrypted to what was encrypted, and can be written. */
  predicate Undamaged(j: Job, n: nat) {
    && j.w.arriving(n, Cipher(j, n)) == Cipher(j, n) && j.w.diskOk(n)
    && j.w.crypto.decrypt(j.key, Cipher(j, n)) == Some(j.w.reading(n))
  }

  /** The file is stored with these octets, and its row says whether they are verified. */
  ghost predicate Holds(s: State, path: bytes, octets: Option<bytes>, verified: bool) {
    && path in s.files && s.files[path].verified == verified
    && Resolve(path) in s.disk && octets == Some(s.disk[Resolve(path)])
  }

  ghost predicate Gone(s: State, path: bytes) {
    && path !in s.files && Resolve(path) !in s.disk && path !in s.fileMap
    && forall i :: i in s.clientMap ==> path !in s.clientMap[i].files
  }

  // ---- Other clients between two steps ----

  /** Nothing the server keeps about one client differs. */
  ghost predicate Untouched(s: State, t: State, id: Id) {
    Protocol.SameClient(true, s, map[], t, map[], id)
  }

  /** A request another client may make: under its own id, for keys under its own name, for files a plain one. */
  predicate IsOthers(clients: map<Id, ClientRow>, id: Id, c: Call) {
    && PlainBody(c.body)
    && if c.body.Register? then c.e.freshId !in clients
       else
         c.id != id && c.id in clients
         && (c.body.SendPublicKey? ==>
               |c.body.payload| >= NAME_LENGTH && Strip(c.body.payload[..NAME_LENGTH]) == clients[c.id].name)
  }

  /** What that leaves other clients free to do. */
  lemma OthersMayAct(clients: map<Id, ClientRow>, id: Id, other: Id, rawName: bytes, content: bytes, e: Env)
    requires other in clients && other != id && e.freshId !in clients && Clean(clients[other].name)
    ensures IsOthers(clients, id, Call(NO_ID, Register(content), e))
    ensures IsOthers(clients, id, Call(other, SendPublicKey(Pad(clients[other].name) + content), e))
    ensures PlainName(NameOf(rawName)) ==> IsOthers(clients, id, Call(other, SendFile(rawName, content), e))
    ensures PlainName(NameOf(rawName)) ==> IsOthers(clients, id, Call(other, CksumErrFinal(rawName), e))
    ensures IsOthers(clients, id, Call(other, CksumOk(rawName), e))
    ensures IsOthers(clients, id, Call(other, CksumErr(rawName), e))
  {
    hide Strip, Pad, Lower, PlainName;
    StripPad(clients[other].name);
    var payload := Pad(clients[other].name) + content;
    assert payload[..NAME_LENGTH] == Pad(clients[other].name);
  }

  /** The stores after those of the calls that are other clients' to make. */
  function AfterOthers(s: State, id: Id, calls: seq<Call>): State {
    if calls == [] then s
    else
      var (before, c) := (AfterOthers(s, id, calls[..|calls| - 1]), calls[|calls| - 1]);
      if IsOthers(before.clients, id, c) then Handle(before, c.id, c.body, c.e).0 else before
  }

  lemma UntouchedReflexive(s: State, id: Id)
    requires id in s.clients
    ensures Untouched(s, s, id)
  {
    hide PathOf, Resolve, PlainName;
  }

  lemma UntouchedTransitive(s: State, t: State, u: State, id: Id)
    requires Untouched(s, t, id) && Untouched(t, u, id)
    ensures Untouched(s, u, id)
  {
    hide PathOf, Resolve, PlainName;
    forall f {:trigger PathOf(id, f)} | PlainName(f)
      ensures SameFile(s, u, PathOf(id, f))
    {
      assert SameFile(s, t, PathOf(id, f)) && SameFile(t, u, PathOf(id, f));
    }
  }

  lemma OthersLeaveUntouched(first: State, s: State, id: Id, c: Call)
    requires Orderly(s) && Untouched(first, s, id) && IsOthers(s.clients, id, c)
    ensures var t := Handle(s, c.id, c.body, c.e).0; Orderly(t) && Untouched(first, t, id)
  {
    var t := Handle(s, c.id, c.body, c.e).0;
    HandleKeepsOrder(s, c.id, c.body, c.e);
    ProtocolRuns.OthersUnmoved(true, s, c.id, c.body, c.e, map[], map[], id);
    hide Handle, Orderly, Strip;
    UntouchedTransitive(first, s, t, id);
  }

  /** What one client sees in the stores outlasts other clients' requests. */
  lemma UntouchedKeeps(s: State, t: State, id: Id, filename: bytes, plain: Option<bytes>, verified: bool)
    requires Untouched(s, t, id) && PlainName(filename)
    ensures KeyOf(s, id) == KeyOf(t, id) && id in t.clients
    ensures Holds(s, PathOf(id, filename), plain, verified) ==> Holds(t, PathOf(id, filename), plain, verified)
  {
    hide PathOf, Resolve, PlainName;
    assert SameFile(s, t, PathOf(id, filename));
    hide PlainName;
  }

  // ---- The server's answers ----

  /** A request as it arrives: only the contents of a file may have changed. */
  function Arrived(w: World, n: nat, body: Body): Body {
    match body
    case SendFile(rawName, content) => SendFile(rawName, w.arriving(n, content))
    case _ => body
  }

  function EnvOf(w: World, id: Id, ok: bool, k: nat): Env {
    Env(id, w.randomKey(k), ok, w.crypto)
  }

  lemma FileAnswer(s: State, j: Job, id: Id, n: nat, e: Env)
    requires e.crypto == j.w.crypto && e.diskOk == j.w.diskOk(n)
    requires Orderly(s) && id in s.clients && KeyOf(s, id) == Some(j.key)
    requires Clean(j.filename) && PlainName(Lower(j.filename))
    ensures var (t, r) := Handle(s, id, Arrived(j.w, n, FileRequest(j, n)), e);
      var (filename, path) := (j.filename, PathOf(id, Lower(j.filename)));
      && Orderly(t) && id in t.clients && KeyOf(t, id) == Some(j.key)
      && match Stored(j, n)
         case None => r == None && t == s
         case Some(plain) =>
           && Holds(t, path, Some(plain), false)
           && r == Some(CksumReady(id, |plain|, Pad(Lower(filename)), Cksum(plain)))
  {
    hide PathOf, Resolve, PlainName, Indexed, Orderly, StoreFile, Strip, Pad, Lower, Cksum;
    var (filename, octets) := (j.filename, Stored(j, n));
    StripPad(filename);
    HandleKeepsOrder(s, id, Arrived(j.w, n, FileRequest(j, n)), e);
    assert Received(s, id, j.w.arriving(n, Cipher(j, n)), e) == octets;
    if octets.Some? {
      OrderlyIsIndexed(s);
      StoreFileIsPut(s, id, Lower(filename), octets.value);
      PutHolds(s, id, Lower(filename), octets.value);
      hide Put, Stored;
    }
  }

  lemma OrderlyIsIndexed(s: State)
    requires Orderly(s)
    ensures Indexed(s)
  {
  }

  lemma PutHolds(s: State, id: Id, filename: bytes, plain: bytes)
    requires id in s.clientMap
    ensures var t := Put(s, id, filename, plain);
      Holds(t, PathOf(id, filename), Some(plain), false) && t.clients == s.clients
  {
    hide PathOf, Resolve;
  }

  lemma OkAnswer(s: State, id: Id, filename: bytes, plain: Option<bytes>, e: Env)
    requires Orderly(s) && id in s.clients && Clean(filename)
    requires Holds(s, PathOf(id, Lower(filename)), plain, false)
    ensures var (t, r) := Handle(s, id, CksumOk(Pad(Lower(filename))), e);
      && Orderly(t) && id in t.clients && KeyOf(t, id) == KeyOf(s, id)
      && Holds(t, PathOf(id, Lower(filename)), plain, true) && r == Some(MessageReceived(id))
  {
    hide Indexed, Orderly, SetVerified, PathOf, Resolve, NameOf, Pad, Lower;
    NameComesBack(filename);
    HandleKeepsOrder(s, id, CksumOk(Pad(Lower(filename))), e);
    OrderlyIsIndexed(s);
    VerifyIsMark(s, id, Lower(filename));
    OkStep(s, id, Pad(Lower(filename)), e);
    MarkHolds(s, id, Lower(filename), plain);
  }

  lemma OkStep(s: State, id: Id, rawName: bytes, e: Env)
    requires id in s.clients
    ensures Handle(s, id, CksumOk(rawName), e)
         == (s.(files := SetVerified(s.files, id, NameOf(rawName), true)), Some(MessageReceived(id)))
  {
    hide SetVerified, Strip, Lower;
  }

  lemma MarkHolds(s: State, id: Id, filename: bytes, plain: Option<bytes>)
    requires Holds(s, PathOf(id, filename), plain, false)
    ensures Holds(Mark(s, id, filename), PathOf(id, filename), plain, true)
    ensures Mark(s, id, filename).clients == s.clients
  {
    hide PathOf, Resolve;
  }

  /** 1106 for a stored file: gone and answered, or, if it cannot be removed, still there and not answered. */
  lemma FinalAnswer(s: State, id: Id, filename: bytes, plain: Option<bytes>, e: Env)
    requires Orderly(s) && id in s.clients && Clean(filename) && PlainName(Lower(filename))
    requires Holds(s, PathOf(id, Lower(filename)), plain, false)
    ensures var (t, r) := Handle(s, id, CksumErrFinal(Pad(Lower(filename))), e);
      var path := PathOf(id, Lower(filename));
      && Orderly(t) && id in t.clients && KeyOf(t, id) == KeyOf(s, id)
      && if e.diskOk then Gone(t, path) && r == Some(MessageReceived(id)) else Holds(t, path, plain, false) && r == None
  {
    hide Indexed, Orderly, Handle, Drop, PathOf, Resolve, PlainName, Strip, Pad, Lower, Gone;
    var rawName := Pad(Lower(filename));
    NameComesBack(filename);
    HandleKeepsOrder(s, id, CksumErrFinal(rawName), e);
    OrderlyIsIndexed(s);
    FinalIsDrop(s, id, rawName, e);
    FinalStep(s, id, rawName, e);
    if e.diskOk {
      OrderlyIsIndexed(Drop(s, id, Lower(filename)));
      DropIsGone(s, id, Lower(filename));
    }
  }

  lemma FinalStep(s: State, id: Id, rawName: bytes, e: Env)
    requires id in s.clients
    ensures Handle(s, id, CksumErrFinal(rawName), e) == HandleCksumErrFinal(s, id, rawName, e)
  {
    hide HandleCksumErrFinal;
  }

  lemma DropIsGone(s: State, id: Id, filename: bytes)
    requires id in s.clientMap && Indexed(Drop(s, id, filename))
    ensures Gone(Drop(s, id, filename), PathOf(id, filename)) && Drop(s, id, filename).clients == s.clients
  {
    hide Indexed, PathOf, Resolve, Forget;
    IndexedMeans(Drop(s, id, filename));
  }

  lemma NameComesBack(filename: bytes)
    requires Clean(filename)
    ensures NameOf(Pad(Lower(filename))) == Lower(filename)
  {
    LowerClean(filename);
    StripPad(Lower(filename));
    LowerTwice(filename);
  }

  // ---- The programs ----

  /** The connection: every request is handled at once, after whatever other clients do first. */
  class Link {
    const server: Server.Server
    const world: World
    var inbox: seq<Reply>
    var files: nat               // uploads sent so far
    var trace: seq<Body>         // requests sent so far
    ghost var repr: set<object>
    ghost var view: State        // the server's stores

    ghost predicate Valid()
      reads this, repr
    {
      && this in repr && server in repr && server.Repr() <= repr && this !in server.Repr()
      && server.Valid() && view == server.View()
    }

    constructor (server: Server.Server, world: World)
      requires server.Valid()
      ensures this.server == server && this.world == world && inbox == [] && files == 0 && trace == []
      ensures Valid() && view == server.View() && fresh(repr - server.Repr())
    {
      this.server := server;
      this.world := world;
      inbox := [];
      files := 0;
      trace := [];
      repr := {this} + server.Repr();
      view := server.View();
    }

    /** The server handles one request. */
    method Serve(id: Id, body: Body, e: Env) returns (reply: Option<Reply>)
      requires Valid()
      modifies repr
      ensures Valid() && fresh(repr - old(repr))
      ensures (view, reply) == Handle(old(view), id, body, e)
      ensures inbox == old(inbox) && files == old(files) && trace == old(trace)
    {
      hide Handle;
      reply := server.HandleRequest(id, body, e);
      repr := repr + server.Repr();
      view := server.View();
    }

    method Known() returns (clients: map<Id, ClientRow>)
      requires Valid()
      ensures clients == view.clients
    {
      clients := server.database.clients;
    }

    /** Other clients' requests, as many as there are, each under its own id, its own name and plain file names. */
    method Interfere(id: Id)
      requires Valid() && Orderly(view) && id in view.clients
      modifies repr
      ensures Valid() && fresh(repr - old(repr))
      ensures view == AfterOthers(old(view), id, world.others(|old(trace)|))
      ensures Orderly(view) && Untouched(old(view), view, id)
      ensures inbox == old(inbox) && files == old(files) && trace == old(trace)
    {
      hide Orderly, Untouched, Handle, IsOthers, Valid;
      var calls := world.others(|trace|);
      UntouchedReflexive(view, id);
      for i := 0 to |calls|
        invariant Valid() && fresh(repr - old(repr))
        invariant view == AfterOthers(old(view), id, calls[..i])
        invariant Orderly(view) && Untouched(old(view), view, id)
        invariant inbox == old(inbox) && files == old(files) && trace == old(trace)
      {
        assert calls[..i + 1][..i] == calls[..i];
        var clients := Known();
        if IsOthers(clients, id, calls[i]) {
          ghost var before := view;
          var _ := Serve(calls[i].id, calls[i].body, calls[i].e);
          OthersLeaveUntouched(old(view), before, id, calls[i]);
        }
      }
      assert calls[..|calls|] == calls;
    }

    /** One request of this client, and the server's handling of it. */
    method Send(id: Id, body: Body) returns (ghost before: State)
      requires Valid() && Orderly(view) && id in view.clients && !body.Register?
      modifies repr
      ensures Valid() && fresh(repr - old(repr))
      ensures before == AfterOthers(old(view), id, world.others(|old(trace)|))
      ensures Orderly(before) && Untouched(old(view), before, id)
      ensures trace == old(trace) + [body]
      ensures files == old(files) + if body.SendFile? then 1 else 0
      ensures var ok := if body.SendFile? then world.diskOk(old(files)) else world.removeOk;
        var (t, r) := Handle(before, id, Arrived(world, old(files), body), EnvOf(world, id, ok, |old(trace)|));
        view == t && inbox == old(inbox) + if r.Some? then [r.value] else []
    {
      assert this in repr;
      hide Handle, Orderly, Untouched, Valid, Arrived, AfterOthers;
      Interfere(id);
      before := view;
      var ok := if body.SendFile? then world.diskOk(files) else world.removeOk;
      var reply := Serve(id, Arrived(world, files, body), EnvOf(world, id, ok, |trace|));
      Note(body, reply);
    }

    /** The client's side of a request: what it sent, and the answer to be read. */
    method Note(body: Body, reply: Option<Reply>)
      requires Valid()
      modifies this`trace, this`files, this`inbox
      ensures Valid()
      ensures trace == old(trace) + [body] && files == old(files) + if body.SendFile? then 1 else 0
      ensures inbox == old(inbox) + if reply.Some? then [reply.value] else []
    {
      trace := trace + [body];
      if body.SendFile? {
        files := files + 1;
      }
      if reply.Some? {
        inbox := inbox + [reply.value];
      }
    }

    /** Takes the first answer. */
    method Receive() returns (r: Reply)
      requires inbox != []
      modifies this`inbox
      ensures r == old(inbox)[0] && inbox == old(inbox)[1..]
    {
      r := inbox[0];
      inbox := inbox[1..];
    }
  }

  /**
   client/client.cpp: the part of the client that uploads one file. A method that waits for an answer
   says whether it came: the program's read has no time limit, so without an answer it waits on.
   */
  class Client {
    const id: Id
    const aesKey: bytes
    const filename: bytes
    const link: Link
    ghost const serverKey: Key         // the key the server will look up for this id
    var cksumOfLastFile: u32
    var numberOfTrials: nat
    ghost var first: nat               // the first attempt of the current upload
    ghost var start: State             // the stores when it began

    constructor (id: Id, aesKey: bytes, filename: bytes, link: Link, ghost serverKey: Key)
      ensures this.id == id && this.aesKey == aesKey && this.filename == filename && this.link == link
      ensures this.serverKey == serverKey && numberOfTrials == 1 && cksumOfLastFile == 0
    {
      this.id := id;
      this.aesKey := aesKey;
      this.filename := filename;
      this.link := link;
      this.serverKey := serverKey;
      cksumOfLastFile := 0;
      numberOfTrials := 1;
      first := 0;
      start := EMPTY;
    }

    ghost function ThisJob(): Job {
      Job(link.world, serverKey, aesKey, filename)
    }

    ghost function Path(): bytes {
      PathOf(id, Lower(filename))
    }

    /** The server knows the client and holds a key for it, and the file has a proper name. */
    ghost predicate Standing()
      reads link, link.repr
    {
      && link.Valid() && Orderly(link.view)
      && id in link.view.clients && KeyOf(link.view, id) == Some(serverKey)
      && Clean(filename) && PlainName(Lower(filename))
    }

    ghost predicate Ready()
      reads this`numberOfTrials, link, link.repr
    {
      Standing() && this !in link.repr && 1 <= numberOfTrials <= ATTEMPTS
    }

    /** What is stored before attempt n: what was there at the start, or the attempt before it, unverified. */
    ghost predicate Prior(n: nat)
      reads this`first, this`start, link`view
    {
      if n == first then Untouched(start, link.view, id)
      else
        n > first && Holds(link.view, Path(), Stored(ThisJob(), n - 1), false)
    }

    /** Attempt n was stored, and this is what the client knows and is told about it. */
    ghost predicate Told(n: nat, rawName: bytes, k: u32)
      reads this`first, this`cksumOfLastFile, link`view
    {
      var plain := Stored(ThisJob(), n);
      && n >= first && plain.Some? && Holds(link.view, Path(), plain, false)
      && rawName == Pad(Lower(filename)) && k == Cksum(plain.value)
      && cksumOfLastFile == Cksum(link.world.reading(n))
    }

    /** Attempt n has been sent and handled; its answer, if there is one, is in the inbox. */
    ghost predicate Awaiting(n: nat)
      reads this`first, this`start, this`cksumOfLastFile, link`view, link`inbox
    {
      if link.inbox == [] then Stored(ThisJob(), n) == None && Prior(n)
      else
        && link.inbox == [link.inbox[0]] && link.inbox[0].CksumReady?
        && Told(n, link.inbox[0].rawName, link.inbox[0].cksum)
    }

    /** How the server's stores stand when the last attempt has been dealt with. */
    ghost predicate Settled(last: nat)
      reads this`first, this`start, link`view
    {
      match VerdictOf(ThisJob(), last)
      case Match => Holds(link.view, Path(), Stored(ThisJob(), last), true)
      case Mismatch =>
        if link.world.removeOk then Gone(link.view, Path())
        else Holds(link.view, Path(), Stored(ThisJob(), last), false)
      case Lost => Prior(last)
    }

    /** The upload has gone its course, and the server's stores stand accordingly. */
    ghost predicate Finished(sent: seq<Body>, c: Course, answered: bool)
      reads this`first, this`start, this`numberOfTrials, link
    {
      && link.inbox == [] && link.trace == sent + c.requests && numberOfTrials == c.trials && link.files == c.last + 1
      && (answered <==> Answered(ThisJob(), c.last))
      && Settled(c.last)
    }

    lemma ToldDecides(n: nat, rawName: bytes, k: u32)
      requires Told(n, rawName, k)
      ensures VerdictOf(ThisJob(), n) == if cksumOfLastFile == k then Match else Mismatch
      ensures rawName == Pad(Lower(filename)) && n >= first
      ensures Holds(link.view, Path(), Stored(ThisJob(), n), false)
    {
      hide Cksum, Pad, PathOf, Resolve;
    }

    /** An unanswered upload has gone its course. */
    lemma LostIsFinished(n: nat)
      requires Awaiting(n) && link.inbox == [] && link.files == n + 1
      ensures Finished(link.trace, CourseOf(ThisJob(), numberOfTrials, n), false)
    {
      hide Untouched, PathOf, Resolve;
      assert link.trace + [] == link.trace;
    }

    /** A last word that needs no further attempt ends the course. */
    lemma LastWordIsFinished(sent: seq<Body>, t: nat, n: nat, answered: bool)
      requires link.inbox == [] && link.files == n + 1 && Settled(n)
      requires answered <==> Answered(ThisJob(), n)
      requires |link.trace| == |sent| + 1 && link.trace[..|sent|] == sent
      requires CourseOf(ThisJob(), t, n) == Course([link.trace[|sent|]], n, numberOfTrials)
      ensures Finished(sent, CourseOf(ThisJob(), t, n), answered)
    {
      hide Settled, Answered, CourseOf;
    }

    /** A retry and then the rest of the course make the whole course. */
    lemma FinishedFurther(sent: seq<Body>, t: nat, n: nat, answered: bool)
      requires VerdictOf(ThisJob(), n) == Mismatch && t < ATTEMPTS
      requires Finished(
                 sent + [CksumErr(Pad(Lower(filename)))] + [FileRequest(ThisJob(), n + 1)],
                 CourseOf(ThisJob(), t + 1, n + 1), answered)
      ensures Finished(sent, CourseOf(ThisJob(), t, n), answered)
    {
      hide Settled, Answered, VerdictOf;
      ghost var rest := CourseOf(ThisJob(), t + 1, n + 1).requests;
      var (complaint, file) := (CksumErr(Pad(Lower(filename))), FileRequest(ThisJob(), n + 1));
      assert sent + [complaint] + [file] + rest == sent + ([complaint, file] + rest);
    }

    /** The two ways a series of stored attempts can end: a first match at attempt k, or mismatches throughout. */
    ghost predicate Concluded(sent: seq<Body>, t: nat, n: nat, answered: bool)
      requires t <= ATTEMPTS
      reads this`numberOfTrials, link
    {
      && (forall k: nat :: FirstMatchAt(ThisJob(), t, n, k) ==>
            && answered && numberOfTrials == t + k - 1
            && link.trace == sent + (Retries(ThisJob(), n, k - 1) + [CksumOk(Pad(Lower(filename)))])
            && Holds(link.view, Path(), Stored(ThisJob(), n + k - 1), true))
      && (NoneMatches(ThisJob(), t, n) ==>
            && numberOfTrials == 1
            && link.trace == sent + (Retries(ThisJob(), n, ATTEMPTS - t) + [CksumErrFinal(Pad(Lower(filename)))])
            && answered == link.world.removeOk
            && if answered then Gone(link.view, Path())
               else Holds(link.view, Path(), Stored(ThisJob(), n + ATTEMPTS - t), false))
    }

    lemma FinishedIsConcluded(sent: seq<Body>, t: nat, n: nat, answered: bool)
      requires 1 <= t <= ATTEMPTS && Finished(sent, CourseOf(ThisJob(), t, n), answered)
      ensures Concluded(sent, t, n, answered)
    {
      hide Holds, Gone, Cksum, PathOf, Retries, Prior, CourseOf;
      forall k: nat | FirstMatchAt(ThisJob(), t, n, k)
        ensures CourseOf(ThisJob(), t, n)
             == Course(Retries(ThisJob(), n, k - 1) + [CksumOk(Echo(ThisJob()))], n + k - 1, t + k - 1)
      {
        MatchAtAttempt(ThisJob(), t, n, k);
      }
      if NoneMatches(ThisJob(), t, n) {
        AllMismatch(ThisJob(), t, n);
      }
      hide CourseOf;
    }

    /** An undamaged first attempt is the whole upload. */
    lemma UndamagedIsConfirmed(sent: seq<Body>, t: nat, n: nat, answered: bool)
      requires 1 <= t <= ATTEMPTS && Undamaged(ThisJob(), n)
      requires Concluded(sent + [FileRequest(ThisJob(), n)], t, n, answered)
      ensures answered && link.trace == sent + [FileRequest(ThisJob(), n), CksumOk(Pad(Lower(filename)))]
      ensures Holds(link.view, Path(), Some(link.world.reading(n)), true)
    {
      hide Holds, Gone, Cksum, PathOf, Pad, Lower, FileRequest, NoneMatches;
      assert FirstMatchAt(ThisJob(), t, n, 1);
      var (first, last) := (FileRequest(ThisJob(), n), CksumOk(Pad(Lower(filename))));
      assert sent + [first] + (Retries(ThisJob(), n, 0) + [last]) == sent + [first, last];
    }

    /** Reads the file afresh, remembers its checksum and encrypts it. */
    method LoadFileContent() returns (cipher: bytes)
      modifies this`cksumOfLastFile
      ensures cksumOfLastFile == Cksum(link.world.reading(link.files))
      ensures cipher == link.world.crypto.encrypt(aesKey, link.world.reading(link.files))
    {
      var content := link.world.reading(link.files);
      var buffer := new byte[|content|](i requires 0 <= i < |content| => content[i]);
      cipher := link.world.crypto.encrypt(aesKey, content);
      cksumOfLastFile := ClientCrc.CalculateCksum(buffer, |content|);
      assert buffer[..|content|] == content;
    }

    /**
     Sends the file, and stays until the last answer about it. What comes of it is stated twice: as the
     course the verdicts determine, and directly for the two ways an answered series can end.
     */
    method SendFileToServer() returns (answered: bool)
      requires Ready() && link.inbox == []
      modifies this, link.repr
      ensures Ready() && fresh(link.repr - old(link.repr))
      ensures first == old(link.files) && start == old(link.view)
      ensures Finished(
                old(link.trace) + [FileRequest(ThisJob(), old(link.files))],
                CourseOf(ThisJob(), old(numberOfTrials), old(link.files)), answered)
      ensures Concluded(
                old(link.trace) + [FileRequest(ThisJob(), old(link.files))],
                old(numberOfTrials), old(link.files), answered)
      ensures Undamaged(ThisJob(), old(link.files)) ==>
        && answered
        && link.trace == old(link.trace) + [FileRequest(ThisJob(), old(link.files)), CksumOk(Pad(Lower(filename)))]
        && Holds(link.view, Path(), Some(link.world.reading(old(link.files))), true)
    {
      ghost var (t, n) := (numberOfTrials, link.files);
      ghost var sent := link.trace + [FileRequest(ThisJob(), n)];
      hide Standing, Finished, Concluded, Prior, CourseOf;
      Begin();
      answered := ReSendFileToServer();
      FinishedIsConcluded(sent, t, n, answered);
      if Undamaged(ThisJob(), n) {
        UndamagedIsConfirmed(old(link.trace), t, n, answered);
      }
    }

    /** Remembers where the upload begins; no program reads it. */
    ghost method Begin()
      requires Ready()
      modifies this`first, this`start
      ensures Ready() && first == link.files && start == link.view && Prior(link.files)
    {
      first, start := link.files, link.view;
      UntouchedReflexive(link.view, id);
    }

    /** One 1103 and the server's handling of it. */
    method Transmit(cipher: bytes)
      requires Ready() && link.inbox == [] && cksumOfLastFile == Cksum(link.world.reading(link.files))
      requires cipher == Cipher(ThisJob(), link.files)
      requires Prior(link.files) && link.files >= first
      modifies link.repr
      ensures Ready() && Awaiting(old(link.files)) && fresh(link.repr - old(link.repr))
      ensures link.trace == old(link.trace) + [FileRequest(ThisJob(), old(link.files))]
      ensures link.files == old(link.files) + 1
    {
      hide Handle, Orderly, Untouched, Holds, PlainName, PathOf, Pad, Cksum, Stored, Link.Valid;
      ghost var (s, n) := (link.view, link.files);
      ghost var last := if n > first then Stored(ThisJob(), n - 1) else None;
      ghost var before := link.Send(id, SendFile(Pad(filename), cipher));
      UntouchedKeeps(s, before, id, Lower(filename), last, false);
      if n == first {
        UntouchedTransitive(start, s, before, id);
      }
      ghost var e := EnvOf(link.world, id, link.world.diskOk(n), |old(link.trace)|);
      FileAnswer(before, ThisJob(), id, n, e);
    }

    /** Waits for one answer: `about` attempt n, or to a last word that needs no more than an acknowledgement. */
    method ReceiveResponseFromServer(ghost n: nat, ghost about: bool) returns (answered: bool)
      requires Ready() && link.files == n + 1
      requires if about then Awaiting(n) else link.inbox == [] || link.inbox == [MessageReceived(id)]
      modifies this, link.repr
      ensures Ready() && link.inbox == [] && fresh(link.repr - old(link.repr))
      ensures first == old(first) && start == old(start)
      ensures !about ==>
        && link.trace == old(link.trace) && numberOfTrials == old(numberOfTrials) && link.files == old(link.files)
        && link.view == old(link.view) && answered == (old(link.inbox) != [])
      ensures about ==> Finished(old(link.trace), CourseOf(ThisJob(), old(numberOfTrials), n), answered)
      decreases if about then ATTEMPTS + 1 - numberOfTrials else 0, 3
    {
      hide CourseOf, Finished, Told, Prior, Stored, Orderly, Clean, PlainName, KeyOf;
      if about && link.inbox == [] {
        LostIsFinished(n);
      }
      if link.inbox == [] {
        return false;
      }
      var r := link.Receive();
      answered := HandleResponse(r, n);
    }

    method HandleResponse(r: Reply, ghost n: nat) returns (answered: bool)
      requires Ready() && link.files == n + 1 && link.inbox == []
      requires r == MessageReceived(id) || (r.CksumReady? && Told(n, r.rawName, r.cksum))
      modifies this, link.repr
      ensures Ready() && link.inbox == [] && fresh(link.repr - old(link.repr))
      ensures first == old(first) && start == old(start)
      ensures r.MessageReceived? ==>
        && link.trace == old(link.trace) && numberOfTrials == old(numberOfTrials) && link.files == old(link.files)
        && link.view == old(link.view) && answered
      ensures r.CksumReady? ==>
        Finished(old(link.trace), CourseOf(ThisJob(), old(numberOfTrials), n), answered)
      decreases if r.CksumReady? then ATTEMPTS + 1 - numberOfTrials else 0, 2
    {
      hide Standing, CourseOf, Told, Settled, Answered;
      match r
      case CksumReady(_, _, rawName, cksum) => answered := HandleFileResponse(rawName, cksum, n);
      case _ => answered := true;
    }

    /** Compares checksums: confirm, send again, or give up after the fourth attempt. */
    method HandleFileResponse(rawName: bytes, cksumFromServer: u32, ghost n: nat) returns (answered: bool)
      requires Ready() && link.files == n + 1 && link.inbox == [] && Told(n, rawName, cksumFromServer)
      modifies this, link.repr
      ensures Ready() && fresh(link.repr - old(link.repr))
      ensures first == old(first) && start == old(start)
      ensures Finished(old(link.trace), CourseOf(ThisJob(), old(numberOfTrials), n), answered)
      decreases ATTEMPTS + 1 - numberOfTrials, 1
    {
      hide Standing, CourseOf, Finished, VerdictOf, Told, Holds, Stored;
      ToldDecides(n, rawName, cksumFromServer);
      if cksumOfLastFile == cksumFromServer {
        answered := Confirm(rawName, n);
      } else if numberOfTrials < ATTEMPTS {
        answered := TryAgain(rawName, n);
      } else {
        answered := GiveUp(rawName, n);
      }
    }

    /** The comparison has been made, with this verdict. */
    ghost predicate Compared(rawName: bytes, n: nat, verdict: Verdict)
      reads this`first, this`numberOfTrials, link, link.repr
    {
      && Ready() && link.files == n + 1 && n >= first && link.inbox == [] && rawName == Pad(Lower(filename))
      && VerdictOf(ThisJob(), n) == verdict
      && Holds(link.view, Path(), Stored(ThisJob(), n), false)
    }

    // The three branches of the comparison.

    method Confirm(rawName: bytes, ghost n: nat) returns (answered: bool)
      requires Compared(rawName, n, Match)
      modifies this, link.repr
      ensures Ready() && fresh(link.repr - old(link.repr))
      ensures first == old(first) && start == old(start)
      ensures Finished(old(link.trace), CourseOf(ThisJob(), old(numberOfTrials), n), answered)
      decreases ATTEMPTS + 1 - numberOfTrials, 0
    {
      hide Standing, CourseOf, VerdictOf, Finished, Settled, Awaiting, Holds, Stored;
      CourseStep(ThisJob(), numberOfTrials, n);
      ghost var (sent, t) := (link.trace, numberOfTrials);
      SendConfirmation(rawName, n);
      answered := Acknowledged(sent, t, n);
    }

    /** The last word about attempt n is out; its acknowledgement is waited for. */
    method Acknowledged(ghost sent: seq<Body>, ghost t: nat, ghost n: nat) returns (answered: bool)
      requires Ready() && link.files == n + 1 && Settled(n)
      requires |link.trace| == |sent| + 1 && link.trace[..|sent|] == sent
      requires CourseOf(ThisJob(), t, n) == Course([link.trace[|sent|]], n, numberOfTrials)
      requires link.inbox == if Answered(ThisJob(), n) then [MessageReceived(id)] else []
      modifies this, link.repr
      ensures Ready() && fresh(link.repr - old(link.repr))
      ensures first == old(first) && start == old(start)
      ensures Finished(sent, CourseOf(ThisJob(), t, n), answered)
      decreases 0, 4
    {
      hide Standing, CourseOf, Answered, Finished, Settled, Awaiting;
      answered := ReceiveResponseFromServer(n, false);
      LastWordIsFinished(sent, t, n, answered);
    }

    method TryAgain(rawName: bytes, ghost n: nat) returns (answered: bool)
      requires Compared(rawName, n, Mismatch) && numberOfTrials < ATTEMPTS
      modifies this, link.repr
      ensures Ready() && fresh(link.repr - old(link.repr))
      ensures first == old(first) && start == old(start)
      ensures Finished(old(link.trace), CourseOf(ThisJob(), old(numberOfTrials), n), answered)
      decreases ATTEMPTS + 1 - numberOfTrials, 0
    {
      hide Standing, CourseOf, VerdictOf, Finished, Holds, Stored;
      ghost var (sent, t) := (link.trace, numberOfTrials);
      numberOfTrials := numberOfTrials + 1;
      SendRetry(rawName, n);
      answered := ReSendFileToServer();
      FinishedFurther(sent, t, n, answered);
    }

    method GiveUp(rawName: bytes, ghost n: nat) returns (answered: bool)
      requires Compared(rawName, n, Mismatch) && numberOfTrials >= ATTEMPTS
      modifies this, link.repr
      ensures Ready() && fresh(link.repr - old(link.repr))
      ensures first == old(first) && start == old(start)
      ensures Finished(old(link.trace), CourseOf(ThisJob(), old(numberOfTrials), n), answered)
      decreases ATTEMPTS + 1 - numberOfTrials, 0
    {
      hide Standing, CourseOf, VerdictOf, Finished, Settled, Awaiting, Holds, Stored;
      CourseStep(ThisJob(), numberOfTrials, n);
      ghost var (sent, t) := (link.trace, numberOfTrials);
      numberOfTrials := 1;
      cksumOfLastFile := 0;
      SendFinal(rawName, n);
      answered := Acknowledged(sent, t, n);
    }

    /** Reads, encrypts, sends and waits: what a first sending does too, once it has checked that it may. */
    method ReSendFileToServer() returns (answered: bool)
      requires Ready() && link.inbox == [] && Prior(link.files) && link.files >= first
      modifies this, link.repr
      ensures Ready() && fresh(link.repr - old(link.repr))
      ensures first == old(first) && start == old(start)
      ensures Finished(
                old(link.trace) + [FileRequest(ThisJob(), old(link.files))],
                CourseOf(ThisJob(), old(numberOfTrials), old(link.files)), answered)
      decreases ATTEMPTS + 1 - numberOfTrials, 4
    {
      hide Standing, Awaiting, Finished, CourseOf, Holds, Stored, Untouched;
      var cipher := LoadFileContent();
      Transmit(cipher);
      answered := ReceiveResponseFromServer(link.files - 1, true);
    }

    method SendConfirmation(rawName: bytes, ghost n: nat)
      requires Compared(rawName, n, Match)
      modifies link.repr
      ensures Ready() && fresh(link.repr - old(link.repr)) && link.files == old(link.files)
      ensures link.trace == old(link.trace) + [CksumOk(Pad(Lower(filename)))] && link.inbox == [MessageReceived(id)]
      ensures Settled(n)
    {
      hide Handle, Orderly, Holds, PlainName, PathOf, Pad, Cksum, Link.Valid;
      ghost var (s, plain) := (link.view, Stored(ThisJob(), n));
      ghost var before := link.Send(id, CksumOk(rawName));
      UntouchedKeeps(s, before, id, Lower(filename), plain, false);
      OkAnswer(before, id, filename, plain, EnvOf(link.world, id, link.world.removeOk, |old(link.trace)|));
    }

    method SendRetry(rawName: bytes, ghost n: nat)
      requires Ready() && link.inbox == [] && rawName == Pad(Lower(filename))
      requires Holds(link.view, Path(), Stored(ThisJob(), n), false)
      modifies link.repr
      ensures Ready() && fresh(link.repr - old(link.repr)) && link.files == old(link.files)
      ensures link.trace == old(link.trace) + [CksumErr(Pad(Lower(filename)))] && link.inbox == []
      ensures Holds(link.view, Path(), Stored(ThisJob(), n), false)
    {
      hide Orderly, Holds, PlainName, PathOf, Cksum, Link.Valid;
      ghost var (s, plain) := (link.view, Stored(ThisJob(), n));
      ghost var before := link.Send(id, CksumErr(rawName));
      UntouchedKeeps(s, before, id, Lower(filename), plain, false);
    }

    method SendFinal(rawName: bytes, ghost n: nat)
      requires Ready() && link.inbox == [] && rawName == Pad(Lower(filename))
      requires VerdictOf(ThisJob(), n) == Mismatch
      requires Holds(link.view, Path(), Stored(ThisJob(), n), false)
      modifies link.repr
      ensures Ready() && fresh(link.repr - old(link.repr)) && link.files == old(link.files)
      ensures link.trace == old(link.trace) + [CksumErrFinal(Pad(Lower(filename)))]
      ensures link.inbox == if link.world.removeOk then [MessageReceived(id)] else []
      ensures Settled(n)
    {
      hide Handle, Orderly, Holds, Gone, PlainName, PathOf, Pad, Cksum, Link.Valid;
      ghost var (s, plain) := (link.view, Stored(ThisJob(), n));
      ghost var before := link.Send(id, CksumErrFinal(rawName));
      UntouchedKeeps(s, before, id, Lower(filename), plain, false);
      FinalAnswer(before, id, filename, plain, EnvOf(link.world, id, link.world.removeOk, |old(link.trace)|));
    }
  }

  // ---- What an upload looks like from outside ----

  /** The ways on from a stored attempt. */
  lemma CourseStep(j: Job, trials: nat, n: nat)
    ensures var (c, v) := (CourseOf(j, trials, n), VerdictOf(j, n));
      && (v == Match ==> c == Course([CksumOk(Echo(j))], n, trials))
      && (v == Mismatch && trials >= ATTEMPTS ==> c == Course([CksumErrFinal(Echo(j))], n, 1))
      && (v == Mismatch && trials < ATTEMPTS ==>
            var rest := CourseOf(j, trials + 1, n + 1);
            c == rest.(requests := [CksumErr(Echo(j)), FileRequest(j, n + 1)] + rest.requests))
  {
  }

  /** k times a complaint and the file read anew, after attempt n. */
  function Retries(j: Job, n: nat, k: nat): seq<Body>
    decreases k
  {
    if k == 0 then [] else [CksumErr(Echo(j)), FileRequest(j, n + 1)] + Retries(j, n + 1, k - 1)
  }

  /** Their codes: 1105 and 1103 in turn, and nothing else. */
  lemma {:induction false} RetriesMean(j: Job, n: nat, k: nat)
    ensures |Retries(j, n, k)| == 2 * k
    ensures forall i :: 0 <= i < k ==>
      && CodeOf(Retries(j, n, k)[2 * i]) == 1105 && CodeOf(Retries(j, n, k)[2 * i + 1]) == 1103
      && Retries(j, n, k)[2 * i + 1] == SendFile(Pad(j.filename), j.w.crypto.encrypt(j.aesKey, j.w.reading(n + 1 + i)))
    decreases k
  {
    hide Pad, Lower;
    if k == 0 {
    } else {
      RetriesMean(j, n + 1, k - 1);
      var (all, rest) := (Retries(j, n, k), Retries(j, n + 1, k - 1));
      forall i | 0 <= i < k
        ensures CodeOf(all[2 * i]) == 1105 && CodeOf(all[2 * i + 1]) == 1103
        ensures all[2 * i + 1] == SendFile(Pad(j.filename), j.w.crypto.encrypt(j.aesKey, j.w.reading(n + 1 + i)))
      {
        if i > 0 {
          assert all[2 * i] == rest[2 * (i - 1)] && all[2 * i + 1] == rest[2 * (i - 1) + 1];
        }
      }
    }
  }

  /** Within the attempts left, number k is the first that matches, and those before it mismatch. */
  predicate FirstMatchAt(j: Job, trials: nat, n: nat, k: nat) {
    && 1 <= k && trials + k - 1 <= ATTEMPTS
    && (forall i :: n <= i < n + k - 1 ==> VerdictOf(j, i) == Mismatch)
    && VerdictOf(j, n + k - 1) == Match
  }

  /** All attempts left mismatch. */
  predicate NoneMatches(j: Job, trials: nat, n: nat) {
    forall i :: n <= i <= n + ATTEMPTS - trials ==> VerdictOf(j, i) == Mismatch
  }

  /** Attempt k is the first that matches: k - 1 retries, then 1104. */
  lemma {:induction false} MatchAtAttempt(j: Job, trials: nat, n: nat, k: nat)
    requires FirstMatchAt(j, trials, n, k)
    ensures CourseOf(j, trials, n) == Course(Retries(j, n, k - 1) + [CksumOk(Echo(j))], n + k - 1, trials + k - 1)
    decreases k
  {
    hide VerdictOf, FileRequest, Echo;
    if k == 1 {
    } else {
      MatchAtAttempt(j, trials + 1, n + 1, k - 1);
      assert Retries(j, n, k - 1) == [CksumErr(Echo(j)), FileRequest(j, n + 1)] + Retries(j, n + 1, k - 2);
    }
  }

  /** Every attempt left mismatches: the retries run out and 1106 follows; the count starts again. */
  lemma {:induction false} AllMismatch(j: Job, trials: nat, n: nat)
    requires 1 <= trials <= ATTEMPTS && NoneMatches(j, trials, n)
    ensures CourseOf(j, trials, n)
         == Course(Retries(j, n, ATTEMPTS - trials) + [CksumErrFinal(Echo(j))], n + ATTEMPTS - trials, 1)
    decreases ATTEMPTS - trials
  {
    hide VerdictOf, FileRequest, Echo;
    if trials == ATTEMPTS {
    } else {
      AllMismatch(j, trials + 1, n + 1);
    }
  }

  /** A world whose channel spoils the padding of every upload. */
  function SpoiledWorld(): World {
    World(
      Crypto((k, x) => x, (k, x) => None, (p, k) => Some(k), (p, x) => Some(x), p => p),
      n => [], (n, x) => [], n => true, true, n => NO_ID, n => [])
  }

  /** There an upload is stored nowhere and never answered: the client waits on, and sends nothing after its 1103. */
  lemma SpoiledUploadIsNotAnswered(key: Key, aesKey: bytes, filename: bytes, trials: nat, n: nat)
    ensures var j := Job(SpoiledWorld(), key, aesKey, filename);
      CourseOf(j, trials, n) == Course([], n, trials) && !Answered(j, n)
  {
    assert Stored(Job(SpoiledWorld(), key, aesKey, filename), n) == None;
  }

  function Codes(requests: seq<Body>): seq<nat> {
    seq(|requests|, i requires 0 <= i < |requests| => CodeOf(requests[i]))
  }

  function Bodies(parcels: seq<Protocol.Parcel>): seq<Body> {
    seq(|parcels|, i requires 0 <= i < |parcels| => parcels[i].body)
  }

  /**
   The protocol's client and this one agree: when the interleaved client's step takes a 2103 from its
   inbox, it sends just the requests that come next on this course, and counts as this one does.
   */
  lemma StepFollowsCourse(y: Protocol.System, id: Id, j: Job, n: nat, size: nat)
    requires id in y.peers && Stored(j, n).Some? && y.peers[id].outbox == []
    requires y.peers[id].inbox == [CksumReady(id, size, Echo(j), Cksum(Stored(j, n).value))]
    requires y.peers[id].filename == j.filename && y.peers[id].aesKey == Some(j.aesKey)
    requires y.peers[id].cksum == Cksum(j.w.reading(n))
    ensures var p := y.peers[id];
      var q := Protocol.Step(j.w.crypto, y, Protocol.React(id, j.w.reading(n + 1))).peers[id];
      var (course, goesOn) := (CourseOf(j, p.trials, n), VerdictOf(j, n) == Mismatch && p.trials < ATTEMPTS);
      var rest := CourseOf(j, q.trials, n + 1);
      && course.requests == Bodies(q.outbox) + (if goesOn then rest.requests else [])
      && q.log == p.log + Codes(Bodies(q.outbox)) && q.inbox == []
      && course.trials == (if goesOn then rest.trials else q.trials)
      && course.last == (if goesOn then rest.last else n)
      && (goesOn ==> q.cksum == Cksum(j.w.reading(n + 1)))
  {
    hide Cksum, CourseOf, Pad, Lower, Protocol.Step;
    var (p, again) := (y.peers[id], j.w.reading(n + 1));
    CourseStep(j, p.trials, n);
    ProtocolRuns.ReactMeans(j.w.crypto, y, id, Echo(j), Cksum(Stored(j, n).value), size, again);
    var q := Protocol.Step(j.w.crypto, y, Protocol.React(id, again)).peers[id];
    if VerdictOf(j, n) == Match {
      assert Bodies(q.outbox) == [CksumOk(Echo(j))];
      assert Codes(Bodies(q.outbox)) == [1104];
    } else if p.trials < ATTEMPTS {
      assert Bodies(q.outbox) == [CksumErr(Echo(j)), FileRequest(j, n + 1)];
      assert Codes(Bodies(q.outbox)) == [1105, 1103];
    } else {
      assert Bodies(q.outbox) == [CksumErrFinal(Echo(j))];
      assert Codes(Bodies(q.outbox)) == [1106];
    }
  }

  /** A file damaged on the way only inside 32 consecutive bits is never confirmed. */
  lemma BurstIsRefused(j: Job, n: nat, plain: bytes, k: nat)
    requires Stored(j, n) == Some(plain) && |plain| == |j.w.reading(n)| && plain != j.w.reading(n)
    requires BurstDetection.AgreeOutside(j.w.reading(n), plain, k)
    ensures VerdictOf(j, n) == Mismatch
  {
    hide Cksum;
    BurstDetection.BurstIsDetected(j.w.reading(n), plain, k);
  }
}
