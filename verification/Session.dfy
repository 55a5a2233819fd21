/** The server's session loop over one connection's bytes. */
module Session {
  import opened Bytes
  import Paths
  import opened PosixCksum
  import opened Text
  import opened Stores
  import opened Wire
  import Server

  // ---- What a session does to the stores and to the stream ----

  datatype Served = Served(requests: seq<Request>, state: State, replies: seq<Reply>, rest: bytes)

  function AsList(r: Option<Reply>): seq<Reply> {
    if r.Some? then [r.value] else []
  }

  /** The loop from its n-th turn on; turn n draws env(n). */
  function Serve(s: State, input: bytes, env: nat -> Env, n: nat): Served
    decreases |input|
  {
    match ReadRequest(s.clients.Keys, input)
    case Closed => Served([], s, [], input)
    case Broken => Served([], s, [], [])
    case Got(id, body, rest) =>
      var (t, r) := Handle(s, id, body, env(n));
      var more := Serve(t, rest, env, n + 1);
      Served([Request(id, body)] + more.requests, more.state, AsList(r) + more.replies, more.rest)
  }

  /** The same requests handled one by one, with no bytes in between. */
  function HandleAll(s: State, rs: seq<Request>, env: nat -> Env, n: nat): (State, seq<Reply>)
    decreases |rs|
  {
    if rs == [] then (s, [])
    else
      var (t, r) := Handle(s, rs[0].id, rs[0].body, env(n));
      var (u, more) := HandleAll(t, rs[1..], env, n + 1);
      (u, AsList(r) + more)
  }

  /** The request can be read whole: it registers, its sender is known, or it is no more than its code. */
  predicate Readable(s: State, r: Request) {
    r.body.Register? || r.id in s.clients || r.body.Unknown?
  }

  /** Each request can be read at its own turn, after those before it have been handled. */
  ghost predicate ReadableInTurn(s: State, rs: seq<Request>, env: nat -> Env, n: nat)
    decreases |rs|
  {
    rs != [] ==> Readable(s, rs[0]) && ReadableInTurn(Handle(s, rs[0].id, rs[0].body, env(n)).0, rs[1..], env, n + 1)
  }

  ghost predicate AllSerialisable(rs: seq<Request>) {
    forall i :: 0 <= i < |rs| ==> Serialisable(rs[i].body)
  }

  /**
   The session loop over the concatenated bytes recovers exactly the requests that were written if and
   only if each was readable at its turn; then it consumes just those bytes, with the effects and
   answers of those requests handled one by one.
   */
  lemma {:induction false} RequestFraming(s: State, rs: seq<Request>, env: nat -> Env, n: nat)
    requires AllSerialisable(rs)
    ensures var (t, replies) := HandleAll(s, rs, env, n);
      ReadableInTurn(s, rs, env, n) ==> Serve(s, EncodeAll(rs), env, n) == Served(rs, t, replies, [])
    ensures Serve(s, EncodeAll(rs), env, n).requests == rs ==> ReadableInTurn(s, rs, env, n)
    decreases |rs|
  {
    hide Handle, ReadRequest, Encode, Serialisable;
    if rs == [] {
      assert EncodeAll(rs) == [];
      assert ReadRequest({}, []) == Closed;
    } else {
      var (r, rest) := (rs[0], rs[1..]);
      var t := Handle(s, r.id, r.body, env(n)).0;
      assert rs == [r] + rest;
      assert EncodeAll(rs) == Encode(r) + EncodeAll(rest);
      FirstIsReadable(s, r, EncodeAll(rest));
      RequestFraming(t, rest, env, n + 1);
      if Readable(s, r) {
        assert Serve(s, EncodeAll(rs), env, n).requests == [r] + Serve(t, EncodeAll(rest), env, n + 1).requests;
      }
    }
  }

  lemma FirstIsReadable(s: State, r: Request, rest: bytes)
    requires Serialisable(r.body)
    ensures var read := ReadRequest(s.clients.Keys, Encode(r) + rest);
      if Readable(s, r) then read == Got(r.id, r.body, rest) else read.Got? && read.body != r.body
  {
    hide ReadRequest, Encode;
    if r.body.Register? || r.id in s.clients {
      ReadEncoded(s.clients.Keys, r, rest);
    } else {
      ReadFromStranger(s.clients.Keys, r, rest);
      assert r.body.Unknown? ==> [] + rest == rest;
    }
  }

  lemma ClientsOnlyGrow(s: State, id: Id, body: Body, e: Env)
    ensures s.clients.Keys <= Handle(s, id, body, e).0.clients.Keys
  {
    hide PathOf, Paths.Resolve, Strip, Lower;
  }

  /** Whatever a known client asks can be read, one request after the other. */
  lemma {:induction false} KnownClientIsRead(s: State, id: Id, rs: seq<Request>, env: nat -> Env, n: nat)
    requires id in s.clients && forall i :: 0 <= i < |rs| ==> rs[i].id == id
    ensures ReadableInTurn(s, rs, env, n)
    decreases |rs|
  {
    hide Handle;
    if rs == [] {
    } else {
      ClientsOnlyGrow(s, id, rs[0].body, env(n));
      KnownClientIsRead(Handle(s, id, rs[0].body, env(n)).0, id, rs[1..], env, n + 1);
    }
  }

  /** A client may register and then, in the same session, do anything under the id it is given. */
  lemma FirstSession(s: State, rawName: bytes, rs: seq<Request>, env: nat -> Env, n: nat)
    requires forall i :: i in s.clients ==> s.clients[i].name != Strip(rawName)
    requires forall i :: 0 <= i < |rs| ==> rs[i].id == env(n).freshId
    ensures ReadableInTurn(s, [Request(NO_ID, Register(rawName))] + rs, env, n)
  {
    hide Handle;
    var first := Request(NO_ID, Register(rawName));
    var t := Handle(s, NO_ID, first.body, env(n)).0;
    assert env(n).freshId in t.clients by {
      RegisteredIsKnown(s, rawName, env(n));
    }
    KnownClientIsRead(t, env(n).freshId, rs, env, n + 1);
    assert ([first] + rs)[1..] == rs;
  }

  lemma RegisteredIsKnown(s: State, rawName: bytes, e: Env)
    requires forall i :: i in s.clients ==> s.clients[i].name != Strip(rawName)
    ensures e.freshId in Handle(s, NO_ID, Register(rawName), e).0.clients
  {
    hide Strip;
  }

  /** Which requests have a form on the wire: sizes below 2^32, and names that fill their 255 octets. */
  lemma SerialisableMeans(payload: bytes, rawName: bytes, content: bytes)
    ensures Serialisable(Register(payload)) <==> |payload| < 0x1_0000_0000
    ensures Serialisable(SendPublicKey(payload)) <==> |payload| < 0x1_0000_0000
    ensures Serialisable(SendFile(rawName, content)) <==> |rawName| == 255 && |content| < 0x1_0000_0000
    ensures Serialisable(CksumOk(rawName)) <==> |rawName| == 255
    ensures Serialisable(CksumErr(rawName)) <==> |rawName| == 255
    ensures Serialisable(CksumErrFinal(rawName)) <==> |rawName| == 255
  {
  }

  /** Every answer the server gives has a form on the wire, if its cipher texts and files stay below 2^32 octets. */
  lemma AnswersAreSerialisable(s: State, id: Id, body: Body, e: Env)
    requires forall p, k :: e.crypto.wrap(p, k).Some? ==> |e.crypto.wrap(p, k).value| < 0x1_0000_0000
    requires forall k, x :: e.crypto.decrypt(k, x).Some? ==> |e.crypto.decrypt(k, x).value| < 0x1_0000_0000
    ensures var r := Handle(s, id, body, e).1; r.Some? ==> SerialisableReply(r.value)
  {
    hide PathOf, Paths.Resolve, Strip, Lower, Cksum, StoredRows, SetKeys, SetVerified, DeleteRows;
  }

  /**
   The restriction is needed: after any request the stream is where the next one starts exactly when
   the sender is known, registers, or had nothing to say after its payload.
   */
  lemma AlignedExactlyWhenKnown(known: set<Id>, r: Request, rest: bytes)
    requires Serialisable(r.body)
    ensures var read := ReadRequest(known, Encode(r) + rest);
      read.Got? && (read.rest == rest <==> r.body.Register? || r.id in known || TailOf(r.id, r.body) == [])
  {
    hide TailOf;
    if r.body.Register? || r.id in known {
      ReadEncoded(known, r, rest);
    } else {
      ReadFromStranger(known, r, rest);
    }
  }

  lemma ReadFromStranger(known: set<Id>, r: Request, rest: bytes)
    requires Serialisable(r.body) && !r.body.Register? && r.id !in known
    ensures ReadRequest(known, Encode(r) + rest) == Got(r.id, Unknown(CodeOf(r.body)), TailOf(r.id, r.body) + rest)
  {
    hide Header, Recv, After, UnLe, TailOf;
    var (payload, tail) := (PayloadOf(r.body), TailOf(r.id, r.body));
    var header := Header(r.id, CodeOf(r.body), |payload|);
    assert Encode(r) + rest == header + (payload + (tail + rest));
    RecvExact(header, payload + (tail + rest));
    RecvExact(payload, tail + rest);
    HeaderFields(r.id, CodeOf(r.body), |payload|);
  }

  // ---- The loop itself ----

  class Connection {
    var input: bytes
    var output: bytes

    method Recv(n: nat) returns (b: bytes)
      modifies this`input
      ensures b == Wire.Recv(old(input), n) && input == After(old(input), n)
    {
      b := Wire.Recv(input, n);
      input := After(input, n);
    }

    method Send(b: bytes)
      modifies this`output
      ensures output == old(output) + b
    {
      output := output + b;
    }

    /** What the handler of a code reads after the payload. */
    method ReadBody(known: set<Id>, id: Id, code: nat, payload: bytes) returns (body: Body)
      modifies this`input
      ensures BodyRead(known, id, code, payload, old(input)) == (body, input)
    {
      if code == REGISTER {
        body := Register(payload);
      } else if id !in known {
        body := Unknown(code);
      } else if code == SEND_PUBLIC_KEY {
        body := SendPublicKey(payload);
      } else if code == SEND_FILE {
        var fileData := Recv(FILE_HEADER_LENGTH);
        if |fileData| < FILE_HEADER_LENGTH {
          return Unknown(SEND_FILE);
        }
        var content := Recv(UnLe(fileData[16..20]));
        body := SendFile(fileData[20..], content);
      } else if code == CKSUM_OK {
        var rawName := Recv(NAME_LENGTH);
        body := CksumOk(rawName);
      } else if code == CKSUM_ERR {
        var rawName := Recv(NAME_LENGTH);
        body := CksumErr(rawName);
      } else if code == CKSUM_ERR_FINAL {
        var rawName := Recv(NAME_LENGTH);
        body := CksumErrFinal(rawName);
      } else {
        body := Unknown(code);
      }
    }
  }

  lemma ReadRequestInParts(known: set<Id>, input: bytes)
    requires |input| >= HEADER_LENGTH
    ensures var (code, payloadSize) := (UnLe(input[17..19]), UnLe(input[19..23]));
      var rest := After(input, HEADER_LENGTH);
      var (body, end) := BodyRead(known, input[..16], code, Wire.Recv(rest, payloadSize), After(rest, payloadSize));
      ReadRequest(known, input) == Got(input[..16], body, end)
  {
    hide UnLe;
    var header := input[..HEADER_LENGTH];
    assert header[..16] == input[..16] && header[17..19] == input[17..19] && header[19..] == input[19..23];
  }

  lemma {:induction false} EncodeRepliesConcat(a: seq<Reply>, b: seq<Reply>)
    ensures EncodeReplies(a + b) == EncodeReplies(a) + EncodeReplies(b)
    decreases |a|
  {
    hide EncodeReply;
    if a == [] {
      assert a + b == b;
    } else {
      assert (a + b)[1..] == a[1..] + b;
      EncodeRepliesConcat(a[1..], b);
    }
  }

  /** The reads of one turn, field by field. */
  method NextRequest(known: set<Id>, conn: Connection) returns (read: Read)
    modifies conn`input
    ensures read == ReadRequest(known, old(conn.input))
    ensures conn.input == if read.Got? then read.rest else []
  {
    hide BodyRead, UnLe;
    ghost var input := conn.input;
    var header := conn.Recv(HEADER_LENGTH);
    if |header| < HEADER_LENGTH {
      return if header == [] then Closed else Broken;
    }
    var (id, code, payloadSize) := (header[..16], UnLe(header[17..19]), UnLe(header[19..]));
    assert header[17..19] == input[17..19] && header[19..] == input[19..23];
    ReadRequestInParts(known, input);
    hide ReadRequest;
    var payload := conn.Recv(payloadSize);
    var body := conn.ReadBody(known, id, code, payload);
    read := Got(id, body, conn.input);
  }

  lemma EncodeAsList(r: Option<Reply>)
    ensures EncodeReplies(AsList(r)) == if r.Some? then EncodeReply(r.value) else []
  {
    hide EncodeReply;
    if r.Some? {
      assert EncodeReplies([r.value]) == EncodeReply(r.value) + EncodeReplies([]);
    }
  }

  /** One turn: a request is read and handled, or the connection is done. */
  method Turn(server: Server.Server, conn: Connection, e: Env) returns (open: bool, ghost reply: Option<Reply>)
    requires server.Valid() && conn !in server.Repr()
    modifies server.Repr(), conn
    ensures server.Valid() && conn !in server.Repr() && fresh(server.Repr() - old(server.Repr()))
    ensures var (s, read) := (old(server.View()), ReadRequest(old(server.View()).clients.Keys, old(conn.input)));
      && open == read.Got?
      && (open ==> (server.View(), reply) == Handle(s, read.id, read.body, e) && conn.input == read.rest
                   && conn.output == old(conn.output) + EncodeReplies(AsList(reply)))
      && (!open ==> server.View() == s && conn.output == old(conn.output) && conn.input == [])
  {
    hide Handle, ReadRequest, EncodeReply, EncodeReplies, AsList;
    open, reply := false, None;
    var read := NextRequest(server.database.clients.Keys, conn);
    if !read.Got? {
      return;
    }
    open := true;
    var answer := server.HandleRequest(read.id, read.body, e);
    reply := answer;
    EncodeAsList(answer);
    if answer.Some? {
      conn.Send(EncodeReply(answer.value));
    }
  }

  /** What was owed is what was sent and what is still owed. */
  ghost predicate Continues(total: Served, handled: seq<Request>, sent: seq<Reply>, now: Served) {
    total == Served(handled + now.requests, now.state, sent + now.replies, now.rest)
  }

  /** A turn that serves a request moves it, and its answer, from what is owed to what is done. */
  lemma TurnContinues(
    total: Served, handled: seq<Request>, sent: seq<Reply>, s: State, input: bytes, env: nat -> Env, n: nat)
    requires Continues(total, handled, sent, Serve(s, input, env, n))
    ensures var read := ReadRequest(s.clients.Keys, input);
      if read.Got? then
        var (t, reply) := Handle(s, read.id, read.body, env(n));
        Continues(total, handled + [Request(read.id, read.body)], sent + AsList(reply), Serve(t, read.rest, env, n + 1))
      else total == Served(handled, s, sent, [])
  {
    hide Handle, ReadRequest, AsList;
    var read := ReadRequest(s.clients.Keys, input);
    ReadsAll(s.clients.Keys, input);
    if read.Got? {
      var (t, reply) := Handle(s, read.id, read.body, env(n));
      var more := Serve(t, read.rest, env, n + 1);
      assert sent + (AsList(reply) + more.replies) == sent + AsList(reply) + more.replies;
      assert handled + ([Request(read.id, read.body)] + more.requests)
          == handled + [Request(read.id, read.body)] + more.requests;
    }
  }

  lemma ReadsAll(known: set<Id>, input: bytes)
    ensures ReadRequest(known, input).Closed? ==> input == []
  {
    hide BodyRead, UnLe;
  }

  /** Serves a connection to its end. */
  method RunSession(server: Server.Server, conn: Connection, env: nat -> Env) returns (ghost handled: seq<Request>)
    requires server.Valid() && conn !in server.Repr()
    modifies server.Repr(), conn
    ensures server.Valid() && fresh(server.Repr() - old(server.Repr()))
    ensures var served := Serve(old(server.View()), old(conn.input), env, 0);
      && handled == served.requests
      && server.View() == served.state
      && conn.input == served.rest
      && conn.output == old(conn.output) + EncodeReplies(served.replies)
  {
    hide Serve, Handle, ReadRequest, EncodeReplies, Continues;
    ghost var total := Serve(server.View(), conn.input, env, 0);
    ghost var sent: seq<Reply> := [];
    handled := [];
    EncodeNoReplies();
    NothingDone(total);
    var n := 0;
    var open := true;
    while open
      invariant server.Valid() && conn !in server.Repr() && fresh(server.Repr() - old(server.Repr()))
      invariant conn.output == old(conn.output) + EncodeReplies(sent)
      invariant open ==> Continues(total, handled, sent, Serve(server.View(), conn.input, env, n))
      invariant !open ==> total == Served(handled, server.View(), sent, conn.input)
      decreases open, |conn.input|
    {
      ghost var (s, input) := (server.View(), conn.input);
      TurnContinues(total, handled, sent, s, input, env, n);
      ghost var reply;
      open, reply := Turn(server, conn, env(n));
      if open {
        EncodeRepliesConcat(sent, AsList(reply));
        ghost var read := ReadRequest(s.clients.Keys, input);
        sent := sent + AsList(reply);
        handled := handled + [Request(read.id, read.body)];
      }
      n := n + 1;
    }
  }

  lemma NothingDone(total: Served)
    ensures Continues(total, [], [], total)
  {
    assert [] + total.requests == total.requests && [] + total.replies == total.replies;
  }

  lemma EncodeNoReplies()
    ensures EncodeReplies([]) == []
  {
  }
}
