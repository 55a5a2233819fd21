/** The byte formats of the two directions, each written by one program and read by the other. */
module Wire {
  import opened Bytes
  import opened Text
  import opened Stores

  // ---- Little-endian numbers ----

  function Le(n: nat, k: nat): (b: bytes)
    ensures |b| == k
  {
    if k == 0 then [] else [n % 0x100] + Le(n / 0x100, k - 1)
  }

  function UnLe(b: bytes): (n: nat)
    ensures n < Pow2(8 * |b|)
  {
    if b == [] then 0
    else
      EightMoreBits(|b| - 1);
      b[0] + 0x100 * UnLe(b[1..])
  }

  lemma {:induction false} UnLeLe(n: nat, k: nat)
    requires n < Pow2(8 * k)
    ensures UnLe(Le(n, k)) == n
  {
    if k == 0 {
    } else {
      EightMoreBits(k - 1);
      UnLeLe(n / 0x100, k - 1);
      assert Le(n, k)[1..] == Le(n / 0x100, k - 1);
    }
  }

  /** Two and four octets, the least significant first. */
  lemma LeMeans(n: nat)
    ensures Le(n, 2) == [n % 0x100, n / 0x100 % 0x100]
    ensures Le(n, 4) == [n % 0x100, n / 0x100 % 0x100, n / 0x1_0000 % 0x100, n / 0x100_0000 % 0x100]
  {
    assert n / 0x100 / 0x100 == n / 0x1_0000;
    assert n / 0x1_0000 / 0x100 == n / 0x100_0000;
    assert Le(n / 0x1_0000, 2) == [n / 0x1_0000 % 0x100, n / 0x100_0000 % 0x100];
    assert Le(n / 0x100, 3) == [n / 0x100 % 0x100] + Le(n / 0x1_0000, 2);
  }

  lemma WordBounds()
    ensures Pow2(8 * 2) == 0x1_0000 && Pow2(8 * 4) == WORD
  {
    Pow2Values();
  }

  /** recv(n) on a stream that delivers everything it has: the octets read, never more than n. */
  function Recv(input: bytes, n: nat): bytes {
    if n <= |input| then input[..n] else input
  }

  function After(input: bytes, n: nat): (rest: bytes)
    ensures Recv(input, n) + rest == input
  {
    if n <= |input| then input[n..] else []
  }

  lemma RecvExact(a: bytes, rest: bytes)
    ensures Recv(a + rest, |a|) == a && After(a + rest, |a|) == rest
  {
  }

  // ---- Requests: written by the client, read by the server's session loop ----

  const REGISTER: nat := 1100
  const SEND_PUBLIC_KEY: nat := 1101
  const SEND_FILE: nat := 1103
  const CKSUM_OK: nat := 1104
  const CKSUM_ERR: nat := 1105
  const CKSUM_ERR_FINAL: nat := 1106

  const HEADER_LENGTH: nat := 23
  const FILE_HEADER_LENGTH: nat := 275
  const VERSION: byte := 3

  datatype Request = Request(id: Id, body: Body)

  function CodeOf(body: Body): nat {
    match body
    case Register(_) => REGISTER
    case SendPublicKey(_) => SEND_PUBLIC_KEY
    case SendFile(_, _) => SEND_FILE
    case CksumOk(_) => CKSUM_OK
    case CksumErr(_) => CKSUM_ERR
    case CksumErrFinal(_) => CKSUM_ERR_FINAL
    case Unknown(code) => code
  }

  function PayloadOf(body: Body): bytes {
    match body
    case Register(payload) => payload
    case SendPublicKey(payload) => payload
    case _ => []
  }

  /** What follows the payload; its length depends on the code alone and, for a file, on the file header. */
  function TailOf(id: Id, body: Body): bytes {
    match body
    case SendFile(rawName, content) => id + Le(|content|, 4) + rawName + content
    case CksumOk(rawName) => rawName
    case CksumErr(rawName) => rawName
    case CksumErrFinal(rawName) => rawName
    case _ => []
  }

  function Header(id: Id, code: nat, payloadSize: nat): (h: bytes)
    ensures |h| == HEADER_LENGTH
  {
    id + [VERSION] + Le(code, 2) + Le(payloadSize, 4)
  }

  function Encode(r: Request): bytes {
    Header(r.id, CodeOf(r.body), |PayloadOf(r.body)|) + PayloadOf(r.body) + TailOf(r.id, r.body)
  }

  function EncodeAll(rs: seq<Request>): bytes {
    if rs == [] then [] else Encode(rs[0]) + EncodeAll(rs[1..])
  }

  /** Every size fits its field and every name fills it. */
  predicate Serialisable(body: Body) {
    && CodeOf(body) < 0x1_0000
    && |PayloadOf(body)| < WORD
    && match body
       case SendFile(rawName, content) => |rawName| == NAME_LENGTH && |content| < WORD
       case CksumOk(rawName) => |rawName| == NAME_LENGTH
       case CksumErr(rawName) => |rawName| == NAME_LENGTH
       case CksumErrFinal(rawName) => |rawName| == NAME_LENGTH
       case Unknown(code) => code !in {REGISTER, SEND_PUBLIC_KEY, SEND_FILE, CKSUM_OK, CKSUM_ERR, CKSUM_ERR_FINAL}
       case _ => true
  }

  datatype Read = Closed | Broken | Got(id: Id, body: Body, rest: bytes)

  /**
   One turn of the session loop. An id the tables do not know is answered before anything past the
   payload is read, so such a request reads as its bare code.
   */
  function ReadRequest(known: set<Id>, input: bytes): (r: Read)
    ensures r.Got? ==> |r.rest| < |input|
    ensures input == [] <==> r.Closed?
  {
    var header := Recv(input, HEADER_LENGTH);
    if header == [] then Closed
    else if |header| < HEADER_LENGTH then Broken
    else
      var (id, code, payloadSize) := (header[..16], UnLe(header[17..19]), UnLe(header[19..]));
      var input1 := After(input, HEADER_LENGTH);
      var (payload, input2) := (Recv(input1, payloadSize), After(input1, payloadSize));
      var (body, rest) := BodyRead(known, id, code, payload, input2);
      Got(id, body, rest)
  }

  /** What a code reads after the payload. */
  function BodyRead(known: set<Id>, id: Id, code: nat, payload: bytes, input: bytes): (r: (Body, bytes))
    ensures |r.1| <= |input|
  {
    if code == REGISTER then (Register(payload), input)
    else if id !in known then (Unknown(code), input)
    else if code == SEND_PUBLIC_KEY then (SendPublicKey(payload), input)
    else if code == SEND_FILE then ReadFile(input)
    else
      var (rawName, rest) := (Recv(input, NAME_LENGTH), After(input, NAME_LENGTH));
      if code == CKSUM_OK then (CksumOk(rawName), rest)
      else if code == CKSUM_ERR then (CksumErr(rawName), rest)
      else if code == CKSUM_ERR_FINAL then (CksumErrFinal(rawName), rest)
      else (Unknown(code), input)
  }

  /** The file header names its own client id, which the server does not use. */
  function ReadFile(input: bytes): (r: (Body, bytes))
    ensures |r.1| <= |input|
  {
    var fileData := Recv(input, FILE_HEADER_LENGTH);
    var rest := After(input, FILE_HEADER_LENGTH);
    if |fileData| < FILE_HEADER_LENGTH then (Unknown(SEND_FILE), rest)
    else
      var contentSize := UnLe(fileData[16..20]);
      (SendFile(fileData[20..], Recv(rest, contentSize)), After(rest, contentSize))
  }

  /** A 32-bit field as its four octets. */
  function Field4(n: nat): bytes {
    [n % 0x100, n / 0x100 % 0x100, n / 0x1_0000 % 0x100, n / 0x100_0000 % 0x100]
  }

  lemma HeaderLayout(id: Id, code: nat, size: nat)
    ensures Header(id, code, size) == id + [3, code % 0x100, code / 0x100 % 0x100] + Field4(size)
  {
    LeMeans(code);
    LeMeans(size);
  }

  /** Every request, octet by octet: id, version 3, the code's two octets, the payload's size, and what follows. */
  lemma RequestLayout(id: Id, payload: bytes, rawName: bytes, content: bytes)
    ensures Encode(Request(id, Register(payload))) == id + [3, 0x4C, 4] + Field4(|payload|) + payload
    ensures Encode(Request(id, SendPublicKey(payload))) == id + [3, 0x4D, 4] + Field4(|payload|) + payload
    ensures Encode(Request(id, SendFile(rawName, content)))
         == id + [3, 0x4F, 4] + [0, 0, 0, 0] + (id + Field4(|content|) + rawName + content)
    ensures Encode(Request(id, CksumOk(rawName))) == id + [3, 0x50, 4] + [0, 0, 0, 0] + rawName
    ensures Encode(Request(id, CksumErr(rawName))) == id + [3, 0x51, 4] + [0, 0, 0, 0] + rawName
    ensures Encode(Request(id, CksumErrFinal(rawName))) == id + [3, 0x52, 4] + [0, 0, 0, 0] + rawName
  {
    hide Header, Le;
    HeaderLayout(id, 1100, |payload|);
    HeaderLayout(id, 1101, |payload|);
    HeaderLayout(id, 1103, 0);
    HeaderLayout(id, 1104, 0);
    HeaderLayout(id, 1105, 0);
    HeaderLayout(id, 1106, 0);
    LeMeans(|content|);
    LeMeans(0);
    assert Field4(0) == [0, 0, 0, 0];
  }

  lemma HeaderFields(id: Id, code: nat, payloadSize: nat)
    requires code < 0x1_0000 && payloadSize < WORD
    ensures var h := Header(id, code, payloadSize);
      h[..16] == id && UnLe(h[17..19]) == code && UnLe(h[19..]) == payloadSize
  {
    var h := Header(id, code, payloadSize);
    assert h[17..19] == Le(code, 2) && h[19..] == Le(payloadSize, 4);
    WordBounds();
    UnLeLe(code, 2);
    UnLeLe(payloadSize, 4);
  }

  lemma FileFields(id: Id, rawName: bytes, content: bytes, rest: bytes)
    requires |rawName| == NAME_LENGTH && |content| < WORD
    ensures ReadFile(id + Le(|content|, 4) + rawName + content + rest) == (SendFile(rawName, content), rest)
  {
    hide Recv, After, UnLe, Le;
    var size := Le(|content|, 4);
    FileHeader(id, size, rawName, content, rest);
    RecvExact(id + size + rawName, content + rest);
    WordBounds();
    UnLeLe(|content|, 4);
    RecvExact(content, rest);
  }

  lemma FileHeader(id: Id, size: bytes, rawName: bytes, content: bytes, rest: bytes)
    requires |size| == 4 && |rawName| == NAME_LENGTH
    ensures id + size + rawName + content + rest == (id + size + rawName) + (content + rest)
    ensures (id + size + rawName)[16..20] == size && (id + size + rawName)[20..] == rawName
  {
  }

  /** The session loop reads back one request the client wrote and stops exactly at its end. */
  lemma ReadEncoded(known: set<Id>, r: Request, rest: bytes)
    requires Serialisable(r.body) && (r.body.Register? || r.id in known)
    ensures ReadRequest(known, Encode(r) + rest) == Got(r.id, r.body, rest)
  {
    hide Header, Recv, After, UnLe, ReadFile;
    var (payload, tail) := (PayloadOf(r.body), TailOf(r.id, r.body));
    var header := Header(r.id, CodeOf(r.body), |payload|);
    assert Encode(r) + rest == header + (payload + (tail + rest));
    RecvExact(header, payload + (tail + rest));
    RecvExact(payload, tail + rest);
    RecvExact(tail, rest);
    HeaderFields(r.id, CodeOf(r.body), |payload|);
    if r.body.SendFile? {
      FileFields(r.id, r.body.rawName, r.body.content, rest);
    } else {
      assert tail == [] ==> tail + rest == rest;
    }
  }

  lemma ReadAfterHeader(known: set<Id>, id: Id, code: nat, rest: bytes)
    requires code < 0x1_0000
    ensures var (body, end) := BodyRead(known, id, code, [], rest);
      ReadRequest(known, Header(id, code, 0) + rest) == Got(id, body, end)
  {
    hide Header, UnLe, BodyRead, Recv, After;
    HeaderFields(id, code, 0);
    RecvExact(Header(id, code, 0), rest);
    RecvNothing(rest);
  }

  lemma RecvAll(part: bytes, n: nat)
    requires |part| <= n
    ensures Recv(part, n) == part && After(part, n) == []
  {
    assert part[..|part|] == part;
  }

  lemma RecvNothing(rest: bytes)
    ensures Recv(rest, 0) == [] && After(rest, 0) == rest
  {
  }

  /** A stream that ends early: part of a name or a content is taken for it, part of a file header for nothing. */
  lemma ReadCutShort(known: set<Id>, id: Id, rawName: bytes, size: nat, part: bytes)
    requires id in known && |rawName| == NAME_LENGTH && size < WORD
    ensures |part| <= size ==>
      ReadRequest(known, Header(id, 1103, 0) + (id + Le(size, 4) + rawName + part))
      == Got(id, SendFile(rawName, part), [])
    ensures |part| < 275 ==> ReadRequest(known, Header(id, 1103, 0) + part) == Got(id, Unknown(1103), [])
    ensures |part| <= 255 ==> ReadRequest(known, Header(id, 1104, 0) + part) == Got(id, CksumOk(part), [])
    ensures |part| <= 255 ==> ReadRequest(known, Header(id, 1105, 0) + part) == Got(id, CksumErr(part), [])
    ensures |part| <= 255 ==> ReadRequest(known, Header(id, 1106, 0) + part) == Got(id, CksumErrFinal(part), [])
  {
    hide Header, ReadRequest, ReadFile, Recv, After;
    if |part| <= 255 {
      RecvAll(part, 255);
    }
    ReadAfterHeader(known, id, 1103, id + Le(size, 4) + rawName + part);
    ReadAfterHeader(known, id, 1103, part);
    ReadAfterHeader(known, id, 1104, part);
    ReadAfterHeader(known, id, 1105, part);
    ReadAfterHeader(known, id, 1106, part);
    FileCutShort(id, rawName, size, part);
  }

  lemma FileCutShort(id: Id, rawName: bytes, size: nat, part: bytes)
    requires |rawName| == NAME_LENGTH && size < WORD
    ensures |part| <= size ==> ReadFile(id + Le(size, 4) + rawName + part) == (SendFile(rawName, part), [])
    ensures |part| < 275 ==> ReadFile(part) == (Unknown(1103), [])
  {
    hide UnLe, Le, Recv, After;
    var head := id + Le(size, 4) + rawName;
    RecvExact(head, part);
    if |part| <= size {
      RecvAll(part, size);
    }
    if |part| < 275 {
      RecvAll(part, 275);
    }
    assert head[16..20] == Le(size, 4) && head[20..] == rawName;
    WordBounds();
    UnLeLe(size, 4);
  }

  /** A header that ends early ends the session. */
  lemma ReadCutHeader(known: set<Id>, part: bytes)
    requires 0 < |part| < 23
    ensures ReadRequest(known, part) == Broken
  {
  }

  // ---- Responses: written by the server, read by the client ----

  const REGISTRATION_OK: nat := 2100
  const REGISTRATION_ERR: nat := 2101
  const SWITCHING_KEYS: nat := 2102
  const CKSUM_READY: nat := 2103
  const MESSAGE_RECEIVED: nat := 2104

  function ReplyHead(code: nat, payloadSize: nat, id: Id): (h: bytes)
    ensures |h| == HEADER_LENGTH
  {
    [VERSION] + Le(code, 2) + Le(payloadSize, 4) + id
  }

  function EncodeReply(r: Reply): bytes {
    match r
    case RegistrationOk(id) => ReplyHead(REGISTRATION_OK, 0, id)
    case RegistrationErr => ReplyHead(REGISTRATION_ERR, 0, NO_ID)
    case SwitchingKeys(id, cipherKey) => ReplyHead(SWITCHING_KEYS, |cipherKey|, id) + cipherKey
    case CksumReady(id, contentSize, rawName, cksum) =>
      ReplyHead(CKSUM_READY, 0, id) + Le(contentSize, 4) + (rawName + Le(cksum, 4))
    case MessageReceived(id) => ReplyHead(MESSAGE_RECEIVED, 0, id)
  }

  function EncodeReplies(rs: seq<Reply>): bytes {
    if rs == [] then [] else EncodeReply(rs[0]) + EncodeReplies(rs[1..])
  }

  predicate SerialisableReply(r: Reply) {
    match r
    case SwitchingKeys(_, cipherKey) => |cipherKey| < WORD
    case CksumReady(_, contentSize, rawName, _) => contentSize < WORD && |rawName| == NAME_LENGTH
    case _ => true
  }

  /** The client's reads for one response; None when the stream ends early or the code is foreign. */
  function ReadReply(input: bytes): (r: Option<(Reply, bytes)>)
    ensures r.Some? ==> |r.value.1| < |input|
  {
    if |input| < HEADER_LENGTH then None
    else
      var (code, payloadSize, id) := (UnLe(input[1..3]), UnLe(input[3..7]), input[7..23]);
      var rest := input[HEADER_LENGTH..];
      if |rest| < payloadSize then None
      else
        var (payload, rest1) := (rest[..payloadSize], rest[payloadSize..]);
        if code == REGISTRATION_OK then Some((RegistrationOk(id), rest1))
        else if code == REGISTRATION_ERR then Some((RegistrationErr, rest1))
        else if code == SWITCHING_KEYS then Some((SwitchingKeys(id, payload), rest1))
        else if code == MESSAGE_RECEIVED then Some((MessageReceived(id), rest1))
        else if code == CKSUM_READY then ReadFileReply(id, rest1)
        else None
  }

  /** The fields the client reads after a 2103 header. */
  function ReadFileReply(id: Id, input: bytes): (r: Option<(Reply, bytes)>)
    ensures r.Some? ==> |r.value.1| <= |input|
  {
    if |input| < 4 + NAME_LENGTH + 4 then None
    else
      WordBounds();
      Some((CksumReady(id, UnLe(input[..4]), input[4..4 + NAME_LENGTH], UnLe(input[4 + NAME_LENGTH..8 + NAME_LENGTH])),
            input[8 + NAME_LENGTH..]))
  }

  lemma ReplyHeadLayout(code: nat, size: nat, id: Id)
    ensures ReplyHead(code, size, id) == [3, code % 0x100, code / 0x100 % 0x100] + Field4(size) + id
  {
    LeMeans(code);
    LeMeans(size);
  }

  /** Every response, octet by octet: version 3, the code's two octets, the payload's size, the id, and what follows. */
  lemma ReplyLayout(id: Id, cipherKey: bytes, contentSize: nat, rawName: bytes, cksum: u32)
    ensures EncodeReply(RegistrationOk(id)) == [3, 0x34, 8] + [0, 0, 0, 0] + id
    ensures EncodeReply(RegistrationErr)
         == [3, 0x35, 8] + [0, 0, 0, 0] + [0, 0, 0, 0, 0, 0, 0, 0, 0, 0, 0, 0, 0, 0, 0, 0]
    ensures EncodeReply(SwitchingKeys(id, cipherKey)) == [3, 0x36, 8] + Field4(|cipherKey|) + id + cipherKey
    ensures EncodeReply(CksumReady(id, contentSize, rawName, cksum))
         == [3, 0x37, 8] + [0, 0, 0, 0] + id + Field4(contentSize) + (rawName + Field4(cksum))
    ensures EncodeReply(MessageReceived(id)) == [3, 0x38, 8] + [0, 0, 0, 0] + id
  {
    hide ReplyHead, Le;
    ReplyHeadLayout(2100, 0, id);
    ReplyHeadLayout(2101, 0, NO_ID);
    ReplyHeadLayout(2102, |cipherKey|, id);
    ReplyHeadLayout(2103, 0, id);
    ReplyHeadLayout(2104, 0, id);
    LeMeans(contentSize);
    LeMeans(cksum);
    assert Field4(0) == [0, 0, 0, 0];
    assert NO_ID == [0, 0, 0, 0, 0, 0, 0, 0, 0, 0, 0, 0, 0, 0, 0, 0];
  }

  lemma ReplyHeadFields(code: nat, payloadSize: nat, id: Id, rest: bytes)
    requires code < 0x1_0000 && payloadSize < WORD
    ensures var h := ReplyHead(code, payloadSize, id) + rest;
      UnLe(h[1..3]) == code && UnLe(h[3..7]) == payloadSize && h[7..23] == id && h[23..] == rest
  {
    var h := ReplyHead(code, payloadSize, id) + rest;
    assert h[1..3] == Le(code, 2) && h[3..7] == Le(payloadSize, 4);
    WordBounds();
    UnLeLe(code, 2);
    UnLeLe(payloadSize, 4);
  }

  lemma FileReplyFields(id: Id, contentSize: nat, rawName: bytes, cksum: u32, rest: bytes)
    requires contentSize < WORD && |rawName| == NAME_LENGTH
    ensures ReadFileReply(id, Le(contentSize, 4) + (rawName + Le(cksum, 4)) + rest)
         == Some((CksumReady(id, contentSize, rawName, cksum), rest))
  {
    var input := Le(contentSize, 4) + (rawName + Le(cksum, 4)) + rest;
    assert input[..4] == Le(contentSize, 4);
    assert input[4..4 + NAME_LENGTH] == rawName;
    assert input[4 + NAME_LENGTH..8 + NAME_LENGTH] == Le(cksum, 4);
    assert input[8 + NAME_LENGTH..] == rest;
    WordBounds();
    UnLeLe(contentSize, 4);
    UnLeLe(cksum, 4);
  }

  lemma ReadBareReply(code: nat, id: Id, rest: bytes)
    requires code in {REGISTRATION_OK, REGISTRATION_ERR, MESSAGE_RECEIVED}
    ensures ReadReply(ReplyHead(code, 0, id) + rest) ==
      Some((if code == REGISTRATION_OK then RegistrationOk(id)
            else if code == REGISTRATION_ERR then RegistrationErr else MessageReceived(id), rest))
  {
    hide UnLe, ReplyHead, ReadFileReply;
    ReplyHeadFields(code, 0, id, rest);
  }

  lemma ReadKeyReply(id: Id, cipherKey: bytes, rest: bytes)
    requires |cipherKey| < WORD
    ensures ReadReply(ReplyHead(SWITCHING_KEYS, |cipherKey|, id) + (cipherKey + rest))
         == Some((SwitchingKeys(id, cipherKey), rest))
  {
    hide UnLe, ReplyHead, ReadFileReply;
    ReplyHeadFields(SWITCHING_KEYS, |cipherKey|, id, cipherKey + rest);
  }

  lemma ReadCksumReply(id: Id, fields: bytes)
    ensures ReadReply(ReplyHead(CKSUM_READY, 0, id) + fields) == ReadFileReply(id, fields)
  {
    hide UnLe, ReplyHead, ReadFileReply;
    ReplyHeadFields(CKSUM_READY, 0, id, fields);
  }

  /** The client recovers every field the server packed and leaves the stream at the next response. */
  lemma ReadEncodedReply(r: Reply, rest: bytes)
    requires SerialisableReply(r)
    ensures ReadReply(EncodeReply(r) + rest) == Some((r, rest))
  {
    hide UnLe, Le, ReplyHead, ReadReply, ReadFileReply;
    match r
    case RegistrationOk(id) => ReadBareReply(REGISTRATION_OK, id, rest);
    case RegistrationErr => ReadBareReply(REGISTRATION_ERR, NO_ID, rest);
    case SwitchingKeys(id, cipherKey) =>
      assert EncodeReply(r) + rest == ReplyHead(SWITCHING_KEYS, |cipherKey|, id) + (cipherKey + rest);
      ReadKeyReply(id, cipherKey, rest);
    case CksumReady(id, contentSize, rawName, cksum) =>
      var fields := Le(contentSize, 4) + (rawName + Le(cksum, 4)) + rest;
      assert EncodeReply(r) + rest == ReplyHead(CKSUM_READY, 0, id) + fields;
      ReadCksumReply(id, fields);
      FileReplyFields(id, contentSize, rawName, cksum, rest);
    case MessageReceived(id) => ReadBareReply(MESSAGE_RECEIVED, id, rest);
  }

  /** All the responses a stream holds. */
  function ReadReplies(input: bytes): (seq<Reply>, bytes)
    decreases |input|
  {
    match ReadReply(input)
    case None => ([], input)
    case Some((r, rest)) =>
      var (rs, end) := ReadReplies(rest);
      ([r] + rs, end)
  }

  lemma {:induction false} ResponseFraming(rs: seq<Reply>)
    requires forall i :: 0 <= i < |rs| ==> SerialisableReply(rs[i])
    ensures ReadReplies(EncodeReplies(rs)) == (rs, [])
    decreases |rs|
  {
    hide ReadReply, EncodeReply;
    if rs == [] {
      NothingToRead();
    } else {
      assert rs == [rs[0]] + rs[1..];
      ReadEncodedReply(rs[0], EncodeReplies(rs[1..]));
      ResponseFraming(rs[1..]);
    }
  }

  lemma NothingToRead()
    ensures ReadReply([]) == None
  {
  }

  /** The name echoed in a 2103, sent back by the client, names the very row the upload wrote. */
  lemma EchoNamesTheRow(s: State, id: Id, rawName: bytes, content: bytes, e: Env, r: Reply)
    requires |rawName| <= NAME_LENGTH
    requires HandleFile(s, id, rawName, content, e).1 == Some(r)
    ensures r.CksumReady? && |r.rawName| == NAME_LENGTH
    ensures Strip(r.rawName) == Lower(Strip(rawName))
    ensures Lower(Strip(r.rawName)) == Lower(Strip(rawName))
  {
    hide Strip, StoreFile;
    LowerClean(Strip(rawName));
    StripPad(Lower(Strip(rawName)));
    LowerTwice(Strip(rawName));
    StoreReplies(s, id, Lower(Strip(rawName)), Received(s, id, content, e));
  }

  lemma StoreReplies(s: State, id: Id, filename: bytes, plain: Option<bytes>)
    ensures plain.Some? && StoreFile(s, id, filename, plain.value).1.Some? ==>
      var r := StoreFile(s, id, filename, plain.value).1.value; r.CksumReady? && r.rawName == Pad(filename)
  {
  }
}
