/** The client's key exchange, composed with the server, while other clients' requests come in between. */
module KeyExchange {
  import opened Bytes
  import opened Text
  import opened Stores
  import opened StoreInvariants
  import opened Upload
  import opened Wire
  import Protocol

  /** client/client.cpp: the part of the client that asks for a key. */
  class Client {
    const id: Id
    const clientName: bytes
    const link: Link
    var privateKey: bytes
    var aesKey: bytes

    constructor (id: Id, clientName: bytes, link: Link)
      ensures this.id == id && this.clientName == clientName && this.link == link && aesKey == []
    {
      this.id := id;
      this.clientName := clientName;
      this.link := link;
      privateKey := [];
      aesKey := [];
    }

    /** The server has this client's row, under the name the client uses. */
    ghost predicate Registered()
      reads this, link, link.repr
    {
      && link.Valid() && this !in link.repr && Orderly(link.view)
      && id in link.view.clients && link.view.clients[id].name == clientName && Clean(clientName)
    }

    /**
     Sends the public half of a fresh pair, and waits for the answer, which comes exactly when the
     server can wrap a key for it. With a pair that works both sides then hold the one key.
     */
    method GenerateRSAKeyPair(pair: bytes) returns (answered: bool)
      requires Registered() && link.inbox == []
      modifies this, link.repr
      ensures Registered() && fresh(link.repr - old(link.repr))
      ensures privateKey == pair && link.inbox == [] && link.files == old(link.files)
      ensures link.trace == old(link.trace) + [SendPublicKey(Pad(clientName) + link.world.crypto.publicOf(pair))]
      ensures var (c, k) := (link.world.crypto, link.world.randomKey(|old(link.trace)|));
        && (answered <==> |c.publicOf(pair)| == PUBLIC_KEY_LENGTH && c.wrap(c.publicOf(pair), k).Some?)
        && (Protocol.PairWorks(c, pair, k) ==> answered && KeyOf(link.view, id) == Some(aesKey) && aesKey == k)
        && (!answered ==> aesKey == old(aesKey))
    {
      hide Handle, Orderly, Untouched, Link.Valid, Clean;
      privateKey := pair;
      var publicKey := link.world.crypto.publicOf(pair);
      ghost var e := EnvOf(link.world, id, link.world.removeOk, |link.trace|);
      ghost var s := link.view;
      ghost var before := link.Send(id, SendPublicKey(Pad(clientName) + publicKey));
      SameRow(s, before, id);
      KeyAnswer(before, id, clientName, pair, e);
      answered := ReceiveResponseFromServer();
    }

    /** Waits for the answer; without one it waits on. */
    method ReceiveResponseFromServer() returns (answered: bool)
      requires Registered()
      requires link.inbox == [] || (|link.inbox| == 1 && link.inbox[0].SwitchingKeys?)
      modifies this`aesKey, link`inbox
      ensures Registered() && link.inbox == []
      ensures answered == old(link.inbox != [])
      ensures aesKey ==
        if answered then Unwrapped(privateKey, old(link.inbox)[0].cipherKey, old(aesKey)) else old(aesKey)
    {
      hide Orderly, Clean;
      if link.inbox == [] {
        return false;
      }
      var r := link.Receive();
      HandleAESKeyFromServer(r.cipherKey);
      answered := true;
    }

    /** The key a cipher text holds for a private key, or else the key held so far. */
    ghost function Unwrapped(privateKey: bytes, cipherKey: bytes, held: bytes): bytes {
      var key := link.world.crypto.unwrap(privateKey, cipherKey);
      if key.Some? then key.value else held
    }

    /** A cipher text the private key does not open raises, and the key held stays. */
    method HandleAESKeyFromServer(cipherKey: bytes)
      modifies this`aesKey
      ensures aesKey == Unwrapped(privateKey, cipherKey, old(aesKey))
    {
      var key := link.world.crypto.unwrap(privateKey, cipherKey);
      if key.Some? {
        aesKey := key.value;
      }
    }
  }

  lemma SameRow(s: State, t: State, id: Id)
    requires Untouched(s, t, id)
    ensures id in t.clients && t.clients[id] == s.clients[id]
  {
  }

  /** The answer to a client that presents its own name: the new key, under its id and, wrapped, in the reply. */
  lemma KeyAnswer(s: State, id: Id, name: bytes, privateKey: bytes, e: Env)
    requires Orderly(s) && id in s.clients && s.clients[id].name == name && Clean(name)
    ensures var publicKey := e.crypto.publicOf(privateKey);
      var (t, r) := Handle(s, id, SendPublicKey(Pad(name) + publicKey), e);
      && Orderly(t) && id in t.clients && t.clients[id].name == name
      && if |publicKey| != PUBLIC_KEY_LENGTH then t == s && r == None
         else
           && KeyOf(t, id) == Some(e.aesKey)
           && r == match e.crypto.wrap(publicKey, e.aesKey)
                   case None => None
                   case Some(cipherKey) => Some(SwitchingKeys(id, cipherKey))
  {
    hide Orderly, Strip, Pad;
    var payload := Pad(name) + e.crypto.publicOf(privateKey);
    assert payload[..NAME_LENGTH] == Pad(name) && payload[NAME_LENGTH..] == e.crypto.publicOf(privateKey);
    StripPad(name);
    HandleKeepsOrder(s, id, SendPublicKey(payload), e);
    hide Orderly, Strip, Pad;
  }
}
