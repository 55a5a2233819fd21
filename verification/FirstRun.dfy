/** client/main.cpp: a client's first run, from registration to the end of its upload. */
module FirstRun {
  import opened Bytes
  import opened Paths
  import opened Text
  import opened Stores
  import opened StoreInvariants
  import opened Wire
  import KeyExchange
  import Protocol
  import Server
  import Upload

  method Connect(server: Server.Server, world: Upload.World) returns (link: Upload.Link)
    requires server.Valid()
    ensures link.server == server && link.world == world && link.Valid() && link.view == old(server.View())
    ensures fresh(link.repr - old(server.Repr()))
    ensures link.inbox == [] && link.files == 0 && link.trace == []
  {
    link := new Upload.Link(server, world);
  }

  lemma ViewIsServers(link: Upload.Link)
    requires link.Valid()
    ensures link.server.Valid() && link.view == link.server.View()
  {
  }

  /** Registers under a name nobody has; the server answers with the fresh id. */
  method RegisterToServer(link: Upload.Link, name: bytes, freshId: Id) returns (reply: Option<Reply>)
    requires link.Valid() && Orderly(link.view) && Clean(name) && freshId !in link.view.clients
    requires forall i :: i in link.view.clients ==> link.view.clients[i].name != name
    modifies link.repr
    ensures link.Valid() && fresh(link.repr - old(link.repr)) && Orderly(link.view)
    ensures link.inbox == old(link.inbox) && link.files == old(link.files) && link.trace == old(link.trace)
    ensures reply == Some(RegistrationOk(freshId))
    ensures freshId in link.view.clients && link.view.clients[freshId] == ClientRow(name, None, None)
  {
    hide Handle, Orderly, Pad, Strip, HandleRegistration;
    var e := Env(freshId, NO_ID, true, link.world.crypto);
    StripPad(name);
    RegistrationMeans(link.view, Pad(name), e);
    HandleKeepsOrder(link.view, NO_ID, Register(Pad(name)), e);
    RegisterIsHandled(link.view, Pad(name), e);
    reply := link.Serve(NO_ID, Register(Pad(name)), e);
  }

  lemma RegisterIsHandled(s: State, payload: bytes, e: Env)
    ensures Handle(s, NO_ID, Register(payload), e) == HandleRegistration(s, payload, e)
  {
    hide HandleRegistration;
  }

  /** Asks for a key; with a working pair the client and its row hold one. */
  method GenerateRSAKeyPair(link: Upload.Link, id: Id, name: bytes, pair: bytes) returns (aesKey: bytes)
    requires link.Valid() && Orderly(link.view) && link.inbox == [] && Clean(name)
    requires id in link.view.clients && link.view.clients[id].name == name
    requires Protocol.PairWorks(link.world.crypto, pair, link.world.randomKey(|link.trace|))
    modifies link.repr
    ensures link.Valid() && fresh(link.repr - old(link.repr)) && Orderly(link.view)
    ensures link.inbox == [] && link.files == old(link.files)
    ensures id in link.view.clients && KeyOf(link.view, id) == Some(aesKey)
    ensures aesKey == link.world.randomKey(|old(link.trace)|)
  {
    hide Orderly, Clean, Upload.Link.Valid, Pad, KeyOf;
    var client := new KeyExchange.Client(id, name, link);
    var answered := client.GenerateRSAKeyPair(pair);
    aesKey := client.aesKey;
  }

  /** What the first upload leaves when it arrives undamaged. */
  ghost predicate Verified(s: State, id: Id, filename: bytes, content: bytes) {
    var path := PathOf(id, Lower(filename));
    path in s.files && s.files[path].verified && Resolve(path) in s.disk && s.disk[Resolve(path)] == content
  }

  method SendFileToServer(link: Upload.Link, id: Id, aesKey: bytes, filename: bytes, ghost serverKey: Key)
    returns (answered: bool)
    requires link.Valid() && Orderly(link.view) && link.inbox == [] && link.files == 0
    requires id in link.view.clients && KeyOf(link.view, id) == Some(serverKey)
    requires Clean(filename) && PlainName(Lower(filename))
    modifies link.repr
    ensures link.Valid() && fresh(link.repr - old(link.repr)) && Orderly(link.view)
    ensures id in link.view.clients && KeyOf(link.view, id) == Some(serverKey)
    ensures Upload.Undamaged(Upload.Job(link.world, serverKey, aesKey, filename), 0) ==>
      answered && Verified(link.view, id, filename, link.world.reading(0))
  {
    hide Orderly, Clean, PlainName, PathOf, Resolve, Lower, Pad, KeyOf, Upload.Link.Valid;
    hide Upload.CourseOf, Upload.Client.Finished, Upload.Client.Concluded, Upload.Undamaged;
    var client := new Upload.Client(id, aesKey, filename, link, serverKey);
    answered := client.SendFileToServer();
  }

  /**
   The whole run, against a server in any orderly state and with other clients at work throughout: if the
   key pair works and the upload arrives undamaged, the file is on disk as it was read, its row verified.
   */
  method RunClient(
    server: Server.Server, world: Upload.World, name: bytes, freshId: Id, pair: bytes, filename: bytes)
    returns (answered: bool)
    requires server.Valid() && Orderly(server.View())
    requires Clean(name) && Clean(filename) && PlainName(Lower(filename)) && freshId !in server.View().clients
    requires forall i :: i in server.View().clients ==> server.View().clients[i].name != name
    requires Protocol.PairWorks(world.crypto, pair, world.randomKey(0))
    modifies server.Repr()
    ensures server.Valid() && Orderly(server.View())
    ensures KeyOf(server.View(), freshId) == Some(world.randomKey(0))
    ensures Upload.Undamaged(Upload.Job(world, world.randomKey(0), world.randomKey(0), filename), 0) ==>
      answered && Verified(server.View(), freshId, filename, world.reading(0))
  {
    hide Orderly, Clean, PlainName, Lower, KeyOf, Verified, Upload.Undamaged, Protocol.PairWorks;
    hide Server.Server.View, Server.Server.Valid, Server.Server.Repr, Upload.Link.Valid;
    var link := Connect(server, world);
    var _ := RegisterToServer(link, name, freshId);
    var aesKey := GenerateRSAKeyPair(link, freshId, name, pair);
    answered := SendFileToServer(link, freshId, aesKey, filename, world.randomKey(0));
    ViewIsServers(link);
  }
}
