/** client/client.cpp: saving and loading `me.info`. */
module ClientDetails {
  import opened Bytes
  import opened Text
  import opened Stores
  import opened HexId
  import opened LineFiles

  const DETAILS: bytes := [0x6D, 0x65, 0x2E, 0x69, 0x6E, 0x66, 0x6F]

  const ID_LINE: nat := 2
  const KEY_LINE: nat := 3

  lemma DetailsIsSpelled()
    ensures DETAILS == Ascii("me.info")
  {
  }

  class Client {
    const fileHandler: FileHandler
    const clientName: bytes
    var clientIdHex: bytes
    var clientIdBytes: Id
    var privateKey: bytes

    constructor (fileHandler: FileHandler, clientName: bytes)
      ensures this.fileHandler == fileHandler && this.clientName == clientName
    {
      this.fileHandler := fileHandler;
      this.clientName := clientName;
      clientIdHex := [];
      clientIdBytes := NO_ID;
      privateKey := [];
    }

    /** Writes the file once; an existing file is left alone, and so is the id already held. */
    method SaveRegistrationDetails(id: Id)
      modifies this, fileHandler
      ensures old(DETAILS in fileHandler.files) ==>
        && fileHandler.files == old(fileHandler.files)
        && clientIdBytes == old(clientIdBytes) && clientIdHex == old(clientIdHex)
      ensures old(DETAILS !in fileHandler.files) ==>
        && clientIdBytes == id && clientIdHex == Hex(id)
        && fileHandler.files == old(fileHandler.files)[DETAILS := Join([clientName, Hex(id)])]
      ensures privateKey == old(privateKey)
    {
      if DETAILS in fileHandler.files {
        return;
      }
      clientIdBytes := id;
      fileHandler.AppendLine(DETAILS, clientName);
      clientIdHex := ClientIdToHex(clientIdBytes);
      fileHandler.AppendLine(DETAILS, clientIdHex);
      JoinConcat([clientName], [clientIdHex]);
      assert [clientName] + [clientIdHex] == [clientName, Hex(id)];
      assert [] + Join([clientName]) == Join([clientName]);
    }

    method SavePrivateKey(key: bytes)
      modifies fileHandler
      ensures fileHandler.files == old(if DETAILS in fileHandler.files
        then fileHandler.files[DETAILS := ReplaceLine(fileHandler.files[DETAILS], KEY_LINE, key)]
        else fileHandler.files)
    {
      if DETAILS !in fileHandler.files {
        return;
      }
      fileHandler.WriteLine(DETAILS, KEY_LINE, key);
    }

    /** A refused file changes nothing past the refusal; the key is overwritten even when its line is missing. */
    method LoadRegistrationDetails() returns (ok: bool)
      modifies this
      ensures ok <==> DETAILS in fileHandler.files && Loaded(fileHandler.files[DETAILS]).Some?
      ensures ok ==> Loaded(fileHandler.files[DETAILS]) == Some((clientIdBytes, privateKey))
      ensures if DETAILS in fileHandler.files && IdLine(fileHandler.files[DETAILS]).Some?
        then clientIdHex == IdLine(fileHandler.files[DETAILS]).value && clientIdBytes == Unhex(clientIdHex)
             && privateKey == LineOf(fileHandler.files[DETAILS], KEY_LINE).1
        else clientIdHex == old(clientIdHex) && clientIdBytes == old(clientIdBytes) && privateKey == old(privateKey)
    {
      hide LineOf, IsHex, Unhex;
      if DETAILS !in fileHandler.files {
        return false;
      }
      var read, line := fileHandler.ReadLine(DETAILS, ID_LINE, []);
      if !read {
        return false;
      }
      var accepted := VerifyClientIdHex(line);
      if !accepted {
        return false;
      }
      clientIdHex := line;
      clientIdBytes := HexToBytesArray(line);
      ok, privateKey := fileHandler.ReadLine(DETAILS, KEY_LINE, privateKey);
    }
  }

  /** The id line, when it is there and accepted. */
  function IdLine(content: bytes): (hex: Option<bytes>)
    ensures hex.Some? ==> |hex.value| == 32
  {
    var (found, line) := LineOf(content, ID_LINE);
    if found && |line| == 32 && IsHex(line) then Some(line) else None
  }

  /** The id and key a details file holds. */
  function Loaded(content: bytes): Option<(Id, bytes)> {
    var (hex, (foundKey, key)) := (IdLine(content), LineOf(content, KEY_LINE));
    if hex.Some? && foundKey then Some((Unhex(hex.value), key)) else None
  }

  /** The file after the private key has been saved again and again. */
  function SaveKeys(content: bytes, keys: seq<bytes>): bytes {
    if keys == [] then content
    else ReplaceLine(SaveKeys(content, keys[..|keys| - 1]), KEY_LINE, keys[|keys| - 1])
  }

  /** However many keys were saved, the file has three lines: the name, the id, and the last key. */
  lemma {:induction false} ThreeLines(name: bytes, id: Id, keys: seq<bytes>)
    requires NewlineFree(name) && AllNewlineFree(keys) && keys != []
    ensures SaveKeys(Join([name, Hex(id)]), keys) == Join([name, Hex(id), keys[|keys| - 1]])
    ensures Lines(SaveKeys(Join([name, Hex(id)]), keys)) == [name, Hex(id), keys[|keys| - 1]]
  {
    hide Hex, Join, Split;
    var n := |keys| - 1;
    HexNewlineFree(id);
    var two := [name, Hex(id)];
    var before := SaveKeys(Join(two), keys[..n]);
    if n == 0 {
      LinesJoin(two);
      assert two + [keys[n]] == [name, Hex(id), keys[n]];
    } else {
      ThreeLines(name, id, keys[..n]);
      assert [name, Hex(id), keys[n - 1]][KEY_LINE - 1 := keys[n]] == [name, Hex(id), keys[n]];
    }
    LinesJoin([name, Hex(id), keys[n]]);
  }

  lemma LinesJoin(lines: seq<bytes>)
    requires AllNewlineFree(lines)
    ensures Lines(Join(lines)) == lines
    ensures forall n :: 0 < n <= |lines| ==> LineOf(Join(lines), n) == (true, lines[n - 1])
    ensures LineOf(Join(lines), |lines| + 1) == (true, [])
  {
    SplitJoin(lines);
    hide Split, Join;
    assert (lines + [[]])[..|lines|] == lines;
  }

  lemma SaveNoKeys(content: bytes)
    ensures SaveKeys(content, []) == content
  {
  }

  lemma HexNewlineFree(id: Id)
    ensures NewlineFree(Hex(id))
  {
    HexIsAccepted(id);
  }

  /** Loading after one registration and any number of key saves returns that id and the last key, or no key. */
  lemma LoadAfterSaves(name: bytes, id: Id, keys: seq<bytes>)
    requires NewlineFree(name) && AllNewlineFree(keys)
    ensures Loaded(SaveKeys(Join([name, Hex(id)]), keys)) == Some((id, if keys == [] then [] else keys[|keys| - 1]))
  {
    hide Loaded, Hex, NewlineFree, SaveKeys, Join, LineOf;
    HexNewlineFree(id);
    if keys == [] {
      SaveNoKeys(Join([name, Hex(id)]));
      LoadedLines([name, Hex(id)], id);
    } else {
      ThreeLines(name, id, keys);
      LoadedLines([name, Hex(id), keys[|keys| - 1]], id);
    }
  }

  /** A name line, an id line and perhaps a key line load as that id and that key, or no key. */
  lemma LoadedLines(lines: seq<bytes>, id: Id)
    requires AllNewlineFree(lines) && 2 <= |lines| <= 3 && lines[1] == Hex(id)
    ensures Loaded(Join(lines)) == Some((id, if |lines| == 3 then lines[2] else []))
  {
    hide Hex, Unhex, IsHex, LineOf, Join, NewlineFree;
    HexIsAccepted(id);
    LinesJoin(lines);
    assert LineOf(Join(lines), 2) == (true, lines[1]);
    assert LineOf(Join(lines), 3) == (true, if |lines| == 3 then lines[2] else []);
  }
}
