/** Where a path leads: the server's disk follows both separators and the two dot names. */
module Paths {
  import opened Bytes
  import opened Text

  /** The components of a place, counted from the server's working directory. */
  type Place = seq<bytes>

  const SLASH: byte := 0x2F
  const DOT: byte := 0x2E
  const HERE: bytes := [DOT]
  const PARENT: bytes := [DOT, DOT]

  predicate IsSeparator(c: byte) {
    c == BACKSLASH || c == SLASH
  }

  /** The pieces between separators. */
  function Parts(path: bytes): (parts: seq<bytes>)
    ensures parts != []
  {
    if path == [] then [[]]
    else
      var parts := Parts(path[1..]);
      if IsSeparator(path[0]) then [[]] + parts else [[path[0]] + parts[0]] + parts[1..]
  }

  /** One component: nothing and a dot stay, two dots go up, a name goes down. */
  function Move(at: Place, part: bytes): Place {
    if part == [] || part == HERE then at
    else if part == PARENT && at != [] && at[|at| - 1] != PARENT then at[..|at| - 1]
    else at + [part]
  }

  function Walk(at: Place, parts: seq<bytes>): Place
    decreases |parts|
  {
    if parts == [] then at else Walk(Move(at, parts[0]), parts[1..])
  }

  function Resolve(path: bytes): Place {
    Walk([], Parts(path))
  }

  /** A name that stays in its directory: no separator, and not one of the names that are not files. */
  predicate PlainName(name: bytes) {
    BACKSLASH !in name && SLASH !in name && name !in {[], HERE, PARENT}
  }

  predicate SeparatorFree(s: bytes) {
    BACKSLASH !in s && SLASH !in s
  }

  lemma {:induction false} PartsOfName(name: bytes)
    requires SeparatorFree(name)
    ensures Parts(name) == [name]
  {
    if name == [] {
    } else {
      PartsOfName(name[1..]);
      assert name == [name[0]] + name[1..];
    }
  }

  /** A separator ends a piece. */
  lemma {:induction false} PartsAtSeparator(name: bytes, c: byte, rest: bytes)
    requires SeparatorFree(name) && IsSeparator(c)
    ensures Parts(name + [c] + rest) == [name] + Parts(rest)
  {
    var path := name + [c] + rest;
    if name == [] {
      assert path[1..] == rest;
    } else {
      assert path[1..] == name[1..] + [c] + rest;
      PartsAtSeparator(name[1..], c, rest);
      assert name == [name[0]] + name[1..];
    }
  }

  lemma {:induction false} HexIsPlain(id: bytes)
    ensures SeparatorFree(Hex(id)) && DOT !in Hex(id)
  {
    if id == [] {
    } else {
      HexIsPlain(id[..|id| - 1]);
    }
  }

  lemma {:induction false} HexIsLower(id: bytes)
    ensures Lower(Hex(id)) == Hex(id)
  {
    if id == [] {
    } else {
      HexIsLower(id[..|id| - 1]);
      var (h, t) := (Hex(id), Hex(id[..|id| - 1]));
      assert forall i :: 0 <= i < |t| ==> h[i] == t[i] && Lower(t)[i] == LowerChar(t[i]);
    }
  }

  /** A client's path leads into its own directory and from there wherever the file name goes. */
  lemma ResolvePath(id: bytes, filename: bytes)
    requires id != []
    ensures Resolve(PathOf(id, filename)) == Walk([FILES[..5], Hex(id)], Parts(filename))
  {
    hide Parts, Hex;
    var (dir, hex) := (FILES[..5], Hex(id));
    HexIsPlain(id);
    PartsAtSeparator(hex, BACKSLASH, filename);
    PartsAtSeparator(dir, BACKSLASH, hex + [BACKSLASH] + filename);
    assert PathOf(id, filename) == dir + [BACKSLASH] + (hex + [BACKSLASH] + filename);
    WalkTwo([], dir, hex, Parts(filename));
    assert [dir] + ([hex] + Parts(filename)) == [dir, hex] + Parts(filename);
    assert hex != [] && hex[0] in hex;
    assert Move(Move([], dir), hex) == [dir, hex];
  }

  lemma WalkTwo(at: Place, a: bytes, b: bytes, rest: seq<bytes>)
    ensures Walk(at, [a, b] + rest) == Walk(Move(Move(at, a), b), rest)
  {
    hide Move;
    var parts := [a, b] + rest;
    assert parts[1..] == [b] + rest && ([b] + rest)[1..] == rest;
    assert Walk(at, parts) == Walk(Move(at, a), [b] + rest);
  }

  /** A plain name stays where it is put. */
  lemma ResolvePlain(id: bytes, filename: bytes)
    requires id != [] && PlainName(filename)
    ensures Resolve(PathOf(id, filename)) == [FILES[..5], Hex(id), filename]
  {
    var at := [FILES[..5], Hex(id)];
    ResolvePath(id, filename);
    PartsOfName(filename);
    hide Resolve, Hex;
    assert Walk(at, [filename]) == Walk(Move(at, filename), []);
  }

  lemma {:induction false} PartsAreFree(path: bytes)
    ensures forall x :: x in Parts(path) ==> SeparatorFree(x)
  {
    if path == [] {
    } else {
      PartsAreFree(path[1..]);
      assert Parts(path[1..])[0] in Parts(path[1..]);
    }
  }

  lemma {:induction false} WalkKeepsToParts(at: Place, parts: seq<bytes>)
    ensures forall x :: x in Walk(at, parts) ==> x in at || x in parts
    decreases |parts|
  {
    if parts == [] {
    } else {
      WalkKeepsToParts(Move(at, parts[0]), parts[1..]);
    }
  }

  /** Plain names are exactly those that stay where they are put. */
  lemma PlainMeansInPlace(id: bytes, filename: bytes)
    requires id != []
    ensures PlainName(filename) <==> Resolve(PathOf(id, filename)) == [FILES[..5], Hex(id), filename]
  {
    var at := [FILES[..5], Hex(id)];
    ResolvePath(id, filename);
    HexIsPlain(id);
    if PlainName(filename) {
      ResolvePlain(id, filename);
    } else if SeparatorFree(filename) {
      PartsOfName(filename);
      assert Walk(at, [filename]) == Walk(Move(at, filename), []);
    } else {
      PartsAreFree(filename);
      WalkKeepsToParts(at, Parts(filename));
      assert filename in (at + [filename]);
    }
  }

  /** Plain names of clients share a place only when client and name are the same. */
  lemma PlainPlacesDiffer(id: bytes, f: bytes, id': bytes, f': bytes)
    requires |id| == |id'| > 0 && PlainName(f) && PlainName(f')
    requires Resolve(PathOf(id, f)) == Resolve(PathOf(id', f'))
    ensures id == id' && f == f'
  {
    ResolvePlain(id, f);
    ResolvePlain(id', f');
    UnhexHex(id);
    UnhexHex(id');
  }

  /** The name of another client's file, seen from any client's directory, with either separator. */
  function Climb(c: byte, id: bytes, f: bytes): bytes {
    PARENT + [c] + Hex(id) + [c] + f
  }

  lemma ClimbParts(c: byte, id: bytes, f: bytes)
    requires IsSeparator(c) && SeparatorFree(f)
    ensures Parts(Climb(c, id, f)) == [PARENT, Hex(id), f]
  {
    var hex := Hex(id);
    HexIsPlain(id);
    PartsOfName(f);
    PartsAtSeparator(hex, c, f);
    PartsAtSeparator(PARENT, c, hex + [c] + f);
    hide Parts, Hex;
    assert Climb(c, id, f) == PARENT + [c] + (hex + [c] + f);
    assert [PARENT] + ([hex] + [f]) == [PARENT, hex, f];
  }

  lemma HexIsNoDot(id: bytes)
    requires id != []
    ensures Hex(id) !in {[], HERE, PARENT}
  {
    HexIsPlain(id);
    assert Hex(id)[0] in Hex(id) && HERE[0] == PARENT[0] == DOT;
  }

  lemma WalkUpAndDown(dir: bytes, a: bytes, b: bytes, f: bytes)
    requires {a, b, f} !! {[], HERE, PARENT}
    ensures Walk([dir, a], [PARENT, b, f]) == [dir, b, f]
  {
    assert [PARENT, b] + [f] == [PARENT, b, f];
    WalkTwo([dir, a], PARENT, b, [f]);
    assert a in {a, b, f} && b in {a, b, f} && f in {a, b, f};
    assert Walk([dir, b], [f]) == Walk(Move([dir, b], f), []);
  }

  /** Such a name leads to the other client's file. */
  lemma ClimbReaches(c: byte, id: bytes, other: bytes, f: bytes)
    requires IsSeparator(c) && id != [] && other != [] && PlainName(f)
    ensures Resolve(PathOf(id, Climb(c, other, f))) == Resolve(PathOf(other, f)) && !PlainName(Climb(c, other, f))
  {
    hide Parts, Hex, Resolve, Walk;
    ResolvePath(id, Climb(c, other, f));
    ResolvePlain(other, f);
    ClimbParts(c, other, f);
    HexIsNoDot(id);
    HexIsNoDot(other);
    assert Climb(c, other, f)[2] == c;
    WalkUpAndDown(FILES[..5], Hex(id), Hex(other), f);
  }
}
