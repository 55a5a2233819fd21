/** The client's engine: C++ over 32-bit words that wrap, fed from one buffer. */
module ClientCrc {
  import opened Bytes
  import opened BitRegister
  import opened CrcTable
  import opened PosixCksum
  import FeedLemmas

  /** What the client's engine returns for any message: its length field wraps at 2^32. */
  function WrappedCksum(m: bytes): u32 {
    WORD_MAX - Feed(Feed(0, m), LengthOctets(|m| % WORD))
  }

  class CRC {
    var crc: u32
    var nchar: u32
    ghost var fed: bytes

    ghost predicate Valid()
      reads this
    {
      crc == Feed(0, fed) && nchar == |fed| % WORD
    }

    constructor ()
      ensures Valid() && fed == []
    {
      nchar := 0;
      crc := 0;
      fed := [];
    }

    method Update(buf: array<byte>, size: u32)
      requires Valid() && size <= buf.Length
      modifies this
      ensures Valid() && fed == old(fed) + buf[..size]
    {
      hide TableStep, Octet;
      var crcLocal := crc;
      for i := 0 to size
        invariant crcLocal == Feed(crc, buf[..i])
        modifies {}
      {
        TableStepIsOctet(crcLocal, buf[i]);
        FeedOne(crc, buf[..], i);
        assert buf[..][..i] == buf[..i] && buf[..][..i + 1] == buf[..i + 1];
        crcLocal := TableStep(crcLocal, buf[i]);
      }
      FeedConcat(0, fed, buf[..size]);
      FeedLemmas.WrapAdds(|fed|, size);
      crc := crcLocal;
      nchar := (nchar + size) % WORD;
      fed := fed + buf[..size];
    }

    method Digest() returns (cksum: u32)
      requires Valid()
      ensures cksum == WrappedCksum(fed)
      ensures |fed| < WORD ==> cksum == Cksum(fed)
    {
      hide TableStep, Octet;
      var crcLocal := crc;
      var n := nchar;
      while n != 0
        invariant Feed(crcLocal, LengthOctets(n)) == Feed(crc, LengthOctets(nchar))
      {
        var c := n % 0x100;
        FeedLemmas.FeedFirst(crcLocal, c, LengthOctets(n / 0x100));
        TableStepIsOctet(crcLocal, c);
        crcLocal := TableStep(crcLocal, c);
        n := n / 0x100;
      }
      cksum := WORD_MAX - crcLocal;
    }
  }

  /** The checksum the client remembers for the file it is about to encrypt and send. */
  method CalculateCksum(content: array<byte>, size: u32) returns (result: u32)
    requires size <= content.Length
    ensures result == Cksum(content[..size])
    ensures IsPosixCksum(content[..size], result)
  {
    var crc := new CRC();
    crc.Update(content, size);
    assert crc.fed == content[..size];
    result := crc.Digest();
    CksumIsPosix(content[..size], result);
  }

  /** At 2^32 octets the wrapped length field is missing altogether, and the checksums part. */
  lemma WrapShowsAtFourGigabytes(m: bytes)
    requires |m| == WORD && forall i :: 0 <= i < |m| ==> m[i] == 0
    ensures WrappedCksum(m) != Cksum(m)
  {
    FeedLemmas.FeedOfZeros(m);
    var field: bytes := [0, 0, 0, 0, 1];
    assert LengthOctets(WORD) == field by {
      assert LengthOctets(1) == [1];
      assert LengthOctets(0x100) == [0, 1];
      assert LengthOctets(0x1_0000) == [0, 0, 1];
      assert LengthOctets(0x100_0000) == [0, 0, 0, 1];
    }
    assert field == [0, 0, 0, 0] + [1];
    FeedLemmas.FeedOfZeros([0, 0, 0, 0]);
    FeedConcat(0, [0, 0, 0, 0], [1]);
    assert [1][..0] == [];
    FeedLemmas.OctetOne();
  }
}

/** The server's engine: Python over unbounded integers, fed a file in 4096-octet pieces. */
module ServerCrc {
  import opened Bytes
  import opened BitRegister
  import opened CrcTable
  import opened PosixCksum
  import FeedLemmas

  const CHUNK: nat := 4096

  class Crc32 {
    var nchars: nat
    var crc: nat
    ghost var fed: bytes

    ghost predicate Valid()
      reads this
    {
      crc < WORD && crc == Feed(0, fed) && nchars == |fed|
    }

    constructor ()
      ensures Valid() && fed == []
    {
      nchars := 0;
      crc := 0;
      fed := [];
    }

    method Update(buf: bytes)
      requires Valid()
      modifies this
      ensures Valid() && fed == old(fed) + buf
    {
      hide TableStep, Octet;
      var start: u32 := crc;
      var r := start;
      for i := 0 to |buf|
        invariant r == Feed(start, buf[..i])
        modifies {}
      {
        TableStepIsOctet(r, buf[i]);
        FeedOne(start, buf, i);
        r := TableStep(r, buf[i]);
      }
      assert buf[..|buf|] == buf;
      FeedConcat(0, fed, buf);
      crc := r;
      nchars := nchars + |buf|;
      fed := fed + buf;
    }

    method Digest() returns (cksum: u32)
      requires Valid()
      ensures cksum == Cksum(fed)
    {
      hide TableStep, Octet;
      var start: u32 := crc;
      var r := start;
      var n := nchars;
      while n != 0
        invariant Feed(r, LengthOctets(n)) == Feed(start, LengthOctets(nchars))
      {
        var c := n % 0x100;
        FeedLemmas.FeedFirst(r, c, LengthOctets(n / 0x100));
        TableStepIsOctet(r, c);
        r := TableStep(r, c);
        n := n / 0x100;
      }
      cksum := (-(r as int) - 1) % WORD;
    }
  }

  /** The checksum of a stored file, read back in pieces: the same value for every length. */
  method CksumCalc(file: bytes) returns (cksum: u32)
    ensures cksum == Cksum(file)
    ensures IsPosixCksum(file, cksum)
  {
    var digest := new Crc32();
    var pos := 0;
    while pos < |file|
      invariant pos <= |file| && digest.Valid() && digest.fed == file[..pos]
      invariant fresh(digest)
    {
      var end := if pos + CHUNK < |file| then pos + CHUNK else |file|;
      digest.Update(file[pos..end]);
      assert file[..pos] + file[pos..end] == file[..end];
      pos := end;
    }
    assert file[..pos] == file;
    cksum := digest.Digest();
    CksumIsPosix(file, cksum);
  }
}

/** Facts about feeding that only the engines need. */
module FeedLemmas {
  import opened Bytes
  import opened Gf2
  import opened BitRegister

  lemma FeedFirst(r: u32, c: byte, rest: bytes)
    ensures Feed(r, [c] + rest) == Feed(Octet(r, c), rest)
  {
    FeedConcat(r, [c], rest);
    assert [c][..0] == [];
  }

  lemma {:induction false} FeedOfZeros(m: bytes)
    requires forall i :: 0 <= i < |m| ==> m[i] == 0
    ensures Feed(0, m) == 0
  {
    if m == [] {
    } else {
      FeedOfZeros(m[..|m| - 1]);
      XorZero(0);
      StepsOfZero(8);
    }
  }

  lemma WrapAdds(a: nat, b: nat)
    ensures (a % WORD + b) % WORD == (a + b) % WORD
  {
  }

  lemma OctetOne()
    ensures Octet(0, 1) != 0
  {
    XorZero(Align(1));
    if Octet(0, 1) == 0 {
      StepsOfZero(8);
      StepsInjective(Align(1), 0, 8);
    }
  }
}
