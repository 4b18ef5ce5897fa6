/** Bytes and the fixed-width integers of the file formats in this repository. */
module Bytes {

  import opened Common

  /** struct.pack(">L", n): most significant byte first. */
  function PackBE32(n: nat): (b: seq<byte>)
    requires n < WORD32
    ensures |b| == 4
  {
    [n / 256 / 256 / 256, n / 256 / 256 % 256, n / 256 % 256, n % 256]
  }

  /** struct.unpack(">L", b)[0]. */
  function ReadBE32(b: seq<byte>): (n: nat)
    requires |b| == 4
    ensures n < WORD32
  {
    ((b[0] as int * 256 + b[1]) * 256 + b[2]) * 256 + b[3]
  }

  lemma BE32RoundTrip(n: nat)
    requires n < WORD32
    ensures ReadBE32(PackBE32(n)) == n
  {
  }

  /** The four bytes of a word determine it and are determined by it. */
  lemma BE32RoundTripBytes(b: seq<byte>)
    requires |b| == 4
    ensures PackBE32(ReadBE32(b)) == b
  {
    var n := ReadBE32(b);
    assert n / 256 == (b[0] as int * 256 + b[1]) * 256 + b[2];
    assert n / 256 / 256 == b[0] as int * 256 + b[1];
    assert n / 256 / 256 / 256 == b[0];
  }

  /** struct.pack("<I", n): least significant byte first. */
  function PackLE32(n: nat): (b: seq<byte>)
    requires n < WORD32
    ensures |b| == 4
  {
    [n % 256, n / 256 % 256, n / 256 / 256 % 256, n / 256 / 256 / 256]
  }

  function ReadLE32(b: seq<byte>): (n: nat)
    requires |b| == 4
    ensures n < WORD32
  {
    ((b[3] as int * 256 + b[2]) * 256 + b[1]) * 256 + b[0]
  }

  lemma LE32RoundTrip(n: nat)
    requires n < WORD32
    ensures ReadLE32(PackLE32(n)) == n
  {
  }
}
