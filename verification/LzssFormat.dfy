/** The LZSS container in plain numbers. The statements here name no constant of the decoder:
    where the stream starts, how sizes and tokens are written, which byte stands for the time
    before the start, and what the ring's positions mean. */
module LzssFormat {
  import opened Bytes
  import opened Common
  import opened LzssHistory
  import opened LzssStream
  import opened LzssDecoder
  import opened LzssContainer

  /** Four bytes as a number, most significant first. */
  function Number(b: seq<byte>): nat
    requires |b| == 4
  {
    b[0] as int * 0x100_0000 + b[1] as int * 0x1_0000 + b[2] as int * 0x100 + b[3]
  }

  /** "complzss", a checksum, the two sizes, 364 bytes, and then, from byte 384 on, the rest. */
  function File(adler: seq<byte>, size: seq<byte>, length: seq<byte>, pad: seq<byte>, rest: seq<byte>): seq<byte> {
    [0x63, 0x6F, 0x6D, 0x70, 0x6C, 0x7A, 0x73, 0x73] + adler + size + length + pad + rest
  }

  lemma FileLayout(adler: seq<byte>, size: seq<byte>, length: seq<byte>, pad: seq<byte>, rest: seq<byte>)
    requires |adler| == |size| == |length| == 4 && |pad| == 364
    ensures var data := File(adler, size, length, pad, rest);
            && HasHeader(data) && |data| == 384 + |rest| && data[384..] == rest
            && DecompressedSize(data) == Number(size) && CompressedSize(data) == Number(length)
            && Stream(data) == rest[..Min(Number(length), |rest|)]
  {
    hide PackBE32;
    var data := File(adler, size, length, pad, rest);
    assert data[..8] == [0x63, 0x6F, 0x6D, 0x70, 0x6C, 0x7A, 0x73, 0x73];
    assert data[12..16] == size && data[16..20] == length;
    assert data[384..] == rest;
  }

  /** What a file decodes to, and what the other script cuts off. The output has the
      announced size: first what the stream means, then blanks. */
  lemma FileDecodes(adler: seq<byte>, size: seq<byte>, length: seq<byte>, pad: seq<byte>,
                    stream: seq<byte>, tail: seq<byte>)
    requires |adler| == |size| == |length| == 4 && |pad| == 364 && |stream| == Number(length)
    ensures var data := File(adler, size, length, pad, stream + tail);
            var text := Decoded(stream);
            && ExtractMonitor(data) == Monitor(tail) == Monitor(data[384 + |stream|..])
            && (Number(size) < |text| ==> Decompressed(data) == IndexError)
            && (|text| <= Number(size) ==>
                  && Decompressed(data).Output?
                  && var dst := Decompressed(data).dst;
                     && |dst| == Number(size) && dst[..|text|] == text
                     && forall x :: |text| <= x < |dst| ==> dst[x] == 0x20)
  {
    var rest := stream + tail;
    FileLayout(adler, size, length, pad, rest);
    var data := File(adler, size, length, pad, rest);
    assert rest[..|stream|] == stream && rest[|stream|..] == tail;
    assert data[384 + |stream|..] == data[384..][|stream|..];
    hide Decoded, File, HasHeader, Stream;
  }

  /** A stream that is cut short is an error, and leaves nothing for the other script. */
  lemma CutFileFails(adler: seq<byte>, size: seq<byte>, length: seq<byte>, pad: seq<byte>, stream: seq<byte>)
    requires |adler| == |size| == |length| == 4 && |pad| == 364 && |stream| < Number(length)
    ensures var data := File(adler, size, length, pad, stream);
            Decompressed(data) == IndexError && ExtractMonitor(data) == Monitor([])
  {
    FileLayout(adler, size, length, pad, stream);
    assert stream[..|stream|] == stream;
    hide Decoded, File, HasHeader, Stream;
  }

  /** Files without the magic, and files that end before the second size. */
  lemma ShortFiles(data: seq<byte>)
    ensures !([0x63, 0x6F, 0x6D, 0x70, 0x6C, 0x7A, 0x73, 0x73] <= data) ==>
              Decompressed(data) == NoMagic && ExtractMonitor(data) == Monitor([])
    ensures [0x63, 0x6F, 0x6D, 0x70, 0x6C, 0x7A, 0x73, 0x73] <= data && |data| < 20 ==>
              Decompressed(data) == StructError && ExtractMonitor(data) == MonitorStructError
  {
    hide Decoded;
    assert 8 <= |data| ==> Slice(data, 0, 8) == data[..8];
  }

  // ----- Copies -----

  /** Byte `k` of a match with ring position `pos`: the decoder has put output byte `u` into
      slot (4078 + u) mod 4096, and slot pos + k still holds the youngest one, at most 4096
      back. Before the first byte there are blanks. */
  lemma MatchReadsTheRing(h: seq<byte>, pos: nat, len: nat, k: nat, u: int)
    requires k < len
    requires |h| + k - 4096 <= u < |h| + k && (4078 + u) % 4096 == (pos + k) % 4096
    ensures var r := Apply(h, Match(pos, len));
            && |r| == |h| + len && h <= r
            && r[|h| + k] == if u < 0 then 0x20 else r[u]
  {
    CopyBackIsPeriodic(h, Distance(|h|, pos), len, |h| + k);
    DistanceOf(|h|, pos, k, u);
  }

  lemma DistanceOf(t: nat, pos: nat, k: nat, u: int)
    requires t + k - 4096 <= u < t + k && (4078 + u) % 4096 == (pos + k) % 4096
    ensures t + k - u == Distance(t, pos)
  {
    var d := t + k - u;
    assert (4078 + u - (pos + k)) % 4096 == 0;
    var x := 4078 + t - pos - 1;
    assert x == (4078 + u - (pos + k)) + (d - 1);
    assert x % 4096 == d - 1;
  }

  // ----- Tokens in bytes -----

  /** The low byte and the high nibble make the position, the low nibble the length. */
  lemma MatchInBytes(pos: nat, len: nat)
    requires pos < 4096 && 3 <= len <= 18
    ensures Body(Match(pos, len)) == [pos % 256, pos / 256 * 16 + (len - 3)]
    ensures MatchPos(pos % 256, pos / 256 * 16 + (len - 3)) == pos
    ensures MatchLen(pos / 256 * 16 + (len - 3)) == len
  {
  }

  const BITS: seq<nat> := [1, 2, 4, 8, 16, 32, 64, 128]

  lemma HalfOfBits(bits: nat, k: nat)
    requires k < 7
    ensures bits / 2 / BITS[k] == bits / BITS[k + 1]
  {
  }

  /** A flag byte decides its tokens from bit 0 upwards, 1 for a literal; bits beyond the last
      token do not matter. */
  lemma {:induction false} FlagDecides(g: seq<Token>, bits: nat, left: nat)
    requires AllLegal(g) && |g| <= left <= 8
    requires forall k :: 0 <= k < |g| ==> (bits / BITS[k] % 2 == 1 <==> g[k].Literal?)
    ensures Tokens(Bodies(g), bits, left) == g
    decreases |g|
  {
    if g != [] {
      hide Tokens, Body, Legal;
      forall k | 0 <= k < |g| - 1
        ensures bits / 2 / BITS[k] % 2 == 1 <==> g[1..][k].Literal?
      {
        HalfOfBits(bits, k);
      }
      FlagDecides(g[1..], bits / 2, left - 1);
      assert bits / BITS[0] == bits;
      TokenRoundTrip(g[0], Bodies(g[1..]), bits, left);
      assert g == [g[0]] + g[1..];
    }
  }

  /** A stream of one group, in bytes. */
  lemma GroupDecodes(flags: byte, g: seq<Token>)
    requires AllLegal(g) && |g| <= 8
    requires forall k :: 0 <= k < |g| ==> (flags / BITS[k] % 2 == 1 <==> g[k].Literal?)
    ensures Parse([flags] + Bodies(g)) == g
  {
    FlagDecides(g, flags, 8);
    assert ([flags] + Bodies(g))[1..] == Bodies(g);
  }

  /** The shortest streams: a literal; a match before anything was put out; a match and a
      literal in either order. */
  lemma ShortStreams(a: byte, i: byte, j: byte)
    ensures Decoded([0x01, a]) == [a]
    ensures |Decoded([0x00, i, j])| == j % 16 + 3
    ensures forall x :: 0 <= x < j % 16 + 3 ==> Decoded([0x00, i, j])[x] == 0x20
    ensures Parse([0x01, a, i, j]) == [Literal(a), Match(j / 16 * 256 + i, j % 16 + 3)]
    ensures Parse([0x02, i, j, a]) == [Match(j / 16 * 256 + i, j % 16 + 3), Literal(a)]
  {
    var m := Match(j / 16 * 256 + i, j % 16 + 3);
    MatchInBytes(m.pos, m.len);
    assert Body(m) == [i, j];
    OneOrTwo(Literal(a), m, a, i, j);
    GroupDecodes(0x01, [Literal(a)]);
    GroupDecodes(0x00, [m]);
    GroupDecodes(0x01, [Literal(a), m]);
    GroupDecodes(0x02, [m, Literal(a)]);
    BlankStart(m);
    assert [Literal(a)][1..] == [] && Expand([] + [a], []) == [a];
  }

  lemma OneOrTwo(l: Token, m: Token, a: byte, i: byte, j: byte)
    requires Legal(m) && l == Literal(a) && m.Match? && Body(m) == [i, j]
    ensures Bodies([l]) == [a] && Bodies([m]) == [i, j]
    ensures Bodies([l, m]) == [a, i, j] && Bodies([m, l]) == [i, j, a]
  {
    assert [l, m][1..] == [m] && [m, l][1..] == [l] && [l][1..] == [] && [m][1..] == [];
  }

  /** Whatever a first match copies is blank. */
  lemma BlankStart(m: Token)
    requires Legal(m) && m.Match?
    ensures |Expand([], [m])| == m.len
    ensures forall x :: 0 <= x < m.len ==> Expand([], [m])[x] == 0x20
  {
    var r := CopyBack([], Distance(0, m.pos), m.len);
    assert Expand([], [m]) == r by {
      assert [m][1..] == [];
    }
    forall x: nat | x < m.len
      ensures r[x] == 0x20
    {
      BlankCopy(Distance(0, m.pos), m.len, x);
    }
  }

  lemma {:induction false} BlankCopy(d: nat, len: nat, x: nat)
    requires 1 <= d && x < len
    ensures CopyBack([], d, len)[x] == 0x20
    decreases x
  {
    CopyBackIsPeriodic([], d, len, x);
    if d <= x {
      BlankCopy(d, len, x - d);
    }
  }
}
