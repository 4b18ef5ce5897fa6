/** Whole files: a reference encoder, the container around a stream, and the second script,
    kernelcompressedextractmonitor.py, which takes what the decoder leaves. */
module LzssContainer {
  import opened Bytes
  import opened Common
  import opened LzssHistory
  import opened LzssStream
  import opened LzssDecoder

  // ----- A reference encoder: greedy, nearest longest match first -----

  /** How many bytes of `s` from `t` on, at most `cap`, repeat the bytes `d` places back. */
  function RepeatLength(s: seq<byte>, t: nat, d: nat, cap: nat): (l: nat)
    requires t <= |s| && 1 <= d
    ensures l <= cap && t + l <= |s|
    ensures forall u :: t <= u < t + l ==> s[u] == At(s, u - d)
    decreases cap
  {
    if cap == 0 || t == |s| || s[t] != At(s, t - d) then 0
    else 1 + RepeatLength(s, t + 1, d, cap - 1)
  }

  /** The distance up to `reach` with the longest repetition. */
  function BestDistance(s: seq<byte>, t: nat, reach: nat): (d: nat)
    requires t <= |s| && 1 <= reach
    ensures 1 <= d <= reach
  {
    if reach == 1 then 1
    else
      var d := BestDistance(s, t, reach - 1);
      if RepeatLength(s, t, d, F) < RepeatLength(s, t, reach, F) then reach else d
  }

  /** The ring position that lies `d` places back. */
  function Position(t: nat, d: nat): (pos: nat)
    requires 1 <= d <= N
    ensures pos < N
  {
    (N - F + t - d) % N
  }

  lemma PositionIsAtDistance(t: nat, d: nat)
    requires 1 <= d <= N
    ensures Distance(t, Position(t, d)) == d
  {
    var x := N - F + t - d;
    assert (x + d - x % N - 1) % N == d - 1 by {
      assert x + d - x % N - 1 == N * (x / N) + (d - 1);
    }
  }

  function NextToken(s: seq<byte>, t: nat): Token
    requires t < |s|
  {
    var d := BestDistance(s, t, N);
    var l := RepeatLength(s, t, d, F);
    if l > THRESHOLD then Match(Position(t, d), l) else Literal(s[t])
  }

  function TokenLength(k: Token): nat {
    match k case Literal(_) => 1 case Match(_, len) => len
  }

  function Encode(s: seq<byte>, t: nat): seq<Token>
    requires t <= |s|
    decreases |s| - t
  {
    if t == |s| then []
    else
      var k := NextToken(s, t);
      [k] + Encode(s, t + TokenLength(k))
  }

  lemma {:induction false} CopyBackReproduces(s: seq<byte>, t: nat, d: nat, l: nat)
    requires 1 <= d && t + l <= |s|
    requires forall u :: t <= u < t + l ==> s[u] == At(s, u - d)
    ensures CopyBack(s[..t], d, l) == s[..t + l]
    decreases l
  {
    if l > 0 {
      assert At(s[..t], t - d) == At(s, t - d) == s[t];
      assert s[..t] + [s[t]] == s[..t + 1];
      CopyBackReproduces(s, t + 1, d, l - 1);
    }
  }

  lemma NextTokenReproduces(s: seq<byte>, t: nat)
    requires t < |s|
    ensures Legal(NextToken(s, t)) && t + TokenLength(NextToken(s, t)) <= |s|
    ensures Apply(s[..t], NextToken(s, t)) == s[..t + TokenLength(NextToken(s, t))]
  {
    hide BestDistance, RepeatLength, Position, Distance, CopyBack;
    var d := BestDistance(s, t, N);
    PositionIsAtDistance(t, d);
    CopyBackReproduces(s, t, d, RepeatLength(s, t, d, F));
    assert s[..t] + [s[t]] == s[..t + 1];
  }

  lemma ExpandStep(h: seq<byte>, k: Token, rest: seq<Token>)
    ensures Expand(h, [k] + rest) == Expand(Apply(h, k), rest)
    ensures Legal(k) && AllLegal(rest) ==> AllLegal([k] + rest)
  {
    assert ([k] + rest)[1..] == rest;
  }

  lemma ExpandNothing(h: seq<byte>)
    ensures Expand(h, []) == h && AllLegal([])
  {
  }

  /** The encoder's tokens are legal and mean exactly the text, for every text. */
  lemma {:induction false} EncodeExpands(s: seq<byte>, t: nat)
    requires t <= |s|
    ensures AllLegal(Encode(s, t))
    ensures Expand(s[..t], Encode(s, t)) == s
    decreases |s| - t
  {
    hide NextToken, Apply, Expand, AllLegal;
    if t == |s| {
      assert s[..t] == s;
      ExpandNothing(s);
    } else {
      NextTokenReproduces(s, t);
      var k := NextToken(s, t);
      var t' := t + TokenLength(k);
      EncodeExpands(s, t');
      ExpandStep(s[..t], k, Encode(s, t'));
    }
  }

  // ----- The size of an encoding -----

  function TextLength(ts: seq<Token>): nat {
    if ts == [] then 0 else TokenLength(ts[0]) + TextLength(ts[1..])
  }

  lemma {:induction false} ExpandLength(h: seq<byte>, ts: seq<Token>)
    ensures |Expand(h, ts)| == |h| + TextLength(ts)
    decreases |ts|
  {
    if ts != [] {
      ExpandLength(Apply(h, ts[0]), ts[1..]);
    }
  }

  lemma {:induction false} BodiesAreShort(g: seq<Token>)
    requires AllLegal(g)
    ensures |g| <= TextLength(g) && |Bodies(g)| <= TextLength(g)
    decreases |g|
  {
    if g != [] {
      assert Legal(g[0]);
      BodiesAreShort(g[1..]);
    }
  }

  lemma {:induction false} TextLengthSplit(a: seq<Token>, b: seq<Token>)
    ensures TextLength(a + b) == TextLength(a) + TextLength(b)
    decreases |a|
  {
    if a == [] {
      assert a + b == b;
    } else {
      assert (a + b)[1..] == a[1..] + b;
      TextLengthSplit(a[1..], b);
    }
  }

  /** A legal encoding is longer than its text by at most one flag byte for eight. */
  lemma {:induction false} SerializedSize(ts: seq<Token>)
    requires AllLegal(ts)
    ensures 8 * |Serialize(ts)| <= 9 * TextLength(ts) + 7
    decreases |ts|
  {
    if ts != [] {
      var n := Min(8, |ts|);
      BodiesAreShort(ts[..n]);
      TextLengthSplit(ts[..n], ts[n..]);
      assert ts == ts[..n] + ts[n..];
      SerializedSize(ts[n..]);
    }
  }

  // ----- The container -----

  /** A container: magic, checksum, the two sizes, padding up to 0x180, the stream, and
      whatever follows it. */
  function Package(adler: seq<byte>, size: nat, pad: seq<byte>, stream: seq<byte>, tail: seq<byte>)
    : seq<byte>
    requires |adler| == 4 && |pad| == HEADER - 20 && size < WORD32 && |stream| < WORD32
  {
    MAGIC + adler + PackBE32(size) + PackBE32(|stream|) + pad + stream + tail
  }

  lemma PackageLayout(adler: seq<byte>, size: nat, pad: seq<byte>, stream: seq<byte>, tail: seq<byte>)
    requires |adler| == 4 && |pad| == HEADER - 20 && size < WORD32 && |stream| < WORD32
    ensures var data := Package(adler, size, pad, stream, tail);
            && HasHeader(data)
            && DecompressedSize(data) == size && CompressedSize(data) == |stream|
            && |data| == HEADER + |stream| + |tail|
            && Stream(data) == stream
            && data[HEADER + |stream|..] == tail
  {
    var data := Package(adler, size, pad, stream, tail);
    assert data[..8] == MAGIC;
    assert data[12..16] == PackBE32(size);
    assert data[16..20] == PackBE32(|stream|);
    BE32RoundTrip(size);
    BE32RoundTrip(|stream|);
    assert data[HEADER..HEADER + |stream|] == stream;
    assert data[HEADER + |stream|..] == tail;
  }

  /** decode() of kernelcompressedextractmonitor.py: it prints an error and returns an empty
      string without the magic; struct.unpack raises on a short header. */
  datatype MonitorResult = MonitorStructError | Monitor(bytes: seq<byte>)

  function ExtractMonitor(data: seq<byte>): MonitorResult {
    if !HasMagic(data) then Monitor([])
    else if !HasHeader(data) then MonitorStructError
    else
      var end := CompressedSize(data) + HEADER;
      Monitor(data[Min(end, |data|)..])
  }

  // ----- Main results -----

  /** Decompression inverts every legal encoding of every text, wherever the text came from
      and whatever surrounds the stream, and the other script returns the rest. */
  lemma {:induction false} RoundTrip(s: seq<byte>, ts: seq<Token>, adler: seq<byte>, pad: seq<byte>, tail: seq<byte>)
    requires AllLegal(ts) && Expand([], ts) == s
    requires |adler| == 4 && |pad| == HEADER - 20
    requires |s| < WORD32 && |Serialize(ts)| < WORD32
    ensures var data := Package(adler, |s|, pad, Serialize(ts), tail);
            Decompressed(data) == Output(s) && ExtractMonitor(data) == Monitor(tail)
  {
    var data := Package(adler, |s|, pad, Serialize(ts), tail);
    PackageLayout(adler, |s|, pad, Serialize(ts), tail);
    SerializeRoundTrip(ts);
    assert s + Spaces(0) == s;
  }

  /** A legal encoding exists for every text, so every text has a container. */
  lemma {:induction false} EveryTextHasAContainer(s: seq<byte>, adler: seq<byte>, pad: seq<byte>, tail: seq<byte>)
    requires |adler| == 4 && |pad| == HEADER - 20
    requires 9 * |s| + 7 < 8 * WORD32
    ensures AllLegal(Encode(s, 0)) && |Serialize(Encode(s, 0))| < WORD32
    ensures Decompressed(Package(adler, |s|, pad, Serialize(Encode(s, 0)), tail)) == Output(s)
  {
    var ts := Encode(s, 0);
    EncodeExpands(s, 0);
    assert s[..0] == [];
    ExpandLength([], ts);
    SerializedSize(ts);
    RoundTrip(s, ts, adler, pad, tail);
  }

  /** The two scripts partition the file. The decoder sees the header and the announced
      stream and nothing else: replacing the rest changes nothing. The extractor returns
      exactly the rest. */
  lemma {:induction false} ScriptsPartitionTheFile(data: seq<byte>, other: seq<byte>)
    requires HasHeader(data) && HEADER + CompressedSize(data) <= |data|
    ensures var head := data[..HEADER + CompressedSize(data)];
            && Decompressed(head + other) == Decompressed(data)
            && ExtractMonitor(head + other) == Monitor(other)
            && Monitor(data[|head|..]) == ExtractMonitor(data)
  {
    var end := HEADER + CompressedSize(data);
    var data' := data[..end] + other;
    assert data'[..8] == data[..8] && data'[12..16] == data[12..16] && data'[16..20] == data[16..20];
    assert data'[HEADER..end] == data[HEADER..end];
    assert data'[end..] == other;
  }

  /** A file of twenty bytes that announces an empty stream decodes, to spaces. */
  lemma EmptyStreamInShortFile(adler: seq<byte>, size: nat)
    requires |adler| == 4 && size < WORD32
    ensures var data := MAGIC + adler + PackBE32(size) + PackBE32(0);
            |data| == 20 < HEADER && Decompressed(data) == Output(Spaces(size))
  {
    var data := MAGIC + adler + PackBE32(size) + PackBE32(0);
    assert data[..8] == MAGIC;
    assert data[12..16] == PackBE32(size) && data[16..20] == PackBE32(0);
    BE32RoundTrip(size);
    BE32RoundTrip(0);
    assert Stream(data) == [];
    assert [] + Spaces(size) == Spaces(size);
  }

  /** Exactly when the decoder returns bytes: the announced stream is all there (an empty one
      always is, even in a file shorter than its header) and what it means fits the announced
      size. A stream cut short is never passed off as a result. */
  lemma DecodesExactlyWhen(data: seq<byte>)
    ensures Decompressed(data).Output? <==>
            && HasHeader(data)
            && (CompressedSize(data) == 0 || HEADER + CompressedSize(data) <= |data|)
            && |Decoded(Stream(data))| <= DecompressedSize(data)
  {
  }
}
