/** The byte stream: groups of one flag byte and eight tokens. */
module LzssStream {
  import opened Bytes
  import opened Common
  import opened LzssHistory

  /** i | ((j & 0xF0) << 4): the two operands have no bit in common. */
  function MatchPos(i: byte, j: byte): (p: nat)
    ensures p < N
  {
    i + j / 16 * 256
  }

  /** The number of bytes copied: (j & 0x0F) + THRESHOLD + 1. */
  function MatchLen(j: byte): (l: nat)
    ensures THRESHOLD < l <= F
  {
    j % 16 + THRESHOLD + 1
  }

  /** The tokens of `src` when `left` decisions of the current flag byte remain, taken from
      the low end of `bits`: 1 announces a literal, 0 a two-byte match. A stream may stop
      anywhere, also between the two bytes of a match. */
  function Tokens(src: seq<byte>, bits: nat, left: nat): seq<Token>
    decreases |src|
  {
    if src == [] then []
    else if left == 0 then Tokens(src[1..], src[0], 8)
    else if bits % 2 == 1 then [Literal(src[0])] + Tokens(src[1..], bits / 2, left - 1)
    else if |src| == 1 then []
    else [Match(MatchPos(src[0], src[1]), MatchLen(src[1]))] + Tokens(src[2..], bits / 2, left - 1)
  }

  /** The tokens of a whole stream: the first byte read is a flag byte. */
  function Parse(src: seq<byte>): seq<Token> {
    Tokens(src, 0, 0)
  }

  /** The bytes that a stream stands for. */
  function Decoded(src: seq<byte>): seq<byte> {
    Expand([], Parse(src))
  }

  lemma {:induction false} TokensAreLegal(src: seq<byte>, bits: nat, left: nat)
    ensures AllLegal(Tokens(src, bits, left))
    decreases |src|
  {
    if src == [] {
    } else if left == 0 {
      TokensAreLegal(src[1..], src[0], 8);
    } else if bits % 2 == 1 {
      TokensAreLegal(src[1..], bits / 2, left - 1);
    } else if |src| > 1 {
      TokensAreLegal(src[2..], bits / 2, left - 1);
    }
  }

  // ----- Cutting the stream -----

  lemma {:induction false} TokensOfPrefix(p: seq<byte>, src: seq<byte>, bits: nat, left: nat)
    requires p <= src
    ensures Tokens(p, bits, left) <= Tokens(src, bits, left)
    decreases |p|
  {
    if p == [] {
    } else if left == 0 {
      TokensOfPrefix(p[1..], src[1..], src[0], 8);
    } else if bits % 2 == 1 {
      TokensOfPrefix(p[1..], src[1..], bits / 2, left - 1);
    } else if |p| > 1 {
      TokensOfPrefix(p[2..], src[2..], bits / 2, left - 1);
    }
  }

  /** Cutting a stream at any byte, even inside a match or just after a flag byte, only
      cuts the output: what the prefix decodes to is a prefix of the whole output. */
  lemma DecodingIsPrefixMonotone(p: seq<byte>, src: seq<byte>)
    requires p <= src
    ensures Decoded(p) <= Decoded(src)
  {
    TokensOfPrefix(p, src, 0, 0);
    var a, b := Parse(p), Parse(src);
    assert b == a + b[|a|..];
    ExpandAppend([], a, b[|a|..]);
  }

  /** A stream cannot expand by more than 144 bytes for 17, a flag byte and eight matches
      of 18: `left` is the number of matches the current flag byte still pays for. */
  lemma {:induction false} ExpansionFrom(src: seq<byte>, bits: nat, left: nat, h: seq<byte>)
    requires left <= 8
    ensures 17 * (|Expand(h, Tokens(src, bits, left))| - |h|) <= 144 * |src| + 18 * left
    decreases |src|
  {
    var ts := Tokens(src, bits, left);
    if src == [] {
    } else if left == 0 {
      ExpansionFrom(src[1..], src[0], 8, h);
    } else if bits % 2 == 1 {
      assert ts[1..] == Tokens(src[1..], bits / 2, left - 1);
      ExpansionFrom(src[1..], bits / 2, left - 1, Apply(h, ts[0]));
    } else if |src| > 1 {
      assert ts[1..] == Tokens(src[2..], bits / 2, left - 1);
      ExpansionFrom(src[2..], bits / 2, left - 1, Apply(h, ts[0]));
    }
  }

  lemma ExpansionBound(src: seq<byte>)
    ensures 17 * |Decoded(src)| <= 144 * |src|
    ensures |Decoded(src)| <= 9 * |src|
  {
    ExpansionFrom(src, 0, 0, []);
  }

  // ----- Writing streams -----

  /** The flag byte of at most eight tokens: bit k is set when token k is a literal. */
  function FlagByte(g: seq<Token>): (b: byte)
    requires |g| <= 8
  {
    FlagBitsBound(g, 8);
    FlagBits(g)
  }

  function FlagBits(g: seq<Token>): nat {
    if g == [] then 0 else (if g[0].Literal? then 1 else 0) + 2 * FlagBits(g[1..])
  }

  function Pow2(k: nat): (p: nat)
    ensures p >= 1
  {
    if k == 0 then 1 else 2 * Pow2(k - 1)
  }

  lemma {:induction false} FlagBitsBound(g: seq<Token>, k: nat)
    requires |g| <= k
    ensures FlagBits(g) < Pow2(k)
    ensures Pow2(8) == 256
    decreases k
  {
    assert Pow2(4) == 16 && Pow2(8) == 16 * Pow2(4);
    if g != [] {
      FlagBitsBound(g[1..], k - 1);
    }
  }

  function Body(t: Token): seq<byte>
    requires Legal(t)
  {
    match t
    case Literal(b) => [b]
    case Match(pos, len) => [pos % 256, pos / 256 * 16 + (len - THRESHOLD - 1)]
  }

  function Bodies(g: seq<Token>): seq<byte>
    requires AllLegal(g)
  {
    if g == [] then [] else Body(g[0]) + Bodies(g[1..])
  }

  /** Groups of eight tokens, the last one possibly shorter, each behind its flag byte. */
  function Serialize(ts: seq<Token>): seq<byte>
    requires AllLegal(ts)
    decreases |ts|
  {
    if ts == [] then []
    else
      var n := Min(8, |ts|);
      [FlagByte(ts[..n])] + Bodies(ts[..n]) + Serialize(ts[n..])
  }

  lemma BodyRoundTrip(t: Token)
    requires Legal(t) && t.Match?
    ensures |Body(t)| == 2
    ensures Match(MatchPos(Body(t)[0], Body(t)[1]), MatchLen(Body(t)[1])) == t
  {
    var hi := Body(t)[1];
    assert hi / 16 == t.pos / 256 && hi % 16 == t.len - 3;
  }

  /** One token read back: its body decides it when its flag bit agrees. */
  lemma TokenRoundTrip(t: Token, tail: seq<byte>, bits: nat, left: nat)
    requires Legal(t) && 0 < left
    requires bits % 2 == 1 <==> t.Literal?
    ensures Tokens(Body(t) + tail, bits, left) == [t] + Tokens(tail, bits / 2, left - 1)
  {
    var src := Body(t) + tail;
    if t.Literal? {
      assert src[1..] == tail;
    } else {
      BodyRoundTrip(t);
      assert src[0] == Body(t)[0] && src[1] == Body(t)[1];
      assert src[2..] == tail;
    }
  }

  lemma HalveFlagBits(g: seq<Token>)
    requires g != []
    ensures FlagBits(g) / 2 == FlagBits(g[1..])
    ensures FlagBits(g) % 2 == 1 <==> g[0].Literal?
  {
  }

  /** Reading back a group: the k-th token after a reload is decided by bit k. */
  lemma {:induction false} GroupRoundTrip(g: seq<Token>, rest: seq<byte>, left: nat)
    requires AllLegal(g) && |g| <= left
    ensures Tokens(Bodies(g) + rest, FlagBits(g), left) == g + Tokens(rest, 0, left - |g|)
    decreases |g|
  {
    hide Body, Legal, Tokens;
    if g == [] {
      assert Bodies(g) + rest == rest;
    } else {
      var tail := Bodies(g[1..]) + rest;
      var after := Tokens(rest, 0, left - |g|);
      calc {
        Tokens(Bodies(g) + rest, FlagBits(g), left);
        { assert Bodies(g) + rest == Body(g[0]) + tail; }
        Tokens(Body(g[0]) + tail, FlagBits(g), left);
        { HalveFlagBits(g); TokenRoundTrip(g[0], tail, FlagBits(g), left); }
        [g[0]] + Tokens(tail, FlagBits(g[1..]), left - 1);
        { GroupRoundTrip(g[1..], rest, left - 1); }
        [g[0]] + (g[1..] + after);
        { assert [g[0]] + g[1..] == g; }
        g + after;
      }
    }
  }

  /** Every legal token sequence is exactly what the decoder reads back from its bytes. */
  lemma {:induction false} SerializeRoundTrip(ts: seq<Token>)
    requires AllLegal(ts)
    ensures Parse(Serialize(ts)) == ts
    decreases |ts|, 0
  {
    if ts != [] {
      var n := Min(8, |ts|);
      var g, rest := ts[..n], Serialize(ts[n..]);
      var src := Serialize(ts);
      assert src[1..] == Bodies(g) + rest;
      calc {
        Parse(src);
        Tokens(Bodies(g) + rest, FlagBits(g), 8);
        { GroupRoundTrip(g, rest, 8); }
        g + Tokens(rest, 0, 8 - n);
        { RestOfStream(ts[n..], 8 - n); }
        g + ts[n..];
        ts;
      }
    }
  }

  /** What follows a group: the next group, or, behind a short one, nothing. */
  lemma {:induction false} RestOfStream(ts: seq<Token>, left: nat)
    requires AllLegal(ts) && (left == 0 || ts == [])
    ensures Tokens(Serialize(ts), 0, left) == ts
    decreases |ts|, 1
  {
    if left == 0 {
      SerializeRoundTrip(ts);
    }
  }
}
