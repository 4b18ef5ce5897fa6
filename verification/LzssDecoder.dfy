/** The decoder of bootstrap_scripts/decompress_lzss.py, on its own arrays. */
module LzssDecoder {
  import opened Bytes
  import opened Common
  import opened LzssHistory
  import opened LzssStream

  /** What the script does with its argument: it prints and returns nothing when the magic
      is missing, struct.unpack raises on a short header, and an array index past the end
      of `src` or `dst` raises IndexError. */
  datatype Result = NoMagic | StructError | IndexError | Output(dst: seq<byte>)

  const MAGIC: seq<byte> := [0x63, 0x6F, 0x6D, 0x70, 0x6C, 0x7A, 0x73, 0x73]  // "complzss"
  const HEADER: nat := 0x180

  function Spaces(n: nat): (s: seq<byte>)
    ensures |s| == n
  {
    seq(n, _ => SPACE)
  }

  /** data[lo:hi], with the bounds cut to the data. */
  function Slice(data: seq<byte>, lo: nat, hi: nat): seq<byte>
    requires lo <= hi
  {
    data[Min(lo, |data|)..Min(hi, |data|)]
  }

  predicate HasMagic(data: seq<byte>) {
    Slice(data, 0, 8) == MAGIC
  }

  predicate HasHeader(data: seq<byte>) {
    HasMagic(data) && 20 <= |data|
  }

  function DecompressedSize(data: seq<byte>): nat
    requires HasHeader(data)
  {
    ReadBE32(data[12..16])
  }

  function CompressedSize(data: seq<byte>): nat
    requires HasHeader(data)
  {
    ReadBE32(data[16..20])
  }

  /** The part of the data that the decoder reads as its stream. */
  function Stream(data: seq<byte>): seq<byte>
    requires HasHeader(data)
  {
    Slice(data, HEADER, HEADER + CompressedSize(data))
  }

  lemma StreamIsPrefix(data: seq<byte>)
    requires HasHeader(data)
    ensures var src := Slice(data, HEADER, |data| + HEADER);
            Stream(data) == src[..Min(CompressedSize(data), |src|)]
  {
    if HEADER <= |data| {
      assert Slice(data, HEADER, |data| + HEADER) == data[HEADER..];
    } else {
      assert Slice(data, HEADER, |data| + HEADER) == [];
    }
  }

  /** The decoder in terms of the history semantics. It succeeds exactly when the announced
      stream is there and its expansion fits; what the stream does not fill stays spaces. */
  function Decompressed(data: seq<byte>): Result {
    if !HasMagic(data) then NoMagic
    else if !HasHeader(data) then StructError
    else
      var out := Decoded(Stream(data));
      if |Stream(data)| < CompressedSize(data) || DecompressedSize(data) < |out| then IndexError
      else Output(out + Spaces(DecompressedSize(data) - |out|))
  }

  // ----- The flag register -----
  // On values below 0x10000, c | 0xFF00 is c + 0xFF00 for a byte c, `flags >> 1` is a division
  // by 2, and the tests `flags & 0x100` and `flags & 1` look at bits 8 and 0.

  /** The register `k` shifts after a reload with flag byte `c`. */
  function Register(c: byte, k: nat): nat {
    if k == 0 then c + 0xFF00 else Register(c, k - 1) / 2
  }

  /** The flag byte without its `k` low bits. */
  function BitsFrom(c: byte, k: nat): nat {
    if k == 0 then c else BitsFrom(c, k - 1) / 2
  }

  /** Bit `k` of a flag byte. */
  predicate Bit(c: byte, k: nat) {
    BitsFrom(c, k) % 2 == 1
  }

  /** What `k` shifts leave of the marker 0xFF00, above and below bit 8. */
  function MarkerHigh(k: nat): nat
    requires k <= 8
  {
    [255, 127, 63, 31, 15, 7, 3, 1, 0][k]
  }

  function MarkerLow(k: nat): nat
    requires k <= 8
  {
    [0, 128, 192, 224, 240, 248, 252, 254, 255][k]
  }

  lemma {:induction false} RegisterParts(c: byte, k: nat)
    requires k <= 8
    ensures Register(c, k) == 256 * MarkerHigh(k) + MarkerLow(k) + BitsFrom(c, k)
    ensures BitsFrom(c, k) + MarkerLow(k) < 256
  {
    if k > 0 {
      RegisterParts(c, k - 1);
    }
  }

  /** The marker lasts for exactly eight decisions, and decision `k` is bit `k` of the flag
      byte: the register refines the pair of the byte and a counter. */
  lemma RegisterDecidesEight(c: byte, k: nat)
    requires k <= 8
    ensures Register(c, k) / 0x100 % 2 == 0 <==> k == 8
    ensures k < 8 ==> (Register(c, k) % 2 != 0 <==> Bit(c, k))
  {
    RegisterParts(c, k);
    assert Register(c, k) / 0x100 == MarkerHigh(k);
    assert k < 8 ==> MarkerLow(k) % 2 == 0;
  }

  /** The register at the head of the loop, before its shift: `used` of the eight decisions
      of flag byte `c` are made. The initial 0 counts as a byte that is used up. */
  predicate RegisterAt(flags: nat, c: byte, used: nat) {
    used <= 8 && (if used == 8 then flags / 2 / 0x100 % 2 == 0 else flags / 2 == Register(c, used))
  }

  lemma RegisterNext(c: byte, used: nat)
    requires used < 8
    ensures RegisterAt(Register(c, used), c, used + 1)
  {
    RegisterDecidesEight(c, used + 1);
  }

  lemma RegisterReload(flags: nat, c: byte, used: nat)
    requires RegisterAt(flags, c, used)
    ensures flags / 2 / 0x100 % 2 == 0 <==> used == 8
    ensures used < 8 ==> flags / 2 == Register(c, used)
  {
    if used < 8 {
      RegisterDecidesEight(c, used);
    }
  }

  // ----- The decoder: an index masked with N - 1 is an index modulo N -----

  /** One byte of output: into `dst` and into the ring. Fails when `dst` is full. */
  method Emit(dst: array<byte>, ring: array<byte>, dstidx: nat, r: nat, c: byte)
    returns (ok: bool, dstidx': nat, r': nat)
    requires dst != ring && dstidx <= dst.Length
    requires RingHolds(ring[..], dst[..dstidx]) && r == Slot(dstidx)
    modifies dst, ring
    ensures ok <==> dstidx < dst.Length
    ensures !ok ==> dstidx' == dstidx
    ensures ok ==> dstidx' == dstidx + 1 && dst[..dstidx'] == old(dst[..dstidx]) + [c]
    ensures ok ==> forall x :: dstidx' <= x < dst.Length ==> dst[x] == old(dst[x])
    ensures ok ==> RingHolds(ring[..], dst[..dstidx']) && r' == Slot(dstidx')
  {
    if dstidx >= dst.Length {
      return false, dstidx, r;
    }
    ghost var h := dst[..dstidx];
    RingStep(ring[..], h, c);
    SlotStep(dstidx);
    dst[dstidx] := c;
    ring[r] := c;
    assert dst[..dstidx + 1] == h + [c];
    ok, dstidx', r' := true, dstidx + 1, (r + 1) % N;
  }

  /** The copy loop of a match. */
  method CopyMatch(dst: array<byte>, ring: array<byte>, dstidx: nat, r: nat, pos: nat, len: nat)
    returns (ok: bool, dstidx': nat, r': nat)
    requires dst != ring && dstidx <= dst.Length && pos < N && len <= F
    requires RingHolds(ring[..], dst[..dstidx]) && r == Slot(dstidx)
    modifies dst, ring
    ensures ok <==> dstidx + len <= dst.Length
    ensures dstidx' <= dst.Length
    ensures ok ==> dstidx' == dstidx + len
    ensures ok ==> dst[..dstidx'] == CopyBack(old(dst[..dstidx]), Distance(dstidx, pos), len)
    ensures ok ==> forall x :: dstidx' <= x < dst.Length ==> dst[x] == old(dst[x])
    ensures ok ==> RingHolds(ring[..], dst[..dstidx']) && r' == Slot(dstidx')
  {
    assert N <= ring.Length;
    hide RingHolds;
    ghost var d := Distance(dstidx, pos);
    ghost var h := dst[..dstidx];
    dstidx', r' := dstidx, r;
    var k := 0;
    while k < len
      invariant k <= len && dstidx' == dstidx + k <= dst.Length
      invariant RingHolds(ring[..], dst[..dstidx']) && r' == Slot(dstidx')
      invariant CopyBack(dst[..dstidx'], d, len - k) == CopyBack(h, d, len)
      invariant forall x :: dstidx' <= x < dst.Length ==> dst[x] == old(dst[x])
    {
      RingReadIsCopyBack(ring[..], dst[..dstidx'], dstidx, pos, k);
      var c := ring[(pos + k) % N];
      ok, dstidx', r' := Emit(dst, ring, dstidx', r', c);
      if !ok {
        return;
      }
      k := k + 1;
    }
    ok := true;
  }

  // ----- One turn of the main loop, in terms of what the rest of the stream expands to -----

  /** What the rest of the stream makes of the output `h`. */
  function Rest(h: seq<byte>, stream: seq<byte>, i: nat, c: byte, used: nat): (r: seq<byte>)
    requires i <= |stream| && used <= 8
    ensures h <= r
  {
    Expand(h, Tokens(stream[i..], BitsFrom(c, used), 8 - used))
  }

  lemma ReloadTurn(h: seq<byte>, stream: seq<byte>, i: nat, c: byte)
    requires i < |stream|
    ensures Rest(h, stream, i, c, 8) == Rest(h, stream, i + 1, stream[i], 0)
  {
    assert stream[i..][1..] == stream[i + 1..];
  }

  lemma LiteralTurn(h: seq<byte>, stream: seq<byte>, i: nat, c: byte, used: nat)
    requires i < |stream| && used < 8 && Bit(c, used)
    ensures Rest(h, stream, i, c, used) == Rest(h + [stream[i]], stream, i + 1, c, used + 1)
  {
    assert stream[i..][1..] == stream[i + 1..];
    var ts := Tokens(stream[i..], BitsFrom(c, used), 8 - used);
    var rest := Tokens(stream[i + 1..], BitsFrom(c, used + 1), 7 - used);
    assert ts == [Literal(stream[i])] + rest && ts[1..] == rest;
  }

  lemma MatchTurn(h: seq<byte>, stream: seq<byte>, i: nat, c: byte, used: nat)
    requires i + 1 < |stream| && used < 8 && !Bit(c, used)
    ensures var pos, len := MatchPos(stream[i], stream[i + 1]), MatchLen(stream[i + 1]);
            Rest(h, stream, i, c, used)
            == Rest(CopyBack(h, Distance(|h|, pos), len), stream, i + 2, c, used + 1)
  {
    assert stream[i..][2..] == stream[i + 2..];
    var ts := Tokens(stream[i..], BitsFrom(c, used), 8 - used);
    var rest := Tokens(stream[i + 2..], BitsFrom(c, used + 1), 7 - used);
    var t := Match(MatchPos(stream[i], stream[i + 1]), MatchLen(stream[i + 1]));
    assert ts == [t] + rest && ts[1..] == rest;
  }

  /** Nothing more comes out of an exhausted stream, nor out of half a match. */
  lemma LastTurn(h: seq<byte>, stream: seq<byte>, i: nat, c: byte, used: nat)
    requires i <= |stream| && used <= 8
    requires i == |stream| || (i + 1 == |stream| && used < 8 && !Bit(c, used))
    ensures Rest(h, stream, i, c, used) == h
  {
  }

  method DecompressLzss(data: seq<byte>) returns (result: Result)
    ensures result == Decompressed(data)
  {
    if Slice(data, 0, 8) != MAGIC {
      return NoMagic;
    }
    if |data| < 16 {
      return StructError;
    }
    var decompsize := ReadBE32(data[12..16]);
    var ring := new byte[N + F - 1](_ => SPACE);
    var src := Slice(data, HEADER, |data| + HEADER);
    if |data| < 20 {
      return StructError;
    }
    var srclen := ReadBE32(data[16..20]);
    var dst := new byte[decompsize](_ => SPACE);
    var dstidx, complete := Decode(src, srclen, dst, ring);
    StreamIsPrefix(data);
    if !complete {
      return IndexError;
    }
    assert dst[..] == dst[..dstidx] + dst[dstidx..];
    return Output(dst[..]);
  }

  /** How a turn of the loop ends: go on, `break`, or an IndexError. */
  datatype Turn = Next | Break | Raise

  /** A literal: the branch taken when the low bit of the register is set. */
  method TakeLiteral(src: seq<byte>, srclen: nat, dst: array<byte>, ring: array<byte>,
                     srcidx: nat, dstidx: nat, r: nat, ghost c: byte, ghost used: nat)
    returns (turn: Turn, srcidx': nat, dstidx': nat, r': nat)
    requires dst != ring && srcidx <= Min(srclen, |src|) && dstidx <= dst.Length
    requires RingHolds(ring[..], dst[..dstidx]) && r == Slot(dstidx)
    requires used < 8 && Bit(c, used)
    modifies dst, ring
    ensures var stream := src[..Min(srclen, |src|)];
            var all := Rest(old(dst[..dstidx]), stream, srcidx, c, used);
            match turn
            case Next => && srcidx < srcidx' <= |stream| && dstidx <= dstidx' <= dst.Length
                         && Rest(dst[..dstidx'], stream, srcidx', c, used + 1) == all
            case Break => srcidx == srclen && dstidx' == dstidx && all == dst[..dstidx']
            case Raise => |src| < srclen || dst.Length < |all|
    ensures turn.Next? ==> RingHolds(ring[..], dst[..dstidx']) && r' == Slot(dstidx')
    ensures !turn.Raise? ==> forall x :: dstidx' <= x < dst.Length ==> dst[x] == old(dst[x])
  {
    srcidx', dstidx', r' := srcidx, dstidx, r;
    ghost var stream := src[..Min(srclen, |src|)];
    if srcidx >= srclen {
      LastTurn(dst[..dstidx], stream, srcidx, c, used);
      return Break, srcidx', dstidx', r';
    }
    if srcidx >= |src| {
      return Raise, srcidx', dstidx', r';
    }
    LiteralTurn(dst[..dstidx], stream, srcidx, c, used);
    srcidx' := srcidx + 1;
    var ok;
    ok, dstidx', r' := Emit(dst, ring, dstidx, r, src[srcidx]);
    turn := if ok then Next else Raise;
  }

  /** A match: two more bytes, either of which may be missing, and the copy loop. */
  method TakeMatch(src: seq<byte>, srclen: nat, dst: array<byte>, ring: array<byte>,
                   srcidx: nat, dstidx: nat, r: nat, ghost c: byte, ghost used: nat)
    returns (turn: Turn, srcidx': nat, dstidx': nat, r': nat)
    requires dst != ring && srcidx <= Min(srclen, |src|) && dstidx <= dst.Length
    requires RingHolds(ring[..], dst[..dstidx]) && r == Slot(dstidx)
    requires used < 8 && !Bit(c, used)
    modifies dst, ring
    ensures var stream := src[..Min(srclen, |src|)];
            var all := Rest(old(dst[..dstidx]), stream, srcidx, c, used);
            match turn
            case Next => && srcidx < srcidx' <= |stream| && dstidx <= dstidx' <= dst.Length
                         && Rest(dst[..dstidx'], stream, srcidx', c, used + 1) == all
            case Break => srcidx' == srclen <= |src| && dstidx' == dstidx && all == dst[..dstidx']
            case Raise => |src| < srclen || dst.Length < |all|
    ensures turn.Next? ==> RingHolds(ring[..], dst[..dstidx']) && r' == Slot(dstidx')
    ensures !turn.Raise? ==> forall x :: dstidx' <= x < dst.Length ==> dst[x] == old(dst[x])
  {
    srcidx', dstidx', r' := srcidx, dstidx, r;
    ghost var stream := src[..Min(srclen, |src|)];
    if srcidx >= srclen {
      LastTurn(dst[..dstidx], stream, srcidx, c, used);
      return Break, srcidx', dstidx', r';
    }
    if srcidx >= |src| {
      return Raise, srcidx', dstidx', r';
    }
    var i := src[srcidx];
    srcidx' := srcidx + 1;
    if srcidx' >= srclen {
      LastTurn(dst[..dstidx], stream, srcidx, c, used);
      return Break, srcidx', dstidx', r';
    }
    if srcidx' >= |src| {
      return Raise, srcidx', dstidx', r';
    }
    var j := src[srcidx'];
    srcidx' := srcidx' + 1;
    MatchTurn(dst[..dstidx], stream, srcidx, c, used);
    var ok;
    ok, dstidx', r' := CopyMatch(dst, ring, dstidx, r, MatchPos(i, j), MatchLen(j));
    turn := if ok then Next else Raise;
  }

  /** The state at the first turn. */
  lemma LoopStarts(stream: seq<byte>, ring: seq<byte>)
    requires N <= |ring| && forall s :: 0 <= s < |ring| ==> ring[s] == SPACE
    ensures RingHolds(ring, []) && N - F == Slot(0) && RegisterAt(0, 0, 8)
    ensures Rest([], stream, 0, 0, 8) == Decoded(stream)
  {
    assert stream[0..] == stream;
  }

  lemma RegisterLoaded(c: byte)
    ensures Register(c, 0) == c + 0xFF00
  {
  }

  /** The `while True` loop: reports whether it left by a `break` or by an IndexError. */
  method Decode(src: seq<byte>, srclen: nat, dst: array<byte>, ring: array<byte>)
    returns (dstidx: nat, complete: bool)
    requires dst != ring && ring.Length == N + F - 1
    requires forall s :: 0 <= s < ring.Length ==> ring[s] == SPACE
    modifies dst, ring
    ensures complete <==> srclen <= |src| && |Decoded(src[..Min(srclen, |src|)])| <= dst.Length
    ensures complete ==> dstidx <= dst.Length && dst[..dstidx] == Decoded(src[..srclen])
    ensures complete ==> forall x :: dstidx <= x < dst.Length ==> dst[x] == old(dst[x])
  {
    hide Bit, BitsFrom, Decoded, Register, RegisterAt, Rest, RingHolds, Slot;
    LoopStarts(src[..Min(srclen, |src|)], ring[..]);
    var srcidx: nat, r: nat, flags: nat, c: byte := 0, N - F, 0, 0;
    dstidx := 0;
    ghost var stream := src[..Min(srclen, |src|)];
    ghost var used: nat := 8;
    while true
      invariant srcidx <= |stream| && dstidx <= dst.Length && used <= 8
      invariant RingHolds(ring[..], dst[..dstidx]) && r == Slot(dstidx)
      invariant RegisterAt(flags, c, used)
      invariant Rest(dst[..dstidx], stream, srcidx, c, used) == Decoded(stream)
      invariant forall x :: dstidx <= x < dst.Length ==> dst[x] == old(dst[x])
      decreases |stream| - srcidx
    {
      RegisterReload(flags, c, used);
      flags := flags / 2;
      if flags / 0x100 % 2 == 0 {
        if srcidx >= srclen {
          LastTurn(dst[..dstidx], stream, srcidx, c, used);
          return dstidx, true;
        }
        if srcidx >= |src| {
          return dstidx, false;
        }
        ReloadTurn(dst[..dstidx], stream, srcidx, c);
        c := src[srcidx];
        RegisterLoaded(c);
        srcidx := srcidx + 1;
        flags := c + 0xFF00;
        used := 0;
      }
      RegisterDecidesEight(c, used);
      RegisterNext(c, used);
      var turn;
      if flags % 2 != 0 {
        turn, srcidx, dstidx, r := TakeLiteral(src, srclen, dst, ring, srcidx, dstidx, r, c, used);
      } else {
        turn, srcidx, dstidx, r := TakeMatch(src, srclen, dst, ring, srcidx, dstidx, r, c, used);
      }
      if !turn.Next? {
        return dstidx, turn.Break?;
      }
      used := used + 1;
    }
  }
}
