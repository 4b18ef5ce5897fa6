/** What an LZSS stream means: literals and copies from the bytes already produced.

    This is the reference semantics of bootstrap_scripts/decompress_lzss.py. There is no
    ring buffer here. A copy names a position of the decoder's ring of N bytes; it means
    "the byte `d` places back", `d` in 1..N, and the bytes before the start of the output
    are spaces. */
module LzssHistory {
  import opened Bytes
  import opened Common

  const N: nat := 4096
  const F: nat := 18
  const THRESHOLD: nat := 2
  const SPACE: byte := 0x20

  datatype Token = Literal(b: byte) | Match(pos: nat, len: nat)

  /** The tokens that two bytes (or one, for a literal) can express. */
  predicate Legal(t: Token) {
    t.Match? ==> t.pos < N && THRESHOLD < t.len <= F
  }

  predicate AllLegal(ts: seq<Token>) {
    forall i :: 0 <= i < |ts| ==> Legal(ts[i])
  }

  /** The history byte with index `u`; everything before index 0 is a space. */
  function At(h: seq<byte>, u: int): byte
    requires u < |h|
  {
    if u < 0 then SPACE else h[u]
  }

  /** How far back ring position `pos` lies once `t` bytes have been produced. */
  function Distance(t: nat, pos: nat): (d: nat)
    ensures 1 <= d <= N
  {
    (N - F + t - pos - 1) % N + 1
  }

  /** Appends `len` bytes, each equal to the one `d` places before it. When `d < len`
      the copy reads bytes that it has itself just written. */
  function CopyBack(h: seq<byte>, d: nat, len: nat): (r: seq<byte>)
    requires 1 <= d
    ensures |r| == |h| + len && h <= r
    decreases len
  {
    if len == 0 then h else CopyBack(h + [At(h, |h| - d)], d, len - 1)
  }

  function Apply(h: seq<byte>, t: Token): (r: seq<byte>)
    ensures h <= r
  {
    match t
    case Literal(b) => h + [b]
    case Match(pos, len) => CopyBack(h, Distance(|h|, pos), len)
  }

  function Expand(h: seq<byte>, ts: seq<Token>): (r: seq<byte>)
    ensures h <= r
    decreases |ts|
  {
    if ts == [] then h else Expand(Apply(h, ts[0]), ts[1..])
  }

  lemma {:induction false} ExpandAppend(h: seq<byte>, a: seq<Token>, b: seq<Token>)
    ensures Expand(h, a + b) == Expand(Expand(h, a), b)
    decreases |a|
  {
    if a == [] {
      assert a + b == b;
    } else {
      assert (a + b)[1..] == a[1..] + b;
      ExpandAppend(Apply(h, a[0]), a[1..], b);
    }
  }

  /** Every byte of a copy repeats the byte `d` places before it in the result, so a copy
      that overlaps its own source extends the pattern periodically. */
  lemma {:induction false} CopyBackIsPeriodic(h: seq<byte>, d: nat, len: nat, u: nat)
    requires 1 <= d && |h| <= u < |h| + len
    ensures CopyBack(h, d, len)[u] == At(CopyBack(h, d, len), u - d)
    decreases len
  {
    var h' := h + [At(h, |h| - d)];
    var r := CopyBack(h', d, len - 1);
    assert h' <= r;
    if u == |h| {
      assert r[u] == h'[u];
    } else {
      CopyBackIsPeriodic(h', d, len - 1, u);
    }
  }

  // ----- The ring buffer as a window on the history -----

  /** The ring slot that byte `t` of the output is stored in. */
  function Slot(t: nat): (s: nat)
    ensures s < N
  {
    (N - F + t) % N
  }

  lemma SlotStep(t: nat)
    ensures Slot(t + 1) == (Slot(t) + 1) % N
  {
  }

  /** The most recent history index below `t` that is kept in ring slot `s`. */
  function Latest(t: nat, s: nat): int {
    t - 1 - (N - F + t - 1 - s) % N
  }

  lemma LatestIsMostRecent(t: nat, s: nat, u: int)
    requires s < N && u < t && (N - F + u) % N == s
    ensures Latest(t, s) < t && (N - F + Latest(t, s)) % N == s
    ensures u <= Latest(t, s)
    ensures t - N <= Latest(t, s)
  {
  }

  /** Slot `s` of the ring holds the most recent history byte that was stored there. */
  predicate RingHolds(ring: seq<byte>, h: seq<byte>) {
    && N <= |ring|
    && forall s :: 0 <= s < N ==> ring[s] == At(h, Latest(|h|, s))
  }

  lemma LatestAfterOneByte(t: nat, s: nat)
    requires s < N
    ensures Latest(t + 1, s) == if s == Slot(t) then t else Latest(t, s)
  {
  }

  lemma RingStep(ring: seq<byte>, h: seq<byte>, c: byte)
    requires RingHolds(ring, h)
    ensures RingHolds(ring[Slot(|h|) := c], h + [c])
  {
    var h' := h + [c];
    forall s | 0 <= s < N
      ensures ring[Slot(|h|) := c][s] == At(h', Latest(|h'|, s))
    {
      LatestAfterOneByte(|h|, s);
      assert Latest(|h|, s) < |h|;
    }
  }

  /** Reading ring slot `pos + k` after `k` bytes of a copy is reading `Distance` back
      from the current end, for every position: `pos` may be the slot about to be
      written (distance N), and the copy may overlap itself. */
  lemma RingReadIsCopyBack(ring: seq<byte>, h: seq<byte>, t: nat, pos: nat, k: nat)
    requires RingHolds(ring, h) && |h| == t + k
    ensures ring[(pos + k) % N] == At(h, |h| - Distance(t, pos))
  {
    assert Latest(|h|, (pos + k) % N) == |h| - Distance(t, pos) by {
      ModShift(N - F + t - pos - 1, N - F + (t + k) - 1, pos + k);
    }
  }

  lemma AddMultiple(x: int, q: int)
    ensures (x + 4096 * q) % 4096 == x % 4096
  {
    var d := x / 4096;
    assert x + 4096 * q == 4096 * (d + q) + x % 4096;
  }

  lemma ModShift(x: int, y: int, z: int)
    requires x == y - z
    ensures (y - z % N) % N == x % N
  {
    AddMultiple(x, z / 4096);
  }
}
