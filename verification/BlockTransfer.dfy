/** The arithmetic of aleph_bdev_drv/src/aleph_block_dev.c and what a transfer means:
    one copy between a slice of the host file and the start of the caller's memory. */
module BlockTransfer {
  import opened Bytes
  import opened Common

  const BLOCK: nat := 0x1000

  /** `n` blocks in bytes. */
  function Blocks(n: int): int { 0x1000 * n }

  // ----- The driver's own arithmetic, in wrapping 64-bit words -----

  function Wrap(x: int): nat { x % U64 }

  function BlockCount(size: nat): nat {
    Wrap(size + BLOCK - 1) / BLOCK
  }

  function MaxValidBlock(size: nat): nat {
    Wrap(BlockCount(size) - 1)
  }

  function Offset(b: nat): nat {
    Wrap(Blocks(Wrap(b)))
  }

  /** The length of the chunk at `offset`, after clipping. */
  function ChunkLength(size: nat, offset: nat): nat {
    if Wrap(offset + BLOCK) > size then Wrap(size - offset) else BLOCK
  }

  /** The test that guards the transfer after clipping. */
  predicate GuardFires(size: nat, offset: nat) {
    Wrap(offset + ChunkLength(size, offset)) >= Wrap(size + BLOCK)
  }

  /** A size the driver's sums do not overflow on. */
  predicate Representable(size: nat) {
    size + BLOCK < U64
  }

  lemma BlockCountIsCeiling(size: nat)
    requires Representable(size)
    ensures Blocks(BlockCount(size)) - BLOCK < size <= Blocks(BlockCount(size))
         || (size == 0 && BlockCount(size) == 0)
    ensures size > 0 ==> MaxValidBlock(size) + 1 == BlockCount(size)
  {
  }

  /** For every 64-bit block number: the driver's offset is the block's place and its chunk
      a piece of the file of at most one block, exactly for the blocks up to the advertised
      maximum; the chunk is then what is left of the file, at most one block. */
  lemma {:induction false} ChunkInRange(size: nat, b: nat)
    requires Representable(size) && b < U64
    ensures b < BlockCount(size) <==>
            && Offset(b) == Blocks(b)
            && 1 <= ChunkLength(size, Offset(b)) <= BLOCK && Offset(b) + ChunkLength(size, Offset(b)) <= size
    ensures b < BlockCount(size) ==> ChunkLength(size, Offset(b)) == Min(BLOCK, size - Blocks(b))
  {
    hide BlockCount, ChunkLength, Offset;
    BlocksOfFile(size, b);
    if Blocks(b) < U64 - BLOCK {
      OffsetIs(b);
      ClippedLength(size, Blocks(b));
    }
  }

  /** The place alone does not tell: the offset of block 2^52 wraps around to the first chunk. */
  lemma OffsetsWrap(size: nat)
    requires 0 < size && Representable(size)
    ensures var b := 0x10_0000_0000_0000;
            && !(b < BlockCount(size)) && Offset(b) == 0
            && 1 <= ChunkLength(size, Offset(b)) <= BLOCK && Offset(b) + ChunkLength(size, Offset(b)) <= size
  {
    BlocksOfFile(size, 0x10_0000_0000_0000);
    ClippedLength(size, 0);
  }

  lemma OffsetIs(b: nat)
    requires Blocks(b) < U64
    ensures Offset(b) == Blocks(b)
  {
  }

  lemma BlocksOfFile(size: nat, b: nat)
    requires Representable(size)
    ensures b < BlockCount(size) <==> Blocks(b) < size
  {
    BlockCountIsCeiling(size);
  }

  lemma ClippedLength(size: nat, offset: nat)
    requires Representable(size) && offset + BLOCK < U64
    ensures offset < size <==>
            1 <= ChunkLength(size, offset) <= BLOCK && offset + ChunkLength(size, offset) <= size
    ensures offset < size ==> ChunkLength(size, offset) == Min(BLOCK, size - offset)
  {
  }

  /** Clipping runs before the guard, so the guard cannot fire, whatever the offset: after
      clipping the chunk ends at the end of the file at the latest. */
  lemma GuardNeverFires(size: nat, offset: nat)
    requires Representable(size) && offset < U64
    ensures !GuardFires(size, offset)
  {
    var len := ChunkLength(size, offset);
    if Wrap(offset + BLOCK) > size {
      assert Wrap(offset + len) == size;
    }
  }

  // ----- Flat transfers -----

  /** The last block of a request, if there is one, starts inside the file. */
  predicate InRange(size: nat, block: nat, n: nat) {
    Representable(size) && (n > 0 ==> Blocks(block + n - 1) < size)
  }

  /** That is the range the driver advertises: no block above the maximum it reports. */
  lemma InRangeIsAdvertised(size: nat, block: nat, n: nat)
    requires 0 < size && Representable(size) && n > 0
    ensures InRange(size, block, n) <==> block + n - 1 <= MaxValidBlock(size)
  {
    BlockCountIsCeiling(size);
  }

  /** The bytes that `n` blocks from `block` on amount to. */
  function Moved(size: nat, block: nat, n: nat): nat
    requires InRange(size, block, n)
  {
    if n == 0 then 0
    else
      MovedIsPositive(size, block, n);
      Min(Blocks(block + n), size) - Blocks(block)
  }

  lemma MovedIsPositive(size: nat, block: nat, n: nat)
    requires InRange(size, block, n) && n > 0
    ensures Blocks(block) < Min(Blocks(block + n), size)
  {
  }

  /** Only the last block of the file can be short. */
  lemma AllButTheLastAreFull(size: nat, block: nat, n: nat, i: nat)
    requires InRange(size, block, n) && i < n
    ensures InRange(size, block, i) && InRange(size, block, i + 1)
    ensures Moved(size, block, i) == Blocks(i)
    ensures Moved(size, block, i + 1) == Blocks(i) + Min(BLOCK, size - Blocks(block + i))
    ensures Blocks(block + i) == Blocks(block) + Blocks(i) < size
    ensures 0 <= Blocks(block) && 0 <= Blocks(i)
  {
    MovedIsPositive(size, block + i, 1);
  }

  lemma MovedGrows(size: nat, block: nat, i: nat, n: nat)
    requires InRange(size, block, n) && i <= n
    ensures InRange(size, block, i) && Moved(size, block, i) <= Moved(size, block, n)
  {
  }

  /** `data` written over `base` from `at` on. */
  function Splice(base: seq<byte>, at: nat, data: seq<byte>): (r: seq<byte>)
    requires at + |data| <= |base|
    ensures |r| == |base|
  {
    base[..at] + data + base[at + |data|..]
  }

  /** Two neighbouring slices of a source, written one behind the other, are one slice. */
  lemma SpliceSlices(base: seq<byte>, at: nat, at2: nat, src: seq<byte>, lo: nat, mid: nat, hi: nat)
    requires lo <= mid <= hi <= |src| && at2 == at + (mid - lo) && at2 + (hi - mid) <= |base|
    ensures Splice(Splice(base, at, src[lo..mid]), at2, src[mid..hi]) == Splice(base, at, src[lo..hi])
  {
    assert src[lo..mid] + src[mid..hi] == src[lo..hi];
  }

  lemma SpliceReadsBack(base: seq<byte>, at: nat, d: seq<byte>)
    requires at + |d| <= |base|
    ensures Splice(base, at, d)[at..at + |d|] == d
    ensures forall x :: 0 <= x < |base| && !(at <= x < at + |d|) ==> Splice(base, at, d)[x] == base[x]
  {
  }

  lemma SpliceNothing(base: seq<byte>, at: nat)
    requires at <= |base|
    ensures Splice(base, at, []) == base
  {
  }

  lemma SpliceTail(base: seq<byte>, at: nat, d: seq<byte>)
    requires at + |d| <= |base|
    ensures base[..at] + Splice(base[at..], 0, d) == Splice(base, at, d)
  {
  }

  /** A read request: the file slice lands at the start of the memory. */
  function ReadInto(file: seq<byte>, mem: seq<byte>, block: nat, n: nat): (r: seq<byte>)
    requires InRange(|file|, block, n) && Moved(|file|, block, n) <= |mem|
    ensures |r| == |mem|
  {
    if n == 0 then mem
    else
      MovedIsPositive(|file|, block, n);
      Splice(mem, 0, file[Blocks(block)..Blocks(block) + Moved(|file|, block, n)])
  }

  /** A write request: the start of the memory replaces the file slice. */
  function WriteFrom(file: seq<byte>, mem: seq<byte>, block: nat, n: nat): (r: seq<byte>)
    requires InRange(|file|, block, n) && Moved(|file|, block, n) <= |mem|
    ensures |r| == |file|
  {
    if n == 0 then file
    else
      MovedIsPositive(|file|, block, n);
      Splice(file, Blocks(block), mem[..Moved(|file|, block, n)])
  }

  lemma NothingMoved(file: seq<byte>, mem: seq<byte>, block: nat)
    requires Representable(|file|)
    ensures InRange(|file|, block, 0) && Moved(|file|, block, 0) == 0
    ensures ReadInto(file, mem, block, 0) == mem && WriteFrom(file, mem, block, 0) == file
  {
  }

  /** The requests as slices; the empty request is the splice of an empty slice. */
  lemma AsSplice(file: seq<byte>, mem: seq<byte>, block: nat, n: nat, lo: nat, m: nat)
    requires InRange(|file|, block, n) && m == Moved(|file|, block, n) <= |mem|
    requires lo == Blocks(block) <= |file|
    ensures lo + m <= |file|
    ensures ReadInto(file, mem, block, n) == Splice(mem, 0, file[lo..lo + m])
    ensures WriteFrom(file, mem, block, n) == Splice(file, lo, mem[0..m])
  {
    if n == 0 {
      SpliceNothing(mem, 0);
      SpliceNothing(file, lo);
    } else {
      MovedIsPositive(|file|, block, n);
    }
  }

  /** One more block of a request is one more chunk, from its place to its place. */
  lemma {:induction false} ReadStep(file: seq<byte>, mem: seq<byte>, block: nat, n: nat, i: nat)
    requires InRange(|file|, block, n) && i < n && Moved(|file|, block, i + 1) <= |mem|
    ensures InRange(|file|, block, i) && Moved(|file|, block, i) == Blocks(i) <= |mem|
    ensures var off, len := Blocks(block + i), Min(BLOCK, |file| - Blocks(block + i));
            && off + len <= |file| && Blocks(i) + len == Moved(|file|, block, i + 1)
            && ReadInto(file, mem, block, i + 1)
               == Splice(ReadInto(file, mem, block, i), Blocks(i), file[off..off + len])
  {
    hide *;
    AllButTheLastAreFull(|file|, block, n, i);
    var lo, m, m' := Blocks(block), Blocks(i), Moved(|file|, block, i + 1);
    AsSplice(file, mem, block, i, lo, m);
    AsSplice(file, mem, block, i + 1, lo, m');
    SpliceSlices(mem, 0, m, file, lo, lo + m, lo + m');
  }

  lemma {:induction false} WriteStep(file: seq<byte>, mem: seq<byte>, block: nat, n: nat, i: nat)
    requires InRange(|file|, block, n) && i < n && Moved(|file|, block, i + 1) <= |mem|
    ensures InRange(|file|, block, i) && Moved(|file|, block, i) == Blocks(i) <= |mem|
    ensures var off, len := Blocks(block + i), Min(BLOCK, |file| - Blocks(block + i));
            && off + len <= |file| && Blocks(i) + len == Moved(|file|, block, i + 1)
            && WriteFrom(file, mem, block, i + 1)
               == Splice(WriteFrom(file, mem, block, i), off, mem[Blocks(i)..Blocks(i) + len])
  {
    hide *;
    AllButTheLastAreFull(|file|, block, n, i);
    var lo, m, m' := Blocks(block), Blocks(i), Moved(|file|, block, i + 1);
    AsSplice(file, mem, block, i, lo, m);
    AsSplice(file, mem, block, i + 1, lo, m');
    SpliceSlices(file, lo, lo + m, mem, 0, m, m');
  }

  // ----- Laws of transfers -----

  /** A request in bytes: block b lies at byte 4096 * b, and the file may end inside the last
      block. */
  lemma TransferInBytes(file: seq<byte>, mem: seq<byte>, block: nat, n: nat)
    requires InRange(|file|, block, n) && Moved(|file|, block, n) <= |mem| && n > 0
    ensures var lo, hi := 4096 * block, Min(4096 * (block + n), |file|);
            && lo < hi && Moved(|file|, block, n) == hi - lo
            && ReadInto(file, mem, block, n) == file[lo..hi] + mem[hi - lo..]
            && WriteFrom(file, mem, block, n) == file[..lo] + mem[..hi - lo] + file[hi..]
  {
    hide InRange, Moved, ReadInto, WriteFrom;
    MovedInBytes(|file|, block, n);
    var lo, m := 4096 * block, Moved(|file|, block, n);
    AsSplice(file, mem, block, n, lo, m);
    assert mem[0..m] == mem[..m];
  }

  lemma MovedInBytes(size: nat, block: nat, n: nat)
    requires InRange(size, block, n) && n > 0
    ensures 4096 * block < Min(4096 * (block + n), size)
    ensures Moved(size, block, n) == Min(4096 * (block + n), size) - 4096 * block
    ensures Blocks(block) == 4096 * block
  {
    MovedIsPositive(size, block, n);
  }

  /** Reading back the blocks of a write returns the bytes written; no other byte of the
      file, nor its size, has changed. */
  lemma {:induction false} WriteThenRead(file: seq<byte>, w: seq<byte>, mem: seq<byte>, block: nat, n: nat)
    requires InRange(|file|, block, n)
    requires Moved(|file|, block, n) <= |w| && Moved(|file|, block, n) <= |mem|
    ensures var m := Moved(|file|, block, n);
            var file' := WriteFrom(file, w, block, n);
            && |file'| == |file|
            && ReadInto(file', mem, block, n) == w[..m] + mem[m..]
            && forall x :: 0 <= x < |file| && !(Blocks(block) <= x < Blocks(block) + m) ==> file'[x] == file[x]
  {
    var m, lo := Moved(|file|, block, n), Blocks(block);
    if n == 0 {
      assert w[..0] + mem[0..] == mem;
    } else {
      MovedIsPositive(|file|, block, n);
      var file' := Splice(file, lo, w[0..m]);
      AsSplice(file, w, block, n, lo, m);
      AsSplice(file', mem, block, n, lo, m);
      SpliceReadsBack(file, lo, w[0..m]);
    }
  }

  /** Moving `a + b` blocks is moving `a` and then `b`, in bytes, in the file and in memory. */
  lemma {:induction false} TransfersCompose(file: seq<byte>, mem: seq<byte>, block: nat, a: nat, b: nat)
    requires InRange(|file|, block, a + b) && Moved(|file|, block, a + b) <= |mem|
    ensures var m := Moved(|file|, block, a);
            && m <= |mem|
            && Moved(|file|, block, a + b) == m + Moved(|file|, block + a, b)
            && WriteFrom(file, mem, block, a + b)
               == WriteFrom(WriteFrom(file, mem, block, a), mem[m..], block + a, b)
            && ReadInto(file, mem, block, a + b)
               == var first := ReadInto(file, mem, block, a);
                  first[..m] + ReadInto(file, first[m..], block + a, b)
  {
    if b == 0 {
      var first := ReadInto(file, mem, block, a);
      var m := Moved(|file|, block, a);
      assert first == first[..m] + first[m..];
    } else {
      AllButTheLastAreFull(|file|, block, a + b, a);
      MovedIsPositive(|file|, block + a, b);
      ComposeWrite(file, mem, block, a, b, Moved(|file|, block + a, b));
      ComposeRead(file, mem, block, a, b, Moved(|file|, block + a, b));
    }
  }

  lemma ComposeWrite(file: seq<byte>, mem: seq<byte>, block: nat, a: nat, b: nat, k: nat)
    requires InRange(|file|, block, a + b) && Blocks(a) + k == Moved(|file|, block, a + b) <= |mem|
    requires InRange(|file|, block, a) && Moved(|file|, block, a) == Blocks(a)
    requires InRange(|file|, block + a, b) && Moved(|file|, block + a, b) == k
    requires 0 <= Blocks(block) <= Blocks(block) + Blocks(a) == Blocks(block + a) <= |file| && 0 <= Blocks(a)
    ensures WriteFrom(file, mem, block, a + b)
            == WriteFrom(WriteFrom(file, mem, block, a), mem[Blocks(a)..], block + a, b)
  {
    hide *;
    var lo, m := Blocks(block), Blocks(a);
    AsSplice(file, mem, block, a + b, lo, m + k);
    AsSplice(file, mem, block, a, lo, m);
    AsSplice(WriteFrom(file, mem, block, a), mem[m..], block + a, b, lo + m, k);
    SpliceSlices(file, lo, lo + m, mem, 0, m, m + k);
    assert mem[m..][0..k] == mem[m..m + k];
  }

  lemma ComposeRead(file: seq<byte>, mem: seq<byte>, block: nat, a: nat, b: nat, k: nat)
    requires InRange(|file|, block, a + b) && Blocks(a) + k == Moved(|file|, block, a + b) <= |mem|
    requires InRange(|file|, block, a) && Moved(|file|, block, a) == Blocks(a)
    requires InRange(|file|, block + a, b) && Moved(|file|, block + a, b) == k
    requires 0 <= Blocks(block) <= Blocks(block) + Blocks(a) == Blocks(block + a) <= |file| && 0 <= Blocks(a)
    ensures ReadInto(file, mem, block, a + b)
            == var first := ReadInto(file, mem, block, a);
               first[..Blocks(a)] + ReadInto(file, first[Blocks(a)..], block + a, b)
  {
    hide *;
    var lo, m := Blocks(block), Blocks(a);
    AsSplice(file, mem, block, a + b, lo, m + k);
    AsSplice(file, mem, block, a, lo, m);
    var first := ReadInto(file, mem, block, a);
    AsSplice(file, first[m..], block + a, b, lo + m, k);
    SpliceSlices(mem, 0, m, file, lo, lo + m, lo + m + k);
    SpliceTail(first, m, file[lo + m..lo + m + k]);
  }
}
