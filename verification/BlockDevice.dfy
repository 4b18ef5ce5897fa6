/** The block device object of aleph_bdev_drv/src/aleph_block_dev.c and its transfer loop. */
module BlockDevice {
  import opened Bytes
  import opened Common
  import opened BlockTransfer

  /** kIODirectionIn fills the caller's memory, kIODirectionOut writes the file; memory can
      be prepared for neither or both. */
  datatype Direction = In | Out | Other

  class HostFile {
    var content: seq<byte>

    constructor (content: seq<byte>)
      ensures this.content == content
    {
      this.content := content;
    }

    /** qc_read_file: into the start of the buffer. */
    method Read(buf: array<byte>, length: nat, offset: nat)
      requires offset + length <= |content| && length <= buf.Length
      modifies buf
      ensures buf[..length] == content[offset..offset + length]
    {
      var k := 0;
      while k < length
        invariant k <= length && buf[..k] == content[offset..offset + k]
      {
        buf[k] := content[offset + k];
        k := k + 1;
      }
    }

    /** qc_write_file, inside the file. */
    method Write(buf: array<byte>, length: nat, offset: nat)
      requires offset + length <= |content| && length <= buf.Length
      modifies this
      ensures content == Splice(old(content), offset, buf[..length])
    {
      content := content[..offset] + buf[..length] + content[offset + length..];
    }
  }

  /** IOMemoryDescriptor::writeBytes and readBytes on memory that has the room. */
  method CopyBytes(dst: array<byte>, dstOff: nat, src: array<byte>, srcOff: nat, length: nat,
                   ghost data: seq<byte>) returns (count: nat)
    requires dst != src && dstOff + length <= dst.Length && srcOff + length <= src.Length
    requires data == src[srcOff..srcOff + length]
    modifies dst
    ensures count == length
    ensures dst[..] == Splice(old(dst[..]), dstOff, data)
    ensures dst[dstOff..dstOff + length] == data
  {
    count := 0;
    ghost var before := dst[..];
    while count < length
      invariant count <= length && dst.Length == |before|
      invariant dst[..] == before[..dstOff] + src[srcOff..srcOff + count] + before[dstOff + count..]
    {
      dst[dstOff + count] := src[srcOff + count];
      count := count + 1;
    }
  }

  class AlephBlockDevice {
    const file: HostFile
    const buffer: array<byte>
    var size: nat
    var blockCount: nat

    ghost predicate Valid()
      reads this, file
    {
      && buffer.Length == BLOCK
      && size == |file.content| > 0 && Representable(size)
      && blockCount == BlockCount(size)
    }

    /** The members that create_new_aleph_bdev fills in from the host file. */
    constructor (file: HostFile)
      requires |file.content| > 0 && Representable(|file.content|)
      ensures Valid() && this.file == file && fresh(buffer)
    {
      this.file := file;
      buffer := new byte[BLOCK](_ => 0);
      size := |file.content|;
      blockCount := Wrap(|file.content| + BLOCK - 1) / BLOCK;
    }

    /** The highest block number that a request may name. */
    method ReportMaxValidBlock() returns (max: nat)
      requires Valid()
      ensures forall b: nat :: b <= max <==> 4096 * b < |file.content|
    {
      BlockCountIsCeiling(size);
      max := Wrap(blockCount - 1);
    }

    /** doAsyncReadWrite under its lock. The caller's memory is separate from the staging
        buffer and long enough; `completed` is the count the completion action receives, none
        when cancel() stops the machine before. */
    method DoAsyncReadWrite(direction: Direction, mem: array<byte>, block: nat, nblks: nat)
      returns (completed: Option<nat>)
      requires Valid() && mem != buffer
      requires InRange(size, block, nblks) && Moved(size, block, nblks) <= mem.Length
      modifies mem, buffer, file
      ensures Valid() && size == old(size)
      ensures completed == if direction.Other? then None else Some(Moved(size, block, nblks))
      ensures file.content == if direction.Out? then WriteFrom(old(file.content), old(mem[..]), block, nblks)
                              else old(file.content)
      ensures mem[..] == if direction.In? then ReadInto(old(file.content), old(mem[..]), block, nblks)
                         else old(mem[..])
      ensures nblks > 0 && direction.In? ==>
                var lo, hi := 4096 * block, Min(4096 * (block + nblks), |old(file.content)|);
                && completed == Some(hi - lo) && file.content == old(file.content)
                && mem[..] == old(file.content)[lo..hi] + old(mem[..])[hi - lo..]
      ensures nblks > 0 && direction.Out? ==>
                var lo, hi := 4096 * block, Min(4096 * (block + nblks), |old(file.content)|);
                && completed == Some(hi - lo) && mem[..] == old(mem[..])
                && file.content == old(file.content)[..lo] + old(mem[..])[..hi - lo] + old(file.content)[hi..]
    {
      if nblks > 0 {
        TransferInBytes(file.content, mem[..], block, nblks);
      }
      hide InRange, Moved, ReadInto, Valid, WriteFrom;
      var byteCount := 0;
      match direction
      case In =>
        byteCount := ReadBlocks(mem, block, nblks);
        return Some(byteCount);
      case Out =>
        byteCount := WriteBlocks(mem, block, nblks);
        return Some(byteCount);
      case Other =>
        return None;
    }

    /** Offset and length of block `i` of a request, as the loops compute them. The guard
        before the transfer is the one that calls cancel(); it never fires. */
    method Chunk(block: nat, nblks: nat, i: nat) returns (offset: nat, length: nat)
      requires Valid() && InRange(size, block, nblks) && i < nblks
      ensures offset == Blocks(block + i) && length == Min(BLOCK, size - Blocks(block + i))
      ensures 0 < length <= BLOCK && offset + length <= size
    {
      hide InRange, Wrap;
      AllButTheLastAreFull(size, block, nblks, i);
      OffsetIs(block + i);
      ClippedLength(size, Blocks(block + i));
      GuardNeverFires(size, Blocks(block + i));
      offset := Wrap(Blocks(Wrap(i + block)));
      length := BLOCK;
      if Wrap(offset + length) > size {
        length := Wrap(size - offset);
      }
      ghost var fires := Wrap(offset + length) >= Wrap(size + BLOCK);
      assert !fires;
    }

    /** One turn of the reading loop, file to staging buffer to memory: with `i` blocks of the
        request moved since the memory was `m`, it moves one more. */
    method ReadBlock(mem: array<byte>, block: nat, nblks: nat, i: nat, ghost m: seq<byte>) returns (count: nat)
      requires Valid() && mem != buffer && |m| == mem.Length
      requires InRange(size, block, nblks) && i < nblks
      requires InRange(size, block, i) && Moved(size, block, i) <= mem.Length
      requires InRange(size, block, i + 1) && Moved(size, block, i + 1) <= mem.Length
      requires mem[..] == ReadInto(file.content, m, block, i)
      modifies mem, buffer
      ensures count == Moved(size, block, i + 1) - Moved(size, block, i)
      ensures mem[..] == ReadInto(file.content, m, block, i + 1)
    {
      hide Blocks, InRange, Min, Moved, ReadInto, Splice;
      ReadStep(file.content, m, block, nblks, i);
      var offset, length := Chunk(block, nblks, i);
      ghost var data := file.content[offset..offset + length];
      file.Read(buffer, length, offset);
      assert buffer[0..length] == buffer[..length] == data;
      count := CopyBytes(mem, Blocks(i), buffer, 0, length, data);
    }

    method ReadBlocks(mem: array<byte>, block: nat, nblks: nat) returns (byteCount: nat)
      requires Valid() && mem != buffer
      requires InRange(size, block, nblks) && Moved(size, block, nblks) <= mem.Length
      modifies mem, buffer
      ensures byteCount == Moved(size, block, nblks)
      ensures mem[..] == ReadInto(file.content, old(mem[..]), block, nblks)
    {
      hide BlockCount, InRange, Moved, ReadInto;
      byteCount := 0;
      ghost var m := mem[..];
      ghost var f := file.content;
      NothingMoved(f, m, block);
      MovedGrows(|f|, block, 0, nblks);
      var i := 0;
      while i < nblks
        invariant i <= nblks && InRange(|f|, block, i) && Moved(|f|, block, i) <= |m| == mem.Length
        invariant byteCount == Moved(|f|, block, i)
        invariant mem[..] == ReadInto(f, m, block, i)
      {
        MovedGrows(|f|, block, i + 1, nblks);
        var count := ReadBlock(mem, block, nblks, i, m);
        byteCount := byteCount + count;
        i := i + 1;
      }
    }

    /** One turn of the writing loop, memory to staging buffer to file: with `i` blocks of
        the request moved since the file was `f`, it moves one more. */
    method WriteBlock(mem: array<byte>, block: nat, nblks: nat, i: nat, ghost f: seq<byte>) returns (count: nat)
      requires Valid() && mem != buffer && |f| == size
      requires InRange(size, block, nblks) && i < nblks
      requires InRange(size, block, i) && Moved(size, block, i) <= mem.Length
      requires InRange(size, block, i + 1) && Moved(size, block, i + 1) <= mem.Length
      requires file.content == WriteFrom(f, mem[..], block, i)
      modifies buffer, file
      ensures Valid() && count == Moved(size, block, i + 1) - Moved(size, block, i)
      ensures file.content == WriteFrom(f, mem[..], block, i + 1)
    {
      hide Blocks, InRange, Min, Moved, Splice, WriteFrom;
      WriteStep(f, mem[..], block, nblks, i);
      var offset, length := Chunk(block, nblks, i);
      ghost var data := mem[..][Blocks(i)..Blocks(i) + length];
      count := CopyBytes(buffer, 0, mem, Blocks(i), length, data);
      assert buffer[..length] == buffer[0..length] == data;
      file.Write(buffer, length, offset);
    }

    method WriteBlocks(mem: array<byte>, block: nat, nblks: nat) returns (byteCount: nat)
      requires Valid() && mem != buffer
      requires InRange(size, block, nblks) && Moved(size, block, nblks) <= mem.Length
      modifies buffer, file
      ensures Valid() && byteCount == Moved(size, block, nblks)
      ensures file.content == WriteFrom(old(file.content), mem[..], block, nblks)
    {
      hide BlockCount, InRange, Moved, WriteFrom;
      byteCount := 0;
      ghost var m := mem[..];
      ghost var f := file.content;
      NothingMoved(f, m, block);
      MovedGrows(|f|, block, 0, nblks);
      var i := 0;
      while i < nblks
        invariant i <= nblks && InRange(|f|, block, i) && Moved(|f|, block, i) <= |m|
        invariant Valid() && mem[..] == m
        invariant byteCount == Moved(|f|, block, i)
        invariant file.content == WriteFrom(f, m, block, i)
      {
        MovedGrows(|f|, block, i + 1, nblks);
        var count := WriteBlock(mem, block, nblks, i, f);
        byteCount := byteCount + count;
        i := i + 1;
      }
    }
  }
}
