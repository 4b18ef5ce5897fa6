/** The printers of common_hooks/src/ipc-obj.c, appending to one buffer of fixed size with
    strncat (section 7.24.3.2 of ISO C11), whose size argument limits only what is appended. */
module MessageBuffer {
  import opened Common
  import opened Decimal
  import opened MessageText

  lemma {:induction false} CStringIs(s: seq<char>, t: string)
    requires |t| < |s| && s[..|t|] == t && NoNul(t) && s[|t|] == '\0'
    ensures CString(s) == t
    decreases |s|
  {
    if t != [] {
      assert s[0] == t[0] != '\0';
      assert s[1..][..|t| - 1] == t[1..];
      CStringIs(s[1..], t[1..]);
      assert s[..|t|] == [s[0]] + s[1..][..|t| - 1];
    }
  }

  /** The worst case of each printer, in characters. */
  const TASK_ROOM: nat := 5 * LINE + NAME_SIZE
  const SPACE_ROOM: nat := 6 * LINE + TASK_ROOM
  const PORT_ROOM: nat := 12 * LINE + SPACE_ROOM
  const KMSG_ROOM: nat := 25 * LINE + TASK_ROOM + 2 * PORT_ROOM

  class Message {
    const buf: array<char>
    /** What has been appended, piece by piece. */
    ghost var lines: seq<string>

    ghost predicate Valid()
      reads this, buf
    {
      '\0' in buf[..] && CString(buf[..]) == Concat(lines)
    }

    ghost function Length(): nat
      reads this
    {
      |Concat(lines)|
    }

    /** A fresh buffer whose first byte is set to the terminator. */
    constructor (size: nat)
      requires size > 0
      ensures Valid() && fresh(buf) && buf.Length == size && lines == []
    {
      buf := new char[size];
      lines := [];
      new;
      buf[0] := '\0';
      CStringIs(buf[..], "");
    }

    method StrLenOf() returns (n: nat)
      requires Valid()
      ensures n == Length() < buf.Length && buf[..n] == Concat(lines) && NoNul(Concat(lines))
    {
      n := 0;
      assert NoNul(CString(buf[..]));
      assert forall x :: 0 <= x < |Concat(lines)| ==> buf[x] == CString(buf[..])[x] != '\0';
      while buf[n] != '\0'
        invariant n <= |Concat(lines)|
        decreases |Concat(lines)| - n
      {
        assert buf[n] == buf[..][n];
        n := n + 1;
      }
    }

    /** strncat. The buffer must have room for what is appended and the terminator: that is
        what the size argument does not check. */
    method StrnCat(src: string, size: nat)
      requires Valid() && NoNul(src)
      requires Length() + Min(|src|, size) < buf.Length
      modifies this, buf
      ensures Valid() && lines == old(lines) + [src[..Min(|src|, size)]]
      ensures Length() == old(Length()) + Min(|src|, size)
    {
      var n := StrLenOf();
      var m := Min(|src|, size);
      ghost var before := Concat(lines);
      var k := 0;
      while k < m
        invariant k <= m && buf[..n + k] == before + src[..k]
        invariant lines == old(lines) && Concat(lines) == before && |before| == n
      {
        buf[n + k] := src[k];
        assert before + src[..k + 1] == before + src[..k] + [src[k]];
        k := k + 1;
      }
      buf[n + m] := '\0';
      ghost var text := before + src[..m];
      assert buf[..n + m] == text;
      assert NoNul(src[..m]);
      NoNulSum(before, src[..m]);
      assert buf[..][n + m] == '\0';
      CStringIs(buf[..], text);
      ConcatOne(lines, src[..m]);
      lines := lines + [src[..m]];
      assert '\0' in buf[..] by { assert buf[..][n + m] == '\0'; }
      assert CString(buf[..]) == Concat(lines);
    }

    /** A piece no longer than a line, appended whole. */
    method Cat(src: string, size: nat)
      requires Valid() && NoNul(src) && |src| <= size && Length() + |src| < buf.Length
      modifies this, buf
      ensures Valid() && lines == old(lines) + [src]
      ensures Length() == old(Length()) + |src|
    {
      StrnCat(src, size);
      assert src[..|src|] == src;
    }

    /** strncat_int64: the name, the number through a scratch string of 1024, a newline; each
        of the three is cut at the size. */
    method CatInt64(name: string, size: nat, num: u64)
      requires Valid() && NoNul(name)
      requires Length() + Min(|name|, size) + Min(|ToDecimal(num)|, size) + Min(1, size) < buf.Length
      modifies this, buf
      ensures Valid() && lines == old(lines) + [FieldCut(name, size, num)]
      ensures Length() == old(Length()) + |FieldCut(name, size, num)|
    {
      hide CString, ToDecimal;
      TwentyDigits(num);
      ghost var before := lines;
      StrnCat(name, size);
      var str := new char[1024];
      MyItoa(num, str);
      DigitsAreNoNul(ToDecimal(num));
      CStringIs(str[..], ToDecimal(num));
      StrnCat(CString(str[..]), size);
      StrnCat("\n", size);
      ThreePieces(before, Cut(name, size), Cut(ToDecimal(num), size), Cut("\n", size));
      ConcatOne(before, FieldCut(name, size, num));
      lines := before + [FieldCut(name, size, num)];
    }

    /** The printers' use of it: nothing is cut, and a line is room enough. */
    method CatField(name: string, size: nat, num: u64)
      requires Valid() && NoNul(name) && |name| <= 60 && NAME_SIZE <= size
      requires Length() + LINE < buf.Length
      modifies this, buf
      ensures Valid() && lines == old(lines) + [Field(name, num)]
      ensures Length() <= old(Length()) + LINE
    {
      TwentyDigits(num);
      FieldFits(name, size, num);
      CatInt64(name, size, num);
    }

    method PrintTask(task: Task, size: nat)
      requires Valid() && NAME_SIZE <= size && NameOk(task)
      requires Length() + TASK_ROOM < buf.Length
      modifies this, buf
      ensures Valid() && lines == old(lines) + TaskLines(task)
      ensures Length() <= old(Length()) + TASK_ROOM
    {
      hide TaskText, Rule, Field, CString, Valid, Length;
      Cat(Rule('@', 39), size);
      CatField(TaskText(BsdInfoPtr), size, task.bsdInfo.Bits());
      if task.bsdInfo.To? {
        CatField(TaskText(Pid), size, task.bsdInfo.target.pid);
        Cat(TaskText(TaskName), size);
        Cat(CString(task.bsdInfo.target.name), size);
        Cat("\n", size);
      }
      Cat(Rule('@', 39), size);
    }

    method PrintIpcSpace(space: Space, size: nat)
      requires Valid() && NAME_SIZE <= size && SpaceOk(space)
      requires Length() + SPACE_ROOM < buf.Length
      modifies this, buf
      ensures Valid() && lines == old(lines) + SpaceLines(space)
      ensures Length() <= old(Length()) + SPACE_ROOM
    {
      hide SpaceText, Rule, Field, CString, Valid, Length, TaskLines;
      Cat(Rule('!', 41), size);
      CatField(SpaceText(TableSize), size, space.tableSize);
      CatField(SpaceText(TableFree), size, space.tableFree);
      CatField(SpaceText(TablePtr), size, space.table);
      CatField(SpaceText(SpaceTask), size, space.task.Bits());
      if space.task.To? {
        PrintTask(space.task.target, size);
      }
      Cat(Rule('!', 41), size);
    }

    method PrintIpcPort(port: Port, size: nat)
      requires Valid() && NAME_SIZE <= size && PortOk(port)
      requires Length() + PORT_ROOM < buf.Length
      modifies this, buf
      ensures Valid() && lines == old(lines) + PortLines(port)
      ensures Length() <= old(Length()) + PORT_ROOM
    {
      hide Rule, Valid, Length, SpaceLines, PortFields, IsActive;
      Cat(Rule('=', 59), size);
      CatPortFields(port, size);
      if IsActive(port.ioBits) != 0 && port.receiver.To? {
        PrintIpcSpace(port.receiver.target, size);
      }
      Cat(Rule('=', 59), size);
    }

    method CatPortFields(port: Port, size: nat)
      requires Valid() && NAME_SIZE <= size && Length() + 10 * LINE < buf.Length
      modifies this, buf
      ensures Valid() && lines == old(lines) + PortFields(port)
      ensures Length() <= old(Length()) + 10 * LINE
    {
      hide PortText, ObjectTypeText, KobjectTypeText, Field, Valid, Length;
      hide IsActive, ObjectType, IsPreallocated, KobjectType;
      var isActive := IsActive(port.ioBits);
      var otype := ObjectType(port.ioBits);
      var isPreallocated := IsPreallocated(port.ioBits);
      var kotype := KobjectType(port.ioBits);
      CatField(PortText(IoBits), size, port.ioBits);
      CatField(PortText(Active), size, isActive);
      CatField(PortText(OType), size, otype);
      CatObjectType(otype, size);
      CatField(PortText(Preallocated), size, isPreallocated);
      CatField(PortText(KoType), size, kotype);
      CatKobjectType(kotype, size);
      CatField(PortText(References), size, port.references);
      CatField(PortText(LockData), size, port.lockData);
      CatField(PortText(Receiver), size, port.receiver.Bits());
    }

    method CatObjectType(otype: u32, size: nat)
      requires Valid() && NAME_SIZE <= size && Length() + LINE < buf.Length
      modifies this, buf
      ensures Valid() && lines == old(lines) + [ObjectTypeText(otype)]
      ensures Length() <= old(Length()) + LINE
    {
      hide Valid, Length;
      match otype
      case 0 => Cat("(IOT_PORT)\n", size);
      case 1 => Cat("(IOT_PORT_SET)\n", size);
      case 2 => Cat("(IOT_NUMBER)\n", size);
      case _ => Cat("(OTHER TYPE)\n", size);
    }

    method CatKobjectType(kotype: u32, size: nat)
      requires Valid() && NAME_SIZE <= size && Length() + LINE < buf.Length
      modifies this, buf
      ensures Valid() && lines == old(lines) + [KobjectTypeText(kotype)]
      ensures Length() <= old(Length()) + LINE
    {
      hide Valid, Length;
      match kotype
      case 0 => Cat("(IKOT_NONE)\n", size);
      case 1 => Cat("(IKOT_THREAD)\n", size);
      case 2 => Cat("(IKOT_TASK)\n", size);
      case 3 => Cat("(IKOT_HOST)\n", size);
      case 4 => Cat("(IKOT_HOST_PRIV)\n", size);
      case 41 => Cat("(IKOT_UNKNOWN)\n", size);
      case _ => Cat("(OTHER TYPE)\n", size);
    }

    method PrintIpcKmsg(kmsg: Kmsg, taskAddr: u64, current: Task, size: nat)
      requires Valid() && NAME_SIZE <= size && HeaderOk(kmsg.hdr) && NameOk(current)
      requires Length() + KMSG_ROOM < buf.Length
      modifies this, buf
      ensures Valid() && lines == old(lines) + KmsgLines(kmsg, taskAddr, current)
      ensures Length() <= old(Length()) + KMSG_ROOM
    {
      hide KmsgText, Rule, Field, Valid, Length, TaskLines, KmsgHead, BitsLines, HeaderLines;
      hide RemoteLines, LocalLines, HeaderOk, NameOk, Concat;
      Cat(Rule('*', 93), size);
      CatField(KmsgText(CurrentTask), size, taskAddr);
      PrintTask(current, size);
      CatHead(kmsg, size);
      CatBits(kmsg.hdr.bits, size);
      CatHeader(kmsg.hdr, size);
      CatRemote(kmsg.hdr, size);
      CatLocal(kmsg.hdr, size);
      Cat(Rule('*', 93), size);
    }

    method CatRemote(hdr: Header, size: nat)
      requires Valid() && NAME_SIZE <= size && HeaderOk(hdr)
      requires Length() + LINE + PORT_ROOM < buf.Length
      modifies this, buf
      ensures Valid() && lines == old(lines) + RemoteLines(hdr)
      ensures Length() <= old(Length()) + LINE + PORT_ROOM
    {
      hide HeaderText, Valid, Length, PortLines;
      if RemoteBits(hdr.bits) != 0 {
        Cat(HeaderText(RemoteContent), size);
        PrintIpcPort(hdr.remotePort.target, size);
      }
    }

    method CatLocal(hdr: Header, size: nat)
      requires Valid() && NAME_SIZE <= size && HeaderOk(hdr)
      requires Length() + LINE + PORT_ROOM < buf.Length
      modifies this, buf
      ensures Valid() && lines == old(lines) + LocalLines(hdr)
      ensures Length() <= old(Length()) + LINE + PORT_ROOM
    {
      hide HeaderText, Valid, Length, PortLines;
      if LocalBits(hdr.bits) != 0 {
        Cat(HeaderText(LocalContent), size);
        PrintIpcPort(hdr.localPort.target, size);
      }
    }

    method CatHead(kmsg: Kmsg, size: nat)
      requires Valid() && NAME_SIZE <= size && Length() + 5 * LINE < buf.Length
      modifies this, buf
      ensures Valid() && lines == old(lines) + KmsgHead(kmsg)
      ensures Length() <= old(Length()) + 5 * LINE
    {
      hide KmsgText, Field, Valid, Length;
      CatField(KmsgText(KmsgPtr), size, kmsg.addr);
      CatField(KmsgText(KmsgSize), size, kmsg.size);
      CatField(KmsgText(Next), size, kmsg.next);
      CatField(KmsgText(Prev), size, kmsg.prev);
      CatField(KmsgText(Hdr), size, kmsg.hdrAddr);
    }

    method PrintPortBitsText(bits: u32, size: nat)
      requires Valid() && NAME_SIZE <= size && Length() + LINE < buf.Length
      modifies this, buf
      ensures Valid() && lines == old(lines) + [PortBitsText(bits)]
      ensures Length() <= old(Length()) + LINE
    {
      hide Valid, Length;
      match bits
      case 16 => Cat("(MACH_MSG_TYPE_MOVE_RECEIVE)\n", size);
      case 17 => Cat("(MACH_MSG_TYPE_MOVE_SEND)\n", size);
      case 18 => Cat("(MACH_MSG_TYPE_MOVE_SEND_ONCE)\n", size);
      case 19 => Cat("(MACH_MSG_TYPE_COPY_SEND)\n", size);
      case 20 => Cat("(MACH_MSG_TYPE_MAKE_SEND)\n", size);
      case 21 => Cat("(MACH_MSG_TYPE_MAKE_SEND_ONCE)\n", size);
      case 22 => Cat("(MACH_MSG_TYPE_COPY_RECEIVE)\n", size);
      case 24 => Cat("(MACH_MSG_TYPE_DISPOSE_RECEIVE)\n", size);
      case 25 => Cat("(MACH_MSG_TYPE_DISPOSE_SEND)\n", size);
      case 26 => Cat("(MACH_MSG_TYPE_DISPOSE_SEND_ONCE)\n", size);
      case _ => Cat("(OTHER TYPE)\n", size);
    }

    method CatBits(bits: u32, size: nat)
      requires Valid() && NAME_SIZE <= size && Length() + 10 * LINE < buf.Length
      modifies this, buf
      ensures Valid() && lines == old(lines) + BitsLines(bits)
      ensures Length() <= old(Length()) + 10 * LINE
    {
      hide BitsText, PortBitsText, Field, Valid, Length, LocalBits, RemoteBits, VoucherBits, FlagOf;
      CatField(BitsText(Local), size, LocalBits(bits));
      PrintPortBitsText(LocalBits(bits), size);
      CatField(BitsText(Remote), size, RemoteBits(bits));
      PrintPortBitsText(RemoteBits(bits), size);
      CatField(BitsText(Voucher), size, VoucherBits(bits));
      PrintPortBitsText(VoucherBits(bits), size);
      CatField(BitsText(Complex), size, FlagOf(bits, 0x8000_0000));
      CatField(BitsText(RaiseImp), size, FlagOf(bits, 0x2000_0000));
      CatField(BitsText(ImpHold), size, FlagOf(bits, 0x1000_0000));
      CatField(BitsText(Circular), size, FlagOf(bits, 0x1000_0000));
    }

    method CatHeader(hdr: Header, size: nat)
      requires Valid() && NAME_SIZE <= size && Length() + 5 * LINE < buf.Length
      modifies this, buf
      ensures Valid() && lines == old(lines) + HeaderLines(hdr)
      ensures Length() <= old(Length()) + 5 * LINE
    {
      hide HeaderText, Field, Valid, Length;
      CatField(HeaderText(HdrSize), size, hdr.size);
      CatField(HeaderText(RemotePort), size, hdr.remotePort.Bits());
      CatField(HeaderText(LocalPort), size, hdr.localPort.Bits());
      CatField(HeaderText(VoucherName), size, hdr.voucherPortName);
      CatField(HeaderText(MsgId), size, hdr.id);
    }
  }

  function Cut(s: string, size: nat): string {
    s[..Min(|s|, size)]
  }

  /** What one number field becomes when its three parts are cut at the size. */
  function FieldCut(name: string, size: nat, num: u64): string {
    Cut(name, size) + Cut(ToDecimal(num), size) + Cut("\n", size)
  }

  lemma FieldFits(name: string, size: nat, num: u64)
    requires |name| <= size && |ToDecimal(num)| <= size && 0 < size
    ensures FieldCut(name, size, num) == Field(name, num)
  {
    assert Cut(name, size) == name;
    assert Cut(ToDecimal(num), size) == ToDecimal(num);
    assert Cut("\n", size) == "\n";
  }

  lemma NoNulSum(a: string, b: string)
    requires NoNul(a) && NoNul(b)
    ensures NoNul(a + b)
  {
  }

  lemma ConcatOne(lines: seq<string>, s: string)
    ensures Concat(lines + [s]) == Concat(lines) + s
  {
    assert (lines + [s])[..|lines|] == lines;
  }

  lemma ThreePieces(lines: seq<string>, a: string, b: string, c: string)
    ensures Concat(lines + [a] + [b] + [c]) == Concat(lines + [a + b + c])
  {
    ConcatOne(lines, a);
    ConcatOne(lines + [a], b);
    ConcatOne(lines + [a] + [b], c);
    ConcatOne(lines, a + b + c);
    assert Concat(lines) + a + b + c == Concat(lines) + (a + b + c);
  }

  lemma DigitsAreNoNul(s: string)
    requires AllDigits(s)
    ensures NoNul(s)
  {
  }
}
