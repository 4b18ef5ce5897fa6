/** The reports, line by line in plain text: which field stands where, under which name, and
    from which bits of the flag words it comes. The statements name neither the labels nor the
    field extractors that the printers use. */
module MessageReport {
  import opened Common
  import opened Decimal
  import opened MessageText

  /** A line: a name and a number. */
  function Line(name: string, n: nat): string {
    name + ToDecimal(n) + "\n"
  }

  // ----- Flag words -----

  /** msgh_bits: the rights of the remote, the local and the voucher port from bits 0, 8 and
      16 on, five bits each, flags in bits 28, 29 and 31; whatever the other bits are. */
  predicate PackedBits(bits: u32, remote: nat, a: nat, local: nat, b: nat, voucher: nat, c: nat,
                       bit28: nat, bit29: nat, bit30: nat, bit31: nat) {
    && remote < 0x20 && a < 8 && local < 0x20 && b < 8 && voucher < 0x20 && c < 0x80
    && bit28 < 2 && bit29 < 2 && bit30 < 2 && bit31 < 2
    && bits == remote + 0x20 * a + 0x100 * local + 0x2000 * b + 0x1_0000 * voucher + 0x20_0000 * c
               + 0x1000_0000 * bit28 + 0x2000_0000 * bit29 + 0x4000_0000 * bit30 + 0x8000_0000 * bit31
  }

  lemma BitsUnpack(bits: u32, remote: nat, a: nat, local: nat, b: nat, voucher: nat, c: nat,
                   bit28: nat, bit29: nat, bit30: nat, bit31: nat)
    requires PackedBits(bits, remote, a, local, b, voucher, c, bit28, bit29, bit30, bit31)
    ensures RemoteBits(bits) == remote && LocalBits(bits) == local && VoucherBits(bits) == voucher
    ensures FlagOf(bits, 0x1000_0000) == bit28 && FlagOf(bits, 0x2000_0000) == bit29
    ensures FlagOf(bits, 0x8000_0000) == bit31
  {
    var high29 := bit30 + 2 * bit31;
    var high28 := bit29 + 2 * high29;
    var high21 := c + 0x80 * (bit28 + 2 * high28);
    var high13 := b + 8 * (voucher + 0x20 * high21);
    var high5 := a + 8 * (local + 0x20 * high13);
    var low21 := remote + 0x20 * a + 0x100 * local + 0x2000 * b + 0x1_0000 * voucher;
    var low28 := low21 + 0x20_0000 * c;
    var low29 := low28 + 0x1000_0000 * bit28;
    Unpack(bits, high5, remote, 0x20, 0, 1);
    Unpack(bits, high13, local, 0x20, remote + 0x20 * a, 0x100);
    Unpack(bits, high21, voucher, 0x20, remote + 0x20 * a + 0x100 * local + 0x2000 * b, 0x1_0000);
    Unpack(bits, high28, bit28, 2, low28, 0x1000_0000);
    Unpack(bits, high29, bit29, 2, low29, 0x2000_0000);
    Unpack(bits, 0, bit31, 2, low29 + 0x2000_0000 * bit29 + 0x4000_0000 * bit30, 0x8000_0000);
  }

  /** io_bits: the kobject type in bits 0 to 11, the preallocation flag in bit 15, the object
      type in bits 16 to 30, the activity flag in bit 31. */
  predicate PackedIoBits(ioBits: u32, kotype: nat, a: nat, preallocated: nat, otype: nat, active: nat) {
    && kotype < 0x1000 && a < 8 && preallocated < 2 && otype < 0x8000 && active < 2
    && ioBits == kotype + 0x1000 * a + 0x8000 * preallocated + 0x1_0000 * otype + 0x8000_0000 * active
  }

  lemma IoBitsUnpack(ioBits: u32, kotype: nat, a: nat, preallocated: nat, otype: nat, active: nat)
    requires PackedIoBits(ioBits, kotype, a, preallocated, otype, active)
    ensures KobjectType(ioBits) == kotype && IsPreallocated(ioBits) == preallocated
    ensures ObjectType(ioBits) == otype && IsActive(ioBits) == active
  {
    var low15 := kotype + 0x1000 * a;
    var low16 := low15 + 0x8000 * preallocated;
    Unpack(ioBits, a + 8 * (preallocated + 2 * (otype + 0x8000 * active)), kotype, 0x1000, 0, 1);
    Unpack(ioBits, otype + 0x8000 * active, preallocated, 2, low15, 0x8000);
    Unpack(ioBits, active, otype, 0x8000, low16, 0x1_0000);
    Unpack(ioBits, 0, active, 2, low16 + 0x1_0000 * otype, 0x8000_0000);
  }

  // ----- Names -----

  lemma RightNames(bits: u32)
    ensures PortBitsText(16) == "(MACH_MSG_TYPE_MOVE_RECEIVE)\n" && PortBitsText(17) == "(MACH_MSG_TYPE_MOVE_SEND)\n"
    ensures PortBitsText(18) == "(MACH_MSG_TYPE_MOVE_SEND_ONCE)\n" && PortBitsText(19) == "(MACH_MSG_TYPE_COPY_SEND)\n"
    ensures PortBitsText(20) == "(MACH_MSG_TYPE_MAKE_SEND)\n"
    ensures PortBitsText(21) == "(MACH_MSG_TYPE_MAKE_SEND_ONCE)\n"
    ensures PortBitsText(22) == "(MACH_MSG_TYPE_COPY_RECEIVE)\n"
    ensures PortBitsText(24) == "(MACH_MSG_TYPE_DISPOSE_RECEIVE)\n"
    ensures PortBitsText(25) == "(MACH_MSG_TYPE_DISPOSE_SEND)\n"
    ensures PortBitsText(26) == "(MACH_MSG_TYPE_DISPOSE_SEND_ONCE)\n"
    ensures bits < 16 || bits == 23 || 26 < bits ==> PortBitsText(bits) == "(OTHER TYPE)\n"
  {
  }

  lemma TypeNames(otype: u32, kotype: u32)
    ensures ObjectTypeText(0) == "(IOT_PORT)\n" && ObjectTypeText(1) == "(IOT_PORT_SET)\n"
    ensures ObjectTypeText(2) == "(IOT_NUMBER)\n" && (2 < otype ==> ObjectTypeText(otype) == "(OTHER TYPE)\n")
    ensures KobjectTypeText(0) == "(IKOT_NONE)\n" && KobjectTypeText(1) == "(IKOT_THREAD)\n"
    ensures KobjectTypeText(2) == "(IKOT_TASK)\n" && KobjectTypeText(3) == "(IKOT_HOST)\n"
    ensures KobjectTypeText(4) == "(IKOT_HOST_PRIV)\n" && KobjectTypeText(41) == "(IKOT_UNKNOWN)\n"
    ensures 4 < kotype != 41 ==> KobjectTypeText(kotype) == "(OTHER TYPE)\n"
  {
  }

  // ----- Reports -----

  lemma Rules(c: char, n: nat)
    requires c != '\0' && n < LINE
    ensures |Rule(c, n)| == n + 1 && Rule(c, n)[n] == '\n'
    ensures forall i :: 0 <= i < n ==> Rule(c, n)[i] == c
  {
  }

  lemma TaskReport(t: Task)
    ensures t.bsdInfo.Null? ==> TaskLines(t) == [Rule('@', 39), Line("task->bsd_info: ", 0), Rule('@', 39)]
    ensures t.bsdInfo.To? ==>
              TaskLines(t) == [Rule('@', 39), Line("task->bsd_info: ", t.bsdInfo.addr),
                               Line("task->bsd_info->p_pid: ", t.bsdInfo.target.pid),
                               "task name: ", CString(t.bsdInfo.target.name), "\n", Rule('@', 39)]
  {
    hide Rule, CString, ToDecimal;
  }

  lemma SpaceReport(s: Space)
    ensures SpaceLines(s) == [Rule('!', 41), Line("space->is_table_size: ", s.tableSize),
                              Line("space->is_table_free: ", s.tableFree), Line("space->is_table: ", s.table),
                              Line("space->is_task: ", if s.task.Null? then 0 else s.task.addr)]
                             + (if s.task.Null? then [] else TaskLines(s.task.target)) + [Rule('!', 41)]
  {
    hide Rule, TaskLines, ToDecimal;
  }

  lemma PortFieldReport(p: Port, kotype: nat, a: nat, preallocated: nat, otype: nat, active: nat)
    requires PackedIoBits(p.ioBits, kotype, a, preallocated, otype, active)
    ensures PortFields(p)
            == [Line("port->ip_object.io_bits: ", p.ioBits), Line("is_active: ", active),
                Line("otype: ", otype), ObjectTypeText(otype), Line("is_preallocated: ", preallocated),
                Line("kotype: ", kotype), KobjectTypeText(kotype),
                Line("port->ip_object.io_references: ", p.references),
                Line("port->ip_object.io_lock_data: ", p.lockData),
                Line("port->receiver: ", if p.receiver.Null? then 0 else p.receiver.addr)]
  {
    IoBitsUnpack(p.ioBits, kotype, a, preallocated, otype, active);
    hide ToDecimal, ObjectTypeText, KobjectTypeText;
    hide IsActive, ObjectType, IsPreallocated, KobjectType, PackedIoBits;
  }

  /** The receiver is part of a port's report exactly if bit 31 of io_bits is set and there is
      a receiver. */
  lemma PortReport(p: Port, kotype: nat, a: nat, preallocated: nat, otype: nat, active: nat)
    requires PackedIoBits(p.ioBits, kotype, a, preallocated, otype, active)
    ensures PortLines(p) == [Rule('=', 59)] + PortFields(p)
                            + (if active == 0 || p.receiver.Null? then [] else SpaceLines(p.receiver.target))
                            + [Rule('=', 59)]
  {
    IoBitsUnpack(p.ioBits, kotype, a, preallocated, otype, active);
    hide Rule, PortFields, SpaceLines, IsActive, PackedIoBits;
  }

  lemma HeadReport(k: Kmsg)
    ensures KmsgHead(k)
            == [Line("ipc_kmsg_send() kmsg: ", k.addr), Line("kmsg->size: ", k.size), Line("kmsg->next: ", k.next),
                Line("kmsg->prev: ", k.prev), Line("kmsg->hdr: ", k.hdrAddr)]
  {
    hide ToDecimal;
  }

  /** The last two flags both come from bit 28. */
  lemma BitsReport(bits: u32, remote: nat, a: nat, local: nat, b: nat, voucher: nat, c: nat,
                   bit28: nat, bit29: nat, bit30: nat, bit31: nat)
    requires PackedBits(bits, remote, a, local, b, voucher, c, bit28, bit29, bit30, bit31)
    ensures BitsLines(bits)
            == [Line("kmsg->hdr->msgh_bits(local): ", local), PortBitsText(local),
                Line("kmsg->hdr->msgh_bits(remote): ", remote), PortBitsText(remote),
                Line("kmsg->hdr->msgh_bits(voucher): ", voucher), PortBitsText(voucher),
                Line("kmsg->hdr->msgh_bits(is_complex): ", bit31),
                Line("kmsg->hdr->msgh_bits(is_raiseimp_bits): ", bit29),
                Line("kmsg->hdr->msgh_bits(is_impholdasrt_bits): ", bit28),
                Line("kmsg->hdr->msgh_bits(is_circular_bits): ", bit28)]
  {
    BitsUnpack(bits, remote, a, local, b, voucher, c, bit28, bit29, bit30, bit31);
    hide ToDecimal, PortBitsText, RemoteBits, LocalBits, VoucherBits, FlagOf, PackedBits;
  }

  lemma HeaderReport(h: Header)
    ensures HeaderLines(h)
            == [Line("kmsg->hdr->size: ", h.size),
                Line("kmsg->hdr->msgh_remote_port: ", if h.remotePort.Null? then 0 else h.remotePort.addr),
                Line("kmsg->hdr->msgh_local_port: ", if h.localPort.Null? then 0 else h.localPort.addr),
                Line("kmsg->hdr->msgh_voucher_port_name: ", h.voucherPortName), Line("kmsg->hdr->msgh_id: ", h.id)]
  {
    hide ToDecimal;
  }

  lemma ContentTexts()
    ensures HeaderText(RemoteContent) == "kmsg->hdr->msgh_remote_port CONTENT: \n"
    ensures HeaderText(LocalContent) == "kmsg->hdr->msgh_local_port CONTENT: \n"
  {
  }

  /** The report shows the ports whose rights in msgh_bits are not 0. */
  lemma PortsReport(h: Header, remote: nat, a: nat, local: nat, b: nat, voucher: nat, c: nat,
                    bit28: nat, bit29: nat, bit30: nat, bit31: nat)
    requires HeaderOk(h)
    requires PackedBits(h.bits, remote, a, local, b, voucher, c, bit28, bit29, bit30, bit31)
    ensures remote != 0 ==> h.remotePort.To?
    ensures local != 0 ==> h.localPort.To?
    ensures RemoteLines(h) == if remote == 0 then []
                              else ["kmsg->hdr->msgh_remote_port CONTENT: \n"] + PortLines(h.remotePort.target)
    ensures LocalLines(h) == if local == 0 then []
                             else ["kmsg->hdr->msgh_local_port CONTENT: \n"] + PortLines(h.localPort.target)
  {
    BitsUnpack(h.bits, remote, a, local, b, voucher, c, bit28, bit29, bit30, bit31);
    ContentTexts();
    hide HeaderText, PortLines, PortOk, RemoteBits, LocalBits, PackedBits;
  }

  /** The order of a whole report. */
  lemma KmsgReport(k: Kmsg, taskAddr: u64, current: Task)
    requires HeaderOk(k.hdr)
    ensures KmsgLines(k, taskAddr, current)
            == [Rule('*', 93), Line("current task: ", taskAddr)] + TaskLines(current)
               + KmsgHead(k) + BitsLines(k.hdr.bits) + HeaderLines(k.hdr)
               + RemoteLines(k.hdr) + LocalLines(k.hdr) + [Rule('*', 93)]
  {
    hide Rule, TaskLines, ToDecimal, KmsgHead, BitsLines, HeaderLines, HeaderOk, RemoteLines, LocalLines;
  }
}
