/** The kernel objects that the IPC hooks print, and the text they print for each:
    common_hooks/include/ipc-obj.h and common_hooks/src/ipc-obj.c. */
module MessageText {
  import opened Common
  import opened Decimal

  type address = n: int | 0 < n < 0x1_0000_0000_0000_0000 witness 1

  /** A C pointer: NULL, or an address with what lies there. */
  datatype Pointer<T> = Null | To(addr: address, target: T) {
    function Bits(): u64 {
      if Null? then 0 else addr
    }
  }

  /** `name` is the whole array p_name. */
  datatype BsdInfo = BsdInfo(pid: u32, name: seq<char>)
  datatype Task = Task(bsdInfo: Pointer<BsdInfo>)
  datatype Space = Space(tableSize: u32, tableFree: u32, table: u64, task: Pointer<Task>)
  datatype Port = Port(ioBits: u32, references: u32, lockData: u64, receiver: Pointer<Space>)
  datatype Header = Header(bits: u32, size: u32, remotePort: Pointer<Port>, localPort: Pointer<Port>,
                           voucherPortName: u32, id: u32)
  datatype Kmsg = Kmsg(addr: u64, size: u32, next: u64, prev: u64, hdrAddr: u64, hdr: Header)

  const NAME_SIZE: nat := 256

  /** The process name is terminated inside its array. */
  predicate NameOk(t: Task) {
    t.bsdInfo.To? ==> |t.bsdInfo.target.name| == NAME_SIZE && '\0' in t.bsdInfo.target.name
  }

  predicate SpaceOk(s: Space) {
    s.task.To? ==> NameOk(s.task.target)
  }

  predicate PortOk(p: Port) {
    p.receiver.To? ==> SpaceOk(p.receiver.target)
  }

  // ----- C strings -----

  predicate NoNul(s: string) {
    '\0' !in s
  }

  /** strlen: the index of the first terminator. */
  function StrLen(s: seq<char>): (n: nat)
    ensures n <= |s| && NoNul(s[..n])
    ensures n < |s| ==> s[n] == '\0'
    ensures '\0' in s ==> n < |s|
  {
    if s == [] || s[0] == '\0' then 0
    else
      var n := 1 + StrLen(s[1..]);
      assert s[..n] == [s[0]] + s[1..][..n - 1];
      n
  }

  function CString(s: seq<char>): (t: string)
    ensures NoNul(t)
    ensures '\0' in s ==> |t| < |s|
  {
    s[..StrLen(s)]
  }

  // ----- The fields of the flag words -----

  function IsActive(ioBits: u32): u32 { ioBits / 0x8000_0000 % 2 }
  function ObjectType(ioBits: u32): u32 { ioBits / 0x1_0000 % 0x8000 }
  function IsPreallocated(ioBits: u32): u32 { ioBits / 0x8000 % 2 }
  function KobjectType(ioBits: u32): u32 { ioBits % 0x1000 }

  function RemoteBits(bits: u32): u32 { bits % 0x20 }
  function LocalBits(bits: u32): u32 { bits / 0x100 % 0x20 }
  function VoucherBits(bits: u32): u32 { bits / 0x1_0000 % 0x20 }

  /** (bits & (1 << k)) != 0, printed as 0 or 1. */
  function FlagOf(bits: u32, mask: nat): u32
    requires mask > 0
  {
    if bits / mask % 2 == 1 then 1 else 0
  }

  // ----- The fixed texts; none is longer than LINE -----

  const LINE: nat := 94

  /** A ruler line. */
  function Rule(c: char, n: nat): (s: string)
    requires c != '\0' && n < LINE
    ensures |s| == n + 1 && NoNul(s)
  {
    seq(n, _ => c) + "\n"
  }

  datatype TaskLabel = BsdInfoPtr | Pid | TaskName

  function TaskText(l: TaskLabel): (s: string)
    ensures |s| <= 60 && NoNul(s)
  {
    match l
    case BsdInfoPtr => "task->bsd_info: "
    case Pid => "task->bsd_info->p_pid: "
    case TaskName => "task name: "
  }

  datatype SpaceLabel = TableSize | TableFree | TablePtr | SpaceTask

  function SpaceText(l: SpaceLabel): (s: string)
    ensures |s| <= 60 && NoNul(s)
  {
    match l
    case TableSize => "space->is_table_size: "
    case TableFree => "space->is_table_free: "
    case TablePtr => "space->is_table: "
    case SpaceTask => "space->is_task: "
  }

  datatype PortLabel = IoBits | Active | OType | Preallocated | KoType | References | LockData | Receiver

  function PortText(l: PortLabel): (s: string)
    ensures |s| <= 60 && NoNul(s)
  {
    match l
    case IoBits => "port->ip_object.io_bits: "
    case Active => "is_active: "
    case OType => "otype: "
    case Preallocated => "is_preallocated: "
    case KoType => "kotype: "
    case References => "port->ip_object.io_references: "
    case LockData => "port->ip_object.io_lock_data: "
    case Receiver => "port->receiver: "
  }

  function ObjectTypeText(otype: u32): (s: string)
    ensures |s| <= 60 && NoNul(s)
  {
    match otype
    case 0 => "(IOT_PORT)\n"
    case 1 => "(IOT_PORT_SET)\n"
    case 2 => "(IOT_NUMBER)\n"
    case _ => "(OTHER TYPE)\n"
  }

  function KobjectTypeText(kotype: u32): (s: string)
    ensures |s| <= 60 && NoNul(s)
  {
    match kotype
    case 0 => "(IKOT_NONE)\n"
    case 1 => "(IKOT_THREAD)\n"
    case 2 => "(IKOT_TASK)\n"
    case 3 => "(IKOT_HOST)\n"
    case 4 => "(IKOT_HOST_PRIV)\n"
    case 41 => "(IKOT_UNKNOWN)\n"
    case _ => "(OTHER TYPE)\n"
  }

  function PortBitsText(bits: u32): (s: string)
    ensures |s| <= 60 && NoNul(s)
  {
    match bits
    case 16 => "(MACH_MSG_TYPE_MOVE_RECEIVE)\n"
    case 17 => "(MACH_MSG_TYPE_MOVE_SEND)\n"
    case 18 => "(MACH_MSG_TYPE_MOVE_SEND_ONCE)\n"
    case 19 => "(MACH_MSG_TYPE_COPY_SEND)\n"
    case 20 => "(MACH_MSG_TYPE_MAKE_SEND)\n"
    case 21 => "(MACH_MSG_TYPE_MAKE_SEND_ONCE)\n"
    case 22 => "(MACH_MSG_TYPE_COPY_RECEIVE)\n"
    case 24 => "(MACH_MSG_TYPE_DISPOSE_RECEIVE)\n"
    case 25 => "(MACH_MSG_TYPE_DISPOSE_SEND)\n"
    case 26 => "(MACH_MSG_TYPE_DISPOSE_SEND_ONCE)\n"
    case _ => "(OTHER TYPE)\n"
  }

  predicate NamedRight(bits: u32) {
    16 <= bits <= 26 && bits != 23
  }

  /** The name tells the right: no two rights share one, and none is named like the others. */
  lemma RightsAreToldApart(a: u32, b: u32)
    requires NamedRight(a) && a != b
    ensures PortBitsText(a) != PortBitsText(b)
  {
  }

  datatype KmsgLabel = CurrentTask | KmsgPtr | KmsgSize | Next | Prev | Hdr
  datatype BitsLabel = Local | Remote | Voucher | Complex | RaiseImp | ImpHold | Circular
  datatype HeaderLabel =
    | HdrSize | RemotePort | LocalPort | VoucherName | MsgId | RemoteContent | LocalContent

  function KmsgText(l: KmsgLabel): (s: string)
    ensures |s| <= 60 && NoNul(s)
  {
    match l
    case CurrentTask => "current task: "
    case KmsgPtr => "ipc_kmsg_send() kmsg: "
    case KmsgSize => "kmsg->size: "
    case Next => "kmsg->next: "
    case Prev => "kmsg->prev: "
    case Hdr => "kmsg->hdr: "
  }

  function BitsText(l: BitsLabel): (s: string)
    ensures |s| <= 60 && NoNul(s)
  {
    match l
    case Local => "kmsg->hdr->msgh_bits(local): "
    case Remote => "kmsg->hdr->msgh_bits(remote): "
    case Voucher => "kmsg->hdr->msgh_bits(voucher): "
    case Complex => "kmsg->hdr->msgh_bits(is_complex): "
    case RaiseImp => "kmsg->hdr->msgh_bits(is_raiseimp_bits): "
    case ImpHold => "kmsg->hdr->msgh_bits(is_impholdasrt_bits): "
    case Circular => "kmsg->hdr->msgh_bits(is_circular_bits): "
  }

  function HeaderText(l: HeaderLabel): (s: string)
    ensures |s| <= 60 && NoNul(s)
  {
    match l
    case HdrSize => "kmsg->hdr->size: "
    case RemotePort => "kmsg->hdr->msgh_remote_port: "
    case LocalPort => "kmsg->hdr->msgh_local_port: "
    case VoucherName => "kmsg->hdr->msgh_voucher_port_name: "
    case MsgId => "kmsg->hdr->msgh_id: "
    case RemoteContent => "kmsg->hdr->msgh_remote_port CONTENT: \n"
    case LocalContent => "kmsg->hdr->msgh_local_port CONTENT: \n"
  }

  datatype Hook = KmsgSend | MqueueSend

  function Banner(h: Hook): (s: string)
    ensures |s| <= 60 && NoNul(s)
  {
    match h
    case KmsgSend => "^^^^^^^^^^^^^^^^^^^^^^^^ ipc_kmsg_send()\n"
    case MqueueSend => "^^^^^^^^^^^^^^^^^^^^^^^^ ipc_mqueue_send()\n"
  }

  // ----- What each printer appends, piece by piece -----

  function Field(name: string, n: u64): string {
    name + ToDecimal(n) + "\n"
  }

  function TaskLines(t: Task): seq<string> {
    [Rule('@', 39), Field(TaskText(BsdInfoPtr), t.bsdInfo.Bits())]
    + (if t.bsdInfo.Null? then []
       else [Field(TaskText(Pid), t.bsdInfo.target.pid),
             TaskText(TaskName), CString(t.bsdInfo.target.name), "\n"])
    + [Rule('@', 39)]
  }

  function SpaceLines(s: Space): seq<string> {
    [Rule('!', 41),
     Field(SpaceText(TableSize), s.tableSize), Field(SpaceText(TableFree), s.tableFree),
     Field(SpaceText(TablePtr), s.table), Field(SpaceText(SpaceTask), s.task.Bits())]
    + (if s.task.Null? then [] else TaskLines(s.task.target))
    + [Rule('!', 41)]
  }

  function PortFields(p: Port): seq<string> {
    [Field(PortText(IoBits), p.ioBits), Field(PortText(Active), IsActive(p.ioBits)),
     Field(PortText(OType), ObjectType(p.ioBits)), ObjectTypeText(ObjectType(p.ioBits)),
     Field(PortText(Preallocated), IsPreallocated(p.ioBits)),
     Field(PortText(KoType), KobjectType(p.ioBits)), KobjectTypeText(KobjectType(p.ioBits)),
     Field(PortText(References), p.references), Field(PortText(LockData), p.lockData),
     Field(PortText(Receiver), p.receiver.Bits())]
  }

  function PortLines(p: Port): seq<string> {
    [Rule('=', 59)] + PortFields(p)
    + (if IsActive(p.ioBits) == 0 || p.receiver.Null? then [] else SpaceLines(p.receiver.target))
    + [Rule('=', 59)]
  }

  function KmsgHead(k: Kmsg): seq<string> {
    [Field(KmsgText(KmsgPtr), k.addr), Field(KmsgText(KmsgSize), k.size),
     Field(KmsgText(Next), k.next), Field(KmsgText(Prev), k.prev), Field(KmsgText(Hdr), k.hdrAddr)]
  }

  function BitsLines(bits: u32): seq<string> {
    [Field(BitsText(Local), LocalBits(bits)), PortBitsText(LocalBits(bits)),
     Field(BitsText(Remote), RemoteBits(bits)), PortBitsText(RemoteBits(bits)),
     Field(BitsText(Voucher), VoucherBits(bits)), PortBitsText(VoucherBits(bits)),
     Field(BitsText(Complex), FlagOf(bits, 0x8000_0000)),
     Field(BitsText(RaiseImp), FlagOf(bits, 0x2000_0000)),
     Field(BitsText(ImpHold), FlagOf(bits, 0x1000_0000)),
     Field(BitsText(Circular), FlagOf(bits, 0x1000_0000))]
  }

  function HeaderLines(h: Header): seq<string> {
    [Field(HeaderText(HdrSize), h.size), Field(HeaderText(RemotePort), h.remotePort.Bits()),
     Field(HeaderText(LocalPort), h.localPort.Bits()),
     Field(HeaderText(VoucherName), h.voucherPortName), Field(HeaderText(MsgId), h.id)]
  }

  /** The printers follow these pointers whenever the matching bits are set. */
  predicate HeaderOk(h: Header) {
    && (RemoteBits(h.bits) != 0 ==> h.remotePort.To? && PortOk(h.remotePort.target))
    && (LocalBits(h.bits) != 0 ==> h.localPort.To? && PortOk(h.localPort.target))
  }

  function RemoteLines(h: Header): seq<string>
    requires HeaderOk(h)
  {
    if RemoteBits(h.bits) == 0 then [] else [HeaderText(RemoteContent)] + PortLines(h.remotePort.target)
  }

  function LocalLines(h: Header): seq<string>
    requires HeaderOk(h)
  {
    if LocalBits(h.bits) == 0 then [] else [HeaderText(LocalContent)] + PortLines(h.localPort.target)
  }

  function KmsgLines(k: Kmsg, taskAddr: u64, current: Task): seq<string>
    requires HeaderOk(k.hdr)
  {
    [Rule('*', 93), Field(KmsgText(CurrentTask), taskAddr)] + TaskLines(current)
    + KmsgHead(k) + BitsLines(k.hdr.bits) + HeaderLines(k.hdr)
    + RemoteLines(k.hdr) + LocalLines(k.hdr) + [Rule('*', 93)]
  }

  // ----- Lengths -----

  function Concat(lines: seq<string>): string {
    if lines == [] then "" else Concat(lines[..|lines| - 1]) + lines[|lines| - 1]
  }

  lemma {:induction false} ConcatAppend(a: seq<string>, b: seq<string>)
    ensures Concat(a + b) == Concat(a) + Concat(b)
    decreases |b|
  {
    if b == [] {
      assert a + b == a;
    } else {
      assert (a + b)[..|a + b| - 1] == a + b[..|b| - 1];
      ConcatAppend(a, b[..|b| - 1]);
    }
  }
}
