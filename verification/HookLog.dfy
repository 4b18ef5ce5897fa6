/** The two hooks, function-hooks/ipc_kmsg_send/src/main.c and
    function-hooks/ipc_mqueue_send/src/main.c: what one call appends to the log, and what
    any number of concurrent calls leave there. The shared mutex exists from the start. */
module HookLog {
  import opened Common
  import opened MessageText
  import opened MessageBuffer
  import opened Schedules

  const SIZE: nat := 16384

  /** One call of a hook: the message it is called for and the task that runs it. */
  datatype Event = Event(hook: Hook, kmsg: Kmsg, taskAddr: u64, current: Task)

  /** The pointers that the hooks follow are there, and names are terminated. */
  predicate EventOk(e: Event) {
    HeaderOk(e.kmsg.hdr) && NameOk(e.current)
  }

  /** Whether ipc_kmsg_send writes anything: there is a remote port with a receiver. */
  predicate HasReceiver(h: Header)
    requires HeaderOk(h)
  {
    RemoteBits(h.bits) != 0 && IsActive(h.remotePort.target.ioBits) != 0 && h.remotePort.target.receiver.To?
  }

  /** The pieces of the text that a call logs; none when it does not write. Only messages
      to the kernel, whose space has no task, are printed in full by ipc_kmsg_send. */
  function EventLines(e: Event): seq<string>
    requires EventOk(e)
  {
    match e.hook
    case MqueueSend => [Banner(e.hook)] + KmsgLines(e.kmsg, e.taskAddr, e.current)
    case KmsgSend =>
      if !HasReceiver(e.kmsg.hdr) then []
      else [Banner(e.hook)]
           + (if e.kmsg.hdr.remotePort.target.receiver.target.task.Null?
              then KmsgLines(e.kmsg, e.taskAddr, e.current) else [])
  }

  function EventText(e: Event): string
    requires EventOk(e)
  {
    Concat(EventLines(e))
  }

  /** What a call logs, case by case. ipc_kmsg_send looks at the remote rights in bits 0 to 4,
      at the activity in bit 31 of io_bits, and at the receiver: nothing without them, the
      whole report for a message to the kernel, whose space has no task, and otherwise the
      banner alone. ipc_mqueue_send always logs the whole report. */
  predicate Logs(e: Event, text: string)
    requires EventOk(e)
  {
    var hdr := e.kmsg.hdr;
    match e.hook
    case MqueueSend =>
      text == "^^^^^^^^^^^^^^^^^^^^^^^^ ipc_mqueue_send()\n" + Concat(KmsgLines(e.kmsg, e.taskAddr, e.current))
    case KmsgSend =>
      if hdr.bits % 0x20 == 0 || hdr.remotePort.Null? then text == ""
      else
        var port := hdr.remotePort.target;
        if port.ioBits < 0x8000_0000 || port.receiver.Null? then text == ""
        else if port.receiver.target.task.Null? then
          text == "^^^^^^^^^^^^^^^^^^^^^^^^ ipc_kmsg_send()\n" + Concat(KmsgLines(e.kmsg, e.taskAddr, e.current))
        else text == "^^^^^^^^^^^^^^^^^^^^^^^^ ipc_kmsg_send()\n"
  }

  lemma ActiveIsTheTopBit(ioBits: u32)
    ensures IsActive(ioBits) != 0 <==> 0x8000_0000 <= ioBits
  {
  }

  lemma BannerTexts()
    ensures Banner(KmsgSend) == "^^^^^^^^^^^^^^^^^^^^^^^^ ipc_kmsg_send()\n"
    ensures Banner(MqueueSend) == "^^^^^^^^^^^^^^^^^^^^^^^^ ipc_mqueue_send()\n"
  {
  }

  lemma BannerAndMore(banner: string, lines: seq<string>)
    ensures Concat([banner]) == banner && Concat([banner] + lines) == banner + Concat(lines)
  {
    assert [banner][..0] == [] && "" + banner == banner;
    ConcatAppend([banner], lines);
  }

  lemma EventTextIs(e: Event)
    requires EventOk(e)
    ensures Logs(e, EventText(e))
  {
    hide Banner, Concat, KmsgLines, IsActive;
    BannerTexts();
    EmptyLength();
    var report := KmsgLines(e.kmsg, e.taskAddr, e.current);
    BannerAndMore(Banner(e.hook), report);
    assert [Banner(e.hook)] + [] == [Banner(e.hook)];
    if e.hook.KmsgSend? && e.kmsg.hdr.remotePort.To? {
      ActiveIsTheTopBit(e.kmsg.hdr.remotePort.target.ioBits);
    }
  }

  /** Writing `data` at `offset` of a file: bytes are replaced, and the file grows. */
  function WriteAt(file: string, offset: nat, data: string): string {
    var padded := if offset <= |file| then file else file + seq(offset - |file|, _ => '\0');
    padded[..offset] + data + (if offset + |data| <= |padded| then padded[offset + |data|..] else [])
  }

  lemma WritingAtTheEndAppends(file: string, data: string)
    ensures WriteAt(file, |file|, data) == file + data
  {
  }

  class LogFile {
    var content: string

    constructor ()
      ensures content == ""
    {
      content := "";
    }

    /** qc_size_file */
    method Size() returns (n: nat)
      ensures n == |content|
    {
      n := |content|;
    }

    /** qc_write_file */
    method Write(data: string, offset: nat)
      modifies this
      ensures content == WriteAt(old(content), offset, data)
    {
      content := WriteAt(content, offset, data);
    }
  }

  // ----- One call -----

  /** Everything a call prints fits the buffer, terminator included, so the text that is
      logged is complete; half the buffer would do. */
  method BuildMessage(e: Event, full: bool) returns (text: string)
    requires EventOk(e)
    ensures text == Concat([Banner(e.hook)]
                           + if full then KmsgLines(e.kmsg, e.taskAddr, e.current) else [])
    ensures |text| < SIZE / 2
  {
    hide Banner, Concat, KmsgLines;
    var message := new Message(SIZE);
    EmptyLength();
    message.Cat(Banner(e.hook), SIZE);
    if full {
      message.PrintIpcKmsg(e.kmsg, e.taskAddr, e.current, SIZE);
    }
    var n := message.StrLenOf();
    text := message.buf[..n];
    assert message.lines == [Banner(e.hook)] + if full then KmsgLines(e.kmsg, e.taskAddr, e.current) else [];
  }

  lemma EmptyLength()
    ensures |Concat([])| == 0
  {
  }

  method KmsgSendHook(log: LogFile, e: Event)
    requires e.hook.KmsgSend? && EventOk(e)
    modifies log
    ensures log.content == old(log.content) + EventText(e)
    ensures var bits, port := e.kmsg.hdr.bits, e.kmsg.hdr.remotePort;
            var banner := "^^^^^^^^^^^^^^^^^^^^^^^^ ipc_kmsg_send()\n";
            && (bits % 0x20 == 0 ==> log.content == old(log.content))
            && (bits % 0x20 != 0 ==>
                  && port.To?
                  && var active, receiver := 0x8000_0000 <= port.target.ioBits, port.target.receiver;
                     && (!active || receiver.Null? ==> log.content == old(log.content))
                     && (active && receiver.To? && receiver.target.task.To? ==>
                           log.content == old(log.content) + banner)
                     && (active && receiver.To? && receiver.target.task.Null? ==>
                           log.content == old(log.content)
                                          + (banner + Concat(KmsgLines(e.kmsg, e.taskAddr, e.current)))))
  {
    EventTextIs(e);
    hide Concat, KmsgLines, Banner;
    var remoteBits := RemoteBits(e.kmsg.hdr.bits);
    if remoteBits != 0 {
      var port := e.kmsg.hdr.remotePort.target;
      if IsActive(port.ioBits) != 0 && port.receiver.To? {
        var text := BuildMessage(e, port.receiver.target.task.Null?);
        var offset := log.Size();
        WritingAtTheEndAppends(log.content, text);
        log.Write(text, offset);
        assert text == EventText(e);
        return;
      }
    }
    EmptyLength();
    assert EventText(e) == [];
  }

  method MqueueSendHook(log: LogFile, e: Event)
    requires e.hook.MqueueSend? && EventOk(e)
    modifies log
    ensures log.content == old(log.content) + EventText(e)
    ensures log.content == old(log.content) + ("^^^^^^^^^^^^^^^^^^^^^^^^ ipc_mqueue_send()\n"
                                               + Concat(KmsgLines(e.kmsg, e.taskAddr, e.current)))
  {
    EventTextIs(e);
    hide Concat, KmsgLines, Banner;
    var text := BuildMessage(e, true);
    var offset := log.Size();
    WritingAtTheEndAppends(log.content, text);
    log.Write(text, offset);
  }

  // ----- Concurrent calls -----

  /** Not called; waiting for the lock; lock taken; size read; finished writing; returned. */
  datatype Phase = Idle | Waiting | Locked | Sized(offset: nat) | Written | Done

  /** `order` is the order in which the lock was taken. */
  datatype State = State(log: string, lock: Lock, phases: seq<Phase>, order: seq<nat>)

  predicate EventsOk(es: seq<Event>) {
    forall t :: 0 <= t < |es| ==> EventOk(es[t])
  }

  function Start(log: string, es: seq<Event>): State {
    State(log, Free, seq(|es|, _ => Idle), [])
  }

  /** One step of call `t`; a call that cannot move leaves the state as it is. */
  function Step(s: State, es: seq<Event>, t: nat): (r: State)
    requires EventsOk(es) && t < |es| == |s.phases|
    ensures |r.phases| == |es|
  {
    match s.phases[t]
    case Idle => s.(phases := s.phases[t := Waiting])
    case Waiting =>
      if s.lock.Held? then s
      else s.(lock := Held(t), phases := s.phases[t := Locked], order := s.order + [t])
    case Locked =>
      if EventLines(es[t]) == [] then s.(phases := s.phases[t := Written])
      else s.(phases := s.phases[t := Sized(|s.log|)])
    case Sized(offset) =>
      s.(log := WriteAt(s.log, offset, EventText(es[t])), phases := s.phases[t := Written])
    case Written => s.(lock := Free, phases := s.phases[t := Done])
    case Done => s
  }

  /** The texts of the calls in `order`, one behind the other. */
  function Texts(es: seq<Event>, order: seq<nat>): string
    requires EventsOk(es) && forall k :: 0 <= k < |order| ==> order[k] < |es|
    decreases |order|
  {
    if order == [] then ""
    else Texts(es, order[..|order| - 1]) + EventText(es[order[|order| - 1]])
  }

  /** `texts` are what the calls in `order` log, one for each. */
  predicate IsLogOf(es: seq<Event>, order: seq<nat>, texts: seq<string>) {
    && |texts| == |order|
    && forall k :: 0 <= k < |order| ==> order[k] < |es| && EventOk(es[order[k]]) && Logs(es[order[k]], texts[k])
  }

  lemma {:induction false} TextsInFull(es: seq<Event>, order: seq<nat>) returns (texts: seq<string>)
    requires EventsOk(es) && forall k :: 0 <= k < |order| ==> order[k] < |es|
    ensures IsLogOf(es, order, texts) && Texts(es, order) == Concat(texts)
    decreases |order|
  {
    hide EventOk, EventText, Logs;
    if order == [] {
      return [];
    }
    var t := order[|order| - 1];
    var front := TextsInFull(es, order[..|order| - 1]);
    EventTextIs(es[t]);
    texts := front + [EventText(es[t])];
    assert texts[..|texts| - 1] == front;
    forall k | 0 <= k < |order|
      ensures EventOk(es[order[k]]) && Logs(es[order[k]], texts[k])
    {
      if k < |front| {
        assert order[..|order| - 1][k] == order[k];
      }
    }
  }

  predicate Outside(p: Phase) {
    p.Idle? || p.Waiting? || p.Done?
  }

  /** With the lock free, the log is the texts of all calls that took it. While it is held,
      the holder's text is missing or, once written, complete; and a size that was read is
      still the size of the log. */
  predicate Inv(s: State, log0: string, es: seq<Event>) {
    && EventsOk(es) && |s.phases| == |es| && ValidOrder(s.order, |es|)
    && (forall t :: 0 <= t < |es| ==> (t in s.order <==> !s.phases[t].Idle? && !s.phases[t].Waiting?))
    && (forall t :: 0 <= t < |es| && s.lock != Held(t) ==> Outside(s.phases[t]))
    && match s.lock
       case Free => s.log == log0 + Texts(es, s.order)
       case Held(h) =>
         && s.order != [] && h == s.order[|s.order| - 1] && !Outside(s.phases[h])
         && s.log == log0 + Texts(es, if s.phases[h].Written? then s.order else s.order[..|s.order| - 1])
         && (s.phases[h].Sized? ==> s.phases[h].offset == |s.log|)
  }

  /** The write: at the size that was read, so it appends the whole message. */
  lemma WriteKeepsInv(s: State, log0: string, es: seq<Event>, t: nat)
    requires Inv(s, log0, es) && t < |es| && s.phases[t].Sized?
    ensures Inv(Step(s, es, t), log0, es)
  {
    hide EventOk, EventText, EventLines, WriteAt;
    assert !Outside(s.phases[t]);
    WritingAtTheEndAppends(s.log, EventText(es[t]));
    var before := Texts(es, s.order[..|s.order| - 1]);
    assert (log0 + before) + EventText(es[t]) == log0 + (before + EventText(es[t]));
  }

  lemma SizeKeepsInv(s: State, log0: string, es: seq<Event>, t: nat)
    requires Inv(s, log0, es) && t < |es| && s.phases[t].Locked?
    ensures Inv(Step(s, es, t), log0, es)
  {
    hide EventOk, EventText, EventLines, WriteAt;
    assert !Outside(s.phases[t]);
    if EventLines(es[t]) == [] {
      NoLinesNoText(es[t]);
      assert s.log == log0 + (Texts(es, s.order[..|s.order| - 1]) + EventText(es[t]));
    }
  }

  lemma {:induction false} StepKeepsInv(s: State, log0: string, es: seq<Event>, t: nat)
    requires Inv(s, log0, es) && t < |es|
    ensures Inv(Step(s, es, t), log0, es)
  {
    hide EventOk, EventText, EventLines, WriteAt, Texts;
    match s.phases[t]
    case Idle =>
    case Waiting =>
      assert (s.order + [t])[..|s.order|] == s.order;
    case Locked => SizeKeepsInv(s, log0, es, t);
    case Sized(_) => WriteKeepsInv(s, log0, es, t);
    case Written =>
      assert !Outside(s.phases[t]);
    case Done =>
  }

  lemma NoLinesNoText(e: Event)
    requires EventOk(e) && EventLines(e) == []
    ensures EventText(e) == []
  {
  }

  /** The state after a schedule. */
  function Run(log: string, es: seq<Event>, schedule: seq<nat>): (s: State)
    requires EventsOk(es) && IsSchedule(schedule, |es|)
    ensures |s.phases| == |es|
    decreases |schedule|
  {
    if schedule == [] then Start(log, es)
    else Step(Run(log, es, schedule[..|schedule| - 1]), es, schedule[|schedule| - 1])
  }

  lemma StartInv(log: string, es: seq<Event>)
    requires EventsOk(es)
    ensures Inv(Start(log, es), log, es)
  {
    assert log == log + "";
  }

  lemma {:induction false} RunKeepsInv(log: string, es: seq<Event>, schedule: seq<nat>)
    requires EventsOk(es) && IsSchedule(schedule, |es|)
    ensures Inv(Run(log, es, schedule), log, es)
    decreases |schedule|
  {
    hide EventsOk, Inv, Step;
    if schedule == [] {
      StartInv(log, es);
    } else {
      var before := schedule[..|schedule| - 1];
      RunKeepsInv(log, es, before);
      StepKeepsInv(Run(log, es, before), log, es, schedule[|schedule| - 1]);
    }
  }

  /** What the log of a state looks like next to the log at the start: whole messages in the
      order in which their calls took the lock; at most the message of the call that holds
      the lock is still missing; a size that was read is the size at the write. */
  predicate WholeMessages(s: State, log0: string, es: seq<Event>)
    requires EventsOk(es) && ValidOrder(s.order, |es|)
  {
    && (s.log == log0 + Texts(es, s.order)
        || (s.lock.Held? && s.order != [] && s.log == log0 + Texts(es, s.order[..|s.order| - 1])))
    && (forall t :: 0 <= t < |s.phases| && s.phases[t].Sized? ==> s.phases[t].offset == |s.log|)
  }

  /** At every moment of every run of any number of calls. */
  lemma {:induction false} LogIsWholeMessages(log: string, es: seq<Event>, schedule: seq<nat>)
    requires EventsOk(es) && IsSchedule(schedule, |es|)
    ensures ValidOrder(Run(log, es, schedule).order, |es|)
    ensures WholeMessages(Run(log, es, schedule), log, es)
    ensures var s := Run(log, es, schedule);
            exists texts ::
              && (IsLogOf(es, s.order, texts) || (s.order != [] && IsLogOf(es, s.order[..|s.order| - 1], texts)))
              && s.log == log + Concat(texts)
  {
    hide EventLines, EventOk, EventText, Run, Step, Texts;
    RunKeepsInv(log, es, schedule);
    var s := Run(log, es, schedule);
    assert forall t :: 0 <= t < |es| && s.phases[t].Sized? ==> !Outside(s.phases[t]);
    hide Concat, IsLogOf;
    var texts := TextsInFull(es, s.order);
    if s.order != [] {
      var front := TextsInFull(es, s.order[..|s.order| - 1]);
    }
  }

  /** When every call has returned, the log holds each of their messages exactly once. */
  lemma {:induction false} AllMessagesLogged(log: string, es: seq<Event>, schedule: seq<nat>)
    requires EventsOk(es) && IsSchedule(schedule, |es|)
    requires forall t :: 0 <= t < |es| ==> Run(log, es, schedule).phases[t].Done?
    ensures var s := Run(log, es, schedule);
            && ValidOrder(s.order, |es|)
            && (forall t :: 0 <= t < |es| ==> t in s.order)
            && s.log == log + Texts(es, s.order)
            && exists texts :: IsLogOf(es, s.order, texts) && s.log == log + Concat(texts)
  {
    hide EventLines, EventOk, EventText, Run, Step, Texts;
    RunKeepsInv(log, es, schedule);
    var s := Run(log, es, schedule);
    if s.lock.Held? {
      assert false;
    }
    var texts := TextsInFull(es, s.order);
  }

  // ----- Every run can be finished -----

  /** The number of steps that a call has left. */
  function Left(p: Phase): nat {
    match p
    case Idle => 5
    case Waiting => 4
    case Locked => 3
    case Sized(_) => 2
    case Written => 1
    case Done => 0
  }

  function AllLeft(s: State): seq<nat> {
    seq(|s.phases|, t requires 0 <= t < |s.phases| => Left(s.phases[t]))
  }

  /** No deadlock: unless all calls have returned, some call can move, and then it has less
      left to do. */
  lemma SomeoneMoves(s: State, log0: string, es: seq<Event>) returns (t: nat)
    requires Inv(s, log0, es)
    requires exists u :: 0 <= u < |es| && !s.phases[u].Done?
    ensures t < |es| && Sum(AllLeft(Step(s, es, t))) < Sum(AllLeft(s))
  {
    hide EventLines, EventText, Texts, WriteAt;
    match s.lock {
      case Held(h) => t := h;
      case Free =>
        var u :| 0 <= u < |es| && !s.phases[u].Done?;
        assert Outside(s.phases[u]);
        t := u;
    }
    var less := Left(Step(s, es, t).phases[t]);
    SumDrops(AllLeft(s), t, less);
    assert AllLeft(Step(s, es, t)) == AllLeft(s)[t := less];
  }

  /** Every schedule can be continued until all calls have returned. */
  lemma {:induction false} AllCanReturn(log: string, es: seq<Event>, schedule: seq<nat>) returns (more: seq<nat>)
    requires EventsOk(es) && IsSchedule(schedule, |es|)
    ensures IsSchedule(schedule + more, |es|)
    ensures forall t :: 0 <= t < |es| ==> Run(log, es, schedule + more).phases[t].Done?
    decreases Sum(AllLeft(Run(log, es, schedule)))
  {
    hide AllLeft, EventsOk, Inv, Step;
    var s := Run(log, es, schedule);
    RunKeepsInv(log, es, schedule);
    if exists u :: 0 <= u < |es| && !s.phases[u].Done? {
      var t := SomeoneMoves(s, log, es);
      assert (schedule + [t])[..|schedule|] == schedule;
      more := AllCanReturn(log, es, schedule + [t]);
      assert schedule + [t] + more == schedule + ([t] + more);
      more := [t] + more;
    } else {
      more := [];
      assert schedule + more == schedule;
    }
  }
}
