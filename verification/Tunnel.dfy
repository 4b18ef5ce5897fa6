/** The control flow of tcp-tunnel/src/main.c against an arbitrary environment: every socket
    call may answer whatever the kernel may answer. The results speak of the trace of all
    calls with their answers. */
module Tunnel {

  /** The tunnel uses the sockets of two systems; descriptor numbers of one say nothing
      about the other. */
  datatype Side = Native | Qemu
  datatype Descriptor = Descriptor(side: Side, fd: int)

  const STDIN: Descriptor := Descriptor(Native, 0)

  datatype Role = Listener | Inward | Outward
  datatype Call = GetFlags | SetFlags | Bind | Listen | Connect | Recv | Send

  /** A result that is not negative, or a negative one with its error number: "nothing yet",
      or any other. */
  datatype Answer = Value(n: nat) | WouldBlock | Failure

  /** socket() succeeds or fails; accept() is called, and then hands out the inward socket or
      fails; the other calls; inet_pton(); fork(); close(). */
  datatype Event =
    | Opened(role: Role, d: Descriptor) | NoSocket(role: Role)
    | Accepting | NoConnection(later: bool)
    | Called(role: Role, d: Descriptor, call: Call, answer: Answer)
    | Converted(ok: bool) | Forked(pid: int)
    | Closed(role: Role, d: Descriptor) | StdinClosed

  // ----- Descriptor discipline -----

  /** The tunnel's sockets. A standard input that was open from the start is none of them,
      and no socket gets its number. */
  function After(before: set<Descriptor>, e: Event): set<Descriptor> {
    match e
    case Opened(_, d) => before + {d}
    case Closed(_, d) => before - {d}
    case StdinClosed => before - {STDIN}
    case _ => before
  }

  function OpenAfter(trace: seq<Event>): set<Descriptor> {
    if trace == [] then {} else After(OpenAfter(trace[..|trace| - 1]), trace[|trace| - 1])
  }

  /** Only open sockets are closed and used, whenever accept is called the listening socket,
      the first one of all, is the only one open, and closing the standard input hits no
      socket. */
  predicate Fine(before: seq<Event>, e: Event) {
    match e
    case Opened(_, d) => d !in OpenAfter(before)
    case Closed(_, d) => d in OpenAfter(before)
    case Called(_, d, _, _) => d in OpenAfter(before)
    case Accepting => before != [] && before[0].Opened? && OpenAfter(before) == {before[0].d}
    case StdinClosed => STDIN !in OpenAfter(before)
    case _ => true
  }

  predicate Disciplined(trace: seq<Event>) {
    trace == [] || (Disciplined(trace[..|trace| - 1]) && Fine(trace[..|trace| - 1], trace[|trace| - 1]))
  }

  // ----- Reactions -----

  function Peer(r: Role): Role {
    if r == Inward then Outward else Inward
  }

  predicate Moves(e: Event) {
    e.Called? && (e.call == Recv || e.call == Send)
  }

  /** The last event closed the inward socket, and the connection had been relayed before. */
  predicate WasRelayed(before: seq<Event>) {
    3 <= |before| && before[|before| - 2].Closed? && Moves(before[|before| - 3])
  }

  predicate IsCall(e: Event, role: Role, call: Call) {
    e.Called? && e.role == role && e.call == call
  }

  predicate IsClose(e: Event, role: Role) {
    e.Closed? && e.role == role
  }

  /** What the program may do next, given all answers so far. */
  predicate MayFollow(before: seq<Event>, e: Event, daemonize: bool) {
    if before == [] then (e.Opened? || e.NoSocket?) && e.role == Listener
    else
      match before[|before| - 1]
      case Opened(role, _) =>
        (match role
         case Listener => IsCall(e, Listener, GetFlags)
         case Inward => (e.Opened? || e.NoSocket?) && e.role == Outward
         case Outward => e.Converted?)
      case NoSocket(role) => role == Outward && IsClose(e, Inward)
      case Accepting => e.NoConnection? || (e.Opened? && e.role == Inward)
      case NoConnection(later) => if later then e.Accepting? else IsClose(e, Listener)
      case Converted(ok) => if ok then IsCall(e, Outward, Connect) else IsClose(e, Outward)
      case Forked(pid) => if pid < 0 then e.Accepting? else pid == 0 && e.StdinClosed?
      case StdinClosed => e.Accepting?
      case Closed(role, _) =>
        (match role
         case Listener => false
         case Inward => if WasRelayed(before) then e.Accepting? else IsClose(e, Listener)
         case Outward => IsClose(e, Inward))
      case Called(role, _, call, answer) => MayFollowCall(role, call, answer, e, daemonize)
  }

  predicate MayFollowCall(role: Role, call: Call, answer: Answer, e: Event, daemonize: bool) {
    match call
    case GetFlags => if answer.Value? then IsCall(e, role, SetFlags) else IsClose(e, role)
    case SetFlags =>
      if !answer.Value? then IsClose(e, role)
      else if role == Listener then IsCall(e, Listener, Bind)
      else IsCall(e, Inward, Recv)
    case Bind => if answer.Value? then IsCall(e, Listener, Listen) else IsClose(e, Listener)
    case Listen =>
      if !answer.Value? then IsClose(e, Listener) else if daemonize then e.Forked? else e.Accepting?
    case Connect => if answer.Value? then IsCall(e, Outward, GetFlags) else IsClose(e, Outward)
    case Recv =>
      (match answer
       case Value(n) => if n > 0 then IsCall(e, Peer(role), Send) else IsClose(e, Outward)
       case WouldBlock => IsCall(e, Peer(role), Recv)
       case Failure => IsClose(e, Outward))
    case Send => if answer.Value? then IsCall(e, role, Recv) else IsClose(e, Outward)
  }

  predicate Prompt(trace: seq<Event>, daemonize: bool) {
    trace == []
    || (Prompt(trace[..|trace| - 1], daemonize) && MayFollow(trace[..|trace| - 1], trace[|trace| - 1], daemonize))
  }

  lemma OneMore(trace: seq<Event>, e: Event, daemonize: bool)
    ensures OpenAfter(trace + [e]) == After(OpenAfter(trace), e)
    ensures Disciplined(trace + [e]) <==> Disciplined(trace) && Fine(trace, e)
    ensures Prompt(trace + [e], daemonize) <==> Prompt(trace, daemonize) && MayFollow(trace, e, daemonize)
  {
    assert (trace + [e])[..|trace|] == trace;
  }

  /** The listening and the inward sockets belong to one system, the outward ones to the other. */
  predicate Sided(trace: seq<Event>, near: Side, far: Side) {
    forall j :: 0 <= j < |trace| && trace[j].Opened? ==>
                  trace[j].d.side == if trace[j].role == Outward then far else near
  }

  // ----- What the properties of traces mean -----

  lemma {:induction false} DisciplinedMeans(trace: seq<Event>, k: nat)
    requires Disciplined(trace) && k < |trace|
    ensures trace[k].Closed? || trace[k].Called? ==> trace[k].d in OpenAfter(trace[..k])
    ensures trace[k].Opened? ==> trace[k].d !in OpenAfter(trace[..k])
    ensures trace[k].Accepting? ==> trace[0].Opened? && OpenAfter(trace[..k]) == {trace[0].d}
    ensures trace[k].StdinClosed? ==> STDIN !in OpenAfter(trace[..k])
    decreases |trace|
  {
    var before := trace[..|trace| - 1];
    if k < |before| {
      DisciplinedMeans(before, k);
      assert before[..k] == trace[..k] && before[k] == trace[k];
      assert before[0] == trace[0];
    } else {
      assert trace[..k] == before;
      assert k > 0 ==> before[0] == trace[0];
    }
  }

  /** What has gone wrong once cannot be made good. */
  lemma {:induction false} DisciplineIsLostForGood(before: seq<Event>, trace: seq<Event>)
    requires before <= trace && Disciplined(trace)
    ensures Disciplined(before)
    decreases |trace|
  {
    if |before| < |trace| {
      DisciplineIsLostForGood(before, trace[..|trace| - 1]);
    } else {
      assert before == trace;
    }
  }

  lemma {:induction false} PromptAt(trace: seq<Event>, k: nat, daemonize: bool)
    requires Prompt(trace, daemonize) && k < |trace|
    ensures MayFollow(trace[..k], trace[k], daemonize)
    decreases |trace|
  {
    hide MayFollow;
    var before := trace[..|trace| - 1];
    if k < |before| {
      PromptAt(before, k, daemonize);
      assert before[..k] == trace[..k] && before[k] == trace[k];
    }
  }

  /** Behind an accept that failed, the next event is the next accept if nothing was there
      yet, and otherwise, and only otherwise, the listening socket is closed. */
  lemma FailedAcceptMeans(trace: seq<Event>, k: nat, daemonize: bool)
    requires Prompt(trace, daemonize) && k + 1 < |trace| && trace[k].NoConnection?
    ensures trace[k].later ==> trace[k + 1] == Accepting
    ensures !trace[k].later ==> trace[k + 1].Closed? && trace[k + 1].role == Listener
  {
    PromptAt(trace, k + 1, daemonize);
  }

  /** Behind a successful accept a connection is tried. */
  lemma AcceptMeans(trace: seq<Event>, k: nat, daemonize: bool)
    requires Prompt(trace, daemonize) && k + 1 < |trace|
    ensures trace[k].Accepting? ==>
              trace[k + 1].NoConnection? || (trace[k + 1].Opened? && trace[k + 1].role == Inward)
    ensures trace[k].Opened? && trace[k].role == Inward ==>
              (trace[k + 1].Opened? || trace[k + 1].NoSocket?) && trace[k + 1].role == Outward
  {
    PromptAt(trace, k + 1, daemonize);
  }

  /** Data that one side sent is handed to the other side next. */
  lemma DataIsHandedOn(trace: seq<Event>, k: nat, daemonize: bool)
    requires Prompt(trace, daemonize) && k + 1 < |trace|
    requires trace[k].Called? && trace[k].call == Recv && trace[k].answer.Value? && trace[k].answer.n > 0
    ensures var next := trace[k + 1];
            && next.Called? && next.call == Send
            && (trace[k].role == Inward ==> next.role == Outward)
            && (trace[k].role == Outward ==> next.role == Inward)
  {
    PromptAt(trace, k + 1, daemonize);
  }

  /** On which answers a connection is over: nothing left to receive, an error that is not
      "nothing yet", or a send that failed in whatever way. On all others the next event is
      the next relaying call. */
  lemma ConnectionEndsExactly(trace: seq<Event>, k: nat, daemonize: bool)
    requires Prompt(trace, daemonize) && k + 1 < |trace|
    requires trace[k].Called? && (trace[k].call == Recv || trace[k].call == Send)
    ensures var a, next := trace[k].answer, trace[k + 1];
            var over := a == Failure || (if trace[k].call == Recv then a == Value(0) else a == WouldBlock);
            && (over ==> next.Closed? && next.role == Outward)
            && (!over ==> next.Called? && (next.call == Recv || next.call == Send))
  {
    PromptAt(trace, k + 1, daemonize);
  }

  /** Both sides are asked in turn: when one has nothing yet, or its data are handed on. */
  lemma SidesTakeTurns(trace: seq<Event>, k: nat, daemonize: bool)
    requires Prompt(trace, daemonize) && k + 1 < |trace| && trace[k].Called? && trace[k].role != Listener
    ensures trace[k].call == Recv && trace[k].answer == WouldBlock ==>
              trace[k + 1].Called? && trace[k + 1].call == Recv && trace[k + 1].role != trace[k].role
    ensures trace[k].call == Send && trace[k].answer.Value? ==>
              trace[k + 1].Called? && trace[k + 1].call == Recv && trace[k + 1].role == trace[k].role
  {
    PromptAt(trace, k + 1, daemonize);
  }

  /** After a connection the tunnel waits for the next one exactly if this one was relayed;
      one that could not be set up ends the tunnel. */
  lemma TunnelGoesOnExactly(trace: seq<Event>, k: nat, daemonize: bool)
    requires Prompt(trace, daemonize) && k + 1 < |trace| && trace[k].Closed? && trace[k].role == Inward
    ensures var relayed := 2 <= k && trace[k - 1].Closed? && trace[k - 2].Called?
                           && (trace[k - 2].call == Recv || trace[k - 2].call == Send);
            if relayed then trace[k + 1] == Accepting else trace[k + 1].Closed? && trace[k + 1].role == Listener
  {
    PromptAt(trace, k + 1, daemonize);
    var before := trace[..k + 1];
    assert before[k] == trace[k];
    assert 1 <= k ==> before[k - 1] == trace[k - 1];
    assert 2 <= k ==> before[k - 2] == trace[k - 2];
  }

  /** The set-up of the listening socket, step by step: a call that fails closes it, one that
      succeeds is followed by the next. */
  lemma ListenerSetUpMeans(trace: seq<Event>, k: nat, daemonize: bool)
    requires Prompt(trace, daemonize) && k + 1 < |trace|
    ensures trace[k].Opened? && trace[k].role == Listener ==> IsCall(trace[k + 1], Listener, GetFlags)
    ensures trace[k].Called? && trace[k].role == Listener && trace[k].call != Connect
            && trace[k].call != Recv && trace[k].call != Send ==>
              var next := trace[k + 1];
              if !trace[k].answer.Value? then IsClose(next, Listener)
              else match trace[k].call
                   case GetFlags => IsCall(next, Listener, SetFlags)
                   case SetFlags => IsCall(next, Listener, Bind)
                   case Bind => IsCall(next, Listener, Listen)
                   case _ => if daemonize then next.Forked? else next == Accepting
  {
    PromptAt(trace, k + 1, daemonize);
  }

  /** The same for a connection; then the inward side is asked for data. */
  lemma ConnectionSetUpMeans(trace: seq<Event>, k: nat, daemonize: bool)
    requires Prompt(trace, daemonize) && k + 1 < |trace|
    ensures trace[k].Opened? && trace[k].role == Outward ==> trace[k + 1].Converted?
    ensures trace[k] == Converted(true) ==> IsCall(trace[k + 1], Outward, Connect)
    ensures trace[k] == Converted(false) ==> IsClose(trace[k + 1], Outward)
    ensures trace[k].Called? && trace[k].role == Outward
            && (trace[k].call == Connect || trace[k].call == GetFlags || trace[k].call == SetFlags) ==>
              var next := trace[k + 1];
              if !trace[k].answer.Value? then IsClose(next, Outward)
              else match trace[k].call
                   case Connect => IsCall(next, Outward, GetFlags)
                   case GetFlags => IsCall(next, Outward, SetFlags)
                   case _ => IsCall(next, Inward, Recv)
  {
    PromptAt(trace, k + 1, daemonize);
  }

  /** Behind a fork, the parent does nothing more, the child closes its standard input, and
      without a child the program accepts. */
  lemma ForkMeans(trace: seq<Event>, k: nat, daemonize: bool)
    requires Prompt(trace, daemonize) && k + 1 < |trace|
    ensures trace[k].Forked? ==> trace[k].pid <= 0
    ensures trace[k].Forked? && trace[k].pid == 0 ==> trace[k + 1] == StdinClosed
    ensures trace[k].Forked? && trace[k].pid < 0 ==> trace[k + 1] == Accepting
    ensures trace[k] == StdinClosed ==> trace[k + 1] == Accepting
  {
    PromptAt(trace, k + 1, daemonize);
  }

  // ----- The environment -----

  class Kernel {
    ghost var trace: seq<Event>
    ghost const daemonize: bool
    ghost const near: Side
    ghost const far: Side
    var open: set<Descriptor>

    /** `daemonize`, `near` and `far` only tell what the program is to do. */
    ghost predicate Valid()
      reads this
    {
      open == OpenAfter(trace) && Prompt(trace, daemonize) && Sided(trace, near, far)
    }

    constructor (ghost daemonize: bool, ghost near: Side, ghost far: Side)
      ensures Valid() && trace == [] && open == {}
      ensures this.daemonize == daemonize && this.near == near && this.far == far
    {
      trace := [];
      open := {};
      this.daemonize, this.near, this.far := daemonize, near, far;
    }

    ghost predicate Due(e: Event)
      reads this
    {
      MayFollow(trace, e, daemonize)
    }

    /** Adds an event that touches no socket. */
    ghost method Note(e: Event)
      requires Valid() && Due(e) && !e.Opened? && !e.Closed? && !e.StdinClosed?
      modifies this`trace
      ensures Valid() && trace == old(trace) + [e]
      ensures Disciplined(trace) <==> old(Disciplined(trace)) && Fine(old(trace), e)
    {
      OneMore(trace, e, daemonize);
      trace := trace + [e];
    }

    /** A descriptor that is not in use, or a negative number. */
    method Unused(side: Side) returns (fd: int)
      ensures fd >= 0 ==> Descriptor(side, fd) !in open
    {
      fd := *;
      if Descriptor(side, fd) in open {
        fd := -1;
      }
    }

    /** socket() */
    method NewSocket(s: Socket) returns (fd: int)
      requires Valid() && Due(NoSocket(s.role)) && Due(Opened(s.role, STDIN))
      requires s.side == if s.role == Outward then far else near
      modifies this
      ensures Valid() && (Disciplined(trace) <==> old(Disciplined(trace)))
      ensures fd < 0 ==> trace == old(trace) + [NoSocket(s.role)] && open == old(open)
      ensures fd >= 0 ==> && Descriptor(s.side, fd) !in old(open)
                          && trace == old(trace) + [Opened(s.role, Descriptor(s.side, fd))]
                          && open == old(open) + {Descriptor(s.side, fd)}
    {
      fd := Unused(s.side);
      if fd < 0 {
        Note(NoSocket(s.role));
      } else {
        var d := Descriptor(s.side, fd);
        OneMore(trace, Opened(s.role, d), daemonize);
        open := open + {d};
        trace := trace + [Opened(s.role, d)];
      }
    }

    /** accept(): with the answer whether there is nothing yet. */
    method Accept(listener: Socket) returns (fd: int, later: bool)
      requires Valid() && Due(Accepting) && listener.side == near
      modifies this
      ensures Valid()
      ensures Disciplined(trace) <==> old(Disciplined(trace)) && Fine(old(trace), Accepting)
      ensures fd < 0 ==> trace == old(trace) + [Accepting, NoConnection(later)] && open == old(open)
      ensures fd >= 0 ==> && Descriptor(listener.side, fd) !in old(open)
                          && trace == old(trace) + [Accepting, Opened(Inward, Descriptor(listener.side, fd))]
                          && open == old(open) + {Descriptor(listener.side, fd)}
    {
      Note(Accepting);
      later := *;
      fd := Unused(listener.side);
      if fd < 0 {
        Note(NoConnection(later));
      } else {
        var d := Descriptor(listener.side, fd);
        OneMore(trace, Opened(Inward, d), daemonize);
        open := open + {d};
        trace := trace + [Opened(Inward, d)];
      }
    }

    /** close(): of a descriptor that is not open it changes nothing. */
    method Close(s: Socket)
      requires Valid() && Due(Closed(s.role, s.Named()))
      modifies this
      ensures Valid() && trace == old(trace) + [Closed(s.role, s.Named())]
      ensures open == old(open) - {s.Named()}
      ensures Disciplined(trace) <==> old(Disciplined(trace)) && s.Named() in old(open)
    {
      OneMore(trace, Closed(s.role, s.Named()), daemonize);
      open := open - {s.Named()};
      trace := trace + [Closed(s.role, s.Named())];
    }

    method CloseStdin()
      requires Valid() && Due(StdinClosed)
      modifies this
      ensures Valid() && trace == old(trace) + [StdinClosed] && open == old(open) - {STDIN}
      ensures Disciplined(trace) <==> old(Disciplined(trace)) && STDIN !in old(open)
    {
      OneMore(trace, StdinClosed, daemonize);
      open := open - {STDIN};
      trace := trace + [StdinClosed];
    }

    /** fcntl, bind, listen, connect, recv, send: any answer. */
    method Ask(s: Socket, call: Call) returns (answer: Answer)
      requires Valid() && Due(Called(s.role, s.Named(), call, Failure))
      modifies this`trace
      ensures Valid() && trace == old(trace) + [Called(s.role, s.Named(), call, answer)]
      ensures Disciplined(trace) <==> old(Disciplined(trace)) && s.Named() in old(open)
    {
      answer := *;
      Note(Called(s.role, s.Named(), call, answer));
    }

    method InetPton() returns (ok: bool)
      requires Valid() && Due(Converted(false))
      modifies this`trace
      ensures Valid() && trace == old(trace) + [Converted(ok)]
      ensures Disciplined(trace) <==> old(Disciplined(trace))
    {
      ok := *;
      Note(Converted(ok));
    }

    method Fork() returns (pid: int)
      requires Valid() && Due(Forked(0))
      modifies this`trace
      ensures Valid() && trace == old(trace) + [Forked(pid)]
      ensures Disciplined(trace) <==> old(Disciplined(trace))
    {
      pid := *;
      Note(Forked(pid));
    }
  }

  /** socket_t: the functions of one side, and a descriptor number. */
  class Socket {
    const side: Side
    const role: Role
    var fd: int

    constructor (side: Side, role: Role)
      ensures this.side == side && this.role == role && fd == -1
    {
      this.side, this.role := side, role;
      fd := -1;
    }

    function Named(): Descriptor
      reads this
    {
      Descriptor(side, fd)
    }
  }

  // ----- The program. `turns` cuts its endless loops, for runs of every length: a run is cut
  // no earlier than after that many events. -----

  /** A function returns, the process ends itself, or the run is cut. */
  datatype Outcome = Returned(value: int) | Exited | Cut

  function Last(trace: seq<Event>): Event
    requires trace != []
  {
    trace[|trace| - 1]
  }

  /** It is a side's turn to be asked for data. */
  predicate TurnOf(trace: seq<Event>, role: Role) {
    trace != [] && Last(trace).Called?
    && var e := Last(trace);
       match e.call
       case SetFlags => e.role == Outward && e.answer.Value? && role == Inward
       case Recv => e.role != Listener && e.answer.WouldBlock? && role == Peer(e.role)
       case Send => e.role != Listener && e.answer.Value? && role == e.role
       case _ => false
  }

  /** A relaying call has been answered in a way that ends the connection. */
  predicate ConnectionOver(trace: seq<Event>) {
    trace != [] && Moves(Last(trace))
    && var e := Last(trace);
       e.role != Listener
       && if e.call == Recv then e.answer == Value(0) || e.answer == Failure else !e.answer.Value?
  }

  /** Half a turn: what one side sends is handed to the other. */
  method Relay(k: Kernel, source: Socket, sink: Socket) returns (goOn: bool)
    requires k.Valid() && source.role != Listener && sink.role == Peer(source.role)
    requires TurnOf(k.trace, source.role)
    modifies k`trace
    ensures k.Valid() && old(k.trace) <= k.trace && |old(k.trace)| < |k.trace|
    ensures if goOn then TurnOf(k.trace, sink.role) else ConnectionOver(k.trace)
    ensures old(Disciplined(k.trace)) && source.Named() in k.open && sink.Named() in k.open ==> Disciplined(k.trace)
  {
    hide Disciplined, Prompt, OpenAfter, Sided;
    var received := k.Ask(source, Recv);
    match received
    case Value(n) =>
      if n > 0 {
        var sent := k.Ask(sink, Send);
        goOn := sent.Value?;
      } else {
        goOn := false;
      }
    case WouldBlock => goOn := true;
    case Failure => goOn := false;
  }

  /** Relays until one end is closed or fails; closes only the outward descriptor. */
  method SendReceive(k: Kernel, inward: Socket, outward: Socket, turns: nat) returns (outcome: Outcome)
    requires k.Valid() && inward.role == Inward && outward.role == Outward
    requires TurnOf(k.trace, Inward)
    modifies k
    ensures k.Valid() && old(k.trace) <= k.trace
    ensures outcome == Returned(0) || outcome == Cut
    ensures outcome == Cut ==> |old(k.trace)| + turns <= |k.trace|
    ensures outcome == Returned(0) ==>
              2 <= |k.trace| && Last(k.trace) == Closed(Outward, outward.Named()) && Moves(k.trace[|k.trace| - 2])
    ensures old(Disciplined(k.trace) && inward.Named() in k.open && outward.Named() in k.open) ==>
              && Disciplined(k.trace)
              && (outcome.Returned? ==> k.open == old(k.open) - {outward.Named()})
  {
    hide Disciplined, Prompt, OpenAfter, Sided;
    ghost var ready := Disciplined(k.trace) && inward.Named() in k.open && outward.Named() in k.open;
    var left := turns;
    while left > 0
      invariant k.Valid() && old(k.trace) <= k.trace && k.open == old(k.open)
      invariant TurnOf(k.trace, Inward) && |old(k.trace)| + (turns - left) <= |k.trace|
      invariant ready ==> Disciplined(k.trace)
    {
      left := left - 1;
      var goOn := Relay(k, inward, outward);
      if goOn {
        goOn := Relay(k, outward, inward);
      }
      if !goOn {
        k.Close(outward);
        return Returned(0);
      }
    }
    outcome := Cut;
  }

  /** The connection could not be set up: its socket does not exist or is closed again. */
  predicate GaveUp(trace: seq<Event>) {
    trace != []
    && (Last(trace) == NoSocket(Outward)
        || (2 <= |trace| && IsClose(Last(trace), Outward) && !Moves(trace[|trace| - 2])))
  }

  /** inet_pton, connect and fcntl; the socket is closed again if one of them fails. */
  method ConnectTo(k: Kernel, outward: Socket) returns (connected: bool)
    requires k.Valid() && outward.role == Outward
    requires k.trace != [] && Last(k.trace).Opened? && Last(k.trace).role == Outward
    modifies k
    ensures k.Valid() && old(k.trace) <= k.trace
    ensures if connected then TurnOf(k.trace, Inward) && k.open == old(k.open)
            else GaveUp(k.trace) && k.open == old(k.open) - {outward.Named()}
    ensures old(Disciplined(k.trace)) && outward.Named() in old(k.open) ==> Disciplined(k.trace)
  {
    hide Disciplined, Prompt, OpenAfter, Sided;
    var ok := k.InetPton();
    if !ok {
      k.Close(outward);
      return false;
    }
    var answer := k.Ask(outward, Connect);
    if !answer.Value? {
      k.Close(outward);
      return false;
    }
    answer := k.Ask(outward, GetFlags);
    if !answer.Value? {
      k.Close(outward);
      return false;
    }
    answer := k.Ask(outward, SetFlags);
    if !answer.Value? {
      k.Close(outward);
      return false;
    }
    connected := true;
  }

  /** Serves one connection: afterwards the same descriptors are open as before. */
  method HandleIncomingConnection(k: Kernel, inward: Socket, outward: Socket, turns: nat)
    returns (outcome: Outcome)
    requires k.Valid() && inward != outward && inward.role == Inward && outward.role == Outward
    requires k.trace != [] && Last(k.trace) == Opened(Inward, inward.Named()) && outward.side == k.far
    modifies k, outward`fd
    ensures k.Valid() && old(k.trace) <= k.trace
    ensures outcome == Returned(0) || outcome == Returned(-1) || outcome == Cut
    ensures outcome == Returned(-1) ==> GaveUp(k.trace)
    ensures outcome == Cut ==> |old(k.trace)| + turns <= |k.trace|
    ensures outcome == Returned(0) ==>
              2 <= |k.trace| && IsClose(Last(k.trace), Outward) && Moves(k.trace[|k.trace| - 2])
    ensures old(Disciplined(k.trace) && inward.Named() in k.open) ==>
              && Disciplined(k.trace)
              && (outcome.Returned? ==> k.open == old(k.open))
  {
    hide Disciplined, Prompt, OpenAfter, Sided;
    outward.fd := k.NewSocket(outward);
    if outward.fd < 0 {
      return Returned(-1);
    }
    var ok := ConnectTo(k, outward);
    if !ok {
      return Returned(-1);
    }
    outcome := SendReceive(k, inward, outward, turns);
  }

  /** A tunnel that could not listen: there was no socket, or a call failed and it was closed. */
  predicate CouldNotListen(trace: seq<Event>) {
    trace != []
    && (Last(trace) == NoSocket(Listener)
        || (2 <= |trace| && IsClose(Last(trace), Listener)
            && var e := trace[|trace| - 2]; e.Called? && e.role == Listener && !e.answer.Value?))
  }

  /** socket, fcntl, bind, listen: on success the listening socket is the only one. */
  method StartListening(k: Kernel, listener: Socket) returns (ok: bool)
    requires k.Valid() && k.trace == [] && k.open == {} && listener.role == Listener && listener.side == k.near
    modifies k, listener`fd
    ensures k.Valid() && Disciplined(k.trace)
    ensures ok ==> && k.open == {listener.Named()}
                   && k.trace != [] && k.trace[0] == Opened(Listener, listener.Named())
                   && IsCall(Last(k.trace), Listener, Listen) && Last(k.trace).answer.Value?
    ensures !ok ==> k.open == {} && CouldNotListen(k.trace)
  {
    NothingIsDisciplined();
    hide Disciplined, Prompt, OpenAfter, Sided;
    listener.fd := k.NewSocket(listener);
    if listener.fd < 0 {
      return false;
    }
    var answer := k.Ask(listener, GetFlags);
    if !answer.Value? {
      k.Close(listener);
      return false;
    }
    answer := k.Ask(listener, SetFlags);
    if !answer.Value? {
      k.Close(listener);
      return false;
    }
    answer := k.Ask(listener, Bind);
    if !answer.Value? {
      k.Close(listener);
      return false;
    }
    answer := k.Ask(listener, Listen);
    if !answer.Value? {
      k.Close(listener);
      return false;
    }
    ok := true;
  }

  lemma NothingIsDisciplined()
    ensures Disciplined([])
  {
  }

  /** The daemon branch: the parent exits, the child, and only the child, closes its standard
      input; without a child the program goes on in the foreground. */
  method Daemonize(k: Kernel) returns (exits: bool, child: bool)
    requires k.Valid() && Disciplined(k.trace) && k.daemonize
    requires k.trace != [] && IsCall(Last(k.trace), Listener, Listen) && Last(k.trace).answer.Value?
    modifies k
    ensures k.Valid() && !(exits && child) && old(k.trace) <= k.trace && k.trace != []
    ensures exits <==> Last(k.trace).Forked? && Last(k.trace).pid > 0
    ensures child ==> Last(k.trace) == StdinClosed && k.open == old(k.open) - {STDIN}
    ensures !child ==> k.open == old(k.open) && Last(k.trace).Forked? && Last(k.trace).pid != 0
    ensures Disciplined(k.trace) <==> !(child && STDIN in old(k.open))
  {
    hide Disciplined, Prompt, OpenAfter, Sided;
    exits, child := false, false;
    var pid := k.Fork();
    if pid < 0 {
    } else if pid > 0 {
      exits := true;
    } else {
      k.CloseStdin();
      child := true;
    }
  }

  lemma ClosesBehind(trace: seq<Event>, d: Descriptor, e: Descriptor, daemonize: bool)
    requires GaveUp(trace)
    ensures MayFollow(trace, Closed(Inward, d), daemonize)
    ensures MayFollow(trace + [Closed(Inward, d)], Closed(Listener, e), daemonize)
  {
    assert (trace + [Closed(Inward, d)])[|trace|] == Closed(Inward, d);
  }

  lemma AcceptsBehind(trace: seq<Event>, d: Descriptor, daemonize: bool)
    requires 2 <= |trace| && IsClose(Last(trace), Outward) && Moves(trace[|trace| - 2])
    ensures MayFollow(trace, Closed(Inward, d), daemonize)
    ensures MayFollow(trace + [Closed(Inward, d)], Accepting, daemonize)
  {
    assert (trace + [Closed(Inward, d)])[|trace|] == Closed(Inward, d);
  }

  lemma StartsAccepting(trace: seq<Event>, daemonize: bool)
    requires trace != []
    requires || (Last(trace).Forked? && Last(trace).pid < 0) || Last(trace) == StdinClosed
             || (!daemonize && IsCall(Last(trace), Listener, Listen) && Last(trace).answer.Value?)
             || Last(trace) == NoConnection(true)
    ensures MayFollow(trace, Accepting, daemonize)
  {
  }

  lemma ClosesAtOnce(trace: seq<Event>, d: Descriptor, daemonize: bool)
    requires trace != [] && Last(trace) == NoConnection(false)
    ensures MayFollow(trace, Closed(Listener, d), daemonize)
  {
  }

  /** The only ways in which the tunnel returns -1: it could not listen, or an accept failed
      for another reason than that nothing was there yet. */
  predicate FailedForGood(trace: seq<Event>) {
    || CouldNotListen(trace)
    || (2 <= |trace| && IsClose(Last(trace), Listener) && trace[|trace| - 2] == NoConnection(false))
  }

  /** The accept loop. Unless discipline was lost before, it keeps it: at its head the
      listening socket is the only one open, and when it is left none is. */
  method AcceptConnections(k: Kernel, listener: Socket, inward: Socket, outward: Socket, turns: nat)
    returns (outcome: Outcome)
    requires k.Valid() && k.Due(Accepting) && k.trace != []
    requires listener.role == Listener && inward.role == Inward && outward.role == Outward
    requires listener.side == k.near && inward.side == k.near && outward.side == k.far
    requires Disciplined(k.trace) ==> k.trace[0] == Opened(Listener, listener.Named()) && k.open == {listener.Named()}
    modifies k, inward`fd, outward`fd
    ensures k.Valid() && old(k.trace) <= k.trace
    ensures Disciplined(k.trace) <==> old(Disciplined(k.trace))
    ensures outcome.Returned? && Disciplined(k.trace) ==> k.open == {}
    ensures outcome == Returned(0) || outcome == Returned(-1) || outcome == Cut
    ensures outcome == Cut ==> |old(k.trace)| + turns <= |k.trace|
    ensures outcome == Returned(-1) ==>
              2 <= |k.trace| && IsClose(Last(k.trace), Listener) && k.trace[|k.trace| - 2] == NoConnection(false)
    ensures outcome == Returned(0) ==>
              2 <= |k.trace| && IsClose(Last(k.trace), Listener) && IsClose(k.trace[|k.trace| - 2], Inward)
  {
    hide Disciplined, Prompt, OpenAfter, Sided, MayFollow, GaveUp, Moves, CouldNotListen, TurnOf, WasRelayed, Peer;
    ghost var d, lost := listener.Named(), !Disciplined(k.trace);
    var left := turns;
    while true
      invariant k.Valid() && old(k.trace) <= k.trace && listener.Named() == d
      invariant k.Due(Accepting) && |old(k.trace)| + (turns - left) <= |k.trace|
      invariant Disciplined(k.trace) <==> !lost
      invariant !lost ==> k.open == {d}
      decreases left
    {
      if left == 0 {
        return Cut;
      }
      left := left - 1;
      ghost var before := k.trace;
      var later;
      inward.fd, later := k.Accept(listener);
      if inward.fd < 0 {
        if later {
          StartsAccepting(k.trace, k.daemonize);
        } else {
          ClosesAtOnce(k.trace, d, k.daemonize);
          k.Close(listener);
          return Returned(-1);
        }
      } else {
        ghost var accepted := k.trace;
        outcome := HandleIncomingConnection(k, inward, outward, turns);
        if Disciplined(k.trace) {
          DisciplineIsLostForGood(accepted, k.trace);
        }
        if outcome == Cut {
          return Cut;
        }
        if outcome == Returned(-1) {
          ClosesBehind(k.trace, inward.Named(), d, k.daemonize);
          break;
        }
        AcceptsBehind(k.trace, inward.Named(), k.daemonize);
        k.Close(inward);
      }
    }
    k.Close(inward);
    k.Close(listener);
    return Returned(0);
  }

  /** Whatever the environment answers, for however long: the program reacts to each answer as
      it may, and the trace is disciplined unless a daemon's standard input was closed at the
      start, so that its listening socket got number 0 and closing the standard input closes
      it. A disciplined tunnel that returns has nothing open. */
  method RunTunnel(k: Kernel, listener: Socket, inward: Socket, outward: Socket, daemonize: bool, turns: nat)
    returns (outcome: Outcome, child: bool)
    requires k.Valid() && k.trace == [] && k.open == {} && k.daemonize == daemonize
    requires listener.role == Listener && inward.role == Inward && outward.role == Outward
    requires listener.side == k.near && inward.side == k.near && outward.side == k.far
    modifies k, listener`fd, inward`fd, outward`fd
    ensures Prompt(k.trace, daemonize) && Sided(k.trace, k.near, k.far)
    ensures child ==> daemonize && k.trace != [] && k.trace[0] == Opened(Listener, listener.Named())
    ensures Disciplined(k.trace) <==> !(child && k.trace[0] == Opened(Listener, STDIN))
    ensures outcome.Returned? && Disciplined(k.trace) ==> OpenAfter(k.trace) == {}
    ensures outcome.Returned? ==> outcome.value == 0 || outcome.value == -1
    ensures outcome == Cut ==> turns <= |k.trace|
    ensures outcome == Returned(-1) ==> FailedForGood(k.trace)
    ensures outcome == Returned(0) ==>
              2 <= |k.trace| && IsClose(Last(k.trace), Listener) && IsClose(k.trace[|k.trace| - 2], Inward)
    ensures outcome == Exited ==>
              && daemonize && !child && k.trace != [] && Last(k.trace).Forked? && Last(k.trace).pid > 0
              && OpenAfter(k.trace) == {listener.Named()}
  {
    hide Disciplined, Prompt, OpenAfter, Sided, MayFollow, CouldNotListen;
    child := false;
    var ok := StartListening(k, listener);
    if !ok {
      return Returned(-1), false;
    }
    ghost var d := listener.Named();
    if daemonize {
      var exits;
      exits, child := Daemonize(k);
      if exits {
        return Exited, false;
      }
    }
    StartsAccepting(k.trace, daemonize);
    outcome := AcceptConnections(k, listener, inward, outward, turns);
  }

  /** The two ways main() pairs the sides: the listening and the inward socket agree. With
      guest sockets on the listening side there is no exception to the discipline. */
  method StartTunnel(isInward: bool, daemonize: bool, turns: nat)
    returns (k: Kernel, outcome: Outcome, child: bool)
    ensures fresh(k) && Prompt(k.trace, daemonize) && (child ==> daemonize && k.trace != [])
    ensures Disciplined(k.trace) <==> !(child && k.trace[0] == Opened(Listener, STDIN))
    ensures isInward || !daemonize ==> Disciplined(k.trace)
    ensures outcome.Returned? && Disciplined(k.trace) ==> OpenAfter(k.trace) == {}
    ensures if isInward then Sided(k.trace, Qemu, Native) else Sided(k.trace, Native, Qemu)
  {
    var near, far := if isInward then Qemu else Native, if isInward then Native else Qemu;
    k := new Kernel(daemonize, near, far);
    var listener := new Socket(near, Listener);
    var inward := new Socket(near, Inward);
    var outward := new Socket(far, Outward);
    outcome, child := RunTunnel(k, listener, inward, outward, daemonize, turns);
  }
}
