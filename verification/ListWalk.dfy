/** The iterators over kernel lists of gdb/xnu/xnu_types.py, and the membership tests on them.
    The debugger has stopped the kernel, so the memory does not change during an iteration. */
module ListWalk {
  import opened Common

  const GLOBAL_TASKS_PTR: nat := 0xffff_fff0_0760_f9c0
  const GLOBAL_THREADS_PTR: nat := 0xffff_fff0_0760_f9e0
  const THREAD_LST_FROM_TASK: nat := 0x40

  /** What the debugger can read: 8-byte and 4-byte values by address, the addresses of
      readable strings, the register that points to the current thread, and whether the
      program counter can be read. */
  datatype Memory = Memory(
    quads: map<nat, nat>, words: map<nat, nat>, strings: set<nat>, current: Option<nat>, pcReadable: bool)

  datatype Error = GdbError | AttributeError

  /** What one call of __next__ does. */
  datatype Step = Yielded(address: nat) | StopIteration | Raised(error: Error)

  // ----- Kernel objects -----

  predicate SpaceReadable(m: Memory, a: nat) {
    a != 0 ==> a + 0x20 in m.quads && a + 0x14 in m.words && a + 0x18 in m.words
  }

  predicate BsdInfoReadable(m: Memory, a: nat) {
    a != 0 ==> a + 0x60 in m.words && a + 0x261 in m.strings
  }

  /** All fields of the task at a non-null address are readable. */
  predicate TaskReadable(m: Memory, a: nat) {
    && a + 0x358 in m.quads && a + 0xD8 in m.quads && a + 0x300 in m.quads
    && SpaceReadable(m, m.quads[a + 0x300])
    && BsdInfoReadable(m, m.quads[a + 0x358])
  }

  predicate HasSaved(m: Memory, a: nat, k: nat) {
    a + 8 + 8 * k in m.quads
  }

  /** The saved registers at an address: behind a header of 8 bytes, 33 quads and the rest. */
  predicate SavedStateReadable(m: Memory, a: nat) {
    a != 0 ==>
      && (forall k: nat :: k <= 32 ==> HasSaved(m, a, k))
      && a + 0x110 in m.words && a + 0x114 in m.words && a + 0x118 in m.quads
      && a + 0x120 in m.words && a + 0x124 in m.words
  }

  const NEXT_IN_THREAD_RUN: nat := 0xffff_fff0_070e_7d0c
  const NEXT_IN_THREAD_BLOCK: nat := 0xffff_fff0_070e_3554
  const EXCEPTION_RETURN: nat := 0xffff_fff0_070a_1800
  const INVOKE_FRAME: nat := 0x90

  /** Finding where a kernel thread goes on, from the frames on its stack. */
  predicate NextPcReadable(m: Memory, stack: nat) {
    && SavedStateReadable(m, stack)
    && (stack != 0 ==>
          && HasSaved(m, stack, 31)
          && var sp := m.quads[stack + 8 + 8 * 31];
             && sp + 0x88 in m.quads
             && var caller := m.quads[sp + 0x88];
                caller == NEXT_IN_THREAD_RUN || caller == NEXT_IN_THREAD_BLOCK ==>
                  var frame := sp + INVOKE_FRAME + if caller == NEXT_IN_THREAD_RUN then 0x38 else 0x48;
                  && frame in m.quads
                  && (m.quads[frame] == EXCEPTION_RETURN ==>
                        && sp + INVOKE_FRAME + 0x28 in m.quads
                        && SavedStateReadable(m, m.quads[sp + INVOKE_FRAME + 0x28])))
  }

  /** All that is read to build the thread at a non-null address, its task included, is
      readable. */
  predicate ThreadReadable(m: Memory, a: nat) {
    && a + 0x368 in m.quads && a + 0x3E0 in m.quads && a + 0x80 in m.quads
    && a + 0x430 in m.quads && a + 0x448 in m.quads && a + 0x510 in m.quads
    && m.current.Some?
    && (if a == m.current.value then m.pcReadable
        else if m.quads[a + 0x430] != 0 then SavedStateReadable(m, m.quads[a + 0x430])
        else m.quads[a + 0x448] != 0 ==> NextPcReadable(m, m.quads[a + 0x448]))
    && (m.quads[a + 0x368] != 0 ==> TaskReadable(m, m.quads[a + 0x368]))
  }

  /** Which reads a thread needs besides its six fields: the current one the program counter,
      one that was in user space its saved registers, any other one with a kernel stack the
      frames there; and all a readable task, unless they have none. */
  lemma ThreadNeeds(m: Memory, a: nat, task: nat, user: nat, stack: nat)
    requires a + 0x3E0 in m.quads && a + 0x80 in m.quads && a + 0x510 in m.quads
    requires a + 0x368 in m.quads && m.quads[a + 0x368] == task
    requires a + 0x430 in m.quads && m.quads[a + 0x430] == user
    requires a + 0x448 in m.quads && m.quads[a + 0x448] == stack
    ensures m.current.None? ==> !ThreadReadable(m, a)
    ensures task != 0 && !TaskReadable(m, task) ==> !ThreadReadable(m, a)
    ensures m.current.Some? && (task == 0 || TaskReadable(m, task)) ==>
              && (a == m.current.value ==> (ThreadReadable(m, a) <==> m.pcReadable))
              && (a != m.current.value && user != 0 ==> (ThreadReadable(m, a) <==> SavedStateReadable(m, user)))
              && (a != m.current.value && user == 0 != stack ==> (ThreadReadable(m, a) <==> NextPcReadable(m, stack)))
              && (a != m.current.value && user == 0 == stack ==> ThreadReadable(m, a))
  {
    hide TaskReadable, SavedStateReadable, NextPcReadable;
  }

  /** The frames that are read on a kernel stack: the caller of the switching function, and
      behind one of the two callers that are known, the place where it goes on; behind the
      return from an exception, the registers that were saved there. */
  lemma StackNeeds(m: Memory, stack: nat, sp: nat, caller: nat)
    requires stack != 0 && SavedStateReadable(m, stack) && stack + 0x100 in m.quads && m.quads[stack + 0x100] == sp
    ensures sp + 0x88 !in m.quads ==> !NextPcReadable(m, stack)
    ensures sp + 0x88 in m.quads && m.quads[sp + 0x88] == caller ==>
              && (caller == 0xffff_fff0_070e_7d0c ==>
                    (NextPcReadable(m, stack) <==> GoesOnAt(m, sp, sp + 0xC8)))
              && (caller == 0xffff_fff0_070e_3554 ==>
                    (NextPcReadable(m, stack) <==> GoesOnAt(m, sp, sp + 0xD8)))
              && (caller != 0xffff_fff0_070e_7d0c && caller != 0xffff_fff0_070e_3554 ==> NextPcReadable(m, stack))
  {
    assert stack + 8 + 8 * 31 == stack + 0x100;
    hide SavedStateReadable;
  }

  predicate GoesOnAt(m: Memory, sp: nat, frame: nat) {
    && frame in m.quads
    && (m.quads[frame] == 0xffff_fff0_070a_1800 ==>
          sp + 0xB8 in m.quads && SavedStateReadable(m, m.quads[sp + 0xB8]))
  }

  // ----- Circular lists -----

  /** A list is named by the kernel object that owns its head. */
  datatype List = Tasks | Threads | ThreadsOf(task: nat)

  /** The address of the head: its first word points to the first element, and the last
      element points back to it. */
  function Head(l: List): nat {
    match l
    case Tasks => GLOBAL_TASKS_PTR
    case Threads => GLOBAL_THREADS_PTR
    case ThreadsOf(task) => task + THREAD_LST_FROM_TASK
  }

  /** The offset of the next link inside an element. */
  function Link(l: List): nat {
    match l
    case Tasks => 0x28
    case Threads => 0x348
    case ThreadsOf(_) => 0x358
  }

  predicate Readable(m: Memory, l: List, a: nat) {
    if l.Tasks? then TaskReadable(m, a) else ThreadReadable(m, a)
  }

  /** An element of the list: readable, with a link. */
  predicate Node(m: Memory, l: List, a: nat) {
    a != Head(l) && a != 0 && Readable(m, l, a) && a + Link(l) in m.quads
  }

  function NextOf(m: Memory, l: List, a: nat): nat
    requires Node(m, l, a)
  {
    m.quads[a + Link(l)]
  }

  /** From pointer `p` the links run through exactly `elems` and then back to the head. */
  predicate Chain(m: Memory, l: List, p: nat, elems: seq<nat>) {
    var stops := elems + [Head(l)];
    && p == stops[0]
    && forall i :: 0 <= i < |elems| ==> Node(m, l, elems[i]) && NextOf(m, l, elems[i]) == stops[i + 1]
  }

  /** The links from the head form a ring through exactly `elems`. */
  predicate Ring(m: Memory, l: List, elems: seq<nat>) {
    Head(l) in m.quads && Chain(m, l, m.quads[Head(l)], elems)
  }

  /** The rings in numbers: where the three lists start, and where their elements hold the
      link to the next. */
  lemma RingInNumbers(m: Memory, task: nat, elems: seq<nat>, head: nat, link: nat, l: List)
    requires || (l == Tasks && head == 0xffff_fff0_0760_f9c0 && link == 0x28)
             || (l == Threads && head == 0xffff_fff0_0760_f9e0 && link == 0x348)
             || (l == ThreadsOf(task) && head == task + 0x40 && link == 0x358)
    ensures Ring(m, l, elems) <==>
            && head in m.quads && m.quads[head] == (elems + [head])[0]
            && forall i :: 0 <= i < |elems| ==>
                             && elems[i] != head && elems[i] != 0
                             && (if l == Tasks then TaskReadable(m, elems[i]) else ThreadReadable(m, elems[i]))
                             && elems[i] + link in m.quads && m.quads[elems[i] + link] == (elems + [head])[i + 1]
  {
    hide TaskReadable, ThreadReadable;
  }

  /** No element occurs twice in a ring. */
  lemma {:induction false} ElementsAreDistinct(m: Memory, l: List, p: nat, elems: seq<nat>, i: nat, j: nat)
    requires Chain(m, l, p, elems) && i < j < |elems|
    ensures elems[i] != elems[j]
    decreases |elems| - j
  {
    hide Readable;
    if elems[i] == elems[j] {
      var stops := elems + [Head(l)];
      assert stops[i + 1] == stops[j + 1];
      if j + 1 < |elems| {
        ElementsAreDistinct(m, l, p, elems, i + 1, j + 1);
      } else {
        assert false;
      }
    }
  }

  lemma ChainCons(m: Memory, l: List, p: nat, elems: seq<nat>)
    requires elems != []
    ensures Chain(m, l, p, elems) <==>
            p == elems[0] && Node(m, l, p) && Chain(m, l, NextOf(m, l, p), elems[1..])
  {
    hide Node, NextOf;
    var stops, rest := elems + [Head(l)], elems[1..] + [Head(l)];
    assert stops[1..] == rest;
    if p == elems[0] && Node(m, l, p) && Chain(m, l, NextOf(m, l, p), elems[1..]) {
      forall i | 0 <= i < |elems|
        ensures Node(m, l, elems[i]) && NextOf(m, l, elems[i]) == stops[i + 1]
      {
        if i > 0 {
          assert elems[i] == elems[1..][i - 1];
          assert stops[i + 1] == rest[i];
        }
      }
    }
    if Chain(m, l, p, elems) {
      forall i | 0 <= i < |elems[1..]|
        ensures Node(m, l, elems[1..][i]) && NextOf(m, l, elems[1..][i]) == rest[i + 1]
      {
        assert elems[1..][i] == elems[i + 1];
        assert rest[i + 1] == stops[i + 2];
      }
    }
  }

  // ----- One step, and a walk of several -----

  /** What __next__ does at pointer `p`, and the pointer it leaves. */
  function StepFrom(m: Memory, l: List, p: nat): (Step, nat) {
    if p == Head(l) then (StopIteration, p)
    else if p == 0 then (Raised(AttributeError), p)
    else if !Readable(m, l, p) || p + Link(l) !in m.quads then (Raised(GdbError), p)
    else (Yielded(p), m.quads[p + Link(l)])
  }

  datatype End = Stopped | Failed(error: Error) | Running

  /** The addresses yielded by at most `n` calls of __next__, and where that leads. */
  function Walk(m: Memory, l: List, p: nat, n: nat): (seq<nat>, End)
    decreases n
  {
    if n == 0 then ([], Running)
    else
      var (step, next) := StepFrom(m, l, p);
      match step
      case Yielded(a) => var rest := Walk(m, l, next, n - 1); ([a] + rest.0, rest.1)
      case StopIteration => ([], Stopped)
      case Raised(e) => ([], Failed(e))
  }

  /** The pointer after `n` calls. */
  function After(m: Memory, l: List, p: nat, n: nat): nat
    decreases n
  {
    if n == 0 then p else After(m, l, StepFrom(m, l, p).1, n - 1)
  }

  /** A walk yields `elems` and stops exactly when the links run through `elems` to the head. */
  lemma {:induction false} WalkFollowsChain(m: Memory, l: List, p: nat, elems: seq<nat>, n: nat)
    requires n > |elems|
    ensures Walk(m, l, p, n) == (elems, Stopped) <==> Chain(m, l, p, elems)
    decreases |elems|
  {
    hide Readable;
    if elems != [] {
      hide Chain;
      ChainCons(m, l, p, elems);
      if Node(m, l, p) {
        var next := NextOf(m, l, p);
        WalkFollowsChain(m, l, next, elems[1..], n - 1);
        assert Walk(m, l, p, n).0 == [p] + Walk(m, l, next, n - 1).0;
        assert elems == [elems[0]] + elems[1..];
        assert ([p] + Walk(m, l, next, n - 1).0)[1..] == Walk(m, l, next, n - 1).0;
      }
    }
  }

  lemma {:induction false} WalkSplits(m: Memory, l: List, p: nat, a: nat, b: nat)
    requires Walk(m, l, p, a).1.Running?
    ensures Walk(m, l, p, a + b).0 == Walk(m, l, p, a).0 + Walk(m, l, After(m, l, p, a), b).0
    ensures Walk(m, l, p, a + b).1 == Walk(m, l, After(m, l, p, a), b).1
    ensures After(m, l, p, a + b) == After(m, l, After(m, l, p, a), b)
    decreases a
  {
    hide Readable;
    if a > 0 {
      WalkSplits(m, l, StepFrom(m, l, p).1, a - 1, b);
    }
  }

  /** A walk that is still running was running all along, and yielded the pointers it was at. */
  lemma {:induction false} WalkRan(m: Memory, l: List, p: nat, n: nat, k: nat)
    requires Walk(m, l, p, n).1.Running? && k <= n
    ensures Walk(m, l, p, k).1.Running? && |Walk(m, l, p, n).0| == n
    ensures k < n ==> Walk(m, l, p, n).0[k] == After(m, l, p, k) && Node(m, l, After(m, l, p, k))
    decreases n
  {
    hide Readable;
    if n > 0 {
      var next := StepFrom(m, l, p).1;
      WalkRan(m, l, next, n - 1, if k > 0 then k - 1 else 0);
    }
  }

  lemma {:induction false} Pigeonhole(s: seq<nat>, holes: set<nat>) returns (i: nat, j: nat)
    requires |s| > |holes|
    requires forall k :: 0 <= k < |s| ==> s[k] in holes
    ensures i < j < |s| && s[i] == s[j]
    decreases |s|
  {
    var n := |s| - 1;
    if k :| 0 <= k < n && s[k] == s[n] {
      return k, n;
    }
    i, j := Pigeonhole(s[..n], holes - {s[n]});
  }

  /** A walk longer than the memory has words has come back to an element before. */
  lemma LongWalkRepeats(m: Memory, l: List, p: nat, n: nat) returns (i: nat, j: nat)
    requires Walk(m, l, p, n).1.Running? && n > |m.quads|
    ensures i < j < n && After(m, l, p, i) == After(m, l, p, j)
  {
    hide StepFrom, Walk;
    var links := seq(n, k requires 0 <= k < n => After(m, l, p, k) + Link(l));
    forall k | 0 <= k < n
      ensures links[k] in m.quads.Keys
    {
      WalkRan(m, l, p, n, k);
    }
    assert |m.quads.Keys| == |m.quads|;
    i, j := Pigeonhole(links, m.quads.Keys);
  }

  /** From pointer `p` the links run through `elems` and then back to one of them, never
      passing the head. */
  predicate LoopsBack(m: Memory, l: List, p: nat, elems: seq<nat>, back: nat) {
    && back < |elems| && elems[0] == p
    && forall i :: 0 <= i < |elems| ==>
                     Node(m, l, elems[i]) && NextOf(m, l, elems[i]) == (elems + [elems[back]])[i + 1]
  }

  lemma {:induction false} LoopRunsOn(m: Memory, l: List, elems: seq<nat>, back: nat, k: nat, n: nat)
    requires elems != [] && LoopsBack(m, l, elems[0], elems, back) && k < |elems|
    ensures Walk(m, l, elems[k], n).1.Running?
    decreases n
  {
    hide Readable;
    if n > 0 {
      assert Node(m, l, elems[k]);
      LoopRunsOn(m, l, elems, back, if k + 1 < |elems| then k + 1 else back, n - 1);
    }
  }

  /** A walk longer than the memory has words goes round a loop. */
  lemma LongWalkLoops(m: Memory, l: List, p: nat, n: nat) returns (elems: seq<nat>, back: nat)
    requires Walk(m, l, p, n).1.Running? && n > |m.quads|
    ensures LoopsBack(m, l, p, elems, back)
  {
    hide Readable, Walk;
    var i, j := LongWalkRepeats(m, l, p, n);
    elems, back := seq(j, k requires 0 <= k < j => After(m, l, p, k)), i;
    forall k | 0 <= k < j
      ensures Node(m, l, elems[k]) && NextOf(m, l, elems[k]) == (elems + [elems[back]])[k + 1]
    {
      WalkRan(m, l, p, n, k);
      AfterOneMore(m, l, p, k);
    }
  }

  lemma {:induction false} AfterOneMore(m: Memory, l: List, p: nat, k: nat)
    ensures After(m, l, p, k + 1) == StepFrom(m, l, After(m, l, p, k)).1
    decreases k
  {
    hide StepFrom;
    if k > 0 {
      AfterOneMore(m, l, StepFrom(m, l, p).1, k - 1);
    } else {
      assert After(m, l, p, 1) == After(m, l, StepFrom(m, l, p).1, 0);
    }
  }

  lemma RingFitsInMemory(m: Memory, l: List, p: nat, elems: seq<nat>)
    requires Chain(m, l, p, elems)
    ensures |elems| <= |m.quads|
  {
    if |elems| > |m.quads| {
      var links := seq(|elems|, k requires 0 <= k < |elems| => elems[k] + Link(l));
      assert |m.quads.Keys| == |m.quads|;
      var i, j := Pigeonhole(links, m.quads.Keys);
      ElementsAreDistinct(m, l, p, elems, i, j);
    }
  }

  // ----- Whole iterations -----

  /** The three ways in which list(iter(...)) can go. */
  datatype Listing = Listed(addresses: seq<nat>) | Error(error: Error) | NeverEnds

  /** __iter__ (or the constructor, for tasks) succeeds. */
  predicate Startable(m: Memory, l: List) {
    Head(l) in m.quads && (l.ThreadsOf? ==> TaskReadable(m, l.task))
  }

  function Iteration(m: Memory, l: List): Listing {
    if !Startable(m, l) then Error(GdbError)
    else
      var (addresses, end) := Walk(m, l, m.quads[Head(l)], |m.quads| + 1);
      match end
      case Stopped => Listed(addresses)
      case Failed(e) => Error(e)
      case Running => NeverEnds
  }

  /** An iteration lists `elems` exactly when the links form a ring through `elems`, in that
      order; then `elems` are distinct, so each is listed once. */
  lemma {:induction false} ListsExactlyTheRing(m: Memory, l: List, elems: seq<nat>)
    requires Startable(m, l)
    ensures Iteration(m, l) == Listed(elems) <==> Ring(m, l, elems)
    ensures Ring(m, l, elems) ==> forall i, j :: 0 <= i < j < |elems| ==> elems[i] != elems[j]
  {
    hide Chain, StepFrom, TaskReadable, Walk;
    var first := m.quads[Head(l)];
    var n := |m.quads| + 1;
    var listed := Walk(m, l, first, n);
    if listed == (elems, Stopped) {
      WalkLength(m, l, first, n);
      WalkFollowsChain(m, l, first, elems, n);
    }
    if Ring(m, l, elems) {
      RingFitsInMemory(m, l, first, elems);
      WalkFollowsChain(m, l, first, elems, n);
      forall i, j | 0 <= i < j < |elems|
        ensures elems[i] != elems[j]
      {
        ElementsAreDistinct(m, l, first, elems, i, j);
      }
    }
  }

  lemma {:induction false} WalkLength(m: Memory, l: List, p: nat, n: nat)
    ensures if Walk(m, l, p, n).1.Running? then |Walk(m, l, p, n).0| == n else |Walk(m, l, p, n).0| < n
    decreases n
  {
    hide Readable;
    if n > 0 && StepFrom(m, l, p).0.Yielded? {
      WalkLength(m, l, StepFrom(m, l, p).1, n - 1);
    }
  }

  /** An iteration never ends exactly when the links from the head loop back to an element
      without passing the head; then no number of calls ends it. */
  lemma {:induction false} NeverEndsExactly(m: Memory, l: List)
    requires Startable(m, l)
    ensures Iteration(m, l) == NeverEnds <==>
            exists elems, back :: LoopsBack(m, l, m.quads[Head(l)], elems, back)
    ensures Iteration(m, l) == NeverEnds ==> forall n :: Walk(m, l, m.quads[Head(l)], n).1.Running?
  {
    hide LoopsBack, StepFrom, TaskReadable, Walk;
    var first, bound := m.quads[Head(l)], |m.quads| + 1;
    if Iteration(m, l) == NeverEnds {
      var elems, back := LongWalkLoops(m, l, first, bound);
    }
    if elems, back :| LoopsBack(m, l, first, elems, back) {
      forall n
        ensures Walk(m, l, first, n).1.Running?
      {
        LoopStarts(m, l, first, elems, back);
        LoopRunsOn(m, l, elems, back, 0, n);
      }
      assert Walk(m, l, first, bound).1.Running?;
    }
  }

  lemma LoopStarts(m: Memory, l: List, p: nat, elems: seq<nat>, back: nat)
    requires LoopsBack(m, l, p, elems, back)
    ensures elems != [] && elems[0] == p
  {
  }

  /** It happens: a task whose link points to itself. */
  lemma SelfLinkNeverEnds()
    ensures var m := Memory(map[GLOBAL_TASKS_PTR := 8, 8 + 0x28 := 8, 8 + 0x358 := 0, 8 + 0xD8 := 0, 8 + 0x300 := 0],
                            map[], {}, None, false);
            Startable(m, Tasks) && Iteration(m, Tasks) == NeverEnds
  {
    var m := Memory(map[GLOBAL_TASKS_PTR := 8, 8 + 0x28 := 8, 8 + 0x358 := 0, 8 + 0xD8 := 0, 8 + 0x300 := 0],
                    map[], {}, None, false);
    assert Node(m, Tasks, 8) && NextOf(m, Tasks, 8) == 8;
    assert LoopsBack(m, Tasks, 8, [8], 0);
    hide Iteration, LoopsBack, Node;
    NeverEndsExactly(m, Tasks);
  }

  /** A memory with one task, at 0x1000, its space at 0x2000 and its process at 0x3000, and
      one thread of it at 0x4000, in no other state than waiting. */
  function SmallKernel(): Memory {
    Memory(map[0xffff_fff0_0760_f9c0 := 0x1000, 0x1028 := 0xffff_fff0_0760_f9c0,
               0x1358 := 0x3000, 0x10D8 := 7, 0x1300 := 0x2000, 0x2020 := 7,
               0x1040 := 0x4000, 0x4358 := 0x1040,
               0xffff_fff0_0760_f9e0 := 0x4000, 0x4348 := 0xffff_fff0_0760_f9e0,
               0x4368 := 0x1000, 0x43E0 := 7, 0x4080 := 7, 0x4430 := 0, 0x4448 := 0, 0x4510 := 7],
           map[0x2014 := 7, 0x2018 := 7, 0x3060 := 7], {0x3261}, Some(0x5000), false)
  }

  lemma SmallKernelObjects()
    ensures TaskReadable(SmallKernel(), 0x1000) && ThreadReadable(SmallKernel(), 0x4000)
  {
  }

  /** Its three lists are listed. */
  lemma SmallKernelIsListed()
    ensures Iteration(SmallKernel(), Tasks) == Listed([0x1000])
    ensures Iteration(SmallKernel(), Threads) == Listed([0x4000])
    ensures Iteration(SmallKernel(), ThreadsOf(0x1000)) == Listed([0x4000])
  {
    hide SmallKernel, Iteration;
    OneElementIsListed(Tasks, 0, 0x1000, 0xffff_fff0_0760_f9c0, 0x28);
    OneElementIsListed(Threads, 0, 0x4000, 0xffff_fff0_0760_f9e0, 0x348);
    OneElementIsListed(ThreadsOf(0x1000), 0x1000, 0x4000, 0x1040, 0x358);
  }

  lemma OneElementIsListed(l: List, task: nat, a: nat, head: nat, link: nat)
    requires || (l == Tasks && a == 0x1000 && head == 0xffff_fff0_0760_f9c0 && link == 0x28)
             || (l == Threads && a == 0x4000 && head == 0xffff_fff0_0760_f9e0 && link == 0x348)
             || (l == ThreadsOf(0x1000) && task == 0x1000 && a == 0x4000 && head == 0x1040 && link == 0x358)
    ensures Iteration(SmallKernel(), l) == Listed([a])
  {
    var m := SmallKernel();
    SmallKernelObjects();
    hide TaskReadable, ThreadReadable, Iteration, Ring;
    assert head in m.quads && m.quads[head] == a && a + link in m.quads && m.quads[a + link] == head;
    hide SmallKernel;
    RingInNumbers(m, task, [a], head, link, l);
    assert Startable(m, l);
    ListsExactlyTheRing(m, l, [a]);
  }

  /** The memory without one 8-byte value. */
  function Without(m: Memory, a: nat): Memory {
    m.(quads := m.quads - {a})
  }

  /** Each field of the task is needed to list it. */
  lemma TaskNeedsItsFields(a: nat)
    requires a == 0x1028 || a == 0x1358 || a == 0x10D8 || a == 0x1300 || a == 0x2020
    ensures Iteration(Without(SmallKernel(), a), Tasks) == Error(GdbError)
  {
    var m := Without(SmallKernel(), a);
    assert !TaskReadable(m, 0x1000) || 0x1028 !in m.quads;
    OneStepFails(m, Tasks);
  }

  /** And each field of the thread. */
  lemma ThreadNeedsItsFields(a: nat)
    requires a == 0x4348 || a == 0x4368 || a == 0x43E0 || a == 0x4080 || a == 0x4430 || a == 0x4448 || a == 0x4510
    ensures Iteration(Without(SmallKernel(), a), Threads) == Error(GdbError)
  {
    var m := Without(SmallKernel(), a);
    assert !ThreadReadable(m, 0x4000) || 0x4348 !in m.quads;
    OneStepFails(m, Threads);
  }

  lemma OneStepFails(m: Memory, l: List)
    requires Startable(m, l)
    requires var p := m.quads[Head(l)]; p != Head(l) && p != 0 && (!Readable(m, l, p) || p + Link(l) !in m.quads)
    ensures Iteration(m, l) == Error(GdbError)
  {
    WalkStep(m, l, m.quads[Head(l)], |m.quads| + 1);
    hide Walk, Readable;
  }

  // ----- The iterator objects -----

  class ThreadsIterator {
    const isGlobal: bool
    const taskPtr: nat
    var nextThreadPtr: Option<nat>
    var stopCondition: Option<nat>

    /** Use Create, which refuses a null task. */
    constructor (isGlobal: bool, taskPtr: nat)
      ensures this.isGlobal == isGlobal && this.taskPtr == taskPtr
      ensures nextThreadPtr == None && stopCondition == None
    {
      this.isGlobal, this.taskPtr := isGlobal, taskPtr;
      nextThreadPtr, stopCondition := None, None;
    }

    static method Create(isGlobal: bool, task: Option<nat>) returns (it: Option<ThreadsIterator>)
      ensures it.None? <==> !isGlobal && (task.None? || task.value == 0)
      ensures it.Some? ==> fresh(it.value) && it.value.isGlobal == isGlobal
      ensures it.Some? ==> it.value.nextThreadPtr == None && it.value.stopCondition == None
      ensures it.Some? && !isGlobal ==> task == Some(it.value.taskPtr)
    {
      if isGlobal {
        var created := new ThreadsIterator(true, 0);
        return Some(created);
      }
      if task.Some? && task.value != 0 {
        var created := new ThreadsIterator(false, task.value);
        return Some(created);
      }
      return None;
    }

    function Walked(): List {
      if isGlobal then Threads else ThreadsOf(taskPtr)
    }

    /** Before __iter__ there is neither a pointer nor a stop condition. */
    predicate Valid()
      reads this
    {
      stopCondition == if nextThreadPtr.None? then None else Some(Head(Walked()))
    }

    /** Starting again is allowed at any time. */
    method Iter(m: Memory) returns (error: Option<Error>)
      requires Valid()
      modifies this
      ensures Valid()
      ensures error == if Startable(m, Walked()) then None else Some(GdbError)
      ensures nextThreadPtr == if error.None? then Some(m.quads[Head(Walked())]) else old(nextThreadPtr)
    {
      if isGlobal {
        if GLOBAL_THREADS_PTR !in m.quads {
          return Some(GdbError);
        }
        nextThreadPtr := Some(m.quads[GLOBAL_THREADS_PTR]);
        stopCondition := Some(GLOBAL_THREADS_PTR);
      } else {
        var threadsLstPtr := taskPtr + THREAD_LST_FROM_TASK;
        if !TaskReadable(m, taskPtr) || threadsLstPtr !in m.quads {
          return Some(GdbError);
        }
        nextThreadPtr := Some(m.quads[threadsLstPtr]);
        stopCondition := Some(taskPtr + THREAD_LST_FROM_TASK);
      }
      error := None;
    }

    method Next(m: Memory) returns (step: Step)
      requires Valid()
      modifies this
      ensures Valid()
      ensures old(nextThreadPtr).None? ==> step == StopIteration && nextThreadPtr == None
      ensures old(nextThreadPtr).Some? ==>
                nextThreadPtr.Some? && (step, nextThreadPtr.value) == StepFrom(m, Walked(), old(nextThreadPtr).value)
      ensures old(nextThreadPtr).Some? ==>
                var p, head := old(nextThreadPtr).value, if isGlobal then 0xffff_fff0_0760_f9e0 else taskPtr + 0x40;
                var link := p + if isGlobal then 0x348 else 0x358;
                && (step == StopIteration <==> p == head)
                && (step == Raised(AttributeError) <==> p == 0 != head)
                && (step == Raised(GdbError) <==> p != head && p != 0 && (!ThreadReadable(m, p) || link !in m.quads))
                && (step.Yielded? ==> step.address == p && nextThreadPtr.value == m.quads[link])
                && (!step.Yielded? ==> nextThreadPtr.value == p)
    {
      hide ThreadReadable;
      if nextThreadPtr == stopCondition {
        return StopIteration;
      }
      var result := nextThreadPtr.value;
      if result == 0 {
        return Raised(AttributeError);
      }
      var link := result + if isGlobal then 0x348 else 0x358;
      if !ThreadReadable(m, result) || link !in m.quads {
        return Raised(GdbError);
      }
      nextThreadPtr := Some(m.quads[link]);
      step := Yielded(result);
    }
  }

  class TasksIterator {
    var nextTaskPtr: nat

    constructor (first: nat)
      ensures nextTaskPtr == first
    {
      nextTaskPtr := first;
    }

    /** None stands for the GdbError of an unreadable head. */
    static method Create(m: Memory) returns (it: Option<TasksIterator>)
      ensures it.Some? <==> Startable(m, Tasks)
      ensures it.Some? ==> fresh(it.value) && it.value.nextTaskPtr == m.quads[GLOBAL_TASKS_PTR]
    {
      if GLOBAL_TASKS_PTR !in m.quads {
        return None;
      }
      var created := new TasksIterator(m.quads[GLOBAL_TASKS_PTR]);
      it := Some(created);
    }

    method Next(m: Memory) returns (step: Step)
      modifies this
      ensures (step, nextTaskPtr) == StepFrom(m, Tasks, old(nextTaskPtr))
      ensures var p, head, link := old(nextTaskPtr), 0xffff_fff0_0760_f9c0, old(nextTaskPtr) + 0x28;
              && (step == StopIteration <==> p == head)
              && (step == Raised(AttributeError) <==> p == 0)
              && (step == Raised(GdbError) <==> p != head && p != 0 && (!TaskReadable(m, p) || link !in m.quads))
              && (step.Yielded? ==> step.address == p && nextTaskPtr == m.quads[link])
              && (!step.Yielded? ==> nextTaskPtr == p)
    {
      hide TaskReadable;
      if nextTaskPtr == GLOBAL_TASKS_PTR {
        return StopIteration;
      }
      if nextTaskPtr == 0 {
        return Raised(AttributeError);
      }
      var link := nextTaskPtr + 0x28;
      if !TaskReadable(m, nextTaskPtr) || link !in m.quads {
        return Raised(GdbError);
      }
      step := Yielded(nextTaskPtr);
      nextTaskPtr := m.quads[link];
    }
  }

  lemma WalkNothing(m: Memory, l: List, p: nat)
    ensures Walk(m, l, p, 0) == ([], Running)
  {
  }

  lemma WalkStep(m: Memory, l: List, p: nat, n: nat)
    requires n > 0
    ensures var (step, next) := StepFrom(m, l, p);
            match step
            case Yielded(a) => Walk(m, l, p, n).0 == [a] + Walk(m, l, next, n - 1).0
                               && Walk(m, l, p, n).1 == Walk(m, l, next, n - 1).1
            case StopIteration => Walk(m, l, p, n) == ([], Stopped)
            case Raised(e) => Walk(m, l, p, n) == ([], Failed(e))
  {
  }

  /** list(iter(TasksIterator())). The loop gives up when the iteration cannot end any more. */
  method ListTasks(m: Memory) returns (r: Listing)
    ensures r == Iteration(m, Tasks)
  {
    hide TaskReadable, StepFrom, Walk;
    var created := TasksIterator.Create(m);
    if created.None? {
      return Error(GdbError);
    }
    var it, addresses := created.value, [];
    ghost var first := it.nextTaskPtr;
    var bound := |m.quads| + 1;
    for calls := 0 to bound
      invariant |addresses| == calls
      invariant Walk(m, Tasks, first, bound).0 == addresses + Walk(m, Tasks, it.nextTaskPtr, bound - calls).0
      invariant Walk(m, Tasks, first, bound).1 == Walk(m, Tasks, it.nextTaskPtr, bound - calls).1
    {
      WalkStep(m, Tasks, it.nextTaskPtr, bound - calls);
      var step := it.Next(m);
      match step
      case Yielded(address) =>
        addresses := addresses + [address];
      case StopIteration =>
        return Listed(addresses);
      case Raised(e) =>
        return Error(e);
    }
    WalkNothing(m, Tasks, it.nextTaskPtr);
    r := NeverEnds;
  }

  /** list(iter(ThreadsIterator(...))); without a task the constructor raises GdbError. */
  method ListThreads(m: Memory, isGlobal: bool, task: Option<nat>) returns (r: Listing)
    ensures r == if isGlobal then Iteration(m, Threads)
                 else if task.Some? && task.value != 0 then Iteration(m, ThreadsOf(task.value))
                 else Error(GdbError)
  {
    hide TaskReadable, StepFrom, Walk;
    var created := ThreadsIterator.Create(isGlobal, task);
    if created.None? {
      return Error(GdbError);
    }
    var it, addresses := created.value, [];
    ghost var l := it.Walked();
    var error := it.Iter(m);
    if error.Some? {
      return Error(error.value);
    }
    ghost var first := it.nextThreadPtr.value;
    var bound := |m.quads| + 1;
    for calls := 0 to bound
      invariant it.Valid() && it.nextThreadPtr.Some? && |addresses| == calls
      invariant Walk(m, l, first, bound).0 == addresses + Walk(m, l, it.nextThreadPtr.value, bound - calls).0
      invariant Walk(m, l, first, bound).1 == Walk(m, l, it.nextThreadPtr.value, bound - calls).1
    {
      WalkStep(m, l, it.nextThreadPtr.value, bound - calls);
      var step := it.Next(m);
      match step
      case Yielded(address) =>
        addresses := addresses + [address];
      case StopIteration =>
        return Listed(addresses);
      case Raised(e) =>
        return Error(e);
    }
    WalkNothing(m, l, it.nextThreadPtr.value);
    r := NeverEnds;
  }

  /** The exception of the iteration is the exception of the test. */
  datatype Answer = Known(present: bool) | Failure(error: Error) | Endless

  /** The test answers exactly when the links form a ring, and then it tells membership; it
      does not return exactly when the links loop back without passing the head. */
  method IsTaskExist(m: Memory, task: nat) returns (answer: Answer)
    ensures forall elems :: Ring(m, Tasks, elems) ==> answer == Known(task in elems)
    ensures answer.Known? ==> exists elems :: Ring(m, Tasks, elems)
    ensures answer.Endless? <==>
            Startable(m, Tasks) && exists elems, back :: LoopsBack(m, Tasks, m.quads[Head(Tasks)], elems, back)
  {
    hide Chain, Iteration, LoopsBack;
    ListingDecides(m, Tasks);
    var listing := ListTasks(m);
    match listing
    case Listed(addresses) => answer := Known(task in addresses);
    case Error(e) => answer := Failure(e);
    case NeverEnds => answer := Endless;
  }

  method IsThreadExist(m: Memory, thread: nat) returns (answer: Answer)
    ensures forall elems :: Ring(m, Threads, elems) ==> answer == Known(thread in elems)
    ensures answer.Known? ==> exists elems :: Ring(m, Threads, elems)
    ensures answer.Endless? <==>
            Startable(m, Threads) && exists elems, back :: LoopsBack(m, Threads, m.quads[Head(Threads)], elems, back)
  {
    hide Chain, Iteration, LoopsBack;
    ListingDecides(m, Threads);
    var listing := ListThreads(m, true, None);
    match listing
    case Listed(addresses) => answer := Known(thread in addresses);
    case Error(e) => answer := Failure(e);
    case NeverEnds => answer := Endless;
  }

  lemma ListingDecides(m: Memory, l: List)
    requires !l.ThreadsOf?
    ensures forall elems :: Ring(m, l, elems) ==> Iteration(m, l) == Listed(elems)
    ensures Iteration(m, l).Listed? ==> Ring(m, l, Iteration(m, l).addresses)
    ensures Iteration(m, l).NeverEnds? <==>
            Startable(m, l) && exists elems, back :: LoopsBack(m, l, m.quads[Head(l)], elems, back)
  {
    hide Chain, LoopsBack, Walk;
    if Startable(m, l) {
      NeverEndsExactly(m, l);
      forall elems | Ring(m, l, elems)
        ensures Iteration(m, l) == Listed(elems)
      {
        ListsExactlyTheRing(m, l, elems);
      }
      if Iteration(m, l).Listed? {
        ListsExactlyTheRing(m, l, Iteration(m, l).addresses);
      }
    }
  }

  // ----- Entries of an IPC space -----

  const ENTRY_SIZE: nat := 0x18

  predicate ObjectReadable(m: Memory, a: nat) {
    a != 0 ==> a in m.words && a + 0x04 in m.words && a + 0x08 in m.quads && a + 0x10 in m.quads
  }

  /** All fields of the entry at a non-null address are readable. */
  predicate EntryReadable(m: Memory, a: nat) {
    && a in m.quads && a + 0x08 in m.words && a + 0x0C in m.words && a + 0x10 in m.words
    && ObjectReadable(m, m.quads[a])
  }

  /** The entry names a right: bits 16 to 20 of ie_bits, the mask 0x001f0000, are not all 0. */
  predicate Live(m: Memory, a: nat)
    requires EntryReadable(m, a)
  {
    m.words[a + 0x08] / 0x1_0000 % 0x20 != 0
  }

  /** What an entry needs: four fields of its own and, if it has an object, four of that. */
  lemma EntryNeeds(m: Memory, a: nat, obj: nat)
    requires a in m.quads && m.quads[a] == obj
    ensures EntryReadable(m, a) <==>
            && a + 8 in m.words && a + 12 in m.words && a + 16 in m.words
            && (obj == 0 ||
                (obj in m.words && obj + 4 in m.words && obj + 8 in m.quads && obj + 16 in m.quads))
  {
  }

  /** The type bits of an entry, five of them from bit 16 on, decide; all others do not. */
  lemma LiveMeans(m: Memory, a: nat, low: nat, rights: nat, high: nat)
    requires EntryReadable(m, a) && low < 0x1_0000 && rights < 0x20
    requires m.words[a + 0x08] == low + 0x1_0000 * rights + 0x20_0000 * high
    ensures Live(m, a) <==> rights != 0
  {
    Unpack(m.words[a + 0x08], high, rights, 0x20, low, 0x1_0000);
  }

  function EntryAt(table: nat, index: nat): nat {
    table + index * ENTRY_SIZE
  }

  predicate Sound(m: Memory, table: nat, index: nat) {
    EntryAt(table, index) != 0 && EntryReadable(m, EntryAt(table, index))
  }

  predicate AllSound(m: Memory, table: nat, lo: nat, hi: nat) {
    forall i: nat :: lo <= i < hi ==> Sound(m, table, i)
  }

  /** The live entries among indices [lo, hi), in order. */
  function LiveEntries(m: Memory, table: nat, lo: nat, hi: nat): seq<nat>
    requires lo <= hi && AllSound(m, table, lo, hi)
    decreases hi
  {
    if lo == hi then []
    else
      assert Sound(m, table, hi - 1);
      var a := EntryAt(table, hi - 1);
      LiveEntries(m, table, lo, hi - 1) + if Live(m, a) then [a] else []
  }

  class IPCEntryIterator {
    const entry: nat
    const size: nat
    var index: nat

    constructor (entry: nat, size: nat)
      ensures this.entry == entry && this.size == size && index == 0
    {
      this.entry, this.size, index := entry, size, 0;
    }

    /** None stands for an error: the pointer is unreadable (GdbError), its space is
        unreadable (GdbError), or it is null and readable (AttributeError). */
    static method Create(m: Memory, address: nat) returns (it: Option<IPCEntryIterator>)
      ensures it.Some? <==> address in m.quads && address != 0 && SpaceReadable(m, address)
      ensures it.Some? ==> fresh(it.value) && it.value.index == 0
      ensures it.Some? ==> it.value.entry == m.quads[address + 0x20] && it.value.size == m.words[address + 0x14]
    {
      if address !in m.quads || address == 0 || !SpaceReadable(m, address) {
        return None;
      }
      var created := new IPCEntryIterator(m.quads[address + 0x20], m.words[address + 0x14]);
      it := Some(created);
    }

    /** Skips the entries that are not live. An entry that cannot be read stays the next one;
        a null entry, possible at index 0 only, is passed over by the error. */
    method Next(m: Memory) returns (step: Step)
      requires index <= size
      modifies this
      ensures old(index) <= index <= size
      ensures step.Yielded? ==>
                && old(index) < index
                && step.address == EntryAt(entry, index - 1)
                && AllSound(m, entry, old(index), index) && Sound(m, entry, index - 1)
                && Live(m, EntryAt(entry, index - 1))
                && LiveEntries(m, entry, old(index), index - 1) == []
      ensures step.StopIteration? ==>
                && index == size
                && AllSound(m, entry, old(index), size)
                && LiveEntries(m, entry, old(index), size) == []
      ensures step.Raised? ==>
                var bad := if step.error == AttributeError then index - 1 else index;
                && old(index) <= bad < size && AllSound(m, entry, old(index), bad)
                && (step.error == AttributeError <==> EntryAt(entry, bad) == 0)
                && (step.error == GdbError ==> !EntryReadable(m, EntryAt(entry, bad)))
    {
      hide EntryReadable;
      while index < size
        invariant old(index) <= index <= size
        invariant AllSound(m, entry, old(index), index)
        invariant LiveEntries(m, entry, old(index), index) == []
      {
        var result := entry + index * ENTRY_SIZE;
        if result != 0 && !EntryReadable(m, result) {
          return Raised(GdbError);
        }
        index := index + 1;
        if result == 0 {
          return Raised(AttributeError);
        }
        assert Sound(m, entry, index - 1);
        if Live(m, result) {
          return Yielded(result);
        }
      }
      step := StopIteration;
    }
  }

  lemma {:induction false} LiveEntriesJoin(m: Memory, table: nat, lo: nat, mid: nat, hi: nat)
    requires lo <= mid <= hi && AllSound(m, table, lo, hi)
    ensures LiveEntries(m, table, lo, hi) == LiveEntries(m, table, lo, mid) + LiveEntries(m, table, mid, hi)
    decreases hi - mid
  {
    hide Sound;
    if mid < hi {
      LiveEntriesJoin(m, table, lo, mid, hi - 1);
    }
  }

  lemma OneLiveEntry(m: Memory, table: nat, lo: nat, hi: nat)
    requires lo < hi && AllSound(m, table, lo, hi) && Sound(m, table, hi - 1)
    requires LiveEntries(m, table, lo, hi - 1) == [] && Live(m, EntryAt(table, hi - 1))
    ensures LiveEntries(m, table, lo, hi) == [EntryAt(table, hi - 1)]
  {
  }

  /** The whole iteration, as the entry-list command runs it: it lists the live entries of
      the table in order, and fails exactly when some entry of the table is null or unreadable. */
  method ListEntries(m: Memory, address: nat) returns (entries: Option<seq<nat>>)
    requires address in m.quads && address != 0 && SpaceReadable(m, address)
    ensures entries.Some? <==> AllSound(m, m.quads[address + 0x20], 0, m.words[address + 0x14])
    ensures entries.Some? ==>
              entries.value == LiveEntries(m, m.quads[address + 0x20], 0, m.words[address + 0x14])
  {
    assert LiveEntries(m, m.quads[address + 0x20], 0, 0) == [];
    hide EntryReadable, LiveEntries, Live;
    var created := IPCEntryIterator.Create(m, address);
    var it, found := created.value, [];
    var table, size := it.entry, it.size;
    while true
      invariant it.entry == table && it.size == size && it.index <= size
      invariant AllSound(m, table, 0, it.index)
      invariant found == LiveEntries(m, table, 0, it.index)
      decreases size - it.index
    {
      var before := it.index;
      var step := it.Next(m);
      match step
      case Yielded(a) =>
        LiveEntriesJoin(m, table, 0, before, it.index);
        OneLiveEntry(m, table, before, it.index);
        found := found + [a];
      case StopIteration =>
        LiveEntriesJoin(m, table, 0, before, size);
        return Some(found);
      case Raised(e) =>
        assert !Sound(m, table, if e == AttributeError then it.index - 1 else it.index);
        return None;
    }
  }

  /** What is listed, and in which order: the entries at the indices `at`, which are all the
      live ones, ascending. */
  lemma {:induction false} LiveEntriesAreTheLiveOnes(m: Memory, table: nat, size: nat) returns (at: seq<nat>)
    requires AllSound(m, table, 0, size)
    ensures |at| == |LiveEntries(m, table, 0, size)|
    ensures forall k :: 0 <= k < |at| ==> at[k] < size && LiveEntries(m, table, 0, size)[k] == table + 0x18 * at[k]
    ensures forall j, k :: 0 <= j < k < |at| ==> at[j] < at[k]
    ensures forall i: nat :: i < size ==> (i in at <==> Sound(m, table, i) && Live(m, EntryAt(table, i)))
    decreases size
  {
    hide Live, EntryReadable;
    if size == 0 {
      return [];
    }
    assert Sound(m, table, size - 1);
    at := LiveEntriesAreTheLiveOnes(m, table, size - 1);
    if Live(m, EntryAt(table, size - 1)) {
      at := at + [size - 1];
    }
  }
}
