/** Concurrent requests on one block device, as a state machine over the steps of
    AlephBlockDevice_doAsyncReadWrite in aleph_bdev_drv/src/aleph_block_dev.c. All requests
    share the host file and the one staging buffer; a mutex spans each block loop. Every
    request has its own memory. A schedule is any sequence of request numbers. */
module BlockConcurrency {
  import opened Bytes
  import opened Common
  import opened BlockTransfer
  import opened Schedules

  datatype Request = Request(isRead: bool, block: nat, n: nat)

  /** Not called yet; waiting for the lock; about to fill the staging buffer for block `i`;
      about to drain it; returned. */
  datatype Phase = Idle | Waiting | Fill(i: nat) | Drain(i: nat) | Done

  /** The data that requests work on. */
  datatype Store = Store(file: seq<byte>, mems: seq<seq<byte>>)

  /** `order` records the order in which the lock was taken, `filledBy` who filled the
      staging buffer last, and with which block. */
  datatype State = State(
    store: Store, staging: seq<byte>, lock: Lock, phases: seq<Phase>,
    order: seq<nat>, filledBy: (nat, nat))

  // ----- Requests and their serial meaning -----

  predicate Fits(store: Store, r: Request, mem: seq<byte>) {
    InRange(|store.file|, r.block, r.n) && Moved(|store.file|, r.block, r.n) <= |mem|
  }

  /** Every request lies in the advertised range and its memory has the room. */
  predicate WellFormed(store: Store, reqs: seq<Request>) {
    && |store.mems| == |reqs|
    && forall t :: 0 <= t < |reqs| ==> Fits(store, reqs[t], store.mems[t])
  }

  /** The first `i` blocks of request `t`, as one flat copy. */
  function Partly(store: Store, reqs: seq<Request>, t: nat, i: nat): (r: Store)
    requires WellFormed(store, reqs) && t < |reqs| && i <= reqs[t].n
    ensures WellFormed(r, reqs) && |r.file| == |store.file|
  {
    var q := reqs[t];
    MovedGrows(|store.file|, q.block, i, q.n);
    if q.isRead then store.(mems := store.mems[t := ReadInto(store.file, store.mems[t], q.block, i)])
    else store.(file := WriteFrom(store.file, store.mems[t], q.block, i))
  }

  function Whole(store: Store, reqs: seq<Request>, t: nat): (r: Store)
    requires WellFormed(store, reqs) && t < |reqs|
    ensures WellFormed(r, reqs) && |r.file| == |store.file|
  {
    Partly(store, reqs, t, reqs[t].n)
  }

  /** The requests in `order`, one after the other. */
  function Serial(store: Store, reqs: seq<Request>, order: seq<nat>): (r: Store)
    requires WellFormed(store, reqs) && forall k :: 0 <= k < |order| ==> order[k] < |reqs|
    ensures WellFormed(r, reqs) && |r.file| == |store.file|
    decreases |order|
  {
    if order == [] then store
    else Whole(Serial(store, reqs, order[..|order| - 1]), reqs, order[|order| - 1])
  }

  /** What serving one more request does, in bytes: a read replaces the start of its own
      memory by its piece of the file, a write its piece of the file by the start of its own
      memory; all else stays. */
  lemma {:induction false} SerialInBytes(store: Store, reqs: seq<Request>, order: seq<nat>, t: nat)
    requires WellFormed(store, reqs) && t < |reqs| && IsSchedule(order, |reqs|)
    ensures Serial(store, reqs, []) == store
    ensures var before, after := Serial(store, reqs, order), Serial(store, reqs, order + [t]);
            var mem, file := before.mems[t], before.file;
            var lo, hi := 4096 * reqs[t].block, Min(4096 * (reqs[t].block + reqs[t].n), |file|);
            && (reqs[t].n == 0 ==> after == before)
            && (reqs[t].n > 0 ==> lo < hi <= |file| && hi - lo <= |mem|)
            && (reqs[t].n > 0 && reqs[t].isRead ==>
                  && after.file == file
                  && after.mems == before.mems[t := file[lo..hi] + mem[hi - lo..]])
            && (reqs[t].n > 0 && !reqs[t].isRead ==>
                  && after.mems == before.mems
                  && after.file == file[..lo] + mem[..hi - lo] + file[hi..])
  {
    var before := Serial(store, reqs, order);
    assert (order + [t])[..|order|] == order;
    assert before.mems[t := before.mems[t]] == before.mems;
    hide InRange, Moved, Serial, Splice;
    if reqs[t].n > 0 {
      TransferInBytes(before.file, before.mems[t], reqs[t].block, reqs[t].n);
    }
  }

  // ----- Steps -----

  function Start(store: Store, reqs: seq<Request>): State {
    State(store, seq(BLOCK, _ => 0), Free, seq(|reqs|, _ => Idle), [], (0, 0))
  }

  /** Where block `i` of a request lies in the file, and how long it is. */
  function ChunkLen(store: Store, reqs: seq<Request>, t: nat, i: nat): (len: nat)
    requires WellFormed(store, reqs) && t < |reqs| && i < reqs[t].n
    ensures len <= BLOCK && 0 <= Blocks(i) && Blocks(i) + len <= |store.mems[t]|
    ensures 0 <= Blocks(reqs[t].block + i) && Blocks(reqs[t].block + i) + len <= |store.file|
  {
    var q, size := reqs[t], |store.file|;
    MovedGrows(size, q.block, i + 1, q.n);
    AllButTheLastAreFull(size, q.block, q.n, i);
    Min(BLOCK, size - Blocks(q.block + i))
  }

  /** The bytes of block `i`, at the end they come from: the file or the memory. */
  function Payload(store: Store, reqs: seq<Request>, t: nat, i: nat): (data: seq<byte>)
    requires WellFormed(store, reqs) && t < |reqs| && i < reqs[t].n
    ensures |data| == ChunkLen(store, reqs, t, i)
  {
    var len := ChunkLen(store, reqs, t, i);
    if reqs[t].isRead then store.file[Blocks(reqs[t].block + i)..Blocks(reqs[t].block + i) + len]
    else store.mems[t][Blocks(i)..Blocks(i) + len]
  }

  /** The store with `data` as block `i`, at the end it goes to. */
  function Placed(store: Store, reqs: seq<Request>, t: nat, i: nat, data: seq<byte>): (r: Store)
    requires WellFormed(store, reqs) && t < |reqs| && i < reqs[t].n
    requires |data| == ChunkLen(store, reqs, t, i)
    ensures WellFormed(r, reqs) && |r.file| == |store.file|
  {
    if reqs[t].isRead then store.(mems := store.mems[t := Splice(store.mems[t], Blocks(i), data)])
    else store.(file := Splice(store.file, Blocks(reqs[t].block + i), data))
  }

  predicate Formed(s: State, reqs: seq<Request>) {
    WellFormed(s.store, reqs) && |s.phases| == |reqs| && |s.staging| == BLOCK
  }

  /** One step of request `t`. A request that cannot move (the lock is taken, or it has
      returned) leaves the state as it is. */
  function Step(s: State, reqs: seq<Request>, t: nat): (r: State)
    requires Formed(s, reqs) && t < |reqs|
    ensures Formed(r, reqs)
  {
    match s.phases[t]
    case Idle => s.(phases := s.phases[t := Waiting])
    case Waiting =>
      if s.lock.Held? then s
      else s.(lock := Held(t), phases := s.phases[t := Fill(0)], order := s.order + [t])
    case Fill(i) =>
      if i >= reqs[t].n then s.(lock := Free, phases := s.phases[t := Done])
      else s.(staging := Splice(s.staging, 0, Payload(s.store, reqs, t, i)),
              filledBy := (t, i), phases := s.phases[t := Drain(i)])
    case Drain(i) =>
      if i >= reqs[t].n then s
      else s.(store := Placed(s.store, reqs, t, i, s.staging[..ChunkLen(s.store, reqs, t, i)]),
              phases := s.phases[t := Fill(i + 1)])
    case Done => s
  }

  // ----- The invariant -----

  predicate Outside(p: Phase) {
    p.Idle? || p.Waiting? || p.Done?
  }

  /** The staging buffer holds the holder's current block, and the holder put it there. */
  predicate Carries(s: State, reqs: seq<Request>, t: nat, i: nat)
    requires WellFormed(s.store, reqs) && t < |reqs| && i < reqs[t].n && |s.staging| == BLOCK
  {
    && s.filledBy == (t, i)
    && s.staging[..ChunkLen(s.store, reqs, t, i)] == Payload(s.store, reqs, t, i)
  }

  /** Who has taken the lock so far. */
  predicate OrderMatches(order: seq<nat>, phases: seq<Phase>) {
    forall t :: 0 <= t < |phases| ==> (t in order <==> !phases[t].Idle? && !phases[t].Waiting?)
  }

  predicate AllOutsideBut(phases: seq<Phase>, lock: Lock) {
    forall t :: 0 <= t < |phases| && lock != Held(t) ==> Outside(phases[t])
  }

  predicate Shape(s: State, store0: Store, reqs: seq<Request>) {
    && WellFormed(store0, reqs) && Formed(s, reqs)
    && ValidOrder(s.order, |reqs|) && OrderMatches(s.order, s.phases)
    && AllOutsideBut(s.phases, s.lock)
  }

  /** With the lock free, the store is the serial result; with the lock held, it is the
      serial result of the others and the blocks the holder has already moved. */
  predicate Inv(s: State, store0: Store, reqs: seq<Request>) {
    && Shape(s, store0, reqs)
    && match s.lock
       case Free => s.store == Serial(store0, reqs, s.order)
       case Held(h) =>
         && s.order != [] && h == s.order[|s.order| - 1]
         && (s.phases[h].Fill? || s.phases[h].Drain?)
         && s.phases[h].i <= reqs[h].n
         && s.store == Partly(Serial(store0, reqs, s.order[..|s.order| - 1]), reqs, h, s.phases[h].i)
         && (s.phases[h].Drain? ==> s.phases[h].i < reqs[h].n && Carries(s, reqs, h, s.phases[h].i))
  }

  // ----- Every step keeps the invariant -----

  lemma PartlyNothing(store: Store, reqs: seq<Request>, t: nat)
    requires WellFormed(store, reqs) && t < |reqs|
    ensures Partly(store, reqs, t, 0) == store
  {
    assert store.mems[t := store.mems[t]] == store.mems;
  }

  /** Placing the payload of the next block is moving one block more. */
  lemma PartlyStep(store: Store, reqs: seq<Request>, t: nat, i: nat)
    requires WellFormed(store, reqs) && t < |reqs| && i < reqs[t].n
    ensures var s := Partly(store, reqs, t, i);
            Partly(store, reqs, t, i + 1) == Placed(s, reqs, t, i, Payload(s, reqs, t, i))
  {
    hide Splice, Moved, InRange, ReadInto, WriteFrom;
    var q := reqs[t];
    MovedGrows(|store.file|, q.block, i, q.n);
    MovedGrows(|store.file|, q.block, i + 1, q.n);
    if q.isRead {
      var a, b := ReadInto(store.file, store.mems[t], q.block, i), ReadInto(store.file, store.mems[t], q.block, i + 1);
      assert store.mems[t := a][t := b] == store.mems[t := b];
      ReadStep(store.file, store.mems[t], q.block, q.n, i);
    } else {
      WriteStep(store.file, store.mems[t], q.block, q.n, i);
    }
  }

  /** A step of the holder that neither takes nor releases the lock keeps the shape. */
  lemma HolderMoves(s: State, s': State, store0: Store, reqs: seq<Request>, t: nat)
    requires Shape(s, store0, reqs) && t < |reqs| && s.lock == s'.lock == Held(t)
    requires s'.order == s.order && t in s.order
    requires |s'.phases| == |s.phases| && s'.phases == s.phases[t := s'.phases[t]]
    requires s'.phases[t].Fill? || s'.phases[t].Drain?
    requires WellFormed(s'.store, reqs) && |s'.staging| == BLOCK
    ensures Shape(s', store0, reqs)
  {
  }

  lemma StepKeepsOrder(s: State, reqs: seq<Request>, t: nat)
    requires Formed(s, reqs) && t < |reqs|
    ensures s.order <= Step(s, reqs, t).order
  {
  }

  lemma StartInv(store: Store, reqs: seq<Request>)
    requires WellFormed(store, reqs)
    ensures Inv(Start(store, reqs), store, reqs)
  {
  }

  lemma LockStep(s: State, store0: Store, reqs: seq<Request>, t: nat)
    requires Inv(s, store0, reqs) && t < |reqs| && s.phases[t].Waiting? && s.lock.Free?
    ensures Inv(Step(s, reqs, t), store0, reqs)
  {
    var s' := Step(s, reqs, t);
    assert s'.order[..|s'.order| - 1] == s.order;
    PartlyNothing(s.store, reqs, t);
  }

  lemma UnlockStep(s: State, store0: Store, reqs: seq<Request>, t: nat)
    requires Inv(s, store0, reqs) && t < |reqs| && s.phases[t].Fill? && s.phases[t].i >= reqs[t].n
    ensures Inv(Step(s, reqs, t), store0, reqs)
  {
  }

  lemma FillStep(s: State, store0: Store, reqs: seq<Request>, t: nat)
    requires Inv(s, store0, reqs) && t < |reqs| && s.phases[t].Fill? && s.phases[t].i < reqs[t].n
    ensures Inv(Step(s, reqs, t), store0, reqs)
  {
    SpliceReadsBack(s.staging, 0, Payload(s.store, reqs, t, s.phases[t].i));
  }

  lemma DrainStep(s: State, store0: Store, reqs: seq<Request>, t: nat)
    requires Inv(s, store0, reqs) && t < |reqs| && s.phases[t].Drain?
    ensures Inv(Step(s, reqs, t), store0, reqs)
  {
    var others, i := Serial(store0, reqs, s.order[..|s.order| - 1]), s.phases[t].i;
    assert !Outside(s.phases[t]);
    assert s.store == Partly(others, reqs, t, i) && Carries(s, reqs, t, i);
    PartlyStep(others, reqs, t, i);
    var s' := Step(s, reqs, t);
    assert s'.store == Partly(others, reqs, t, i + 1);
    hide Partly, Placed, Payload, ChunkLen, Serial, Fits;
    HolderMoves(s, s', store0, reqs, t);
  }

  lemma {:induction false} StepKeepsInv(s: State, store0: Store, reqs: seq<Request>, t: nat)
    requires Inv(s, store0, reqs) && t < |reqs|
    ensures Inv(Step(s, reqs, t), store0, reqs)
  {
    match s.phases[t]
    case Idle =>
    case Waiting =>
      if s.lock.Free? {
        LockStep(s, store0, reqs, t);
      }
    case Fill(i) =>
      if i >= reqs[t].n {
        UnlockStep(s, store0, reqs, t);
      } else {
        FillStep(s, store0, reqs, t);
      }
    case Drain(i) => DrainStep(s, store0, reqs, t);
    case Done =>
  }

  // ----- Runs -----

  /** The state after a schedule. */
  function Run(store: Store, reqs: seq<Request>, schedule: seq<nat>): (s: State)
    requires WellFormed(store, reqs) && IsSchedule(schedule, |reqs|)
    ensures Formed(s, reqs)
    decreases |schedule|
  {
    if schedule == [] then Start(store, reqs)
    else Step(Run(store, reqs, schedule[..|schedule| - 1]), reqs, schedule[|schedule| - 1])
  }

  lemma {:induction false} RunKeepsInv(store: Store, reqs: seq<Request>, schedule: seq<nat>)
    requires WellFormed(store, reqs) && IsSchedule(schedule, |reqs|)
    ensures Inv(Run(store, reqs, schedule), store, reqs)
    decreases |schedule|
  {
    hide Inv, Step;
    if schedule == [] {
      StartInv(store, reqs);
    } else {
      var before := schedule[..|schedule| - 1];
      RunKeepsInv(store, reqs, before);
      StepKeepsInv(Run(store, reqs, before), store, reqs, schedule[|schedule| - 1]);
    }
  }

  /** Whatever the interleaving: a drain always finds the staging buffer as the same request
      filled it for the same block, and whenever the lock is free the file and all memories
      are what the requests give one after the other, in the order they took the lock. */
  lemma {:induction false} Linearizable(store: Store, reqs: seq<Request>, schedule: seq<nat>)
    requires WellFormed(store, reqs) && IsSchedule(schedule, |reqs|)
    ensures var s := Run(store, reqs, schedule);
            && ValidOrder(s.order, |reqs|)
            && (s.lock.Free? ==> s.store == Serial(store, reqs, s.order))
            && (forall t :: 0 <= t < |reqs| && s.phases[t].Drain? ==>
                  && s.lock == Held(t) && s.phases[t].i < reqs[t].n
                  && s.filledBy == (t, s.phases[t].i)
                  && s.staging[..ChunkLen(s.store, reqs, t, s.phases[t].i)]
                     == Payload(s.store, reqs, t, s.phases[t].i))
  {
    RunKeepsInv(store, reqs, schedule);
    var s := Run(store, reqs, schedule);
    forall t | 0 <= t < |reqs| && s.phases[t].Drain?
      ensures s.lock == Held(t)
    {
      assert !Outside(s.phases[t]);
    }
  }

  /** When every request has returned, the outcome is that of a serial order in which each
      request occurs exactly once. */
  lemma {:induction false} AllRequestsServed(store: Store, reqs: seq<Request>, schedule: seq<nat>)
    requires WellFormed(store, reqs) && IsSchedule(schedule, |reqs|)
    requires forall t :: 0 <= t < |reqs| ==> Run(store, reqs, schedule).phases[t].Done?
    ensures var s := Run(store, reqs, schedule);
            && ValidOrder(s.order, |reqs|)
            && (forall t :: 0 <= t < |reqs| ==> t in s.order)
            && s.store == Serial(store, reqs, s.order)
  {
    RunKeepsInv(store, reqs, schedule);
    var s := Run(store, reqs, schedule);
    if s.lock.Held? {
      assert false;
    }
  }

  // ----- Every run can be finished -----

  /** The number of steps that a request has left. */
  function Left(p: Phase, n: nat): nat {
    match p
    case Idle => 2 * n + 3
    case Waiting => 2 * n + 2
    case Fill(i) => if i < n then 2 * (n - i) + 1 else 1
    case Drain(i) => if i < n then 2 * (n - i) else 1
    case Done => 0
  }

  function AllLeft(s: State, reqs: seq<Request>): (left: seq<nat>)
    requires |s.phases| == |reqs|
  {
    seq(|reqs|, t requires 0 <= t < |reqs| => Left(s.phases[t], reqs[t].n))
  }

  /** No deadlock: unless all requests have returned, some request can move, and then it has
      less left to do. */
  lemma SomeoneMoves(s: State, store0: Store, reqs: seq<Request>) returns (t: nat)
    requires Inv(s, store0, reqs)
    requires exists u :: 0 <= u < |reqs| && !s.phases[u].Done?
    ensures t < |reqs| && Sum(AllLeft(Step(s, reqs, t), reqs)) < Sum(AllLeft(s, reqs))
  {
    hide Carries, ChunkLen, Partly, Payload, Placed, Serial, Splice, WellFormed;
    match s.lock {
      case Held(h) => t := h;
      case Free =>
        var u :| 0 <= u < |reqs| && !s.phases[u].Done?;
        assert Outside(s.phases[u]);
        t := u;
    }
    var less := Left(Step(s, reqs, t).phases[t], reqs[t].n);
    SumDrops(AllLeft(s, reqs), t, less);
    assert AllLeft(Step(s, reqs, t), reqs) == AllLeft(s, reqs)[t := less];
  }

  /** Every schedule can be continued until all requests have returned. */
  lemma {:induction false} AllCanReturn(store: Store, reqs: seq<Request>, schedule: seq<nat>)
    returns (more: seq<nat>)
    requires WellFormed(store, reqs) && IsSchedule(schedule, |reqs|)
    ensures IsSchedule(schedule + more, |reqs|)
    ensures forall t :: 0 <= t < |reqs| ==> Run(store, reqs, schedule + more).phases[t].Done?
    decreases Sum(AllLeft(Run(store, reqs, schedule), reqs))
  {
    hide AllLeft, Inv, Step, WellFormed;
    var s := Run(store, reqs, schedule);
    RunKeepsInv(store, reqs, schedule);
    if exists u :: 0 <= u < |reqs| && !s.phases[u].Done? {
      var t := SomeoneMoves(s, store, reqs);
      assert (schedule + [t])[..|schedule|] == schedule;
      more := AllCanReturn(store, reqs, schedule + [t]);
      assert schedule + [t] + more == schedule + ([t] + more);
      more := [t] + more;
    } else {
      more := [];
      assert schedule + more == schedule;
    }
  }

  lemma {:induction false} OrderOnlyGrows(store: Store, reqs: seq<Request>, first: seq<nat>, later: seq<nat>)
    requires WellFormed(store, reqs) && IsSchedule(later, |reqs|) && first <= later
    ensures Run(store, reqs, first).order <= Run(store, reqs, later).order
    decreases |later|
  {
    if |first| < |later| {
      var before := later[..|later| - 1];
      OrderOnlyGrows(store, reqs, first, before);
      StepKeepsOrder(Run(store, reqs, before), reqs, later[|later| - 1]);
      hide Step, Inv;
    } else {
      assert first == later;
    }
  }

  ghost predicate Precedes(order: seq<nat>, t: nat, u: nat) {
    exists j, k :: 0 <= j < k < |order| && order[j] == t && order[k] == u
  }

  /** The serial order respects real time: a request that had returned before another one
      took the lock comes before it. */
  lemma {:induction false} OrderRespectsRealTime(
    store: Store, reqs: seq<Request>, first: seq<nat>, later: seq<nat>, t: nat, u: nat)
    requires WellFormed(store, reqs) && IsSchedule(later, |reqs|) && first <= later
    requires t < |reqs| && u < |reqs|
    requires Run(store, reqs, first).phases[t].Done?
    requires Run(store, reqs, first).phases[u].Idle? || Run(store, reqs, first).phases[u].Waiting?
    requires u in Run(store, reqs, later).order
    ensures Precedes(Run(store, reqs, later).order, t, u)
  {
    OrderOnlyGrows(store, reqs, first, later);
    RunKeepsInv(store, reqs, first);
    RunKeepsInv(store, reqs, later);
    var a, b := Run(store, reqs, first).order, Run(store, reqs, later).order;
    assert t in a && u !in a;
    var j :| 0 <= j < |a| && a[j] == t;
    var k :| 0 <= k < |b| && b[k] == u;
    assert b[j] == t;
    assert forall x :: 0 <= x < |a| ==> a[x] != u && a[x] == b[x];
    assert |a| <= k;
  }
}
