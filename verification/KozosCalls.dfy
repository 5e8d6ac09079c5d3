/** What each system call does for the thread that makes it, and what it returns. */
module KozosCalls {
  import opened Pools
  import opened KozosSpec
  import opened KozosInv
  import opened KozosRuns

  /** Thread t is the last of the queue of its priority. */
  ghost predicate Tail(s: State, t: int) requires Shape(s) && InRange(s, t) {
    var q := s.queues[s.threads[t].prio];
    q != [] && q[|q| - 1] == t
  }

  /** Thread t is off the ready queues until someone wakes it. */
  ghost predicate Parked(s: State, t: int) requires Shape(s) && InRange(s, t) {
    s.threads[t].live && !Ready(s, t) && !IsReceiver(s, t) && t in s.parked
  }

  /** The block of payload p holds `size` bytes behind its header, and no smaller class does. */
  ghost predicate RoomFor(s: State, p: int, size: int) {
    IsInt(size) ==>
      var c := ClassAt(s.heap.base, p - HEADER);
      0 <= size <= Size(c) - HEADER && forall k: nat :: k < c ==> size > Size(k) - HEADER
  }

  /** The caller t, the value it finds in its parameter block, and the state before and after. */
  ghost predicate Effect(s: State, c: Call, t: int, v: Val, r: State)
    requires Shape(s) && Shape(r) && |r.threads| == |s.threads| && InRange(s, t) && ArgsOk(s, c)
  {
    var was := s.threads[t].prio;
    match c
    case Run(_, prio) =>
      if forall i :: 0 <= i < |s.threads| ==> s.threads[i].live then v == Code(-1) && Parked(r, t)
      else
        && v.Id? && InRange(s, v.t) && !s.threads[v.t].live && (forall i :: 0 <= i < v.t ==> s.threads[i].live)
        && r.threads[v.t] == Thread(true, prio, NO_PARAM) && Tail(r, v.t) && Ready(r, t)
    case Exit => !r.threads[t].live && !Ready(r, t)
    case Wait => v == Code(0) && r.threads[t].prio == was && Tail(r, t)
    case Sleep => v == Code(0) && Parked(r, t)
    case Wakeup(id) => v == Code(0) && Ready(r, t) && Ready(r, id) && id !in r.parked && (!Ready(s, id) ==> Tail(r, id))
    case GetId => v == Id(t) && r.threads[t].prio == was && Tail(r, t)
    case ChPri(prio) => v == Code(was) && r.threads[t].prio == (if prio >= 0 then prio else was) && Tail(r, t)
    case KMalloc(size) =>
      && v.Ptr? && v.p - HEADER !in s.heap.live && v.p - HEADER in r.heap.live && Tail(r, t)
      && RoomFor(s, v.p, size)
    case KMFree(p) => v == Code(0) && p - HEADER !in r.heap.live && Tail(r, t)
    case Send(b, size, p) =>
      && v == Code(size) && Ready(r, t) && |r.boxes| == |s.boxes|
      && (s.boxes[b].receiver != NIL ==> Tail(r, s.boxes[b].receiver) && r.boxes[b] == Box(NIL, []))
      && (s.boxes[b].receiver == NIL ==> Tail(r, t) && |r.boxes[b].bufs| == |s.boxes[b].bufs| + 1)
    case Recv(b, _, _) =>
      if s.boxes[b].bufs == [] then v == Code(-1) && IsReceiver(r, t) && !Ready(r, t)
      else v == Id(s.boxes[b].bufs[0].msg.sender) && Tail(r, t)
    case SetIntr(k, h) =>
      && v == Code(0) && |r.handlers| == VECTORS && r.handlers[k] == h && Tail(r, t)
      && forall i :: 0 <= i < VECTORS && i != k ==> r.handlers[i] == s.handlers[i]
    case Unknown => Parked(r, t)
  }

  // ---------------------------------------------------------------- putting a thread on its queue

  lemma PutTail(s: State)
    requires Shape(s) && s.current != NIL
    ensures var r := PutCurrent(s);
      && Ready(r, s.current) && (!Ready(s, s.current) ==> Tail(r, s.current))
      && forall t :: InRange(s, t) && Ready(s, t) ==> Ready(r, t)
  {
  }

  lemma RunEffect(s: State, func: int, prio: int)
    requires Called(s) && CallOk(s, Run(func, prio)) && 0 <= prio < |s.queues| && s.current != NIL
    ensures var (r, v) := ThreadRun(s, func, prio);
      r.threads[s.current] == s.threads[s.current] && Effect(s, Run(func, prio), s.current, v, r)
  {
    hide BuffersOk, Waiting;
    RunKeeps(s, func, prio);
    var i := FreeSlot(s.threads);
    if i < |s.threads| {
      NewThreadKeeps(s, func, prio);
      var s0 := s.(threads := s.threads[i := Thread(func != 0, prio, NO_PARAM)]);
      PutTail(s0);
      var s1 := PutCurrent(s0);
      assert !Ready(s1, i) by { OtherPut(s0, i); }
      PutTail(s1.(current := i));
      assert Ready(s1.(current := i), s.current);
    }
  }

  lemma OtherPut(s: State, t: int)
    requires Shape(s) && InRange(s, t) && t != s.current && !Ready(s, t)
    ensures !Ready(PutCurrent(s), t)
  {
  }

  lemma WakeupEffect(s: State, id: int)
    requires Called(s) && s.current != NIL && InRange(s, id) && s.threads[id].live && !IsReceiver(s, id)
    ensures Effect(s, Wakeup(id), s.current, Code(0), ThreadWakeup(s, id))
  {
  }

  lemma SendEffect(s: State, b: int, size: int, p: int)
    requires Called(s) && s.current != NIL && 0 <= b < |s.boxes| && ThreadSend(s, b, size, p).Up?
    ensures Effect(s, Send(b, size, p), s.current, Code(size), ThreadSend(s, b, size, p).value)
  {
  }

  lemma RecvEffect(s: State, b: int)
    requires Called(s) && s.current != NIL && 0 <= b < |s.boxes| && ThreadRecv(s, b).Up?
    ensures var (r, v) := ThreadRecv(s, b).value; Effect(s, Recv(b, true, true), s.current, v, r)
  {
  }

  lemma CallEffect(s: State, c: Call)
    requires Called(s) && s.current != NIL && CallOk(s, c) && CallFunctions(s, c).Up?
    ensures var (r, v) := CallFunctions(s, c).value; Effect(s, c, s.current, v, r)
  {
    hide ThreadRun, ThreadSend, ThreadRecv, ThreadWakeup, PutCurrent, BuffersOk, QueuesOk, Alloc;
    assert !Ready(s, s.current);
    match c
    case Run(func, prio) => RunEffect(s, func, prio);
    case Exit => ExitEffect(s);
    case Wait => PutTail(s);
    case Sleep => ParkEffect(s);
    case Wakeup(id) => WakeupEffect(s, id);
    case GetId => PutTail(s);
    case ChPri(prio) => ChPriEffect(s, prio);
    case KMalloc(size) => KMallocEffect(s, size);
    case KMFree(p) => PutTail(s.(heap := Free(s.heap, p - HEADER)));
    case Send(b, size, p) => SendEffect(s, b, size, p);
    case Recv(b, _, _) => RecvEffect(s, b);
    case SetIntr(v, h) => PutTail(SetHandler(s, v, h));
    case Unknown => ParkEffect(s);
  }

  lemma ParkEffect(s: State)
    requires Called(s) && s.current != NIL
    ensures Shape(Park(s)) && Parked(Park(s), s.current)
  {
  }

  lemma ExitEffect(s: State)
    requires Called(s) && s.current != NIL
    ensures Effect(s, Exit, s.current, Unset, ThreadExit(s))
  {
  }

  lemma KMallocEffect(s: State, size: int)
    requires Called(s) && s.current != NIL && HasRoom(s.heap, size)
    ensures var (r, v) := ThreadKMalloc(s, size).value; Effect(s, KMalloc(size), s.current, v, r)
  {
    hide PutCurrent, QueuesOk, Valid, ClassFor, Placed;
    PutTail(s);
    assert !Ready(s, s.current) by { OffQueue(s); }
    AllocValid(s.heap, size);
    if IsInt(size) { AllocRoom(s.heap, size); }
  }

  lemma OffQueue(s: State)
    requires Called(s) && s.current != NIL
    ensures !Ready(s, s.current)
  {
  }

  lemma ChPriEffect(s: State, prio: int)
    requires Called(s) && s.current != NIL && prio < |s.queues|
    ensures Effect(s, ChPri(prio), s.current, Code(s.threads[s.current].prio), ThreadChPri(s, prio))
  {
  }

  /** Every system call: its effect on the caller, and the value the caller finds when it runs again
      (a thread left waiting at a box finds the sender instead, by StepDelivers). */
  lemma SyscallEffect(s: State, c: Call)
    requires Inv(s) && CallOk(s, c) && Syscall(s, c).Up?
    ensures var r := Syscall(s, c).value; Effect(s, c, s.current, r.threads[s.current].param.ret, r)
  {
    hide CallFunctions, GetCurrent, BuffersOk, QueuesOk, Effect;
    EnteredIsCalled(s, c);
    var s0 := Entered(s, c);
    CallEffect(s0, c);
    var (r0, v) := CallFunctions(s0, c).value;
    var r := Syscall(s, c).value;
    EffectEntered(s, s0, c, v, r0);
    if Returns(c) {
      EffectStored(s, c, v, r0, r);
    } else {
      NothingStored(s, c, v, r.threads[s.current].param.ret, r);
    }
  }

  lemma NothingStored(s: State, c: Call, v: Val, w: Val, r: State)
    requires Shape(s) && Shape(r) && s.current != NIL && |r.threads| == |s.threads| && ArgsOk(s, c) && !Returns(c)
    ensures Effect(s, c, s.current, v, r) == Effect(s, c, s.current, w, r)
  {
  }

  /** An effect seen from before the caller was taken off its queue. */
  lemma EffectEntered(s: State, s0: State, c: Call, v: Val, r: State)
    requires Inv(s) && ArgsOk(s, c) && s0 == Entered(s, c) && Shape(r) && |r.threads| == |s.threads|
    requires Shape(s0) && |s0.threads| == |s.threads| && ArgsOk(s0, c) && Effect(s0, c, s.current, v, r)
    ensures Effect(s, c, s.current, v, r)
  {
    hide BuffersOk, QueuesOk, Placed;
    EnteredIsCalled(s, c);
    if c.Wakeup? && !Ready(s, c.id) {
      var p := s.threads[c.id].prio;
      assert forall x :: x in s0.queues[p] ==> x in s.queues[p];
    }
    assert forall i :: 0 <= i < |s.threads| ==> s0.threads[i].live == s.threads[i].live;
  }

  /** The return value is stored in the caller's own block. */
  lemma EffectStored(s: State, c: Call, v: Val, r0: State, r: State)
    requires Shape(s) && Shape(r0) && s.current != NIL && |r0.threads| == |s.threads| && ArgsOk(s, c)
    requires r == SetParam(r0, s.current, r0.threads[s.current].param.(ret := v))
    requires Effect(s, c, s.current, v, r0) && s.threads[s.current].live
    ensures Effect(s, c, s.current, v, r)
  {
  }

  // ---------------------------------------------------------------- service calls

  /** What a service call of a handler does, and the value it returns. */
  ghost predicate ServiceEffect(s: State, c: Call, v: Val, r: State)
    requires Shape(s) && Shape(r) && |r.threads| == |s.threads| && ArgsOk(s, c) && IsService(c)
  {
    match c
    case Wakeup(id) => v == Code(0) && Ready(r, id) && id !in r.parked && (!Ready(s, id) ==> Tail(r, id))
    case KMalloc(size) =>
      && v.Ptr? && v.p - HEADER !in s.heap.live && v.p - HEADER in r.heap.live
      && RoomFor(s, v.p, size) && r.queues == s.queues
    case KMFree(p) => v == Code(0) && p - HEADER !in r.heap.live && r.queues == s.queues
    case Send(b, size, p) =>
      && v == Code(size)
      && if s.boxes[b].receiver != NIL then Tail(r, s.boxes[b].receiver) else r.queues == s.queues
    case _ => false
  }

  lemma ServiceCallEffect(s: State, c: Call)
    requires Mid(s, {}, NIL) && CallOk(s, c) && IsService(c) && Service(s, c).Up?
    ensures var (r, v) := Answer(s, c).value;
      Service(s, c) == Up(r) && ServiceEffect(s, c, v, r)
  {
    hide Alloc, Free, HasRoom, PutCurrent, BuffersOk, QueuesOk, Placed, Waiting, ThreadSend, RoomFor, Tail;
    var s0 := s.(current := NIL);
    NobodyPut(s0);
    match c
    case Wakeup(id) => WakeupTail(s0, id);
    case KMalloc(size) => Answered(s, size);
    case KMFree(p) => NobodyPut(s0.(heap := Free(s.heap, p - HEADER)));
      FreedIsNotLive(s.heap, p - HEADER);
    case Send(b, size, p) =>
      CurrentIsFree(s, {}, NIL, NIL);
      ServiceSendEffect(s0, b, size, p);
  }

  lemma FreedIsNotLive(h: Heap, a: int)
    requires |h.free| == CLASSES
    ensures a !in Free(h, a).live
  {
  }

  lemma WakeupTail(s: State, id: int)
    requires Shape(s) && s.current == NIL && InRange(s, id)
    ensures var r := ThreadWakeup(s, id);
      Ready(r, id) && id !in r.parked && (!Ready(s, id) ==> Tail(r, id))
  {
    hide PutCurrent;
    NobodyPut(s);
    PutTail(s.(current := id, parked := s.parked - {id}));
  }

  lemma Answered(s: State, size: int)
    requires BuffersOk(s) && HasRoom(s.heap, size)
    ensures var (h, a) := Alloc(s.heap, size);
      a !in s.heap.live && a in h.live && RoomFor(s, a + HEADER, size)
  {
    hide ClassFor, Valid;
    AllocValid(s.heap, size);
    if IsInt(size) { AllocRoom(s.heap, size); }
  }

  lemma NobodyPut(s: State)
    requires Shape(s) && s.current == NIL
    ensures PutCurrent(s) == s
  {
  }

  lemma ServiceSendEffect(s: State, b: int, size: int, p: int)
    requires Mid(s, {}, NIL) && s.current == NIL && 0 <= b < |s.boxes| && ThreadSend(s, b, size, p).Up?
    ensures var r := ThreadSend(s, b, size, p).value;
      |r.threads| == |s.threads| &&
      if s.boxes[b].receiver != NIL then Tail(r, s.boxes[b].receiver) else r.queues == s.queues
  {
    hide Alloc, Free, HasRoom, PutCurrent, BuffersOk, QueuesOk;
    NobodyPut(s);
    var s2 := SendMsg(s, b, size, p).value;
    var t := s2.boxes[b].receiver;
    if t != NIL {
      assert IsReceiver(s, t) && s.threads[t] == s.threads[t];
      var s3 := RecvMsg(s2.(current := t), b);
      assert !Ready(s3, t);
      PutTail(s3);
    }
  }

  // ---------------------------------------------------------------- what a call leaves alone

  /** No thread but the caller starts, ends or changes its priority, but for the slot kz_run fills; a
      call that is not about a box leaves it alone, and only kz_setintr changes handlers. */
  ghost predicate Frame(s: State, c: Call, r: State) {
    && |r.threads| == |s.threads| && |r.boxes| == |s.boxes|
    && (forall u {:trigger r.threads[u]} ::
          InRange(s, u) && s.threads[u].live && (u != s.current || !(c.Exit? || c.ChPri?)) ==>
          r.threads[u].live && r.threads[u].prio == s.threads[u].prio)
    && (forall u {:trigger r.threads[u]} ::
          InRange(s, u) && !s.threads[u].live && !(c.Run? && u == FreeSlot(s.threads)) ==>
          r.threads[u] == s.threads[u])
    && (forall b {:trigger r.boxes[b]} :: 0 <= b < |s.boxes| && !((c.Send? || c.Recv?) && c.box == b) ==>
          r.boxes[b] == s.boxes[b])
    && (!c.SetIntr? ==> r.handlers == s.handlers)
  }

  lemma CallFrame(s: State, c: Call)
    requires Called(s) && ArgsOk(s, c) && (s.current == NIL ==> IsService(c)) && CallFunctions(s, c).Up?
    ensures Frame(s, c, CallFunctions(s, c).value.0)
  {
    CallerLive(s);
    hide Alloc, Free, HasRoom, PutCurrent, BuffersOk, QueuesOk, Placed, Waiting, ThreadSend, ThreadRecv;
    hide Frame, ThreadRun;
    match c
    case Run(func, prio) => RunFrame(s, func, prio);
    case Send(b, size, p) => SendFrame(s, b, size, p);
    case Recv(b, wantSize, wantP) => RecvFrame(s, b, wantSize, wantP);
    case _ => OneFrame(s, c, CallFunctions(s, c).value.0);
  }

  lemma RunFrame(s: State, func: int, prio: int)
    requires Shape(s) && 0 <= prio < |s.queues|
    ensures Frame(s, Run(func, prio), ThreadRun(s, func, prio).0)
  {
    hide PutCurrent;
  }

  /** A call that changes no box and no other thread. */
  lemma OneFrame(s: State, c: Call, r: State)
    requires InRange(s, s.current) ==> s.threads[s.current].live
    requires r.boxes == s.boxes && |r.threads| == |s.threads| && (!c.SetIntr? ==> r.handlers == s.handlers)
    requires forall u {:trigger r.threads[u]} :: InRange(s, u) && (u != s.current || !(c.Exit? || c.ChPri?)) ==>
      r.threads[u] == s.threads[u]
    ensures Frame(s, c, r)
  {
  }

  lemma CallerLive(s: State)
    requires Called(s)
    ensures s.current == NIL || s.threads[s.current].live
  {
  }

  lemma SendFrame(s: State, b: int, size: int, p: int)
    requires Called(s) && 0 <= b < |s.boxes| && ThreadSend(s, b, size, p).Up?
    ensures Frame(s, Send(b, size, p), ThreadSend(s, b, size, p).value)
  {
    hide Alloc, Free, HasRoom, PutCurrent, BuffersOk, QueuesOk, Waiting;
    var t := s.boxes[b].receiver;
    assert t != NIL ==> IsReceiver(s, t) && s.threads[t] == s.threads[t];
  }

  lemma RecvFrame(s: State, b: int, wantSize: bool, wantP: bool)
    requires Called(s) && 0 <= b < |s.boxes| && s.current != NIL && ThreadRecv(s, b).Up?
    ensures Frame(s, Recv(b, wantSize, wantP), ThreadRecv(s, b).value.0)
  {
    hide Alloc, Free, PutCurrent, BuffersOk, QueuesOk, Waiting;
  }

  lemma SyscallFrame(s: State, c: Call)
    requires Inv(s) && CallOk(s, c) && Syscall(s, c).Up?
    ensures Frame(s, c, Syscall(s, c).value)
  {
    hide CallFunctions, GetCurrent, BuffersOk, QueuesOk, Placed;
    EnteredIsCalled(s, c);
    RunningLive(s);
    var s0 := Entered(s, c);
    CallFrame(s0, c);
    SameSlot(s0.threads, s.threads);
    hide Frame;
    FrameStored(s, s0, c, CallFunctions(s0, c).value.0, Syscall(s, c).value);
  }

  lemma FrameStored(s: State, s0: State, c: Call, r0: State, r: State)
    requires InRange(s, s.current) && s.threads[s.current].live && s0.current == s.current
    requires s0.boxes == s.boxes && s0.handlers == s.handlers && |s0.threads| == |s.threads|
    requires FreeSlot(s0.threads) == FreeSlot(s.threads)
    requires exists q :: s0.threads == s.threads[s.current := s.threads[s.current].(param := q)]
    requires Frame(s0, c, r0) && r.boxes == r0.boxes && r.handlers == r0.handlers && |r.threads| == |r0.threads|
    requires exists q :: r.threads == r0.threads[s.current := r0.threads[s.current].(param := q)]
    ensures Frame(s, c, r)
  {
  }

  lemma ServiceFrame(s: State, c: Call)
    requires Mid(s, {}, NIL) && CallOk(s, c) && IsService(c) && Service(s, c).Up?
    ensures Frame(s.(current := NIL), c, Service(s, c).value)
  {
    hide CallFunctions;
    CurrentIsFree(s, {}, NIL, NIL);
    CallFrame(s.(current := NIL), c);
  }

  // ---------------------------------------------------------------- faults, and the start

  /** A fault ends the running thread and touches nothing else. */
  lemma FaultEffect(s: State)
    requires Inv(s)
    ensures var r, t := Fault(s), s.current;
      var p := s.threads[t].prio;
      && !r.threads[t].live && r.queues[p] == s.queues[p][1..]
      && (forall u :: InRange(s, u) && u != t ==> r.threads[u] == s.threads[u])
      && (forall q :: 0 <= q < |s.queues| && q != p ==> r.queues[q] == s.queues[q])
      && r.boxes == s.boxes && r.heap == s.heap && r.handlers == s.handlers && r.parked == s.parked
  {
    hide BuffersOk, QueuesOk, Placed;
  }

  /** The system starts with one thread, ready at its priority and running, no message and no handler. */
  lemma BootIs(c: Config)
    requires c.Ok()
    ensures var s := Boot(c);
      && s.current == 0 && s.threads[0].live && s.threads[0].prio == c.prio
      && (forall u :: 0 < u < c.threads ==> !s.threads[u].live)
      && (forall p :: 0 <= p < c.priorities ==> s.queues[p] == if p == c.prio then [0] else [])
      && (forall b :: 0 <= b < c.boxes ==> s.boxes[b] == Box(NIL, []))
      && (forall v :: 0 <= v < VECTORS ==> s.handlers[v] == 0)
  {
    hide BuffersOk, Placed;
    EmptyMid(c);
  }
}
