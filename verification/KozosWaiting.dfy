/** How long a ready thread waits, and when the kernel stops. */
module KozosWaiting {
  import opened Pools
  import opened KozosSpec
  import opened KozosInv
  import opened KozosRuns

  // ---------------------------------------------------------------- positions

  /** The position of a thread in a queue. */
  function Pos(q: seq<int>, t: int): (k: nat)
    requires t in q
    ensures k < |q| && q[k] == t && t !in q[..k]
  {
    if q[0] == t then 0 else 1 + Pos(q[1..], t)
  }

  function Place(s: State, t: int): nat
    requires Shape(s) && InRange(s, t) && Ready(s, t)
  {
    Pos(s.queues[s.threads[t].prio], t)
  }

  /** Queues only got longer at the tail, and no ready thread changed priority. */
  ghost predicate Extends(s: State, r: State)
    requires Shape(s) && Shape(r)
  {
    && |r.queues| == |s.queues| && |r.threads| == |s.threads|
    && (forall p {:trigger r.queues[p]} :: 0 <= p < |s.queues| ==> s.queues[p] <= r.queues[p])
    && (forall t {:trigger r.threads[t]} :: InRange(s, t) && Ready(s, t) ==> r.threads[t].prio == s.threads[t].prio)
  }

  lemma ExtendsPlace(s: State, r: State, t: int)
    requires Shape(s) && Shape(r) && Extends(s, r) && InRange(s, t) && Ready(s, t)
    ensures Ready(r, t) && Place(r, t) == Place(s, t) && r.threads[t].prio == s.threads[t].prio
  {
  }

  lemma ExtendsTransitive(s: State, r: State, q: State)
    requires Shape(s) && Shape(r) && Shape(q) && Extends(s, r) && Extends(r, q)
    ensures Extends(s, q)
  {
  }

  lemma PutExtends(s: State)
    requires Shape(s)
    ensures Extends(s, PutCurrent(s))
  {
  }

  lemma RunExtends(s: State, func: int, prio: int)
    requires Called(s) && 0 <= prio < |s.queues|
    ensures Extends(s, ThreadRun(s, func, prio).0)
  {
    var i := FreeSlot(s.threads);
    if i < |s.threads| {
      var s0 := s.(threads := s.threads[i := Thread(func != 0, prio, NO_PARAM)]);
      Members(s);
      var s1 := PutCurrent(s0);
      PutExtends(s0);
      PutExtends(s1.(current := i));
      ExtendsTransitive(s, s1, ThreadRun(s, func, prio).0);
    }
  }

  lemma WakeupExtends(s: State, id: int)
    requires Shape(s) && InRange(s, id)
    ensures Extends(s, ThreadWakeup(s, id))
  {
  }

  lemma SendExtends(s: State, b: int, size: int, p: int)
    requires Shape(s) && 0 <= b < |s.boxes| && ThreadSend(s, b, size, p).Up?
    ensures Extends(s, ThreadSend(s, b, size, p).value)
  {
    hide Alloc, Free, HasRoom;
    var s1 := PutCurrent(s);
    PutExtends(s);
    var s2 := SendMsg(s1, b, size, p).value;
    if s2.boxes[b].receiver != NIL {
      var s3 := RecvMsg(s2.(current := s2.boxes[b].receiver), b);
      PutExtends(s3);
      ExtendsTransitive(s, s3, PutCurrent(s3));
    }
  }

  /** A running call never takes a thread off a queue: the caller is off already. */
  lemma CallExtends(s: State, c: Call)
    requires Called(s) && ArgsOk(s, c) && (s.current == NIL ==> IsService(c)) && CallFunctions(s, c).Up?
    ensures Extends(s, CallFunctions(s, c).value.0)
  {
    hide Alloc, Free, HasRoom, BuffersOk, ThreadRun, ThreadWakeup, ThreadSend;
    match c
    case Run(func, prio) => RunExtends(s, func, prio);
    case Exit =>
    case Wait =>
    case Sleep =>
    case Wakeup(id) => WakeupExtends(s, id);
    case GetId =>
    case ChPri(prio) =>
    case KMalloc(size) =>
    case KMFree(p) =>
    case Send(b, size, p) => SendExtends(s, b, size, p);
    case Recv(b, _, _) =>
    case SetIntr(v, h) =>
    case Unknown =>
  }

  lemma {:induction false} ServicesExtend(s: State, cs: seq<Call>)
    requires Mid(s, {}, NIL) && HandlerOk(s, cs) && ServicesOk(s, cs) && Services(s, cs).Up?
    ensures Extends(s, Services(s, cs).value)
    decreases |cs|
  {
    hide CallFunctions;
    if cs != [] {
      var s0 := s.(current := NIL);
      CurrentIsFree(s, {}, NIL, NIL);
      CallExtends(s0, cs[0]);
      ServiceKeeps(s, cs[0]);
      var s1 := Service(s, cs[0]).value;
      ServicesExtend(s1, cs[1..]);
      ExtendsTransitive(s, s1, Services(s, cs).value);
    }
  }

  // ---------------------------------------------------------------- bounded waiting

  /** A system call or a fault by a thread of level p. */
  predicate TrapsAt(s: State, e: Event, p: int) requires Shape(s) && s.current != NIL {
    !e.Interrupt? && s.threads[s.current].prio == p
  }

  lemma EnteredPlace(s: State, q: Param, t: int)
    requires Inv(s) && InRange(s, t) && Ready(s, t) && t != s.current
    ensures var r := GetCurrent(SetParam(s, s.current, q));
      && Ready(r, t) && r.threads[t] == s.threads[t]
      && Place(r, t) == Place(s, t) - (if s.threads[s.current].prio == s.threads[t].prio then 1 else 0)
  {
  }

  /** Thread t is ready in r as in s, `up` places further on. */
  ghost predicate Moved(s: State, r: State, t: int, up: int)
    requires Shape(s) && Shape(r) && InRange(s, t) && Ready(s, t)
  {
    && |r.threads| == |s.threads| && Ready(r, t) && r.threads[t].prio == s.threads[t].prio
    && Place(r, t) == Place(s, t) - up
  }

  lemma SyscallPlace(s: State, c: Call, t: int)
    requires Inv(s) && CallOk(s, c) && Syscall(s, c).Up? && InRange(s, t) && Ready(s, t) && t != s.current
    ensures Moved(s, Syscall(s, c).value, t, if s.threads[s.current].prio == s.threads[t].prio then 1 else 0)
  {
    hide CallFunctions;
    var s0 := Entered(s, c);
    EnteredPlace(s, ParamOf(c), t);
    EnteredIsCalled(s, c);
    CallExtends(s0, c);
    ExtendsPlace(s0, CallFunctions(s0, c).value.0, t);
  }

  lemma FaultPlace(s: State, t: int)
    requires Inv(s) && InRange(s, t) && Ready(s, t) && t != s.current
    ensures Moved(s, Fault(s), t, if s.threads[s.current].prio == s.threads[t].prio then 1 else 0)
  {
  }

  /** What one step does to a ready thread that is not the trapping one: it stays ready at its
      level, and moves up by exactly one if the trapping thread is of its level. */
  lemma StepPlace(s: State, e: Event, t: int)
    requires Inv(s) && Legal(s, e) && EventOk(s, e) && Step(s, e).Up?
    requires InRange(s, t) && Ready(s, t) && (e.Interrupt? || t != s.current)
    ensures Shape(Step(s, e).value)
    ensures Moved(s, Step(s, e).value, t, if TrapsAt(s, e, s.threads[t].prio) then 1 else 0)
  {
    hide Syscall, Fault, Services;
    StepKeeps(s, e);
    BeforeKeeps(s, e);
    match e
    case Ecall(c) => SyscallPlace(s, c, t);
    case Trap => FaultPlace(s, t);
    case Interrupt(cs) =>
      ServicesExtend(s, cs);
      ExtendsPlace(s, Services(s, cs).value, t);
  }

  /** Thread t makes no system call and no fault during the run. */
  ghost predicate Waits(s: State, es: seq<Event>, t: int)
    requires Inv(s) && LegalRun(s, es)
    decreases |es|
  {
    es == [] ||
    ((es[0].Interrupt? || t != s.current) &&
     (LegalIsOk(s, es[0]); StepKeeps(s, es[0]);
      Waits(Step(s, es[0]).value, es[1..], t)))
  }

  /** The number of system calls and faults of level-p threads in a run. */
  ghost function Traps(s: State, es: seq<Event>, p: int): nat
    requires Inv(s) && LegalRun(s, es)
    decreases |es|
  {
    if es == [] then 0
    else
      LegalIsOk(s, es[0]); StepKeeps(s, es[0]);
      (if TrapsAt(s, es[0], p) then 1 else 0) + Traps(Step(s, es[0]).value, es[1..], p)
  }

  /** Bounded waiting: a thread at position k of its queue has moved up by exactly the number of
      traps of its level, so that number never exceeds k, and it is dispatched exactly when the
      number is k and no more urgent thread is ready.  Whatever the calls are. */
  lemma {:induction false} BoundedWaiting(s: State, es: seq<Event>, t: int)
    requires Inv(s) && LegalRun(s, es) && InRange(s, t) && Ready(s, t) && Waits(s, es, t)
    ensures var r := Exec(s, es);
      var p := s.threads[t].prio;
      && InRange(r, t) && Ready(r, t) && r.threads[t].prio == p
      && Traps(s, es, p) + Place(r, t) == Place(s, t)
      && (r.current == t <==> Traps(s, es, p) == Place(s, t) && forall i :: 0 <= i < p ==> r.queues[i] == [])
    decreases |es|
  {
    hide Step;
    if es == [] {
      DispatchedIff(s, t);
    } else {
      LegalIsOk(s, es[0]);
      StepKeeps(s, es[0]);
      StepPlace(s, es[0], t);
      BoundedWaiting(Step(s, es[0]).value, es[1..], t);
    }
  }

  lemma DispatchedIff(s: State, t: int)
    requires Inv(s) && InRange(s, t) && Ready(s, t)
    ensures s.current == t <==> Place(s, t) == 0 && forall i :: 0 <= i < s.threads[t].prio ==> s.queues[i] == []
  {
  }

  // ---------------------------------------------------------------- when the system goes down

  /** The call cannot be served: no memory, or another thread waits at the box. */
  predicate Refused(s: State, c: Call)
    requires Shape(s) && ArgsOk(s, c)
  {
    match c
    case KMalloc(size) => !HasRoom(s.heap, size)
    case Send(_, _, _) => !HasRoom(s.heap, MSGBUF_SIZE)
    case Recv(b, _, _) => s.boxes[b].receiver != NIL
    case _ => false
  }

  /** The call leaves its caller off the ready queues. */
  predicate Leaves(s: State, c: Call)
    requires Shape(s) && ArgsOk(s, c)
  {
    match c
    case Run(_, _) => FreeSlot(s.threads) == |s.threads|
    case Recv(b, _, _) => s.boxes[b].bufs == []
    case _ => c.Exit? || c.Sleep? || c.Unknown?
  }

  /** Some service call of the handler is refused. */
  predicate HandlerRefused(s: State, cs: seq<Call>)
    requires Shape(s) && ServicesOk(s, cs)
    decreases |cs|
  {
    cs != [] && (Refused(s, cs[0]) || (Service(s, cs[0]).Up? && HandlerRefused(Service(s, cs[0]).value, cs[1..])))
  }

  ghost predicate Alone(s: State) requires Shape(s) {
    forall t :: InRange(s, t) && Ready(s, t) ==> t == s.current
  }

  ghost predicate Stops(s: State, e: Event)
    requires EventOk(s, e)
  {
    match e
    case Ecall(c) => Refused(s, c) || (Leaves(s, c) && Alone(s))
    case Trap => Alone(s)
    case Interrupt(cs) => HandlerRefused(s, cs)
  }

  ghost predicate SomeReady(qs: seq<seq<int>>) { exists p :: 0 <= p < |qs| && qs[p] != [] }

  lemma ScheduleFinds(s: State)
    ensures Schedule(s).Up? <==> SomeReady(s.queues)
  {
  }

  lemma AloneIffEmpty(s: State, q: Param)
    requires Inv(s)
    ensures Alone(s) <==> Schedule(GetCurrent(SetParam(s, s.current, q))).Down?
  {
    var r := GetCurrent(SetParam(s, s.current, q));
    ScheduleFinds(r);
    if t :| InRange(s, t) && Ready(s, t) && t != s.current {
      EnteredPlace(s, q, t);
      assert r.queues[r.threads[t].prio] != [];
    }
    if p :| 0 <= p < |r.queues| && r.queues[p] != [] {
      var k := if p == s.threads[s.current].prio then 1 else 0;
      var t := s.queues[p][k];
      assert Ready(s, t);
      assert t != s.current;
    }
  }

  lemma CallRefused(s: State, c: Call)
    requires Shape(s) && ArgsOk(s, c) && (s.current == NIL ==> IsService(c))
    ensures CallFunctions(s, c).Down? <==> Refused(s, c)
  {
  }

  lemma {:induction false} HandlerRefusedIff(s: State, cs: seq<Call>)
    requires Shape(s) && ServicesOk(s, cs)
    ensures Services(s, cs).Down? <==> HandlerRefused(s, cs)
    decreases |cs|
  {
    hide CallFunctions;
    if cs != [] {
      CallRefused(s.(current := NIL), cs[0]);
      if Service(s, cs[0]).Up? { HandlerRefusedIff(Service(s, cs[0]).value, cs[1..]); }
    }
  }

  lemma PutFinds(s: State)
    requires Shape(s) && s.current != NIL
    ensures SomeReady(PutCurrent(s).queues)
  {
    assert PutCurrent(s).queues[s.threads[s.current].prio] != [];
  }

  lemma SendFinds(s: State, b: int, size: int, p: int)
    requires Shape(s) && 0 <= b < |s.boxes| && s.current != NIL && ThreadSend(s, b, size, p).Up?
    ensures SomeReady(ThreadSend(s, b, size, p).value.queues)
  {
    hide Alloc, Free, PutCurrent, SomeReady;
    PutFinds(s);
    var s2 := SendMsg(PutCurrent(s), b, size, p).value;
    if s2.boxes[b].receiver != NIL { PutFinds(RecvMsg(s2.(current := s2.boxes[b].receiver), b)); }
  }

  lemma RecvFinds(s: State, b: int)
    requires Shape(s) && 0 <= b < |s.boxes| && s.current != NIL && ThreadRecv(s, b).Up?
    ensures var r := ThreadRecv(s, b).value.0;
      if s.boxes[b].bufs == [] then r.queues == s.queues else SomeReady(r.queues)
  {
    hide Alloc, Free, PutCurrent, SomeReady;
    if s.boxes[b].bufs != [] {
      PutFinds(RecvMsg(s.(boxes := s.boxes[b := s.boxes[b].(receiver := s.current)]), b));
    }
  }

  lemma CallLeaves(s: State, c: Call)
    requires Shape(s) && ArgsOk(s, c) && s.current != NIL && CallFunctions(s, c).Up?
    ensures var r := CallFunctions(s, c).value.0;
      SomeReady(r.queues) <==> !Leaves(s, c) || SomeReady(s.queues)
  {
    hide Alloc, Free, PutCurrent, FreeSlot, SomeReady, ThreadSend, ThreadRecv;
    match c
    case Run(func, prio) =>
      var i := FreeSlot(s.threads);
      if i < |s.threads| {
        PutFinds(PutCurrent(s.(threads := s.threads[i := Thread(func != 0, prio, NO_PARAM)])).(current := i));
      }
    case Wait => PutFinds(s);
    case Wakeup(id) =>
      var s1 := PutCurrent(s);
      PutFinds(s1.(current := id, parked := s1.parked - {id}));
    case GetId => PutFinds(s);
    case ChPri(prio) =>
      PutFinds(if prio >= 0 then s.(threads := s.threads[s.current := s.threads[s.current].(prio := prio)]) else s);
    case KMalloc(size) => PutFinds(s);
    case KMFree(p) => PutFinds(s.(heap := Free(s.heap, p - HEADER)));
    case Send(b, size, p) => SendFinds(s, b, size, p);
    case Recv(b, _, _) => RecvFinds(s, b);
    case SetIntr(v, h) => PutFinds(SetHandler(s, v, h));
    case _ =>
  }

  lemma SyscallStops(s: State, c: Call)
    requires Inv(s) && CallOk(s, c)
    ensures Step(s, Ecall(c)).Down? <==> Refused(s, c) || (Leaves(s, c) && Alone(s))
  {
    hide CallFunctions, GetCurrent, FreeSlot;
    var s0 := Entered(s, c);
    EnteredIsCalled(s, c);
    CallRefused(s0, c);
    AloneIffEmpty(s, ParamOf(c));
    EnteredSlots(s, c);
    ScheduleFinds(s0);
    if CallFunctions(s0, c).Up? {
      CallLeaves(s0, c);
      ScheduleFinds(CallFunctions(s0, c).value.0);
      if Returns(c) { ScheduleFinds(Syscall(s, c).value); }
    }
  }

  lemma EnteredSlots(s: State, c: Call)
    requires Inv(s)
    ensures FreeSlot(Entered(s, c).threads) == FreeSlot(s.threads)
  {
    EnteredIsCalled(s, c);
    SameSlot(Entered(s, c).threads, s.threads);
  }

  /** Exactly when a step takes the system down: a refused call, or the only ready thread giving
      up the processor. */
  lemma StopsExactly(s: State, e: Event)
    requires Inv(s) && Legal(s, e) && EventOk(s, e)
    ensures Step(s, e).Down? <==> Stops(s, e)
  {
    hide Syscall, CallFunctions;
    match e
    case Ecall(c) => SyscallStops(s, c);
    case Trap =>
      assert SetParam(s, s.current, s.threads[s.current].param) == s;
      AloneIffEmpty(s, s.threads[s.current].param);
    case Interrupt(cs) =>
      HandlerRefusedIff(s, cs);
      if Services(s, cs).Up? {
        ServicesExtend(s, cs);
        ExtendsPlace(s, Services(s, cs).value, s.current);
        ScheduleFinds(Services(s, cs).value);
      }
  }

  /** While some ready thread (the idle thread in its loop) makes no call, the scheduler always
      finds a thread: only a refused call can stop the system. */
  lemma IdleKeepsRunning(s: State, es: seq<Event>, e: Event, idle: int)
    requires Inv(s) && LegalRun(s, es) && InRange(s, idle) && Ready(s, idle) && Waits(s, es, idle)
    requires Legal(Exec(s, es), e) && EventOk(Exec(s, es), e)
    requires e.Interrupt? || Exec(s, es).current != idle
    ensures var r := Exec(s, es);
      Step(r, e).Down? <==> match e
        case Ecall(c) => Refused(r, c)
        case Trap => false
        case Interrupt(cs) => HandlerRefused(r, cs)
  {
    BoundedWaiting(s, es, idle);
    StopsExactly(Exec(s, es), e);
  }
}
