/** What the KOZOS kernel (software/kozos/kozos.c) does, with every ready queue and every message
    box a plain FIFO sequence.  The numbers of threads, priorities and boxes are the lengths of the
    sequences in the state.  Class Kozos.Kernel is proved to refine these functions. */
module KozosSpec {
  import opened Pools

  const NIL: int := -1            // the NULL thread
  const MSGBUF_SIZE: int := 16    // sizeof(kz_msgbuf)
  const VECTORS: nat := 3         // SOFTVEC_TYPE_NUM
  const SERINTR: int := 2         // SOFTVEC_TYPE_SERINTR

  /** The result of a call that may end in kz_sysdown, which never returns. */
  datatype Outcome<+T> = Down | Up(value: T) {
    predicate IsFailure() { Down? }
    function PropagateFailure<U>(): Outcome<U> requires Down? { Down }
    function Extract(): T requires Up? { value }
  }

  datatype Val = Unset | Code(n: int) | Id(t: int) | Ptr(p: int)

  /** The parameter block of a thread's pending system call: the slots the kernel writes.  size and
      p are what sizep and pp point to; a NULL pointer is written as a want flag that is off. */
  datatype Param = Param(ret: Val, wantSize: bool, size: int, wantP: bool, p: int)

  datatype Thread = Thread(live: bool, prio: int, param: Param)
  datatype Msg = Msg(sender: int, size: int, p: int)
  datatype Buf = Buf(block: int, msg: Msg)
  datatype Box = Box(receiver: int, bufs: seq<Buf>)
  datatype Delivery = Delivery(to: int, msg: Msg)

  /** parked, sent and recvd are history: who was taken off the queues by a call that does not put
      its caller back, and per box what was sent and what was delivered to whom. */
  datatype State = State(
    current: int,
    queues: seq<seq<int>>,
    threads: seq<Thread>,
    boxes: seq<Box>,
    heap: Heap,
    handlers: seq<int>,
    parked: set<int>,
    sent: seq<seq<Msg>>,
    recvd: seq<seq<Delivery>>)

  datatype Call =
    | Run(func: int, prio: int)
    | Exit
    | Wait
    | Sleep
    | Wakeup(id: int)
    | GetId
    | ChPri(prio: int)
    | KMalloc(size: int)
    | KMFree(p: int)
    | Send(box: int, size: int, p: int)
    | Recv(box: int, wantSize: bool, wantP: bool)
    | SetIntr(vector: int, handler: int)
    | Unknown

  const NO_PARAM := Param(Unset, false, 0, false, 0)
  const ZEROED := Thread(false, 0, NO_PARAM)

  // ---------------------------------------------------------------- well-formedness

  predicate InRange(s: State, t: int) { 0 <= t < |s.threads| }

  predicate Shape(s: State) {
    && 0 < |s.queues| && |s.sent| == |s.recvd| == |s.boxes|
    && |s.handlers| == VECTORS && |s.heap.free| == CLASSES
    && (s.current == NIL || InRange(s, s.current))
    && (forall t :: 0 <= t < |s.threads| ==> 0 <= s.threads[t].prio < |s.queues|)
    && (forall b :: 0 <= b < |s.boxes| ==> s.boxes[b].receiver == NIL || InRange(s, s.boxes[b].receiver))
  }

  /** The READY flag: the thread is in the queue of its priority. */
  predicate Ready(s: State, t: int) requires Shape(s) && InRange(s, t) {
    t in s.queues[s.threads[t].prio]
  }

  // ---------------------------------------------------------------- queues

  function Enqueue(s: State, t: int): (r: State)
    requires Shape(s) && InRange(s, t)
    ensures Shape(r) && |r.threads| == |s.threads|
    ensures r == s.(queues := r.queues)
  {
    var p := s.threads[t].prio;
    s.(queues := s.queues[p := s.queues[p] + [t]])
  }

  /** Put the current thread at the tail of its queue unless it is ready already. */
  function PutCurrent(s: State): (r: State)
    requires Shape(s)
    ensures Shape(r) && |r.threads| == |s.threads|
    ensures r == s.(queues := r.queues)
  {
    if s.current == NIL || Ready(s, s.current) then s else Enqueue(s, s.current)
  }

  /** Take the current thread off its queue: the code pops the head, whoever that is. */
  function GetCurrent(s: State): (r: State)
    requires Shape(s)
    ensures Shape(r) && |r.threads| == |s.threads|
    ensures r == s.(queues := r.queues)
  {
    if s.current == NIL || !Ready(s, s.current) then s
    else
      var p := s.threads[s.current].prio;
      s.(queues := s.queues[p := s.queues[p][1..]])
  }

  /** The first non-empty queue, |qs| when all are empty. */
  function Lowest(qs: seq<seq<int>>): (p: nat)
    ensures p <= |qs| && (p < |qs| ==> qs[p] != [])
    ensures forall i :: 0 <= i < p ==> qs[i] == []
  {
    if qs == [] || qs[0] != [] then 0 else 1 + Lowest(qs[1..])
  }

  function Schedule(s: State): Outcome<State> {
    var p := Lowest(s.queues);
    if p == |s.queues| then Down else Up(s.(current := s.queues[p][0]))
  }

  /** The first free thread slot, |ts| when all are taken. */
  function FreeSlot(ts: seq<Thread>): (i: nat)
    ensures i <= |ts| && (i < |ts| ==> !ts[i].live)
    ensures forall j :: 0 <= j < i ==> ts[j].live
  {
    if ts == [] || !ts[0].live then 0 else 1 + FreeSlot(ts[1..])
  }

  // ---------------------------------------------------------------- messages

  /** Queue a message from the current thread at the tail of box b. */
  function SendMsg(s: State, b: int, size: int, p: int): (r: Outcome<State>)
    requires Shape(s) && 0 <= b < |s.boxes|
    ensures r.Up? ==> Shape(r.value) && |r.value.threads| == |s.threads|
    ensures r.Up? ==> |r.value.boxes| == |s.boxes| && r.value.boxes[b].bufs != []
  {
    if !HasRoom(s.heap, MSGBUF_SIZE) then Down
    else
      var (h, a) := Alloc(s.heap, MSGBUF_SIZE);
      var m := Msg(s.current, size, p);
      Up(s.(heap := h,
            boxes := s.boxes[b := s.boxes[b].(bufs := s.boxes[b].bufs + [Buf(a, m)])],
            sent := s.sent[b := s.sent[b] + [m]]))
  }

  function Deliver(q: Param, m: Msg): Param {
    q.(ret := Id(m.sender), size := if q.wantSize then m.size else q.size, p := if q.wantP then m.p else q.p)
  }

  /** Hand the head message of box b to the thread waiting there, and free its buffer. */
  function RecvMsg(s: State, b: int): (r: State)
    requires Shape(s) && 0 <= b < |s.boxes| && s.boxes[b].bufs != [] && s.boxes[b].receiver != NIL
    ensures Shape(r) && |r.threads| == |s.threads|
  {
    var x := s.boxes[b];
    var m := x.bufs[0].msg;
    var t := s.threads[x.receiver];
    s.(threads := s.threads[x.receiver := t.(param := Deliver(t.param, m))],
       boxes := s.boxes[b := Box(NIL, x.bufs[1..])],
       heap := Free(s.heap, x.bufs[0].block),
       recvd := s.recvd[b := s.recvd[b] + [Delivery(x.receiver, m)]])
  }

  // ---------------------------------------------------------------- the calls

  function Park(s: State): State { s.(parked := s.parked + {s.current}) }

  /** With no slot left the caller is not put back on its queue.  A slot counts as free while its func
      is NULL, so a NULL func leaves the slot free and its thread queued. */
  function ThreadRun(s: State, func: int, prio: int): (r: (State, Val))
    requires Shape(s) && 0 <= prio < |s.queues|
    ensures Shape(r.0) && |r.0.threads| == |s.threads|
  {
    var i := FreeSlot(s.threads);
    if i == |s.threads| then (Park(s), Code(-1))
    else
      var s1 := PutCurrent(s.(threads := s.threads[i := Thread(func != 0, prio, NO_PARAM)]));
      (PutCurrent(s1.(current := i)), Id(i))
  }

  function ThreadExit(s: State): (r: State)
    requires Shape(s) && s.current != NIL
    ensures Shape(r) && |r.threads| == |s.threads|
  {
    s.(threads := s.threads[s.current := ZEROED])
  }

  function ThreadWakeup(s: State, id: int): (r: State)
    requires Shape(s) && InRange(s, id)
    ensures Shape(r) && |r.threads| == |s.threads|
  {
    var s1 := PutCurrent(s);
    PutCurrent(s1.(current := id, parked := s1.parked - {id}))
  }

  function ThreadChPri(s: State, prio: int): (r: State)
    requires Shape(s) && s.current != NIL && prio < |s.queues|
    ensures Shape(r) && |r.threads| == |s.threads|
  {
    PutCurrent(if prio >= 0 then s.(threads := s.threads[s.current := s.threads[s.current].(prio := prio)]) else s)
  }

  function ThreadKMalloc(s: State, size: int): (r: Outcome<(State, Val)>)
    requires Shape(s)
    ensures r.Up? ==> Shape(r.value.0) && |r.value.0.threads| == |s.threads|
  {
    var s1 := PutCurrent(s);
    if !HasRoom(s1.heap, size) then Down
    else
      var (h, a) := Alloc(s1.heap, size);
      Up((s1.(heap := h), Ptr(a + HEADER)))
  }

  function ThreadKMFree(s: State, p: int): (r: State)
    requires Shape(s)
    ensures Shape(r) && |r.threads| == |s.threads|
  {
    PutCurrent(s.(heap := Free(s.heap, p - HEADER)))
  }

  function ThreadSend(s: State, b: int, size: int, p: int): (r: Outcome<State>)
    requires Shape(s) && 0 <= b < |s.boxes|
    ensures r.Up? ==> Shape(r.value) && |r.value.threads| == |s.threads|
  {
    var s1 :- SendMsg(PutCurrent(s), b, size, p);
    Up(if s1.boxes[b].receiver == NIL then s1
       else PutCurrent(RecvMsg(s1.(current := s1.boxes[b].receiver), b)))
  }

  function ThreadRecv(s: State, b: int): (r: Outcome<(State, Val)>)
    requires Shape(s) && 0 <= b < |s.boxes| && s.current != NIL
    ensures r.Up? ==> Shape(r.value.0) && |r.value.0.threads| == |s.threads|
  {
    if s.boxes[b].receiver != NIL then Down
    else
      var s1 := s.(boxes := s.boxes[b := s.boxes[b].(receiver := s.current)]);
      if s1.boxes[b].bufs == [] then Up((s1, Code(-1)))
      else
        var s2 := PutCurrent(RecvMsg(s1, b));
        Up((s2, s2.threads[s2.current].param.ret))
  }

  function SetHandler(s: State, vector: int, handler: int): (r: State)
    requires Shape(s) && 0 <= vector < VECTORS
    ensures Shape(r) && |r.threads| == |s.threads|
  {
    s.(handlers := s.handlers[vector := handler])
  }

  /** What the code assumes of a call's arguments for memory safety alone. */
  predicate ArgsOk(s: State, c: Call) {
    match c
    case Run(_, prio) => 0 <= prio < |s.queues|
    case Wakeup(id) => InRange(s, id)
    case ChPri(prio) => prio < |s.queues|
    case Send(b, _, _) => 0 <= b < |s.boxes|
    case Recv(b, _, _) => 0 <= b < |s.boxes|
    case SetIntr(v, _) => 0 <= v < VECTORS
    case _ => true
  }

  /** call_functions: the new state and the value stored in the caller's parameter block. */
  function CallFunctions(s: State, c: Call): (r: Outcome<(State, Val)>)
    requires Shape(s) && ArgsOk(s, c)
    requires s.current == NIL ==> c.Wakeup? || c.KMalloc? || c.KMFree? || c.Send?
    ensures r.Up? ==> Shape(r.value.0) && |r.value.0.threads| == |s.threads|
  {
    hide Shape;
    match c
    case Run(func, prio) => Up(ThreadRun(s, func, prio))
    case Exit => Up((ThreadExit(s), Unset))
    case Wait => Up((PutCurrent(s), Code(0)))
    case Sleep => Up((Park(s), Code(0)))
    case Wakeup(id) => Up((ThreadWakeup(s, id), Code(0)))
    case GetId => Up((PutCurrent(s), Id(s.current)))
    case ChPri(prio) => Up((ThreadChPri(s, prio), Code(s.threads[s.current].prio)))
    case KMalloc(size) => ThreadKMalloc(s, size)
    case KMFree(p) => Up((ThreadKMFree(s, p), Code(0)))
    case Send(b, size, p) => var s1 :- ThreadSend(s, b, size, p); Up((s1, Code(size)))
    case Recv(b, _, _) => ThreadRecv(s, b)
    case SetIntr(v, h) => Up((PutCurrent(SetHandler(s, v, h)), Code(0)))
    case Unknown => Up((Park(s), Unset))
  }

  // ---------------------------------------------------------------- kernel steps

  function SetParam(s: State, t: int, q: Param): (r: State)
    requires Shape(s) && InRange(s, t)
    ensures Shape(r) && |r.threads| == |s.threads|
  {
    s.(threads := s.threads[t := s.threads[t].(param := q)])
  }

  /** The block a call starts with. */
  function ParamOf(c: Call): Param {
    if c.Recv? then Param(Unset, c.wantSize, 0, c.wantP, 0) else NO_PARAM
  }

  /** kz_exit passes no block and the default case stores nothing. */
  predicate Returns(c: Call) { !c.Exit? && !c.Unknown? }

  /** ecall by the current thread: kz_syscall, then syscall_proc. */
  function Syscall(s: State, c: Call): (r: Outcome<State>)
    requires Shape(s) && ArgsOk(s, c) && s.current != NIL
    ensures r.Up? ==> Shape(r.value) && |r.value.threads| == |s.threads|
  {
    var caller := s.current;
    var (s1, v) :- CallFunctions(GetCurrent(SetParam(s, caller, ParamOf(c))), c);
    Up(if Returns(c) then SetParam(s1, caller, s1.threads[caller].param.(ret := v)) else s1)
  }

  /** Any other synchronous trap ends the current thread. */
  function Fault(s: State): (r: State)
    requires Shape(s) && s.current != NIL
    ensures Shape(r) && |r.threads| == |s.threads|
  {
    ThreadExit(GetCurrent(s))
  }

  predicate IsService(c: Call) { c.Wakeup? || c.KMalloc? || c.KMFree? || c.Send? }

  /** A service call from an interrupt handler, with the value it returns. */
  function Answer(s: State, c: Call): (r: Outcome<(State, Val)>)
    requires Shape(s) && ArgsOk(s, c) && IsService(c)
    ensures r.Up? ==> Shape(r.value.0) && |r.value.0.threads| == |s.threads|
  {
    CallFunctions(s.(current := NIL), c)
  }

  function Service(s: State, c: Call): (r: Outcome<State>)
    requires Shape(s) && ArgsOk(s, c) && IsService(c)
    ensures r.Up? ==> Shape(r.value) && |r.value.threads| == |s.threads|
  {
    var (s1, _) :- Answer(s, c);
    Up(s1)
  }

  /** The service calls a handler makes, one after another. */
  function Services(s: State, cs: seq<Call>): (r: Outcome<State>)
    requires Shape(s) && ServicesOk(s, cs)
    ensures r.Up? ==> Shape(r.value) && |r.value.threads| == |s.threads|
    decreases cs, 1
  {
    if cs == [] then Up(s)
    else
      var s1 :- Service(s, cs[0]);
      Services(s1, cs[1..])
  }

  predicate ServicesOk(s: State, cs: seq<Call>)
    requires Shape(s)
    decreases cs, 0
  {
    cs == [] ||
    (IsService(cs[0]) && ArgsOk(s, cs[0]) &&
     var r := Service(s, cs[0]);
     r.Up? ==> ServicesOk(r.value, cs[1..]))
  }

  datatype Event = Ecall(call: Call) | Trap | Interrupt(calls: seq<Call>)

  predicate EventOk(s: State, e: Event) {
    Shape(s) && s.current != NIL &&
    match e
    case Ecall(c) => ArgsOk(s, c)
    case Trap => true
    case Interrupt(cs) => s.handlers[SERINTR] != 0 && ServicesOk(s, cs)
  }

  /** One kernel step: trap or interrupt, then schedule; dispatch then runs s.current. */
  function Step(s: State, e: Event): (r: Outcome<State>)
    requires EventOk(s, e)
  {
    match e
    case Ecall(c) => var s1 :- Syscall(s, c); Schedule(s1)
    case Trap => Schedule(Fault(s))
    case Interrupt(cs) => var s1 :- Services(s, cs); Schedule(s1)
  }

  /** The tables as kz_start clears them, before it runs the first thread. */
  function Empty(threads: nat, priorities: nat, boxes: nat, freearea: int): (s: State)
    requires 0 < priorities
    ensures Shape(s)
  {
    State(NIL, seq(priorities, _ => []), seq(threads, _ => ZEROED), seq(boxes, _ => Box(NIL, [])),
          Initial(freearea), seq(VECTORS, _ => 0), {}, seq(boxes, _ => []), seq(boxes, _ => []))
  }
}
