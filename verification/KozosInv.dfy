/** The invariant of the kernel, kept by every step of every run. */
module KozosInv {
  import opened Pools
  import opened KozosSpec

  // ---------------------------------------------------------------- the invariant

  /** Each queue holds threads of its own priority, each once. */
  ghost predicate Queueable(s: State) {
    && (forall p, k {:trigger s.queues[p][k]} :: 0 <= p < |s.queues| && 0 <= k < |s.queues[p]| ==>
          InRange(s, s.queues[p][k]) && s.threads[s.queues[p][k]].prio == p)
    && (forall p, j, k {:trigger s.queues[p][j], s.queues[p][k]} ::
          0 <= p < |s.queues| && 0 <= j < k < |s.queues[p]| ==> s.queues[p][j] != s.queues[p][k])
  }

  /** And only live ones. */
  ghost predicate QueuesOk(s: State) {
    && Queueable(s)
    && (forall p, k {:trigger s.queues[p][k]} :: 0 <= p < |s.queues| && 0 <= k < |s.queues[p]| ==>
          s.threads[s.queues[p][k]].live)
  }

  ghost predicate IsReceiver(s: State, t: int) {
    exists b :: 0 <= b < |s.boxes| && s.boxes[b].receiver == t
  }

  /** Exactly one of three. */
  predicate One(a: bool, b: bool, c: bool) { (a && !b && !c) || (!a && b && !c) || (!a && !b && c) }

  /** Every live thread outside `moving` is in exactly one place: a ready queue, waiting at a box,
      or parked.  Free slots, and the threads a call is just moving, are in none. */
  ghost predicate Placed(s: State, moving: set<int>)
    requires Shape(s)
  {
    && (forall t :: t in moving ==> InRange(s, t) && s.threads[t].live)
    && (forall t {:trigger s.threads[t]} :: InRange(s, t) ==>
          if s.threads[t].live && t !in moving then One(Ready(s, t), IsReceiver(s, t), t in s.parked)
          else !Ready(s, t) && !IsReceiver(s, t) && t !in s.parked)
    && (forall b, c {:trigger s.boxes[b], s.boxes[c]} ::
          0 <= b < c < |s.boxes| && s.boxes[b].receiver == s.boxes[c].receiver ==>
          s.boxes[b].receiver == NIL)
  }

  /** No two queued messages share a block. */
  ghost predicate Apart(boxes: seq<Box>) {
    forall b, k, c, l {:trigger boxes[b].bufs[k], boxes[c].bufs[l]} ::
      0 <= b < |boxes| && 0 <= k < |boxes[b].bufs| && 0 <= c < |boxes| && 0 <= l < |boxes[c].bufs| ==>
      boxes[b].bufs[k].block == boxes[c].bufs[l].block ==> b == c && k == l
  }

  /** Every queued message owns a 32-byte-class block of its own. */
  ghost predicate BuffersOk(s: State) {
    && Valid(s.heap)
    && (forall b, k {:trigger s.boxes[b].bufs[k]} :: 0 <= b < |s.boxes| && 0 <= k < |s.boxes[b].bufs| ==>
          s.boxes[b].bufs[k].block in s.heap.live && ClassAt(s.heap.base, s.boxes[b].bufs[k].block) == 1)
    && Apart(s.boxes)
  }

  function Queued(bufs: seq<Buf>): seq<Msg> { seq(|bufs|, i requires 0 <= i < |bufs| => bufs[i].msg) }
  function Received(ds: seq<Delivery>): seq<Msg> { seq(|ds|, i requires 0 <= i < |ds| => ds[i].msg) }

  /** What was sent to a box is what was delivered from it followed by what is queued in it. */
  ghost predicate Fifo(sent: seq<Msg>, recvd: seq<Delivery>, bufs: seq<Buf>) {
    sent == Received(recvd) + Queued(bufs)
  }

  /** No thread waits at a box that holds a message; box `except` is being served. */
  ghost predicate Waiting(s: State, except: int) {
    forall b {:trigger s.boxes[b]} :: 0 <= b < |s.boxes| && b != except && s.boxes[b].receiver != NIL ==>
      s.boxes[b].bufs == []
  }

  /** The invariant in the middle of a call. */
  ghost predicate Mid(s: State, moving: set<int>, serving: int) {
    && Shape(s) && QueuesOk(s) && Placed(s, moving) && BuffersOk(s) && Waiting(s, serving)
    && (forall b {:trigger s.boxes[b]} :: 0 <= b < |s.boxes| ==> Fifo(s.sent[b], s.recvd[b], s.boxes[b].bufs))
  }

  /** The running thread is the head of the lowest-numbered non-empty queue. */
  ghost predicate Running(s: State) requires Shape(s) {
    && s.current != NIL && Ready(s, s.current)
    && s.threads[s.current].prio == Lowest(s.queues)
    && s.queues[Lowest(s.queues)][0] == s.current
  }

  /** The invariant whenever a trap or an interrupt arrives. */
  ghost predicate Inv(s: State) { Mid(s, {}, NIL) && Running(s) }

  /** A queued thread is live and has the priority of its queue. */
  lemma Members(s: State)
    requires QueuesOk(s)
    ensures forall p, t {:trigger t in s.queues[p]} :: 0 <= p < |s.queues| && t in s.queues[p] ==>
      InRange(s, t) && s.threads[t].live && s.threads[t].prio == p
  {
  }

  lemma CurrentIsFree(s: State, moving: set<int>, serving: int, t: int)
    requires Mid(s, moving, serving) && (t == NIL || InRange(s, t))
    ensures Mid(s.(current := t), moving, serving)
  {
  }

  lemma {:induction false} SameSlot(ts: seq<Thread>, us: seq<Thread>)
    requires |ts| == |us| && forall i :: 0 <= i < |ts| ==> ts[i].live == us[i].live
    ensures FreeSlot(ts) == FreeSlot(us)
  {
  }

  lemma RunningLive(s: State)
    requires Inv(s)
    ensures s.threads[s.current].live
  {
    Members(s);
  }

  // ---------------------------------------------------------------- what the primitives keep

  /** putcurrent makes the current thread ready and unreadies none. */
  lemma PutReady(s: State)
    requires Shape(s) && s.current != NIL
    ensures Ready(PutCurrent(s), s.current)
    ensures forall t :: InRange(s, t) && Ready(s, t) ==> Ready(PutCurrent(s), t)
  {
  }

  lemma PutKeeps(s: State, moving: set<int>, serving: int)
    requires Mid(s, moving, serving)
    requires s.current == NIL || s.current in moving || Ready(s, s.current)
    ensures Mid(PutCurrent(s), moving - {s.current}, serving)
  {
  }

  lemma GetKeeps(s: State)
    requires Inv(s)
    ensures Mid(GetCurrent(s), {s.current}, NIL) && GetCurrent(s).current == s.current
    ensures !Ready(GetCurrent(s), s.current)
  {
  }

  lemma SendBuffers(s: State, b: int, size: int, p: int)
    requires Shape(s) && BuffersOk(s) && 0 <= b < |s.boxes| && HasRoom(s.heap, MSGBUF_SIZE)
    ensures BuffersOk(SendMsg(s, b, size, p).value)
  {
  }

  lemma SendKeeps(s: State, moving: set<int>, b: int, size: int, p: int)
    requires Mid(s, moving, NIL) && 0 <= b < |s.boxes| && HasRoom(s.heap, MSGBUF_SIZE)
    ensures Mid(SendMsg(s, b, size, p).value, moving, b)
  {
    var r := SendMsg(s, b, size, p).value;
    SendBuffers(s, b, size, p);
    assert Queued(r.boxes[b].bufs) == Queued(s.boxes[b].bufs) + [Msg(s.current, size, p)];
    forall u | InRange(s, u) ensures IsReceiver(r, u) == IsReceiver(s, u) {
      assert forall c :: 0 <= c < |s.boxes| ==> r.boxes[c].receiver == s.boxes[c].receiver;
    }
  }

  lemma RecvBuffers(s: State, b: int)
    requires Shape(s) && BuffersOk(s) && 0 <= b < |s.boxes| && s.boxes[b].bufs != [] && s.boxes[b].receiver != NIL
    ensures BuffersOk(RecvMsg(s, b))
  {
  }

  lemma RecvPlaces(s: State, moving: set<int>, b: int)
    requires Shape(s) && Placed(s, moving) && 0 <= b < |s.boxes| && s.boxes[b].bufs != [] && s.boxes[b].receiver != NIL
    ensures Placed(RecvMsg(s, b), moving + {s.boxes[b].receiver})
  {
    var r := RecvMsg(s, b);
    var t := s.boxes[b].receiver;
    assert IsReceiver(s, t);
    forall u | InRange(s, u) ensures IsReceiver(r, u) == (IsReceiver(s, u) && u != t) {
      if IsReceiver(s, u) && u != t {
        var c :| 0 <= c < |s.boxes| && s.boxes[c].receiver == u;
        assert r.boxes[c].receiver == u;
      }
    }
  }

  lemma RecvKeeps(s: State, moving: set<int>, b: int)
    requires Mid(s, moving, b) && 0 <= b < |s.boxes| && s.boxes[b].bufs != [] && s.boxes[b].receiver != NIL
    ensures Mid(RecvMsg(s, b), moving + {s.boxes[b].receiver}, NIL)
  {
    var r := RecvMsg(s, b);
    RecvPlaces(s, moving, b);
    RecvBuffers(s, b);
    assert Queued(s.boxes[b].bufs) == [s.boxes[b].bufs[0].msg] + Queued(r.boxes[b].bufs);
    assert Received(r.recvd[b]) == Received(s.recvd[b]) + [s.boxes[b].bufs[0].msg];
  }

  // ---------------------------------------------------------------- what callers must respect

  ghost predicate IsMessage(s: State, a: int) {
    exists b, k :: 0 <= b < |s.boxes| && 0 <= k < |s.boxes[b].bufs| && s.boxes[b].bufs[k].block == a
  }

  /** The blocks handed to users: live, and not the kernel's own message buffers. */
  ghost function UserBlocks(s: State): set<int> { set a | a in s.heap.live && !IsMessage(s, a) }

  ghost predicate AllLive(s: State) { forall t {:trigger s.threads[t]} :: InRange(s, t) ==> s.threads[t].live }

  /** A thread is started with a function, or not at all; a wake-up names a live thread that does not
      wait at a box; a freed pointer is a user's. */
  ghost predicate CallOk(s: State, c: Call) {
    ArgsOk(s, c) && match c
    case Run(func, _) => func != 0 || AllLive(s)
    case Wakeup(id) => s.threads[id].live && !IsReceiver(s, id)
    case KMFree(p) => p - HEADER in UserBlocks(s)
    case _ => true
  }

  ghost predicate HandlerOk(s: State, cs: seq<Call>)
    requires Shape(s)
    decreases |cs|
  {
    cs == [] ||
    (IsService(cs[0]) && CallOk(s, cs[0]) &&
     var r := Service(s, cs[0]);
     r.Up? ==> HandlerOk(r.value, cs[1..]))
  }

  ghost predicate Legal(s: State, e: Event)
    requires Shape(s)
  {
    match e
    case Ecall(c) => CallOk(s, c)
    case Trap => true
    case Interrupt(cs) => s.handlers[SERINTR] != 0 && HandlerOk(s, cs)
  }

  lemma {:induction false} HandlerOkServices(s: State, cs: seq<Call>)
    requires Shape(s) && HandlerOk(s, cs)
    ensures ServicesOk(s, cs)
    decreases |cs|
  {
    if cs != [] {
      var r := Service(s, cs[0]);
      if r.Up? { HandlerOkServices(r.value, cs[1..]); }
    }
  }

  lemma LegalIsOk(s: State, e: Event)
    requires Shape(s) && s.current != NIL && Legal(s, e)
    ensures EventOk(s, e)
  {
    if e.Interrupt? { HandlerOkServices(s, e.calls); }
  }

  // ---------------------------------------------------------------- what the calls keep

  /** The thread whose call is running is in no place, unless there is none. */
  ghost predicate Called(s: State) {
    Mid(s, if s.current == NIL then {} else {s.current}, NIL)
  }

  lemma ParamKeeps(s: State, moving: set<int>, serving: int, t: int, q: Param)
    requires Mid(s, moving, serving) && InRange(s, t)
    ensures Mid(SetParam(s, t, q), moving, serving)
  {
  }

  lemma ParkKeeps(s: State)
    requires Called(s) && s.current != NIL
    ensures Mid(Park(s), {}, NIL)
  {
  }

  lemma NewThreadKeeps(s: State, func: int, prio: int)
    requires Called(s) && func != 0 && 0 <= prio < |s.queues| && FreeSlot(s.threads) < |s.threads|
    ensures var i := FreeSlot(s.threads);
      var r := s.(threads := s.threads[i := Thread(func != 0, prio, NO_PARAM)]);
      i != s.current && Mid(r, {s.current, i} - {NIL}, NIL) && !Ready(r, i)
  {
    hide Valid;
    var i := FreeSlot(s.threads);
    var r := s.(threads := s.threads[i := Thread(func != 0, prio, NO_PARAM)]);
    Members(s);
    forall u | InRange(s, u) ensures IsReceiver(r, u) == IsReceiver(s, u) && (u != i ==> Ready(r, u) == Ready(s, u)) {}
  }

  lemma RunKeeps(s: State, func: int, prio: int)
    requires Called(s) && CallOk(s, Run(func, prio)) && 0 <= prio < |s.queues|
    requires s.current == NIL ==> FreeSlot(s.threads) < |s.threads|
    ensures Mid(ThreadRun(s, func, prio).0, {}, NIL)
  {
    var i := FreeSlot(s.threads);
    if i == |s.threads| {
      ParkKeeps(s);
    } else {
      NewThreadKeeps(s, func, prio);
      var s0 := s.(threads := s.threads[i := Thread(func != 0, prio, NO_PARAM)]);
      PutKeeps(s0, {s.current, i} - {NIL}, NIL);
      var s1 := PutCurrent(s0);
      assert {s.current, i} - {NIL} - {s.current} == {i};
      CurrentIsFree(s1, {i}, NIL, i);
      PutKeeps(s1.(current := i), {i}, NIL);
      assert {i} - {i} == {};
    }
  }

  lemma ExitKeeps(s: State)
    requires Called(s) && s.current != NIL
    ensures Mid(ThreadExit(s), {}, NIL)
  {
  }

  lemma WakeupKeeps(s: State, id: int)
    requires Called(s) && CallOk(s, Wakeup(id))
    ensures Mid(ThreadWakeup(s, id), {}, NIL)
  {
    PutBack(s);
    var s1 := PutCurrent(s);
    assert IsReceiver(s1, id) == IsReceiver(s, id) by {
      assert s1.boxes == s.boxes;
    }
    WokenMoves(s1, id);
    hide Mid;
    var moving := if Ready(s1, id) then {} else {id};
    PutKeeps(s1.(current := id, parked := s1.parked - {id}), moving, NIL);
    assert moving - {id} == {};
  }

  /** A thread that waits at no box is on the move once it is no longer parked, unless it is ready. */
  lemma WokenMoves(s: State, id: int)
    requires Mid(s, {}, NIL) && InRange(s, id) && s.threads[id].live && !IsReceiver(s, id)
    ensures Mid(s.(current := id, parked := s.parked - {id}), if Ready(s, id) then {} else {id}, NIL)
  {
    var r := s.(current := id, parked := s.parked - {id});
    forall u | InRange(s, u) ensures Ready(r, u) == Ready(s, u) && IsReceiver(r, u) == IsReceiver(s, u) {}
  }

  lemma ChPriKeeps(s: State, prio: int)
    requires Called(s) && s.current != NIL && prio < |s.queues|
    ensures Mid(ThreadChPri(s, prio), {}, NIL)
  {
    var t := s.current;
    if prio >= 0 {
      var r := s.(threads := s.threads[t := s.threads[t].(prio := prio)]);
      Members(s);
      assert !Ready(s, t);
      forall u | InRange(s, u)
        ensures IsReceiver(r, u) == IsReceiver(s, u) && (u != t ==> Ready(r, u) == Ready(s, u)) {}
      PutKeeps(r, {t}, NIL);
    } else {
      PutKeeps(s, {t}, NIL);
    }
    assert {t} - {t} == {};
  }

  lemma PutBack(s: State)
    requires Called(s)
    ensures Mid(PutCurrent(s), {}, NIL)
  {
  }

  /** Replacing the heap by another valid one that keeps the message buffers. */
  lemma HeapKeeps(s: State, moving: set<int>, h: Heap)
    requires Mid(s, moving, NIL) && Valid(h) && h.base == s.heap.base
    requires forall b, k {:trigger s.boxes[b].bufs[k]} :: 0 <= b < |s.boxes| && 0 <= k < |s.boxes[b].bufs| ==>
      s.boxes[b].bufs[k].block in h.live
    ensures Mid(s.(heap := h), moving, NIL)
  {
  }

  lemma KMallocKeeps(s: State, size: int)
    requires Called(s) && HasRoom(s.heap, size)
    ensures Mid(ThreadKMalloc(s, size).value.0, {}, NIL)
  {
    PutBack(s);
    AllocValid(s.heap, size);
    HeapKeeps(PutCurrent(s), {}, Alloc(s.heap, size).0);
  }

  lemma KMFreeKeeps(s: State, p: int)
    requires Called(s) && CallOk(s, KMFree(p))
    ensures Mid(ThreadKMFree(s, p), {}, NIL)
  {
    FreeValid(s.heap, p - HEADER);
    HeapKeeps(s, if s.current == NIL then {} else {s.current}, Free(s.heap, p - HEADER));
    PutBack(s.(heap := Free(s.heap, p - HEADER)));
  }

  lemma ThreadSendKeeps(s: State, b: int, size: int, p: int)
    requires Called(s) && 0 <= b < |s.boxes| && ThreadSend(s, b, size, p).Up?
    ensures Mid(ThreadSend(s, b, size, p).value, {}, NIL)
  {
    PutBack(s);
    var s1 := PutCurrent(s);
    SendKeeps(s1, {}, b, size, p);
    var s2 := SendMsg(s1, b, size, p).value;
    var t := s2.boxes[b].receiver;
    if t == NIL {
      assert Waiting(s2, NIL);
    } else {
      var s3 := s2.(current := t);
      CurrentIsFree(s2, {}, b, t);
      RecvKeeps(s3, {}, b);
      assert {} + {t} == {t};
      PutKeeps(RecvMsg(s3, b), {t}, NIL);
      assert {t} - {t} == {};
    }
  }

  /** The caller starts to wait at a box nobody waits at. */
  lemma WaiterKeeps(s: State, b: int)
    requires Called(s) && 0 <= b < |s.boxes| && s.current != NIL && s.boxes[b].receiver == NIL
    ensures Mid(s.(boxes := s.boxes[b := s.boxes[b].(receiver := s.current)]), {}, b)
  {
    var t := s.current;
    var s1 := s.(boxes := s.boxes[b := s.boxes[b].(receiver := t)]);
    forall u | InRange(s, u) ensures Ready(s1, u) == Ready(s, u) && IsReceiver(s1, u) == (IsReceiver(s, u) || u == t) {
      if IsReceiver(s, u) {
        var c :| 0 <= c < |s.boxes| && s.boxes[c].receiver == u;
        assert s1.boxes[c].receiver == u;
      }
      assert s1.boxes[b].receiver == t;
    }
    forall c | 0 <= c < |s.boxes| && c != b ensures s1.boxes[c].receiver != t {
      assert !IsReceiver(s, t);
    }
  }

  lemma ThreadRecvKeeps(s: State, b: int)
    requires Called(s) && 0 <= b < |s.boxes| && s.current != NIL && ThreadRecv(s, b).Up?
    ensures Mid(ThreadRecv(s, b).value.0, {}, NIL)
  {
    var t := s.current;
    var s1 := s.(boxes := s.boxes[b := s.boxes[b].(receiver := t)]);
    WaiterKeeps(s, b);
    if s1.boxes[b].bufs == [] {
      assert Waiting(s1, NIL);
    } else {
      RecvKeeps(s1, {}, b);
      assert {} + {t} == {t};
      PutKeeps(RecvMsg(s1, b), {t}, NIL);
      assert {t} - {t} == {};
    }
  }

  lemma CallKeeps(s: State, c: Call)
    requires Called(s) && CallOk(s, c) && (s.current == NIL ==> IsService(c))
    requires CallFunctions(s, c).Up?
    ensures Mid(CallFunctions(s, c).value.0, {}, NIL)
  {
    match c
    case Run(func, prio) => RunKeeps(s, func, prio);
    case Exit => ExitKeeps(s);
    case Wait => PutBack(s);
    case Sleep => ParkKeeps(s);
    case Wakeup(id) => WakeupKeeps(s, id);
    case GetId => PutBack(s);
    case ChPri(prio) => ChPriKeeps(s, prio);
    case KMalloc(size) => KMallocKeeps(s, size);
    case KMFree(p) => KMFreeKeeps(s, p);
    case Send(b, size, p) => ThreadSendKeeps(s, b, size, p);
    case Recv(b, _, _) => ThreadRecvKeeps(s, b);
    case SetIntr(v, h) =>
      var r := SetHandler(s, v, h);
      forall u | InRange(s, u) ensures Ready(r, u) == Ready(s, u) && IsReceiver(r, u) == IsReceiver(s, u) {}
      PutBack(r);
    case Unknown => ParkKeeps(s);
  }
}
