/** Every run of the kernel: what each step keeps, who is where, and what callers must respect. */
module KozosRuns {
  import opened Pools
  import opened KozosSpec
  import opened KozosInv

  // ---------------------------------------------------------------- one step keeps the invariant

  lemma SyscallKeeps(s: State, c: Call)
    requires Inv(s) && CallOk(s, c) && Syscall(s, c).Up?
    ensures Mid(Syscall(s, c).value, {}, NIL)
  {
    var s0 := Entered(s, c);
    EnteredIsCalled(s, c);
    CallKeeps(s0, c);
    var (s1, v) := CallFunctions(s0, c).value;
    if Returns(c) { ParamKeeps(s1, {}, NIL, s.current, s1.threads[s.current].param.(ret := v)); }
  }

  /** The state in which call_functions starts. */
  function Entered(s: State, c: Call): (r: State)
    requires Shape(s) && s.current != NIL
    ensures Shape(r)
  {
    GetCurrent(SetParam(s, s.current, ParamOf(c)))
  }

  lemma EnteredIsCalled(s: State, c: Call)
    requires Inv(s)
    ensures var r := Entered(s, c);
      && Called(r) && r.current == s.current && r.boxes == s.boxes && r.heap == s.heap && r.parked == s.parked
      && r.sent == s.sent && r.recvd == s.recvd && r.handlers == s.handlers
      && r.threads == s.threads[s.current := s.threads[s.current].(param := ParamOf(c))]
      && r.queues == s.queues[s.threads[s.current].prio := s.queues[s.threads[s.current].prio][1..]]
      && (CallOk(s, c) ==> CallOk(r, c))
  {
    var s0 := SetParam(s, s.current, ParamOf(c));
    ParamKeeps(s, {}, NIL, s.current, ParamOf(c));
    assert Ready(s0, s0.current);
    GetKeeps(s0);
    var r := Entered(s, c);
    assert forall a :: IsMessage(r, a) == IsMessage(s, a);
    assert forall u :: IsReceiver(r, u) == IsReceiver(s, u);
  }

  lemma FaultKeeps(s: State)
    requires Inv(s)
    ensures Mid(Fault(s), {}, NIL)
  {
    GetKeeps(s);
    ExitKeeps(GetCurrent(s));
  }

  lemma ServiceKeeps(s: State, c: Call)
    requires Mid(s, {}, NIL) && CallOk(s, c) && IsService(c) && Service(s, c).Up?
    ensures Mid(Service(s, c).value, {}, NIL)
  {
    var s0 := s.(current := NIL);
    CurrentIsFree(s, {}, NIL, NIL);
    assert forall a :: IsMessage(s0, a) == IsMessage(s, a);
    assert forall u :: IsReceiver(s0, u) == IsReceiver(s, u);
    CallKeeps(s0, c);
  }

  lemma {:induction false} ServicesKeep(s: State, cs: seq<Call>)
    requires Mid(s, {}, NIL) && HandlerOk(s, cs) && ServicesOk(s, cs) && Services(s, cs).Up?
    ensures Mid(Services(s, cs).value, {}, NIL)
    decreases |cs|
  {
    if cs != [] {
      ServiceKeeps(s, cs[0]);
      ServicesKeep(Service(s, cs[0]).value, cs[1..]);
    }
  }

  lemma ScheduleKeeps(s: State)
    requires Mid(s, {}, NIL) && Schedule(s).Up?
    ensures Inv(Schedule(s).value)
  {
  }

  /** The state a step leaves to the scheduler. */
  function Before(s: State, e: Event): Outcome<State>
    requires EventOk(s, e)
  {
    match e
    case Ecall(c) => Syscall(s, c)
    case Trap => Up(Fault(s))
    case Interrupt(cs) => Services(s, cs)
  }

  lemma BeforeKeeps(s: State, e: Event)
    requires Inv(s) && Legal(s, e) && EventOk(s, e) && Before(s, e).Up?
    ensures Mid(Before(s, e).value, {}, NIL)
    ensures Step(s, e) == Schedule(Before(s, e).value)
  {
    match e
    case Ecall(c) => SyscallKeeps(s, c);
    case Trap => FaultKeeps(s);
    case Interrupt(cs) => ServicesKeep(s, cs);
  }

  lemma StepKeeps(s: State, e: Event)
    requires Inv(s) && Legal(s, e) && EventOk(s, e) && Step(s, e).Up?
    ensures Inv(Step(s, e).value)
  {
    BeforeKeeps(s, e);
    ScheduleKeeps(Before(s, e).value);
  }

  /** The sizes of the tables, and the arguments of kz_start. */
  datatype Config = Config(threads: nat, priorities: nat, boxes: nat, freearea: int, func: int, prio: int) {
    predicate Ok() { 0 < threads && func != 0 && 0 <= prio < priorities }
  }

  /** The state in which the first thread starts. */
  ghost function Boot(c: Config): (s: State)
    requires c.Ok()
    ensures Inv(s) && |s.threads| == c.threads && |s.queues| == c.priorities && |s.boxes| == c.boxes
    ensures s.heap == Initial(c.freearea) && s.sent == seq(c.boxes, _ => []) && s.parked == {}
  {
    var z := Empty(c.threads, c.priorities, c.boxes, c.freearea);
    BootInv(c);
    ThreadRun(z, c.func, c.prio).0
  }

  lemma BootInv(c: Config)
    requires c.Ok()
    ensures var s := ThreadRun(Empty(c.threads, c.priorities, c.boxes, c.freearea), c.func, c.prio).0;
      && Inv(s) && |s.threads| == c.threads && |s.queues| == c.priorities && |s.boxes| == c.boxes
      && s.heap == Initial(c.freearea) && s.sent == seq(c.boxes, _ => []) && s.parked == {}
  {
    var z := Empty(c.threads, c.priorities, c.boxes, c.freearea);
    EmptyMid(c);
    RunKeeps(z, c.func, c.prio);
    hide QueuesOk, Placed, BuffersOk, Waiting;
    var i := FreeSlot(z.threads);
    var s0 := z.(threads := z.threads[i := Thread(true, c.prio, NO_PARAM)]);
    assert PutCurrent(s0) == s0;
    var s := ThreadRun(z, c.func, c.prio).0;
    assert s == Enqueue(s0.(current := i), i);
    assert s.queues[c.prio] == [i];
    assert s.queues[Lowest(s.queues)] != [];
  }

  lemma EmptyMid(c: Config)
    requires c.Ok()
    ensures var z := Empty(c.threads, c.priorities, c.boxes, c.freearea); Mid(z, {}, NIL) && FreeSlot(z.threads) == 0
  {
    InitialValid(c.freearea);
  }

  // ---------------------------------------------------------------- runs

  ghost predicate LegalRun(s: State, es: seq<Event>)
    requires Inv(s)
    decreases |es|
  {
    es == [] ||
    (Legal(s, es[0]) &&
     (LegalIsOk(s, es[0]);
      var r := Step(s, es[0]);
      r.Up? && (StepKeeps(s, es[0]); LegalRun(r.value, es[1..]))))
  }

  /** The state after a legal run. */
  ghost function Exec(s: State, es: seq<Event>): (r: State)
    requires Inv(s) && LegalRun(s, es)
    ensures Inv(r)
    decreases |es|
  {
    if es == [] then s
    else
      LegalIsOk(s, es[0]); StepKeeps(s, es[0]);
      Exec(Step(s, es[0]).value, es[1..])
  }

  // ---------------------------------------------------------------- who is parked

  /** The caller a call leaves off the queues until someone wakes it, read off the call. */
  ghost function Parks(s: State, c: Call): set<int> {
    if c.Sleep? || c.Unknown? || (c.Run? && AllLive(s)) then {s.current} else {}
  }

  function Wakes(c: Call): set<int> { if c.Wakeup? then {c.id} else {} }
  function WokenBy(cs: seq<Call>): set<int> { if cs == [] then {} else Wakes(cs[0]) + WokenBy(cs[1..]) }

  /** Who is parked after an event if p were before. */
  ghost function ParkedAfter(p: set<int>, s: State, e: Event): set<int> {
    match e
    case Ecall(c) => p + Parks(s, c) - Wakes(c)
    case Trap => p
    case Interrupt(cs) => p - WokenBy(cs)
  }

  lemma CallParks(s: State, c: Call)
    requires Shape(s) && ArgsOk(s, c) && (s.current == NIL ==> IsService(c)) && CallFunctions(s, c).Up?
    ensures CallFunctions(s, c).value.0.parked == s.parked + Parks(s, c) - Wakes(c)
  {
    hide Alloc, Free, HasRoom, PutCurrent;
    match c
    case Run(func, prio) =>
      var i := FreeSlot(s.threads);
      if i < |s.threads| { assert !s.threads[i].live; }
    case Send(b, size, p) =>
    case _ =>
  }

  lemma {:induction false} ServicesPark(s: State, cs: seq<Call>)
    requires Shape(s) && ServicesOk(s, cs) && Services(s, cs).Up?
    ensures Services(s, cs).value.parked == s.parked - WokenBy(cs)
    decreases |cs|
  {
    hide CallFunctions;
    if cs != [] {
      CallParks(s.(current := NIL), cs[0]);
      ServicesPark(Service(s, cs[0]).value, cs[1..]);
    }
  }

  lemma StepParks(s: State, e: Event)
    requires Inv(s) && EventOk(s, e) && Step(s, e).Up?
    ensures Step(s, e).value.parked == ParkedAfter(s.parked, s, e)
  {
    hide CallFunctions, GetCurrent;
    match e
    case Ecall(c) =>
      EnteredIsCalled(s, c);
      var s0 := Entered(s, c);
      CallParks(s0, c);
      assert AllLive(s0) <==> AllLive(s) by {
        assert forall t :: InRange(s, t) ==> s0.threads[t].live == s.threads[t].live;
      }
    case Trap =>
    case Interrupt(cs) => ServicesPark(s, cs);
  }

  /** Who is parked after a run, read off its events: the callers of kz_sleep, of calls that do not
      exist, and of kz_run with no slot free, until a wake-up names them. */
  ghost function RunParked(p: set<int>, s: State, es: seq<Event>): set<int>
    requires Inv(s) && LegalRun(s, es)
    decreases |es|
  {
    if es == [] then p
    else
      LegalIsOk(s, es[0]); StepKeeps(s, es[0]);
      RunParked(ParkedAfter(p, s, es[0]), Step(s, es[0]).value, es[1..])
  }

  lemma {:induction false} RunParks(s: State, es: seq<Event>)
    requires Inv(s) && LegalRun(s, es)
    ensures Exec(s, es).parked == RunParked(s.parked, s, es)
    decreases |es|
  {
    hide Step, ParkedAfter;
    if es != [] {
      LegalIsOk(s, es[0]);
      StepKeeps(s, es[0]);
      StepParks(s, es[0]);
      RunParks(Step(s, es[0]).value, es[1..]);
    }
  }

  // ---------------------------------------------------------------- what holds at every step boundary

  ghost predicate QueuedAt(s: State, t: int, p: int, k: int) {
    0 <= p < |s.queues| && 0 <= k < |s.queues[p]| && s.queues[p][k] == t
  }

  ghost predicate WaitsAt(s: State, t: int, b: int) {
    0 <= b < |s.boxes| && s.boxes[b].receiver == t
  }

  lemma ReadyIsQueued(s: State, t: int)
    requires Shape(s) && QueuesOk(s) && InRange(s, t)
    ensures Ready(s, t) <==> exists p, k :: QueuedAt(s, t, p, k)
    ensures forall p, k :: QueuedAt(s, t, p, k) ==> p == s.threads[t].prio
  {
    if Ready(s, t) {
      var p := s.threads[t].prio;
      var k :| 0 <= k < |s.queues[p]| && s.queues[p][k] == t;
      assert QueuedAt(s, t, p, k);
    }
    if p, k :| QueuedAt(s, t, p, k) {
      assert s.threads[s.queues[p][k]].prio == p;
    }
  }

  /** After every run each live thread is in exactly one place: one position of the queue of its
      priority, one box, or parked; a free slot is in none. */
  lemma OnePlace(c: Config, es: seq<Event>, t: int)
    requires c.Ok() && LegalRun(Boot(c), es) && InRange(Exec(Boot(c), es), t)
    ensures var r := Exec(Boot(c), es);
      var queued, waits := (exists p, k :: QueuedAt(r, t, p, k)), (exists b :: WaitsAt(r, t, b));
      var parked := t in RunParked({}, Boot(c), es);
      && (if r.threads[t].live then One(queued, waits, parked) else !queued && !waits && !parked)
      && (forall p, k, l :: QueuedAt(r, t, p, k) && QueuedAt(r, t, p, l) ==> k == l)
      && (forall p, k :: QueuedAt(r, t, p, k) ==> p == r.threads[t].prio)
      && (forall a, b :: WaitsAt(r, t, a) && WaitsAt(r, t, b) ==> a == b)
  {
    hide BuffersOk, Running, Exec, LegalRun, RunParked, Boot;
    var r := Exec(Boot(c), es);
    RunParks(Boot(c), es);
    ReadyIsQueued(r, t);
    ReceiverWaits(r, t);
    assert r.threads[t] == r.threads[t];
  }

  lemma ReceiverWaits(s: State, t: int)
    requires Shape(s) && Placed(s, {}) && InRange(s, t)
    ensures IsReceiver(s, t) <==> exists b :: WaitsAt(s, t, b)
    ensures forall a, b :: WaitsAt(s, t, a) && WaitsAt(s, t, b) ==> a == b
  {
    if IsReceiver(s, t) {
      var b :| 0 <= b < |s.boxes| && s.boxes[b].receiver == t;
      assert WaitsAt(s, t, b);
    }
    forall a, b | WaitsAt(s, t, a) && WaitsAt(s, t, b) ensures a == b {
      assert s.boxes[a].receiver == s.boxes[b].receiver;
    }
  }

  /** After every run the running thread heads the lowest-numbered queue that is not empty, and no
      thread waits at a box that holds a message. */
  lemma RunningIsFirst(c: Config, es: seq<Event>, p: int, k: int, t: int, b: int)
    requires c.Ok() && LegalRun(Boot(c), es)
    requires QueuedAt(Exec(Boot(c), es), t, p, k)
    ensures var r := Exec(Boot(c), es);
      && InRange(r, r.current) && r.threads[r.current].live && QueuedAt(r, r.current, r.threads[r.current].prio, 0)
      && r.threads[r.current].prio <= p
      && (r.threads[r.current].prio == p && k == 0 ==> t == r.current)
      && (0 <= b < |r.boxes| && r.boxes[b].bufs != [] ==> r.boxes[b].receiver == NIL)
  {
  }

  // ---------------------------------------------------------------- what callers must respect, exactly

  ghost predicate Ranged(s: State) {
    forall p, k {:trigger s.queues[p][k]} :: 0 <= p < |s.queues| && 0 <= k < |s.queues[p]| ==>
      InRange(s, s.queues[p][k])
  }

  lemma PutRanged(s: State)
    requires Shape(s) && Ranged(s)
    ensures Ranged(PutCurrent(s))
  {
  }

  /** The step of a call after which some thread is ready, as far as the guards below can see. */
  lemma StepAfter(s: State, c: Call, t: int)
    requires Inv(s) && ArgsOk(s, c) && ArgsOk(Entered(s, c), c) && Returns(c) && InRange(s, t)
    requires var o := CallFunctions(Entered(s, c), c);
      o.Up? && |o.value.0.threads| == |s.threads| && Ready(o.value.0, t) && Ranged(o.value.0)
    ensures var o, r := Step(s, Ecall(c)), CallFunctions(Entered(s, c), c).value.0;
      && o.Up? && Shape(o.value) && |o.value.threads| == |s.threads| && Ready(o.value, t)
      && o.value.boxes == r.boxes && o.value.heap == r.heap && o.value.threads[t].live == r.threads[t].live
  {
    hide CallFunctions, GetCurrent;
    var q := Syscall(s, c).value;
    assert Ready(q, t);
    assert q.queues[q.threads[t].prio] != [];
    assert Ready(Step(s, Ecall(c)).value, t);
  }

  /** A thread is in a queue that must not be. */
  lemma QueuedInTwoPlaces(s: State, t: int)
    requires Shape(s) && InRange(s, t) && Ready(s, t) && (!s.threads[t].live || IsReceiver(s, t))
    ensures !Placed(s, {})
  {
  }

  lemma SameReceivers(s: State, r: State, t: int)
    requires s.boxes == r.boxes
    ensures IsReceiver(s, t) == IsReceiver(r, t)
  {
  }

  lemma WakeupReadies(s: State, id: int)
    requires Shape(s) && Ranged(s) && InRange(s, id)
    ensures var r := ThreadWakeup(s, id);
      Ready(r, id) && r.boxes == s.boxes && r.threads == s.threads && Ranged(r)
  {
    var s1 := PutCurrent(s);
    var s2 := s1.(current := id, parked := s1.parked - {id});
    PutRanged(s);
    PutRanged(s2);
    PutReady(s2);
  }

  /** kz_wakeup keeps the kernel consistent if and only if it names a live thread that is not
      waiting at a message box.  The code checks neither. */
  lemma WakeupExactly(s: State, id: int)
    requires Inv(s) && InRange(s, id)
    ensures Step(s, Ecall(Wakeup(id))).Up?
    ensures Inv(Step(s, Ecall(Wakeup(id))).value) <==> s.threads[id].live && !IsReceiver(s, id)
  {
    hide Step, GetCurrent, ThreadWakeup;
    var c := Wakeup(id);
    EnteredIsCalled(s, c);
    WakeupReadies(Entered(s, c), id);
    StepAfter(s, c, id);
    var r := Step(s, Ecall(c)).value;
    SameReceivers(s, r, id);
    if s.threads[id].live && !IsReceiver(s, id) {
      StepKeeps(s, Ecall(c));
    } else {
      QueuedInTwoPlaces(r, id);
    }
  }

  /** A thread started without a function is ready in a slot that counts as free. */
  lemma NullRunReadies(s: State, prio: int)
    requires Called(s) && s.current != NIL && 0 <= prio < |s.queues| && !AllLive(s)
    ensures var i, r := FreeSlot(s.threads), ThreadRun(s, 0, prio).0;
      i < |s.threads| && Ready(r, i) && !r.threads[i].live && Ranged(r)
  {
    hide BuffersOk, Placed, Waiting;
    var i := FreeSlot(s.threads);
    var s0 := s.(threads := s.threads[i := Thread(false, prio, NO_PARAM)]);
    var s1 := PutCurrent(s0);
    PutRanged(s0);
    PutRanged(s1.(current := i));
    PutReady(s1.(current := i));
  }

  /** kz_run keeps the kernel consistent if and only if it is given a function, or no slot is free.  The
      code does not look at the function. */
  lemma RunExactly(s: State, func: int, prio: int)
    requires Inv(s) && 0 <= prio < |s.queues|
    ensures var o := Step(s, Ecall(Run(func, prio)));
      o.Up? ==> (Inv(o.value) <==> func != 0 || AllLive(s))
    ensures func == 0 && !AllLive(s) ==> Step(s, Ecall(Run(func, prio))).Up?
  {
    hide Step, GetCurrent, ThreadRun;
    var c := Run(func, prio);
    if func != 0 || AllLive(s) {
      if Step(s, Ecall(c)).Up? { StepKeeps(s, Ecall(c)); }
    } else {
      EnteredIsCalled(s, c);
      var s0 := Entered(s, c);
      var i := FreeSlot(s0.threads);
      assert !AllLive(s0) by { assert forall t :: InRange(s, t) ==> s0.threads[t].live == s.threads[t].live; }
      NullRunReadies(s0, prio);
      StepAfter(s, c, i);
      QueuedInTwoPlaces(Step(s, Ecall(c)).value, i);
    }
  }

  lemma FreeReadies(s: State, p: int)
    requires Shape(s) && Ranged(s) && s.current != NIL
    ensures var r := ThreadKMFree(s, p);
      Ready(r, s.current) && r.boxes == s.boxes && r.heap == Free(s.heap, p - HEADER) && Ranged(r)
  {
    PutRanged(s.(heap := Free(s.heap, p - HEADER)));
    PutReady(s.(heap := Free(s.heap, p - HEADER)));
  }

  /** Of the FIFO functions: kz_kmfree of a pointer to any block keeps the kernel consistent if and only
      if the block belongs to a user: it is live and carries no queued message.  The code checks
      neither; KozosTables.FreeTablesExactly says the same of the words in memory. */
  lemma KMFreeExactly(s: State, p: int)
    requires Inv(s) && IsBlock(s.heap.base, p - HEADER)
    ensures Step(s, Ecall(KMFree(p))).Up?
    ensures Inv(Step(s, Ecall(KMFree(p))).value) <==> p - HEADER in UserBlocks(s)
  {
    hide Step, GetCurrent, ThreadKMFree;
    var c := KMFree(p);
    EnteredIsCalled(s, c);
    FreeReadies(Entered(s, c), p);
    StepAfter(s, c, s.current);
    if p - HEADER in UserBlocks(s) {
      StepKeeps(s, Ecall(c));
    } else {
      FreedNotUsers(s, p - HEADER, Step(s, Ecall(c)).value);
    }
  }

  /** kx_wakeup from a handler keeps the invariant of a handler if and only if it names a live thread
      that is not waiting at a box. */
  lemma ServiceWakeupExactly(s: State, id: int)
    requires Mid(s, {}, NIL) && InRange(s, id)
    ensures Service(s, Wakeup(id)).Up?
    ensures Mid(Service(s, Wakeup(id)).value, {}, NIL) <==> s.threads[id].live && !IsReceiver(s, id)
  {
    hide ThreadWakeup;
    var s0 := s.(current := NIL);
    WakeupReadies(s0, id);
    var r := Service(s, Wakeup(id)).value;
    SameReceivers(s, r, id);
    if s.threads[id].live && !IsReceiver(s, id) {
      ServiceKeeps(s, Wakeup(id));
    } else {
      QueuedInTwoPlaces(r, id);
    }
  }

  /** And kx_kmfree, of the FIFO functions, if and only if the block is a user's. */
  lemma ServiceKMFreeExactly(s: State, p: int)
    requires Mid(s, {}, NIL) && IsBlock(s.heap.base, p - HEADER)
    ensures Service(s, KMFree(p)).Up?
    ensures Mid(Service(s, KMFree(p)).value, {}, NIL) <==> p - HEADER in UserBlocks(s)
  {
    if p - HEADER in UserBlocks(s) {
      ServiceKeeps(s, KMFree(p));
    } else {
      FreedNotUsers(s, p - HEADER, Service(s, KMFree(p)).value);
    }
  }

  /** A block freed while it is free is listed twice; one that carries a message is not live. */
  lemma FreedNotUsers(s: State, a: int, r: State)
    requires BuffersOk(s) && IsBlock(s.heap.base, a) && a !in UserBlocks(s)
    requires Shape(r) && r.heap == Free(s.heap, a) && r.boxes == s.boxes
    ensures !BuffersOk(r)
  {
    if a in s.heap.live {
      var b, k :| 0 <= b < |s.boxes| && 0 <= k < |s.boxes[b].bufs| && s.boxes[b].bufs[k].block == a;
      assert r.boxes[b].bufs[k].block !in r.heap.live;
    } else {
      var c := ClassAt(s.heap.base, a);
      var k :| 0 <= k < |s.heap.free[c]| && s.heap.free[c][k] == a;
      assert r.heap.free[c][0] == r.heap.free[c][k + 1];
    }
  }
}
