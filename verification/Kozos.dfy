/** software/kozos/kozos.c in place: thread control blocks linked into ready queues, message buffers
    linked inside allocator blocks, and every call proved to do to those tables what the FIFO
    functions of KozosSpec do to sequences.  A call that ends in kz_sysdown reports `down`. */
module Kozos {
  import opened Pools
  import opened KzMemory
  import opened KozosSpec
  import opened KozosInv
  import opened KozosRep
  import opened KozosRuns

  const CAUSE_MACHINE_ECALL: int := 11

  /** Memory safety of a call: its arguments name existing tables, and a freed pointer is a user's. */
  ghost predicate Safe(s: State, c: Call) {
    ArgsOk(s, c) && (c.KMFree? ==> c.p - HEADER in UserBlocks(s))
  }

  class Kernel {
    var current: int
    const readyque: array<Queue>
    const threads: array<Tcb>
    const handlers: array<int>
    const msgboxes: array<MsgBox>
    const mem: Memory
    ghost var s: State          // the FIFO state the tables represent

    ghost predicate Valid()
      reads this, readyque, threads, handlers, msgboxes, mem, mem.pool, mem.ram
    {
      && handlers != mem.ram && mem.Valid()
      && s.current == current && s.heap == mem.heap && s.handlers == handlers[..] && Shape(s)
      && |s.threads| == threads.Length && |s.queues| == readyque.Length && |s.boxes| == msgboxes.Length
      && QueuesRep(s, readyque[..], threads[..])
      && BoxesRep(s, msgboxes[..], mem.ram[..])
    }

    /** The tables in static storage, before kz_start; `s` has no meaning yet. */
    constructor (threadNum: nat, priorityNum: nat, boxNum: nat, freearea: int)
      requires 0 < freearea
      ensures threads.Length == threadNum && readyque.Length == priorityNum && msgboxes.Length == boxNum
      ensures handlers.Length == VECTORS && (forall i :: 0 <= i < VECTORS ==> handlers[i] == 0)
      ensures fresh(readyque) && fresh(threads) && fresh(handlers) && fresh(msgboxes)
      ensures fresh(mem) && fresh(mem.pool) && fresh(mem.ram) && handlers != mem.ram
      ensures mem.base == freearea == mem.area && mem.pool.Length == CLASSES && mem.ram.Length == AREA
      ensures forall i: nat :: i < CLASSES ==> mem.pool[i] == Pool(Size(i), Num(i), NULL)
    {
      current := NIL;
      readyque := new Queue[priorityNum](_ => Queue(NIL, NIL));
      threads := new Tcb[threadNum](_ => Tcb(NIL, 0, false, 0, NO_PARAM));
      msgboxes := new MsgBox[boxNum](_ => MsgBox(NIL, NULL, NULL));
      handlers := new int[VECTORS](_ => 0);
      mem := new Memory(freearea);
      s := *;
    }

    /** A change of the state that the boxes and the words do not show. */
    lemma SameBoxes(was: State)
      requires BoxesRep(was, msgboxes[..], mem.ram[..]) && Shape(s) && s.boxes == was.boxes && s.heap == was.heap
      ensures BoxesRep(s, msgboxes[..], mem.ram[..])
    {
    }

    /** A change of the state that the queues do not show. */
    lemma SameQueues(was: State)
      requires QueuesRep(was, readyque[..], threads[..])
      requires Shape(s) && s.queues == was.queues && s.threads == was.threads
      ensures QueuesRep(s, readyque[..], threads[..])
    {
    }

    /** History shows in no table. */
    lemma HistoryOnly(was: State)
      requires QueuesRep(was, readyque[..], threads[..]) && BoxesRep(was, msgboxes[..], mem.ram[..])
      requires Shape(s) && s == was.(parked := s.parked, sent := s.sent, recvd := s.recvd)
      ensures QueuesRep(s, readyque[..], threads[..]) && BoxesRep(s, msgboxes[..], mem.ram[..])
    {
    }

    // -------------------------------------------------------------- queues

    method GetCurrent() returns (r: int)
      requires Valid()
      requires current != NIL && Ready(s, current) ==> s.queues[s.threads[current].prio][0] == current
      modifies this`s, readyque, threads
      ensures Valid() && s == KozosSpec.GetCurrent(old(s))
      ensures r == if old(current != NIL && Ready(s, current)) then 0 else -1
    {
      if current == NIL {
        return -1;
      }
      hide QueuesRep, BoxesRep;
      TcbIs(s, readyque[..], threads[..], current);
      assert threads[current] == threads[..][current];
      if !threads[current].ready {
        return -1;
      }
      ghost var was := s;
      PopRep(s, readyque[..], threads[..]);
      UnlinkCurrent();
      s := KozosSpec.GetCurrent(s);
      SameBoxes(was);
      return 0;
    }

    /** The writes of getcurrent. */
    method UnlinkCurrent()
      requires 0 <= current < threads.Length && 0 <= threads[current].prio < readyque.Length
      modifies readyque, threads
      ensures var r := Popped(old(readyque[..]), old(threads[..]), current); readyque[..] == r.0 && threads[..] == r.1
    {
      var p := threads[current].prio;
      readyque[p] := readyque[p].(head := threads[current].next);
      if readyque[p].head == NIL {
        readyque[p] := readyque[p].(tail := NIL);
      }
      threads[current] := threads[current].(ready := false);
      threads[current] := threads[current].(next := NIL);
    }

    method PutCurrent() returns (r: int)
      requires Valid()
      modifies this`s, readyque, threads
      ensures Valid() && s == KozosSpec.PutCurrent(old(s))
      ensures r == if current == NIL then -1 else if old(Ready(s, current)) then 1 else 0
    {
      if current == NIL {
        return -1;
      }
      hide QueuesRep, BoxesRep;
      TcbIs(s, readyque[..], threads[..], current);
      assert threads[current] == threads[..][current];
      if threads[current].ready {
        return 1;
      }
      ghost var was := s;
      AppendRep(s, readyque[..], threads[..], current);
      LinkCurrent();
      s := KozosSpec.PutCurrent(s);
      SameBoxes(was);
      return 0;
    }

    /** The writes of putcurrent. */
    method LinkCurrent()
      requires 0 <= current < threads.Length && 0 <= threads[current].prio < readyque.Length
      requires readyque[threads[current].prio].tail == NIL || 0 <= readyque[threads[current].prio].tail < threads.Length
      modifies readyque, threads
      ensures var r := Appended(old(readyque[..]), old(threads[..]), current); readyque[..] == r.0 && threads[..] == r.1
    {
      var p := threads[current].prio;
      if readyque[p].tail != NIL {
        threads[readyque[p].tail] := threads[readyque[p].tail].(next := current);
      } else {
        readyque[p] := readyque[p].(head := current);
      }
      readyque[p] := readyque[p].(tail := current);
      threads[current] := threads[current].(ready := true);
    }

    method Schedule() returns (down: bool)
      requires Valid()
      modifies this
      ensures down == KozosSpec.Schedule(old(s)).Down?
      ensures !down ==> Valid() && Up(s) == KozosSpec.Schedule(old(s))
    {
      var i := 0;
      while i < readyque.Length
        invariant 0 <= i <= Lowest(s.queues) && Valid() && s == old(s)
      {
        assert readyque[i] == readyque[..][i];
        if readyque[i].head != NIL {
          break;
        }
        i := i + 1;
      }
      if i == readyque.Length {
        return true;
      }
      ghost var was := s;
      current := readyque[i].head;
      s := s.(current := current);
      SameBoxes(was);
      return false;
    }

    // -------------------------------------------------------------- messages

    /** A store into the payload of a live block that carries no queued message, by the kernel
        filling a new buffer or by the thread that owns the block: no table changes. */
    method Store(p: int, o: int, v: int)
      requires Valid() && p - HEADER in mem.heap.live && !IsMessage(s, p - HEADER)
      requires 0 <= o && HEADER + o < Size(ClassAt(mem.base, p - HEADER))
      modifies mem.ram
      ensures Valid() && 0 <= p + o - mem.base < AREA
      ensures mem.ram[..] == old(mem.ram[..])[p + o - mem.base := v]
    {
      StoreSpares(s, s, msgboxes[..], mem.ram[..], p - HEADER, HEADER + o, v);
      mem.Store(p, o, v);
    }

    /** kzmem_alloc, seen from the kernel. */
    method Allocate(size: int) returns (p: int, down: bool)
      requires Valid()
      modifies this`s, mem`heap, mem.pool, mem.ram
      ensures down == !HasRoom(old(s.heap), size)
      ensures !down ==> Valid() && (s.heap, p - HEADER) == Alloc(old(s.heap), size) && s == old(s).(heap := s.heap)
      ensures !down ==> p - HEADER in s.heap.live && !IsMessage(s, p - HEADER)
      ensures !down ==> ClassAt(mem.base, p - HEADER) == ClassFor(size)
    {
      hide QueuesRep, BoxesRep, Alloc, HasRoom, IsBlock, ClassAt;
      if HasRoom(s.heap, size) {
        AllocSpares(s, msgboxes[..], mem.ram[..], size);
      }
      p, down := mem.Alloc(size);
      if !down {
        ghost var was := s;
        s := s.(heap := mem.heap);
        SameQueues(was);
      }
    }

    /** The fields of a new kz_msgbuf. */
    method Fill(mp: int, thp: int, size: int, p: int)
      requires Valid() && mp - HEADER in mem.heap.live && !IsMessage(s, mp - HEADER)
      requires ClassAt(mem.base, mp - HEADER) == 1
      modifies mem.ram
      ensures Valid() && Holds(mem.ram[..], mp - mem.base, NULL, Msg(thp, size, p))
    {
      hide QueuesRep, BoxesRep;
      Store(mp, 0, NULL);
      Store(mp, 4, thp);
      Store(mp, 8, size);
      Store(mp, 12, p);
    }

    method SendMsg(b: int, thp: int, size: int, p: int) returns (down: bool)
      requires Valid() && 0 <= b < msgboxes.Length && thp == current
      modifies this`s, msgboxes, mem`heap, mem.pool, mem.ram
      ensures down == KozosSpec.SendMsg(old(s), b, size, p).Down?
      ensures !down ==> Valid() && Up(s) == KozosSpec.SendMsg(old(s), b, size, p)
    {
      hide QueuesRep, BoxesRep, IsBlock, ClassAt, IsMessage;
      ghost var was := s;
      var mp;
      mp, down := Allocate(MSGBUF_SIZE);
      if down {
        return;
      }
      Fill(mp, thp, size, p);
      LinkTail(b, mp, Msg(thp, size, p));
      ghost var linked := s;
      s := s.(sent := was.sent[b := was.sent[b] + [Msg(thp, size, p)]]);
      HistoryOnly(linked);
    }

    /** The end of sendmsg: connect the filled buffer at the tail of the box. */
    method LinkTail(b: int, mp: int, ghost m: Msg)
      requires Valid() && 0 <= b < msgboxes.Length
      requires mp - HEADER in s.heap.live && ClassAt(mem.base, mp - HEADER) == 1 && !IsMessage(s, mp - HEADER)
      requires Holds(mem.ram[..], mp - mem.base, NULL, m)
      modifies this`s, msgboxes, mem.ram
      ensures Valid()
      ensures var x := old(s).boxes[b];
        s == old(s).(boxes := old(s).boxes[b := x.(bufs := x.bufs + [Buf(mp - HEADER, m)])])
    {
      hide QueuesRep, BoxesRep;
      ghost var was, mb := s, msgboxes[..];
      LinkRep(s, msgboxes[..], mem.ram[..], b, Buf(mp - HEADER, m));
      assert msgboxes[b] == msgboxes[..][b];
      if msgboxes[b].tail != NULL {
        mem.Store(msgboxes[b].tail, 0, mp);
      } else {
        msgboxes[b] := msgboxes[b].(head := mp);
      }
      msgboxes[b] := msgboxes[b].(tail := mp);
      assert msgboxes[..] == mb[b := MsgBox(mb[b].receiver, if mb[b].tail != NULL then mb[b].head else mp, mp)];
      s := s.(boxes := s.boxes[b := s.boxes[b].(bufs := s.boxes[b].bufs + [Buf(mp - HEADER, m)])]);
      SameQueues(was);
    }

    /** The start of recvmsg: take the head buffer off the box; the receiver is cleared with it. */
    method UnlinkHead(b: int) returns (mp: int, t: int)
      requires Valid() && 0 <= b < msgboxes.Length && s.boxes[b].bufs != []
      modifies this`s, msgboxes, mem.ram
      ensures Valid() && mp == Payload(old(s).boxes[b].bufs[0]) && t == old(s).boxes[b].receiver
      ensures s == old(s).(boxes := old(s).boxes[b := Box(NIL, old(s).boxes[b].bufs[1..])])
      ensures !IsMessage(s, mp - HEADER) && mp - HEADER in s.heap.live && 0 <= mp - mem.base
      ensures Holds(mem.ram[..], mp - mem.base, NULL, old(s).boxes[b].bufs[0].msg)
    {
      hide QueuesRep, BoxesRep;
      ghost var was, mb, ram := s, msgboxes[..], mem.ram[..];
      UnlinkRep(s, msgboxes[..], mem.ram[..], b);
      assert msgboxes[b] == msgboxes[..][b];
      mp := msgboxes[b].head;
      assert mem.ram[mp - mem.base] == mem.ram[..][mp - mem.base];
      msgboxes[b] := msgboxes[b].(head := mem.ram[mp - mem.base]);
      if msgboxes[b].head == NULL {
        msgboxes[b] := msgboxes[b].(tail := NULL);
      }
      mem.Store(mp, 0, NULL);
      t := msgboxes[b].receiver;
      msgboxes[b] := msgboxes[b].(receiver := NIL);
      ghost var next := ram[mp - mem.base];
      assert msgboxes[..] == mb[b := MsgBox(NIL, next, if next == NULL then NULL else mb[b].tail)];
      s := s.(boxes := s.boxes[b := Box(NIL, s.boxes[b].bufs[1..])]);
      SameQueues(was);
    }

    /** kzmem_free, seen from the kernel. */
    method Release(p: int)
      requires Valid() && p - HEADER in s.heap.live && !IsMessage(s, p - HEADER)
      modifies this`s, mem`heap, mem.pool, mem.ram
      ensures Valid() && s == old(s).(heap := Free(old(s.heap), p - HEADER))
    {
      ghost var ram := mem.ram[..];
      ghost var was := s;
      FreeSpares(s, msgboxes[..], ram, p - HEADER, mem.pool[..][ClassAt(mem.base, p - HEADER)].free);
      hide QueuesRep, BoxesRep, IsBlock, ClassAt;
      var down := mem.Free(p);
      s := s.(heap := mem.heap);
      SameQueues(was);
    }

    /** A change of a thread's parameter block shows in the table of threads alone. */
    method SetParam(t: int, q: Param)
      requires Valid() && 0 <= t < threads.Length
      modifies this`s, threads
      ensures Valid() && s == KozosSpec.SetParam(old(s), t, q)
    {
      ghost var was := s;
      assert threads[t] == threads[..][t];
      threads[t] := threads[t].(param := q);
      s := KozosSpec.SetParam(s, t, q);
      SetParamRep(was, readyque[..], old(threads[..]), t, q);
      SameBoxes(was);
    }

    /** The middle of recvmsg: the values the receiving thread gets. */
    method DeliverTo(t: int, mp: int, ghost m: Msg)
      requires Valid() && 0 <= t < threads.Length && 0 <= mp - mem.base
      requires Holds(mem.ram[..], mp - mem.base, NULL, m)
      modifies this`s, threads
      ensures Valid() && s == KozosSpec.SetParam(old(s), t, Deliver(old(s).threads[t].param, m))
    {
      assert threads[t] == threads[..][t];
      var q := threads[t].param.(ret := Id(mem.ram[mp + 4 - mem.base]));
      if q.wantSize {
        q := q.(size := mem.ram[mp + 8 - mem.base]);
      }
      if q.wantP {
        q := q.(p := mem.ram[mp + 12 - mem.base]);
      }
      SetParam(t, q);
    }

    method RecvMsg(b: int)
      requires Valid() && 0 <= b < msgboxes.Length && s.boxes[b].bufs != [] && s.boxes[b].receiver != NIL
      modifies this`s, threads, msgboxes, mem`heap, mem.pool, mem.ram
      ensures Valid() && s == KozosSpec.RecvMsg(old(s), b)
    {
      hide QueuesRep, BoxesRep;
      ghost var was := s;
      var mp, t := UnlinkHead(b);
      DeliverTo(t, mp, was.boxes[b].bufs[0].msg);
      Release(mp);
      ghost var before := s;
      s := KozosSpec.RecvMsg(was, b);
      HistoryOnly(before);
    }

    // -------------------------------------------------------------- system calls

    method SetCurrent(t: int)
      requires Valid() && (t == NIL || 0 <= t < threads.Length)
      modifies this
      ensures Valid() && s == old(s).(current := t)
    {
      hide QueuesRep, BoxesRep;
      ghost var was := s;
      current := t;
      s := s.(current := t);
      SameQueues(was);
      SameBoxes(was);
    }

    /** Nothing happens but that the caller stays off its queue. */
    ghost method Park()
      requires Valid()
      modifies this`s
      ensures Valid() && s == KozosSpec.Park(old(s))
    {
      hide QueuesRep, BoxesRep;
      ghost var was := s;
      s := KozosSpec.Park(s);
      HistoryOnly(was);
    }

    method ThreadRun(func: int, prio: int) returns (ret: Val)
      requires Valid() && Called(s) && 0 <= prio < readyque.Length
      modifies this, readyque, threads
      ensures Valid() && (s, ret) == KozosSpec.ThreadRun(old(s), func, prio)
    {
      SlotsIdle(s);
      hide QueuesRep, BoxesRep, Called, KozosSpec.PutCurrent;
      var i := 0;
      while i < threads.Length
        invariant 0 <= i <= FreeSlot(s.threads) && Valid() && s == old(s)
      {
        TcbIs(s, readyque[..], threads[..], i);
        assert threads[i] == threads[..][i];
        if threads[i].func == 0 {
          break;
        }
        i := i + 1;
      }
      if i == threads.Length {
        Park();
        return Code(-1);
      }
      InitTcb(i, func, prio);
      var r := PutCurrent();
      SetCurrent(i);
      r := PutCurrent();
      return Id(current);
    }

    /** The part of thread_run that clears and fills the free control block. */
    method InitTcb(i: int, func: int, prio: int)
      requires Valid() && 0 <= i < threads.Length && !Ready(s, i) && 0 <= prio < readyque.Length
      modifies this`s, threads
      ensures Valid() && s == old(s).(threads := old(s).threads[i := Thread(func != 0, prio, NO_PARAM)])
    {
      ghost var was, th := s, threads[..];
      threads[i] := Tcb(NIL, 0, false, 0, NO_PARAM);
      threads[i] := threads[i].(next := NIL, prio := prio, ready := false);
      threads[i] := threads[i].(func := func);
      s := s.(threads := s.threads[i := Thread(func != 0, prio, NO_PARAM)]);
      TcbRep(was, readyque[..], th, i, threads[i]);
      SameBoxes(was);
    }

    method ThreadExit()
      requires Valid() && current != NIL && !Ready(s, current)
      modifies this`s, threads
      ensures Valid() && s == KozosSpec.ThreadExit(old(s))
    {
      ghost var was, th := s, threads[..];
      threads[current] := Tcb(NIL, 0, false, 0, NO_PARAM);
      s := KozosSpec.ThreadExit(s);
      TcbRep(was, readyque[..], th, current, threads[current]);
      SameBoxes(was);
    }

    method ThreadWakeup(id: int)
      requires Valid() && 0 <= id < threads.Length
      modifies this, readyque, threads
      ensures Valid() && s == KozosSpec.ThreadWakeup(old(s), id)
    {
      hide QueuesRep, BoxesRep, KozosSpec.PutCurrent;
      var r := PutCurrent();
      SetCurrent(id);
      ghost var was := s;
      s := s.(parked := s.parked - {id});
      HistoryOnly(was);
      r := PutCurrent();
    }

    method ThreadChPri(prio: int) returns (was: int)
      requires Valid() && current != NIL && !Ready(s, current) && prio < readyque.Length
      modifies this`s, readyque, threads
      ensures Valid() && s == KozosSpec.ThreadChPri(old(s), prio) && was == old(s).threads[current].prio
    {
      assert threads[current] == threads[..][current];
      was := threads[current].prio;
      if prio >= 0 {
        ghost var before, th := s, threads[..];
        threads[current] := threads[current].(prio := prio);
        s := s.(threads := s.threads[current := s.threads[current].(prio := prio)]);
        TcbRep(before, readyque[..], th, current, threads[current]);
        SameBoxes(before);
      }
      var r := PutCurrent();
    }

    method ThreadKMalloc(size: int) returns (ret: Val, down: bool)
      requires Valid()
      modifies this`s, readyque, threads, mem`heap, mem.pool, mem.ram
      ensures down == KozosSpec.ThreadKMalloc(old(s), size).Down?
      ensures !down ==> Valid() && Up((s, ret)) == KozosSpec.ThreadKMalloc(old(s), size)
      ensures !down && IsInt(size) ==> ret.Ptr? && 0 <= size <= Size(ClassAt(mem.base, ret.p - HEADER)) - HEADER
    {
      hide QueuesRep, BoxesRep, KozosSpec.PutCurrent;
      var r := PutCurrent();
      if IsInt(size) && HasRoom(s.heap, size) {
        BlockHasRoom(s, msgboxes[..], mem.ram[..], size);
      }
      var p;
      p, down := Allocate(size);
      ret := Ptr(p);
    }

    method ThreadKMFree(p: int)
      requires Valid() && p - HEADER in UserBlocks(s)
      modifies this`s, readyque, threads, mem`heap, mem.pool, mem.ram
      ensures Valid() && s == KozosSpec.ThreadKMFree(old(s), p)
    {
      hide QueuesRep, BoxesRep, KozosSpec.PutCurrent;
      Release(p);
      var r := PutCurrent();
    }

    method ThreadSend(b: int, size: int, p: int) returns (down: bool)
      requires Valid() && 0 <= b < msgboxes.Length
      modifies this, readyque, threads, msgboxes, mem`heap, mem.pool, mem.ram
      ensures down == KozosSpec.ThreadSend(old(s), b, size, p).Down?
      ensures !down ==> Valid() && Up(s) == KozosSpec.ThreadSend(old(s), b, size, p)
    {
      hide QueuesRep, KozosSpec.PutCurrent, KozosSpec.RecvMsg;
      var r := PutCurrent();
      down := SendMsg(b, current, size, p);
      if down {
        return;
      }
      assert msgboxes[b] == msgboxes[..][b];
      if msgboxes[b].receiver != NIL {
        SetCurrent(msgboxes[b].receiver);
        RecvMsg(b);
        r := PutCurrent();
      }
    }

    method ThreadRecv(b: int) returns (ret: Val, down: bool)
      requires Valid() && 0 <= b < msgboxes.Length && current != NIL
      modifies this`s, readyque, threads, msgboxes, mem`heap, mem.pool, mem.ram
      ensures down == KozosSpec.ThreadRecv(old(s), b).Down?
      ensures !down ==> Valid() && Up((s, ret)) == KozosSpec.ThreadRecv(old(s), b)
    {
      assert msgboxes[b] == msgboxes[..][b];
      if msgboxes[b].receiver != NIL {
        return Unset, true;
      }
      SetReceiver(b);
      assert msgboxes[b] == msgboxes[..][b];
      if msgboxes[b].head == NULL {
        return Code(-1), false;
      }
      RecvMsg(b);
      var r := PutCurrent();
      assert threads[current] == threads[..][current];
      return threads[current].param.ret, false;
    }

    method SetReceiver(b: int)
      requires Valid() && 0 <= b < msgboxes.Length && current != NIL
      modifies this`s, msgboxes
      ensures Valid() && s == old(s).(boxes := old(s).boxes[b := old(s).boxes[b].(receiver := current)])
    {
      ghost var was, mb := s, msgboxes[..];
      msgboxes[b] := msgboxes[b].(receiver := current);
      s := s.(boxes := s.boxes[b := s.boxes[b].(receiver := current)]);
      SameQueues(was);
      ReceiverRep(was, mb, mem.ram[..], b, current);
    }

    method ThreadSetIntr(vector: int, handler: int)
      requires Valid() && 0 <= vector < VECTORS
      modifies this`s, readyque, threads, handlers
      ensures Valid() && s == KozosSpec.PutCurrent(SetHandler(old(s), vector, handler))
    {
      hide QueuesRep, BoxesRep, KozosSpec.PutCurrent;
      ghost var was := s;
      handlers[vector] := handler;
      s := SetHandler(s, vector, handler);
      SameQueues(was);
      SameBoxes(was);
      var r := PutCurrent();
    }

    // -------------------------------------------------------------- traps

    method CallFunctions(c: Call) returns (ret: Val, down: bool)
      requires Valid() && Called(s) && Safe(s, c) && (current == NIL ==> IsService(c))
      modifies this, readyque, threads, handlers, msgboxes, mem`heap, mem.pool, mem.ram
      ensures down == KozosSpec.CallFunctions(old(s), c).Down?
      ensures !down ==> Valid() && Up((s, ret)) == KozosSpec.CallFunctions(old(s), c)
    {
      hide QueuesRep, BoxesRep, KozosSpec.PutCurrent, KozosSpec.ThreadRun, KozosSpec.ThreadWakeup;
      hide KozosSpec.ThreadChPri, KozosSpec.ThreadKMalloc, KozosSpec.ThreadSend, KozosSpec.ThreadRecv;
      hide KozosSpec.ThreadKMFree, KozosSpec.ThreadExit;
      ret, down := Unset, false;
      var r;
      match c
      case Run(func, prio) => ret := ThreadRun(func, prio);
      case Exit => ThreadExit();
      case Wait => r := PutCurrent(); ret := Code(0);
      case Sleep => Park(); ret := Code(0);
      case Wakeup(id) => ThreadWakeup(id); ret := Code(0);
      case GetId => r := PutCurrent(); ret := Id(current);
      case ChPri(prio) => r := ThreadChPri(prio); ret := Code(r);
      case KMalloc(size) => ret, down := ThreadKMalloc(size);
      case KMFree(p) => ThreadKMFree(p); ret := Code(0);
      case Send(b, size, p) => down := ThreadSend(b, size, p); ret := Code(size);
      case Recv(b, _, _) => ret, down := ThreadRecv(b);
      case SetIntr(v, h) => ThreadSetIntr(v, h); ret := Code(0);
      case Unknown => Park();
    }

    /** kz_syscall up to the ecall, then syscall_proc. */
    method Syscall(c: Call) returns (down: bool)
      requires Valid() && Inv(s) && Safe(s, c)
      modifies this, readyque, threads, handlers, msgboxes, mem`heap, mem.pool, mem.ram
      ensures down == KozosSpec.Syscall(old(s), c).Down?
      ensures !down ==> Valid() && Up(s) == KozosSpec.Syscall(old(s), c)
    {
      hide QueuesRep, BoxesRep, KozosSpec.CallFunctions, KozosSpec.GetCurrent;
      ghost var was := s;
      EnteredIsCalled(was, c);
      EnteredIsSafe(was, c);
      var caller := current;
      SetParam(caller, ParamOf(c));
      var r := GetCurrent();
      assert s == Entered(was, c);
      var ret;
      ret, down := CallFunctions(c);
      if !down && Returns(c) {
        StoreResult(caller, ret);
      }
    }

    /** The assignment to the ret field of the caller's block. */
    method StoreResult(t: int, v: Val)
      requires Valid() && 0 <= t < threads.Length
      modifies this`s, threads
      ensures Valid() && s == KozosSpec.SetParam(old(s), t, old(s).threads[t].param.(ret := v))
    {
      assert threads[t] == threads[..][t];
      SetParam(t, threads[t].param.(ret := v));
    }

    /** srvcall_proc. */
    method Service(c: Call) returns (ret: Val, down: bool)
      requires Valid() && Mid(s, {}, NIL) && Safe(s, c) && IsService(c)
      modifies this, readyque, threads, handlers, msgboxes, mem`heap, mem.pool, mem.ram
      ensures down == KozosSpec.Service(old(s), c).Down?
      ensures !down ==> Valid() && Up(s) == KozosSpec.Service(old(s), c)
      ensures !down ==> Up((s, ret)) == Answer(old(s), c)
    {
      hide QueuesRep, BoxesRep, KozosSpec.CallFunctions;
      ghost var was := s;
      CurrentIsFree(s, {}, NIL, NIL);
      SetCurrent(NIL);
      assert forall a :: IsMessage(s, a) == IsMessage(was, a);
      ret, down := CallFunctions(c);
    }

    /** handle_sync_trap: an ecall is a system call, anything else ends the running thread; then
        schedule, and dispatch runs `current`. */
    method HandleSyncTrap(mcause: int, c: Call) returns (down: bool)
      requires Valid() && Inv(s) && (mcause == CAUSE_MACHINE_ECALL ==> Safe(s, c))
      modifies this, readyque, threads, handlers, msgboxes, mem`heap, mem.pool, mem.ram
      ensures down == Step(old(s), if mcause == 11 then Ecall(c) else Trap).Down?
      ensures !down ==> Valid() && Up(s) == Step(old(s), if mcause == 11 then Ecall(c) else Trap)
    {
      hide QueuesRep, BoxesRep, KozosSpec.Syscall, KozosSpec.Fault;
      ghost var was := s;
      if mcause == CAUSE_MACHINE_ECALL {
        down := Syscall(c);
        if down {
          return;
        }
      } else {
        SoftErr();
      }
      down := Schedule();
    }

    method SoftErr()
      requires Valid() && Inv(s)
      modifies this`s, readyque, threads
      ensures Valid() && s == Fault(old(s))
    {
      GetKeeps(s);
      var r := GetCurrent();
      ThreadExit();
    }

    /** handle_m_external_interrupt: the registered handler makes its service calls, then schedule. */
    method HandleExternalInterrupt(cs: seq<Call>) returns (down: bool)
      requires Valid() && Inv(s) && Legal(s, Interrupt(cs)) && EventOk(s, Interrupt(cs))
      modifies this, readyque, threads, handlers, msgboxes, mem`heap, mem.pool, mem.ram
      ensures down == Step(old(s), Interrupt(cs)).Down?
      ensures !down ==> Valid() && Up(s) == Step(old(s), Interrupt(cs))
    {
      hide QueuesRep, BoxesRep, KozosSpec.Service, KozosSpec.Schedule, Step;
      ghost var was := s;
      StepInterrupt(was, cs);
      var i := 0;
      while i < |cs|
        invariant 0 <= i <= |cs| && Valid() && Mid(s, {}, NIL) && HandlerOk(s, cs[i..]) && ServicesOk(s, cs[i..])
        invariant Services(was, cs) == Services(s, cs[i..])
      {
        ghost var now := s;
        assert cs[i..][0] == cs[i] && cs[i..][1..] == cs[i + 1..];
        var ret;
        ret, down := Service(cs[i]);
        if down {
          return;
        }
        ServiceKeeps(now, cs[i]);
        i := i + 1;
      }
      down := Schedule();
    }

    // -------------------------------------------------------------- start

    /** The memsets of kz_start. */
    method ClearTables()
      modifies readyque, threads, msgboxes
      ensures forall i :: 0 <= i < readyque.Length ==> readyque[i] == Queue(NIL, NIL)
      ensures forall i :: 0 <= i < threads.Length ==> threads[i] == Tcb(NIL, 0, false, 0, NO_PARAM)
      ensures forall i :: 0 <= i < msgboxes.Length ==> msgboxes[i] == MsgBox(NIL, NULL, NULL)
    {
      forall i | 0 <= i < readyque.Length { readyque[i] := Queue(NIL, NIL); }
      forall i | 0 <= i < threads.Length { threads[i] := Tcb(NIL, 0, false, 0, NO_PARAM); }
      forall i | 0 <= i < msgboxes.Length { msgboxes[i] := MsgBox(NIL, NULL, NULL); }
    }

    /** kz_start on the tables as the constructor leaves them, up to the first dispatch. */
    method KzStart(func: int, prio: int)
      requires 0 < threads.Length && 0 <= prio < readyque.Length && func != 0
      requires handlers.Length == VECTORS && (forall i :: 0 <= i < VECTORS ==> handlers[i] == 0) && handlers != mem.ram
      requires 0 < mem.base == mem.area && mem.pool.Length == CLASSES && mem.ram.Length == AREA
      requires forall i: nat :: i < CLASSES ==> mem.pool[i] == Pool(Size(i), Num(i), NULL)
      modifies this, readyque, threads, msgboxes, mem, mem.pool, mem.ram
      ensures Valid()
      ensures s == Boot(Config(threads.Length, readyque.Length, msgboxes.Length, mem.base, func, prio)) && Inv(s)
    {
      hide QueuesRep, BoxesRep, Called, Inv;
      mem.Init();
      current := NIL;
      ClearTables();
      s := Empty(threads.Length, readyque.Length, msgboxes.Length, mem.base);
      EmptyCalled(threads.Length, readyque.Length, msgboxes.Length, mem.base);
      EmptyRep(s, readyque[..], threads[..], msgboxes[..], mem.ram[..]);
      var id := ThreadRun(func, prio);
    }
  }

  /** A free slot is in no queue. */
  lemma SlotsIdle(s: State)
    requires Called(s)
    ensures forall t :: InRange(s, t) && !s.threads[t].live ==> !Ready(s, t)
  {
    Members(s);
  }

  lemma EmptyRep(s: State, queues: seq<Queue>, threads: seq<Tcb>, boxes: seq<MsgBox>, ram: seq<int>)
    requires 0 < |queues| && 0 < s.heap.base && |ram| == AREA
    requires s == Empty(|threads|, |queues|, |boxes|, s.heap.base)
    requires forall i :: 0 <= i < |queues| ==> queues[i] == Queue(NIL, NIL)
    requires forall i :: 0 <= i < |threads| ==> threads[i] == Tcb(NIL, 0, false, 0, NO_PARAM)
    requires forall i :: 0 <= i < |boxes| ==> boxes[i] == MsgBox(NIL, NULL, NULL)
    ensures QueuesRep(s, queues, threads) && BoxesRep(s, boxes, ram)
  {
    InitialValid(s.heap.base);
  }

  lemma EmptyCalled(threads: nat, priorities: nat, boxes: nat, freearea: int)
    requires 0 < priorities
    ensures Called(Empty(threads, priorities, boxes, freearea))
  {
    InitialValid(freearea);
  }

  lemma StepInterrupt(s: State, cs: seq<Call>)
    requires Inv(s) && EventOk(s, Interrupt(cs))
    ensures Step(s, Interrupt(cs)) ==
      if Services(s, cs).Down? then Down else KozosSpec.Schedule(Services(s, cs).value)
  {
  }

  lemma EnteredIsSafe(s: State, c: Call)
    requires Inv(s) && Safe(s, c)
    ensures Safe(Entered(s, c), c)
  {
  }
}
