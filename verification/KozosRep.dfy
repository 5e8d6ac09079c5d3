/** How the kernel's tables and the words of its memory represent the FIFO state: intrusive links
    between thread control blocks, and message buffers linked inside allocator blocks. */
module KozosRep {
  import opened Pools
  import opened KozosSpec
  import opened KozosInv

  /** A thread control block; a slot is free while func is NULL, and next is an index or NIL. */
  datatype Tcb = Tcb(next: int, prio: int, ready: bool, func: int, param: Param)
  datatype Queue = Queue(head: int, tail: int)
  datatype MsgBox = MsgBox(receiver: int, head: int, tail: int)

  // ---------------------------------------------------------------- ready queues

  function First(q: seq<int>): int { if q == [] then NIL else q[0] }
  function Last(q: seq<int>): int { if q == [] then NIL else q[|q| - 1] }
  function Link(q: seq<int>, k: int): int requires 0 <= k < |q| { if k + 1 < |q| then q[k + 1] else NIL }

  /** Heads, tails and next links spell out the queues; flags say who is queued; a thread that is
      not queued has no next. */
  ghost predicate QueuesRep(s: State, rq: seq<Queue>, th: seq<Tcb>) {
    && Shape(s) && Queueable(s) && |rq| == |s.queues| && |th| == |s.threads|
    && (forall p {:trigger rq[p]} :: 0 <= p < |rq| ==> rq[p] == Queue(First(s.queues[p]), Last(s.queues[p])))
    && (forall p, k {:trigger Link(s.queues[p], k)} :: 0 <= p < |s.queues| && 0 <= k < |s.queues[p]| ==>
          th[s.queues[p][k]].next == Link(s.queues[p], k))
    && (forall t {:trigger th[t]} :: 0 <= t < |th| ==>
          && s.threads[t] == Thread(th[t].func != 0, th[t].prio, th[t].param)
          && th[t].ready == Ready(s, t)
          && (!th[t].ready ==> th[t].next == NIL))
  }

  lemma TcbIs(s: State, rq: seq<Queue>, th: seq<Tcb>, t: int)
    requires QueuesRep(s, rq, th) && InRange(s, t)
    ensures t < |th| && s.threads[t] == Thread(th[t].func != 0, th[t].prio, th[t].param) && th[t].ready == Ready(s, t)
    ensures 0 <= th[t].prio < |rq|
  {
  }

  /** What putcurrent does to the two tables. */
  function Appended(rq: seq<Queue>, th: seq<Tcb>, t: int): (r: (seq<Queue>, seq<Tcb>))
    requires 0 <= t < |th| && 0 <= th[t].prio < |rq|
    requires rq[th[t].prio].tail == NIL || 0 <= rq[th[t].prio].tail < |th|
  {
    var p := th[t].prio;
    var q := rq[p];
    var th1 := if q.tail != NIL then th[q.tail := th[q.tail].(next := t)] else th;
    (rq[p := Queue(if q.tail != NIL then q.head else t, t)], th1[t := th1[t].(ready := true)])
  }

  lemma TailInRange(s: State, rq: seq<Queue>, th: seq<Tcb>, p: int)
    requires QueuesRep(s, rq, th) && 0 <= p < |rq|
    ensures rq[p].tail == NIL || (InRange(s, rq[p].tail) && th[rq[p].tail].prio == p && th[rq[p].tail].ready)
  {
  }

  lemma AppendRep(s: State, rq: seq<Queue>, th: seq<Tcb>, t: int)
    requires QueuesRep(s, rq, th) && InRange(s, t) && !Ready(s, t)
    ensures 0 <= th[t].prio < |rq| && (rq[th[t].prio].tail == NIL || 0 <= rq[th[t].prio].tail < |th|)
    ensures var r := Appended(rq, th, t); QueuesRep(Enqueue(s, t), r.0, r.1)
  {
    var p := th[t].prio;
    TailInRange(s, rq, th, p);
    var r := Enqueue(s, t);
    var (rq', th') := Appended(rq, th, t);
    var q := s.queues[p];
    forall u | InRange(s, u) ensures Ready(r, u) == (Ready(s, u) || u == t) {
      assert r.queues[p][|q|] == t;
      assert forall k :: 0 <= k < |q| ==> r.queues[p][k] == q[k];
    }
    forall i, k {:trigger Link(r.queues[i], k)} | 0 <= i < |r.queues| && 0 <= k < |r.queues[i]|
      ensures th'[r.queues[i][k]].next == Link(r.queues[i], k) {
      if i == p && k == |q| {
      } else {
        assert s.queues[i][k] == r.queues[i][k];
        assert th[s.queues[i][k]].next == Link(s.queues[i], k);
        assert s.threads[s.queues[i][k]].prio == i;
        assert s.queues[i][k] != t;
      }
    }
  }

  /** What getcurrent does to the two tables, t being the current thread. */
  function Popped(rq: seq<Queue>, th: seq<Tcb>, t: int): (seq<Queue>, seq<Tcb>)
    requires 0 <= t < |th| && 0 <= th[t].prio < |rq|
  {
    var p := th[t].prio;
    var h := th[t].next;
    (rq[p := Queue(h, if h == NIL then NIL else rq[p].tail)], th[t := th[t].(ready := false, next := NIL)])
  }

  lemma PopRep(s: State, rq: seq<Queue>, th: seq<Tcb>)
    requires QueuesRep(s, rq, th) && s.current != NIL && Ready(s, s.current)
    requires s.queues[s.threads[s.current].prio][0] == s.current
    ensures var r := Popped(rq, th, s.current); QueuesRep(GetCurrent(s), r.0, r.1)
  {
    var t := s.current;
    var p := s.threads[t].prio;
    var q := s.queues[p];
    var r := GetCurrent(s);
    var (rq', th') := Popped(rq, th, t);
    assert th[t].next == Link(q, 0);
    forall u | InRange(s, u) ensures Ready(r, u) == (Ready(s, u) && u != t) {
      assert q == [t] + r.queues[p];
    }
    forall i, k {:trigger Link(r.queues[i], k)} | 0 <= i < |r.queues| && 0 <= k < |r.queues[i]|
      ensures th'[r.queues[i][k]].next == Link(r.queues[i], k) {
      var k0 := if i == p then k + 1 else k;
      assert s.queues[i][k0] == r.queues[i][k];
      assert th[s.queues[i][k0]].next == Link(s.queues[i], k0);
      assert s.queues[i][k0] != t;
    }
  }

  lemma SetParamRep(s: State, rq: seq<Queue>, th: seq<Tcb>, t: int, q: Param)
    requires QueuesRep(s, rq, th) && InRange(s, t)
    ensures QueuesRep(SetParam(s, t, q), rq, th[t := th[t].(param := q)])
  {
  }

  /** A control block that is not queued may be rewritten. */
  lemma TcbRep(s: State, rq: seq<Queue>, th: seq<Tcb>, t: int, x: Tcb)
    requires QueuesRep(s, rq, th) && InRange(s, t) && !Ready(s, t)
    requires x.next == NIL && !x.ready && 0 <= x.prio < |rq|
    ensures QueuesRep(s.(threads := s.threads[t := Thread(x.func != 0, x.prio, x.param)]), rq, th[t := x])
  {
  }

  // ---------------------------------------------------------------- message boxes

  /** The pointer the C code keeps for a buffer: the payload of its block. */
  function Payload(x: Buf): int { x.block + HEADER }
  function FirstBuf(q: seq<Buf>): int { if q == [] then NULL else Payload(q[0]) }
  function LastBuf(q: seq<Buf>): int { if q == [] then NULL else Payload(q[|q| - 1]) }
  function NextBuf(q: seq<Buf>, k: int): int requires 0 <= k < |q| { if k + 1 < |q| then Payload(q[k + 1]) else NULL }

  /** The four words of a kz_msgbuf at a payload: next, sender, size, p. */
  predicate Holds(ram: seq<int>, o: int, next: int, m: Msg) {
    && 0 <= o && o + 12 < |ram|
    && ram[o] == next && ram[o + 4] == m.sender && ram[o + 8] == m.size && ram[o + 12] == m.p
  }

  ghost predicate BoxesRep(s: State, mb: seq<MsgBox>, ram: seq<int>) {
    && Shape(s) && BuffersOk(s) && |mb| == |s.boxes| && |ram| == AREA && 0 < s.heap.base
    && (forall b {:trigger mb[b]} :: 0 <= b < |mb| ==>
          mb[b] == MsgBox(s.boxes[b].receiver, FirstBuf(s.boxes[b].bufs), LastBuf(s.boxes[b].bufs)))
    && (forall b, k {:trigger NextBuf(s.boxes[b].bufs, k)} :: 0 <= b < |s.boxes| && 0 <= k < |s.boxes[b].bufs| ==>
          Holds(ram, Payload(s.boxes[b].bufs[k]) - s.heap.base, NextBuf(s.boxes[b].bufs, k), s.boxes[b].bufs[k].msg))
  }

  /** A change of words that spares every queued buffer keeps the boxes. */
  lemma BoxesSpared(s: State, r: State, mb: seq<MsgBox>, ram: seq<int>, ram': seq<int>)
    requires BoxesRep(s, mb, ram) && Shape(r) && BuffersOk(r) && r.boxes == s.boxes && r.heap.base == s.heap.base
    requires |ram'| == AREA
    requires forall b, k, i {:trigger s.boxes[b].bufs[k], ram'[i]} ::
      0 <= b < |s.boxes| && 0 <= k < |s.boxes[b].bufs| && 0 <= i < AREA ==>
      Payload(s.boxes[b].bufs[k]) <= s.heap.base + i < s.boxes[b].bufs[k].block + Size(1) ==> ram'[i] == ram[i]
    ensures BoxesRep(r, mb, ram')
  {
  }

  /** A store in a block that carries no queued message spares every queued buffer. */
  lemma StoreSpares(s: State, r: State, mb: seq<MsgBox>, ram: seq<int>, a: int, o: int, v: int)
    requires BoxesRep(s, mb, ram) && Shape(r) && BuffersOk(r) && r.boxes == s.boxes && r.heap.base == s.heap.base
    requires IsBlock(s.heap.base, a) && !IsMessage(s, a) && 0 <= o < Size(ClassAt(s.heap.base, a))
    ensures 0 <= a + o - s.heap.base < AREA && BoxesRep(r, mb, ram[a + o - s.heap.base := v])
  {
    BlockInside(s.heap.base, a);
    forall b, k {:trigger s.boxes[b].bufs[k]} | 0 <= b < |s.boxes| && 0 <= k < |s.boxes[b].bufs|
      ensures !(s.boxes[b].bufs[k].block <= a + o < s.boxes[b].bufs[k].block + Size(1)) {
      BlocksApart(s.heap.base, s.boxes[b].bufs[k].block, a);
    }
    BoxesSpared(s, r, mb, ram, ram[a + o - s.heap.base := v]);
  }

  /** kzmem_alloc hands out a block that carries no queued message. */
  lemma AllocSpares(s: State, mb: seq<MsgBox>, ram: seq<int>, size: int)
    requires BoxesRep(s, mb, ram) && HasRoom(s.heap, size)
    ensures var (h, a) := Alloc(s.heap, size);
      && a in h.live && !IsMessage(s, a) && ClassAt(s.heap.base, a) == ClassFor(size) && h.base == s.heap.base
      && 0 <= a - s.heap.base < AREA && BoxesRep(s.(heap := h), mb, ram[a - s.heap.base := NULL])
  {
    AllocValid(s.heap, size);
    var (h, a) := Alloc(s.heap, size);
    var r := s.(heap := h);
    assert BuffersOk(r);
    hide BoxesRep, BuffersOk;
    StoreSpares(s, r, mb, ram, a, 0, NULL);
  }

  lemma BlockHasRoom(s: State, mb: seq<MsgBox>, ram: seq<int>, size: int)
    requires BoxesRep(s, mb, ram) && HasRoom(s.heap, size) && IsInt(size)
    ensures 0 <= size <= Size(ClassAt(s.heap.base, Alloc(s.heap, size).1)) - HEADER
  {
    AllocRoom(s.heap, size);
  }

  /** kzmem_free of a block that carries no queued message. */
  lemma FreeSpares(s: State, mb: seq<MsgBox>, ram: seq<int>, a: int, v: int)
    requires BoxesRep(s, mb, ram) && a in s.heap.live && !IsMessage(s, a)
    ensures IsBlock(s.heap.base, a) && 0 <= a - s.heap.base < AREA
    ensures BoxesRep(s.(heap := Free(s.heap, a)), mb, ram[a - s.heap.base := v])
  {
    FreeValid(s.heap, a);
    var r := s.(heap := Free(s.heap, a));
    assert BuffersOk(r);
    hide BoxesRep, BuffersOk;
    StoreSpares(s, r, mb, ram, a, 0, v);
  }

  lemma BuffersAreBlocks(s: State)
    requires BuffersOk(s)
    ensures forall a :: a in s.heap.live ==> IsBlock(s.heap.base, a)
  {
  }

  /** The words of the message boxes after sendmsg linked a filled buffer at the tail of box b. */
  lemma LinkRep(s: State, mb: seq<MsgBox>, ram: seq<int>, b: int, x: Buf)
    requires BoxesRep(s, mb, ram) && 0 <= b < |s.boxes|
    requires x.block in s.heap.live && ClassAt(s.heap.base, x.block) == 1 && !IsMessage(s, x.block)
    requires Holds(ram, Payload(x) - s.heap.base, NULL, x.msg)
    ensures var t := mb[b].tail;
      var r := s.(boxes := s.boxes[b := s.boxes[b].(bufs := s.boxes[b].bufs + [x])]);
      && (t != NULL ==> 0 <= t - s.heap.base < AREA)
      && (t != NULL ==> t - HEADER in s.heap.live && ClassAt(s.heap.base, t - HEADER) == 1)
      && BoxesRep(r, mb[b := MsgBox(mb[b].receiver, if t != NULL then mb[b].head else Payload(x), Payload(x))],
                  if t != NULL then ram[t - s.heap.base := Payload(x)] else ram)
  {
    hide Valid, IsMessage, IsBlock, ClassAt, Holds;
    var t, q := mb[b].tail, s.boxes[b].bufs;
    var r := s.(boxes := s.boxes[b := s.boxes[b].(bufs := q + [x])]);
    LinkBuffers(s, r, b, x);
    NewBufferHolds(s, mb, ram, b, x);
    hide BuffersOk;
    var ram' := if t != NULL then ram[t - s.heap.base := Payload(x)] else ram;
    forall c, k {:trigger NextBuf(r.boxes[c].bufs, k)} | 0 <= c < |r.boxes| && 0 <= k < |r.boxes[c].bufs|
      ensures Holds(ram', Payload(r.boxes[c].bufs[k]) - s.heap.base, NextBuf(r.boxes[c].bufs, k),
          r.boxes[c].bufs[k].msg) {
      if c != b || k < |q| { OlderBufferHolds(s, mb, ram, b, c, k, x); }
    }
  }

  /** The store of the link misses the new buffer itself. */
  lemma NewBufferHolds(s: State, mb: seq<MsgBox>, ram: seq<int>, b: int, x: Buf)
    requires BoxesRep(s, mb, ram) && 0 <= b < |s.boxes|
    requires x.block in s.heap.live && !IsMessage(s, x.block) && ClassAt(s.heap.base, x.block) == 1
    requires Holds(ram, Payload(x) - s.heap.base, NULL, x.msg)
    ensures Payload(x) != NULL
    ensures var t := LastBuf(s.boxes[b].bufs);
      && (t != NULL ==> 0 <= t - s.heap.base < AREA)
      && (t != NULL ==> t - HEADER in s.heap.live && ClassAt(s.heap.base, t - HEADER) == 1)
      && (s.boxes[b].bufs != [] ==> t != NULL)
      && Holds(if t != NULL then ram[t - s.heap.base := Payload(x)] else ram, Payload(x) - s.heap.base, NULL, x.msg)
  {
  }

  /** A buffer queued before x still holds its words; the last one now points to x. */
  lemma OlderBufferHolds(s: State, mb: seq<MsgBox>, ram: seq<int>, b: int, c: int, k: int, x: Buf)
    requires BoxesRep(s, mb, ram) && 0 <= b < |s.boxes| && 0 <= c < |s.boxes| && 0 <= k < |s.boxes[c].bufs|
    ensures var q := s.boxes[b].bufs;
      var t := LastBuf(q);
      && (t != NULL ==> 0 <= t - s.heap.base < AREA)
      && Holds(if t != NULL then ram[t - s.heap.base := Payload(x)] else ram, Payload(s.boxes[c].bufs[k]) - s.heap.base,
               if c == b && k == |q| - 1 then Payload(x) else NextBuf(s.boxes[c].bufs, k), s.boxes[c].bufs[k].msg)
  {
    hide Valid;
    BuffersAreBlocks(s);
    var q, y := s.boxes[b].bufs, s.boxes[c].bufs[k];
    assert Holds(ram, Payload(y) - s.heap.base, NextBuf(s.boxes[c].bufs, k), y.msg);
    if q != [] {
      var last := s.boxes[b].bufs[|q| - 1].block;
      assert last in s.heap.live && y.block in s.heap.live;
      BlockInside(s.heap.base, last);
      if y.block != last { BlocksApart(s.heap.base, y.block, last); }
    }
  }

  lemma LinkBuffers(s: State, r: State, b: int, x: Buf)
    requires BuffersOk(s) && 0 <= b < |s.boxes| && x.block in s.heap.live && ClassAt(s.heap.base, x.block) == 1 &&
        !IsMessage(s, x.block)
    requires r == s.(boxes := s.boxes[b := s.boxes[b].(bufs := s.boxes[b].bufs + [x])])
    ensures BuffersOk(r)
  {
  }

  /** The words after recvmsg unlinked the head buffer of box b, its block not yet freed. */
  lemma UnlinkRep(s: State, mb: seq<MsgBox>, ram: seq<int>, b: int)
    requires BoxesRep(s, mb, ram) && 0 <= b < |s.boxes| && s.boxes[b].bufs != []
    ensures var x := s.boxes[b].bufs[0];
      var o := Payload(x) - s.heap.base;
      var r := s.(boxes := s.boxes[b := Box(NIL, s.boxes[b].bufs[1..])]);
      && mb[b].head == Payload(x) && mb[b].receiver == s.boxes[b].receiver
      && x.block in s.heap.live && ClassAt(s.heap.base, x.block) == 1
      && Holds(ram, o, NextBuf(s.boxes[b].bufs, 0), x.msg) && o < AREA
      && !IsMessage(r, x.block)
      && BoxesRep(r, mb[b := MsgBox(NIL, ram[o], if ram[o] == NULL then NULL else mb[b].tail)], ram[o := NULL])
  {
    hide Valid;
    BuffersAreBlocks(s);
    var q := s.boxes[b].bufs;
    var x := q[0];
    var o := Payload(x) - s.heap.base;
    var r := s.(boxes := s.boxes[b := Box(NIL, q[1..])]);
    assert Holds(ram, o, NextBuf(q, 0), x.msg);
    BlockInside(s.heap.base, x.block);
    UnlinkBuffers(s, r, b);
    forall c, k {:trigger NextBuf(r.boxes[c].bufs, k)} | 0 <= c < |r.boxes| && 0 <= k < |r.boxes[c].bufs|
      ensures Holds(ram[o := NULL], Payload(r.boxes[c].bufs[k]) - s.heap.base, NextBuf(r.boxes[c].bufs, k),
          r.boxes[c].bufs[k].msg) {
      var k0 := if c == b then k + 1 else k;
      var y := s.boxes[c].bufs[k0];
      assert r.boxes[c].bufs[k] == y;
      assert Holds(ram, Payload(y) - s.heap.base, NextBuf(s.boxes[c].bufs, k0), y.msg);
      assert y.block != s.boxes[b].bufs[0].block;
      BlocksApart(s.heap.base, y.block, x.block);
    }
    if |q| > 1 { assert Payload(q[1]) != NULL by { assert s.boxes[b].bufs[1].block in s.heap.live; } }
  }

  lemma UnlinkBuffers(s: State, r: State, b: int)
    requires BuffersOk(s) && 0 <= b < |s.boxes| && s.boxes[b].bufs != []
    requires r == s.(boxes := s.boxes[b := Box(NIL, s.boxes[b].bufs[1..])])
    ensures BuffersOk(r) && !IsMessage(r, s.boxes[b].bufs[0].block)
  {
  }

  lemma ReceiverRep(s: State, mb: seq<MsgBox>, ram: seq<int>, b: int, t: int)
    requires BoxesRep(s, mb, ram) && 0 <= b < |s.boxes| && (t == NIL || InRange(s, t))
    ensures BoxesRep(s.(boxes := s.boxes[b := s.boxes[b].(receiver := t)]), mb[b := mb[b].(receiver := t)], ram)
  {
  }
}
