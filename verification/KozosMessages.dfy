/** How messages and blocks travel through the kernel, over every run. */
module KozosMessages {
  import opened Pools
  import opened KozosSpec
  import opened KozosInv
  import opened KozosRuns

  // ---------------------------------------------------------------- what is sent

  /** The messages an event sends to box b, read off the event alone. */
  function SentBy(current: int, c: Call, b: int): seq<Msg> {
    if c.Send? && c.box == b then [Msg(current, c.size, c.p)] else []
  }

  function SentByHandler(cs: seq<Call>, b: int): seq<Msg> {
    if cs == [] then [] else SentBy(NIL, cs[0], b) + SentByHandler(cs[1..], b)
  }

  function EventSends(s: State, e: Event, b: int): seq<Msg> {
    match e
    case Ecall(c) => SentBy(s.current, c, b)
    case Trap => []
    case Interrupt(cs) => SentByHandler(cs, b)
  }

  lemma CallSends(s: State, c: Call, b: int)
    requires Shape(s) && ArgsOk(s, c) && (s.current == NIL ==> IsService(c)) && 0 <= b < |s.boxes|
    requires CallFunctions(s, c).Up?
    ensures var r := CallFunctions(s, c).value.0;
      |r.boxes| == |s.boxes| && r.sent[b] == s.sent[b] + SentBy(s.current, c, b)
  {
    hide Alloc, Free, HasRoom, PutCurrent;
    match c
    case Run(_, prio) =>
    case Exit =>
    case Wait =>
    case Sleep =>
    case Wakeup(id) =>
    case GetId =>
    case ChPri(prio) =>
    case KMalloc(size) =>
    case KMFree(p) =>
    case Send(_, size, p) =>
    case Recv(_, _, _) =>
    case SetIntr(v, h) =>
    case Unknown =>
  }

  lemma {:induction false} HandlerSends(s: State, cs: seq<Call>, b: int)
    requires Shape(s) && ServicesOk(s, cs) && Services(s, cs).Up? && 0 <= b < |s.boxes|
    ensures var r := Services(s, cs).value;
      |r.boxes| == |s.boxes| && r.sent[b] == s.sent[b] + SentByHandler(cs, b)
    decreases |cs|
  {
    hide CallFunctions;
    if cs != [] {
      CallSends(s.(current := NIL), cs[0], b);
      HandlerSends(Service(s, cs[0]).value, cs[1..], b);
    }
  }

  lemma StepSends(s: State, e: Event, b: int)
    requires EventOk(s, e) && Step(s, e).Up? && 0 <= b < |s.boxes|
    ensures var r := Step(s, e).value;
      |r.boxes| == |s.boxes| && r.sent[b] == s.sent[b] + EventSends(s, e, b)
  {
    match e
    case Ecall(c) => CallSends(Entered(s, c), c, b);
    case Trap =>
    case Interrupt(cs) => HandlerSends(s, cs, b);
  }

  /** Everything a run sends to box b, in order. */
  ghost function RunSends(s: State, es: seq<Event>, b: int): seq<Msg>
    requires Inv(s) && LegalRun(s, es)
    decreases |es|
  {
    if es == [] then []
    else
      LegalIsOk(s, es[0]); StepKeeps(s, es[0]);
      EventSends(s, es[0], b) + RunSends(Step(s, es[0]).value, es[1..], b)
  }

  lemma {:induction false} RunSent(s: State, es: seq<Event>, b: int)
    requires Inv(s) && LegalRun(s, es) && 0 <= b < |s.boxes|
    ensures |Exec(s, es).boxes| == |s.boxes| && Exec(s, es).sent[b] == s.sent[b] + RunSends(s, es, b)
    decreases |es|
  {
    hide Step, EventSends;
    if es != [] {
      LegalIsOk(s, es[0]);
      StepKeeps(s, es[0]);
      StepSends(s, es[0], b);
      RunSent(Step(s, es[0]).value, es[1..], b);
    }
  }

  /** Exactly once, in order: over any run from the start, the messages sent to a box are those
      delivered from it, in that order, followed by those still queued in it. */
  lemma ExactlyOnceFifo(c: Config, es: seq<Event>, b: int)
    requires c.Ok() && LegalRun(Boot(c), es) && 0 <= b < c.boxes
    ensures var r := Exec(Boot(c), es);
      |r.boxes| == c.boxes && RunSends(Boot(c), es, b) == Received(r.recvd[b]) + Queued(r.boxes[b].bufs)
  {
    RunSent(Boot(c), es, b);
    var r := Exec(Boot(c), es);
    assert Fifo(r.sent[b], r.recvd[b], r.boxes[b].bufs);
    assert Boot(c).sent[b] == [];
  }

  // ---------------------------------------------------------------- where deliveries land

  /** Nothing is delivered from box b; a thread waiting there still waits, its block untouched. */
  ghost predicate Quiet(s: State, r: State, b: int)
    requires Shape(s) && Shape(r) && |r.threads| == |s.threads| && 0 <= b < |s.boxes| == |r.boxes|
  {
    && r.recvd[b] == s.recvd[b] && r.boxes[b].receiver == s.boxes[b].receiver
    && (s.boxes[b].receiver != NIL ==> r.threads[s.boxes[b].receiver].param == s.threads[s.boxes[b].receiver].param)
  }

  /** One message is delivered from box b: to the thread that waited there, into its own block,
      and that thread waits no more. */
  ghost predicate Handed(s: State, r: State, b: int)
    requires Shape(s) && Shape(r) && |r.threads| == |s.threads| && 0 <= b < |s.boxes| == |r.boxes|
  {
    var n, t := |s.recvd[b]|, s.boxes[b].receiver;
    && t != NIL && r.boxes[b].receiver == NIL
    && |r.recvd[b]| == n + 1 && r.recvd[b][..n] == s.recvd[b] && r.recvd[b][n].to == t
    && Gets(s.threads[t].param, r.recvd[b][n].msg, r.threads[t].param)
  }

  /** A block q that gets message m becomes r: the sender is returned, the size and the pointer go where
      the block wants them, and nothing else changes. */
  predicate Gets(q: Param, m: Msg, r: Param) {
    && r.ret == Id(m.sender) && r.wantSize == q.wantSize && r.wantP == q.wantP
    && r.size == (if q.wantSize then m.size else q.size)
    && r.p == (if q.wantP then m.p else q.p)
  }

  ghost predicate BoxStep(s: State, r: State, b: int)
    requires Shape(s) && Shape(r) && |r.threads| == |s.threads| && 0 <= b < |s.boxes| == |r.boxes|
  {
    Quiet(s, r, b) || Handed(s, r, b)
  }

  /** Every box is quiet or hands over one message; no other thread's block changes but the caller's. */
  ghost predicate Advance(s: State, r: State, caller: int)
    requires Shape(s) && Shape(r)
  {
    && |r.boxes| == |s.boxes| && |r.threads| == |s.threads|
    && (forall b :: 0 <= b < |s.boxes| ==> BoxStep(s, r, b))
    && (forall t {:trigger r.threads[t]} :: InRange(s, t) && s.threads[t].live && t != caller ==>
          r.threads[t].live && (!IsReceiver(s, t) ==> r.threads[t].param == s.threads[t].param))
  }

  lemma AdvanceTransitive(s: State, r: State, q: State)
    requires Mid(s, {}, NIL) && Mid(r, {}, NIL) && Shape(q) && Advance(s, r, NIL) && Advance(r, q, NIL)
    ensures Advance(s, q, NIL)
  {
    hide BuffersOk, Gets, QueuesOk;
    forall b | 0 <= b < |s.boxes| ensures BoxStep(s, q, b) {
      assert BoxStep(s, r, b) && BoxStep(r, q, b);
      if Handed(s, r, b) {
        var t := s.boxes[b].receiver;
        assert !IsReceiver(r, t) by {
          forall c | 0 <= c < |r.boxes| ensures r.boxes[c].receiver != t {
            assert BoxStep(s, r, c);
            if c < b { assert s.boxes[c].receiver != s.boxes[b].receiver; }
            if b < c { assert s.boxes[b].receiver != s.boxes[c].receiver; }
          }
        }
        assert IsReceiver(s, t) && s.threads[t].live;
      }
    }
    forall t | InRange(s, t) && s.threads[t].live
      ensures q.threads[t].live && (!IsReceiver(s, t) ==> q.threads[t].param == s.threads[t].param) {
      assert r.threads[t].live;
      assert !IsReceiver(s, t) ==> !IsReceiver(r, t) by {
        forall c | 0 <= c < |r.boxes| ensures r.boxes[c].receiver == NIL || r.boxes[c].receiver == s.boxes[c].receiver {
          assert BoxStep(s, r, c);
        }
      }
    }
  }

  lemma SendAdvances(s: State, b: int, size: int, p: int)
    requires Called(s) && 0 <= b < |s.boxes| && ThreadSend(s, b, size, p).Up?
    ensures Advance(s, ThreadSend(s, b, size, p).value, s.current)
  {
    hide Alloc, Free, HasRoom, BuffersOk, PutCurrent, QueuesOk;
    var s1 := SendMsg(PutCurrent(s), b, size, p).value;
    var t := s1.boxes[b].receiver;
    assert s.boxes[b].receiver == t;
    forall c | 0 <= c < |s.boxes| && c != b && s.boxes[c].receiver != NIL ensures s.boxes[c].receiver != t {}
    if t != NIL { assert IsReceiver(s, t); }
  }

  /** Every call but a receive. */
  lemma CallAdvances(s: State, c: Call)
    requires Called(s) && ArgsOk(s, c) && !c.Recv? && (s.current == NIL ==> IsService(c)) && CallFunctions(s, c).Up?
    ensures Advance(s, CallFunctions(s, c).value.0, s.current)
  {
    hide Alloc, Free, HasRoom, BuffersOk, QueuesOk, Placed, Waiting, PutCurrent, ThreadSend, Advance;
    if c.Send? {
      SendAdvances(s, c.box, c.size, c.p);
    } else {
      AllQuiet(s, CallFunctions(s, c).value.0);
    }
  }

  /** Nothing is delivered, and no block changes but the caller's. */
  lemma AllQuiet(s: State, r: State)
    requires Called(s) && Shape(r) && r.boxes == s.boxes && r.recvd == s.recvd && |r.threads| == |s.threads|
    requires forall t {:trigger r.threads[t]} :: InRange(s, t) && s.threads[t].live && t != s.current ==>
      r.threads[t].live && r.threads[t].param == s.threads[t].param
    ensures Advance(s, r, s.current)
  {
    hide BuffersOk, QueuesOk;
    forall b | 0 <= b < |s.boxes| && s.boxes[b].receiver != NIL
      ensures s.threads[s.boxes[b].receiver].live && s.boxes[b].receiver != s.current {
      assert IsReceiver(s, s.boxes[b].receiver);
      assert s.threads[s.boxes[b].receiver] == s.threads[s.boxes[b].receiver];
    }
  }

  lemma {:induction false} ServicesAdvance(s: State, cs: seq<Call>)
    requires Mid(s, {}, NIL) && HandlerOk(s, cs) && ServicesOk(s, cs) && Services(s, cs).Up?
    ensures Advance(s, Services(s, cs).value, NIL)
    decreases |cs|
  {
    hide CallFunctions, BuffersOk, Gets, QueuesOk;
    if cs != [] {
      var s0 := s.(current := NIL);
      CurrentIsFree(s, {}, NIL, NIL);
      CallAdvances(s0, cs[0]);
      ServiceKeeps(s, cs[0]);
      var s1 := Service(s, cs[0]).value;
      ServicesAdvance(s1, cs[1..]);
      ServicesKeep(s, cs);
      assert forall t :: IsReceiver(s0, t) == IsReceiver(s, t);
      forall b | 0 <= b < |s.boxes| ensures BoxStep(s, s1, b) { assert BoxStep(s0, s1, b); }
      assert Advance(s, s1, NIL);
      AdvanceTransitive(s, s1, Services(s, cs).value);
    }
  }

  /** A receive that does not stop the system: with mail it takes the head message into the
      caller's own block and leaves the caller ready; without, the caller waits at the box.  The block
      wants what the call asks for. */
  ghost predicate Receives(s: State, r: State, b: int, wantSize: bool, wantP: bool)
    requires Shape(s) && Shape(r) && InRange(s, s.current) && |r.threads| == |s.threads| &&
        0 <= b < |s.boxes| == |r.boxes|
  {
    var t := s.current;
    var q := r.threads[t].param;
    && s.boxes[b].receiver == NIL && q.wantSize == wantSize && q.wantP == wantP
    && (forall c {:trigger r.boxes[c]} :: 0 <= c < |s.boxes| && c != b ==>
          r.boxes[c] == s.boxes[c] && r.recvd[c] == s.recvd[c])
    && (forall u {:trigger r.threads[u]} :: InRange(s, u) && u != t ==> r.threads[u] == s.threads[u])
    && if s.boxes[b].bufs == [] then
         r.recvd[b] == s.recvd[b] && r.boxes[b] == Box(t, []) && q.ret == Code(-1)
       else
         var m := s.boxes[b].bufs[0].msg;
         && r.recvd[b] == s.recvd[b] + [Delivery(t, m)] && r.boxes[b] == Box(NIL, s.boxes[b].bufs[1..])
         && q.ret == Id(m.sender) && (wantSize ==> q.size == m.size) && (wantP ==> q.p == m.p) && Ready(r, t)
  }

  lemma SyscallReceives(s: State, c: Call)
    requires Inv(s) && c.Recv? && CallOk(s, c) && Syscall(s, c).Up?
    ensures |Syscall(s, c).value.boxes| == |s.boxes| && Receives(s, Syscall(s, c).value, c.box, c.wantSize, c.wantP)
  {
    hide Alloc, Free, PutCurrent, GetCurrent, BuffersOk, QueuesOk, Placed;
    EnteredIsCalled(s, c);
    var s1 := Entered(s, c);
    var s2 := s1.(boxes := s1.boxes[c.box := s1.boxes[c.box].(receiver := s.current)]);
    if s.boxes[c.box].bufs != [] {
      var s3 := RecvMsg(s2, c.box);
      PutReady(s3);
    }
  }

  lemma SyscallAdvances(s: State, c: Call)
    requires Inv(s) && !c.Recv? && CallOk(s, c) && Syscall(s, c).Up?
    ensures Advance(s, Syscall(s, c).value, s.current)
  {
    hide CallFunctions, GetCurrent, BuffersOk, QueuesOk, Gets;
    EnteredIsCalled(s, c);
    var s1 := Entered(s, c);
    CallAdvances(s1, c);
    var r1, r := CallFunctions(s1, c).value.0, Syscall(s, c).value;
    assert forall t :: IsReceiver(s1, t) == IsReceiver(s, t);
    forall b | 0 <= b < |s.boxes| ensures BoxStep(s, r, b) {
      assert BoxStep(s1, r1, b);
      assert s.boxes[b].receiver != NIL ==> IsReceiver(s, s.boxes[b].receiver);
      assert !IsReceiver(s, s.current) by { assert Placed(s, {}); assert s.threads[s.current] == s.threads[s.current]; }
    }
  }

  /** Where deliveries land, for every step: in the block of the thread that waited at the box, or
      of the thread now making the receive; and in no other thread's block. */
  lemma StepDelivers(s: State, e: Event)
    requires Inv(s) && Legal(s, e) && EventOk(s, e) && Step(s, e).Up?
    ensures var r := Step(s, e).value;
      && Shape(r) && |r.threads| == |s.threads| && |r.boxes| == |s.boxes|
      && if e.Ecall? && e.call.Recv? then Receives(s, r, e.call.box, e.call.wantSize, e.call.wantP)
         else Advance(s, r, if e.Interrupt? then NIL else s.current)
  {
    hide Syscall, Services, GetCurrent, BuffersOk, QueuesOk, Gets, Advance, Receives, Placed;
    StepKeeps(s, e);
    BeforeKeeps(s, e);
    var r1, r := Before(s, e).value, Step(s, e).value;
    assert r == r1.(current := r.current);
    match e
    case Ecall(c) =>
      if c.Recv? {
        SyscallReceives(s, c);
        ReceivesScheduled(s, r1, c.box, c.wantSize, c.wantP, r.current);
      } else {
        SyscallAdvances(s, c);
        AdvanceScheduled(s, r1, s.current, r.current);
      }
    case Trap =>
      FaultAdvances(s);
      AdvanceScheduled(s, r1, s.current, r.current);
    case Interrupt(cs) =>
      ServicesAdvance(s, cs);
      AdvanceScheduled(s, r1, NIL, r.current);
  }

  lemma AdvanceScheduled(s: State, r: State, caller: int, t: int)
    requires Shape(s) && Shape(r) && Advance(s, r, caller) && InRange(r, t)
    ensures Advance(s, r.(current := t), caller) && |r.threads| == |s.threads| && |r.boxes| == |s.boxes|
  {
    forall b | 0 <= b < |s.boxes| ensures BoxStep(s, r.(current := t), b) { assert BoxStep(s, r, b); }
  }

  lemma ReceivesScheduled(s: State, r: State, b: int, wantSize: bool, wantP: bool, t: int)
    requires Shape(s) && Shape(r) && InRange(s, s.current) && |r.threads| == |s.threads| &&
        0 <= b < |s.boxes| == |r.boxes|
    requires Receives(s, r, b, wantSize, wantP) && InRange(r, t)
    ensures Receives(s, r.(current := t), b, wantSize, wantP)
  {
    var r' := r.(current := t);
    assert r'.boxes == r.boxes && r'.threads == r.threads && r'.queues == r.queues && r'.recvd == r.recvd;
    assert s.boxes[b].bufs != [] ==> Ready(r, s.current);
    forall c | 0 <= c < |s.boxes| && c != b ensures r'.boxes[c] == s.boxes[c] && r'.recvd[c] == s.recvd[c] {
      assert r.boxes[c] == s.boxes[c];
    }
  }

  lemma FaultAdvances(s: State)
    requires Inv(s)
    ensures Advance(s, Fault(s), s.current)
  {
  }

  // ---------------------------------------------------------------- from the sender's call to the receiver

  /** kz_send of (size, p) to a box: with nobody waiting the caller's message is the last in the box; a
      waiting thread finds the caller, the size and p where it wants them. */
  lemma SendDelivers(s: State, b: int, size: int, p: int)
    requires Inv(s) && 0 <= b < |s.boxes| && Syscall(s, Send(b, size, p)).Up?
    ensures var r := Syscall(s, Send(b, size, p)).value;
      SentOn(s, r, b, s.current, size, p)
  {
    hide Alloc, Free, HasRoom, PutCurrent, GetCurrent, BuffersOk, QueuesOk;
    var c := Send(b, size, p);
    EnteredIsCalled(s, c);
    assert !IsReceiver(s, s.current) by { assert s.threads[s.current] == s.threads[s.current]; }
    CallSentOn(Entered(s, c), b, size, p);
  }

  /** The same from a handler, whose messages have no sender. */
  lemma ServiceSendDelivers(s: State, b: int, size: int, p: int)
    requires Mid(s, {}, NIL) && 0 <= b < |s.boxes| && Service(s, Send(b, size, p)).Up?
    ensures SentOn(s, Service(s, Send(b, size, p)).value, b, NIL, size, p)
  {
    CurrentIsFree(s, {}, NIL, NIL);
    CallSentOn(s.(current := NIL), b, size, p);
  }

  ghost predicate SentOn(s: State, r: State, b: int, sender: int, size: int, p: int)
    requires Shape(s) && 0 <= b < |s.boxes|
  {
    var t := s.boxes[b].receiver;
    && Shape(r) && |r.threads| == |s.threads| && |r.boxes| == |s.boxes|
    && if t != NIL then
         var q, was := r.threads[t].param, s.threads[t].param;
         && r.boxes[b] == Box(NIL, []) && q.ret == Id(sender)
         && (was.wantSize ==> q.size == size) && (was.wantP ==> q.p == p)
         && (!was.wantSize ==> q.size == was.size) && (!was.wantP ==> q.p == was.p)
       else
         var n := |s.boxes[b].bufs|;
         && r.boxes[b].receiver == NIL && |r.boxes[b].bufs| == n + 1 && r.boxes[b].bufs[..n] == s.boxes[b].bufs
         && var m := r.boxes[b].bufs[n].msg; m.sender == sender && m.size == size && m.p == p
  }

  lemma CallSentOn(s: State, b: int, size: int, p: int)
    requires Called(s) && 0 <= b < |s.boxes| && ThreadSend(s, b, size, p).Up?
    ensures SentOn(s, ThreadSend(s, b, size, p).value, b, s.current, size, p)
  {
    hide Alloc, Free, HasRoom, PutCurrent, QueuesOk, BuffersOk, Placed;
  }
}
