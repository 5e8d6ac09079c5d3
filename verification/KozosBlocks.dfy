/** Message buffers never leak or alias: who owns each allocator block, over every run. */
module KozosBlocks {
  import opened Pools
  import opened KozosSpec
  import opened KozosInv
  import opened KozosRuns

  function MessageBlocks(boxes: seq<Box>): (r: set<int>) {
    set b, k | 0 <= b < |boxes| && 0 <= k < |boxes[b].bufs| :: boxes[b].bufs[k].block
  }

  /** The number of queued messages in all boxes. */
  function Pending(boxes: seq<Box>): nat {
    if boxes == [] then 0 else Pending(boxes[..|boxes| - 1]) + |boxes[|boxes| - 1].bufs|
  }

  function BlocksOf(bufs: seq<Buf>): set<int> { set k | 0 <= k < |bufs| :: bufs[k].block }

  lemma LastBox(boxes: seq<Box>)
    requires boxes != []
    ensures MessageBlocks(boxes) == MessageBlocks(boxes[..|boxes| - 1]) + BlocksOf(boxes[|boxes| - 1].bufs)
  {
  }

  lemma LastApart(boxes: seq<Box>)
    requires boxes != [] && Apart(boxes)
    ensures Apart(boxes[..|boxes| - 1])
    ensures BlocksOf(boxes[|boxes| - 1].bufs) !! MessageBlocks(boxes[..|boxes| - 1])
  {
  }

  lemma BlocksCount(bufs: seq<Buf>)
    requires forall k, l :: 0 <= k < l < |bufs| ==> bufs[k].block != bufs[l].block
    ensures |BlocksOf(bufs)| == |bufs|
  {
    var blocks := seq(|bufs|, k requires 0 <= k < |bufs| => bufs[k].block);
    DistinctCount(blocks);
    forall x | x in BlocksOf(bufs) ensures x in blocks {
      var k :| 0 <= k < |bufs| && bufs[k].block == x;
      assert blocks[k] == x;
    }
    assert BlocksOf(bufs) == set x | x in blocks;
  }

  lemma {:induction false} PendingCount(boxes: seq<Box>)
    requires Apart(boxes)
    ensures |MessageBlocks(boxes)| == Pending(boxes)
  {
    if boxes != [] {
      LastApart(boxes);
      PendingCount(boxes[..|boxes| - 1]);
      BlocksCount(boxes[|boxes| - 1].bufs);
      LastBox(boxes);
    }
  }

  lemma IsMessageIff(s: State, a: int)
    ensures IsMessage(s, a) <==> a in MessageBlocks(s.boxes)
  {
  }

  /** In every reachable state the 32-byte class is accounted for: queued messages, blocks of users,
      free blocks. */
  lemma Accounting(c: Config, es: seq<Event>)
    requires c.Ok() && LegalRun(Boot(c), es)
    ensures var r := Exec(Boot(c), es);
      |r.heap.free| == CLASSES &&
      Pending(r.boxes) + |set a | a in UserBlocks(r) && ClassAt(r.heap.base, a) == 1| + |r.heap.free[1]| == Num(1)
  {
    StateAccounting(Exec(Boot(c), es));
  }

  lemma StateAccounting(r: State)
    requires BuffersOk(r)
    ensures Pending(r.boxes) + |set a | a in UserBlocks(r) && ClassAt(r.heap.base, a) == 1| + |r.heap.free[1]| == Num(1)
  {
    hide Valid;
    Conservation(r.heap, 1);
    PendingCount(r.boxes);
    forall a ensures IsMessage(r, a) <==> a in MessageBlocks(r.boxes) { IsMessageIff(r, a); }
    var users := set a | a in UserBlocks(r) && ClassAt(r.heap.base, a) == 1;
    forall a | a in MessageBlocks(r.boxes) ensures a in LiveOf(r.heap, 1) {
      var b, k :| 0 <= b < |r.boxes| && 0 <= k < |r.boxes[b].bufs| && r.boxes[b].bufs[k].block == a;
    }
    assert LiveOf(r.heap, 1) == MessageBlocks(r.boxes) + users;
    assert MessageBlocks(r.boxes) !! users;
  }

  // ---------------------------------------------------------------- one call

  lemma SendMsgUsers(s: State, b: int, size: int, p: int)
    requires Shape(s) && BuffersOk(s) && 0 <= b < |s.boxes| && HasRoom(s.heap, MSGBUF_SIZE)
    ensures UserBlocks(SendMsg(s, b, size, p).value) == UserBlocks(s)
  {
    var r := SendMsg(s, b, size, p).value;
    AllocValid(s.heap, MSGBUF_SIZE);
    var a := Alloc(s.heap, MSGBUF_SIZE).1;
    forall x ensures IsMessage(r, x) <==> IsMessage(s, x) || x == a {
      if IsMessage(s, x) {
        var c, k :| 0 <= c < |s.boxes| && 0 <= k < |s.boxes[c].bufs| && s.boxes[c].bufs[k].block == x;
        assert r.boxes[c].bufs[k].block == x;
      }
      if x == a { assert r.boxes[b].bufs[|s.boxes[b].bufs|].block == a; }
    }
  }

  lemma RecvMsgUsers(s: State, b: int)
    requires Shape(s) && BuffersOk(s) && 0 <= b < |s.boxes| && s.boxes[b].bufs != [] && s.boxes[b].receiver != NIL
    ensures UserBlocks(RecvMsg(s, b)) == UserBlocks(s)
  {
    var r := RecvMsg(s, b);
    var a := s.boxes[b].bufs[0].block;
    assert IsMessage(s, a);
    forall x | x != a ensures IsMessage(r, x) <==> IsMessage(s, x) {
      if IsMessage(s, x) {
        var c, k :| 0 <= c < |s.boxes| && 0 <= k < |s.boxes[c].bufs| && s.boxes[c].bufs[k].block == x;
        assert r.boxes[c].bufs[if c == b then k - 1 else k].block == x;
      }
      if IsMessage(r, x) {
        var c, k :| 0 <= c < |r.boxes| && 0 <= k < |r.boxes[c].bufs| && r.boxes[c].bufs[k].block == x;
        assert s.boxes[c].bufs[if c == b then k + 1 else k].block == x;
      }
    }
  }

  lemma SameBufs(s: State, r: State)
    requires r.heap == s.heap && |r.boxes| == |s.boxes|
    requires forall b :: 0 <= b < |s.boxes| ==> r.boxes[b].bufs == s.boxes[b].bufs
    ensures UserBlocks(r) == UserBlocks(s)
  {
  }

  /** Who owns what after a call: an allocation gives its caller exactly one block that nobody
      had, a free gives back exactly one, and no other call changes what users own; a message that
      is sent and delivered returns exactly the block it took. */
  lemma CallUsers(s: State, c: Call)
    requires Called(s) && CallOk(s, c) && (s.current == NIL ==> IsService(c)) && CallFunctions(s, c).Up?
    ensures var (r, v) := CallFunctions(s, c).value;
      match c
      case KMalloc(size) => v.Ptr? && v.p - HEADER !in s.heap.live && UserBlocks(r) == UserBlocks(s) + {v.p - HEADER}
      case KMFree(p) => UserBlocks(r) == UserBlocks(s) - {p - HEADER}
      case _ => UserBlocks(r) == UserBlocks(s)
  {
    hide PutCurrent, QueuesOk, Placed, ThreadSend, ThreadRecv;
    var r := CallFunctions(s, c).value.0;
    match c
    case KMalloc(size) =>
      AllocValid(s.heap, size);
      assert forall a :: IsMessage(r, a) == IsMessage(s, a);
    case KMFree(p) =>
      FreeValid(s.heap, p - HEADER);
      assert forall a :: IsMessage(r, a) == IsMessage(s, a);
    case Send(b, size, p) => ThreadSendUsers(s, b, size, p);
    case Recv(b, _, _) => ThreadRecvUsers(s, b);
    case _ => SameBufs(s, r);
  }

  lemma ThreadSendUsers(s: State, b: int, size: int, p: int)
    requires Called(s) && 0 <= b < |s.boxes| && ThreadSend(s, b, size, p).Up?
    ensures UserBlocks(ThreadSend(s, b, size, p).value) == UserBlocks(s)
  {
    hide PutCurrent, QueuesOk, Placed, IsMessage, UserBlocks;
    var s1 := PutCurrent(s);
    SameBufs(s, s1);
    SendMsgUsers(s1, b, size, p);
    SendBuffers(s1, b, size, p);
    var s2 := SendMsg(s1, b, size, p).value;
    if s2.boxes[b].receiver != NIL {
      var s3 := s2.(current := s2.boxes[b].receiver);
      SameBufs(s2, s3);
      RecvMsgUsers(s3, b);
      SameBufs(RecvMsg(s3, b), PutCurrent(RecvMsg(s3, b)));
    }
  }

  lemma ThreadRecvUsers(s: State, b: int)
    requires Called(s) && 0 <= b < |s.boxes| && s.current != NIL && ThreadRecv(s, b).Up?
    ensures UserBlocks(ThreadRecv(s, b).value.0) == UserBlocks(s)
  {
    hide PutCurrent, QueuesOk, Placed, IsMessage, UserBlocks;
    var s1 := s.(boxes := s.boxes[b := s.boxes[b].(receiver := s.current)]);
    SameBufs(s, s1);
    if s1.boxes[b].bufs != [] {
      RecvMsgUsers(s1, b);
      SameBufs(RecvMsg(s1, b), PutCurrent(RecvMsg(s1, b)));
    }
  }
}
