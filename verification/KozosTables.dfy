/** kz_kmfree on the words themselves: which blocks may be freed. */
module KozosTables {
  import opened Pools
  import opened KzMemory
  import opened KozosSpec
  import opened KozosInv
  import opened KozosRep

  /** The pool table, the message boxes and the words of memory represent the state. */
  ghost predicate Tables(s: State, base: int, pool: seq<Pool>, mb: seq<MsgBox>, ram: seq<int>) {
    s.heap.base == base && Heads(s.heap, pool) && Links(s.heap, ram) && BoxesRep(s, mb, ram)
  }

  /** After kzmem_free of a block the tables represent some state if and only if the block was a
      user's: freed twice it closes its free list into a cycle, freed with a message in it it is free
      and queued. */
  lemma FreeTablesExactly(s: State, pool: seq<Pool>, mb: seq<MsgBox>, ram: seq<int>, a: int)
    requires Tables(s, s.heap.base, pool, mb, ram) && IsBlock(s.heap.base, a)
    ensures |pool| == CLASSES && |ram| == AREA
    ensures var (pool', ram') := FreeWords(s.heap.base, pool, ram, a);
      (exists r :: Tables(r, s.heap.base, pool', mb, ram')) <==> a in UserBlocks(s)
  {
    hide Heads, Links, BoxesRep;
    TableSizes(s, pool, mb, ram);
    hide FreeWords, IsMessage;
    var (pool', ram') := FreeWords(s.heap.base, pool, ram, a);
    if a in UserBlocks(s) {
      FreeOfUser(s, pool, mb, ram, a);
      assert Tables(s.(heap := Free(s.heap, a)), s.heap.base, pool', mb, ram');
    }
    if r :| Tables(r, s.heap.base, pool', mb, ram') {
      FreedWasLive(s, r, pool, mb, ram, a);
      FreedNoMessage(s, r, pool, mb, ram, a);
    }
  }

  lemma TableSizes(s: State, pool: seq<Pool>, mb: seq<MsgBox>, ram: seq<int>)
    requires Tables(s, s.heap.base, pool, mb, ram)
    ensures |pool| == CLASSES && |ram| == AREA && |s.heap.free| == CLASSES && 0 < s.heap.base
  {
  }

  lemma FreeOfUser(s: State, pool: seq<Pool>, mb: seq<MsgBox>, ram: seq<int>, a: int)
    requires Tables(s, s.heap.base, pool, mb, ram) && IsBlock(s.heap.base, a) && a in UserBlocks(s)
    ensures |pool| == CLASSES && |ram| == AREA && |s.heap.free| == CLASSES
    ensures var (pool', ram') := FreeWords(s.heap.base, pool, ram, a);
      Tables(s.(heap := Free(s.heap, a)), s.heap.base, pool', mb, ram')
  {
    TableSizes(s, pool, mb, ram);
    hide Heads, Links, BoxesRep, IsBlock, ClassAt;
    FreeIfLive(s.heap, pool, ram, a);
    FreeSpares(s, mb, ram, a, pool[ClassAt(s.heap.base, a)].free);
  }

  lemma FreedWasLive(s: State, r: State, pool: seq<Pool>, mb: seq<MsgBox>, ram: seq<int>, a: int)
    requires Tables(s, s.heap.base, pool, mb, ram) && IsBlock(s.heap.base, a) && |pool| == CLASSES && |ram| == AREA
    requires var (pool', ram') := FreeWords(s.heap.base, pool, ram, a); Tables(r, s.heap.base, pool', mb, ram')
    ensures a in s.heap.live && a !in r.heap.live
  {
    TableSizes(s, pool, mb, ram);
    hide BoxesRep, Links, FreeWords;
    NoCycle(s.heap, r.heap, pool, ram, a);
    HeadIsFree(r.heap, s.heap.base, pool, ram, a);
  }

  lemma HeadIsFree(g: Heap, base: int, pool: seq<Pool>, ram: seq<int>, a: int)
    requires 0 < base == g.base && IsBlock(base, a) && |pool| == CLASSES && |ram| == AREA
    requires Heads(g, FreeWords(base, pool, ram, a).0) && Links(g, FreeWords(base, pool, ram, a).1)
    ensures a !in g.live
  {
    var c := ClassAt(base, a);
    assert FreeWords(base, pool, ram, a).0[c].free == Head(g.free[c]);
    assert g.free[c][0] == a;
  }

  lemma FreedNoMessage(s: State, r: State, pool: seq<Pool>, mb: seq<MsgBox>, ram: seq<int>, a: int)
    requires Tables(s, s.heap.base, pool, mb, ram) && IsBlock(s.heap.base, a) && |pool| == CLASSES && |ram| == AREA
    requires var (pool', ram') := FreeWords(s.heap.base, pool, ram, a); Tables(r, s.heap.base, pool', mb, ram')
    requires a !in r.heap.live
    ensures !IsMessage(s, a)
  {
    hide Heads, Links, FreeWords;
    var ram' := FreeWords(s.heap.base, pool, ram, a).1;
    OneWord(s.heap.base, pool, ram, a);
    if b, k :| 0 <= b < |s.boxes| && 0 <= k < |s.boxes[b].bufs| && s.boxes[b].bufs[k].block == a {
      SameBuffers(s, r, mb, ram, ram', a, b, k);
      QueuedIsLive(r, b, k);
    }
  }

  lemma QueuedIsLive(r: State, b: int, k: int)
    requires BuffersOk(r) && 0 <= b < |r.boxes| && 0 <= k < |r.boxes[b].bufs|
    ensures r.boxes[b].bufs[k].block in r.heap.live
  {
  }

  lemma OneWord(base: int, pool: seq<Pool>, ram: seq<int>, a: int)
    requires IsBlock(base, a) && |pool| == CLASSES && |ram| == AREA
    ensures var ram' := FreeWords(base, pool, ram, a).1;
      |ram'| == AREA && forall o :: 0 <= o < AREA && o != a - base ==> ram'[o] == ram[o]
  {
  }

  /** Following the links of a box from its head finds the same blocks, whichever state the words are
      read as: a word in a header is no word of a buffer. */
  lemma {:induction false} SameBuffers(s: State, r: State, mb: seq<MsgBox>, ram: seq<int>, ram': seq<int>,
                                       a: int, b: int, k: int)
    requires BoxesRep(s, mb, ram) && BoxesRep(r, mb, ram') && r.heap.base == s.heap.base && IsBlock(s.heap.base, a)
    requires forall o :: 0 <= o < AREA && o != a - s.heap.base ==> ram'[o] == ram[o]
    requires 0 <= b < |s.boxes| && 0 <= k < |s.boxes[b].bufs|
    ensures b < |r.boxes| && k < |r.boxes[b].bufs| && r.boxes[b].bufs[k].block == s.boxes[b].bufs[k].block
    decreases k
  {
    hide Valid;
    if k == 0 {
      NotNull(s, mb, ram, b, 0);
      NotNull(r, mb, ram', b, 0);
      assert mb[b] == mb[b];
    } else {
      SameBuffers(s, r, mb, ram, ram', a, b, k - 1);
      LinkFollows(s, mb, ram, b, k - 1);
      LinkFollows(r, mb, ram', b, k - 1);
      NotNull(s, mb, ram, b, k);
      HeaderIsNoBuffer(s, mb, ram, a, b, k - 1);
    }
  }

  lemma NotNull(s: State, mb: seq<MsgBox>, ram: seq<int>, b: int, k: int)
    requires BoxesRep(s, mb, ram) && 0 <= b < |s.boxes|
    ensures 0 <= k < |s.boxes[b].bufs| ==> Payload(s.boxes[b].bufs[k]) != NULL
  {
    if 0 <= k < |s.boxes[b].bufs| { QueuedIsLive(s, b, k); }
  }

  lemma LinkFollows(s: State, mb: seq<MsgBox>, ram: seq<int>, b: int, k: int)
    requires BoxesRep(s, mb, ram) && 0 <= b < |s.boxes| && 0 <= k < |s.boxes[b].bufs|
    ensures var o := Payload(s.boxes[b].bufs[k]) - s.heap.base;
      0 <= o < AREA && ram[o] == NextBuf(s.boxes[b].bufs, k)
  {
    assert Holds(ram, Payload(s.boxes[b].bufs[k]) - s.heap.base, NextBuf(s.boxes[b].bufs, k), s.boxes[b].bufs[k].msg);
  }

  lemma HeaderIsNoBuffer(s: State, mb: seq<MsgBox>, ram: seq<int>, a: int, b: int, k: int)
    requires BoxesRep(s, mb, ram) && 0 <= b < |s.boxes| && 0 <= k < |s.boxes[b].bufs| && IsBlock(s.heap.base, a)
    ensures Payload(s.boxes[b].bufs[k]) != a
  {
    QueuedIsLive(s, b, k);
    if s.boxes[b].bufs[k].block != a { BlocksApart(s.heap.base, s.boxes[b].bufs[k].block, a); }
  }
}
