/** software/kozos/memory.c in place: the pool table, and the words of the free area in which
    every block keeps its own header (next, size). */
module KzMemory {
  import opened Pools

  datatype Pool = Pool(size: int, num: int, free: int)

  function Head(s: seq<int>): int { if s == [] then NULL else s[0] }

  /** What follows position k of a list. */
  function Next(s: seq<int>, k: int): int requires 0 <= k < |s| { if k + 1 < |s| then s[k + 1] else NULL }

  // ---------------------------------------------------------------- the representation, on values

  /** The pool table holds the sizes, and the heads of the free lists. */
  ghost predicate Heads(h: Heap, pool: seq<Pool>) {
    && |pool| == CLASSES == |h.free|
    && forall i :: 0 <= i < CLASSES ==> pool[i] == Pool(Size(i), Num(i), Head(h.free[i]))
  }

  /** The size word of every block is that of its class. */
  ghost predicate Sizes(base: int, ram: seq<int>) {
    && |ram| == AREA
    && forall a {:trigger IsBlock(base, a)} :: IsBlock(base, a) && a + 4 - base < AREA ==>
        ram[a + 4 - base] == Size(ClassAt(base, a))
  }

  /** The next words thread the free lists. */
  ghost predicate Threaded(h: Heap, ram: seq<int>) {
    && |ram| == AREA && Valid(h)
    && forall i, k {:trigger Next(h.free[i], k)} :: 0 <= i < CLASSES && 0 <= k < |h.free[i]| ==>
        ram[h.free[i][k] - h.base] == Next(h.free[i], k)
  }

  ghost predicate Links(h: Heap, ram: seq<int>) {
    Threaded(h, ram) && Sizes(h.base, ram)
  }

  /** A next word is never a size word. */
  lemma HeaderStore(base: int, ram: seq<int>, a: int, v: int)
    requires Sizes(base, ram) && IsBlock(base, a)
    ensures Sizes(base, ram[a - base := v])
  {
  }

  lemma TakeLinks(h: Heap, ram: seq<int>, c: nat)
    requires Links(h, ram) && c < CLASSES && h.free[c] != []
    ensures var (h', a) := Take(h, c); IsBlock(h.base, a) && Links(h', ram[a - h.base := NULL])
  {
    TakeThreaded(h, ram, c);
    HeaderStore(h.base, ram, h.free[c][0], NULL);
  }

  lemma TakeThreaded(h: Heap, ram: seq<int>, c: nat)
    requires Threaded(h, ram) && c < CLASSES && h.free[c] != []
    ensures var (h', a) := Take(h, c); IsBlock(h.base, a) && Threaded(h', ram[a - h.base := NULL])
  {
    TakeValid(h, c);
    hide IsBlock, ClassAt, Take, Valid, Next;
    var (h', a) := Take(h, c);
    forall i, k {:trigger Next(h'.free[i], k)} | 0 <= i < CLASSES && 0 <= k < |h'.free[i]|
      ensures ram[a - h.base := NULL][h'.free[i][k] - h.base] == Next(h'.free[i], k) {
      TakeNext(h, c, i, k);
      ThreadedAt(h, ram, i, if i == c then k + 1 else k);
    }
  }

  lemma ThreadedAt(h: Heap, ram: seq<int>, i: int, k: int)
    requires Threaded(h, ram) && 0 <= i < CLASSES && 0 <= k < |h.free[i]|
    ensures 0 <= h.free[i][k] - h.base < AREA && ram[h.free[i][k] - h.base] == Next(h.free[i], k)
  {
  }

  /** Position k of list i after the head of list c was taken. */
  lemma TakeNext(h: Heap, c: nat, i: int, k: int)
    requires Valid(h) && c < CLASSES && h.free[c] != []
    requires 0 <= i < CLASSES && 0 <= k < |Take(h, c).0.free[i]|
    ensures var (h', a) := Take(h, c); var k0 := if i == c then k + 1 else k;
      && a == h.free[c][0] && h'.base == h.base && |h'.free| == CLASSES
      && k0 < |h.free[i]| && h'.free[i][k] == h.free[i][k0] != a && Next(h'.free[i], k) == Next(h.free[i], k0)
  {
  }

  lemma FreeLinks(h: Heap, ram: seq<int>, a: int)
    requires Links(h, ram) && a in h.live
    ensures Links(Free(h, a), ram[a - h.base := Head(h.free[ClassAt(h.base, a)])])
  {
    HeaderStore(h.base, ram, a, Head(h.free[ClassAt(h.base, a)]));
    FreeThreaded(h, ram, a);
  }

  lemma FreeThreaded(h: Heap, ram: seq<int>, a: int)
    requires Threaded(h, ram) && a in h.live
    ensures Threaded(Free(h, a), ram[a - h.base := Head(h.free[ClassAt(h.base, a)])])
  {
    FreeValid(h, a);
    BlockInside(h.base, a);
    hide IsBlock, Free, Valid, Next;
    var h' := Free(h, a);
    var v := Head(h.free[ClassAt(h.base, a)]);
    forall i, k {:trigger Next(h'.free[i], k)} | 0 <= i < CLASSES && 0 <= k < |h'.free[i]|
      ensures ram[a - h.base := v][h'.free[i][k] - h.base] == Next(h'.free[i], k) {
      FreeNext(h, a, i, k);
      if i != ClassAt(h.base, a) || k > 0 { ThreadedAt(h, ram, i, if i == ClassAt(h.base, a) then k - 1 else k); }
    }
  }

  /** Position k of list i after block a was freed. */
  lemma FreeNext(h: Heap, a: int, i: int, k: int)
    requires Valid(h) && a in h.live && 0 <= i < CLASSES && 0 <= k < |Free(h, a).free[i]|
    ensures var h' := Free(h, a); var c := ClassAt(h.base, a); var k0 := if i == c then k - 1 else k;
      && h'.base == h.base && |h'.free| == CLASSES
      && if k0 < 0 then h'.free[i][k] == a && Next(h'.free[i], k) == Head(h.free[c])
         else k0 < |h.free[i]| && h'.free[i][k] == h.free[i][k0] != a && Next(h'.free[i], k) == Next(h.free[i], k0)
  {
    hide IsBlock;
    var k0 := if i == ClassAt(h.base, a) then k - 1 else k;
    assert 0 <= k0 < |h.free[i]| ==> h.free[i][k0] !in h.live;
  }

  /** A store inside the payload of a live block touches no header. */
  lemma StoreLinks(h: Heap, ram: seq<int>, a: int, o: int, v: int)
    requires Links(h, ram) && a in h.live && HEADER <= o < Size(ClassAt(h.base, a))
    ensures a + o - h.base < AREA && Links(h, ram[a + o - h.base := v])
  {
    BlockInside(h.base, a);
    var ram' := ram[a + o - h.base := v];
    forall i, k {:trigger Next(h.free[i], k)} | 0 <= i < CLASSES && 0 <= k < |h.free[i]|
        ensures ram'[h.free[i][k] - h.base] == Next(h.free[i], k) {
      BlocksApart(h.base, a, h.free[i][k]);
    }
    forall b | IsBlock(h.base, b) && b + 4 - h.base < AREA ensures ram'[b + 4 - h.base] == Size(ClassAt(h.base, b)) {
      if b != a { BlocksApart(h.base, a, b); }
    }
  }

  /** The pool table and the words after the head of list c was taken. */
  lemma TakeRepresented(h: Heap, pool: seq<Pool>, ram: seq<int>, c: nat)
    requires Heads(h, pool) && Links(h, ram) && c < CLASSES && h.free[c] != []
    ensures var (h', a) := Take(h, c);
      && 0 <= a - h.base < |ram| && IsBlock(h.base, a)
      && Links(h', ram[a - h.base := NULL])
      && Heads(h', pool[c := pool[c].(free := ram[a - h.base])])
  {
    TakeLinks(h, ram, c);
    assert ram[h.free[c][0] - h.base] == Next(h.free[c], 0);
  }

  lemma HeapRoom(h: Heap, pool: seq<Pool>, ram: seq<int>, size: int)
    requires Heads(h, pool) && Links(h, ram) && IsInt(size)
    ensures HasRoom(h, size) ==> 0 <= size <= Size(ClassAt(h.base, Alloc(h, size).1)) - HEADER
  {
    if HasRoom(h, size) { AllocRoom(h, size); }
  }

  lemma NullWhenEmpty(h: Heap, ram: seq<int>, c: nat)
    requires Links(h, ram) && c < CLASSES && 0 < h.base
    ensures Head(h.free[c]) == NULL <==> h.free[c] == []
  {
  }

  /** The pool table and the words after kzmem_free linked a block in front of the list of its class. */
  function FreeWords(base: int, pool: seq<Pool>, ram: seq<int>, a: int): (seq<Pool>, seq<int>)
    requires IsBlock(base, a) && |pool| == CLASSES && |ram| == AREA
  {
    var c := ClassAt(base, a);
    (pool[c := pool[c].(free := a)], ram[a - base := pool[c].free])
  }

  lemma FreeIfLive(h: Heap, pool: seq<Pool>, ram: seq<int>, a: int)
    requires Heads(h, pool) && Links(h, ram) && IsBlock(h.base, a)
    ensures a in h.live ==>
      var (pool', ram') := FreeWords(h.base, pool, ram, a); Heads(Free(h, a), pool') && Links(Free(h, a), ram')
  {
    if a in h.live { FreeLinks(h, ram, a); }
  }

  ghost predicate Represents(h: Heap, base: int, pool: seq<Pool>, ram: seq<int>) {
    h.base == base && Heads(h, pool) && Links(h, ram)
  }

  /** kzmem_free of a block leaves tables that represent some heap if and only if the block is live: a
      block freed twice closes its list into a cycle. */
  lemma FreeExactly(h: Heap, pool: seq<Pool>, ram: seq<int>, a: int)
    requires 0 < h.base && Represents(h, h.base, pool, ram) && IsBlock(h.base, a)
    ensures var (pool', ram') := FreeWords(h.base, pool, ram, a);
      (exists g :: Represents(g, h.base, pool', ram')) <==> a in h.live
  {
    var (pool', ram') := FreeWords(h.base, pool, ram, a);
    FreeIfLive(h, pool, ram, a);
    if a in h.live {
      assert Represents(Free(h, a), h.base, pool', ram');
    }
    if g :| Represents(g, h.base, pool', ram') {
      NoCycle(h, g, pool, ram, a);
    }
  }

  /** Freed while it is free: following the links from the head would lead back to it. */
  lemma NoCycle(h: Heap, g: Heap, pool: seq<Pool>, ram: seq<int>, a: int)
    requires 0 < h.base && Heads(h, pool) && Links(h, ram) && IsBlock(h.base, a)
    requires var (pool', ram') := FreeWords(h.base, pool, ram, a);
      g.base == h.base && Heads(g, pool') && Links(g, ram')
    ensures a in h.live
  {
    hide Links, Heads;
    NotLive(h, pool, ram, a);
    var c := ClassAt(h.base, a);
    if k :| 0 <= k < |h.free[c]| && h.free[c][k] == a {
      LinksLead(h, g, pool, ram, a, k, k);
      OnceOnly(g, FreeWords(h.base, pool, ram, a).1, c, 0, k + 1);
    }
  }

  lemma NotLive(h: Heap, pool: seq<Pool>, ram: seq<int>, a: int)
    requires Heads(h, pool) && Links(h, ram) && IsBlock(h.base, a)
    ensures var c := ClassAt(h.base, a);
      c < CLASSES == |h.free| && |pool| == CLASSES && |ram| == AREA
      && (a in h.live || exists k :: 0 <= k < |h.free[c]| && h.free[c][k] == a)
  {
  }

  lemma OnceOnly(g: Heap, ram: seq<int>, c: nat, j: int, k: int)
    requires Links(g, ram) && c < CLASSES && 0 <= j < k < |g.free[c]|
    ensures g.free[c][j] != g.free[c][k]
  {
  }

  lemma {:induction false} LinksLead(h: Heap, g: Heap, pool: seq<Pool>, ram: seq<int>, a: int, k: int, j: int)
    requires 0 < h.base && Heads(h, pool) && Links(h, ram) && IsBlock(h.base, a)
    requires 0 <= j <= k < |h.free[ClassAt(h.base, a)]| && h.free[ClassAt(h.base, a)][k] == a
    requires var (pool', ram') := FreeWords(h.base, pool, ram, a);
      g.base == h.base && Heads(g, pool') && Links(g, ram')
    ensures var c := ClassAt(h.base, a);
      |g.free| == CLASSES && j + 1 < |g.free[c]| && g.free[c][j + 1] == h.free[c][j] && g.free[c][0] == a
    decreases j
  {
    NotLive(h, pool, ram, a);
    hide Links, Heads;
    var c := ClassAt(h.base, a);
    var ram' := FreeWords(h.base, pool, ram, a).1;
    FreedFirst(h, g, pool, ram, a);
    if j > 0 {
      LinksLead(h, g, pool, ram, a, k, j - 1);
      OnceOnly(h, ram, c, j - 1, k);
      LinkAt(h, ram, c, j - 1);
    }
    LinkAt(g, ram', c, j);
  }

  /** The freed block heads its list, and links to the old head. */
  lemma FreedFirst(h: Heap, g: Heap, pool: seq<Pool>, ram: seq<int>, a: int)
    requires 0 < h.base && Heads(h, pool) && Links(h, ram) && IsBlock(h.base, a) && h.free[ClassAt(h.base, a)] != []
    requires var (pool', ram') := FreeWords(h.base, pool, ram, a);
      g.base == h.base && Heads(g, pool') && Links(g, ram')
    ensures var c := ClassAt(h.base, a);
      && |g.free| == CLASSES && g.free[c] != [] && g.free[c][0] == a
      && FreeWords(h.base, pool, ram, a).1[a - h.base] == h.free[c][0] != NULL
  {
    var c := ClassAt(h.base, a);
    assert FreeWords(h.base, pool, ram, a).0[c].free == Head(g.free[c]);
    assert pool[c].free == Head(h.free[c]);
  }

  lemma LinkAt(h: Heap, ram: seq<int>, c: nat, k: int)
    requires 0 < h.base && Links(h, ram) && c < CLASSES && 0 <= k < |h.free[c]|
    ensures 0 <= h.free[c][k] - h.base < AREA == |ram| && ram[h.free[c][k] - h.base] == Next(h.free[c], k)
    ensures k + 1 < |h.free[c]| ==> h.free[c][k + 1] != NULL
  {
    ThreadedAt(h, ram, c, k);
  }

  lemma BlockSize(h: Heap, ram: seq<int>, a: int)
    requires Links(h, ram) && IsBlock(h.base, a)
    ensures var c := ClassAt(h.base, a);
      && c < CLASSES && IsBlock(h.base, a) && 0 <= a - h.base && a + 4 - h.base < |ram|
      && ram[a + 4 - h.base] == Size(c)
  {
  }

  /** The first n blocks of class c are threaded in address order and carry their size. */
  ghost predicate Carved(base: int, c: nat, n: int, ram: seq<int>) {
    && |ram| == AREA && c < CLASSES && 0 <= n <= Num(c)
    && forall j {:trigger BlockAt(base, c, j)} :: 0 <= j < n ==>
      && ram[BlockAt(base, c, j) - base] == (if j + 1 < n then BlockAt(base, c, j + 1) else NULL)
      && ram[BlockAt(base, c, j) + 4 - base] == Size(c)
  }

  /** The header writes of one round of kzmem_init_pool's loop. */
  function CarveOne(ram: seq<int>, o: int, prev: int, mp: int, size: int): seq<int>
    requires 0 <= o && o + 4 < |ram| && 0 <= prev < |ram|
  {
    ram[prev := mp][o := 0][o + 4 := size]
  }

  lemma CarvedMore(base: int, c: nat, n: int, ram: seq<int>, ram': seq<int>)
    requires Carved(base, c, n, ram) && n < Num(c)
    requires var o := BlockAt(base, c, n) - base;
      ram' == if n == 0 then ram[o := 0][o + 4 := Size(c)]
              else CarveOne(ram, o, BlockAt(base, c, n - 1) - base, BlockAt(base, c, n), Size(c))
    ensures Carved(base, c, n + 1, ram')
    ensures forall o :: 0 <= o < Offset(c) ==> ram'[o] == ram[o]
  {
  }

  lemma CarvedFrame(base: int, c: nat, n: int, ram: seq<int>, ram': seq<int>)
    requires Carved(base, c, n, ram) && |ram'| == AREA
    requires forall o :: 0 <= o < Offset(c + 1) ==> ram'[o] == ram[o]
    requires c + 1 < CLASSES
    ensures Carved(base, c, n, ram')
  {
  }

  // ---------------------------------------------------------------- the code

  class Memory {
    const base: int          // &freearea
    const pool: array<Pool>
    const ram: array<int>    // ram[o] is the word at address base + o
    var area: int            // the static pointer of kzmem_init_pool
    ghost var heap: Heap

    ghost predicate Valid()
      reads this, pool, ram
    {
      0 < base && heap.base == base && Heads(heap, pool[..]) && Links(heap, ram[..])
    }

    constructor (freearea: int)
      requires 0 < freearea
      ensures base == freearea && area == base && fresh(pool) && fresh(ram)
      ensures pool.Length == CLASSES && ram.Length == AREA
      ensures forall i: nat :: i < CLASSES ==> pool[i] == Pool(Size(i), Num(i), NULL)
    {
      base := freearea;
      area := freearea;
      pool := new Pool[CLASSES](i requires 0 <= i < CLASSES => Pool(Size(i), Num(i), NULL));
      ram := new int[AREA];
    }

    /** kzmem_init_pool: carve the next Num(c) blocks off the area and thread them in address order. */
    method InitPool(c: nat)
      requires c < CLASSES && pool.Length == CLASSES && ram.Length == AREA && 0 < base
      requires pool[c] == Pool(Size(c), Num(c), NULL) && area == BlockAt(base, c, 0)
      modifies this`area, pool, ram
      ensures pool[..] == old(pool[..])[c := Pool(Size(c), Num(c), BlockAt(base, c, 0))]
      ensures area == BlockAt(base, c, Num(c)) && Carved(base, c, Num(c), ram[..])
      ensures forall o :: 0 <= o < Offset(c) ==> ram[o] == old(ram[o])
    {
      var mp := area;
      var mpp := NULL;             // where the next link goes: NULL stands for &p->free
      var i := 0;
      while i < pool[c].num
        invariant 0 <= i <= Num(c) && mp == area == BlockAt(base, c, i)
        invariant mpp == if i == 0 then NULL else BlockAt(base, c, i - 1)
        invariant pool[..] == old(pool[..])[c := Pool(Size(c), Num(c), if i == 0 then NULL else BlockAt(base, c, 0))]
        invariant Carved(base, c, i, ram[..])
        invariant forall o :: 0 <= o < Offset(c) ==> ram[..][o] == old(ram[..])[o]
      {
        assert pool[c] == pool[..][c];
        ghost var was := ram[..];
        if mpp == NULL {
          pool[c] := pool[c].(free := mp);
        } else {
          ram[mpp - base] := mp;
        }
        ram[mp - base] := 0;       // memset of the header
        ram[mp + 4 - base] := 0;
        ram[mp + 4 - base] := pool[c].size;
        CarvedMore(base, c, i, was, ram[..]);
        mpp := mp;
        mp := mp + pool[c].size;
        area := area + pool[c].size;
        i := i + 1;
      }
    }

    /** kzmem_init: all blocks free, each list in address order. */
    method Init()
      requires pool.Length == CLASSES && ram.Length == AREA && 0 < base && area == base
      requires forall i :: 0 <= i < CLASSES ==> pool[i] == Pool(Size(i), Num(i), NULL)
      modifies this, pool, ram
      ensures Valid() && heap == Initial(base)
    {
      var c := 0;
      while c < CLASSES
        invariant 0 <= c <= CLASSES && area == if c < CLASSES then BlockAt(base, c, 0) else base + AREA
        invariant forall i :: 0 <= i < CLASSES ==>
          pool[..][i] == Pool(Size(i), Num(i), if i < c then BlockAt(base, i, 0) else NULL)
        invariant forall i :: 0 <= i < c ==> Carved(base, i, Num(i), ram[..])
      {
        ghost var was := ram[..];
        assert pool[c] == pool[..][c];
        InitPool(c);
        forall i | 0 <= i < c ensures Carved(base, i, Num(i), ram[..]) {
          CarvedFrame(base, i, Num(i), was, ram[..]);
        }
        c := c + 1;
      }
      heap := Initial(base);
      InitialLinks(base, ram[..]);
    }

    /** kzmem_alloc: `down` reports kz_sysdown; otherwise p points just after the header. */
    method Alloc(size: int) returns (p: int, down: bool)
      requires Valid()
      modifies this`heap, pool, ram
      ensures Valid() && down == !HasRoom(old(heap), size)
      ensures down ==> heap == old(heap) && ram[..] == old(ram[..])
      ensures !down ==> (heap, p - HEADER) == Pools.Alloc(old(heap), size) && IsBlock(base, p - HEADER)
      ensures !down ==> ram[..] == old(ram[..])[p - HEADER - base := NULL]
      ensures IsInt(size) && !down ==> 0 <= size <= Size(ClassAt(base, p - HEADER)) - HEADER
      ensures IsInt(size) && (size < 0 || size > 56) ==> down
    {
      if IsInt(size) {
        RefusedExactly(size);
        HeapRoom(heap, pool[..], ram[..], size);
      }
      hide Links, IsBlock, ClassAt;
      p, down := NULL, false;
      var i := 0;
      while i < CLASSES
        invariant 0 <= i <= CLASSES && i <= ClassFor(size)
        invariant Valid() && heap == old(heap) && ram[..] == old(ram[..])
      {
        if Unsigned32(size) <= pool[i].size - HEADER {
          assert pool[i] == pool[..][i];
          NullWhenEmpty(heap, ram[..], i);
          if pool[i].free == NULL {
            down := true;
            return;
          }
          var mp := pool[i].free;
          TakeRepresented(heap, pool[..], ram[..], i);
          pool[i] := pool[i].(free := ram[mp - base]);
          ram[mp - base] := NULL;
          heap := Pools.Alloc(heap, size).0;
          p := mp + HEADER;
          return;
        }
        i := i + 1;
      }
      down := true;
    }

    /** kzmem_free of a block: the size word in its header names the pool it goes back to.  Only a live
        block leaves the tables in order; see FreeExactly. */
    method Free(p: int) returns (down: bool)
      requires Valid() && IsBlock(base, p - HEADER)
      modifies this`heap, pool, ram
      ensures !down && (pool[..], ram[..]) == FreeWords(base, old(pool[..]), old(ram[..]), p - HEADER)
      ensures p - HEADER in old(heap).live ==> Valid() && heap == Pools.Free(old(heap), p - HEADER)
    {
      var mp := p - HEADER;
      down := false;
      ghost var c := ClassAt(base, mp);
      BlockSize(heap, ram[..], mp);
      FreeIfLive(heap, pool[..], ram[..], mp);
      hide Links, IsBlock, ClassAt;
      var i := 0;
      while i < CLASSES
        invariant 0 <= i <= c
        invariant Valid() && heap == old(heap) && ram[..] == old(ram[..]) && pool[..] == old(pool[..])
      {
        assert pool[i] == pool[..][i];
        if ram[mp + 4 - base] == pool[i].size {
          ram[mp - base] := pool[i].free;
          pool[i] := pool[i].(free := mp);
          if mp in heap.live {
            heap := Pools.Free(heap, mp);
          }
          return;
        }
        i := i + 1;
      }
      down := true;
    }

    /** A store by the owner of a live block, inside its payload. */
    method Store(p: int, o: int, v: int)
      requires Valid() && p - HEADER in heap.live
      requires 0 <= o && HEADER + o < Size(ClassAt(base, p - HEADER))
      modifies ram
      ensures Valid() && 0 <= p + o - base < AREA
      ensures ram[..] == old(ram[..])[p + o - base := v]
    {
      StoreLinks(heap, ram[..], p - HEADER, HEADER + o, v);
      ram[p + o - base] := v;
    }
  }

  lemma InitialLinks(base: int, ram: seq<int>)
    requires |ram| == AREA
    requires forall i :: 0 <= i < CLASSES ==> Carved(base, i, Num(i), ram)
    ensures Links(Initial(base), ram)
  {
    InitialThreaded(base, ram);
    InitialSizes(base, ram);
  }

  lemma InitialThreaded(base: int, ram: seq<int>)
    requires |ram| == AREA
    requires forall i :: 0 <= i < CLASSES ==> Carved(base, i, Num(i), ram)
    ensures Threaded(Initial(base), ram)
  {
    InitialValid(base);
    hide Valid, Initial, BlockAt;
    var h := Initial(base);
    forall i, k {:trigger Next(h.free[i], k)} | 0 <= i < CLASSES && 0 <= k < |h.free[i]|
      ensures 0 <= h.free[i][k] - h.base < AREA && ram[h.free[i][k] - h.base] == Next(h.free[i], k) {
      assert Carved(base, i, Num(i), ram);
      InitialList(base, i, k);
      InitialBase(base);
    }
    InitialBase(base);
  }

  lemma InitialBase(base: int)
    ensures Initial(base).base == base
    ensures |Initial(base).free| == CLASSES
  {
  }

  lemma InitialList(base: int, i: nat, k: int)
    requires i < CLASSES
    ensures |Initial(base).free[i]| == Num(i)
    ensures 0 <= k < Num(i) ==>
      var f := Initial(base).free[i];
      && f[k] == BlockAt(base, i, k) && base <= f[k] < base + AREA
      && Next(f, k) == if k + 1 < Num(i) then BlockAt(base, i, k + 1) else NULL
  {
  }

  lemma InitialSizes(base: int, ram: seq<int>)
    requires |ram| == AREA
    requires forall i :: 0 <= i < CLASSES ==> Carved(base, i, Num(i), ram)
    ensures Sizes(base, ram)
  {
    forall a | IsBlock(base, a) && a + 4 - base < AREA ensures ram[a + 4 - base] == Size(ClassAt(base, a)) {
      assert Carved(base, ClassAt(base, a), Num(ClassAt(base, a)), ram);
      assert a == BlockAt(base, ClassAt(base, a), IndexOf(base, a));
    }
  }
}
