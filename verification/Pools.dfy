/** The three fixed-size memory pools of software/kozos/memory.c, as a value.

    A block is named by the address of its header; the pointer a caller gets is HEADER bytes
    further on.  Heap records the three free lists and the set of blocks handed out. */
module Pools {
  const NULL: int := 0
  const CLASSES: nat := 3
  const HEADER: int := 8      // sizeof(kzmem_block)
  const AREA: int := 640      // 8 * 16 + 8 * 32 + 4 * 64

  datatype Option<+T> = None | Some(value: T)

  function Size(i: nat): int { if i == 0 then 16 else if i == 1 then 32 else 64 }
  function Num(i: nat): nat { if i < 2 then 8 else 4 }
  function Offset(i: nat): int { if i == 0 then 0 else if i == 1 then 128 else 384 }

  /** The header of the j-th block of class i. */
  function BlockAt(base: int, i: nat, j: int): int {
    base + Offset(i) + (if i == 0 then 16 * j else if i == 1 then 32 * j else 64 * j)
  }

  /** The class whose part of the area an address lies in. */
  function ClassAt(base: int, a: int): (i: nat)
    ensures i < CLASSES
  {
    if a - base < 128 then 0 else if a - base < 384 then 1 else 2
  }

  predicate IsBlock(base: int, a: int) {
    base <= a < base + AREA &&
    (if a - base < 128 then (a - base) % 16 == 0
     else if a - base < 384 then (a - base) % 32 == 0
     else (a - base) % 64 == 0)
  }

  datatype Heap = Heap(base: int, free: seq<seq<int>>, live: set<int>)

  /** The free lists and the live blocks partition the blocks of each class, and no list repeats. */
  ghost predicate Valid(h: Heap) {
    && |h.free| == CLASSES
    && (forall i, k :: 0 <= i < CLASSES && 0 <= k < |h.free[i]| ==>
          IsBlock(h.base, h.free[i][k]) && ClassAt(h.base, h.free[i][k]) == i && h.free[i][k] !in h.live)
    && (forall i, k, l :: 0 <= i < CLASSES && 0 <= k < l < |h.free[i]| ==> h.free[i][k] != h.free[i][l])
    && (forall a :: a in h.live ==> IsBlock(h.base, a))
    && (forall a {:trigger IsBlock(h.base, a)} :: IsBlock(h.base, a) ==> a in h.live || a in h.free[ClassAt(h.base, a)])
  }

  // ---------------------------------------------------------------- operations

  /** Sizes are compared after conversion to a 32-bit unsigned value, because sizeof is unsigned:
      a negative request fits no class. */
  function Unsigned32(size: int): int { size % 0x1_0000_0000 }

  /** The first class the request fits, CLASSES when there is none. */
  function ClassFor(size: int): (i: nat)
    ensures i <= CLASSES
  {
    if Unsigned32(size) <= Size(0) - HEADER then 0
    else if Unsigned32(size) <= Size(1) - HEADER then 1
    else if Unsigned32(size) <= Size(2) - HEADER then 2
    else 3
  }

  /** Whether a request can be met; otherwise the system goes down. */
  predicate HasRoom(h: Heap, size: int) requires |h.free| == CLASSES {
    ClassFor(size) < CLASSES && h.free[ClassFor(size)] != []
  }

  /** Hand out the head of the free list of class c. */
  function Take(h: Heap, c: nat): (Heap, int)
    requires |h.free| == CLASSES && c < CLASSES && h.free[c] != []
  {
    (h.(free := h.free[c := h.free[c][1..]], live := h.live + {h.free[c][0]}), h.free[c][0])
  }

  function Alloc(h: Heap, size: int): (Heap, int)
    requires |h.free| == CLASSES && HasRoom(h, size)
  {
    Take(h, ClassFor(size))
  }

  /** Give a live block back to the front of the free list of its class. */
  function Free(h: Heap, a: int): Heap
    requires |h.free| == CLASSES
  {
    var c := ClassAt(h.base, a);
    h.(free := h.free[c := [a] + h.free[c]], live := h.live - {a})
  }

  /** The heap after kzmem_init. */
  function Initial(base: int): Heap {
    Heap(base, [seq(Num(0), j => BlockAt(base, 0, j)), seq(Num(1), j => BlockAt(base, 1, j)),
                seq(Num(2), j => BlockAt(base, 2, j))], {})
  }

  // ---------------------------------------------------------------- geometry

  lemma BlockAtIsBlock(base: int, i: nat, j: int)
    requires i < CLASSES && 0 <= j < Num(i)
    ensures IsBlock(base, BlockAt(base, i, j)) && ClassAt(base, BlockAt(base, i, j)) == i
  {
  }

  /** The inverse of BlockAt. */
  function IndexOf(base: int, a: int): (j: int)
    requires IsBlock(base, a)
    ensures 0 <= j < Num(ClassAt(base, a)) && BlockAt(base, ClassAt(base, a), j) == a
  {
    if a - base < 128 then (a - base) / 16 else if a - base < 384 then (a - base - 128) / 32 else (a - base - 384) / 64
  }

  /** Two different blocks never share a byte. */
  lemma BlocksApart(base: int, a: int, b: int)
    requires IsBlock(base, a) && IsBlock(base, b) && a != b
    ensures a + Size(ClassAt(base, a)) <= b || b + Size(ClassAt(base, b)) <= a
  {
    var i, j := IndexOf(base, a), IndexOf(base, b);
  }

  lemma BlockInside(base: int, a: int)
    requires IsBlock(base, a)
    ensures base <= a && a + Size(ClassAt(base, a)) <= base + AREA
  {
  }

  /** The block the byte at x lies in. */
  function Locate(base: int, x: int): (a: int)
    requires base <= x < base + AREA
    ensures IsBlock(base, a) && a <= x < a + Size(ClassAt(base, a))
  {
    var s := Size(ClassAt(base, x));
    if x - base < 128 then base + (x - base) / 16 * 16
    else if x - base < 384 then base + (x - base) / 32 * 32
    else base + (x - base) / 64 * 64
  }

  // ---------------------------------------------------------------- preservation

  lemma InitialValid(base: int)
    ensures Valid(Initial(base))
  {
    var h := Initial(base);
    forall a | IsBlock(base, a) ensures a in h.free[ClassAt(base, a)] {
      assert h.free[ClassAt(base, a)][IndexOf(base, a)] == a;
    }
  }

  lemma TakeValid(h: Heap, c: nat)
    requires Valid(h) && c < CLASSES && h.free[c] != []
    ensures var (h', a) := Take(h, c);
            Valid(h') && a !in h.live && IsBlock(h.base, a) && ClassAt(h.base, a) == c
  {
  }

  lemma AllocValid(h: Heap, size: int)
    requires Valid(h) && HasRoom(h, size)
    ensures var (h', a) := Alloc(h, size);
            Valid(h') && a !in h.live && IsBlock(h.base, a) && ClassAt(h.base, a) == ClassFor(size)
  {
  }

  lemma FreeValid(h: Heap, a: int)
    requires Valid(h) && a in h.live
    ensures Valid(Free(h, a))
  {
  }

  // ---------------------------------------------------------------- every run

  datatype Op = DoAlloc(size: int) | DoFree(a: int)

  /** The heap a history of calls leaves, None when some call brings the system down or frees a
      block that is not live. */
  ghost function After(base: int, ops: seq<Op>): (r: Option<Heap>)
    ensures r.Some? ==> Valid(r.value) && r.value.base == base
  {
    if ops == [] then InitialValid(base); Some(Initial(base))
    else
      var r := After(base, ops[..|ops| - 1]);
      if r.None? then None
      else match ops[|ops| - 1]
        case DoAlloc(size) =>
          if HasRoom(r.value, size) then AllocValid(r.value, size); Some(Alloc(r.value, size).0) else None
        case DoFree(a) =>
          if a in r.value.live then FreeValid(r.value, a); Some(Free(r.value, a)) else None
  }

  predicate Covers(base: int, a: int, x: int) {
    IsBlock(base, a) && a <= x < a + Size(ClassAt(base, a))
  }

  /** After any history of calls, every byte of the area lies in exactly one block, and that block
      is either live or at exactly one position of the free list of its own class, never both. */
  lemma PartitionEveryRun(base: int, ops: seq<Op>, x: int)
    requires After(base, ops).Some? && base <= x < base + AREA
    ensures var h := After(base, ops).value;
      exists a ::
        && Covers(base, a, x)
        && (forall b :: Covers(base, b, x) ==> b == a)
        && ((a in h.live) != (a in h.free[ClassAt(base, a)]))
        && (forall k :: 0 <= k < CLASSES && k != ClassAt(base, a) ==> a !in h.free[k])
        && (forall m, n :: 0 <= m < n < |h.free[ClassAt(base, a)]| && h.free[ClassAt(base, a)][m] == a ==>
              h.free[ClassAt(base, a)][n] != a)
  {
    var h := After(base, ops).value;
    var a := Locate(base, x);
    assert Covers(base, a, x);
    forall b | Covers(base, b, x) ensures b == a {
      if b != a { BlocksApart(base, a, b); }
    }
  }

  /** A C int. */
  predicate IsInt(size: int) { -0x8000_0000 <= size < 0x8000_0000 }

  /** What a block must hold for the caller: the size asked for, behind the header, and no smaller
      class does. */
  lemma AllocRoom(h: Heap, size: int)
    requires Valid(h) && HasRoom(h, size) && IsInt(size)
    ensures var c := ClassAt(h.base, Alloc(h, size).1);
      && c < CLASSES && 0 <= size <= Size(c) - HEADER
      && forall k: nat :: k < c ==> size > Size(k) - HEADER
  {
    AllocValid(h, size);
  }

  /** A request is served from the smallest class that fits it, inside the area, by a block that
      shares no byte with any block already live. */
  lemma AllocFresh(base: int, ops: seq<Op>, size: int)
    requires After(base, ops).Some? && HasRoom(After(base, ops).value, size)
    ensures var h := After(base, ops).value;
      var a := Alloc(h, size).1;
      var s := Size(ClassAt(base, a));
      && (IsInt(size) ==> 0 <= size <= s - HEADER)
      && (IsInt(size) ==> forall k: nat :: k < CLASSES && size <= Size(k) - HEADER ==> s <= Size(k))
      && base <= a && a + s <= base + AREA
      && (forall b :: b in h.live ==> a + s <= b || b + Size(ClassAt(base, b)) <= a)
  {
    var h := After(base, ops).value;
    AllocValid(h, size);
    if IsInt(size) { AllocRoom(h, size); }
    var a := Alloc(h, size).1;
    BlockInside(base, a);
    forall b | b in h.live ensures a + Size(ClassAt(base, a)) <= b || b + Size(ClassAt(base, b)) <= a {
      BlocksApart(base, a, b);
    }
  }

  /** A request is refused whatever is free if and only if it is negative or above 56 bytes. */
  lemma RefusedExactly(size: int)
    requires IsInt(size)
    ensures (forall h: Heap :: |h.free| == CLASSES ==> !HasRoom(h, size)) <==> size < 0 || size > 56
  {
    if 0 <= size <= 56 {
      var h := Initial(0);
      assert HasRoom(h, size);
    }
  }

  /** Where the blocks lie: eight of 16 bytes, eight of 32, four of 64, each with a header of 8. */
  lemma Geometry(base: int)
    ensures HEADER == 8
    ensures forall i :: 0 <= i < CLASSES ==> Size(i) == [16, 32, 64][i] && Num(i) == [8, 8, 4][i]
    ensures Initial(base).free == [seq(8, j => base + 16 * j), seq(8, j => base + 128 + 32 * j),
                                   seq(4, j => base + 384 + 64 * j)]
  {
    var f := Initial(base).free;
    assert f[0] == seq(8, j => base + 16 * j);
    assert f[1] == seq(8, j => base + 128 + 32 * j);
    assert f[2] == seq(4, j => base + 384 + 64 * j);
  }

  // ---------------------------------------------------------------- counting

  function LiveOf(h: Heap, i: nat): set<int> {
    set a | a in h.live && ClassAt(h.base, a) == i
  }

  lemma {:induction false} DistinctCount(s: seq<int>)
    requires forall k, l :: 0 <= k < l < |s| ==> s[k] != s[l]
    ensures |set x | x in s| == |s|
  {
    if s != [] {
      var r := s[..|s| - 1];
      DistinctCount(r);
      assert (set x | x in s) == (set x | x in r) + {s[|s| - 1]};
    }
  }

  /** Blocks of a class are neither made nor lost. */
  lemma Conservation(h: Heap, i: nat)
    requires Valid(h) && i < CLASSES
    ensures |h.free[i]| + |LiveOf(h, i)| == Num(i)
  {
    var f := set x | x in h.free[i];
    DistinctCount(h.free[i]);
    BlocksOfClass(h.base, i);
    hide BlockAt;
    assert Blocks(h.base, i) == f + LiveOf(h, i) by {
      forall x | IsBlock(h.base, x) && ClassAt(h.base, x) == i ensures x in f + LiveOf(h, i) {}
    }
    assert f !! LiveOf(h, i);
  }

  /** The addresses of the blocks of a class. */
  function Blocks(base: int, i: nat): set<int> requires i < CLASSES {
    set j | 0 <= j < Num(i) :: BlockAt(base, i, j)
  }

  lemma BlocksOfClass(base: int, i: nat)
    requires i < CLASSES
    ensures |Blocks(base, i)| == Num(i)
    ensures forall x :: x in Blocks(base, i) <==> IsBlock(base, x) && ClassAt(base, x) == i
  {
    var all := seq(Num(i), j => BlockAt(base, i, j));
    DistinctCount(all);
    forall x ensures x in all <==> IsBlock(base, x) && ClassAt(base, x) == i {
      if x in all {
        var j :| 0 <= j < |all| && all[j] == x;
        BlockAtIsBlock(base, i, j);
      }
      if IsBlock(base, x) && ClassAt(base, x) == i { assert all[IndexOf(base, x)] == x; }
    }
    forall x ensures x in all <==> x in Blocks(base, i) {
      if x in all { var j :| 0 <= j < |all| && all[j] == x; }
      if x in Blocks(base, i) { var j :| 0 <= j < Num(i) && BlockAt(base, i, j) == x; assert all[j] == x; }
    }
    assert (set x | x in all) == Blocks(base, i);
  }
}
