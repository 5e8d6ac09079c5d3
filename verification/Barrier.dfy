/** The start barrier of bsp/include/sifive/smp.h as bsp/env/start.S uses it: hart 0 prepares memory
    while the others wait for an inter-processor interrupt, then all of them meet.

    One step is one access of one hart to a shared word, or one store of hart 0's preparation; the
    harts interleave in any order.  There are `harts` harts and `maxHarts` MSIP words; the word of an
    absent hart stays 0. */
module Barrier {
  // ---------------------------------------------------------------- hart 0's work

  /** The linker's symbols; addresses count words of memory. */
  datatype Layout = Layout(dataLma: nat, data: nat, edata: nat, bss: nat, end: nat) {
    function Copies(): nat { if data < edata then edata - data else 0 }
    function Clears(): nat { if bss < end then end - bss else 0 }
    function Stores(): nat { Copies() + Clears() }

    /** The sections lie in memory, bss behind data, and the load image apart from data. */
    predicate Ok(size: nat) {
      && dataLma + Copies() <= size && edata <= size && end <= size && edata <= bss
      && (edata <= dataLma || dataLma + Copies() <= data)
    }
  }

  /** Memory m after the first k stores: the words of data from the load image, then zeros in bss. */
  function Prepared(l: Layout, m: seq<int>, k: nat): (r: seq<int>)
    requires l.Ok(|m|)
    ensures |r| == |m|
  {
    seq(|m|, a requires 0 <= a < |m| =>
      if l.bss <= a < l.end && l.Copies() + (a - l.bss) < k then 0
      else if l.data <= a < l.edata && a - l.data < k then m[l.dataLma + (a - l.data)]
      else m[a])
  }

  /** Store number k. */
  function Store(l: Layout, m: seq<int>, k: nat): (r: seq<int>)
    requires l.Ok(|m|) && k < l.Stores()
    ensures |r| == |m|
  {
    if k < l.Copies() then m[l.data + k := m[l.dataLma + k]] else m[l.bss + (k - l.Copies()) := 0]
  }

  lemma StoreMore(l: Layout, m: seq<int>, k: nat)
    requires l.Ok(|m|) && k < l.Stores()
    ensures Store(l, Prepared(l, m, k), k) == Prepared(l, m, k + 1)
  {
  }

  /** What hart 0 prepares: data is its load image, bss is zero, and nothing else has changed. */
  lemma PreparedIs(l: Layout, m: seq<int>, a: nat)
    requires l.Ok(|m|) && a < |m|
    ensures Prepared(l, m, l.Stores())[a] ==
      if l.bss <= a < l.end then 0 else if l.data <= a < l.edata then m[l.dataLma + (a - l.data)] else m[a]
  {
  }

  /** The data copy and the bss clear between pause and resume. */
  method Prepare(mem: array<int>, l: Layout)
    requires l.Ok(mem.Length)
    modifies mem
    ensures mem[..] == Prepared(l, old(mem[..]), l.Stores())
  {
    hide Prepared, Store;
    ghost var m := mem[..];
    ghost var k := 0;
    assert mem[..] == Prepared(l, m, 0) by { NothingStored(l, m); }
    var a0, a1 := l.dataLma, l.data;
    if a1 < l.edata {
      while a1 < l.edata
        invariant l.data <= a1 <= l.edata && a0 == l.dataLma + k && a1 == l.data + k
        invariant mem[..] == Prepared(l, m, k)
      {
        StoreMore(l, m, k);
        StoreIs(l, mem[..], k);
        mem[a1] := mem[a0];
        k := k + 1;
        a0 := a0 + 1;
        a1 := a1 + 1;
      }
    }
    a0 := l.bss;
    while a0 < l.end
      invariant l.bss <= a0 && (a0 <= l.end || k == l.Copies()) && k == l.Copies() + (a0 - l.bss)
      invariant mem[..] == Prepared(l, m, k)
    {
      StoreMore(l, m, k);
      StoreIs(l, mem[..], k);
      mem[a0] := 0;
      k := k + 1;
      a0 := a0 + 1;
    }
  }

  lemma NothingStored(l: Layout, m: seq<int>)
    requires l.Ok(|m|)
    ensures Prepared(l, m, 0) == m
  {
  }

  lemma StoreIs(l: Layout, m: seq<int>, k: nat)
    requires l.Ok(|m|) && k < l.Stores()
    ensures Store(l, m, k) ==
      if k < l.Copies() then m[l.data + k := m[l.dataLma + k]] else m[l.bss + (k - l.Copies()) := 0]
  {
  }

  // ---------------------------------------------------------------- the harts

  /** Where a hart is: hart 0 is about to make store k of its work, then sets every word; all harts
      sleep until their own word is set, clear it, and poll every word until it is 0. */
  datatype Pc = Work(k: nat) | Setting(i: nat) | Asleep | Clearing | Polling(i: nat) | Out

  /** start is what memory held at reset (history). */
  datatype State = State(words: seq<int>, pcs: seq<Pc>, layout: Layout, mem: seq<int>, start: seq<int>)

  predicate Sizes(s: State) {
    && 0 < |s.pcs| <= |s.words| && |s.mem| == |s.start| && s.layout.Ok(|s.mem|)
    && forall h {:trigger s.pcs[h]} :: 0 <= h < |s.pcs| && (s.pcs[h].Setting? || s.pcs[h].Polling?) ==>
         s.pcs[h].i < |s.words|
  }

  // ---------------------------------------------------------------- the protocol

  function Step(s: State, h: nat): (r: State)
    requires Sizes(s) && h < |s.pcs|
    ensures Sizes(r) && |r.pcs| == |s.pcs| && |r.words| == |s.words| && r.layout == s.layout && r.start == s.start
  {
    match s.pcs[h]
    case Work(k) =>
      if k < s.layout.Stores() then s.(mem := Store(s.layout, s.mem, k), pcs := s.pcs[h := Work(k + 1)])
      else s.(pcs := s.pcs[h := Setting(0)])
    case Setting(i) =>
      s.(words := if i < |s.pcs| then s.words[i := 1] else s.words,
         pcs := s.pcs[h := if i + 1 < |s.words| then Setting(i + 1) else Asleep])
    case Asleep => if s.words[h] == 0 then s else s.(pcs := s.pcs[h := Clearing])
    case Clearing => s.(words := s.words[h := 0], pcs := s.pcs[h := Polling(0)])
    case Polling(i) =>
      if s.words[i] != 0 then s
      else s.(pcs := s.pcs[h := if i + 1 < |s.words| then Polling(i + 1) else Out])
    case Out => s
  }

  // ---------------------------------------------------------------- the invariant

  /** Hart h has been woken and has cleared its own word. */
  predicate Cleared(s: State, h: int) requires 0 <= h < |s.pcs| { s.pcs[h].Polling? || s.pcs[h].Out? }

  /** How many words hart 0 has set. */
  function SetCount(s: State): nat requires Sizes(s) {
    match s.pcs[0]
    case Work(_) => 0
    case Setting(i) => i
    case _ => |s.words|
  }

  /** Harts whose word is not set yet sleep; only hart 0 works and sets. */
  ghost predicate Ordered(s: State) requires Sizes(s) {
    forall h {:trigger s.pcs[h]} :: 0 < h < |s.pcs| ==>
      !s.pcs[h].Work? && !s.pcs[h].Setting? && (h >= SetCount(s) ==> s.pcs[h].Asleep?)
  }

  /** A word is 1 from when it is set until its hart clears it. */
  ghost predicate WordsOk(s: State) requires Sizes(s) {
    forall k {:trigger s.words[k]} :: 0 <= k < |s.words| ==>
      s.words[k] == if k < |s.pcs| && k < SetCount(s) && !Cleared(s, k) then 1 else 0
  }

  /** The harts below n have all cleared their words. */
  ghost predicate AllCleared(s: State, n: int) requires Sizes(s) {
    forall k {:trigger Cleared(s, k)} :: 0 <= k < n && k < |s.pcs| ==> Cleared(s, k)
  }

  /** A hart that polls word i has seen the harts before i clear theirs; one that is out has seen all. */
  ghost predicate Seen(s: State, h: int) requires Sizes(s) && 0 <= h < |s.pcs| {
    match s.pcs[h]
    case Polling(i) => AllCleared(s, i)
    case Out => AllCleared(s, |s.words|)
    case _ => true
  }

  /** Memory holds what hart 0's stores have made of it. */
  ghost predicate MemoryOk(s: State) requires Sizes(s) {
    && (s.pcs[0].Work? ==> s.pcs[0].k <= s.layout.Stores())
    && s.mem == Prepared(s.layout, s.start, if s.pcs[0].Work? then s.pcs[0].k else s.layout.Stores())
  }

  ghost predicate Inv(s: State) {
    Sizes(s) && Ordered(s) && WordsOk(s) && MemoryOk(s) && forall h :: 0 <= h < |s.pcs| ==> Seen(s, h)
  }

  /** Reset: no interrupt is pending; smp_pause sends every hart but 0 to sleep. */
  ghost function Reset(harts: nat, maxHarts: nat, l: Layout, m: seq<int>): (s: State)
    requires 0 < harts <= maxHarts && l.Ok(|m|)
    ensures Inv(s) && |s.pcs| == harts && |s.words| == maxHarts && s.layout == l && s.start == m
  {
    hide Prepared;
    NothingStored(l, m);
    State(seq(maxHarts, _ => 0), seq(harts, h => if h == 0 then Work(0) else Asleep), l, m, m)
  }

  /** Reading 0 from word i while polling means that hart i has cleared it: word 0 is set before
      any hart wakes, and stays set until all words have been set. */
  lemma PolledZero(s: State, h: nat)
    requires Inv(s) && h < |s.pcs| && s.pcs[h].Polling? && s.words[s.pcs[h].i] == 0
    ensures AllCleared(s, s.pcs[h].i + 1)
  {
    var i := s.pcs[h].i;
    assert Seen(s, h);
    if i == 0 {
      assert h == 0 || h < SetCount(s);
    } else {
      assert Cleared(s, 0);
    }
  }

  lemma StepKeeps(s: State, h: nat)
    requires Inv(s) && h < |s.pcs|
    ensures Inv(Step(s, h))
  {
    hide Prepared, Store, Layout.Stores, MemoryOk;
    assert Seen(s, h);
    var r := Step(s, h);
    StepStores(s, h);
    assert forall k :: 0 <= k < |s.pcs| && k != h ==> r.pcs[k] == s.pcs[k];
    assert SetCount(r) == (if s.pcs[h].Setting? then s.pcs[h].i + 1 else SetCount(s));
    assert Ordered(r);
    assert WordsOk(r);
    if s.pcs[h].Polling? && s.words[s.pcs[h].i] == 0 { PolledZero(s, h); }
    forall k | 0 <= k < |r.pcs| ensures Seen(r, k) {
      assert Seen(s, k);
      ClearedStays(s, h, if k != h && s.pcs[k].Polling? then s.pcs[k].i else |s.words|);
      if k == h && s.pcs[h].Polling? { ClearedStays(s, h, s.pcs[h].i + 1); }
    }
  }

  lemma StepStores(s: State, h: nat)
    requires Inv(s) && h < |s.pcs|
    ensures MemoryOk(Step(s, h))
  {
    hide Prepared, Store, Layout.Stores, WordsOk;
    if s.pcs[h].Work? && s.pcs[h].k < s.layout.Stores() { StoreMore(s.layout, s.start, s.pcs[h].k); }
  }

  lemma ClearedStays(s: State, h: nat, n: int)
    requires Inv(s) && h < |s.pcs|
    ensures Seen(s, h) && (AllCleared(s, n) ==> AllCleared(Step(s, h), n))
  {
    assert Seen(s, h);
    forall k | 0 <= k < |s.pcs| && Cleared(s, k) ensures Cleared(Step(s, h), k) {}
  }

  ghost function Run(s: State, schedule: seq<nat>): (r: State)
    requires Inv(s) && forall i :: 0 <= i < |schedule| ==> schedule[i] < |s.pcs|
    ensures Inv(r) && |r.pcs| == |s.pcs| && |r.words| == |s.words| && r.layout == s.layout && r.start == s.start
    decreases |schedule|
  {
    if schedule == [] then s
    else StepKeeps(s, schedule[0]); Run(Step(s, schedule[0]), schedule[1..])
  }

  /** Barrier safety, for any number of harts and any interleaving: when some hart is out, memory is
      what hart 0 was to prepare, and every hart has been woken and has cleared its own word. */
  lemma Safety(harts: nat, maxHarts: nat, l: Layout, m: seq<int>, schedule: seq<nat>, h: nat)
    requires 0 < harts <= maxHarts && h < harts && l.Ok(|m|)
    requires forall i :: 0 <= i < |schedule| ==> schedule[i] < harts
    requires Run(Reset(harts, maxHarts, l, m), schedule).pcs[h].Out?
    ensures var r := Run(Reset(harts, maxHarts, l, m), schedule);
      && r.mem == Prepared(l, m, l.Stores())
      && (forall k :: 0 <= k < harts ==> Cleared(r, k))
      && (forall k :: 0 <= k < maxHarts ==> r.words[k] == 0)
  {
    hide Run, Inv, Reset, Prepared, Layout.Stores;
    OutMeansAll(Run(Reset(harts, maxHarts, l, m), schedule), h);
  }

  lemma OutMeansAll(r: State, h: nat)
    requires Inv(r) && h < |r.pcs| && r.pcs[h].Out?
    ensures r.mem == Prepared(r.layout, r.start, r.layout.Stores())
    ensures forall k :: 0 <= k < |r.pcs| ==> Cleared(r, k)
    ensures forall k :: 0 <= k < |r.words| ==> r.words[k] == 0
  {
    hide Prepared, Layout.Stores;
    assert Seen(r, h);
    assert Cleared(r, 0);
  }

  // ---------------------------------------------------------------- completion

  /** The steps a hart at pc still has to make. */
  function Rank(pc: Pc, words: nat, stores: nat): int {
    match pc
    case Work(k) => 2 * words + 3 + stores - k
    case Setting(i) => 2 * words + 2 - i
    case Asleep => words + 2
    case Clearing => words + 1
    case Polling(i) => words - i
    case Out => 0
  }

  function Total(pcs: seq<Pc>, words: nat, stores: nat): int {
    if pcs == [] then 0 else Total(pcs[..|pcs| - 1], words, stores) + Rank(pcs[|pcs| - 1], words, stores)
  }

  /** The steps all harts still have to make. */
  function Left(s: State): int { Total(s.pcs, |s.words|, s.layout.Stores()) }

  lemma {:induction false} TotalUpdate(pcs: seq<Pc>, h: nat, pc: Pc, words: nat, stores: nat)
    requires h < |pcs|
    ensures Total(pcs[h := pc], words, stores) ==
      Total(pcs, words, stores) - Rank(pcs[h], words, stores) + Rank(pc, words, stores)
  {
    var n := |pcs| - 1;
    if h < n {
      TotalUpdate(pcs[..n], h, pc, words, stores);
      assert pcs[h := pc][..n] == pcs[..n][h := pc];
    } else {
      assert pcs[h := pc][..n] == pcs[..n];
    }
  }

  lemma StepCounts(s: State, h: nat)
    requires Inv(s) && h < |s.pcs|
    ensures Step(s, h) == s || Left(Step(s, h)) == Left(s) - 1
  {
    TotalUpdate(s.pcs, h, Step(s, h).pcs[h], |s.words|, s.layout.Stores());
    assert s.pcs[h := s.pcs[h]] == s.pcs;
    assert Step(s, h).pcs == s.pcs[h := Step(s, h).pcs[h]];
  }

  /** The steps of a schedule that are not spins. */
  ghost function Moves(s: State, schedule: seq<nat>): nat
    requires Inv(s) && forall i :: 0 <= i < |schedule| ==> schedule[i] < |s.pcs|
    decreases |schedule|
  {
    if schedule == [] then 0
    else
      StepKeeps(s, schedule[0]);
      (if Step(s, schedule[0]) == s then 0 else 1) + Moves(Step(s, schedule[0]), schedule[1..])
  }

  /** Every step that is not a spin brings the harts one step nearer to the end, so no schedule
      has more of them than the start has steps left. */
  lemma {:induction false} MovesBounded(s: State, schedule: seq<nat>)
    requires Inv(s) && forall i :: 0 <= i < |schedule| ==> schedule[i] < |s.pcs|
    ensures Moves(s, schedule) + Left(Run(s, schedule)) == Left(s)
    decreases |schedule|
  {
    if schedule != [] {
      StepKeeps(s, schedule[0]);
      StepCounts(s, schedule[0]);
      MovesBounded(Step(s, schedule[0]), schedule[1..]);
    }
  }

  /** No deadlock: unless all harts are out, some hart can move. */
  lemma NoDeadlock(s: State)
    requires Inv(s) && exists h :: 0 <= h < |s.pcs| && !s.pcs[h].Out?
    ensures exists h: nat :: h < |s.pcs| && Step(s, h) != s
  {
    if s.pcs[0].Work? || s.pcs[0].Setting? {
      assert Step(s, 0).pcs[0] != s.pcs[0];
    } else if h: nat :| h < |s.pcs| && s.pcs[h].Asleep? {
      assert s.words[h] == 1;
      assert Step(s, h).pcs[h] != s.pcs[h];
    } else if h: nat :| h < |s.pcs| && s.pcs[h].Clearing? {
      assert Step(s, h).pcs[h] != s.pcs[h];
    } else {
      var h: nat :| h < |s.pcs| && !s.pcs[h].Out?;
      assert s.pcs[h].Polling?;
      forall k | 0 <= k < |s.pcs| ensures Cleared(s, k) { assert !s.pcs[k].Asleep? && !s.pcs[k].Clearing?; }
      assert s.words[s.pcs[h].i] == 0;
      assert Step(s, h).pcs[h] != s.pcs[h];
    }
  }

  // ---------------------------------------------------------------- fair schedules

  ghost predicate AllOut(s: State) { forall h :: 0 <= h < |s.pcs| ==> s.pcs[h].Out? }

  ghost predicate Of(harts: nat, schedule: seq<nat>) { forall i :: 0 <= i < |schedule| ==> schedule[i] < harts }

  /** Every hart has a turn. */
  ghost predicate Round(harts: nat, round: seq<nat>) {
    Of(harts, round) && forall h: nat :: h < harts ==> h in round
  }

  /** A hart that can move moves in its turn, or another one moves before. */
  lemma {:induction false} TurnMoves(s: State, schedule: seq<nat>, h: nat)
    requires Inv(s) && Of(|s.pcs|, schedule) && h < |s.pcs| && Step(s, h) != s && h in schedule
    ensures Left(Run(s, schedule)) < Left(s)
    decreases |schedule|
  {
    hide Step, Ordered, WordsOk, MemoryOk, Seen, Left;
    StepKeeps(s, schedule[0]);
    var r := Step(s, schedule[0]);
    if r == s {
      TurnMoves(s, schedule[1..], h);
    } else {
      StepCounts(s, schedule[0]);
      MovesBounded(r, schedule[1..]);
    }
  }

  lemma {:induction false} TotalPositive(pcs: seq<Pc>, words: nat, stores: nat, h: nat)
    requires h < |pcs| && forall k :: 0 <= k < |pcs| ==> Rank(pcs[k], words, stores) >= if k == h then 1 else 0
    ensures Total(pcs, words, stores) > 0
  {
    var n := |pcs| - 1;
    if h < n { TotalPositive(pcs[..n], words, stores, h); } else { TotalNatural(pcs[..n], words, stores); }
  }

  lemma {:induction false} TotalNatural(pcs: seq<Pc>, words: nat, stores: nat)
    requires forall k :: 0 <= k < |pcs| ==> Rank(pcs[k], words, stores) >= 0
    ensures Total(pcs, words, stores) >= 0
  {
    if pcs != [] { TotalNatural(pcs[..|pcs| - 1], words, stores); }
  }

  lemma StepsLeft(s: State)
    requires Inv(s) && !AllOut(s)
    ensures Left(s) > 0
  {
    hide Layout.Stores, Prepared, WordsOk;
    var h :| 0 <= h < |s.pcs| && !s.pcs[h].Out?;
    TotalPositive(s.pcs, |s.words|, s.layout.Stores(), h);
  }

  /** All rounds, one after another. */
  ghost function Rounds(s: State, rounds: seq<seq<nat>>): (r: State)
    requires Inv(s) && forall i :: 0 <= i < |rounds| ==> Round(|s.pcs|, rounds[i])
    ensures Inv(r) && |r.pcs| == |s.pcs|
    decreases |rounds|
  {
    if rounds == [] then s else assert Round(|s.pcs|, rounds[0]); Rounds(Run(s, rounds[0]), rounds[1..])
  }

  lemma {:induction false} OutStays(s: State, schedule: seq<nat>)
    requires Inv(s) && Of(|s.pcs|, schedule) && AllOut(s)
    ensures Run(s, schedule) == s
    decreases |schedule|
  {
    if schedule != [] { OutStays(s, schedule[1..]); }
  }

  /** Under a fair schedule the barrier opens: after as many rounds as steps are left, in each of which
      every hart has a turn, all harts are out. */
  lemma {:induction false} Completes(s: State, rounds: seq<seq<nat>>)
    requires Inv(s) && |rounds| >= Left(s) && forall i :: 0 <= i < |rounds| ==> Round(|s.pcs|, rounds[i])
    ensures AllOut(Rounds(s, rounds))
    decreases |rounds|
  {
    hide Step, Ordered, WordsOk, MemoryOk, Seen, Left, Run;
    if AllOut(s) {
      AllStayOut(s, rounds);
    } else {
      StepsLeft(s);
      NoDeadlock(s);
      var h: nat :| h < |s.pcs| && Step(s, h) != s;
      TurnMoves(s, rounds[0], h);
      Completes(Run(s, rounds[0]), rounds[1..]);
    }
  }

  /** Once all are out they stay out. */
  lemma {:induction false} AllStayOut(s: State, rounds: seq<seq<nat>>)
    requires Inv(s) && AllOut(s) && forall i :: 0 <= i < |rounds| ==> Round(|s.pcs|, rounds[i])
    ensures Rounds(s, rounds) == s
    decreases |rounds|
  {
    hide Step, Ordered, WordsOk, MemoryOk, Seen, Run;
    if rounds != [] {
      OutStays(s, rounds[0]);
      AllStayOut(s, rounds[1..]);
    }
  }
}
