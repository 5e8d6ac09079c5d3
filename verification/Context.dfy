/** Saving and restoring thread contexts: TRAP_ENTRY of software/kozos/intr.S, dispatch of
    software/kozos/startup.s, and the initial frame thread_run builds.

    Memory holds one word at each word address.  Register x0 reads as 0. */
module Context {
  type Mem = map<int, int>

  const REGS: nat := 32
  const FRAME: int := 136      // 34 words: x0..x31, mstatus, pc
  const PC: int := 132         // the word of the saved pc
  const NEWFRAME: int := 140   // thread_run pushes one word more

  function Get(m: Mem, a: int): int { if a in m then m[a] else 0 }

  /** The stores of registers x1, x3, ..., xn into a frame at sp. */
  function Saves(m: Mem, sp: int, x: seq<int>, n: nat): Mem
    requires n < |x|
  {
    if n == 0 then m
    else if n == 2 then Saves(m, sp, x, 1)
    else Saves(m, sp, x, n - 1)[sp + 4 * n := x[n]]
  }

  /** The registers dispatch loads from a frame at sp; x2 is what sp becomes. */
  function Loads(m: Mem, sp: int): (x: seq<int>)
    ensures |x| == REGS
  {
    seq(REGS, i => if i == 0 then 0 else if i == 2 then sp + FRAME else Get(m, sp + 4 * i))
  }

  /** What TRAP_ENTRY leaves in memory: the frame below the trapped sp, and the address of the
      frame on the interrupt stack. */
  function TrapMem(m: Mem, x: seq<int>, mepc: int, intrstack: int): Mem
    requires |x| == REGS
  {
    Saves(m, x[2] - FRAME, x, 31)[x[2] - FRAME + PC := mepc][intrstack - 4 := x[2] - FRAME]
  }

  lemma {:induction false} SavesAt(m: Mem, sp: int, x: seq<int>, n: nat, a: int)
    requires n < |x|
    ensures Get(Saves(m, sp, x, n), a) ==
      if exists i :: 1 <= i <= n && i != 2 && a == sp + 4 * i then x[(a - sp) / 4] else Get(m, a)
  {
    if n == 2 {
      SavesAt(m, sp, x, 1, a);
    } else if n > 0 {
      SavesAt(m, sp, x, n - 1, a);
    }
  }

  /** The frame a trap saves restores every register and the pc; nothing outside the frame and the
      word on the interrupt stack changes. */
  lemma TrapRestores(m: Mem, x: seq<int>, mepc: int, intrstack: int)
    requires |x| == REGS && x[0] == 0 && !(x[2] - FRAME <= intrstack - 4 < x[2])
    ensures var sp := x[2] - FRAME;
      var r := TrapMem(m, x, mepc, intrstack);
      && Loads(r, sp) == x && Get(r, sp + PC) == mepc
      && (forall i :: 1 <= i < REGS && i != 2 ==> Get(r, sp + 4 * i) == x[i]) && Get(r, intrstack - 4) == x[2] - 136
      && (forall a {:trigger Get(r, a)} :: !(sp <= a < sp + FRAME) && a != intrstack - 4 ==> Get(r, a) == Get(m, a))
  {
    var sp := x[2] - FRAME;
    var r := TrapMem(m, x, mepc, intrstack);
    forall i | 0 <= i < REGS ensures Loads(r, sp)[i] == x[i] {
      SavesAt(m, sp, x, 31, sp + 4 * i);
    }
    forall a {:trigger Get(r, a)} | !(sp <= a < sp + FRAME) && a != intrstack - 4 ensures Get(r, a) == Get(m, a) {
      SavesAt(m, sp, x, 31, a);
    }
  }

  ghost predicate SameOutside(m: Mem, r: Mem, lo: int, hi: int) {
    forall a {:trigger Get(r, a)} {:trigger Get(m, a)} :: !(lo <= a < hi) ==> Get(r, a) == Get(m, a)
  }

  // ---------------------------------------------------------------- the code

  class Cpu {
    const x: array<int>
    var pc: int
    var mepc: int
    var mem: Mem

    ghost predicate Valid() reads this, x { x.Length == REGS && x[0] == 0 }

    constructor (m: Mem)
      ensures Valid() && mem == m && fresh(x)
    {
      x := new int[REGS](_ => 0);
      mem := m;
    }

    method Sw(r: nat, a: int)
      requires Valid() && r < REGS
      modifies this`mem
      ensures mem == old(mem)[a := x[r]]
    {
      mem := mem[a := x[r]];
    }

    /** TRAP_ENTRY.  The macro is the loop unrolled. */
    method TrapEntry(intrstack: int)
      requires Valid()
      modifies this`mem, x
      ensures Valid() && mem == TrapMem(old(mem), old(x[..]), mepc, intrstack)
      ensures x[10] == old(x[2]) - FRAME && x[2] == intrstack - 4
    {
      ghost var was, m := x[..], mem;
      x[2] := x[2] - FRAME;
      var i := 1;
      while i < REGS
        invariant 1 <= i <= REGS && Valid()
        invariant x[..] == was[2 := was[2] - FRAME]
        invariant mem == Saves(m, x[2], was, i - 1)
      {
        if i != 2 {
          Sw(i, x[2] + 4 * i);
        }
        i := i + 1;
      }
      x[5] := mepc;
      Sw(5, x[2] + PC);
      x[10] := x[2];
      x[5] := x[2];
      x[2] := intrstack;
      x[2] := x[2] - 4;
      Sw(5, x[2]);
    }

    /** dispatch: sp is the word at the context, then every register, then mret. */
    method Dispatch(sp: int)
      requires Valid()
      modifies this`pc, this`mepc, x
      ensures Valid() && x[..] == Loads(mem, sp) && pc == Get(mem, sp + 132)
      ensures x[2] == sp + 136 && forall i :: 1 <= i < REGS && i != 2 ==> x[i] == Get(mem, sp + 4 * i)
    {
      x[2] := sp;
      x[5] := Get(mem, x[2] + PC);
      mepc := x[5];
      var i := 1;
      while i < REGS
        invariant 1 <= i <= REGS && Valid() && x[2] == sp && mepc == Get(mem, sp + PC)
        invariant forall k :: 1 <= k < i && k != 2 ==> x[k] == Get(mem, sp + 4 * k)
      {
        if i != 2 {
          x[i] := Get(mem, x[2] + 4 * i);
        }
        i := i + 1;
      }
      x[2] := x[2] + FRAME;
      pc := mepc;
    }

    /** The frame thread_run pushes below the top of a new stack, on memory it has cleared. */
    method NewFrame(stack: int, size: int, thp: int, init: int, end: int, mie: int) returns (sp: int)
      requires Valid() && NEWFRAME <= size
      modifies this`mem
      ensures sp == stack - NEWFRAME && Loads(mem, sp) == NewRegs(thp, stack)
      ensures Get(mem, sp + 4 * 10) == thp && forall k :: 0 <= k < REGS && k != 10 ==> Get(mem, sp + 4 * k) == 0
      ensures Get(mem, sp + 128) == mie && Get(mem, sp + 132) == init && Get(mem, stack - 4) == end
      ensures Cleared(mem, stack - size, sp)
      ensures SameOutside(old(mem), mem, stack - size, stack)
    {
      ghost var was := mem;
      Clear(stack - size, stack);
      ghost var clear := mem;
      sp := stack - 4;
      mem := mem[sp := end];
      sp := sp - 4;
      mem := mem[sp := init];
      sp := sp - 4;
      mem := mem[sp := mie];
      sp := PushRegs(sp, thp);
      assert SameOutside(clear, mem, stack - NEWFRAME, stack);
      StaysCleared(clear, mem, stack - size, sp, stack);
    }

    /** The pushes of x31 down to x0. */
    method PushRegs(top: int, thp: int) returns (sp: int)
      modifies this`mem
      ensures sp == top - 128 && SameOutside(old(mem), mem, sp, top)
      ensures forall k :: 0 <= k < REGS ==> Get(mem, sp + 4 * k) == if k == 10 then thp else 0
    {
      ghost var was := mem;
      sp := top;
      var i := 31;
      while i >= 0
        invariant -1 <= i <= 31 && sp == top - 128 + 4 * (i + 1)
        invariant SameOutside(was, mem, top - 128, top)
        invariant forall k :: i < k <= 31 ==> Get(mem, top - 128 + 4 * k) == if k == 10 then thp else 0
      {
        sp := sp - 4;
        mem := mem[sp := if i == 10 then thp else 0];
        i := i - 1;
      }
    }

    /** memset of the words of [lo, hi). */
    method Clear(lo: int, hi: int)
      requires lo <= hi
      modifies this`mem
      ensures Cleared(mem, lo, hi) && SameOutside(old(mem), mem, lo, hi)
    {
      ghost var was := mem;
      var n := 0;
      while lo + 4 * n < hi
        invariant 0 <= n && forall k :: 0 <= k < n ==> Get(mem, lo + 4 * k) == 0
        invariant SameOutside(was, mem, lo, hi)
        decreases hi - lo - 4 * n
      {
        mem := mem[lo + 4 * n := 0];
        n := n + 1;
      }
    }
  }

  /** The words of [lo, hi) are 0. */
  ghost predicate Cleared(m: Mem, lo: int, hi: int) {
    forall k :: 0 <= k && lo + 4 * k < hi ==> Get(m, lo + 4 * k) == 0
  }

  lemma StaysCleared(m: Mem, r: Mem, lo: int, sp: int, hi: int)
    requires Cleared(m, lo, hi) && sp <= hi && SameOutside(m, r, sp, hi)
    ensures Cleared(r, lo, sp)
  {
  }

  /** What a new thread starts with: its control block in a0, sp just below the top of its stack. */
  function NewRegs(thp: int, stack: int): (x: seq<int>)
    ensures |x| == REGS
  {
    seq(REGS, i => if i == 2 then stack - 4 else if i == 10 then thp else 0)
  }

  // ---------------------------------------------------------------- whole runs

  /** A control block: whether it is in use, its saved context, and its stack [lo, hi). */
  datatype Slot = Slot(used: bool, sp: int, lo: int, hi: int)

  /** top is the static pointer of thread_run; limit is how far user stacks may grow, below the
      part of memory the interrupt stack uses; stacks lists every stack ever handed out. */
  datatype Machine = Machine(x: seq<int>, pc: int, mem: Mem, slots: seq<Slot>, running: int,
                             top: int, limit: int, intrstack: int, stacks: seq<(int, int)>)

  const KERNEL: int := -1

  datatype Action =
    | User(x: seq<int>, pc: int, mem: Mem)              // the running thread computes
    | Trap(ecall: bool)                                 // it traps at pc
    | Kernel(mem: Mem)                                  // the kernel writes tables and parameter blocks
    | Create(slot: nat, size: int, thp: int, init: int, mem: Mem)
    | End(slot: nat)
    | Resume(slot: nat)

  ghost predicate SameInside(m: Mem, r: Mem, lo: int, hi: int) {
    forall a {:trigger Get(r, a)} :: lo <= a < hi ==> Get(r, a) == Get(m, a)
  }

  /** A thread stays out of the stacks of other threads and its frame fits in its own; the kernel
      writes to no saved frame. */
  ghost predicate Enabled(m: Machine, act: Action) {
    match act
    case User(x, _, mem) =>
      && 0 <= m.running < |m.slots| && |x| == REGS && x[0] == 0
      && (forall t :: 0 <= t < |m.slots| && m.slots[t].used && t != m.running ==>
            SameInside(m.mem, mem, m.slots[t].lo, m.slots[t].hi))
    case Trap(_) =>
      && 0 <= m.running < |m.slots| && |m.x| == REGS
      && m.slots[m.running].lo <= m.x[2] - FRAME && m.x[2] <= m.slots[m.running].hi
    case Kernel(mem) =>
      && m.running == KERNEL
      && (forall t :: 0 <= t < |m.slots| && m.slots[t].used ==>
            SameInside(m.mem, mem, m.slots[t].sp, m.slots[t].sp + FRAME))
    case Create(i, size, thp, init, mem) =>
      && m.running == KERNEL && i < |m.slots| && !m.slots[i].used && NEWFRAME <= size && m.top + size <= m.limit
      && SameOutside(m.mem, mem, m.top, m.top + size)
      && Loads(mem, m.top + size - NEWFRAME) == NewRegs(thp, m.top + size)
      && Get(mem, m.top + size - NEWFRAME + PC) == init
    case End(i) => m.running == KERNEL && i < |m.slots|
    case Resume(i) => m.running == KERNEL && i < |m.slots| && m.slots[i].used
  }

  function Apply(m: Machine, act: Action): Machine
    requires |m.x| == REGS
    requires act.Trap? ==> 0 <= m.running < |m.slots|
    requires act.Create? || act.End? || act.Resume? ==> act.slot < |m.slots|
  {
    match act
    case User(x, pc, mem) => m.(x := x, pc := pc, mem := mem)
    case Trap(ecall) =>
      var sp := m.x[2] - FRAME;
      var r := TrapMem(m.mem, m.x, m.pc, m.intrstack);
      // ecall resumes at the next instruction
      m.(mem := if ecall then r[sp + PC := Get(r, sp + PC) + 4] else r,
         slots := m.slots[m.running := m.slots[m.running].(sp := sp)], running := KERNEL)
    case Kernel(mem) => m.(mem := mem)
    case Create(i, size, _, _, mem) =>
      m.(mem := mem, top := m.top + size, stacks := m.stacks + [(m.top, m.top + size)],
         slots := m.slots[i := Slot(true, m.top + size - NEWFRAME, m.top, m.top + size)])
    case End(i) => m.(slots := m.slots[i := m.slots[i].(used := false)])
    case Resume(i) => m.(x := Loads(m.mem, m.slots[i].sp), pc := Get(m.mem, m.slots[i].sp + PC), running := i)
  }

  ghost predicate Inv(m: Machine) {
    && |m.x| == REGS && m.x[0] == 0 && m.top <= m.limit <= m.intrstack - 4
    && (m.running == KERNEL || (0 <= m.running < |m.slots| && m.slots[m.running].used))
    && (forall t {:trigger m.slots[t]} :: 0 <= t < |m.slots| && m.slots[t].used ==>
          && (m.slots[t].lo, m.slots[t].hi) in m.stacks && m.slots[t].hi <= m.top
          && (t != m.running ==> m.slots[t].lo <= m.slots[t].sp && m.slots[t].sp + FRAME <= m.slots[t].hi))
    && (forall t, u {:trigger m.slots[t], m.slots[u]} ::
          0 <= t < u < |m.slots| && m.slots[t].used && m.slots[u].used ==>
          m.slots[t].hi <= m.slots[u].lo || m.slots[u].hi <= m.slots[t].lo)
    && (forall i {:trigger m.stacks[i]} :: 0 <= i < |m.stacks| ==> m.stacks[i].0 < m.stacks[i].1 <= m.top)
    && (forall i, j :: 0 <= i < j < |m.stacks| ==> m.stacks[i].1 <= m.stacks[j].0)
  }

  lemma ApplyKeeps(m: Machine, act: Action)
    requires Inv(m) && Enabled(m, act)
    ensures Inv(Apply(m, act))
  {
    hide TrapMem, SameInside, SameOutside;
    if act.Create? { CreateKeeps(m, act); }
  }

  lemma CreateKeeps(m: Machine, act: Action)
    requires Inv(m) && Enabled(m, act) && act.Create?
    ensures Inv(Apply(m, act))
  {
  }

  /** What the others may do in between: a thread computes anything in its registers and outside the
      stacks of others, the kernel writes anything outside the saved frames, and threads end. */
  lemma AnythingElse(m: Machine, act: Action)
    requires Inv(m) && Enabled(m, act)
    ensures act.User? ==> Apply(m, act) == m.(x := act.x, pc := act.pc, mem := act.mem)
    ensures act.Kernel? ==> Apply(m, act) == m.(mem := act.mem)
    ensures act.End? ==> !Apply(m, act).slots[act.slot].used
  {
    hide TrapMem, SameInside, SameOutside, Loads;
  }

  datatype Ctx = Ctx(x: seq<int>, pc: int)

  /** Thread t is stopped and its frame holds the context c. */
  ghost predicate Saved(m: Machine, t: nat, c: Ctx) {
    && t < |m.slots| && m.slots[t].used && m.running != t
    && Loads(m.mem, m.slots[t].sp) == c.x && Get(m.mem, m.slots[t].sp + PC) == c.pc
  }

  lemma FrameSame(m: Mem, r: Mem, sp: int)
    requires SameInside(m, r, sp, sp + FRAME)
    ensures Loads(r, sp) == Loads(m, sp) && Get(r, sp + PC) == Get(m, sp + PC)
  {
  }

  /** No action but its own end or resumption touches the context of a stopped thread. */
  lemma StaysSaved(m: Machine, act: Action, t: nat, c: Ctx)
    requires Inv(m) && Enabled(m, act) && Saved(m, t, c)
    requires act != End(t) && act != Resume(t)
    ensures Saved(Apply(m, act), t, c)
  {
    var r := Apply(m, act);
    var s := m.slots[t];
    assert SameInside(m.mem, r.mem, s.sp, s.sp + FRAME) by {
      if act.Trap? {
        TrapOutside(m, act.ecall);
        var u := m.slots[m.running];
      } else if act.User? {
        assert SameInside(m.mem, act.mem, s.lo, s.hi);
      }
    }
    FrameSame(m.mem, r.mem, s.sp);
  }

  lemma TrapOutside(m: Machine, ecall: bool)
    requires Inv(m) && Enabled(m, Trap(ecall))
    ensures var r := Apply(m, Trap(ecall));
      && Loads(r.mem, m.x[2] - FRAME) == m.x && Get(r.mem, m.x[2] - FRAME + PC) == m.pc + (if ecall then 4 else 0)
      && (forall a {:trigger Get(r.mem, a)} :: !(m.x[2] - FRAME <= a < m.x[2]) && a != m.intrstack - 4 ==>
            Get(r.mem, a) == Get(m.mem, a))
  {
    TrapRestores(m.mem, m.x, m.pc, m.intrstack);
    var q := TrapMem(m.mem, m.x, m.pc, m.intrstack);
    var r := Apply(m, Trap(ecall));
    var sp := m.x[2] - FRAME;
    forall i | 0 <= i < REGS ensures Loads(r.mem, sp)[i] == m.x[i] {
      assert Loads(q, sp)[i] == m.x[i];
    }
    forall a {:trigger Get(r.mem, a)} | !(sp <= a < sp + FRAME) && a != m.intrstack - 4
      ensures Get(r.mem, a) == Get(m.mem, a) {
      assert Get(q, a) == Get(m.mem, a);
    }
  }

  ghost function Next(m: Machine, act: Action): (r: Machine)
    requires Inv(m) && Enabled(m, act)
    ensures Inv(r)
  {
    ApplyKeeps(m, act); Apply(m, act)
  }

  ghost predicate LegalRun(m: Machine, acts: seq<Action>)
    requires Inv(m)
    decreases |acts|
  {
    acts == [] || (Enabled(m, acts[0]) && LegalRun(Next(m, acts[0]), acts[1..]))
  }

  ghost function Exec(m: Machine, acts: seq<Action>): (r: Machine)
    requires Inv(m) && LegalRun(m, acts)
    ensures Inv(r)
    decreases |acts|
  {
    if acts == [] then m else Exec(Next(m, acts[0]), acts[1..])
  }

  lemma {:induction false} RunStaysSaved(m: Machine, acts: seq<Action>, t: nat, c: Ctx)
    requires Inv(m) && LegalRun(m, acts) && Saved(m, t, c)
    requires forall i :: 0 <= i < |acts| ==> acts[i] != End(t) && acts[i] != Resume(t)
    ensures Saved(Exec(m, acts), t, c)
    decreases |acts|
  {
    if acts != [] {
      StaysSaved(m, acts[0], t, c);
      RunStaysSaved(Next(m, acts[0]), acts[1..], t, c);
    }
  }

  /** Context isolation: between the trap of a thread and its next dispatch anything may happen, and
      it resumes with x1..x31, sp included, and with the trapped pc, after the ecall if it was one. */
  lemma Isolation(m: Machine, ecall: bool, acts: seq<Action>)
    requires Inv(m) && Enabled(m, Trap(ecall)) && LegalRun(Next(m, Trap(ecall)), acts)
    requires forall i :: 0 <= i < |acts| ==> acts[i] != End(m.running) && acts[i] != Resume(m.running)
    requires Enabled(Exec(Next(m, Trap(ecall)), acts), Resume(m.running))
    ensures var r := Next(Exec(Next(m, Trap(ecall)), acts), Resume(m.running));
      r.x == m.x && r.pc == m.pc + (if ecall then 4 else 0) && r.running == m.running
  {
    hide Loads, TrapMem, SameInside;
    TrapSaves(m, ecall);
    hide LegalRun, Enabled, Apply;
    var c := Ctx(m.x, m.pc + (if ecall then 4 else 0));
    RunStaysSaved(Next(m, Trap(ecall)), acts, m.running, c);
    ResumeLoads(Exec(Next(m, Trap(ecall)), acts), m.running, c);
  }

  lemma TrapSaves(m: Machine, ecall: bool)
    requires Inv(m) && Enabled(m, Trap(ecall))
    ensures m.running >= 0 && Saved(Next(m, Trap(ecall)), m.running, Ctx(m.x, m.pc + (if ecall then 4 else 0)))
  {
    TrapOutside(m, ecall);
  }

  lemma ResumeLoads(m: Machine, t: nat, c: Ctx)
    requires Inv(m) && Saved(m, t, c) && Enabled(m, Resume(t))
    ensures var r := Next(m, Resume(t)); r.x == c.x && r.pc == c.pc && r.running == t
  {
  }

  lemma CreateSaves(m: Machine, act: Action)
    requires act.Create? && Inv(m) && Enabled(m, act)
    ensures Saved(Next(m, act), act.slot, Ctx(NewRegs(act.thp, m.top + act.size), act.init))
  {
  }

  /** A new thread first runs at its start routine with its control block in a0, sp just below the top
      of its stack and 0 in every other register, whatever happened since it was created. */
  lemma FirstDispatch(m: Machine, act: Action, acts: seq<Action>)
    requires act.Create? && Inv(m) && Enabled(m, act) && LegalRun(Next(m, act), acts)
    requires forall i :: 0 <= i < |acts| ==> acts[i] != End(act.slot) && acts[i] != Resume(act.slot)
    requires Enabled(Exec(Next(m, act), acts), Resume(act.slot))
    ensures var r := Next(Exec(Next(m, act), acts), Resume(act.slot));
      && r.pc == act.init && r.running == act.slot && |r.x| == REGS
      && r.x[10] == act.thp && r.x[2] == m.top + act.size - 4
      && forall i :: 0 <= i < REGS && i != 2 && i != 10 ==> r.x[i] == 0
  {
    FirstContext(m, act, acts);
    NewRegsAre(act.thp, m.top + act.size);
    hide Inv, LegalRun, Enabled, Apply, NewRegs, Exec;
  }

  lemma FirstContext(m: Machine, act: Action, acts: seq<Action>)
    requires act.Create? && Inv(m) && Enabled(m, act) && LegalRun(Next(m, act), acts)
    requires forall i :: 0 <= i < |acts| ==> acts[i] != End(act.slot) && acts[i] != Resume(act.slot)
    requires Enabled(Exec(Next(m, act), acts), Resume(act.slot))
    ensures var r := Next(Exec(Next(m, act), acts), Resume(act.slot));
      r.pc == act.init && r.x == NewRegs(act.thp, m.top + act.size) && r.running == act.slot
  {
    hide Loads, TrapMem, SameInside, SameOutside, NewRegs;
    CreateSaves(m, act);
    hide LegalRun, Enabled, Apply;
    var c := Ctx(NewRegs(act.thp, m.top + act.size), act.init);
    RunStaysSaved(Next(m, act), acts, act.slot, c);
    ResumeLoads(Exec(Next(m, act), acts), act.slot, c);
  }

  lemma NewRegsAre(thp: int, stack: int)
    ensures var x := NewRegs(thp, stack);
      x[10] == thp && x[2] == stack - 4 && forall i :: 0 <= i < REGS && i != 2 && i != 10 ==> x[i] == 0
  {
  }

  /** The kernel before the first thread: every control block free, no stack handed out. */
  ghost function Start(m: Machine): (r: Machine)
    requires |m.x| == REGS && m.x[0] == 0 && m.top <= m.limit <= m.intrstack - 4
    ensures Inv(r)
  {
    m.(running := KERNEL, stacks := [], slots := seq(|m.slots|, _ => Slot(false, 0, 0, 0)))
  }

  /** All stacks ever handed out, to live threads or dead ones, are disjoint. */
  lemma StacksDisjoint(m: Machine, acts: seq<Action>, i: nat, j: nat)
    requires |m.x| == REGS && m.x[0] == 0 && m.top <= m.limit <= m.intrstack - 4
    requires LegalRun(Start(m), acts) && i < j < |Exec(Start(m), acts).stacks|
    ensures var r := Exec(Start(m), acts); r.stacks[i].0 < r.stacks[i].1 <= r.stacks[j].0 < r.stacks[j].1 <= r.limit
  {
  }
}
