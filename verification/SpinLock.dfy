/** The spin lock of software/smp/smp.c and the console output it protects.

    One step is one atomic exchange or one byte written by one hart; the harts interleave in any
    order.  The tty is the sequence of bytes written so far. */
module SpinLock {
  /** Trying is one round of get_lock's loop; Writing(k) is about to write byte k of the message;
      Leaving is about to exchange the lock back; Delaying is the empty loop. */
  datatype Pc = Trying | Writing(k: nat) | Leaving | Delaying(left: nat)

  /** finished lists, in order, the harts that completed a message (history). */
  datatype State = State(lock: int, pcs: seq<Pc>, tty: string, finished: seq<nat>)

  const GREETING := "hello world from hart "

  /** s[0] += hartid wraps in a char. */
  function Message(h: nat): (m: string)
    ensures |m| == 24
  {
    assert |GREETING| == 22;
    GREETING + [(('0' as int + h) % 256) as char, '\n']
  }

  function Step(s: State, h: nat): (r: State)
    requires h < |s.pcs|
    requires s.pcs[h].Writing? ==> s.pcs[h].k < |Message(h)|
    ensures |r.pcs| == |s.pcs|
  {
    match s.pcs[h]
    case Trying =>                       // old value of the exchange decides
      s.(lock := 1, pcs := s.pcs[h := if s.lock == 1 then Trying else Writing(0)])
    case Writing(k) =>
      s.(tty := s.tty + [Message(h)[k]], pcs := s.pcs[h := if k + 1 < |Message(h)| then Writing(k + 1) else Leaving])
    case Leaving =>
      s.(lock := 0, pcs := s.pcs[h := Delaying(10000 + 100 * h)], finished := s.finished + [h])
    case Delaying(left) =>
      s.(pcs := s.pcs[h := if left > 0 then Delaying(left - 1) else Trying])
  }

  predicate Inside(s: State, h: int) requires 0 <= h < |s.pcs| { s.pcs[h].Writing? || s.pcs[h].Leaving? }

  /** The bytes hart h has written of the message it is writing. */
  function Written(s: State, h: nat): string
    requires h < |s.pcs| && (s.pcs[h].Writing? ==> s.pcs[h].k < |Message(h)|)
  {
    match s.pcs[h]
    case Writing(k) => Message(h)[..k]
    case Leaving => Message(h)
    case _ => ""
  }

  /** Whole messages one after another. */
  function Whole(hs: seq<nat>): string {
    if hs == [] then "" else Whole(hs[..|hs| - 1]) + Message(hs[|hs| - 1])
  }

  /** The lock word is 1 exactly when one hart is inside, 0 when none is; the output is whole messages
      followed by the part the hart inside has written. */
  ghost predicate Inv(s: State) {
    && (forall h {:trigger s.pcs[h]} :: 0 <= h < |s.pcs| && s.pcs[h].Writing? ==> s.pcs[h].k < |Message(h)|)
    && (forall h, g {:trigger Inside(s, h), Inside(s, g)} :: 0 <= h < g < |s.pcs| ==> !(Inside(s, h) && Inside(s, g)))
    && ((s.lock == 0 && s.tty == Whole(s.finished)
         && forall h {:trigger Inside(s, h)} :: 0 <= h < |s.pcs| ==> !Inside(s, h)) ||
        (s.lock == 1
         && exists h: nat {:trigger Inside(s, h)} ::
              h < |s.pcs| && Inside(s, h) && s.tty == Whole(s.finished) + Written(s, h)))
  }

  ghost function Reset(harts: nat): (s: State)
    ensures Inv(s) && |s.pcs| == harts
  {
    State(0, seq(harts, _ => Trying), "", [])
  }

  lemma StepKeeps(s: State, h: nat)
    requires Inv(s) && h < |s.pcs|
    ensures s.pcs[h].Writing? ==> s.pcs[h].k < |Message(h)|
    ensures Inv(Step(s, h))
  {
    hide Message;
    var r := Step(s, h);
    assert Inside(s, h) ==> s.lock == 1;
    forall g | 0 <= g < |s.pcs| && g != h ensures Inside(r, g) == Inside(s, g) {}
    if s.lock == 1 {
      var g: nat :| g < |s.pcs| && Inside(s, g) && s.tty == Whole(s.finished) + Written(s, g);
      if g != h {
        assert !Inside(s, h);
        assert Inside(r, g) && r.tty == Whole(r.finished) + Written(r, g);
      } else {
        match s.pcs[h]
        case Writing(k) =>
          assert Message(h)[..k] + [Message(h)[k]] == Message(h)[..k + 1];
          assert Inside(r, h) && r.tty == Whole(r.finished) + Written(r, h);
        case Leaving =>
          assert r.finished[..|s.finished|] == s.finished;
          assert forall k :: 0 <= k < |r.pcs| ==> !Inside(r, k);
      }
    } else {
      if s.pcs[h].Trying? { assert Inside(r, h) && r.tty == Whole(r.finished) + Written(r, h); }
    }
  }

  ghost function Run(s: State, schedule: seq<nat>): (r: State)
    requires Inv(s) && forall i :: 0 <= i < |schedule| ==> schedule[i] < |s.pcs|
    ensures Inv(r) && |r.pcs| == |s.pcs|
    decreases |schedule|
  {
    if schedule == [] then s
    else StepKeeps(s, schedule[0]); Run(Step(s, schedule[0]), schedule[1..])
  }

  /** Mutual exclusion, seen in the output: for any number of harts and any interleaving, the tty
      holds whole messages followed by a prefix of one message, and that is empty when the lock is
      free. */
  lemma WholeMessages(harts: nat, schedule: seq<nat>)
    requires forall i :: 0 <= i < |schedule| ==> schedule[i] < harts
    ensures exists h: nat, n: nat :: Shows(Run(Reset(harts), schedule), h, n)
  {
    hide Message, Step, Reset, Run, Shows;
    OutputShows(Run(Reset(harts), schedule));
  }

  /** The output is whole messages and the first n bytes of hart h's, which alone is inside if the
      lock is taken. */
  ghost predicate Shows(r: State, h: nat, n: nat) {
    && n <= |Message(h)| && r.tty == Whole(r.finished) + Message(h)[..n]
    && (r.lock == 0 || r.lock == 1)
    && (r.lock == 0 ==> n == 0 && forall g :: 0 <= g < |r.pcs| ==> !Inside(r, g))
    && (r.lock == 1 ==> h < |r.pcs| && Inside(r, h) && forall g :: 0 <= g < |r.pcs| && Inside(r, g) ==> g == h)
  }

  lemma OutputShows(r: State)
    requires Inv(r)
    ensures exists h: nat, n: nat :: Shows(r, h, n)
  {
    hide Message, Whole;
    if r.lock == 0 {
      assert Shows(r, 0, 0);
    } else {
      var h: nat :| h < |r.pcs| && Inside(r, h) && r.tty == Whole(r.finished) + Written(r, h);
      var n := |Written(r, h)|;
      assert Written(r, h) == Message(h)[..n];
      assert Shows(r, h, n);
    }
  }

  // ---------------------------------------------------------------- progress

  /** What hart 0 prints, and how the others differ. */
  lemma MessageIs(h: nat)
    ensures Message(0) == "hello world from hart 0\n"
    ensures Message(h)[..22] == Message(0)[..22] && Message(h)[23] == '\n'
    ensures Message(h)[22] as int == ('0' as int + h) % 256
  {
  }

  /** A free lock goes to the first hart that tries; a taken one leaves a hart trying. */
  lemma TryStep(s: State, h: nat)
    requires Inv(s) && h < |s.pcs| && s.pcs[h].Trying?
    ensures s.lock == 0 ==> Step(s, h) == s.(lock := 1, pcs := s.pcs[h := Writing(0)]) && Inside(Step(s, h), h)
    ensures s.lock == 1 ==> Step(s, h) == s
  {
  }

  /** A hart that has left tries again after its delay. */
  lemma DelayStep(s: State, h: nat)
    requires Inv(s) && h < |s.pcs| && s.pcs[h].Delaying?
    ensures Step(s, h) == s.(pcs := s.pcs[h := if s.pcs[h].left == 0 then Trying else Delaying(s.pcs[h].left - 1)])
  {
  }

  /** The steps a hart inside has left. */
  function Left(pc: Pc): int {
    match pc
    case Writing(k) => 25 - k
    case Leaving => 1
    case _ => 0
  }

  function Turns(schedule: seq<nat>, h: nat): nat {
    if schedule == [] then 0 else (if schedule[0] == h then 1 else 0) + Turns(schedule[1..], h)
  }

  /** While one hart is inside, the steps of the others change neither lock nor output. */
  lemma OthersWait(s: State, h: nat, g: nat)
    requires Inv(s) && h < |s.pcs| && g < |s.pcs| && Inside(s, h) && g != h
    ensures var r := Step(s, g);
      r.lock == 1 && r.tty == s.tty && r.finished == s.finished && r.pcs[h] == s.pcs[h] && Inside(r, h)
  {
    assert !Inside(s, g);
  }

  /** The turns of a hart inside: each but the last writes the next byte, the last frees the lock. */
  lemma InsideStep(s: State, h: nat)
    requires Inv(s) && h < |s.pcs| && Inside(s, h)
    ensures s.tty == Whole(s.finished) + Written(s, h) && Left(s.pcs[h]) > 0
    ensures var r := Step(s, h);
      if Left(s.pcs[h]) > 1 then
        Inside(r, h) && Left(r.pcs[h]) == Left(s.pcs[h]) - 1 && r.finished == s.finished
      else
        r.lock == 0 && r.finished == s.finished + [h] && r.tty == Whole(s.finished) + Message(h)
        && r.pcs == s.pcs[h := Delaying(10000 + 100 * h)]
  {
    hide Message;
  }

  /** A hart inside, once it had the turns it needs, is outside, its whole message printed and the lock
      free, whatever turns the others had. */
  lemma {:induction false} InsideFinishes(s: State, h: nat, schedule: seq<nat>)
    requires Inv(s) && h < |s.pcs| && Inside(s, h) && forall i :: 0 <= i < |schedule| ==> schedule[i] < |s.pcs|
    requires schedule != [] && schedule[|schedule| - 1] == h && Turns(schedule, h) == Left(s.pcs[h])
    ensures var r := Run(s, schedule);
      && r.lock == 0 && r.finished == s.finished + [h] && r.tty == Whole(s.finished) + Message(h)
      && r.pcs[h] == Delaying(10000 + 100 * h)
    decreases |schedule|
  {
    hide Message, Step, Inv, Whole;
    var g := schedule[0];
    StepKeeps(s, g);
    InsideStep(s, h);
    if g != h {
      OthersWait(s, h, g);
      InsideFinishes(Step(s, g), h, schedule[1..]);
    } else if Left(s.pcs[h]) > 1 {
      assert schedule[1..] != [];
      InsideFinishes(Step(s, h), h, schedule[1..]);
    } else if schedule[1..] != [] {
      HasTurn(schedule[1..], h);
    }
  }

  lemma {:induction false} HasTurn(schedule: seq<nat>, h: nat)
    requires schedule != [] && schedule[|schedule| - 1] == h
    ensures Turns(schedule, h) > 0
  {
    if |schedule| > 1 { HasTurn(schedule[1..], h); }
  }

  lemma {:induction false} OnlyTurns(h: nat, n: nat)
    ensures Turns(seq(n, _ => h), h) == n
  {
    if n > 0 {
      assert seq(n, _ => h)[1..] == seq(n - 1, _ => h);
      OnlyTurns(h, n - 1);
    }
  }

  /** One hart alone: its first 26 turns take the lock, print its message and free the lock. */
  lemma SingleHart()
    ensures var r := Run(Reset(1), seq(26, _ => 0));
      r.tty == "hello world from hart 0\n" && r.lock == 0 && r.finished == [0]
  {
    hide Message, Step, Inv;
    var s, all := Reset(1), seq(26, _ => 0);
    assert all[1..] == seq(25, _ => 0);
    TryStep(s, 0);
    StepKeeps(s, 0);
    OnlyTurns(0, 25);
    InsideFinishes(Step(s, 0), 0, seq(25, _ => 0));
    MessageIs(0);
    assert Whole([]) + Message(0) == Message(0);
  }

  // ---------------------------------------------------------------- fair schedules

  /** Every hart has a turn. */
  ghost predicate Round(harts: nat, round: seq<nat>) {
    && (forall i :: 0 <= i < |round| ==> round[i] < harts)
    && forall h: nat :: h < harts ==> h in round
  }

  /** The hart whose turn brings the next message nearer: the one inside, or hart 0. */
  ghost function Key(s: State): (h: nat)
    requires Inv(s) && |s.pcs| > 0
    ensures h < |s.pcs| && (if s.lock == 1 then Inside(s, h) else h == 0)
  {
    if s.lock == 1 then var h: nat :| h < |s.pcs| && Inside(s, h); h else 0
  }

  function Wait(pc: Pc): nat { if pc.Delaying? then pc.left + 1 else 0 }

  /** How far the next message is. */
  ghost function Distance(s: State): int
    requires Inv(s) && |s.pcs| > 0
  {
    if s.lock == 1 then Left(s.pcs[Key(s)]) else 26 + Wait(s.pcs[0])
  }

  /** A step finishes a message or brings the next no further away, and nearer if it is the key's. */
  lemma StepNearer(s: State, h: nat)
    requires Inv(s) && h < |s.pcs|
    ensures s.pcs[h].Writing? ==> s.pcs[h].k < |Message(h)|
    ensures var r := Step(s, h);
      && Inv(r) && |r.pcs| == |s.pcs| && s.finished <= r.finished
      && (|r.finished| == |s.finished| ==>
            if h == Key(s) then Distance(r) < Distance(s)
            else Distance(r) < Distance(s) || (Distance(r) == Distance(s) && Key(r) == Key(s)))
  {
    hide Message, Whole;
    StepKeeps(s, h);
    var r, k := Step(s, h), Key(s);
    if s.lock == 1 {
      if h == k { InsideStep(s, h); } else { OthersWait(s, k, h); }
      assert r.lock == 1 ==> Key(r) == k;
    } else {
      assert !Inside(s, h);
      if s.pcs[h].Trying? {
        TryStep(s, h);
        assert Key(r) == h;
      }
    }
  }

  lemma {:induction false} KeyTurn(s: State, schedule: seq<nat>)
    requires Inv(s) && |s.pcs| > 0 && forall i :: 0 <= i < |schedule| ==> schedule[i] < |s.pcs|
    ensures var r := Run(s, schedule);
      && s.finished <= r.finished
      && (|r.finished| == |s.finished| ==>
            Distance(r) <= Distance(s) && (Key(s) in schedule ==> Distance(r) < Distance(s)))
    decreases |schedule|
  {
    hide Step, Inv, Distance;
    if schedule != [] {
      StepNearer(s, schedule[0]);
      KeyTurn(Step(s, schedule[0]), schedule[1..]);
    }
  }

  ghost function Rounds(s: State, rounds: seq<seq<nat>>): (r: State)
    requires Inv(s) && forall i :: 0 <= i < |rounds| ==> Round(|s.pcs|, rounds[i])
    ensures Inv(r) && |r.pcs| == |s.pcs|
    decreases |rounds|
  {
    if rounds == [] then s else assert Round(|s.pcs|, rounds[0]); Rounds(Run(s, rounds[0]), rounds[1..])
  }

  lemma {:induction false} FinishedGrows(s: State, rounds: seq<seq<nat>>)
    requires Inv(s) && |s.pcs| > 0 && forall i :: 0 <= i < |rounds| ==> Round(|s.pcs|, rounds[i])
    ensures |Rounds(s, rounds).finished| >= |s.finished|
    decreases |rounds|
  {
    hide Inv, Run, Distance, Key;
    if rounds != [] {
      assert Round(|s.pcs|, rounds[0]);
      KeyTurn(s, rounds[0]);
      FinishedGrows(Run(s, rounds[0]), rounds[1..]);
    }
  }

  /** Under a fair schedule somebody always gets the lock and finishes a message: from every state, after
      as many rounds as the next message is far, in each of which every hart has a turn. */
  lemma {:induction false} SomeoneFinishes(s: State, rounds: seq<seq<nat>>)
    requires Inv(s) && |s.pcs| > 0 && forall i :: 0 <= i < |rounds| ==> Round(|s.pcs|, rounds[i])
    requires |rounds| >= Distance(s)
    ensures |Rounds(s, rounds).finished| > |s.finished|
    decreases |rounds|
  {
    DistancePositive(s);
    hide Inv, Run, Distance, Key;
    assert Round(|s.pcs|, rounds[0]);
    KeyTurn(s, rounds[0]);
    var r := Run(s, rounds[0]);
    if |r.finished| > |s.finished| {
      FinishedGrows(r, rounds[1..]);
    } else {
      SomeoneFinishes(r, rounds[1..]);
    }
  }

  lemma DistancePositive(s: State)
    requires Inv(s) && |s.pcs| > 0
    ensures Distance(s) > 0
  {
    hide Message;
  }
}
