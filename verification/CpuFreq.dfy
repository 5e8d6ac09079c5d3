/** measure_cpu_freq of bsp/env/freedom-e300-hifive1/init.c: cycles counted over timer ticks, on
    words of 32 bits.  `mtime` holds the full timer at its successive reads and `mcycle(i)` the full
    cycle counter right after read i; the code sees the low words. */
module CpuFreq {
  import opened Arith

  function Lo(x: nat): nat { x % WORD }

  /** Unsigned subtraction. */
  function Sub(x: nat, y: nat): (r: nat) ensures r < WORD { (Lo(x) - Lo(y)) % WORD }

  lemma LoSmall(x: nat)
    requires x < WORD
    ensures Lo(x) == x
  {
  }

  /** Taking the low word first makes no difference to a subtraction. */
  lemma SubLo(x: nat, y: nat)
    ensures Sub(x, Lo(y)) == Sub(x, y)
  {
  }

  // ---------------------------------------------------------------- the quotient

  /** The returned expression, without a word size and on words. */
  function Split(c: nat, f: nat, d: nat): nat requires d > 0 { c / d * f + c % d * f / d }

  function SplitWord(c: nat, f: nat, d: nat): nat requires d > 0 {
    Lo(Lo(c / d * f) + Lo(c % d * f) / d)
  }

  /** The split quotient is the floor of the whole one. */
  lemma SplitIsFloor(c: nat, f: nat, d: nat)
    requires d > 0
    ensures Split(c, f, d) == c * f / d
  {
    var q, r := c / d, c % d;
    assert c * f == q * f * d + r * f by {
      assert c == q * d + r;
      Distribute(q, d, r, f);
    }
    DivAdds(q * f, r * f, d);
  }

  lemma Distribute(q: nat, d: nat, r: nat, f: nat)
    ensures (q * d + r) * f == q * f * d + r * f
  {
  }

  lemma DivAdds(a: nat, b: nat, d: nat)
    requires d > 0
    ensures (a * d + b) / d == a + b / d
  {
    var q, r := b / d, b % d;
    assert a * d + b == (a + q) * d + r;
    DivUnique(a * d + b, a + q, r, d);
  }

  lemma DivMono(x: nat, y: nat, d: nat)
    requires d > 0 && x + d <= y
    ensures x / d < y / d
  {
  }

  /** On words nothing wraps when the result and the product of the largest remainder fit. */
  lemma NoWrap(c: nat, f: nat, d: nat)
    requires d > 0 && c * f / d < WORD && (d - 1) * f < WORD
    ensures c / d * f < WORD && c % d * f < WORD && c / d * f + c % d * f / d < WORD
    ensures SplitWord(c, f, d) == c * f / d
  {
    hide Lo;
    var a, b := c / d * f, c % d * f;
    DivSmall(c, d);
    MulMono(0, c / d, f);
    assert b <= (d - 1) * f by { MulMono(c % d, d - 1, f); }
    DivSmall(b, d);
    assert a + b / d == c * f / d by { SplitIsFloor(c, f, d); }
    LoSmall(a);
    LoSmall(b);
    LoSmall(a + b / d);
  }

  ghost predicate RightFor(c: nat, f: nat, d: nat) requires d > 0 {
    c < WORD && c * f / d < WORD ==> SplitWord(c, f, d) == c * f / d
  }

  /** And that product is what it takes: for given frequency and ticks, every cycle count whose result
      fits in a word is computed right if and only if it does. */
  lemma RightExactly(f: nat, d: nat)
    requires 0 < d < WORD && f < WORD
    ensures (forall c: nat :: RightFor(c, f, d)) <==> (d - 1) * f < WORD
  {
    if (d - 1) * f < WORD {
      forall c: nat ensures RightFor(c, f, d) {
        if c < WORD && c * f / d < WORD { NoWrap(c, f, d); }
      }
    } else {
      WrongAt(f, d);
      assert !RightFor(d - 1, f, d);
    }
  }

  lemma WrongAt(f: nat, d: nat)
    requires 0 < d < WORD && f < WORD && (d - 1) * f >= WORD
    ensures (d - 1) * f / d < WORD
    ensures SplitWord(d - 1, f, d) != (d - 1) * f / d
  {
    hide Lo;
    var x := (d - 1) * f;
    PartBelow(f, d);
    LowerHalf(f, d, x);
    DropsAWord(x, d);
  }

  lemma PartBelow(f: nat, d: nat)
    requires d > 0
    ensures (d - 1) * f / d <= f
  {
  }

  lemma LowerHalf(f: nat, d: nat, x: nat)
    requires 0 < d < WORD && x == (d - 1) * f
    ensures SplitWord(d - 1, f, d) == Lo(x) / d
  {
    hide Lo;
    DivUnique(d - 1, 0, d - 1, d);
    assert (d - 1) / d * f == 0;
    LoSmall(0);
    LoBelow(x);
    DivSmall(Lo(x), d);
    LoSmall(Lo(x) / d);
  }

  lemma LoBelow(x: nat)
    ensures Lo(x) < WORD
    ensures x >= WORD ==> Lo(x) + WORD <= x
  {
  }

  lemma DropsAWord(x: nat, d: nat)
    requires 0 < d < WORD <= x
    ensures Lo(x) / d < x / d
  {
    LoBelow(x);
    DivMono(Lo(x), x, d);
  }

  lemma DivSmall(x: nat, d: nat)
    requires d > 0
    ensures 0 <= x / d <= x
  {
    var q := x / d;
    MulMono(1, d, q);
  }

  // ---------------------------------------------------------------- the polling loops

  /** The first read at or after i with another low word than read 0. */
  function FirstOther(mtime: seq<nat>, i: nat): (r: nat)
    requires 0 < i <= |mtime|
    ensures i <= r <= |mtime|
    ensures r < |mtime| ==> Lo(mtime[r]) != Lo(mtime[0])
    ensures forall m :: i <= m < r ==> Lo(mtime[m]) == Lo(mtime[0])
    decreases |mtime| - i
  {
    if i < |mtime| && Lo(mtime[i]) == Lo(mtime[0]) then FirstOther(mtime, i + 1) else i
  }

  /** The first read at or after i that is n or more ticks, as words, after read s. */
  function FirstReached(mtime: seq<nat>, s: nat, n: nat, i: nat): (r: nat)
    requires s < i <= |mtime|
    ensures i <= r <= |mtime|
    ensures r < |mtime| ==> Sub(mtime[r], mtime[s]) >= n
    ensures forall m :: i <= m < r ==> Sub(mtime[m], mtime[s]) < n
    decreases |mtime| - i
  {
    if i < |mtime| && Sub(mtime[i], mtime[s]) < n then FirstReached(mtime, s, n, i + 1) else i
  }

  /** The timer goes on long enough for both loops to end. */
  predicate Ends(mtime: seq<nat>, n: nat) {
    |mtime| > 0 &&
    var s := FirstOther(mtime, 1);
    s < |mtime| && FirstReached(mtime, s, n, s + 1) < |mtime|
  }

  method MeasureCpuFreq(mtime: seq<nat>, mcycle: nat -> nat, freq: nat, n: nat)
    returns (r: nat, s: nat, t: nat)
    requires n > 0 && Ends(mtime, n)
    ensures s == FirstOther(mtime, 1) && t == FirstReached(mtime, s, n, s + 1)
    ensures t < |mtime| && Sub(mtime[t], mtime[s]) > 0
    ensures r == SplitWord(Sub(mcycle(t), mcycle(s)), freq, Sub(mtime[t], mtime[s]))
  {
    hide Lo, Sub;
    var tmp := Lo(mtime[0]);
    s := 1;
    var start := Lo(mtime[s]);
    while start == tmp
      invariant 0 < s < |mtime| && start == Lo(mtime[s])
      invariant FirstOther(mtime, s) == FirstOther(mtime, 1)
      decreases |mtime| - s
    {
      s := s + 1;
      start := Lo(mtime[s]);
    }
    var cycles := Lo(mcycle(s));
    t := s + 1;
    var delta := Sub(mtime[t], start);
    SubLo(mtime[t], mtime[s]);
    while delta < n
      invariant s < t < |mtime| && delta == Sub(mtime[t], mtime[s])
      invariant FirstReached(mtime, s, n, t) == FirstReached(mtime, s, n, s + 1)
      decreases |mtime| - t
    {
      t := t + 1;
      delta := Sub(mtime[t], start);
      SubLo(mtime[t], mtime[s]);
    }
    var c := Sub(mcycle(t), cycles);
    SubLo(mcycle(t), mcycle(s));
    r := SplitWord(c, freq, delta);
  }

  /** Word subtraction gives the distance, roll-over or not, as long as that is below 2^32. */
  lemma SubIs(x: nat, y: nat)
    requires y <= x < y + WORD
    ensures Sub(x, y) == x - y
  {
  }

  /** Successive reads go forward, by no more than `step` ticks. */
  ghost predicate Runs(mtime: seq<nat>, step: nat) {
    forall i :: 0 < i < |mtime| ==> Tick(mtime, i, step)
  }

  ghost predicate Tick(mtime: seq<nat>, i: int, step: nat) {
    0 < i < |mtime| && mtime[i - 1] <= mtime[i] <= mtime[i - 1] + step
  }

  /** If reads are never more than 2^32 - n ticks apart, the polling loop stops at the first read that
      is n ticks or more after the start, and the word it computes is the true distance. */
  lemma {:induction false} TrueDistance(mtime: seq<nat>, s: nat, n: nat, t: nat)
    requires 0 < n < WORD && s < t < |mtime| && Runs(mtime, WORD - n)
    requires forall m :: s < m < t ==> Sub(mtime[m], mtime[s]) < n
    ensures mtime[s] <= mtime[t] < mtime[s] + WORD
    ensures Sub(mtime[t], mtime[s]) == mtime[t] - mtime[s]
    ensures t > s + 1 ==> mtime[t - 1] - mtime[s] < n
  {
    assert Tick(mtime, t, WORD - n);
    if t > s + 1 {
      TrueDistance(mtime, s, n, t - 1);
    }
    SubIs(mtime[t], mtime[s]);
  }

  /** Where the loops stop. */
  function Start(mtime: seq<nat>): nat requires |mtime| > 0 { FirstOther(mtime, 1) }
  function Stop(mtime: seq<nat>, n: nat): nat requires Ends(mtime, n) {
    FirstReached(mtime, Start(mtime), n, Start(mtime) + 1)
  }

  /** The ticks and the cycles that really pass in between. */
  function Ticks(mtime: seq<nat>, n: nat): int requires Ends(mtime, n) {
    mtime[Stop(mtime, n)] as int - mtime[Start(mtime)] as int
  }
  function Cycles(mtime: seq<nat>, mcycle: nat -> nat, n: nat): int requires Ends(mtime, n) {
    mcycle(Stop(mtime, n)) as int - mcycle(Start(mtime)) as int
  }

  lemma TrueTicks(mtime: seq<nat>, n: nat)
    requires 0 < n < WORD && Ends(mtime, n) && Runs(mtime, WORD - n)
    ensures n <= Ticks(mtime, n) < WORD
    ensures Sub(mtime[Stop(mtime, n)], mtime[Start(mtime)]) == Ticks(mtime, n)
    ensures mtime[Start(mtime) - 1] < mtime[Start(mtime)]
  {
    hide Sub, Runs, FirstOther, FirstReached;
    var s, t := Start(mtime), Stop(mtime, n);
    TrueDistance(mtime, s, n, t);
    assert Tick(mtime, s, WORD - n) by { TickAt(mtime, s, WORD - n); }
    assert Lo(mtime[s - 1]) == Lo(mtime[0]);
  }

  lemma TickAt(mtime: seq<nat>, i: nat, step: nat)
    requires Runs(mtime, step) && 0 < i < |mtime|
    ensures Tick(mtime, i, step)
  {
  }

  /** The measured frequency is the floor of cycles times timer frequency over ticks, roll-over or
      not, from a start right after a tick to the first read n ticks or more later. */
  lemma Measured(mtime: seq<nat>, mcycle: nat -> nat, freq: nat, n: nat)
    requires 0 < n < WORD && Ends(mtime, n) && Runs(mtime, WORD - n)
    requires 0 <= Cycles(mtime, mcycle, n) < WORD && (Ticks(mtime, n) - 1) * freq < WORD
    requires Ticks(mtime, n) > 0 ==> Cycles(mtime, mcycle, n) * freq / Ticks(mtime, n) < WORD
    ensures Ticks(mtime, n) >= n
    ensures var s, t := Start(mtime), Stop(mtime, n);
      SplitWord(Sub(mcycle(t), mcycle(s)), freq, Sub(mtime[t], mtime[s])) ==
      Cycles(mtime, mcycle, n) * freq / Ticks(mtime, n)
  {
    hide SplitWord, Sub, Runs;
    var s, t := Start(mtime), Stop(mtime, n);
    TrueTicks(mtime, n);
    SubIs(mcycle(t), mcycle(s));
    NoWrap(Cycles(mtime, mcycle, n), freq, Ticks(mtime, n));
  }
}
