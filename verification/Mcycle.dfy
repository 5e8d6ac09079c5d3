/** PRCI_measure_mcycle_freq of bsp/drivers/fe300prci/fe300prci_driver.c, with the readings of the
    timer and the cycle counter as in CpuFreq. */
module Mcycle {
  import opened Arith
  import opened CpuFreq

  /** The low word `ticks + 1` after a reading; it does not wrap if it is no smaller. */
  function EndOf(x: nat, ticks: nat): nat { Lo(Lo(x) + ticks + 1) }

  /** The first reading at or after i whose end does not wrap. */
  function FirstFit(mtime: seq<nat>, ticks: nat, i: nat): (r: nat)
    requires i <= |mtime|
    ensures i <= r <= |mtime|
    ensures r < |mtime| ==> EndOf(mtime[r], ticks) >= Lo(mtime[r])
    ensures forall m :: i <= m < r ==> EndOf(mtime[m], ticks) < Lo(mtime[m])
    decreases |mtime| - i
  {
    if i < |mtime| && EndOf(mtime[i], ticks) < Lo(mtime[i]) then FirstFit(mtime, ticks, i + 1) else i
  }

  /** The first reading at or after i with another low word than reading a. */
  function FirstEdge(mtime: seq<nat>, a: nat, i: nat): (r: nat)
    requires a < i <= |mtime|
    ensures i <= r <= |mtime|
    ensures r < |mtime| ==> Lo(mtime[r]) != Lo(mtime[a])
    ensures forall m :: i <= m < r ==> Lo(mtime[m]) == Lo(mtime[a])
    decreases |mtime| - i
  {
    if i < |mtime| && Lo(mtime[i]) == Lo(mtime[a]) then FirstEdge(mtime, a, i + 1) else i
  }

  /** The first reading at or after i whose low word is `end` or more. */
  function FirstAt(mtime: seq<nat>, end: nat, i: nat): (r: nat)
    requires i <= |mtime|
    ensures i <= r <= |mtime|
    ensures r < |mtime| ==> Lo(mtime[r]) >= end
    ensures forall m :: i <= m < r ==> Lo(mtime[m]) < end
    decreases |mtime| - i
  {
    if i < |mtime| && Lo(mtime[i]) < end then FirstAt(mtime, end, i + 1) else i
  }

  /** The readings the loops stop at, if the timer goes on long enough. */
  predicate Stops(mtime: seq<nat>, ticks: nat, a: nat, b: nat, c: nat) {
    && a < b < c < |mtime| && a == FirstFit(mtime, ticks, 0) && b == FirstEdge(mtime, a, a + 1)
    && c == FirstAt(mtime, EndOf(mtime[a], ticks), b + 1)
  }

  ghost predicate Ends(mtime: seq<nat>, ticks: nat) { exists a, b, c :: Stops(mtime, ticks, a, b, c) }

  /** The product has 64 bits; what is returned are the low 32 of the quotient. */
  function Frequency(cycles: nat, freq: nat, ticks: nat): nat requires ticks > 0 { Lo(Lo(cycles) * freq / ticks) }

  method MeasureMcycleFreq(mtime: seq<nat>, mcycle: nat -> nat, ticks: nat, freq: nat)
    returns (r: nat, a: nat, b: nat, c: nat)
    requires 0 < ticks < WORD && Ends(mtime, ticks) && forall i, j :: i <= j ==> mcycle(i) <= mcycle(j)
    ensures Stops(mtime, ticks, a, b, c)
    ensures r == Frequency(mcycle(c) - mcycle(b), freq, ticks)
  {
    hide Lo, EndOf, Frequency, FirstFit, FirstEdge, FirstAt;
    a := NoRollover(mtime, ticks);
    b := WaitForEdge(mtime, a);
    var end := EndOf(mtime[a], ticks);
    c := b + 1;
    while Lo(mtime[c]) < end
      invariant b < c < |mtime| && FirstAt(mtime, end, c) == FirstAt(mtime, end, b + 1)
      decreases |mtime| - c
    {
      AtMore(mtime, end, c);
      c := c + 1;
    }
    AtMore(mtime, end, c);
    r := Frequency(mcycle(c) - mcycle(b), freq, ticks);
  }

  /** The first loop: start and end_mtime are those of reading i. */
  method NoRollover(mtime: seq<nat>, ticks: nat) returns (i: nat)
    requires FirstFit(mtime, ticks, 0) < |mtime|
    ensures i == FirstFit(mtime, ticks, 0)
  {
    hide Lo, EndOf;
    i := 0;
    while EndOf(mtime[i], ticks) < Lo(mtime[i])
      invariant i < |mtime| && FirstFit(mtime, ticks, i) == FirstFit(mtime, ticks, 0)
      decreases |mtime| - i
    {
      i := i + 1;
    }
  }

  /** The second: wait for the tick after reading a. */
  method WaitForEdge(mtime: seq<nat>, a: nat) returns (b: nat)
    requires a < |mtime| && FirstEdge(mtime, a, a + 1) < |mtime|
    ensures b == FirstEdge(mtime, a, a + 1)
  {
    hide Lo;
    b := a + 1;
    while Lo(mtime[b]) == Lo(mtime[a])
      invariant a < b < |mtime| && FirstEdge(mtime, a, b) == FirstEdge(mtime, a, a + 1)
      decreases |mtime| - b
    {
      b := b + 1;
    }
  }

  lemma AtMore(mtime: seq<nat>, end: nat, i: nat)
    requires i < |mtime|
    ensures FirstAt(mtime, end, i) == if Lo(mtime[i]) < end then FirstAt(mtime, end, i + 1) else i
  {
  }

  // ---------------------------------------------------------------- the interval measured

  /** Low words of readings less than a word apart, when the later one does not wrap. */
  lemma LoAfter(x: nat, y: nat)
    requires x <= y && Lo(x) + (y - x) < WORD
    ensures Lo(y) == Lo(x) + (y - x)
  {
  }

  lemma EndIs(x: nat, ticks: nat)
    requires ticks + 1 < WORD && EndOf(x, ticks) >= Lo(x)
    ensures EndOf(x, ticks) == Lo(x) + ticks + 1 < WORD
  {
  }

  /** Readings never more than a tick apart: the edge is the next tick. */
  lemma {:induction false} EdgeIsNext(mtime: seq<nat>, a: nat, b: nat)
    requires a < b < |mtime| && Runs(mtime, 1) && Lo(mtime[a]) + 1 < WORD
    requires forall m :: a < m < b ==> Lo(mtime[m]) == Lo(mtime[a])
    ensures mtime[a] <= mtime[b] <= mtime[a] + 1
    ensures Lo(mtime[b]) != Lo(mtime[a]) <==> mtime[b] == mtime[a] + 1
  {
    TickAt(mtime, b, 1);
    if b > a + 1 { EdgeIsNext(mtime, a, b - 1); }
    LoAfter(mtime[a], mtime[a] + 1);
  }

  /** And the last reading is the first that is d ticks after reading a. */
  lemma {:induction false} EndIsNext(mtime: seq<nat>, a: nat, b: nat, c: nat, d: nat)
    requires a < b <= c < |mtime| && Runs(mtime, 1) && Lo(mtime[a]) + d < WORD
    requires mtime[a] <= mtime[b] < mtime[a] + d && forall m :: b < m < c ==> Lo(mtime[m]) < Lo(mtime[a]) + d
    ensures mtime[a] <= mtime[c] <= mtime[a] + d
    ensures Lo(mtime[c]) == Lo(mtime[a]) + (mtime[c] - mtime[a])
  {
    hide Lo;
    if c > b {
      TickAt(mtime, c, 1);
      EndIsNext(mtime, a, b, c - 1, d);
    }
    LoAfter(mtime[a], mtime[c]);
  }

  lemma Exact(cycles: nat, freq: nat, ticks: nat)
    requires ticks > 0 && cycles < WORD && cycles * freq / ticks < WORD
    ensures Frequency(cycles, freq, ticks) == cycles * freq / ticks
  {
    hide Lo;
    LoSmall(cycles);
    LoSmall(cycles * freq / ticks);
  }

  /** With the timer read at least once a tick, the cycles are counted over exactly `ticks` ticks, no
      roll-over in between, so the result is the floor of cycles times frequency over ticks when the
      cycles and the result fit in a word. */
  lemma MeasuredExactly(mtime: seq<nat>, mcycle: nat -> nat, ticks: nat, freq: nat, a: nat, b: nat, c: nat)
    requires 0 < ticks && ticks + 1 < WORD && Stops(mtime, ticks, a, b, c) && Runs(mtime, 1)
    requires mcycle(b) <= mcycle(c) < mcycle(b) + WORD && (mcycle(c) - mcycle(b)) * freq / ticks < WORD
    ensures mtime[c] == mtime[b] + ticks && Lo(mtime[c]) == Lo(mtime[b]) + ticks
    ensures Frequency(mcycle(c) - mcycle(b), freq, ticks) == (mcycle(c) - mcycle(b)) * freq / ticks
  {
    hide Runs, FirstFit, FirstEdge, FirstAt, Lo, EndOf;
    EndIs(mtime[a], ticks);
    EdgeIsNext(mtime, a, b);
    EndIsNext(mtime, a, b, c, ticks + 1);
    LoAfter(mtime[a], mtime[b]);
    Exact(mcycle(c) - mcycle(b), freq, ticks);
  }
}
