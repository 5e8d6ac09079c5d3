/** Switching the core clock: bsp/drivers/fe300prci/fe300prci_driver.c on the PRCI registers.  Every
    register write is recorded, and every one is proved not to disturb the clock the core runs on. */
module Prci {
  /** The low n bits of a C int, as the field macros of bsp/include/sifive/devices/prci.h mask it. */
  function Low(x: int, n: int): int requires n > 0 { x % n }

  /** ROSC_DIV masks with 0x2F: bits 0..3 and 5. */
  function DivField(x: int): int { Low(x, 16) + 32 * (Low(x, 64) / 32) }

  datatype RoscCfg = RoscCfg(div: int, trim: int, enabled: bool)
  datatype PllCfg = PllCfg(r: int, f: int, q: int, sel: bool, refHfxosc: bool, bypass: bool)
  datatype PllDiv = PllDiv(byOne: bool, div: int)

  /** The registers, field by field, and whether the ready and the lock bit were read as 1 since the
      setting they report on last changed. */
  datatype Regs = Regs(rosc: RoscCfg, pll: PllCfg, div: PllDiv, readySeen: bool, lockSeen: bool, lfrosc: bool)

  /** The clock the core runs on is running: on the HFROSC it is enabled; on the PLL the PLL is
      bypassed or was seen locked, and its reference is not a disabled HFROSC. */
  predicate Clocked(r: Regs) {
    if r.pll.sel then (r.pll.bypass || r.lockSeen) && (r.pll.refHfxosc || r.rosc.enabled)
    else r.rosc.enabled
  }

  /** One register write: the PLL settings and the final divider change only while the core does not
      run on the PLL, before and after the write; the core leaves the PLL only for an HFROSC seen
      ready. */
  predicate Undisturbed(r: Regs, s: Regs) {
    && (r.pll.(sel := false) != s.pll.(sel := false) || r.div != s.div ==> !r.pll.sel && !s.pll.sel)
    && (r.pll.sel && !s.pll.sel ==> s.readySeen)
  }

  /** Every state since reset, and every write between two of them. */
  ghost predicate Safe(trace: seq<Regs>) {
    && trace != []
    && (forall i {:trigger trace[i]} :: 0 <= i < |trace| ==> Clocked(trace[i]))
    && (forall i, j {:trigger trace[i], trace[j]} :: 0 <= i && j == i + 1 && j < |trace| ==>
          Undisturbed(trace[i], trace[j]))
  }

  // ---------------------------------------------------------------- the code

  class Driver {
    var regs: Regs
    ghost var trace: seq<Regs>     // the registers after every write since reset

    ghost predicate Valid() reads this {
      Safe(trace) && trace[|trace| - 1] == regs
    }

    constructor (reset: Regs)
      requires Clocked(reset)
      ensures Valid() && regs == reset && trace == [reset]
    {
      regs := reset;
      trace := [reset];
    }

    /** A write to a register, or a read that finds the awaited status bit set. */
    method Write(r: Regs)
      requires Valid() && Undisturbed(regs, r)
      modifies this
      ensures regs == r && trace == old(trace) + [r]
      ensures Valid() <==> Clocked(r)
    {
      regs := r;
      trace := trace + [r];
      if !Clocked(r) {
        assert !Clocked(trace[|trace| - 1]);
      }
    }

    /** PRCI_use_hfrosc; its loop leaves only when the ready bit is read as 1. */
    method UseHfrosc(div: int, trim: int)
      requires Valid()
      modifies this
      ensures Valid() && old(trace) <= trace
      ensures regs == Regs(RoscCfg(DivField(div), Low(trim, 32), true), old(regs).pll.(sel := false), old(regs).div,
          true,
                           old(regs).lockSeen, old(regs).lfrosc)
    {
      Write(regs.(rosc := RoscCfg(DivField(div), Low(trim, 32), true), readySeen := false));
      Write(regs.(readySeen := true));
      Write(regs.(pll := regs.pll.(sel := false)));
    }

    /** The bypass branch of PRCI_use_pll. */
    method Bypass(refsel: int)
      requires Valid() && !regs.pll.sel && regs.rosc.enabled
      modifies this
      ensures Valid() && old(trace) <= trace
      ensures regs == Regs(old(regs).rosc, PllCfg(0, 0, 0, false, Low(refsel, 2) == 1, true), PllDiv(true, 0),
                           old(regs).readySeen, false, old(regs).lfrosc)
    {
      hide Low, Safe;
      var config := PllCfg(0, 0, 0, false, Low(refsel, 2) == 1, false);
      config := config.(bypass := true);
      Write(regs.(pll := config, lockSeen := false));
      Write(regs.(div := PllDiv(true, 0)));
    }

    /** The locking branch, after the HFROSC was tuned. */
    method Lock(refsel: int, r: int, f: int, q: int, finaldiv: int)
      requires Valid() && !regs.pll.sel && regs.rosc.enabled
      modifies this
      ensures Valid() && old(trace) <= trace
      ensures regs == Regs(old(regs).rosc, PllCfg(Low(r, 8), Low(f, 64), Low(q, 4), false, Low(refsel, 2) == 1, false),
                           DivFor(finaldiv), old(regs).readySeen, true, old(regs).lfrosc)
    {
      hide Low, Safe;
      var config := PllCfg(0, 0, 0, false, Low(refsel, 2) == 1, false);
      config := config.(bypass := true);
      config := config.(r := Low(r, 8));
      config := config.(f := Low(f, 64));
      config := config.(q := Low(q, 4));
      if finaldiv == 1 {
        Write(regs.(div := PllDiv(true, 0)));
      } else {
        Write(regs.(div := PllDiv(false, Low(finaldiv - 1, 64))));
      }
      Write(regs.(pll := config, lockSeen := false));
      Write(regs.(pll := regs.pll.(bypass := false), lockSeen := false));
      // four ticks of the RTC, then the loop that leaves when the lock bit is read as 1
      Write(regs.(lockSeen := true));
    }

    /** PRCI_use_pll up to the switch to the PLL. */
    method SelectPll(refsel: int, bypass: bool, r: int, f: int, q: int, finaldiv: int, hfroscdiv: int, hfrosctrim: int)
      requires Valid()
      modifies this
      ensures Valid() && old(trace) <= trace && |trace| > 1
      ensures regs == OnPll(old(regs), refsel, bypass, r, f, q, finaldiv, hfroscdiv, hfrosctrim)
    {
      assert Clocked(trace[|trace| - 1]);
      hide Low, DivField, Safe;
      if regs.pll.sel {
        UseHfrosc(4, 16);
      }
      if bypass {
        Bypass(refsel);
      } else {
        // to overclock, use the HFROSC
        if hfrosctrim >= 0 && hfroscdiv >= 0 {
          UseHfrosc(hfroscdiv, hfrosctrim);
        }
        Lock(refsel, r, f, q, finaldiv);
      }
      Write(regs.(pll := regs.pll.(sel := true)));
    }

    /** PRCI_use_pll.  PLL_REFSEL keeps the low bit of refsel, the test at the end looks at all of it:
        every write leaves the clock running but perhaps the last, and that one exactly for the refsel
        that GoodRefsel admits. */
    method UsePll(refsel: int, bypass: bool, r: int, f: int, q: int, finaldiv: int, hfroscdiv: int, hfrosctrim: int)
      requires Valid()
      modifies this
      ensures old(trace) <= trace && trace != [] && Safe(trace[..|trace| - 1])
      ensures regs == AfterUsePll(old(regs), refsel, bypass, r, f, q, finaldiv, hfroscdiv, hfrosctrim)
      ensures Valid() <==> GoodRefsel(refsel)
    {
      SelectPll(refsel, bypass, r, f, q, finaldiv, hfroscdiv, hfrosctrim);
      assert Clocked(trace[|trace| - 1]);
      SafePrefix(trace);
      ghost var running := trace;
      hide Safe;
      if refsel != 0 {
        Write(regs.(rosc := regs.rosc.(enabled := false), readySeen := false));
        assert trace[..|trace| - 1] == running;
      }
    }

    method UseDefaultClocks()
      requires Valid()
      modifies this
      ensures Valid() && old(trace) <= trace && !regs.pll.sel && regs.rosc == RoscCfg(4, 16, true) && !regs.lfrosc
    {
      Write(regs.(lfrosc := false));
      UseHfrosc(4, 16);
    }

    method UseHfxosc(finaldiv: int)
      requires Valid()
      modifies this
      ensures Valid() && old(trace) <= trace
      ensures regs.pll == PllCfg(0, 0, 0, true, true, true) && !regs.rosc.enabled
    {
      UsePll(1, true, 0, 0, 0, finaldiv, -1, -1);
    }

    /** What a measurement on the HFROSC reads: the frequency at the trim in the register. */
    method Measure(freq: seq<nat>) returns (r: nat)
      requires |freq| == 32 && 0 <= regs.rosc.trim < 32 && !regs.pll.sel && regs.rosc.enabled && regs.rosc.div == 4
      ensures r == freq[regs.rosc.trim]
    {
      r := freq[regs.rosc.trim];
    }

    /** PRCI_set_hfrosctrim_for_f_cpu: freq[t] is the frequency measured at trim t, last the one on the
        PLL.  The trim that goes to PRCI_use_pll is the one Chosen names, whatever the target. */
    method SetTrim(fCpu: nat, target: Target, freq: seq<nat>, last: nat) returns (cpuFreq: nat, trim: nat)
      requires Valid() && |freq| == 32
      modifies this
      ensures Valid() && old(trace) <= trace && regs.pll.sel
      ensures trim < 32 && trim == Chosen(freq, fCpu / 16, target)
      ensures regs.rosc == RoscCfg(4, trim, true) && regs.div == PllDiv(true, 0)
      ensures regs.pll == PllCfg(1, 31, 1, true, false, false)    // 16 times the HFROSC, by Times16
      ensures cpuFreq == last
    {
      hide Low, DivField, Safe, Reached;
      RoscFields(4);
      LowIs(0, 32);
      var hfrosctrim, prevTrim := 0, 0;
      var desired := fCpu / 16;
      UseHfrosc(4, hfrosctrim);
      cpuFreq := Measure(freq);
      var prevFreq := cpuFreq;
      while cpuFreq < desired && hfrosctrim < 0x1F
        invariant 0 <= hfrosctrim <= 0x1F && Valid() && old(trace) <= trace && !regs.pll.sel
        invariant cpuFreq == freq[hfrosctrim] && prevTrim == (if hfrosctrim == 0 then 0 else hfrosctrim - 1)
        invariant prevFreq == freq[prevTrim] && forall t :: 0 <= t < hfrosctrim ==> freq[t] < desired
        decreases 0x1F - hfrosctrim
      {
        prevTrim := hfrosctrim;
        prevFreq := cpuFreq;
        hfrosctrim := hfrosctrim + 1;
        LowIs(hfrosctrim, 32);
        UseHfrosc(4, hfrosctrim);
        cpuFreq := Measure(freq);
      }
      ReachedIs(freq, desired, hfrosctrim);
      if prevFreq > desired {
        trim := prevTrim;
      } else if cpuFreq < desired {
        trim := prevTrim;
      } else {
        match target
        case Closest =>
          var below: nat := desired - prevFreq;    // neither subtraction wraps
          var above: nat := cpuFreq - desired;
          trim := if below < above then prevTrim else hfrosctrim;
        case Undershoot => trim := prevTrim;
        case Overshoot => trim := hfrosctrim;
      }
      ghost var before := regs;
      UsePll(0, false, 1, 31, 1, 1, 4, trim);
      SearchPll(before, trim);
      cpuFreq := last;
    }
  }

  predicate GoodRefsel(refsel: int) { refsel == 0 || refsel % 2 == 1 }

  function DivFor(finaldiv: int): PllDiv {
    if finaldiv == 1 then PllDiv(true, 0) else PllDiv(false, Low(finaldiv - 1, 64))
  }

  /** The registers when PRCI_use_pll has switched to the PLL. */
  function OnPll(s: Regs, refsel: int, bypass: bool, r: int, f: int, q: int, finaldiv: int,
                 hfroscdiv: int, hfrosctrim: int): Regs {
    var tuned := !bypass && hfrosctrim >= 0 && hfroscdiv >= 0;
    Regs(if tuned then RoscCfg(DivField(hfroscdiv), Low(hfrosctrim, 32), true)
         else if s.pll.sel then RoscCfg(DivField(4), Low(16, 32), true)
         else s.rosc,
         if bypass then PllCfg(0, 0, 0, true, Low(refsel, 2) == 1, true)
         else PllCfg(Low(r, 8), Low(f, 64), Low(q, 4), true, Low(refsel, 2) == 1, false),
         if bypass then PllDiv(true, 0) else DivFor(finaldiv),
         tuned || s.pll.sel || s.readySeen,
         !bypass,
         s.lfrosc)
  }

  /** The registers PRCI_use_pll leaves: on the crystal the HFROSC is turned off to save power. */
  function AfterUsePll(s: Regs, refsel: int, bypass: bool, r: int, f: int, q: int, finaldiv: int,
                       hfroscdiv: int, hfrosctrim: int): Regs {
    var on := OnPll(s, refsel, bypass, r, f, q, finaldiv, hfroscdiv, hfrosctrim);
    if refsel != 0 then on.(rosc := on.rosc.(enabled := false), readySeen := false) else on
  }

  /** From any clocked state, PRCI_use_pll leaves the core with a running clock if and only if refsel
      is 0 or odd: an even refsel selects the HFROSC as reference and then turns it off. */
  lemma UsePllExactly(s: Regs, refsel: int, bypass: bool, r: int, f: int, q: int, finaldiv: int, hfroscdiv: int,
      hfrosctrim: int)
    requires Clocked(s)
    ensures Clocked(AfterUsePll(s, refsel, bypass, r, f, q, finaldiv, hfroscdiv, hfrosctrim)) <==> GoodRefsel(refsel)
  {
  }

  /** What the fields hold, for arguments that fit them. */
  lemma UsePllFields(s: Regs, refsel: int, bypass: bool, r: int, f: int, q: int, finaldiv: int, hfroscdiv: int,
                     hfrosctrim: int)
    requires 0 <= r < 8 && 0 <= f < 64 && 0 <= q < 4 && 1 <= finaldiv <= 64 && hfroscdiv < 16 && hfrosctrim < 32
    ensures var a := AfterUsePll(s, refsel, bypass, r, f, q, finaldiv, hfroscdiv, hfrosctrim);
      var tuned := !bypass && hfroscdiv >= 0 && hfrosctrim >= 0;
      && a.pll.sel && a.pll.refHfxosc == (refsel % 2 == 1) && a.pll.bypass == bypass
      && a.rosc.enabled == (refsel == 0 && (s.rosc.enabled || s.pll.sel || tuned))
      && a.readySeen == (refsel == 0 && (tuned || s.pll.sel || s.readySeen)) && a.lockSeen == !bypass
      && a.lfrosc == s.lfrosc && (a.div.byOne ==> a.div.div == 0)
      && (bypass ==> a.div.byOne && a.pll.r == a.pll.f == a.pll.q == 0)
      && (!bypass ==> a.pll.r == r && a.pll.f == f && a.pll.q == q)
      && (!bypass ==> a.div.byOne == (finaldiv == 1) && (finaldiv > 1 ==> a.div.div == finaldiv - 1))
      && (if tuned then a.rosc.div == hfroscdiv && a.rosc.trim == hfrosctrim
          else if s.pll.sel then a.rosc.div == 4 && a.rosc.trim == 16
          else a.rosc.div == s.rosc.div && a.rosc.trim == s.rosc.trim)
  {
    hide Low, DivField;
    LowIs(r, 8);
    LowIs(f, 64);
    LowIs(q, 4);
    LowIs(hfrosctrim, 32);
    LowIs(16, 32);
    LowIs(finaldiv - 1, 64);
    RoscFields(hfroscdiv);
    RoscFields(4);
    LowBit(refsel);
  }

  /** The registers after the call at the end of the trim search. */
  lemma SearchPll(s: Regs, trim: int)
    requires 0 <= trim < 32
    ensures var a := AfterUsePll(s, 0, false, 1, 31, 1, 1, 4, trim);
      && a.rosc == RoscCfg(4, trim, true) && a.div == PllDiv(true, 0)
      && a.pll == PllCfg(1, 31, 1, true, false, false)
  {
    hide Low, DivField;
    LowIs(1, 8);
    LowIs(31, 64);
    LowIs(1, 4);
    LowIs(trim, 32);
    LowBit(0);
    RoscFields(4);
  }

  lemma LowBit(x: int)
    ensures Low(x, 2) == x % 2
  {
  }

  lemma LowIs(x: int, n: int)
    requires n > 0
    ensures 0 <= x < n ==> Low(x, n) == x
  {
  }

  /** What the PLL makes of its reference: divided by r + 1, times 2 * (f + 1), divided by 2^q. */
  function Output(ref: nat, p: PllCfg): nat
    requires p.r >= 0 && p.f >= 0 && 0 <= p.q < 4
  {
    ref * (2 * (p.f + 1)) / ((p.r + 1) * [1, 2, 4, 8][p.q])
  }

  /** The settings of the trim search make the core 16 times as fast as the HFROSC. */
  lemma Times16(ref: nat)
    ensures Output(ref, PllCfg(1, 31, 1, true, false, false)) == 16 * ref
  {
  }

  /** The masks of the HFROSC fields. */
  lemma RoscFields(x: int)
    ensures DivField(x) == x % 16 + (if x % 64 >= 32 then 32 else 0)
    ensures 0 <= x < 16 ==> DivField(x) == x
    ensures 16 <= x < 32 ==> DivField(x) == x - 16
    ensures 32 <= x < 48 ==> DivField(x) == x
    ensures 48 <= x < 64 ==> DivField(x) == x - 16
    ensures 0 <= x < 32 ==> Low(x, 32) == x
  {
  }

  /** For instance refsel = 2. */
  lemma EvenRefsel(s: Regs)
    requires Clocked(s)
    ensures !Clocked(AfterUsePll(s, 2, true, 0, 0, 0, 1, -1, -1))
  {
  }

  lemma SafePrefix(trace: seq<Regs>)
    requires Safe(trace) && |trace| > 1
    ensures Safe(trace[..|trace| - 1])
  {
    var t := trace[..|trace| - 1];
    assert forall i :: 0 <= i < |t| ==> t[i] == trace[i];
  }

  // ---------------------------------------------------------------- the trim search

  datatype Target = Overshoot | Closest | Undershoot

  /** Measured frequency is a non-decreasing function of the trim. */
  ghost predicate Curve(freq: seq<nat>) {
    |freq| == 32 && forall s, t :: 0 <= s <= t < 32 ==> freq[s] <= freq[t]
  }

  /** The first trim at or above the target, 31 when there is none. */
  function Reached(freq: seq<nat>, desired: nat, from: nat): (t: nat)
    requires from < |freq|
    ensures from <= t < |freq|
    decreases |freq| - from
  {
    if freq[from] < desired && from + 1 < |freq| then Reached(freq, desired, from + 1) else from
  }

  function Chosen(freq: seq<nat>, desired: nat, target: Target): nat
    requires |freq| == 32
  {
    var k := Reached(freq, desired, 0);
    var prev := if k == 0 then 0 else k - 1;
    if freq[prev] > desired || freq[k] < desired then prev
    else match target
      case Closest => if desired - freq[prev] < freq[k] - desired then prev else k
      case Undershoot => prev
      case Overshoot => k
  }

  lemma {:induction false} ReachedFrom(freq: seq<nat>, desired: nat, from: nat, k: nat)
    requires from <= k < |freq| && (freq[k] >= desired || k + 1 == |freq|)
    requires forall t :: from <= t < k ==> freq[t] < desired
    ensures Reached(freq, desired, from) == k
    decreases k - from
  {
    if from < k { ReachedFrom(freq, desired, from + 1, k); }
  }

  lemma ReachedIs(freq: seq<nat>, desired: nat, k: nat)
    requires k < |freq| && (freq[k] >= desired || k + 1 == |freq|) && forall t :: 0 <= t < k ==> freq[t] < desired
    ensures Reached(freq, desired, 0) == k
  {
    ReachedFrom(freq, desired, 0, k);
  }

  lemma {:induction false} ReachedFirst(freq: seq<nat>, desired: nat, from: nat)
    requires from < |freq|
    ensures var k := Reached(freq, desired, from);
      (freq[k] >= desired || k + 1 == |freq|) && forall t :: from <= t < k ==> freq[t] < desired
    decreases |freq| - from
  {
    if freq[from] < desired && from + 1 < |freq| { ReachedFirst(freq, desired, from + 1); }
  }

  function Distance(a: nat, b: nat): nat { if a <= b then b - a else a - b }

  /** With the target between the ends of the curve: CLOSEST is nearest over all trims, OVERSHOOT the
      least trim at or above the target, UNDERSHOOT a trim at or below it, at most one step under the
      least trim that reaches it. */
  lemma TrimOptimal(freq: seq<nat>, desired: nat, t: nat)
    requires Curve(freq) && freq[0] <= desired <= freq[31] && t < 32
    ensures Distance(freq[Chosen(freq, desired, Closest)], desired) <= Distance(freq[t], desired)
    ensures Distance(freq[t], desired) == Distance(freq[Chosen(freq, desired, Closest)], desired) ==>
      freq[t] <= freq[Chosen(freq, desired, Closest)]
    ensures freq[Chosen(freq, desired, Overshoot)] >= desired
    ensures freq[t] >= desired ==> Chosen(freq, desired, Overshoot) <= t
    ensures freq[Chosen(freq, desired, Undershoot)] <= desired
    ensures t > Chosen(freq, desired, Undershoot) ==> freq[t] >= desired
  {
    var k := Reached(freq, desired, 0);
    ReachedFirst(freq, desired, 0);
    if t < k { assert freq[t] <= freq[k - 1]; }
  }

  /** With the target above the curve the search gives the second highest trim, for every target kind:
      that is the nearest choice if and only if the top two trims measure the same. */
  lemma TooHighExactly(freq: seq<nat>, desired: nat, target: Target)
    requires Curve(freq) && freq[31] < desired
    ensures Chosen(freq, desired, target) == 30
    ensures (forall t :: 0 <= t < 32 ==>
        Distance(freq[30], desired) <= Distance(freq[t], desired)) <==> freq[30] == freq[31]
  {
    ReachedFirst(freq, desired, 0);
    var k := Reached(freq, desired, 0);
    assert freq[k] <= freq[31];
    assert freq[30] <= freq[31];
    assert Distance(freq[30], desired) <= Distance(freq[31], desired) <==> freq[30] == freq[31];
  }

  /** With the target below the curve the lowest trim is chosen, and it is nearest. */
  lemma TooLow(freq: seq<nat>, desired: nat, target: Target, t: nat)
    requires Curve(freq) && desired < freq[0] && t < 32
    ensures Chosen(freq, desired, target) == 0
    ensures Distance(freq[0], desired) <= Distance(freq[t], desired)
  {
  }
}
