/**
 The scaler set-up: phase steps with a 24-bit fraction, computed in 32-bit
 arithmetic, and the horizontal divider derived from them.
 */
module Scaler {
  import opened Bytes

  /** One pixel, in units of the phase. */
  const PIXEL := 0x100_0000
  /** The divider's target: 124 pixels. */
  const SPAN := 124 * PIXEL

  // -------------------------------------------------------------------------
  // Division, by its bounds

  function Quotient(n: nat, d: nat): (q: nat)
    requires d > 0
  {
    n / d
  }

  lemma QuotientBounds(n: nat, d: nat)
    requires d > 0
    ensures Quotient(n, d) * d <= n < Quotient(n, d) * d + d
  {
  }

  function Remainder(n: nat, d: nat): (r: nat)
    requires d > 0
  {
    n % d
  }

  lemma RemainderIs(n: nat, d: nat)
    requires d > 0
    ensures n == Quotient(n, d) * d + Remainder(n, d) && Remainder(n, d) < d && Remainder(n, d) <= n
  {
    TimesMonotone(0, Quotient(n, d), d);
  }

  lemma TimesMonotone(a: nat, b: nat, d: nat)
    requires a <= b
    ensures a * d <= b * d
  {
  }

  lemma QuotientLess(n: nat, d: nat, k: nat)
    requires d > 0
    ensures Quotient(n, d) < k <==> n < k * d
  {
    hide Quotient;
    var q := Quotient(n, d);
    QuotientBounds(n, d);
    if q < k { TimesMonotone(q + 1, k, d); } else { TimesMonotone(k, q, d); }
  }

  lemma QuotientAtMost(n: nat, d: nat)
    requires d > 0
    ensures Quotient(n, d) <= n
  {
    hide Quotient;
    QuotientLess(n, d, n + 1);
    TimesMonotone(1, d, n + 1);
  }

  lemma QuotientZero(n: nat, d: nat)
    requires d > 0
    ensures Quotient(n, d) == 0 <==> n < d
  {
    hide Quotient;
    QuotientLess(n, d, 1);
  }

  lemma QuotientPlus(a: nat, d: nat, m: nat)
    requires d > 0
    ensures Quotient(a * d + m, d) == a + Quotient(m, d)
  {
    hide Quotient;
    var p := Quotient(m, d);
    QuotientBounds(m, d);
    Distribute(a, p, d);
    Distribute(a, p + 1, d);
    Distribute(p, 1, d);
    QuotientLess(a * d + m, d, a + p);
    QuotientLess(a * d + m, d, a + p + 1);
  }

  lemma Distribute(a: nat, b: nat, d: nat)
    ensures (a + b) * d == a * d + b * d
  {
  }

  lemma NoWrap(x: nat)
    ensures x < 0x1_0000_0000 <==> ToU32(x) == x
  {
  }

  // -------------------------------------------------------------------------
  // The step

  /** The input size after the pre-scaler, which halves what is more than twice the output. */
  function Prescaled(size: nat, out: nat): (n: nat) {
    if size > out * 2 then (size + 1) / 2 else size
  }

  function PhaseStep(n: nat, out: nat): (step: u32)
    requires out > 0
  {
    ToU32(Quotient(ToU32(n * 0x4_0000), out) * 0x40)
  }

  /** The step is the ratio `n / out` of pixels, rounded down by less than 64 units. */
  predicate Exact(n: nat, out: nat, step: nat) {
    step != 0 && step * out <= n * PIXEL < step * out + 64 * out
  }

  /** What 32 bits keep of a ratio: its remainder by 256. */
  function Rest(n: nat, out: nat): (r: nat)
    requires out > 0
  {
    Remainder(n, 256 * out)
  }

  lemma StepRight(n: nat, out: nat)
    requires 1 <= n && 1 <= out <= 8192 && n <= 8192 && n < 256 * out
    ensures Exact(n, out, PhaseStep(n, out))
  {
    hide ToU32, Quotient;
    var m := n * 0x4_0000;
    var q := Quotient(m, out);
    NoWrap(m);
    QuotientBounds(m, out);
    QuotientLess(m, out, 0x400_0000);
    QuotientZero(m, out);
    NoWrap(q * 0x40);
    assert q * 0x40 * out == q * out * 0x40;
  }

  lemma StepWrong(n: nat, out: nat)
    requires n <= 8192 && 1 <= out && n >= 256 * out
    ensures !Exact(n, out, PhaseStep(n, out))
  {
    hide ToU32, Quotient;
    WrappedShort(Quotient(ToU32(n * 0x4_0000), out));
    TimesMonotone(PhaseStep(n, out) + 64, 0x1_0000_0000, out);
    Distribute(PhaseStep(n, out), 64, out);
  }

  /** For all sizes the hardware takes, the step is right exactly when the ratio is below 256. */
  lemma StepExact(n: nat, out: nat)
    requires 1 <= n <= 8192 && 1 <= out <= 8192
    ensures Exact(n, out, PhaseStep(n, out)) <==> n < 256 * out
  {
    hide PhaseStep, Exact;
    if n < 256 * out { StepRight(n, out); } else { StepWrong(n, out); }
  }

  /** A multiple of 64 stays at least 64 short of the wrap. */
  lemma WrappedShort(q: nat)
    ensures ToU32(q * 0x40) + 64 <= 0x1_0000_0000
  {
  }

  /**
   A derived step, from the sizes asked for alone: it is the ratio of the sizes
   up to a reduction by two, beyond that the ratio for half the input, rounded
   up, and that exactly for an input below 512 times the output, less one.
   */
  ghost predicate StepFits(size: nat, out: nat, step: nat) {
    if size <= 2 * out then step * out <= size * PIXEL < step * out + 64 * out && step != 0
    else forall m: nat | 2 * m - 1 <= size <= 2 * m :: Exact(m, out, step) <==> size + 1 < 512 * out
  }

  /** In terms of the sizes asked for: right exactly when the input is below 512 times the output, less one. */
  lemma SizesExact(size: nat, out: nat)
    requires 1 <= size <= 8192 && 1 <= out <= 8192
    ensures StepFits(size, out, PhaseStep(Prescaled(size, out), out))
    ensures 1 <= Prescaled(size, out) <= 8192
    ensures Exact(Prescaled(size, out), out, PhaseStep(Prescaled(size, out), out)) <==> size + 1 < 512 * out
  {
    hide PhaseStep;
    StepExact(Prescaled(size, out), out);
  }

  /** A ratio splits into whole multiples of 256, which wrap away, and the rest. */
  lemma RestIs(n: nat, out: nat) returns (k: nat)
    requires out > 0
    ensures n == k * 256 * out + Rest(n, out) && Rest(n, out) < 256 * out && Rest(n, out) <= n
  {
    hide Remainder, Quotient;
    k := Quotient(n, 256 * out);
    RemainderIs(n, 256 * out);
    Regroup(k, out);
  }

  lemma Regroup(k: nat, out: nat)
    ensures k * (256 * out) == k * 256 * out
  {
  }

  /** The step depends only on the rest. */
  lemma StepPeriodic(n: nat, out: nat)
    requires 1 <= out && n <= 8192
    ensures PhaseStep(n, out) == PhaseStep(Rest(n, out), out)
  {
    hide ToU32, Quotient, Rest;
    var k := RestIs(n, out);
    var r := Rest(n, out);
    NoWrap(n * 0x4_0000);
    NoWrap(r * 0x4_0000);
    Spread(k, out, r);
    QuotientPlus(k * 0x400_0000, out, r * 0x4_0000);
    Wraps(k, Quotient(r * 0x4_0000, out));
  }

  lemma Spread(k: nat, out: nat, r: nat)
    ensures (k * 256 * out + r) * 0x4_0000 == k * 0x400_0000 * out + r * 0x4_0000
  {
    assert k * 256 * out == k * out * 256 && k * 0x400_0000 * out == k * out * 0x400_0000;
  }

  lemma Wraps(k: nat, q: nat)
    ensures ToU32((k * 0x400_0000 + q) * 0x40) == ToU32(q * 0x40)
  {
    assert (k * 0x400_0000 + q) * 0x40 == k * 0x1_0000_0000 + q * 0x40;
  }

  /** A step of zero, which the divider cannot take, comes out exactly at the multiples of the ratio 256. */
  lemma StepVanishes(n: nat, out: nat)
    requires 1 <= n <= 8192 && 1 <= out <= 8192
    ensures PhaseStep(n, out) == 0 <==> Rest(n, out) == 0
  {
    hide PhaseStep, Rest, Exact;
    var k := RestIs(n, out);
    var r := Rest(n, out);
    StepPeriodic(n, out);
    if r == 0 {
      StepOfNothing(out);
    } else {
      StepExact(r, out);
      ExactNonzero(r, out, PhaseStep(r, out));
    }
  }

  lemma StepOfNothing(out: nat)
    requires out > 0
    ensures PhaseStep(0, out) == 0
  {
  }

  lemma ExactNonzero(n: nat, out: nat, step: nat)
    requires Exact(n, out, step)
    ensures step != 0
  {
  }

  /** The smallest such request. */
  lemma StepVanishesAt512()
    ensures Prescaled(512, 1) == 256 && PhaseStep(256, 1) == 0
  {
  }

  // -------------------------------------------------------------------------
  // The divider

  /** Steps from here on are, as signed numbers, so little below zero that the span holds them. */
  const LAST := 0x8400_0000

  /** The span by the step as a signed number, rounded toward zero and stored unsigned. */
  function DivLength(step: u32): (len: u32)
    requires step != 0
  {
    var s := ToS32(step);
    if s > 0 then ToU32(Quotient(SPAN, s)) else ToU32(-1 * Quotient(SPAN, -s))
  }

  /** As many whole steps as fit the span, and their product not cut by 32 bits. */
  predicate Divides(step: nat, len: nat, multo: nat) {
    multo == step * len <= SPAN < step * len + step
  }

  /** Below the bound the signed division is the unsigned one. */
  lemma LengthBelow(step: u32)
    requires 0 < step < LAST
    ensures DivLength(step) == Quotient(SPAN, step)
  {
    hide Quotient;
    QuotientAtMost(SPAN, step);
    if step >= 0x8000_0000 {
      QuotientZero(SPAN, step);
      QuotientZero(SPAN, 0x1_0000_0000 - step);
    }
  }

  /** From the bound on the quotient is negative, and large when stored. */
  lemma LengthAbove(step: u32)
    requires step >= LAST
    ensures DivLength(step) >= LAST
  {
    hide Quotient;
    QuotientZero(SPAN, 0x1_0000_0000 - step);
    QuotientAtMost(SPAN, 0x1_0000_0000 - step);
  }

  lemma ProductBelow(step: u32)
    requires step > 0
    ensures Divides(step, Quotient(SPAN, step), ToU32(step * Quotient(SPAN, step)))
  {
    hide ToU32, Quotient;
    var len := Quotient(SPAN, step);
    QuotientBounds(SPAN, step);
    NoWrap(step * len);
  }

  lemma ProductAbove(step: nat, len: nat, multo: nat)
    requires step >= LAST && len >= LAST
    ensures !Divides(step, len, multo)
  {
    TimesMonotone(1, step, len);
  }

  /** The divider is right exactly for the steps below the bound. */
  lemma DividerExact(step: u32)
    requires step != 0
    ensures Divides(step, DivLength(step), ToU32(step * DivLength(step))) <==> step < LAST
  {
    hide ToU32, DivLength, Divides, Quotient;
    if step < LAST {
      LengthBelow(step);
      ProductBelow(step);
    } else {
      LengthAbove(step);
      ProductAbove(step, DivLength(step), ToU32(step * DivLength(step)));
    }
  }

  lemma StepAt384()
    ensures Prescaled(384, 1) == 192 && PhaseStep(192, 1) == 0xC000_0000
  {
    assert Quotient(192 * 0x4_0000, 1) == 192 * 0x4_0000;
  }

  lemma LengthAt384()
    ensures DivLength(0xC000_0000) == 0xFFFF_FFFF
  {
    assert ToS32(0xC000_0000) == -0x4000_0000;
    assert Quotient(SPAN, 0x4000_0000) == 1;
  }

  /** 384 pixels to 1 give a step beyond the bound, and a product that wraps. */
  lemma DividerWrapsAt384()
    ensures Prescaled(384, 1) == 192 && PhaseStep(192, 1) == 0xC000_0000 && DivLength(0xC000_0000) == 0xFFFF_FFFF
    ensures ToU32(0xC000_0000 * 0xFFFF_FFFF) == 0x4000_0000
    ensures !Divides(0xC000_0000, DivLength(0xC000_0000), ToU32(0xC000_0000 * DivLength(0xC000_0000)))
  {
    hide Prescaled, PhaseStep, DivLength, Divides;
    StepAt384();
    LengthAt384();
    DividerExact(0xC000_0000);
  }

  lemma StepBelow(n: nat, out: nat)
    requires 1 <= out && n <= 8192 && n < 256 * out
    ensures PhaseStep(n, out) < LAST <==> n < 132 * out
  {
    hide ToU32, Quotient;
    var m := n * 0x4_0000;
    NoWrap(m);
    QuotientLess(m, out, 0x400_0000);
    QuotientLess(m, out, 0x210_0000);
    NoWrap(Quotient(m, out) * 0x40);
  }

  /** A derived step is in the divider's range exactly when the rest of the ratio is below 132. */
  lemma DerivedBelow(n: nat, out: nat)
    requires 1 <= out && n <= 8192
    ensures PhaseStep(n, out) < LAST <==> Rest(n, out) < 132 * out
  {
    hide PhaseStep, Rest;
    var k := RestIs(n, out);
    StepPeriodic(n, out);
    StepBelow(Rest(n, out), out);
  }

  /** In terms of the sizes asked for, where the step itself is right: below 264 times the output, less one. */
  lemma SizesDivide(size: nat, out: nat)
    requires 1 <= size <= 8192 && 1 <= out <= 8192 && size + 1 < 512 * out
    ensures PhaseStep(Prescaled(size, out), out) < LAST <==> size + 1 < 264 * out
  {
    hide PhaseStep;
    StepBelow(Prescaled(size, out), out);
  }

  // -------------------------------------------------------------------------
  // The code

  /** A step already given is kept; a derived one is right exactly when the input is small enough. */
  predicate StepSet(size: nat, out: nat, given: u32, step: u32)
    requires out > 0
  {
    if given != 0 then step == given
    else
      var n := Prescaled(size, out);
      step == PhaseStep(n, out) && (Exact(n, out, step) <==> size + 1 < 512 * out)
  }

  /**
   The divider's fields, which are right exactly when a given step is below the
   bound, or the rest of the ratio of a derived one is; where the derived step
   is itself right, that is when the input is small enough.
   */
  predicate DividerSet(size: nat, out: nat, given: u32, step: u32, len: u32, num: u32, phase: u32)
    requires out > 0 && step != 0
  {
    var right := Divides(step, len, num * PIXEL + phase);
    && len == DivLength(step) && num * PIXEL + phase == ToU32(step * len) && phase < PIXEL
    && (right <==> if given != 0 then given < LAST else Rest(Prescaled(size, out), out) < 132 * out)
    && (given == 0 && size + 1 < 512 * out ==> (right <==> size + 1 < 264 * out))
    && (right ==> num <= 124)
  }

  lemma StepIsSet(size: nat, out: nat, given: u32)
    requires 1 <= size <= 8192 && 1 <= out <= 8192
    ensures var n := Prescaled(size, out);
            && StepSet(size, out, given, if given != 0 then given else PhaseStep(n, out))
            && (PhaseStep(n, out) == 0 <==> Rest(n, out) == 0)
  {
    hide PhaseStep, Exact, Rest;
    SizesExact(size, out);
    StepVanishes(Prescaled(size, out), out);
  }

  lemma DividerIsSet(size: nat, out: nat, given: u32, step: u32, len: u32, num: u32, phase: u32)
    requires 1 <= size <= 8192 && 1 <= out <= 8192 && StepSet(size, out, given, step) && step != 0
    requires len == DivLength(step) && num * PIXEL + phase == ToU32(step * len) && phase < PIXEL
    ensures DividerSet(size, out, given, step, len, num, phase)
  {
    hide PhaseStep, Exact, Rest, DivLength, ToU32;
    DividerExact(step);
    if given == 0 {
      SizesExact(size, out);
      DerivedBelow(Prescaled(size, out), out);
      if size + 1 < 512 * out { SizesDivide(size, out); }
    }
  }

  /** The part of `struct ge2d_cmd_s` the set-up reads and fills in; rectangles are inclusive. */
  class Command {
    var srcX0: int
    var srcX1: int
    var srcY0: int
    var srcY1: int
    var dstX0: int
    var dstX1: int
    var dstY0: int
    var dstY1: int
    var swap: bool
    var hscEn: bool
    var hscDivEn: bool
    var hscStep: u32
    var vscStep: u32
    var hscDivLength: u32
    var hscAdvNum: u32
    var hscAdvPhase: u32

    function WidthIn(): (n: int) reads this { srcX1 - srcX0 + 1 }
    function HeightIn(): (n: int) reads this { srcY1 - srcY0 + 1 }
    function WidthOut(): (n: int) reads this { if swap then dstY1 - dstY0 + 1 else dstX1 - dstX0 + 1 }
    function HeightOut(): (n: int) reads this { if swap then dstX1 - dstX0 + 1 else dstY1 - dstY0 + 1 }

    predicate Sized()
      reads this
    {
      1 <= WidthIn() <= 8192 && 1 <= HeightIn() <= 8192 && 1 <= WidthOut() <= 8192 && 1 <= HeightOut() <= 8192
    }

    /**
     The scaler part of `ge2d_set_cmd`. A step already given is kept; `ok` is
     false where the driver would divide by a zero step.
     */
    method SetScaler() returns (ok: bool)
      requires Sized()
      modifies `hscStep, `vscStep, `hscDivLength, `hscAdvNum, `hscAdvPhase
      ensures StepSet(WidthIn(), WidthOut(), old(hscStep), hscStep)
      ensures StepSet(HeightIn(), HeightOut(), old(vscStep), vscStep)
      ensures if old(hscStep) != 0 then hscStep == old(hscStep)
              else if swap then StepFits(srcX1 - srcX0 + 1, dstY1 - dstY0 + 1, hscStep)
              else StepFits(srcX1 - srcX0 + 1, dstX1 - dstX0 + 1, hscStep)
      ensures if old(vscStep) != 0 then vscStep == old(vscStep)
              else if swap then StepFits(srcY1 - srcY0 + 1, dstX1 - dstX0 + 1, vscStep)
              else StepFits(srcY1 - srcY0 + 1, dstY1 - dstY0 + 1, vscStep)
      ensures ok <==> !hscEn || !hscDivEn || old(hscStep) != 0
                      || Rest(Prescaled(WidthIn(), WidthOut()), WidthOut()) != 0
      ensures ok && hscEn && hscDivEn ==> hscStep != 0
      ensures ok && hscEn && hscDivEn ==>
        DividerSet(WidthIn(), WidthOut(), old(hscStep), hscStep, hscDivLength, hscAdvNum, hscAdvPhase)
      ensures !hscEn || !hscDivEn ==>
        hscDivLength == old(hscDivLength) && hscAdvNum == old(hscAdvNum) && hscAdvPhase == old(hscAdvPhase)
    {
      hide PhaseStep, Prescaled, Rest, StepSet, StepFits, DividerSet, DivLength, Divides, ToU32;
      ghost var given := hscStep;
      var widtho, heighto := WidthOut(), HeightOut();
      var tmpWidthi, tmpHeighti := Prescaled(WidthIn(), widtho), Prescaled(HeightIn(), heighto);
      StepIsSet(WidthIn(), widtho, hscStep);
      StepIsSet(HeightIn(), heighto, vscStep);
      SizesExact(WidthIn(), widtho);
      SizesExact(HeightIn(), heighto);
      if hscStep == 0 {
        hscStep := PhaseStep(tmpWidthi, widtho);
      }
      if vscStep == 0 {
        vscStep := PhaseStep(tmpHeighti, heighto);
      }
      if hscEn && hscDivEn {
        if hscStep == 0 { return false; }
        SetDivider();
        DividerIsSet(WidthIn(), widtho, given, hscStep, hscDivLength, hscAdvNum, hscAdvPhase);
      }
      return true;
    }

    /** The length by signed division, and the product split into pixels and phase; right exactly below the bound. */
    method SetDivider()
      requires hscStep != 0
      modifies `hscDivLength, `hscAdvNum, `hscAdvPhase
      ensures hscDivLength == DivLength(hscStep) && hscAdvPhase < PIXEL
      ensures hscAdvNum * PIXEL + hscAdvPhase == ToU32(hscStep * hscDivLength)
      ensures Divides(hscStep, hscDivLength, hscAdvNum * PIXEL + hscAdvPhase) <==> hscStep < LAST
      ensures hscStep < LAST ==> hscAdvNum <= 124
    {
      hide ToU32, DivLength;
      DividerExact(hscStep);
      hscDivLength := DivLength(hscStep);
      var multo := ToU32(hscStep * hscDivLength);
      hscAdvNum := multo / PIXEL;
      hscAdvPhase := multo % PIXEL;
    }
  }
}
