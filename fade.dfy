/**
 * The arithmetic of the library that can stand alone: the fade step taken
 * once per frame, the fade rate derived from a fade time, and the
 * percentage scaling of SoftPWMSetPercent.
 */
module FadeEngine {
  import opened PwmTypes

  function Dist(a: int, b: int): nat
  {
    if a <= b then b - a else a - b
  }

  /**
   * The checkval a slot takes at the start of a frame (SoftPWM.cpp:114-138):
   * one step from `check` towards `pwm` by the rate of that direction,
   * clamped at `pwm`; a jump when the needed rate is 0.
   */
  function FadeStep(check: Byte, pwm: Byte, up: Byte, down: Byte): Byte
  {
    if up > 0 || down > 0 then
      var direction := pwm - check;
      if direction > 0 && up > 0 then
        (if check + up > pwm then pwm else check + up)
      else if direction < 0 && down > 0 then
        (if check - down < pwm then pwm else check - down)
      else
        pwm
    else
      pwm
  }

  /** What one fade step guarantees. */
  lemma FadeStepBounds(check: Byte, pwm: Byte, up: Byte, down: Byte)
    // the new checkval lies between the old one and the target: no overshoot
    ensures check <= pwm ==> check <= FadeStep(check, pwm, up, down) <= pwm
    ensures pwm <= check ==> pwm <= FadeStep(check, pwm, up, down) <= check
    // either the target is reached or the step is exactly the rate of the direction
    ensures FadeStep(check, pwm, up, down) == pwm || Dist(FadeStep(check, pwm, up, down), check) == (if pwm > check then up else down)
    // a needed rate of 0 jumps to the target
    ensures (pwm > check && up == 0) || (pwm < check && down == 0) ==> FadeStep(check, pwm, up, down) == pwm
    // a rate that does not overshoot is taken in full
    ensures pwm > check && up > 0 && check + up <= pwm ==> FadeStep(check, pwm, up, down) == check + up
    ensures pwm < check && down > 0 && check - down >= pwm ==> FadeStep(check, pwm, up, down) == check - down
    // every step gets strictly closer, and the target is a fixed point
    ensures check != pwm ==> Dist(FadeStep(check, pwm, up, down), pwm) < Dist(check, pwm)
    ensures check == pwm ==> FadeStep(check, pwm, up, down) == pwm
  {
  }

  /** The checkval after `frames` frame starts with a fixed target and fixed rates. */
  function FadeIter(check: Byte, pwm: Byte, up: Byte, down: Byte, frames: nat): Byte
    decreases frames
  {
    if frames == 0 then check else FadeStep(FadeIter(check, pwm, up, down, frames - 1), pwm, up, down)
  }

  /** Each frame takes at least one unit off the distance to the target, until it is reached. */
  lemma {:induction false} FadeIterDistance(check: Byte, pwm: Byte, up: Byte, down: Byte, frames: nat)
    ensures frames <= Dist(check, pwm) ==> Dist(FadeIter(check, pwm, up, down, frames), pwm) <= Dist(check, pwm) - frames
    ensures frames >= Dist(check, pwm) ==> FadeIter(check, pwm, up, down, frames) == pwm
    decreases frames
  {
    if frames > 0 {
      FadeIterDistance(check, pwm, up, down, frames - 1);
      FadeStepBounds(FadeIter(check, pwm, up, down, frames - 1), pwm, up, down);
    }
  }

  /** Repeated frames never leave the interval between the start value and the target. */
  lemma {:induction false} FadeIterBetween(check: Byte, pwm: Byte, up: Byte, down: Byte, frames: nat)
    ensures check <= pwm ==> check <= FadeIter(check, pwm, up, down, frames) <= pwm
    ensures pwm <= check ==> pwm <= FadeIter(check, pwm, up, down, frames) <= check
    decreases frames
  {
    if frames > 0 {
      FadeIterBetween(check, pwm, up, down, frames - 1);
      FadeStepBounds(FadeIter(check, pwm, up, down, frames - 1), pwm, up, down);
    }
  }

  /** Fading up with a non-zero rate moves by exactly `up` per frame until the target caps it. */
  lemma {:induction false} FadeUpIter(check: Byte, pwm: Byte, up: Byte, down: Byte, frames: nat)
    requires check <= pwm && up > 0
    ensures FadeIter(check, pwm, up, down, frames) == if check + frames * up < pwm then check + frames * up else pwm
    decreases frames
  {
    if frames > 0 {
      FadeUpIter(check, pwm, up, down, frames - 1);
      FadeStepBounds(FadeIter(check, pwm, up, down, frames - 1), pwm, up, down);
      assert check + (frames - 1) * up + up == check + frames * up;
    }
  }

  /** Fading down with a non-zero rate moves by exactly `down` per frame until the target caps it. */
  lemma {:induction false} FadeDownIter(check: Byte, pwm: Byte, up: Byte, down: Byte, frames: nat)
    requires pwm <= check && down > 0
    ensures FadeIter(check, pwm, up, down, frames) == if check - frames * down > pwm then check - frames * down else pwm
    decreases frames
  {
    if frames > 0 {
      FadeDownIter(check, pwm, up, down, frames - 1);
      FadeStepBounds(FadeIter(check, pwm, up, down, frames - 1), pwm, up, down);
      assert check - (frames - 1) * down - down == check - frames * down;
    }
  }

  /**
   * The per-frame rate for a fade time (SoftPWM.cpp:329-339): 0 for a time
   * of 0, otherwise 255 * fadeScale / time narrowed to uint8_t, where
   * fadeScale is the clock-derived factor SOFTPWM_OCR * 256 / (F_CPU / 8000).
   */
  function FadeRate(time: U16, fadeScale: nat): (r: Byte)
    ensures time == 0 ==> r == 0
    ensures time > 0 && FadeAmount(time, fadeScale) < 256 ==> r == FadeAmount(time, fadeScale)
    // the narrowing to uint8_t keeps the quotient modulo 256
    ensures time > 0 ==> (FadeAmount(time, fadeScale) - r) % 256 == 0
  {
    if time == 0 then 0 else Wrap8(FadeAmount(time, fadeScale))
  }

  /** The unnarrowed quotient 255 * fadeScale / time; fadeAmount in SoftPWM.cpp:331. */
  function FadeAmount(time: U16, fadeScale: nat): nat
    requires time > 0
  {
    var total: nat := 255 * fadeScale;
    DivNonNegative(total, time);
    total / time
  }

  lemma DivNonNegative(a: nat, b: nat)
    requires b > 0
    ensures a / b >= 0
  {
  }

  lemma DivAntitone(a: nat, t1: nat, t2: nat)
    requires 0 < t1 <= t2
    ensures a / t2 <= a / t1
  {
    var q, q1 := a / t2, a / t1;
    MulMonotone(q, t1, t2);
    assert q * t2 <= a;
    if q > q1 {
      MulMonotone(t1, q1 + 1, q);
    }
  }

  lemma MulMonotone(m: nat, a: nat, b: nat)
    requires a <= b
    ensures m * a <= m * b
  {
  }

  /** Without wrap-around, a longer fade time never gives a larger rate. */
  lemma FadeRateAntitone(t1: U16, t2: U16, fadeScale: nat)
    requires 0 < t1 <= t2 && FadeAmount(t1, fadeScale) < 256
    ensures FadeRate(t2, fadeScale) <= FadeRate(t1, fadeScale)
  {
    DivAntitone(255 * fadeScale, t1, t2);
  }

  /**
   * SoftPWM.cpp:245: a percentage argument (any uint8_t) times 255, divided
   * by 100 and narrowed to uint8_t.
   */
  function PercentScale(p: Byte): (r: Byte)
    // for a percentage in 0..100, r is the floor of p * 255 / 100
    ensures p <= 100 ==> r * 100 <= p * 255 < r * 100 + 100
    // above 100 the quotient exceeds 255 and wraps
    ensures p > 100 ==> r == p * 255 / 100 - 256 * (p * 255 / 100 / 256)
  {
    Wrap8(p * 255 / 100)
  }

  /** The common percentages, and the wrap just above 100. */
  lemma PercentScaleValues()
    ensures PercentScale(0) == 0
    ensures PercentScale(50) == 127
    ensures PercentScale(100) == 255
    ensures PercentScale(101) == 1
  {
  }

  /** Scaling is monotone on valid percentages. */
  lemma PercentScaleMonotone(p: Byte, q: Byte)
    requires p <= q <= 100
    ensures PercentScale(p) <= PercentScale(q)
  {
    assert p * 255 <= q * 255;
  }
}
