/**
 * The readback average of SoftPWMGetAnalog (SoftPWM.cpp:347-376): the sum of
 * the non-zero stored samples of every slot holding the pin, divided by their
 * number. Zero entries count as "no sample".
 */
module AnalogAverager {
  import opened PwmTypes
  import opened FadeEngine

  /** The sum of the non-zero entries of one slot's sample buffer. */
  function NonZeroSum(v: seq<nat>): nat
    decreases |v|
  {
    if v == [] then 0
    else NonZeroSum(v[..|v| - 1]) + (if v[|v| - 1] != 0 then v[|v| - 1] else 0)
  }

  /** The number of non-zero entries of one slot's sample buffer. */
  function NonZeroCount(v: seq<nat>): nat
    decreases |v|
  {
    if v == [] then 0
    else NonZeroCount(v[..|v| - 1]) + (if v[|v| - 1] != 0 then 1 else 0)
  }

  /** NonZeroSum over every slot whose pin equals `pin`. */
  function SampleSum(t: seq<Channel>, pin: int): nat
    decreases |t|
  {
    if t == [] then 0
    else SampleSum(t[..|t| - 1], pin) + (if t[|t| - 1].pin == pin then NonZeroSum(t[|t| - 1].analogValue) else 0)
  }

  /** NonZeroCount over every slot whose pin equals `pin`. */
  function SampleCount(t: seq<Channel>, pin: int): nat
    decreases |t|
  {
    if t == [] then 0
    else SampleCount(t[..|t| - 1], pin) + (if t[|t| - 1].pin == pin then NonZeroCount(t[|t| - 1].analogValue) else 0)
  }

  /** The integer mean that SoftPWMGetAnalog returns; undefined without a sample. */
  function Average(t: seq<Channel>, pin: int): nat
    requires SampleCount(t, pin) > 0
  {
    SampleSum(t, pin) / SampleCount(t, pin)
  }

  /** All non-zero samples of the slots holding `pin` lie in [lo, hi]. */
  predicate SamplesWithin(t: seq<Channel>, pin: int, lo: nat, hi: nat)
  {
    forall k, j :: 0 <= k < |t| && t[k].pin == pin && 0 <= j < |t[k].analogValue| && t[k].analogValue[j] != 0 ==>
      lo <= t[k].analogValue[j] <= hi
  }

  lemma {:induction false} NonZeroCountBound(v: seq<nat>)
    ensures NonZeroCount(v) <= |v|
    decreases |v|
  {
    if v != [] {
      NonZeroCountBound(v[..|v| - 1]);
    }
  }

  /**
   * With ten samples per slot the count is at most ten per slot, 200 for the
   * whole table, so the uint8_t counter validSamples never wraps.
   */
  lemma {:induction false} SampleCountBound(t: seq<Channel>, pin: int)
    requires forall k :: 0 <= k < |t| ==> |t[k].analogValue| == AnalogSamples
    ensures SampleCount(t, pin) <= AnalogSamples * |t|
    ensures |t| == MaxChannels ==> SampleCount(t, pin) < 256
    decreases |t|
  {
    if t != [] {
      SampleCountBound(t[..|t| - 1], pin);
      NonZeroCountBound(t[|t| - 1].analogValue);
    }
  }

  lemma {:induction false} NonZeroSumBounds(v: seq<nat>, lo: nat, hi: nat)
    requires forall j :: 0 <= j < |v| && v[j] != 0 ==> lo <= v[j] <= hi
    ensures lo * NonZeroCount(v) <= NonZeroSum(v) <= hi * NonZeroCount(v)
    decreases |v|
  {
    if v != [] {
      var init := v[..|v| - 1];
      NonZeroSumBounds(init, lo, hi);
      var n := NonZeroCount(init);
      if v[|v| - 1] != 0 {
        MulAdd(lo, n, 1);
        MulAdd(hi, n, 1);
      }
    }
  }

  lemma {:induction false} SampleSumBounds(t: seq<Channel>, pin: int, lo: nat, hi: nat)
    requires SamplesWithin(t, pin, lo, hi)
    ensures lo * SampleCount(t, pin) <= SampleSum(t, pin) <= hi * SampleCount(t, pin)
    decreases |t|
  {
    if t != [] {
      var init, last := t[..|t| - 1], t[|t| - 1];
      assert SamplesWithin(init, pin, lo, hi) by {
        forall k, j | 0 <= k < |init| && init[k].pin == pin && 0 <= j < |init[k].analogValue| && init[k].analogValue[j] != 0
          ensures lo <= init[k].analogValue[j] <= hi
        {
          assert init[k] == t[k];
        }
      }
      SampleSumBounds(init, pin, lo, hi);
      if last.pin == pin {
        assert forall j :: 0 <= j < |last.analogValue| && last.analogValue[j] != 0 ==>
          lo <= last.analogValue[j] <= hi by {
          assert last == t[|t| - 1];
        }
        NonZeroSumBounds(last.analogValue, lo, hi);
        MulAdd(lo, SampleCount(init, pin), NonZeroCount(last.analogValue));
        MulAdd(hi, SampleCount(init, pin), NonZeroCount(last.analogValue));
      }
    }
  }

  lemma MulAdd(m: nat, a: nat, b: nat)
    ensures m * (a + b) == m * a + m * b
  {
  }

  lemma DivBounds(a: nat, b: nat, lo: nat, hi: nat)
    requires b > 0 && lo * b <= a <= hi * b
    ensures lo <= a / b <= hi
  {
    var q := a / b;
    MulAdd(b, q, 1);
    assert a < b * (q + 1);
    if q < lo {
      MulMonotone(b, q + 1, lo);
    }
  }

  /** The average lies between the smallest and the largest non-zero sample. */
  lemma AverageBounds(t: seq<Channel>, pin: int, lo: nat, hi: nat)
    requires SampleCount(t, pin) > 0 && SamplesWithin(t, pin, lo, hi)
    ensures lo <= Average(t, pin) <= hi
  {
    SampleSumBounds(t, pin, lo, hi);
    DivBounds(SampleSum(t, pin), SampleCount(t, pin), lo, hi);
  }

  /** A steady reading averages to itself, however many entries are still zero. */
  lemma AverageSteady(t: seq<Channel>, pin: int, v: nat)
    requires SampleCount(t, pin) > 0 && SamplesWithin(t, pin, v, v)
    ensures Average(t, pin) == v
  {
    AverageBounds(t, pin, v, v);
  }
}
