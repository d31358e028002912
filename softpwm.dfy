/**
 * The library's global state as one object: the 20-slot channel table
 * updated in place, the three 8-bit counters of the interrupt, the default
 * polarity and the output levels. Each method is the loop of SoftPWM.cpp
 * that it models, proved against the transition of the same name.
 */
module SoftPwmDriver {
  import opened PwmTypes
  import opened FadeEngine
  import opened ChannelTable
  import opened TickScheduler
  import opened ControlApi
  import opened AnalogAverager

  class SoftPwm {
    const channels: array<Channel>
    var isrSoftcount: Byte
    var analogSoftcount: Byte
    var analogSample: Byte
    var defaultPolarity: Byte
    var levels: map<int, bool>
    /** The clock-derived factor SOFTPWM_OCR * 256 / (F_CPU / 8000) of the fade rates. */
    const fadeScale: nat

    ghost function State(): PwmState
      reads this, channels
    {
      PwmState(channels[..], isrSoftcount, analogSoftcount, analogSample, defaultPolarity, levels)
    }

    ghost predicate Valid()
      reads this, channels
    {
      channels.Length == MaxChannels && ValidState(State())
    }

    /** The globals as static initialisation leaves them (SoftPWM.cpp:67-70, 95). */
    constructor (fadeScale: nat)
      ensures Valid() && State() == InitialState() && this.fadeScale == fadeScale
    {
      channels := new Channel[MaxChannels](_ => ZeroChannel());
      isrSoftcount, analogSoftcount, analogSample := 0xff, 0, 0;
      defaultPolarity := Normal;
      levels := map[];
      this.fadeScale := fadeScale;
      new;
      assert channels[..] == InitialState().channels;
    }

    /** The timer interrupt (SoftPWM.cpp:99-186); `adc` is what analogRead would return. */
    method Tick(adc: nat)
      requires Valid()
      modifies this, channels
      ensures Valid() && State() == TickSpec(old(State()), adc)
    {
      isrSoftcount := Wrap8(isrSoftcount + 1);
      if isrSoftcount == 0 {
        FadeAndDriveOn();
      }
      ghost var f := State();
      assert f == FrameStart(old(State()));
      SampleAndDriveOff(adc);
      VisitAllSlots(f, adc);
      if isrSoftcount == 255 {
        analogSoftcount := Wrap8(analogSoftcount + 1);
      }
    }

    /** The frame-start loop of the interrupt (SoftPWM.cpp:108-148): fade every slot, then drive it "on". */
    method FadeAndDriveOn()
      requires Valid()
      modifies this, channels
      ensures Valid()
      ensures State() == old(State()).(channels := StartFrame(old(channels[..])),
                                       levels := Driven(StartFrame(old(channels[..])), FrameOn, old(levels)))
    {
      ghost var s := State();
      ghost var f := StartFrame(s.channels);
      var i := 0;
      while i < MaxChannels
        invariant 0 <= i <= MaxChannels
        invariant forall k :: 0 <= k < i ==> channels[k] == f[k]
        invariant forall k :: i <= k < MaxChannels ==> channels[k] == s.channels[k]
        invariant levels == Driven(f[..i], FrameOn, s.levels)
        invariant isrSoftcount == s.isrSoftcount && analogSoftcount == s.analogSoftcount
        invariant analogSample == s.analogSample && defaultPolarity == s.defaultPolarity
      {
        var c := channels[i];
        var checkval := FadeStep(c.checkval, c.pwmvalue, c.fadeuprate, c.fadedownrate);
        channels[i] := c.(checkval := checkval);
        DrivenStep(f, i, FrameOn, s.levels);
        if checkval > 0 && c.outport.Some? {
          levels := levels[c.outport.value := c.polarity == Normal];
        }
        i := i + 1;
      }
      assert f[..i] == f;
      assert channels[..] == f;
    }

    /**
     * The per-slot loop of the interrupt (SoftPWM.cpp:151-179): the sampling,
     * and driving "off" the used slots whose width the counter has reached.
     */
    method SampleAndDriveOff(adc: nat)
      requires Valid()
      modifies this, channels
      ensures Valid() && State() == VisitSlots(old(State()), adc, MaxChannels)
    {
      ghost var s := State();
      var i := 0;
      while i < MaxChannels
        invariant 0 <= i <= MaxChannels
        invariant Valid() && State() == VisitSlots(s, adc, i)
      {
        VisitSlotAt(i, adc);
        i := i + 1;
      }
    }

    /** Slot i's turn in the per-slot loop (SoftPWM.cpp:153-178). */
    method VisitSlotAt(i: nat, adc: nat)
      requires Valid() && i < MaxChannels
      modifies this, channels
      ensures Valid() && State() == VisitSlot(old(State()), adc, i)
    {
      ghost var s := State();
      if channels[i].pin >= 0 {
        if analogSoftcount == AnalogPeriod {
          if channels[i].analogReadbackDelay == isrSoftcount {
            var c := channels[i];
            channels[i] := c.(analogValue := c.analogValue[analogSample := adc]);
            analogSoftcount := 0;
            analogSample := analogSample + 1;
            if analogSample == AnalogSamples {
              analogSample := 0;
            }
            assert State() == StoreIn(s, adc, i);
          }
        }
        if channels[i].checkval == isrSoftcount && channels[i].outport.Some? {
          levels := levels[channels[i].outport.value := channels[i].polarity != Normal];
        }
      }
    }

    /** SoftPWMBegin (SoftPWM.cpp:188-224), without the timer and ADC set-up. */
    method Begin(defaultPolarity: Byte)
      requires Valid()
      modifies this, channels
      ensures Valid() && State() == BeginSpec(old(State()), defaultPolarity)
    {
      ghost var s := State();
      var i := 0;
      while i < MaxChannels
        invariant 0 <= i <= MaxChannels && channels.Length == MaxChannels
        invariant forall k :: 0 <= k < i ==> channels[k] == ResetSlot(s.channels[k])
        invariant forall k :: i <= k < MaxChannels ==> channels[k] == s.channels[k]
        invariant isrSoftcount == s.isrSoftcount && analogSoftcount == s.analogSoftcount
        invariant analogSample == s.analogSample && this.defaultPolarity == s.defaultPolarity && levels == s.levels
      {
        channels[i] := ResetSlot(channels[i]);
        i := i + 1;
      }
      this.defaultPolarity := defaultPolarity;
      assert channels[..] == BeginSpec(s, defaultPolarity).channels;
    }

    /** SoftPWMSet (SoftPWM.cpp:248-297), without the timer reset and pinMode. */
    method Set(pin: I8, readbackPin: I8, delay: Byte, value: Byte, hardset: Byte)
      requires Valid()
      modifies this, channels
      ensures Valid() && State() == SetSpec(old(State()), pin, readbackPin, delay, value, hardset)
    {
      ghost var s := State();
      ghost var t := s.channels;
      var firstFree: int := -1;
      if hardset != 0 {
        isrSoftcount := 0xff;
      }
      ghost var s1 := State();
      var i := 0;
      while i < MaxChannels
        invariant 0 <= i <= MaxChannels && channels.Length == MaxChannels
        invariant isrSoftcount == s1.isrSoftcount && analogSoftcount == s.analogSoftcount
        invariant analogSample == s.analogSample && defaultPolarity == s.defaultPolarity && levels == s.levels
        invariant pin >= 0 ==> channels[..] == t && forall k :: 0 <= k < i ==> t[k].pin != pin
        invariant pin < 0 ==> forall k :: 0 <= k < i ==>
          channels[k] == if InUse(t[k]) then t[k].(pwmvalue := value) else t[k]
        invariant pin < 0 ==> forall k :: i <= k < MaxChannels ==> channels[k] == t[k]
        invariant firstFree < 0 ==> firstFree == -1 && forall k :: 0 <= k < i ==> InUse(t[k])
        invariant firstFree >= 0 ==> (firstFree < i && !InUse(t[firstFree]) &&
          forall k :: 0 <= k < firstFree ==> InUse(t[k]))
      {
        if (pin < 0 && channels[i].pin >= 0) || (pin >= 0 && channels[i].pin == pin) {
          channels[i] := channels[i].(pwmvalue := value);
          if pin >= 0 {
            assert FindPin(t, pin) == Some(i);
            return;
          }
        }
        if firstFree < 0 && channels[i].pin < 0 {
          firstFree := i;
        }
        i := i + 1;
      }
      assert pin < 0 ==> channels[..] == SetSpec(s, pin, readbackPin, delay, value, hardset).channels;
      if pin >= 0 && firstFree >= 0 {
        assert FirstFree(t) == Some(firstFree);
        Register(firstFree, pin, readbackPin, delay, value);
      }
    }

    /** Allocation of free slot j to a new pin (SoftPWM.cpp:277-296), without pinMode. */
    method Register(j: nat, pin: I8, readbackPin: I8, delay: Byte, value: Byte)
      requires Valid() && j < MaxChannels && pin >= 0
      modifies this, channels
      ensures Valid()
      ensures State() == old(State()).(channels := old(channels[..])[j := Allocate(old(channels[j]), pin, readbackPin, delay, value, defaultPolarity)],
                                       levels := old(levels)[pin as int := defaultPolarity != Normal])
    {
      channels[j] := Allocate(channels[j], pin, readbackPin, delay, value, defaultPolarity);
      // turn the pin off to start
      levels := levels[pin as int := defaultPolarity != Normal];
    }

    /** SoftPWMSetPercent (SoftPWM.cpp:243-246). */
    method SetPercent(pin: I8, readbackPin: I8, delayPercent: Byte, percent: Byte, hardset: Byte)
      requires Valid()
      modifies this, channels
      ensures Valid() && State() == SetPercentSpec(old(State()), pin, readbackPin, delayPercent, percent, hardset)
    {
      Set(pin, readbackPin, PercentScale(delayPercent), PercentScale(percent), hardset);
    }

    /** SoftPWMEnd (SoftPWM.cpp:299-316), without pinMode. */
    method End(pin: I8)
      requires Valid()
      modifies this, channels
      ensures Valid() && State() == EndSpec(old(State()), pin)
    {
      ghost var s := State();
      ghost var t := s.channels;
      var i := 0;
      while i < MaxChannels
        invariant 0 <= i <= MaxChannels && channels.Length == MaxChannels
        invariant forall k :: 0 <= k < i ==> channels[k] == if Selects(pin, t[k]) then t[k].(pin := -1) else t[k]
        invariant forall k :: i <= k < MaxChannels ==> channels[k] == t[k]
        invariant levels == Driven(t[..i], Release(pin), s.levels)
        invariant isrSoftcount == s.isrSoftcount && analogSoftcount == s.analogSoftcount
        invariant analogSample == s.analogSample && defaultPolarity == s.defaultPolarity
      {
        DrivenStep(t, i, Release(pin), s.levels);
        if (pin < 0 && channels[i].pin >= 0) || (pin >= 0 && channels[i].pin == pin) {
          levels := levels[channels[i].pin as int := true];
          channels[i] := channels[i].(pin := -1);
        }
        i := i + 1;
      }
      assert t[..i] == t;
      assert channels[..] == EndSpec(s, pin).channels;
    }

    /** SoftPWMSetPolarity (SoftPWM.cpp:226-241). */
    method SetPolarity(pin: I8, polarity: Byte)
      requires Valid()
      modifies this, channels
      ensures Valid() && State() == SetPolaritySpec(old(State()), pin, polarity)
    {
      ghost var s := State();
      ghost var t := s.channels;
      var code := polarity;
      if code != Normal {
        code := Inverted;
      }
      var i := 0;
      while i < MaxChannels
        invariant 0 <= i <= MaxChannels && channels.Length == MaxChannels
        invariant forall k :: 0 <= k < i ==>
          channels[k] == if Selects(pin, t[k]) then t[k].(polarity := StoredPolarity(polarity)) else t[k]
        invariant forall k :: i <= k < MaxChannels ==> channels[k] == t[k]
        invariant isrSoftcount == s.isrSoftcount && analogSoftcount == s.analogSoftcount
        invariant analogSample == s.analogSample && defaultPolarity == s.defaultPolarity && levels == s.levels
      {
        if (pin < 0 && channels[i].pin >= 0) || (pin >= 0 && channels[i].pin == pin) {
          channels[i] := channels[i].(polarity := code);
        }
        i := i + 1;
      }
      assert channels[..] == SetPolaritySpec(s, pin, polarity).channels;
    }

    /** SoftPWMSetFadeTime (SoftPWM.cpp:318-345). */
    method SetFadeTime(pin: I8, fadeUpTime: U16, fadeDownTime: U16)
      requires Valid()
      modifies this, channels
      ensures Valid() && State() == SetFadeTimeSpec(old(State()), pin, fadeUpTime, fadeDownTime, fadeScale)
    {
      ghost var s := State();
      ghost var t := s.channels;
      var i := 0;
      while i < MaxChannels
        invariant 0 <= i <= MaxChannels && channels.Length == MaxChannels
        invariant isrSoftcount == s.isrSoftcount && analogSoftcount == s.analogSoftcount
        invariant analogSample == s.analogSample && defaultPolarity == s.defaultPolarity && levels == s.levels
        invariant pin >= 0 ==> channels[..] == t && forall k :: 0 <= k < i ==> t[k].pin != pin
        invariant pin < 0 ==> forall k :: 0 <= k < i ==>
          channels[k] == if InUse(t[k]) then
            t[k].(fadeuprate := FadeRate(fadeUpTime, fadeScale), fadedownrate := FadeRate(fadeDownTime, fadeScale))
          else t[k]
        invariant pin < 0 ==> forall k :: i <= k < MaxChannels ==> channels[k] == t[k]
      {
        if (pin < 0 && channels[i].pin >= 0) || (pin >= 0 && channels[i].pin == pin) {
          channels[i] := channels[i].(fadeuprate := FadeRate(fadeUpTime, fadeScale),
                                      fadedownrate := FadeRate(fadeDownTime, fadeScale));
          if pin >= 0 {
            assert FindPin(t, pin) == Some(i);
            break;
          }
        }
        i := i + 1;
      }
      assert pin < 0 ==> channels[..] == SetFadeTimeSpec(s, pin, fadeUpTime, fadeDownTime, fadeScale).channels;
    }

    /**
     * SoftPWMGetAnalog (SoftPWM.cpp:347-376): the integer mean of the non-zero
     * samples of the slots holding `pin`; the source divides by zero when
     * there are none.
     */
    method GetAnalog(pin: Byte) returns (analog: int)
      requires Valid()
      requires SampleCount(channels[..], pin) > 0
      ensures analog == Average(channels[..], pin)
    {
      var validSamples: Byte := 0;
      var sampleSum: int := 0;
      var i := 0;
      while i < MaxChannels
        invariant 0 <= i <= MaxChannels
        invariant sampleSum == SampleSum(channels[..i], pin)
        invariant validSamples == SampleCount(channels[..i], pin)
      {
        ghost var done := channels[..i];
        if channels[i].pin == pin {
          ghost var v := channels[i].analogValue;
          var j := 0;
          while j < AnalogSamples
            invariant 0 <= j <= AnalogSamples
            invariant sampleSum == SampleSum(done, pin) + NonZeroSum(v[..j])
            invariant validSamples == SampleCount(done, pin) + NonZeroCount(v[..j])
          {
            if channels[i].analogValue[j] != 0 {
              SampleCountBound(done, pin);
              NonZeroCountBound(v[..j]);
              sampleSum := sampleSum + channels[i].analogValue[j];
              validSamples := validSamples + 1;
            }
            assert v[..j + 1][..j] == v[..j];
            j := j + 1;
          }
          assert v[..j] == v;
        }
        assert channels[..i + 1][..i] == done;
        i := i + 1;
      }
      assert channels[..i] == channels[..];
      analog := sampleSum / validSamples;
    }
  }
}
