/**
 * The timer interrupt (SoftPWM.cpp:99-186) as a transition on the whole
 * state, and what it guarantees over one tick and over a run of ticks.
 */
module TickScheduler {
  import opened PwmTypes
  import opened FadeEngine
  import opened ChannelTable

  /** A slot after the fade step of a frame start: only its checkval moves. */
  function FadeSlot(c: Channel): Channel
  {
    c.(checkval := FadeStep(c.checkval, c.pwmvalue, c.fadeuprate, c.fadedownrate))
  }

  /** The frame-start pass applies the fade step to all slots, free ones included (SoftPWM.cpp:112). */
  function StartFrame(t: seq<Channel>): seq<Channel>
  {
    seq(|t|, i requires 0 <= i < |t| => FadeSlot(t[i]))
  }

  /** Everything of a slot but its stored samples. */
  function Config(c: Channel): Channel
  {
    c.(analogValue := [])
  }

  /** A pass reads nothing of a slot's stored samples. */
  lemma ConfigPassWrite(c: Channel, d: Channel, pass: Pass)
    requires Config(c) == Config(d)
    ensures PassWrite(c, pass) == PassWrite(d, pass)
  {
    assert c.pin == Config(c).pin && c.checkval == Config(c).checkval;
    assert c.outport == Config(c).outport && c.polarity == Config(c).polarity;
  }

  /** The first used slot whose readback delay equals the counter. */
  function SampleSlot(t: seq<Channel>, count: Byte): (r: Option<nat>)
    ensures r.Some? ==> r.value < |t| && InUse(t[r.value]) && t[r.value].analogReadbackDelay == count
    ensures r.Some? ==> forall k :: 0 <= k < r.value ==> !(InUse(t[k]) && t[k].analogReadbackDelay == count)
    ensures r.None? ==> forall k :: 0 <= k < |t| ==> !(InUse(t[k]) && t[k].analogReadbackDelay == count)
    decreases |t|
  {
    if t == [] then None
    else if InUse(t[0]) && t[0].analogReadbackDelay == count then Some(0)
    else match SampleSlot(t[1..], count)
      case None => None
      case Some(k) => Some(k + 1)
  }

  /**
   * The sampling of SoftPWM.cpp:155-167: when the period counter has reached
   * SOFTPWM_ANALOG, the first used slot whose delay is the counter stores the
   * ADC value at the shared index; the store clears the period counter, so no
   * later slot of the same tick stores.
   */
  function StoreSample(s: PwmState, adc: nat): PwmState
    requires ValidState(s)
  {
    if s.analogSoftcount == AnalogPeriod then
      match SampleSlot(s.channels, s.isrSoftcount)
      case None => s
      case Some(i) => StoreIn(s, adc, i)
    else
      s
  }

  /** The store of SoftPWM.cpp:159-166 into slot i: the sample goes to the shared index, which then advances. */
  function StoreIn(s: PwmState, adc: nat, i: nat): PwmState
    requires ValidState(s) && i < |s.channels|
  {
    var c := s.channels[i];
    var next := s.analogSample + 1;
    s.(channels := s.channels[i := c.(analogValue := c.analogValue[s.analogSample := adc])],
       analogSoftcount := 0,
       analogSample := if next == AnalogSamples then 0 else next)
  }

  /**
   * Slot i's turn in the per-slot loop of the interrupt (SoftPWM.cpp:153-178):
   * a used slot may take the sample, then is driven "off" if the counter has
   * reached its checkval.
   */
  function VisitSlot(s: PwmState, adc: nat, i: nat): (r: PwmState)
    requires ValidState(s) && i < |s.channels|
    ensures ValidState(r)
  {
    if !InUse(s.channels[i]) then s
    else
      var s1 := if s.analogSoftcount == AnalogPeriod && s.channels[i].analogReadbackDelay == s.isrSoftcount
                then StoreIn(s, adc, i) else s;
      var c := s1.channels[i];
      if c.checkval == s.isrSoftcount && c.outport.Some? then s1.(levels := s1.levels[c.outport.value := c.polarity != Normal])
      else s1
  }

  /** The state after the first n turns of the per-slot loop. */
  function VisitSlots(s: PwmState, adc: nat, n: nat): (r: PwmState)
    requires ValidState(s) && n <= |s.channels|
    ensures ValidState(r)
    decreases n
  {
    if n == 0 then s else VisitSlot(VisitSlots(s, adc, n - 1), adc, n - 1)
  }

  /** Whether the slot that takes this tick's sample is among the first n. */
  predicate SampledBefore(s: PwmState, n: nat)
  {
    s.analogSoftcount == AnalogPeriod && SampleSlot(s.channels, s.isrSoftcount).Some? &&
    SampleSlot(s.channels, s.isrSoftcount).value < n
  }

  /** The turns of the loop change neither the counter nor anything of a slot but its samples. */
  lemma {:induction false} VisitSlotsConfig(s: PwmState, adc: nat, n: nat)
    requires ValidState(s) && n <= |s.channels|
    ensures var r := VisitSlots(s, adc, n);
      r.isrSoftcount == s.isrSoftcount && r.defaultPolarity == s.defaultPolarity &&
      forall k :: 0 <= k < |s.channels| ==> Config(r.channels[k]) == Config(s.channels[k])
    decreases n
  {
    if n > 0 {
      VisitSlotsConfig(s, adc, n - 1);
      var m := VisitSlots(s, adc, n - 1);
      if InUse(m.channels[n - 1]) && m.analogSoftcount == AnalogPeriod && m.channels[n - 1].analogReadbackDelay == m.isrSoftcount {
        var c := m.channels[n - 1];
        assert Config(c.(analogValue := c.analogValue[m.analogSample := adc])) == Config(c);
      }
    }
  }

  /**
   * The loop takes the sample in the slot StoreSample picks, and nowhere
   * else: before that slot's turn nothing is stored, from it on the state
   * holds StoreSample's table, period counter and index.
   */
  lemma {:induction false} VisitSlotsSample(s: PwmState, adc: nat, n: nat)
    requires ValidState(s) && n <= |s.channels|
    ensures var r, stored := VisitSlots(s, adc, n), StoreSample(s, adc);
      if SampledBefore(s, n) then
        r.channels == stored.channels && r.analogSoftcount == stored.analogSoftcount && r.analogSample == stored.analogSample
      else
        r.channels == s.channels && r.analogSoftcount == s.analogSoftcount && r.analogSample == s.analogSample
    decreases n
  {
    if n > 0 {
      VisitSlotsSample(s, adc, n - 1);
      VisitSlotsConfig(s, adc, n - 1);
      SampleTurn(s, VisitSlots(s, adc, n - 1), adc, n - 1);
    }
  }

  /** The step of VisitSlotsSample: slot i's turn, from the state m the first i turns left. */
  lemma SampleTurn(s: PwmState, m: PwmState, adc: nat, i: nat)
    requires ValidState(s) && ValidState(m) && i < |s.channels|
    requires m.isrSoftcount == s.isrSoftcount
    requires forall k :: 0 <= k < |s.channels| ==> Config(m.channels[k]) == Config(s.channels[k])
    requires var stored := StoreSample(s, adc);
      if SampledBefore(s, i) then
        m.channels == stored.channels && m.analogSoftcount == stored.analogSoftcount && m.analogSample == stored.analogSample
      else
        m.channels == s.channels && m.analogSoftcount == s.analogSoftcount && m.analogSample == s.analogSample
    ensures var r, stored := VisitSlot(m, adc, i), StoreSample(s, adc);
      if SampledBefore(s, i + 1) then
        r.channels == stored.channels && r.analogSoftcount == stored.analogSoftcount && r.analogSample == stored.analogSample
      else
        r.channels == s.channels && r.analogSoftcount == s.analogSoftcount && r.analogSample == s.analogSample
  {
    VisitSlotSample(m, adc, i);
    var w := SampleSlot(s.channels, s.isrSoftcount);
    if !SampledBefore(s, i) && SampledBefore(s, i + 1) {
      assert w == Some(i);
      assert StoreIn(m, adc, i).channels == StoreIn(s, adc, i).channels;
    } else if !SampledBefore(s, i) {
      if s.analogSoftcount == AnalogPeriod {
        assert !(InUse(s.channels[i]) && s.channels[i].analogReadbackDelay == s.isrSoftcount);
      }
    } else {
      assert m.analogSoftcount == 0;
    }
  }

  /** Slot i's turn stores the sample exactly when the slot is used, the period is up and its delay is the counter. */
  lemma VisitSlotSample(m: PwmState, adc: nat, i: nat)
    requires ValidState(m) && i < |m.channels|
    ensures var r := VisitSlot(m, adc, i);
      if InUse(m.channels[i]) && m.analogSoftcount == AnalogPeriod && m.channels[i].analogReadbackDelay == m.isrSoftcount then
        r.channels == StoreIn(m, adc, i).channels && r.analogSoftcount == 0 &&
        r.analogSample == StoreIn(m, adc, i).analogSample
      else
        r.channels == m.channels && r.analogSoftcount == m.analogSoftcount && r.analogSample == m.analogSample
  {
  }

  /** The loop drives "off" exactly as the FrameOff pass over the table does. */
  lemma {:induction false} VisitSlotsLevels(s: PwmState, adc: nat, n: nat)
    requires ValidState(s) && n <= |s.channels|
    ensures VisitSlots(s, adc, n).levels == Driven(s.channels[..n], FrameOff(s.isrSoftcount), s.levels)
    decreases n
  {
    if n > 0 {
      VisitSlotsLevels(s, adc, n - 1);
      VisitSlotsConfig(s, adc, n - 1);
      var m := VisitSlots(s, adc, n - 1);
      var pass := FrameOff(s.isrSoftcount);
      DrivenStep(s.channels, n - 1, pass, s.levels);
      var s1 := if InUse(m.channels[n - 1]) && m.analogSoftcount == AnalogPeriod && m.channels[n - 1].analogReadbackDelay == m.isrSoftcount
                then StoreIn(m, adc, n - 1) else m;
      assert Config(s1.channels[n - 1]) == Config(m.channels[n - 1]);
      ConfigPassWrite(s1.channels[n - 1], s.channels[n - 1], pass);
    }
  }

  /** The whole per-slot loop is StoreSample followed by the FrameOff pass. */
  lemma VisitAllSlots(s: PwmState, adc: nat)
    requires ValidState(s)
    ensures VisitSlots(s, adc, |s.channels|) ==
      StoreSample(s, adc).(levels := Driven(s.channels, FrameOff(s.isrSoftcount), s.levels))
  {
    var n := |s.channels|;
    VisitSlotsConfig(s, adc, n);
    VisitSlotsSample(s, adc, n);
    VisitSlotsLevels(s, adc, n);
    assert s.channels[..n] == s.channels;
    if !SampledBefore(s, n) {
      assert StoreSample(s, adc) == s;
    }
  }

  /**
   * The first part of the interrupt (SoftPWM.cpp:108-149): the counter
   * advances modulo 256 and, at the wrap to 0, the frame-start pass fades
   * every slot and drives it "on".
   */
  function FrameStart(s: PwmState): (r: PwmState)
    requires ValidState(s)
    ensures ValidState(r)
  {
    var count := Wrap8(s.isrSoftcount + 1);
    if count == 0 then
      var t := StartFrame(s.channels);
      s.(channels := t, isrSoftcount := 0, levels := Driven(t, FrameOn, s.levels))
    else
      s.(isrSoftcount := count)
  }

  /** One timer interrupt; `adc` is the value the ADC returns if this tick samples. */
  function TickSpec(s: PwmState, adc: nat): (r: PwmState)
    requires ValidState(s)
    ensures ValidState(r)
  {
    var f := FrameStart(s);
    var stored := StoreSample(f, adc);
    stored.(levels := Driven(f.channels, FrameOff(f.isrSoftcount), f.levels),
            analogSoftcount := if f.isrSoftcount == 255 then Wrap8(stored.analogSoftcount + 1) else stored.analogSoftcount)
  }

  /** The state after one tick per element of `samples`, in order. */
  function Run(s: PwmState, samples: seq<nat>): (r: PwmState)
    requires ValidState(s)
    ensures ValidState(r)
    decreases |samples|
  {
    if samples == [] then s else TickSpec(Run(s, samples[..|samples| - 1]), samples[|samples| - 1])
  }

  /**
   * The frame start advances the counter modulo 256, changes slots only at
   * the wrap to 0 and then only by the fade step, and leaves the sampling
   * state alone.
   */
  lemma FrameStartFacts(s: PwmState)
    requires ValidState(s)
    ensures var r := FrameStart(s);
      r.isrSoftcount == (s.isrSoftcount + 1) % 256 &&
      r.analogSoftcount == s.analogSoftcount && r.analogSample == s.analogSample &&
      r.defaultPolarity == s.defaultPolarity && |r.channels| == |s.channels| &&
      (r.isrSoftcount != 0 ==> r.levels == s.levels) &&
      forall k :: 0 <= k < |s.channels| ==>
        r.channels[k] == (if r.isrSoftcount == 0 then FadeSlot(s.channels[k]) else s.channels[k])
  {
  }

  /** The sampling changes only stored samples, the period counter and the index. */
  lemma StoreSampleKeeps(s: PwmState, adc: nat)
    requires ValidState(s)
    ensures var r := StoreSample(s, adc);
      r.isrSoftcount == s.isrSoftcount && r.defaultPolarity == s.defaultPolarity && r.levels == s.levels &&
      |r.channels| == |s.channels| &&
      forall k :: 0 <= k < |s.channels| ==> Config(r.channels[k]) == Config(s.channels[k])
  {
    if s.analogSoftcount == AnalogPeriod && SampleSlot(s.channels, s.isrSoftcount).Some? {
      var i := SampleSlot(s.channels, s.isrSoftcount).value;
      var c := s.channels[i];
      assert Config(c.(analogValue := c.analogValue[s.analogSample := adc])) == Config(c);
    }
  }

  /**
   * A tick advances the counter modulo 256; apart from stored samples it
   * changes the table only at the wrap to 0, and then only by the fade step.
   */
  lemma TickConfig(s: PwmState, adc: nat)
    requires ValidState(s)
    ensures TickSpec(s, adc).isrSoftcount == (s.isrSoftcount + 1) % 256
    ensures forall k :: 0 <= k < |s.channels| ==>
      Config(TickSpec(s, adc).channels[k]) ==
      Config(if TickSpec(s, adc).isrSoftcount == 0 then FadeSlot(s.channels[k]) else s.channels[k])
  {
    FrameStartFacts(s);
    StoreSampleKeeps(FrameStart(s), adc);
  }

  /** The interrupt keeps the table well formed: it never changes pins or registers. */
  lemma TickKeepsWellFormed(s: PwmState, adc: nat)
    requires ValidState(s) && WellFormed(s.channels)
    ensures WellFormed(TickSpec(s, adc).channels)
  {
    TickConfig(s, adc);
    var t := TickSpec(s, adc).channels;
    assert forall k :: 0 <= k < |t| ==> t[k].pin == Config(t[k]).pin && t[k].outport == Config(t[k]).outport;
  }

  /**
   * When the period has elapsed and slot i is the first used slot whose delay
   * is the new counter, the tick stores `adc` in slot i at the shared index
   * and in no other slot, advances the index modulo SOFTPWM_ANALOG_SAMPLES
   * and restarts the period.
   */
  lemma TickStoresSample(s: PwmState, adc: nat, i: nat)
    requires ValidState(s) && s.analogSoftcount == AnalogPeriod
    requires i < |s.channels| && InUse(s.channels[i])
    requires s.channels[i].analogReadbackDelay == (s.isrSoftcount + 1) % 256
    requires forall k :: 0 <= k < i ==>
      !(InUse(s.channels[k]) && s.channels[k].analogReadbackDelay == (s.isrSoftcount + 1) % 256)
    ensures TickSpec(s, adc).channels[i].analogValue == s.channels[i].analogValue[s.analogSample := adc]
    ensures forall k :: 0 <= k < |s.channels| && k != i ==>
      TickSpec(s, adc).channels[k].analogValue == s.channels[k].analogValue
    ensures TickSpec(s, adc).analogSample == (s.analogSample + 1) % AnalogSamples
    ensures TickSpec(s, adc).analogSoftcount == if s.isrSoftcount == 254 then 1 else 0
  {
    var f := FrameStart(s);
    FrameStartFacts(s);
    var t := f.channels;
    assert forall k :: 0 <= k < |t| ==>
      t[k].pin == s.channels[k].pin && t[k].analogReadbackDelay == s.channels[k].analogReadbackDelay &&
      t[k].analogValue == s.channels[k].analogValue;
    SampleSlotIs(t, f.isrSoftcount, i);
    StoreSampleAt(f, adc, i);
    var stored, r := StoreSample(f, adc), TickSpec(s, adc);
    assert r.channels == stored.channels && r.analogSample == stored.analogSample;
    assert stored.analogSample == (s.analogSample + 1) % AnalogSamples;
  }

  /** What StoreSample does once SampleSlot has picked slot i. */
  lemma StoreSampleAt(p: PwmState, adc: nat, i: nat)
    requires ValidState(p) && p.analogSoftcount == AnalogPeriod && SampleSlot(p.channels, p.isrSoftcount) == Some(i)
    ensures var r := StoreSample(p, adc);
      |r.channels| == |p.channels| &&
      r.channels[i].analogValue == p.channels[i].analogValue[p.analogSample := adc] &&
      (forall k :: 0 <= k < |p.channels| && k != i ==> r.channels[k].analogValue == p.channels[k].analogValue) &&
      r.analogSample == (p.analogSample + 1) % AnalogSamples && r.analogSoftcount == 0
  {
    var next := p.analogSample + 1;
    assert (if next == AnalogSamples then 0 else next) == next % AnalogSamples;
  }

  /** The first slot that matches is the one SampleSlot finds. */
  lemma SampleSlotIs(t: seq<Channel>, count: Byte, i: nat)
    requires i < |t| && InUse(t[i]) && t[i].analogReadbackDelay == count
    requires forall k :: 0 <= k < i ==> !(InUse(t[k]) && t[k].analogReadbackDelay == count)
    ensures SampleSlot(t, count) == Some(i)
  {
  }

  /**
   * Otherwise the tick stores nothing: no samples change, the index stays,
   * and the period counter only moves, by one modulo 256, at counter 255.
   */
  lemma TickStoresNothing(s: PwmState, adc: nat)
    requires ValidState(s)
    requires s.analogSoftcount != AnalogPeriod ||
      forall k :: 0 <= k < |s.channels| && InUse(s.channels[k]) ==>
        s.channels[k].analogReadbackDelay != (s.isrSoftcount + 1) % 256
    ensures forall k :: 0 <= k < |s.channels| ==>
      TickSpec(s, adc).channels[k].analogValue == s.channels[k].analogValue
    ensures TickSpec(s, adc).analogSample == s.analogSample
    ensures TickSpec(s, adc).analogSoftcount ==
      if s.isrSoftcount == 254 then (s.analogSoftcount + 1) % 256 else s.analogSoftcount
  {
    var f := FrameStart(s);
    FrameStartFacts(s);
    var t := f.channels;
    assert forall k :: 0 <= k < |t| ==>
      t[k].pin == s.channels[k].pin && t[k].analogReadbackDelay == s.channels[k].analogReadbackDelay &&
      t[k].analogValue == s.channels[k].analogValue;
    assert s.analogSoftcount == AnalogPeriod ==> SampleSlot(t, f.isrSoftcount) == None;
    assert StoreSample(f, adc) == f;
  }

  /** At most one slot's samples change in a tick. */
  lemma TickAtMostOneSample(s: PwmState, adc: nat, i: nat, j: nat)
    requires ValidState(s) && i < j < |s.channels|
    ensures TickSpec(s, adc).channels[i].analogValue == s.channels[i].analogValue ||
            TickSpec(s, adc).channels[j].analogValue == s.channels[j].analogValue
  {
    var count := (s.isrSoftcount + 1) % 256;
    if s.analogSoftcount == AnalogPeriod && !forall k :: 0 <= k < |s.channels| && InUse(s.channels[k]) ==> s.channels[k].analogReadbackDelay != count {
      var t := s.channels;
      var first := SampleSlot(t, count);
      assert first.Some?;
      TickStoresSample(s, adc, first.value);
    } else {
      TickStoresNothing(s, adc);
    }
  }

  /** A pin that no slot's register drives keeps its level through a tick. */
  lemma TickUntouchedPin(s: PwmState, adc: nat, q: int)
    requires ValidState(s)
    requires forall k :: 0 <= k < |s.channels| ==> s.channels[k].outport != Some(q)
    ensures q in TickSpec(s, adc).levels <==> q in s.levels
    ensures q in s.levels ==> TickSpec(s, adc).levels[q] == s.levels[q]
  {
    var f := FrameStart(s);
    FrameStartFacts(s);
    if f.isrSoftcount == 0 {
      DrivenUntouched(StartFrame(s.channels), FrameOn, s.levels, q);
    }
    assert forall k :: 0 <= k < |f.channels| ==> f.channels[k].outport == s.channels[k].outport;
    DrivenUntouched(f.channels, FrameOff(f.isrSoftcount), f.levels, q);
    StoreSampleKeeps(f, adc);
  }

  /**
   * One tick as seen from a pin p that only slot i's register drives: the
   * frame start drives it "on" when the new checkval is positive, the
   * counter reaching checkval drives it "off", and otherwise it keeps its level.
   */
  lemma TickSoleLevel(s: PwmState, adc: nat, i: nat, p: int)
    requires ValidState(s)
    requires i < |s.channels| && InUse(s.channels[i]) && s.channels[i].outport == Some(p)
    requires forall k :: 0 <= k < |s.channels| && k != i ==> s.channels[k].outport != Some(p)
    ensures var count := (s.isrSoftcount + 1) % 256;
      var c := if count == 0 then FadeSlot(s.channels[i]) else s.channels[i];
      var r := TickSpec(s, adc);
      if c.checkval == count then p in r.levels && r.levels[p] == (c.polarity != Normal)
      else if count == 0 && c.checkval > 0 then p in r.levels && r.levels[p] == (c.polarity == Normal)
      else (p in r.levels <==> p in s.levels) && (p in s.levels ==> r.levels[p] == s.levels[p])
  {
    var f := FrameStart(s);
    FrameStartFacts(s);
    var t := f.channels;
    assert forall k :: 0 <= k < |t| ==> t[k].outport == s.channels[k].outport;
    if f.isrSoftcount == 0 {
      DrivenSole(t, FrameOn, s.levels, i, p);
    }
    DrivenSole(t, FrameOff(f.isrSoftcount), f.levels, i, p);
    StoreSampleKeeps(f, adc);
  }

  /**
   * Output timing. Start at a frame boundary (counter 255) and let slot i be
   * the only slot whose register is pin p. Over the next 256 ticks its
   * checkval c is the one the fade step gave it at counter 0, and after the
   * tick at counter n the pin is "on" exactly when n < c: on at 0 and off
   * from c on, never on when c is 0; inverted polarity swaps the levels.
   */
  lemma {:induction false} OutputTiming(s: PwmState, samples: seq<nat>, i: nat, p: int)
    requires ValidState(s) && s.isrSoftcount == 255
    requires i < |s.channels| && InUse(s.channels[i]) && s.channels[i].outport == Some(p)
    requires forall k :: 0 <= k < |s.channels| && k != i ==> s.channels[k].outport != Some(p)
    requires 0 < |samples| <= 256
    ensures Run(s, samples).isrSoftcount == |samples| - 1
    ensures forall k :: 0 <= k < |s.channels| ==> Config(Run(s, samples).channels[k]) == Config(FadeSlot(s.channels[k]))
    ensures p in Run(s, samples).levels
    ensures Run(s, samples).levels[p] ==
      var on := |samples| - 1 < FadeSlot(s.channels[i]).checkval;
      if s.channels[i].polarity == Normal then on else !on
    decreases |samples|
  {
    var n := |samples| - 1;
    var prev := samples[..n];
    var m := Run(s, prev);
    var r := TickSpec(m, samples[n]);
    assert Run(s, samples) == r;
    if n == 0 {
      assert prev == [];
      TickConfig(s, samples[0]);
      TickSoleLevel(s, samples[0], i, p);
    } else {
      OutputTiming(s, prev, i, p);
      TickConfig(m, samples[n]);
      assert forall k :: 0 <= k < |m.channels| ==> m.channels[k].outport == Config(m.channels[k]).outport;
      assert forall k :: 0 <= k < |m.channels| ==> m.channels[k].outport == FadeSlot(s.channels[k]).outport;
      assert m.channels[i].pin == Config(m.channels[i]).pin;
      assert m.channels[i].checkval == Config(m.channels[i]).checkval;
      assert m.channels[i].polarity == Config(m.channels[i]).polarity;
      TickSoleLevel(m, samples[n], i, p);
    }
  }

  /**
   * Two slots share the register of pin p: slot i is used with normal
   * polarity, slot j > i is free and inverted. One tick as seen from p: a
   * frame start at which j's new checkval is positive leaves p LOW, because
   * j writes after i; any other tick keeps a LOW p LOW, because only i, a
   * used normal slot, can write p then, and it writes LOW.
   */
  lemma TickStaleLevel(s: PwmState, adc: nat, i: nat, j: nat, p: int)
    requires ValidState(s) && i < j < |s.channels|
    requires InUse(s.channels[i]) && s.channels[i].outport == Some(p) && s.channels[i].polarity == Normal
    requires !InUse(s.channels[j]) && s.channels[j].outport == Some(p) && s.channels[j].polarity != Normal
    requires forall k :: 0 <= k < |s.channels| && k != i && k != j ==> s.channels[k].outport != Some(p)
    ensures var r := TickSpec(s, adc);
      ((s.isrSoftcount + 1) % 256 == 0 && FadeSlot(s.channels[j]).checkval > 0 ==> p in r.levels && !r.levels[p]) &&
      ((s.isrSoftcount + 1) % 256 != 0 && p in s.levels && !s.levels[p] ==> p in r.levels && !r.levels[p])
  {
    var f := FrameStart(s);
    FrameStartFacts(s);
    StoreSampleKeeps(f, adc);
    var t := f.channels;
    assert forall k :: 0 <= k < |t| ==> t[k].outport == s.channels[k].outport && t[k].pin == s.channels[k].pin && t[k].polarity == s.channels[k].polarity;
    if f.isrSoftcount == 0 && t[j].checkval > 0 {
      assert Writes(t[j], FrameOn, p);
      DrivenLast(t, FrameOn, s.levels, j, p);
    }
    var off := FrameOff(f.isrSoftcount);
    assert forall k :: 0 <= k < |t| && k != i ==> !Writes(t[k], off, p);
    DrivenSole(t, off, f.levels, i, p);
  }

  /**
   * A freed slot overriding a live one. With slots i and j as in
   * TickStaleLevel at a frame boundary (counter 255), and j's checkval
   * positive after the fade step, pin p is LOW after every one of the next
   * 256 ticks: the whole frame, whatever slot i's own checkval, although
   * OutputTiming would have the live slot drive it HIGH while the counter is
   * below that checkval.
   */
  lemma {:induction false} StaleSlotHoldsLow(s: PwmState, samples: seq<nat>, i: nat, j: nat, p: int)
    requires ValidState(s) && s.isrSoftcount == 255 && i < j < |s.channels|
    requires InUse(s.channels[i]) && s.channels[i].outport == Some(p) && s.channels[i].polarity == Normal
    requires !InUse(s.channels[j]) && s.channels[j].outport == Some(p) && s.channels[j].polarity != Normal
    requires forall k :: 0 <= k < |s.channels| && k != i && k != j ==> s.channels[k].outport != Some(p)
    requires FadeSlot(s.channels[j]).checkval > 0
    requires 0 < |samples| <= 256
    ensures Run(s, samples).isrSoftcount == |samples| - 1
    ensures forall k :: 0 <= k < |s.channels| ==> Config(Run(s, samples).channels[k]) == Config(FadeSlot(s.channels[k]))
    ensures p in Run(s, samples).levels && !Run(s, samples).levels[p]
    decreases |samples|
  {
    var n := |samples| - 1;
    var prev := samples[..n];
    var m := Run(s, prev);
    assert Run(s, samples) == TickSpec(m, samples[n]);
    if n == 0 {
      assert prev == [];
      TickConfig(s, samples[0]);
      TickStaleLevel(s, samples[0], i, j, p);
    } else {
      StaleSlotHoldsLow(s, prev, i, j, p);
      TickConfig(m, samples[n]);
      assert forall k :: 0 <= k < |m.channels| ==> m.channels[k].outport == Config(m.channels[k]).outport;
      assert forall k :: 0 <= k < |m.channels| ==> m.channels[k].outport == FadeSlot(s.channels[k]).outport;
      assert m.channels[i].pin == Config(m.channels[i]).pin && m.channels[j].pin == Config(m.channels[j]).pin;
      assert m.channels[i].polarity == Config(m.channels[i]).polarity;
      assert m.channels[j].polarity == Config(m.channels[j]).polarity;
      TickStaleLevel(m, samples[n], i, j, p);
    }
  }

  lemma CounterStep(x: nat)
    ensures (x + 1) / 256 == if x % 256 == 255 then x / 256 + 1 else x / 256
    ensures (x + 1) % 256 == if x % 256 == 255 then 0 else x % 256 + 1
  {
  }

  /**
   * One tick as seen from the fade: if every slot's checkval is its start
   * value faded `frames` times, it is faded once more exactly when the tick
   * wraps the counter to 0.
   */
  lemma TickFadesOnce(m: PwmState, adc: nat, t: seq<Channel>, frames: nat)
    requires ValidState(m) && |t| == |m.channels|
    requires forall k :: 0 <= k < |t| ==>
      Config(m.channels[k]) == Config(t[k]).(checkval := FadeIter(t[k].checkval, t[k].pwmvalue, t[k].fadeuprate, t[k].fadedownrate, frames))
    ensures var r := TickSpec(m, adc);
      var after := if r.isrSoftcount == 0 then frames + 1 else frames;
      forall k :: 0 <= k < |t| ==>
        Config(r.channels[k]) == Config(t[k]).(checkval := FadeIter(t[k].checkval, t[k].pwmvalue, t[k].fadeuprate, t[k].fadedownrate, after))
  {
    var r := TickSpec(m, adc);
    TickConfig(m, adc);
    forall k | 0 <= k < |t|
      ensures Config(r.channels[k]) ==
        Config(t[k]).(checkval := FadeIter(t[k].checkval, t[k].pwmvalue, t[k].fadeuprate, t[k].fadedownrate,
                                           if r.isrSoftcount == 0 then frames + 1 else frames))
    {
      var c, mk := t[k], m.channels[k];
      var f := FadeIter(c.checkval, c.pwmvalue, c.fadeuprate, c.fadedownrate, frames);
      assert Config(mk) == Config(c).(checkval := f);
      assert mk.checkval == f && mk.pwmvalue == c.pwmvalue;
      assert mk.fadeuprate == c.fadeuprate && mk.fadedownrate == c.fadedownrate;
      if r.isrSoftcount == 0 {
        assert FadeSlot(mk).checkval == FadeIter(c.checkval, c.pwmvalue, c.fadeuprate, c.fadedownrate, frames + 1);
      }
    }
  }

  /**
   * Over any run of ticks from a frame boundary, every slot's checkval is its
   * start value faded once per elapsed frame start, and nothing else of its
   * configuration changes.
   */
  lemma {:induction false} RunFades(s: PwmState, samples: seq<nat>)
    requires ValidState(s) && s.isrSoftcount == 255
    ensures Run(s, samples).isrSoftcount == (|samples| + 255) % 256
    ensures forall k :: 0 <= k < |s.channels| ==>
      var c := s.channels[k];
      Config(Run(s, samples).channels[k]) ==
      Config(c).(checkval := FadeIter(c.checkval, c.pwmvalue, c.fadeuprate, c.fadedownrate, (|samples| + 255) / 256))
    decreases |samples|
  {
    if samples != [] {
      var n := |samples|;
      var prev := samples[..n - 1];
      RunFades(s, prev);
      var m := Run(s, prev);
      var r := TickSpec(m, samples[n - 1]);
      assert Run(s, samples) == r;
      var x := n - 1 + 255;
      TickConfig(m, samples[n - 1]);
      CounterStep(x);
      assert r.isrSoftcount == (x + 1) % 256;
      assert (if r.isrSoftcount == 0 then x / 256 + 1 else x / 256) == (x + 1) / 256;
      TickFadesOnce(m, samples[n - 1], s.channels, x / 256);
    }
  }

  /** A tick advances the counter by one, from 255 back to 0. */
  lemma TickCounter(s: PwmState, adc: nat)
    requires ValidState(s)
    ensures TickSpec(s, adc).isrSoftcount == if s.isrSoftcount == 255 then 0 else s.isrSoftcount + 1
  {
    FrameStartFacts(s);
    StoreSampleKeeps(FrameStart(s), adc);
  }

  /** The counter after a run of ticks: one step modulo 256 per tick. */
  lemma {:induction false} RunCounter(s: PwmState, samples: seq<nat>)
    requires ValidState(s)
    ensures Run(s, samples).isrSoftcount == (s.isrSoftcount + |samples|) % 256
    decreases |samples|
  {
    if samples != [] {
      var n := |samples|;
      var prev := samples[..n - 1];
      var m := Run(s, prev);
      var r := TickSpec(m, samples[n - 1]);
      RunLast(s, samples);
      RunCounter(s, prev);
      TickCounter(m, samples[n - 1]);
      CounterAdvance(s.isrSoftcount + (n - 1), m.isrSoftcount, r.isrSoftcount);
    }
  }

  /** A non-empty run is the run without its last tick, then that tick. */
  lemma RunLast(s: PwmState, samples: seq<nat>)
    requires ValidState(s) && samples != []
    ensures Run(s, samples) == TickSpec(Run(s, samples[..|samples| - 1]), samples[|samples| - 1])
  {
  }

  /** One counter step after x ticks in all: from x mod 256 to (x + 1) mod 256. */
  lemma CounterAdvance(x: nat, before: int, after: int)
    requires before == x % 256
    requires after == if before == 255 then 0 else before + 1
    ensures after == (x + 1) % 256
  {
    CounterStep(x);
  }

  /** How many of the first n ticks from counter c end a frame, leaving the counter at 255. */
  function FrameEnds(c: Byte, n: nat): nat
    decreases n
  {
    if n == 0 then 0 else FrameEnds(c, n - 1) + (if (c + n) % 256 == 255 then 1 else 0)
  }

  /** Frame ends counted in closed form: one per 256 ticks. */
  lemma {:induction false} FrameEndsCount(c: Byte, n: nat)
    ensures FrameEnds(c, n) == (c + n + 1) / 256 - (c + 1) / 256
    decreases n
  {
    if n > 0 {
      FrameEndsCount(c, n - 1);
      CounterStep(c + n);
    }
  }

  lemma {:induction false} FrameEndsMonotone(c: Byte, m: nat, n: nat)
    requires m <= n
    ensures FrameEnds(c, m) <= FrameEnds(c, n)
    decreases n
  {
    if m < n {
      FrameEndsMonotone(c, m, n - 1);
    }
  }

  /**
   * The sampling rate. A store needs the period counter at SOFTPWM_ANALOG,
   * and the counter only grows by one per frame end. So while the period
   * counter plus the frame ends among the earlier ticks of a run stays below
   * SOFTPWM_ANALOG, the run stores nothing, and the period counter is the
   * start value plus the frame ends of the run.
   */
  lemma {:induction false} RunStoresNothing(s: PwmState, samples: seq<nat>)
    requires ValidState(s)
    requires |samples| > 0 ==> s.analogSoftcount + FrameEnds(s.isrSoftcount, |samples| - 1) < AnalogPeriod
    ensures forall k :: 0 <= k < |s.channels| ==> Run(s, samples).channels[k].analogValue == s.channels[k].analogValue
    ensures Run(s, samples).analogSample == s.analogSample
    ensures Run(s, samples).analogSoftcount == s.analogSoftcount + FrameEnds(s.isrSoftcount, |samples|)
    decreases |samples|
  {
    if samples != [] {
      var n := |samples|;
      var prev := samples[..n - 1];
      var c := s.isrSoftcount;
      if n > 1 {
        FrameEndsMonotone(c, n - 2, n - 1);
      }
      RunStoresNothing(s, prev);
      RunCounter(s, prev);
      RunLast(s, samples);
      QuietStep(s, Run(s, prev), samples[n - 1], n);
    }
  }

  /** The step of RunStoresNothing: the n-th tick of such a run, from the state m the first n - 1 left. */
  lemma QuietStep(s: PwmState, m: PwmState, adc: nat, n: nat)
    requires ValidState(s) && ValidState(m) && n > 0
    requires forall k :: 0 <= k < |s.channels| ==> m.channels[k].analogValue == s.channels[k].analogValue
    requires m.analogSample == s.analogSample && m.isrSoftcount == (s.isrSoftcount + (n - 1)) % 256
    requires m.analogSoftcount == s.analogSoftcount + FrameEnds(s.isrSoftcount, n - 1) < AnalogPeriod
    ensures var r := TickSpec(m, adc);
      (forall k :: 0 <= k < |s.channels| ==> r.channels[k].analogValue == s.channels[k].analogValue) &&
      r.analogSample == s.analogSample &&
      r.analogSoftcount == s.analogSoftcount + FrameEnds(s.isrSoftcount, n)
  {
    var r := TickSpec(m, adc);
    TickQuiet(m, adc);
    TickCounter(m, adc);
    CounterAdvance(s.isrSoftcount + (n - 1), m.isrSoftcount, r.isrSoftcount);
    assert r.isrSoftcount == (s.isrSoftcount + n) % 256;
  }

  /** A tick whose period counter is below SOFTPWM_ANALOG stores nothing and counts a frame end. */
  lemma TickQuiet(m: PwmState, adc: nat)
    requires ValidState(m) && m.analogSoftcount < AnalogPeriod
    ensures forall k :: 0 <= k < |m.channels| ==> TickSpec(m, adc).channels[k].analogValue == m.channels[k].analogValue
    ensures TickSpec(m, adc).analogSample == m.analogSample
    ensures TickSpec(m, adc).analogSoftcount == m.analogSoftcount + if TickSpec(m, adc).isrSoftcount == 255 then 1 else 0
  {
    TickStoresNothing(m, adc);
    TickCounter(m, adc);
  }

  /**
   * Two stores are at least SOFTPWM_ANALOG frame ends apart: a store leaves
   * the period counter at 0, or at 1 when it happens at counter 255, and from
   * a period counter a below SOFTPWM_ANALOG the next
   * (SOFTPWM_ANALOG - 1 - a) * 256 + 1 ticks store nothing.
   */
  lemma RunSampleGap(s: PwmState, samples: seq<nat>)
    requires ValidState(s) && s.analogSoftcount < AnalogPeriod
    requires |samples| <= (AnalogPeriod - 1 - s.analogSoftcount) * 256 + 1
    ensures forall k :: 0 <= k < |s.channels| ==> Run(s, samples).channels[k].analogValue == s.channels[k].analogValue
    ensures Run(s, samples).analogSample == s.analogSample
  {
    GapQuiet(s.isrSoftcount, s.analogSoftcount, |samples|);
    RunQuiet(s, samples);
  }

  /** RunStoresNothing without the period count: nothing is stored. */
  lemma RunQuiet(s: PwmState, samples: seq<nat>)
    requires ValidState(s)
    requires |samples| > 0 ==> s.analogSoftcount + FrameEnds(s.isrSoftcount, |samples| - 1) < AnalogPeriod
    ensures forall k :: 0 <= k < |s.channels| ==> Run(s, samples).channels[k].analogValue == s.channels[k].analogValue
    ensures Run(s, samples).analogSample == s.analogSample
  {
    RunStoresNothing(s, samples);
  }

  /** The precondition of RunQuiet from the gap bound. */
  lemma GapQuiet(c0: Byte, a: nat, n: nat)
    requires a < AnalogPeriod && n <= (AnalogPeriod - 1 - a) * 256 + 1
    ensures n > 0 ==> a + FrameEnds(c0, n - 1) < AnalogPeriod
  {
    if n > 0 {
      var w: nat := AnalogPeriod - 1 - a;
      GapFrameEnds(c0, a, w, n - 1);
    }
  }

  /** From period counter a, the first (SOFTPWM_ANALOG - 1 - a) * 256 ticks end fewer than SOFTPWM_ANALOG - a frames. */
  lemma GapFrameEnds(c0: Byte, a: nat, w: nat, len: nat)
    requires w == AnalogPeriod - 1 - a && len <= w * 256
    ensures a + FrameEnds(c0, len) < AnalogPeriod
  {
    var c: nat := c0;
    var q := w * 256;
    FrameEndsMonotone(c0, len, q);
    FrameEndsCount(c0, q);
    ShiftDiv(c + 1, w);
    assert c + q + 1 == (c + 1) + w * 256;
    assert FrameEnds(c0, q) == w;
  }

  lemma ShiftDiv(y: nat, w: nat)
    ensures (y + w * 256) / 256 == y / 256 + w
  {
    var d, m := y / 256, y % 256;
    assert y + w * 256 == (d + w) * 256 + m;
  }

  /** Repeated frames reach the target value, whatever the rates, and stay there. */
  lemma FadeSettles(s: PwmState, samples: seq<nat>, k: nat)
    requires ValidState(s) && s.isrSoftcount == 255
    requires |samples| >= 255 * 256 && k < |s.channels|
    ensures Run(s, samples).channels[k].checkval == s.channels[k].pwmvalue
  {
    RunFades(s, samples);
    var c := s.channels[k];
    FadeIterDistance(c.checkval, c.pwmvalue, c.fadeuprate, c.fadedownrate, (|samples| + 255) / 256);
    assert Run(s, samples).channels[k].checkval == Config(Run(s, samples).channels[k]).checkval;
  }
}
