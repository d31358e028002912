/**
 * The foreground API of SoftPWM.cpp as transitions on the whole state, and
 * what each call guarantees about the channel table.
 */
module ControlApi {
  import opened PwmTypes
  import opened FadeEngine
  import opened ChannelTable
  import opened TickScheduler

  /** SoftPWMBegin's reset of one slot (SoftPWM.cpp:210-216); samples, pwmvalue and checkval stay. */
  function ResetSlot(c: Channel): Channel
  {
    c.(pin := -1, analogReadbackPin := -1, analogReadbackDelay := Wrap8(-1), polarity := Normal,
       outport := None, fadeuprate := 0, fadedownrate := 0)
  }

  /** SoftPWMBegin (SoftPWM.cpp:208-219); the counters are not reset. */
  function BeginSpec(s: PwmState, defaultPolarity: Byte): PwmState
  {
    s.(channels := seq(|s.channels|, i requires 0 <= i < |s.channels| => ResetSlot(s.channels[i])),
       defaultPolarity := defaultPolarity)
  }

  /** A free slot taken by SoftPWMSet (SoftPWM.cpp:280-286); checkval and the fade rates stay. */
  function Allocate(c: Channel, pin: I8, readbackPin: I8, delay: Byte, value: Byte, polarity: Byte): Channel
  {
    c.(pin := pin, analogReadbackPin := readbackPin, analogReadbackDelay := delay,
       polarity := polarity, outport := Some(pin as int), pwmvalue := value)
  }

  /**
   * SoftPWMSet (SoftPWM.cpp:248-297). A non-zero hardset restarts the frame.
   * A negative pin sets the value of every used slot. Otherwise the slot
   * holding the pin gets the value, or else the lowest free slot is taken and
   * the pin written to its idle level; a full table is left as it is.
   */
  function SetSpec(s: PwmState, pin: I8, readbackPin: I8, delay: Byte, value: Byte, hardset: Byte): PwmState
  {
    var s1 := if hardset != 0 then s.(isrSoftcount := 0xff) else s;
    var t := s.channels;
    if pin < 0 then
      s1.(channels := seq(|t|, i requires 0 <= i < |t| => if InUse(t[i]) then t[i].(pwmvalue := value) else t[i]))
    else
      match FindPin(t, pin)
      case Some(i) => s1.(channels := t[i := t[i].(pwmvalue := value)])
      case None =>
        match FirstFree(t)
        case None => s1
        case Some(j) =>
          s1.(channels := t[j := Allocate(t[j], pin, readbackPin, delay, value, s.defaultPolarity)],
              levels := s.levels[pin as int := s.defaultPolarity != Normal])
  }

  /** SoftPWMSetPercent (SoftPWM.cpp:243-246): SoftPWMSet with both percentages scaled. */
  function SetPercentSpec(s: PwmState, pin: I8, readbackPin: I8, delayPercent: Byte, percent: Byte, hardset: Byte): PwmState
  {
    SetSpec(s, pin, readbackPin, PercentScale(delayPercent), PercentScale(percent), hardset)
  }

  /** SoftPWMEnd (SoftPWM.cpp:299-316): every selected slot's pin is written HIGH and the slot freed. */
  function EndSpec(s: PwmState, pin: I8): PwmState
  {
    var t := s.channels;
    s.(channels := seq(|t|, i requires 0 <= i < |t| => if Selects(pin, t[i]) then t[i].(pin := -1) else t[i]),
       levels := Driven(t, Release(pin), s.levels))
  }

  /** The code SoftPWMSetPolarity stores: any non-zero argument becomes SOFTPWM_INVERTED. */
  function StoredPolarity(polarity: Byte): Byte
  {
    if polarity != Normal then Inverted else Normal
  }

  /** SoftPWMSetPolarity (SoftPWM.cpp:226-241). */
  function SetPolaritySpec(s: PwmState, pin: I8, polarity: Byte): PwmState
  {
    var t := s.channels;
    s.(channels := seq(|t|, i requires 0 <= i < |t| =>
      if Selects(pin, t[i]) then t[i].(polarity := StoredPolarity(polarity)) else t[i]))
  }

  /**
   * SoftPWMSetFadeTime (SoftPWM.cpp:318-345): both rates go to the first slot
   * holding the pin (the loop breaks there), or to every used slot for a
   * negative pin.
   */
  function SetFadeTimeSpec(s: PwmState, pin: I8, fadeUpTime: U16, fadeDownTime: U16, fadeScale: nat): PwmState
  {
    var up, down := FadeRate(fadeUpTime, fadeScale), FadeRate(fadeDownTime, fadeScale);
    var t := s.channels;
    if pin < 0 then
      s.(channels := seq(|t|, i requires 0 <= i < |t| =>
        if InUse(t[i]) then t[i].(fadeuprate := up, fadedownrate := down) else t[i]))
    else
      match FindPin(t, pin)
      case None => s
      case Some(i) => s.(channels := t[i := t[i].(fadeuprate := up, fadedownrate := down)])
  }

  // ---------------------------------------------------------------------
  // Begin

  /**
   * After Begin every slot is free, with no readback pin, delay 255, normal
   * polarity, a null register and no fade; the table is well formed, and the
   * stored samples, values and checkvals are those of before.
   */
  lemma BeginFreesAll(s: PwmState, defaultPolarity: Byte)
    ensures var r := BeginSpec(s, defaultPolarity);
      |r.channels| == |s.channels| && WellFormed(r.channels) &&
      (forall k :: 0 <= k < |r.channels| ==> !InUse(r.channels[k]) && r.channels[k].outport.None?) &&
      (forall k :: 0 <= k < |r.channels| ==>
        r.channels[k].analogValue == s.channels[k].analogValue &&
        r.channels[k].pwmvalue == s.channels[k].pwmvalue &&
        r.channels[k].checkval == s.channels[k].checkval &&
        r.channels[k].fadeuprate == 0 && r.channels[k].fadedownrate == 0 &&
        r.channels[k].analogReadbackPin == -1 && r.channels[k].analogReadbackDelay == 255 &&
        r.channels[k].polarity == Normal) &&
      r.defaultPolarity == defaultPolarity &&
      r.isrSoftcount == s.isrSoftcount && r.analogSoftcount == s.analogSoftcount &&
      r.analogSample == s.analogSample && r.levels == s.levels
  {
  }

  /** Calling Begin again with the same polarity changes nothing more. */
  lemma BeginIdempotent(s: PwmState, defaultPolarity: Byte)
    ensures BeginSpec(BeginSpec(s, defaultPolarity), defaultPolarity) == BeginSpec(s, defaultPolarity)
  {
    var r := BeginSpec(s, defaultPolarity);
    assert BeginSpec(r, defaultPolarity).channels == r.channels;
  }

  // ---------------------------------------------------------------------
  // Set

  /** A set pin keeps its slot: only that slot's pwmvalue changes, no pin level is written. */
  lemma SetExistingPin(s: PwmState, pin: I8, readbackPin: I8, delay: Byte, value: Byte, hardset: Byte, i: nat)
    requires PinsUnique(s.channels) && i < |s.channels| && pin >= 0 && s.channels[i].pin == pin
    ensures SetSpec(s, pin, readbackPin, delay, value, hardset).channels == s.channels[i := s.channels[i].(pwmvalue := value)]
    ensures SetSpec(s, pin, readbackPin, delay, value, hardset).levels == s.levels
  {
    FindPinUnique(s.channels, i);
  }

  /**
   * A new pin takes the lowest free slot, with the given readback pin, delay
   * and value and the default polarity; its checkval, fade rates and samples
   * are left from the slot's previous use; the pin is written to its idle level.
   */
  lemma SetAllocates(s: PwmState, pin: I8, readbackPin: I8, delay: Byte, value: Byte, hardset: Byte, j: nat)
    requires pin >= 0 && forall k :: 0 <= k < |s.channels| ==> s.channels[k].pin != pin
    requires j < |s.channels| && !InUse(s.channels[j]) && forall k :: 0 <= k < j ==> InUse(s.channels[k])
    ensures var r := SetSpec(s, pin, readbackPin, delay, value, hardset);
      |r.channels| == |s.channels| &&
      (forall k :: 0 <= k < |s.channels| && k != j ==> r.channels[k] == s.channels[k]) &&
      r.channels[j].pin == pin && r.channels[j].analogReadbackPin == readbackPin &&
      r.channels[j].analogReadbackDelay == delay && r.channels[j].pwmvalue == value &&
      r.channels[j].polarity == s.defaultPolarity && r.channels[j].outport == Some(pin as int) &&
      r.channels[j].checkval == s.channels[j].checkval &&
      r.channels[j].fadeuprate == s.channels[j].fadeuprate &&
      r.channels[j].fadedownrate == s.channels[j].fadedownrate &&
      r.channels[j].analogValue == s.channels[j].analogValue &&
      r.levels == s.levels[pin as int := s.defaultPolarity != Normal]
  {
  }

  /** With every slot used by other pins, Set of a new pin changes neither table nor levels. */
  lemma SetFullIsNoop(s: PwmState, pin: I8, readbackPin: I8, delay: Byte, value: Byte, hardset: Byte)
    requires pin >= 0 && forall k :: 0 <= k < |s.channels| ==> InUse(s.channels[k]) && s.channels[k].pin != pin
    ensures SetSpec(s, pin, readbackPin, delay, value, hardset).channels == s.channels
    ensures SetSpec(s, pin, readbackPin, delay, value, hardset).levels == s.levels
  {
  }

  /** The wildcard sets the value of every used slot and never allocates or frees one. */
  lemma SetWildcard(s: PwmState, pin: I8, readbackPin: I8, delay: Byte, value: Byte, hardset: Byte)
    requires pin < 0
    ensures var r := SetSpec(s, pin, readbackPin, delay, value, hardset);
      |r.channels| == |s.channels| && r.levels == s.levels &&
      forall k :: 0 <= k < |s.channels| ==>
        r.channels[k].(pwmvalue := s.channels[k].pwmvalue) == s.channels[k] &&
        (InUse(s.channels[k]) ==> r.channels[k].pwmvalue == value) &&
        (!InUse(s.channels[k]) ==> r.channels[k] == s.channels[k])
  {
  }

  /** Any non-zero hardset does one thing more than hardset 0: it restarts the frame. */
  lemma SetHardsetRestartsFrame(s: PwmState, pin: I8, readbackPin: I8, delay: Byte, value: Byte, hardset: Byte)
    requires hardset != 0
    ensures SetSpec(s, pin, readbackPin, delay, value, hardset) ==
      SetSpec(s, pin, readbackPin, delay, value, 0).(isrSoftcount := 255)
    ensures SetSpec(s, pin, readbackPin, delay, value, 0).isrSoftcount == s.isrSoftcount
  {
  }

  /** Set keeps the table well formed: pins stay unique and registers match. */
  lemma SetKeepsWellFormed(s: PwmState, pin: I8, readbackPin: I8, delay: Byte, value: Byte, hardset: Byte)
    requires WellFormed(s.channels)
    ensures WellFormed(SetSpec(s, pin, readbackPin, delay, value, hardset).channels)
  {
    var t := s.channels;
    var r := SetSpec(s, pin, readbackPin, delay, value, hardset).channels;
    if pin >= 0 && FindPin(t, pin).None? && FirstFree(t).Some? {
      var j := FirstFree(t).value;
      forall a, b | 0 <= a < b < |r| && InUse(r[a]) ensures r[a].pin != r[b].pin {
        if a != j && b != j {
          assert r[a] == t[a] && r[b] == t[b];
        }
      }
    }
  }

  /** After a Set of a pin with room in the table, exactly one slot holds it, with the value. */
  lemma SetRegistersPin(s: PwmState, pin: I8, readbackPin: I8, delay: Byte, value: Byte, hardset: Byte)
    requires WellFormed(s.channels) && pin >= 0
    requires exists k :: 0 <= k < |s.channels| && (s.channels[k].pin == pin || !InUse(s.channels[k]))
    ensures var r := SetSpec(s, pin, readbackPin, delay, value, hardset).channels;
      exists k :: 0 <= k < |r| && r[k].pin == pin && r[k].pwmvalue == value &&
        forall m :: 0 <= m < |r| && m != k ==> r[m].pin != pin
  {
    var t := s.channels;
    var r := SetSpec(s, pin, readbackPin, delay, value, hardset).channels;
    SetKeepsWellFormed(s, pin, readbackPin, delay, value, hardset);
    match FindPin(t, pin)
    case Some(i) =>
      assert r[i].pin == pin;
    case None =>
      var j := FirstFree(t).value;
      assert r[j].pin == pin;
  }

  // ---------------------------------------------------------------------
  // End

  /** End frees exactly the selected slots and changes nothing else in the table. */
  lemma EndFrees(s: PwmState, pin: I8)
    ensures var r := EndSpec(s, pin).channels;
      |r| == |s.channels| &&
      (forall k :: 0 <= k < |r| ==> r[k].(pin := s.channels[k].pin) == s.channels[k]) &&
      (forall k :: 0 <= k < |r| ==> (InUse(r[k]) <==> InUse(s.channels[k]) && !Selects(pin, s.channels[k]))) &&
      (pin >= 0 ==> forall k :: 0 <= k < |r| ==> r[k].pin != pin)
  {
  }

  /** End keeps the table well formed. */
  lemma EndKeepsWellFormed(s: PwmState, pin: I8)
    requires WellFormed(s.channels)
    ensures WellFormed(EndSpec(s, pin).channels)
  {
  }

  /** End writes HIGH to every released pin and leaves every other pin's level alone. */
  lemma {:induction false} EndLevels(t: seq<Channel>, pin: I8, levels: map<int, bool>, q: int)
    ensures (exists k :: 0 <= k < |t| && Selects(pin, t[k]) && t[k].pin == q) ==>
      q in Driven(t, Release(pin), levels) && Driven(t, Release(pin), levels)[q]
    ensures (forall k :: 0 <= k < |t| ==> !(Selects(pin, t[k]) && t[k].pin == q)) ==>
      (q in Driven(t, Release(pin), levels) <==> q in levels) &&
      (q in levels ==> Driven(t, Release(pin), levels)[q] == levels[q])
    decreases |t|
  {
    if t != [] {
      var init := t[..|t| - 1];
      EndLevels(init, pin, levels, q);
      if exists k :: 0 <= k < |t| && Selects(pin, t[k]) && t[k].pin == q {
        var k :| 0 <= k < |t| && Selects(pin, t[k]) && t[k].pin == q;
        if k < |t| - 1 {
          assert init[k] == t[k];
        }
      } else {
        assert forall k :: 0 <= k < |init| ==> init[k] == t[k];
      }
    }
  }

  /**
   * Re-registering a pin does not reset its channel:
   * a pin ended and set again in the same slot keeps its fade rates and its
   * checkval from before.
   */
  lemma ReRegisterKeepsFade(s: PwmState, pin: I8, readbackPin: I8, delay: Byte, value: Byte, i: nat)
    requires WellFormed(s.channels) && pin >= 0
    requires i < |s.channels| && s.channels[i].pin == pin && forall k :: 0 <= k < i ==> InUse(s.channels[k])
    ensures var r := SetSpec(EndSpec(s, pin), pin, readbackPin, delay, value, 0).channels[i];
      r.pin == pin && r.fadeuprate == s.channels[i].fadeuprate &&
      r.fadedownrate == s.channels[i].fadedownrate && r.checkval == s.channels[i].checkval
  {
    var e := EndSpec(s, pin);
    EndFrees(s, pin);
    assert FirstFree(e.channels) == Some(i);
  }

  /**
   * A freed slot keeps its register. Ending an inverted pin writes it HIGH,
   * but at the next wrap to 0 the freed slot, whose checkval is still
   * positive, writes the same pin LOW through its stale register.
   */
  lemma EndThenStaleWrite(s: PwmState, adc: nat, i: nat, p: I8)
    requires ValidState(s) && s.isrSoftcount == 255 && p >= 0
    requires i < |s.channels| && s.channels[i].pin == p && s.channels[i].outport == Some(p as int)
    requires s.channels[i].polarity != Normal && s.channels[i].pwmvalue > 0
    requires s.channels[i].fadeuprate == 0 && s.channels[i].fadedownrate == 0
    requires forall k :: 0 <= k < |s.channels| && k != i ==> s.channels[k].outport != Some(p as int) && s.channels[k].pin != p
    ensures var e := EndSpec(s, p);
      !InUse(e.channels[i]) && e.channels[i].outport == Some(p as int) &&
      p as int in e.levels && e.levels[p as int] &&
      p as int in TickSpec(e, adc).levels && !TickSpec(e, adc).levels[p as int]
  {
    var e := EndSpec(s, p);
    EndFrees(s, p);
    EndLevels(s.channels, p, s.levels, p as int);
    var f := FrameStart(e);
    FrameStartFacts(e);
    var t := f.channels;
    assert t == StartFrame(e.channels);
    assert t[i] == FadeSlot(e.channels[i]);
    assert t[i].checkval == s.channels[i].pwmvalue;
    assert forall k :: 0 <= k < |t| ==> t[k].outport == s.channels[k].outport && t[k].pin == e.channels[k].pin;
    DrivenSole(t, FrameOn, e.levels, i, p as int);
    assert Writes(t[i], FrameOn, p as int);
    DrivenUntouched(t, FrameOff(f.isrSoftcount), f.levels, p as int);
    StoreSampleKeeps(f, adc);
  }

  /**
   * Setting a pin again while a freed slot j still holds its register: the
   * pin goes to the lowest free slot, which is never above j. When it is not
   * j itself, the live slot lies below the stale one, so in every pass the
   * stale slot writes the pin last (see TickScheduler.StaleSlotHoldsLow).
   */
  lemma SetBesideStaleSlot(s: PwmState, pin: I8, readbackPin: I8, delay: Byte, value: Byte, hardset: Byte, j: nat)
    requires pin >= 0 && forall k :: 0 <= k < |s.channels| ==> s.channels[k].pin != pin
    requires j < |s.channels| && !InUse(s.channels[j]) && s.channels[j].outport == Some(pin as int)
    ensures FirstFree(s.channels).Some? && FirstFree(s.channels).value <= j
    ensures var i := FirstFree(s.channels).value;
      var r := SetSpec(s, pin, readbackPin, delay, value, hardset).channels;
      |r| == |s.channels| && InUse(r[i]) && r[i].pin == pin && r[i].outport == Some(pin as int) &&
      r[i].polarity == s.defaultPolarity &&
      (i != j ==> i < j && r[j] == s.channels[j])
  {
  }

  // ---------------------------------------------------------------------
  // SetPolarity

  /**
   * SetPolarity stores only NORMAL or INVERTED, in exactly the selected slots,
   * and touches no other field.
   */
  lemma SetPolarityStores(s: PwmState, pin: I8, polarity: Byte)
    ensures var r := SetPolaritySpec(s, pin, polarity).channels;
      |r| == |s.channels| &&
      forall k :: 0 <= k < |r| ==>
        r[k].(polarity := s.channels[k].polarity) == s.channels[k] &&
        (Selects(pin, s.channels[k]) ==> r[k].polarity == (if polarity == Normal then Normal else Inverted)) &&
        (!Selects(pin, s.channels[k]) ==> r[k].polarity == s.channels[k].polarity)
  {
  }

  /** SetPolarity keeps the table well formed. */
  lemma SetPolarityKeepsWellFormed(s: PwmState, pin: I8, polarity: Byte)
    requires WellFormed(s.channels)
    ensures WellFormed(SetPolaritySpec(s, pin, polarity).channels)
  {
  }

  /** After SetPolarity every selected slot holds a polarity code of 0 or 1. */
  lemma SetPolarityNormalises(s: PwmState, pin: I8, polarity: Byte, k: nat)
    requires k < |s.channels| && Selects(pin, s.channels[k])
    ensures SetPolaritySpec(s, pin, polarity).channels[k].polarity in {Normal, Inverted}
    ensures (SetPolaritySpec(s, pin, polarity).channels[k].polarity == Normal) == (polarity == 0)
  {
  }

  // ---------------------------------------------------------------------
  // SetFadeTime

  /**
   * For a pin, SetFadeTime gives both rates to the lowest slot holding it,
   * and to no other slot; no other field changes. Without a slot holding the
   * pin the table is left as it is.
   */
  lemma SetFadeTimeSingle(s: PwmState, pin: I8, fadeUpTime: U16, fadeDownTime: U16, fadeScale: nat)
    requires pin >= 0
    ensures var r := SetFadeTimeSpec(s, pin, fadeUpTime, fadeDownTime, fadeScale).channels;
      |r| == |s.channels| &&
      forall k :: 0 <= k < |r| ==>
        if s.channels[k].pin == pin && (forall m :: 0 <= m < k ==> s.channels[m].pin != pin) then
          r[k] == s.channels[k].(fadeuprate := FadeRate(fadeUpTime, fadeScale), fadedownrate := FadeRate(fadeDownTime, fadeScale))
        else
          r[k] == s.channels[k]
  {
  }

  /** With the wildcard, every used slot gets both rates and free slots are untouched. */
  lemma SetFadeTimeAll(s: PwmState, pin: I8, fadeUpTime: U16, fadeDownTime: U16, fadeScale: nat)
    requires pin < 0
    ensures var r := SetFadeTimeSpec(s, pin, fadeUpTime, fadeDownTime, fadeScale).channels;
      |r| == |s.channels| &&
      forall k :: 0 <= k < |r| ==>
        (InUse(s.channels[k]) ==> r[k].fadeuprate == FadeRate(fadeUpTime, fadeScale) &&
                                  r[k].fadedownrate == FadeRate(fadeDownTime, fadeScale)) &&
        (!InUse(s.channels[k]) ==> r[k] == s.channels[k]) &&
        r[k].(fadeuprate := s.channels[k].fadeuprate, fadedownrate := s.channels[k].fadedownrate) == s.channels[k]
  {
  }

  /** SetFadeTime keeps the table well formed. */
  lemma SetFadeTimeKeepsWellFormed(s: PwmState, pin: I8, fadeUpTime: U16, fadeDownTime: U16, fadeScale: nat)
    requires WellFormed(s.channels)
    ensures WellFormed(SetFadeTimeSpec(s, pin, fadeUpTime, fadeDownTime, fadeScale).channels)
  {
  }
}
