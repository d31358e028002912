/** Constants, integer widths and records of the software-PWM library. */
module PwmTypes {

  /** Number of slots in the channel table (SOFTPWM_MAXCHANNELS). */
  const MaxChannels: nat := 20
  /** Polarity codes (SOFTPWM_NORMAL, SOFTPWM_INVERTED). */
  const Normal: int := 0
  const Inverted: int := 1
  /** Frames between two analog readings (SOFTPWM_ANALOG). */
  const AnalogPeriod: int := 10
  /** Samples kept per channel (SOFTPWM_ANALOG_SAMPLES). */
  const AnalogSamples: nat := 10
  /** The wildcard pin argument (ALL); any negative pin acts the same way. */
  const All: int := -1

  /** The C integer types the library stores. */
  type Byte = x: int | 0 <= x < 256
  type I8 = x: int | -128 <= x < 128
  type U16 = x: int | 0 <= x < 0x1_0000

  /** Conversion of an integer to uint8_t: reduction modulo 256. */
  function Wrap8(x: int): (r: Byte)
    ensures 0 <= x < 256 ==> r == x
    ensures 256 <= x < 512 ==> r == x - 256
    ensures -256 <= x < 0 ==> r == x + 256
  {
    x % 256
  }

  datatype Option<T> = None | Some(value: T)

  /**
   * One slot of the channel table. `outport` stands for the output register
   * and bit mask of the slot: `Some(p)` drives pin p, `None` is the null
   * register that the table holds after static initialisation and after Begin.
   */
  datatype Channel = Channel(
    pin: I8,
    analogReadbackPin: I8,
    analogReadbackDelay: Byte,
    analogValue: seq<nat>,
    polarity: Byte,
    outport: Option<int>,
    pwmvalue: Byte,
    checkval: Byte,
    fadeuprate: Byte,
    fadedownrate: Byte)

  /**
   * Everything the library keeps: the table, the frame counter, the analog
   * period counter, the shared sample index, the default polarity, and the
   * level last written to each output pin (true is HIGH).
   */
  datatype PwmState = PwmState(
    channels: seq<Channel>,
    isrSoftcount: Byte,
    analogSoftcount: Byte,
    analogSample: Byte,
    defaultPolarity: Byte,
    levels: map<int, bool>)

  /** A slot is in use when its pin is not negative. */
  predicate InUse(c: Channel)
  {
    c.pin >= 0
  }

  /** The slots an API call with argument `pin` acts on: all used slots for a negative pin. */
  predicate Selects(pin: int, c: Channel)
  {
    (pin < 0 && c.pin >= 0) || (pin >= 0 && c.pin == pin)
  }

  /** The shape every state keeps: 20 slots of 10 samples, and an index that is in range. */
  predicate ValidState(s: PwmState)
  {
    |s.channels| == MaxChannels &&
    (forall i :: 0 <= i < |s.channels| ==> |s.channels[i].analogValue| == AnalogSamples) &&
    s.analogSample < AnalogSamples
  }

  /** A slot as static initialisation leaves it: every field zero, the register null. */
  function ZeroChannel(): (c: Channel)
    ensures InUse(c) && c.pin == 0 && |c.analogValue| == AnalogSamples
  {
    Channel(0, 0, 0, seq(AnalogSamples, _ => 0), 0, None, 0, 0, 0, 0)
  }

  /** The state before SoftPWMBegin runs (SoftPWM.cpp:67-70, 95). */
  function InitialState(): (s: PwmState)
    ensures ValidState(s) && s.isrSoftcount == 255
  {
    PwmState(seq(MaxChannels, _ => ZeroChannel()), 0xff, 0, 0, Normal, map[])
  }
}
