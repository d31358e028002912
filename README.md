# SoftPWM channel table and timer tick, modelled in Dafny

SoftPWM is a software pulse-width-modulation library for microcontrollers. A
table of 20 channel slots holds, for each output pin, its duty value
(`pwmvalue`), the width the current frame uses (`checkval`), its fade rates,
its polarity and a small ring of analog readback samples. A timer interrupt
advances an 8-bit frame counter. At the wrap to 0 the interrupt fades every
slot's `checkval` one step towards `pwmvalue` and drives "on" every slot whose
new `checkval` is positive. During
the frame it drives each used slot "off" once the counter reaches its
`checkval`. Every `SOFTPWM_ANALOG` frames it also stores one ADC sample. The
foreground API (`SoftPWMBegin`, `SoftPWMSet`, `SoftPWMSetPercent`,
`SoftPWMEnd`, `SoftPWMSetPolarity`, `SoftPWMSetFadeTime`, `SoftPWMGetAnalog`)
edits the table and reads back the sample average.

The model has two layers:

- `SoftPwmDriver.SoftPwm` is a class holding the global state: the table as
  an `array<Channel>` updated in place, the three 8-bit counters, the default
  polarity, and a map from pin to the output-latch bit last written for it. Each method is
  the C loop it models. Its `ensures` ties the new state to a transition
  function on values: `TickSpec`, `BeginSpec`, `SetSpec`, `EndSpec`, and so on.
- The modules `FadeEngine`, `ChannelTable`, `TickScheduler`, `ControlApi` and
  `AnalogAverager` define those transitions on the value `PwmState`. They also
  prove what the library promises: fade clamping and convergence, the on-time of
  a pin, at most one sample per tick, pin uniqueness, and the bounds of the
  average.

The C code narrows to `uint8_t` in several places. Each of these is written out
as `Wrap8` (reduction modulo 256). Output registers are abstracted as
`outport: Option<int>`. `Some(p)` drives pin p. `None` is the null register
left by static initialisation and by `SoftPWMBegin`. The ADC reading is the
`adc` argument of `Tick`. The clock-derived factor of the fade rates is the
class constant `fadeScale`.

The model keeps these behaviours of the code as they are written:

- Allocating a slot does not reset its fade rates or its `checkval`. The reset
  of `checkval` at SoftPWM.cpp:287 is commented out. So a pin ended and set
  again in the same slot resumes its old fade. `Allocate` keeps these fields,
  and `ReRegisterKeepsFade` proves it.
- The sample index is one global shared by all channels. The average skips
  zero entries, so it is taken over every non-zero sample of the slots that
  hold the pin, whichever tick stored them.
- Any non-zero `hardset` sets the frame counter to 255, besides the timer
  reset, which is not modelled. The header's note on it (SoftPWM.h:63) reads
  `>1 = disable timer`, but the code tests only for non-zero and disables
  nothing.
- `SoftPWMSetPercent` rounds down (50% gives 127). Above 100% the quotient wraps
  modulo 256.
- The frame-start loop also visits free slots. A freed slot whose register is
  still set keeps writing that pin's latch at every frame start while its
  `checkval` is positive. `EndThenStaleWrite` shows one case: an ended
  inverted pin is written LOW again at the next frame start. The stale write
  goes on after the pin is set as an output again in another slot. That slot
  always has a lower number (`SetBesideStaleSlot`), so the freed slot writes
  last. `StaleSlotHoldsLow` shows the effect: a freed inverted slot
  keeps a live normal pin LOW for the whole frame, whatever its width.
- A width of 255 is not "always on". The tick at counter 255 reaches
  `checkval` 255 and drives the pin "off" for that last count, as
  `OutputTiming`'s `n < checkval` shows.
- Static initialisation leaves pin 0 in all 20 slots. Pins are unique only once
  `SoftPWMBegin` has run, which `WellFormed` captures.

## Model

| member | source | states |
|---|---|---|
| FadeEngine.FadeStep | SoftPWM.cpp:114-138 | defines the checkval a slot takes at a frame start: one step towards pwmvalue by the rate of that direction, clamped at pwmvalue, or a jump when that rate or both rates are 0 |
| FadeEngine.FadeIter | SoftPWM.cpp:108-138 | defines the checkval after a number of frame starts with fixed target and rates |
| FadeEngine.FadeAmount | SoftPWM.cpp:331 | defines the unnarrowed quotient 255*K/time |
| ChannelTable.PassWrite | SoftPWM.cpp:141-177 | defines the pin and level one slot writes in the "on" pass (checkval > 0), the "off" pass (used slot, counter equals checkval) and End's release (selected slot, HIGH) |
| ChannelTable.Driven | SoftPWM.cpp:141-177 | defines the levels after a pass over the slots in index order, a later write replacing an earlier one |
| TickScheduler.FadeSlot | SoftPWM.cpp:114-138 | defines a slot after the fade step: only its checkval changes |
| TickScheduler.StartFrame | SoftPWM.cpp:112-138 | defines the fade step applied to all 20 slots, free ones included |
| TickScheduler.StoreSample | SoftPWM.cpp:155-167 | defines the sampling of a tick: if the period is up, a store into the slot SampleSlot picks, otherwise nothing |
| TickScheduler.StoreIn | SoftPWM.cpp:159-166 | defines one store: the sample at the shared index, the period counter cleared, the index advanced with its wrap at 10 |
| TickScheduler.Run | SoftPWM.cpp:99-186 | defines the state after one tick per given ADC value, in order |
| ControlApi.ResetSlot | SoftPWM.cpp:210-216 | defines Begin's reset of one slot |
| ControlApi.BeginSpec | SoftPWM.cpp:208-219 | defines Begin: every slot reset, the default polarity stored as given |
| ControlApi.Allocate | SoftPWM.cpp:280-286 | defines the fields a newly allocated slot receives |
| ControlApi.SetSpec | SoftPWM.cpp:248-297 | defines Set: the hardset, the wildcard, the update of the lowest matching slot, and allocation of the lowest free slot with the idle-level write |
| ControlApi.SetPercentSpec | SoftPWM.cpp:243-246 | defines SetPercent as Set with both percentages scaled |
| ControlApi.EndSpec | SoftPWM.cpp:299-316 | defines End: the selected slots freed and their pins written HIGH in slot order |
| ControlApi.StoredPolarity | SoftPWM.cpp:230-231 | defines the normalisation of the polarity argument |
| ControlApi.SetPolaritySpec | SoftPWM.cpp:226-241 | defines SetPolarity: the normalised code in every selected slot |
| ControlApi.SetFadeTimeSpec | SoftPWM.cpp:318-345 | defines SetFadeTime: both rates to every used slot for a negative pin, otherwise to the lowest slot holding the pin |
| AnalogAverager.NonZeroSum | SoftPWM.cpp:361-368 | defines the sum of one slot's non-zero samples |
| AnalogAverager.NonZeroCount | SoftPWM.cpp:361-368 | defines the number of one slot's non-zero samples |
| AnalogAverager.SampleSum | SoftPWM.cpp:357-370 | defines sampleSum: NonZeroSum over the slots whose pin equals the argument |
| AnalogAverager.SampleCount | SoftPWM.cpp:357-370 | defines validSamples: NonZeroCount over the same slots |
| AnalogAverager.Average | SoftPWM.cpp:372-374 | defines the returned value: the integer quotient of the two, when the count is not 0 |
| PwmTypes.Wrap8 | SoftPWM.cpp:108 | the conversion to `uint8_t` (here the pre-increment of the frame counter; also at :184, :212, :245, :333, :339): the identity on 0..255, a subtraction of 256 on 256..511 and an addition of 256 on -256..-1 (so the -1 of :212 becomes 255) |
| PwmTypes.InUse | SoftPWM.cpp:153 | defines a used slot as one whose pin is not negative (also the free test at :273) |
| PwmTypes.Selects | SoftPWM.cpp:235-236 | defines the slots an API call acts on: every used slot for a negative pin, else the slots holding the pin (the same test at :262-263, :305-306, :325-326) |
| PwmTypes.ZeroChannel | SoftPWM.cpp:95 | a statically initialised slot holds pin 0, so it counts as used, and has ten samples |
| PwmTypes.InitialState | SoftPWM.cpp:67-70 | the state before Begin is well shaped, with the frame counter at 0xff |
| SoftPwmDriver.SoftPwm.constructor | SoftPWM.cpp:67-95 | the object starts in the statically initialised state |
| SoftPwmDriver.SoftPwm.Tick | SoftPWM.cpp:99-186 | one interrupt performs exactly the transition `TickSpec` |
| SoftPwmDriver.SoftPwm.FadeAndDriveOn | SoftPWM.cpp:108-149 | the frame-start loop fades every slot and leaves the levels of the "on" pass over the faded table |
| SoftPwmDriver.SoftPwm.SampleAndDriveOff | SoftPWM.cpp:151-179 | the per-slot loop performs the turns of all 20 slots in order |
| SoftPwmDriver.SoftPwm.VisitSlotAt | SoftPWM.cpp:153-178 | one slot's turn: sample if due, then drive "off" if the counter reached its width |
| SoftPwmDriver.SoftPwm.Begin | SoftPWM.cpp:188-224 | the reset loop frees every slot and stores the default polarity, as `BeginSpec` says |
| SoftPwmDriver.SoftPwm.Set | SoftPWM.cpp:248-297 | the search loop, with its early return and first-free tracking, performs `SetSpec` |
| SoftPwmDriver.SoftPwm.Register | SoftPWM.cpp:277-296 | allocation writes the new slot and the pin's idle level, and nothing else |
| SoftPwmDriver.SoftPwm.SetPercent | SoftPWM.cpp:243-246 | Set with the delay and the value scaled from percent |
| SoftPwmDriver.SoftPwm.End | SoftPWM.cpp:299-316 | the loop frees the selected slots and writes HIGH to their pins, as `EndSpec` says |
| SoftPwmDriver.SoftPwm.SetPolarity | SoftPWM.cpp:226-241 | the loop stores the normalised polarity in the selected slots |
| SoftPwmDriver.SoftPwm.SetFadeTime | SoftPWM.cpp:318-345 | the loop, breaking at the first match for a single pin, stores both rates as `SetFadeTimeSpec` says |
| SoftPwmDriver.SoftPwm.GetAnalog | SoftPWM.cpp:347-376 | the nested loops return the integer mean of the non-zero samples of the slots holding the pin |
| FadeEngine.FadeStepBounds | SoftPWM.cpp:114-138 | one fade step stays between checkval and pwmvalue; it moves by the full rate unless clamped and jumps when the needed rate is 0; it strictly reduces the distance; the target is a fixed point |
| FadeEngine.FadeIterDistance | SoftPWM.cpp:114-138 | each frame takes at least one unit off the distance, so after as many frames as the distance the target is reached and kept |
| FadeEngine.FadeIterBetween | SoftPWM.cpp:114-138 | repeated frames never leave the interval between start value and target |
| FadeEngine.FadeUpIter | SoftPWM.cpp:122-127 | fading up moves by exactly the up rate per frame until capped at the target |
| FadeEngine.FadeDownIter | SoftPWM.cpp:128-133 | fading down moves by exactly the down rate per frame until capped at the target |
| FadeEngine.FadeRate | SoftPWM.cpp:329-339 | the rate is 0 for time 0; otherwise it equals 255*K/time modulo 256, and equals the quotient itself when that fits in 8 bits |
| FadeEngine.FadeRateAntitone | SoftPWM.cpp:331 | a longer fade time never gives a larger rate when there is no wrap |
| FadeEngine.PercentScale | SoftPWM.cpp:245 | for p <= 100 the result is the floor of p*255/100; above 100 it is that quotient modulo 256 |
| FadeEngine.PercentScaleValues | SoftPWM.cpp:245 | 0, 50, 100 and 101 percent give 0, 127, 255 and 1 |
| FadeEngine.PercentScaleMonotone | SoftPWM.cpp:245 | scaling is monotone on 0..100 |
| ChannelTable.FindPin | SoftPWM.cpp:260-270 | the slot Set updates is the lowest holding the pin; none means no slot holds it |
| ChannelTable.FirstFree | SoftPWM.cpp:272-274 | the slot Set allocates is the lowest free one; none means every slot is used |
| ChannelTable.FindPinUnique | SoftPWM.cpp:262-269 | with unique pins, the slot holding a pin is the one the search stops at |
| ChannelTable.DrivenUntouched | SoftPWM.cpp:141-177 | a pin no slot writes in a pass keeps its level |
| ChannelTable.DrivenLast | SoftPWM.cpp:141-177 | a pin's level after a pass is the one written by the last slot that writes it |
| ChannelTable.DrivenSole | SoftPWM.cpp:141-177 | a pin that only one slot writes gets that slot's level, or keeps its own |
| TickScheduler.SampleSlot | SoftPWM.cpp:153-157 | the slot picked for sampling is the first used slot whose delay equals the counter; none if there is no such slot |
| TickScheduler.VisitSlot | SoftPWM.cpp:153-178 | one slot's turn keeps the shape of the state |
| TickScheduler.VisitSlots | SoftPWM.cpp:151-179 | every prefix of the loop keeps the shape of the state |
| TickScheduler.VisitSlotsConfig | SoftPWM.cpp:151-179 | the loop changes neither the counter, the polarity, nor anything of a slot but its samples |
| TickScheduler.VisitSlotsSample | SoftPWM.cpp:155-167 | the loop stores only in the picked slot: before its turn nothing is stored, from it on the result of one store holds |
| TickScheduler.VisitSlotSample | SoftPWM.cpp:155-167 | a slot's turn stores exactly when it is used, the period is up and its delay is the counter |
| TickScheduler.VisitSlotsLevels | SoftPWM.cpp:170-177 | the loop's "off" writes are those of the FrameOff pass over the slots visited |
| TickScheduler.VisitAllSlots | SoftPWM.cpp:151-179 | the whole loop equals one store followed by the FrameOff pass |
| TickScheduler.FrameStart | SoftPWM.cpp:108-149 | the counter advance and the frame-start pass keep the shape of the state |
| TickScheduler.TickSpec | SoftPWM.cpp:99-186 | a tick keeps 20 slots of ten samples and the index below ten |
| TickScheduler.FrameStartFacts | SoftPWM.cpp:108-149 | the counter advances modulo 256; slots change only at 0, and then by the fade step alone; the levels change only at 0 |
| TickScheduler.StoreSampleKeeps | SoftPWM.cpp:155-167 | sampling keeps the counter, polarity, levels and every slot's configuration |
| TickScheduler.TickConfig | SoftPWM.cpp:108-149 | over a tick each slot's configuration is faded once at the wrap to 0 and is unchanged otherwise |
| TickScheduler.TickKeepsWellFormed | SoftPWM.cpp:99-186 | the interrupt keeps pins unique and registers matching |
| TickScheduler.TickStoresSample | SoftPWM.cpp:155-185 | a due sample goes to the first matching slot at the shared index; no other slot changes; the index advances modulo 10; the period counter restarts |
| TickScheduler.TickStoresNothing | SoftPWM.cpp:155-185 | otherwise no sample changes, the index stays, and the period counter moves only at counter 255 |
| TickScheduler.TickAtMostOneSample | SoftPWM.cpp:155-167 | of any two slots at most one changes its samples in a tick |
| TickScheduler.TickUntouchedPin | SoftPWM.cpp:141-177 | a pin that no slot's register drives keeps its level through a tick |
| TickScheduler.TickSoleLevel | SoftPWM.cpp:108-179 | a pin driven by one slot goes "on" at counter 0 if the width is positive and "off" when the counter reaches the width, and is otherwise unchanged |
| TickScheduler.OutputTiming | SoftPWM.cpp:99-186 | from a frame boundary, after the tick at count n the pin is "on" exactly when n < checkval; never "on" if checkval is 0; inverted polarity swaps the levels |
| TickScheduler.TickStaleLevel | SoftPWM.cpp:141-177 | with a used normal slot and a higher free inverted slot on one register: a frame start at which the free slot's checkval is positive leaves the pin LOW, and any other tick keeps a LOW pin LOW |
| TickScheduler.StaleSlotHoldsLow | SoftPWM.cpp:99-186 | with those two slots at a frame boundary, the pin is LOW after each of the next 256 ticks, whatever the live slot's checkval |
| TickScheduler.TickFadesOnce | SoftPWM.cpp:108-138 | a tick applies one more fade step exactly when it wraps the counter to 0 |
| TickScheduler.RunFades | SoftPWM.cpp:108-138 | after n ticks from a boundary each slot's checkval is faded once per elapsed frame start, and the rest of its configuration is unchanged |
| TickScheduler.TickCounter | SoftPWM.cpp:108 | a tick advances the frame counter by one, from 255 back to 0 |
| TickScheduler.RunCounter | SoftPWM.cpp:108 | after n ticks the frame counter is the start value plus n, modulo 256 |
| TickScheduler.FrameEnds | SoftPWM.cpp:182-185 | defines the number of ticks of a run after which the counter is 255, the ticks that advance the period counter |
| TickScheduler.FrameEndsCount | SoftPWM.cpp:182-185 | frame ends come one per 256 ticks: a closed form for their number |
| TickScheduler.FrameEndsMonotone | SoftPWM.cpp:182-185 | a longer run has no fewer frame ends |
| TickScheduler.TickQuiet | SoftPWM.cpp:155-185 | with the period counter below SOFTPWM_ANALOG a tick stores nothing, and the period counter grows by one exactly when the tick ends a frame |
| TickScheduler.RunStoresNothing | SoftPWM.cpp:155-185 | while the period counter plus the frame ends of the earlier ticks stays below SOFTPWM_ANALOG, a run stores no sample, keeps the index, and the period counter counts the frame ends |
| TickScheduler.RunSampleGap | SoftPWM.cpp:155-185 | from a period counter a < SOFTPWM_ANALOG, the next (SOFTPWM_ANALOG - 1 - a) * 256 + 1 ticks store nothing, so two stores are at least SOFTPWM_ANALOG frame ends apart |
| TickScheduler.FadeSettles | SoftPWM.cpp:114-138 | after 255 frames every checkval equals its pwmvalue, whatever the rates |
| ControlApi.BeginFreesAll | SoftPWM.cpp:208-219 | Begin frees every slot with no readback pin, delay 255, normal polarity, a null register and zero rates; it keeps samples, values and checkvals, and leaves a well-formed table |
| ControlApi.BeginIdempotent | SoftPWM.cpp:208-219 | a second Begin with the same polarity changes nothing |
| ControlApi.SetExistingPin | SoftPWM.cpp:260-270 | setting a registered pin changes only that slot's pwmvalue and writes no level |
| ControlApi.SetAllocates | SoftPWM.cpp:277-296 | a new pin takes the lowest free slot with the given readback pin, delay and value and the default polarity; checkval, rates and samples stay; the pin's idle level is written |
| ControlApi.SetFullIsNoop | SoftPWM.cpp:277 | with no free slot, setting a new pin changes neither the table nor the levels |
| ControlApi.SetWildcard | SoftPWM.cpp:262-277 | a negative pin sets the value of every used slot and never allocates or frees |
| ControlApi.SetHardsetRestartsFrame | SoftPWM.cpp:253-257 | any non-zero hardset does exactly what hardset 0 does, and also sets the counter to 0xff |
| ControlApi.SetKeepsWellFormed | SoftPWM.cpp:248-297 | Set keeps pins unique and registers matching |
| ControlApi.SetRegistersPin | SoftPWM.cpp:248-297 | when there is room, exactly one slot holds the pin afterwards, with the value |
| ControlApi.EndFrees | SoftPWM.cpp:303-315 | for any table, End frees exactly the selected slots and changes no other field |
| ControlApi.EndKeepsWellFormed | SoftPWM.cpp:303-315 | End keeps pins unique and registers matching |
| ControlApi.EndLevels | SoftPWM.cpp:305-310 | End writes HIGH to every released pin and leaves every other pin alone |
| ControlApi.EndThenStaleWrite | SoftPWM.cpp:112-147 | a freed slot keeps its register: after End of an inverted pin writes it HIGH, the next wrap to 0 writes it LOW again through the freed slot |
| ControlApi.SetBesideStaleSlot | SoftPWM.cpp:272-286 | setting a pin again while a freed slot still holds its register takes the lowest free slot, never above the freed one; when it is another slot, the freed slot stays as it was above it |
| ControlApi.ReRegisterKeepsFade | SoftPWM.cpp:280-287 | ending a pin and setting it again in the same slot keeps its checkval and fade rates |
| ControlApi.SetPolarityStores | SoftPWM.cpp:233-240 | for any table, the normalised polarity goes to exactly the selected slots, and no other field changes |
| ControlApi.SetPolarityKeepsWellFormed | SoftPWM.cpp:226-241 | SetPolarity keeps the table well formed |
| ControlApi.SetPolarityNormalises | SoftPWM.cpp:230-231 | a selected slot's polarity becomes 0 or 1, and it is 0 exactly when the argument is 0 |
| ControlApi.SetFadeTimeSingle | SoftPWM.cpp:323-344 | for a single pin the lowest slot holding it receives both FadeRate values; no other slot and no other field changes; without such a slot nothing changes |
| ControlApi.SetFadeTimeAll | SoftPWM.cpp:323-344 | a negative pin gives both rates to every used slot and leaves free slots alone |
| ControlApi.SetFadeTimeKeepsWellFormed | SoftPWM.cpp:318-345 | SetFadeTime keeps the table well formed |
| AnalogAverager.SampleCountBound | SoftPWM.cpp:351-366 | at most 200 non-zero samples are counted, so the 8-bit counter never wraps |
| AnalogAverager.NonZeroSumBounds | SoftPWM.cpp:361-368 | one slot's sum lies between count times the smallest and count times the largest sample |
| AnalogAverager.SampleSumBounds | SoftPWM.cpp:357-370 | the total lies between count times the smallest and count times the largest sample |
| AnalogAverager.AverageBounds | SoftPWM.cpp:372-374 | the average lies between the smallest and the largest non-zero sample |
| AnalogAverager.AverageSteady | SoftPWM.cpp:363-374 | a steady reading averages to itself, however many entries are still zero |

## Left out

- Timer set-up: `SOFTPWM_TIMER_INIT`, the `Timer2` calls and `SOFTPWM_TIMER_SET` are hardware register macros. They are not part of this model. Only hardset's write of 0xff to the counter is kept.
- Pin hardware: `digitalWrite` and the bit operations on the output registers are modelled as writes to the `levels` map. An entry of `levels` is the pin's output-latch bit, not a level the pin is known to drive. `portOutputRegister`, `digitalPinToBitMask` and the port/mask pointers, including the `OUTPORT_32BITS` variant, are abstracted as the slot's `outport`.
- `pinMode` is left out: the model does not track whether a pin is an output or an input. After End (SoftPWM.cpp:309-310) a `true` entry for a released pin is the latch of an input pin, which on that hardware enables the pull-up; it is not a driven HIGH. A freed slot's stale register keeps writing the pin at frame start even after the pin is set as an output again in another slot, and then it drives that output (`StaleSlotHoldsLow`).
- Writes through the null register (`outport` 0) are not modelled. A slot with `outport == None` writes no level.
- The ADC object, its speed set-up and `analogRead` belong to a foreign library. The value read is the `adc` argument of `Tick`, and the readback pin is stored but not read.
- `analogValue` is an `int` array in C. Here it is a sequence of naturals, because samples are non-negative.
- The clock constants `SOFTPWM_OCR` and `F_CPU` are taken as the single factor `fadeScale`.
- GetAnalog's `float` holds only an integer quotient that is converted back to `int`, so the result is the integer quotient.
- SoftPwmDriver.SoftPwm.GetAnalog: requires at least one non-zero sample. The C code divides by zero in that case.
- SoftPwmDriver.SoftPwm.GetAnalog: the `int` running sum is unbounded. Samples so large that 200 of them overflow `int` are not modelled.
- Concurrency: each API call and each tick is one atomic step. The code has no critical sections, so the interleavings of the interrupt with foreground calls are not modelled.
- `SoftPWM.h` contributes only declarations and constants, which appear in `PwmTypes`.
- TickScheduler.OutputTiming: requires that slot i is the only slot whose register drives pin p; `TickScheduler.TickSoleLevel` requires the same. The program can reach states where this fails: a pin set, ended and then set again in a lower-numbered slot leaves two slots with the same register, and the freed slot writes last. The general timing of a pin written by several slots is not stated. `EndThenStaleWrite` and `StaleSlotHoldsLow` show how a freed slot's write interferes.
- The default arguments of the C API are not modelled: `defaultPolarity = SOFTPWM_NORMAL` for `SoftPWMBegin` (SoftPWM.h:56), and `hardset = 0` for `SoftPWMSet` and `SoftPWMSetPercent` (SoftPWM.h:64, 72). Every method takes all its arguments explicitly.
