/**
 * The channel table as a value: slot search, the uniqueness invariant, and
 * the output writes that a pass over the table performs in slot order.
 */
module ChannelTable {
  import opened PwmTypes

  /** The lowest slot whose pin equals `pin`. */
  function FindPin(t: seq<Channel>, pin: int): (r: Option<nat>)
    ensures r.Some? ==> r.value < |t| && t[r.value].pin == pin
    ensures r.Some? ==> forall k :: 0 <= k < r.value ==> t[k].pin != pin
    ensures r.None? ==> forall k :: 0 <= k < |t| ==> t[k].pin != pin
    decreases |t|
  {
    if t == [] then None
    else if t[0].pin == pin then Some(0)
    else match FindPin(t[1..], pin)
      case None => None
      case Some(k) => Some(k + 1)
  }

  /** The lowest free slot (pin < 0), the one SoftPWMSet allocates (SoftPWM.cpp:273-274). */
  function FirstFree(t: seq<Channel>): (r: Option<nat>)
    ensures r.Some? ==> r.value < |t| && !InUse(t[r.value])
    ensures r.Some? ==> forall k :: 0 <= k < r.value ==> InUse(t[k])
    ensures r.None? ==> forall k :: 0 <= k < |t| ==> InUse(t[k])
    decreases |t|
  {
    if t == [] then None
    else if !InUse(t[0]) then Some(0)
    else match FirstFree(t[1..])
      case None => None
      case Some(k) => Some(k + 1)
  }

  /** No pin is held by two used slots. */
  predicate PinsUnique(t: seq<Channel>)
  {
    forall i, j :: 0 <= i < j < |t| && InUse(t[i]) ==> t[i].pin != t[j].pin
  }

  /**
   * The invariant the API keeps once SoftPWMBegin has run: pins are unique
   * and a used slot's register is the one of its own pin.
   */
  predicate WellFormed(t: seq<Channel>)
  {
    PinsUnique(t) &&
    forall i :: 0 <= i < |t| && InUse(t[i]) ==> t[i].outport == Some(t[i].pin as int)
  }

  /** In a table with unique pins, the slot holding a pin is the one FindPin returns. */
  lemma FindPinUnique(t: seq<Channel>, i: nat)
    requires PinsUnique(t) && i < |t| && InUse(t[i])
    ensures FindPin(t, t[i].pin) == Some(i)
  {
  }

  /** The three passes over the table that write output pins. */
  datatype Pass =
    | FrameOn            // frame start: drive "on" every slot with checkval > 0 (SoftPWM.cpp:141-147)
    | FrameOff(count: Byte)  // drive "off" every used slot whose checkval is the counter (SoftPWM.cpp:170-177)
    | Release(arg: int)  // SoftPWMEnd: write HIGH to every selected slot's pin (SoftPWM.cpp:309)

  /** The pin a slot writes during a pass, and the level, if it writes one. */
  function PassWrite(c: Channel, pass: Pass): Option<(int, bool)>
  {
    match pass
    case FrameOn =>
      if c.checkval > 0 && c.outport.Some? then Some((c.outport.value, c.polarity == Normal)) else None
    case FrameOff(count) =>
      if InUse(c) && c.checkval == count && c.outport.Some? then Some((c.outport.value, c.polarity != Normal)) else None
    case Release(arg) =>
      if Selects(arg, c) then Some((c.pin as int, true)) else None
  }

  /** The levels after a pass over the slots of `t` in index order: a later write wins. */
  function Driven(t: seq<Channel>, pass: Pass, levels: map<int, bool>): map<int, bool>
    decreases |t|
  {
    if t == [] then levels
    else
      var before := Driven(t[..|t| - 1], pass, levels);
      match PassWrite(t[|t| - 1], pass)
      case None => before
      case Some(w) => before[w.0 := w.1]
  }

  /** One more slot of a pass: the levels so far, with that slot's write if it makes one. */
  lemma DrivenStep(t: seq<Channel>, i: nat, pass: Pass, levels: map<int, bool>)
    requires i < |t|
    ensures Driven(t[..i + 1], pass, levels) ==
      match PassWrite(t[i], pass)
      case None => Driven(t[..i], pass, levels)
      case Some(w) => Driven(t[..i], pass, levels)[w.0 := w.1]
  {
    assert t[..i + 1][..i] == t[..i];
  }

  predicate Writes(c: Channel, pass: Pass, q: int)
  {
    PassWrite(c, pass).Some? && PassWrite(c, pass).value.0 == q
  }

  /** A pin no slot writes keeps its level, and stays written or unwritten. */
  lemma {:induction false} DrivenUntouched(t: seq<Channel>, pass: Pass, levels: map<int, bool>, q: int)
    requires forall k :: 0 <= k < |t| ==> !Writes(t[k], pass, q)
    ensures q in Driven(t, pass, levels) <==> q in levels
    ensures q in levels ==> Driven(t, pass, levels)[q] == levels[q]
    decreases |t|
  {
    if t != [] {
      DrivenUntouched(t[..|t| - 1], pass, levels, q);
    }
  }

  /** The level of a pin is the one written by the last slot that writes it. */
  lemma {:induction false} DrivenLast(t: seq<Channel>, pass: Pass, levels: map<int, bool>, i: nat, q: int)
    requires i < |t| && Writes(t[i], pass, q)
    requires forall k :: i < k < |t| ==> !Writes(t[k], pass, q)
    ensures q in Driven(t, pass, levels)
    ensures Driven(t, pass, levels)[q] == PassWrite(t[i], pass).value.1
    decreases |t|
  {
    if i < |t| - 1 {
      DrivenLast(t[..|t| - 1], pass, levels, i, q);
    }
  }

  /** When a single slot writes a pin, that slot alone decides its level. */
  lemma DrivenSole(t: seq<Channel>, pass: Pass, levels: map<int, bool>, i: nat, q: int)
    requires i < |t|
    requires forall k :: 0 <= k < |t| && k != i ==> !Writes(t[k], pass, q)
    ensures Writes(t[i], pass, q) ==> q in Driven(t, pass, levels) && Driven(t, pass, levels)[q] == PassWrite(t[i], pass).value.1
    ensures !Writes(t[i], pass, q) ==> (q in Driven(t, pass, levels) <==> q in levels)
    ensures !Writes(t[i], pass, q) && q in levels ==> Driven(t, pass, levels)[q] == levels[q]
  {
    if Writes(t[i], pass, q) {
      DrivenLast(t, pass, levels, i, q);
    } else {
      DrivenUntouched(t, pass, levels, q);
    }
  }
}
