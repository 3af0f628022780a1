/** The 7-bit control change the firmware's main loop sends (src/main.cpp):
    the value is clamped to a MIDI data byte and sent on controller 1 of
    channel 1 unless it equals the value sent last. */
module MainLoop {
  import opened Music
  import CInt
  import MidiOut

  const Controller: int := 1
  const MidiChannel: int := 1

  /** The largest 7-bit data byte. */
  const MaxValue: int := 127

  /** `prevControlValue = -1` stored in a `midi::DataByte`. */
  const InitialControlValue: Byte := CInt.ToUInt8(-1)

  /** `sendControlChange`: whether to send, and the value remembered. */
  function SendControlChange(prev: Byte, value: int): (r: MidiOut.Sent<Byte>)
    ensures var v := MidiOut.Clamp(value, MaxValue);
      && (r.messages == [] <==> v == prev)
      && (r.messages == [] ==> r.state == prev)
      && (r.messages != [] ==> r.messages == [MidiOut.ControlChange(Controller, v, MidiChannel)] && r.state == v)
  {
    var v: Byte := MidiOut.Clamp(value, MaxValue);
    if v == prev then MidiOut.Sent([], prev)
    else MidiOut.Sent([MidiOut.ControlChange(Controller, v, MidiChannel)], v)
  }

  /** The stored start value lies above every clamped value, so the first
      call always sends. */
  lemma FirstCallSends(value: int)
    ensures InitialControlValue == 255
    ensures |SendControlChange(InitialControlValue, value).messages| == 1
  {
  }

  /** Whatever was sent is remembered: sending the same value again sends
      nothing, and a different clamped value is always sent. */
  lemma RepeatIsSilent(prev: Byte, a: int, b: int)
    ensures var first := SendControlChange(prev, a);
      var second := SendControlChange(first.state, b);
      second.messages == [] <==> MidiOut.Clamp(a, MaxValue) == MidiOut.Clamp(b, MaxValue)
  {
  }

  /** Every value sent is a 7-bit data byte. */
  lemma SentValuesAreDataBytes(prev: Byte, value: int)
    ensures forall i :: 0 <= i < |SendControlChange(prev, value).messages| ==>
      0 <= SendControlChange(prev, value).messages[i].value <= MaxValue
  {
  }
}
