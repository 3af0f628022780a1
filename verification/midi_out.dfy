/** MIDI output (include/midi_out.h): a channel that remembers the chord it
    last sent and sends note-on and note-off messages for the difference,
    the All Notes Off message, and 14-bit control changes split over two
    controllers. Messages are collected in a list instead of being handed to
    the USB MIDI transport. */
module MidiOut {
  import opened Music
  import opened Wrappers
  import CInt

  /** `(1 << 14) - 1`. */
  const MaxControlValue: int := 16383

  /** Controller 123, the All Notes Off channel mode message of MIDI 1.0. */
  const AllNotesOffController: int := 123

  /** `prevControlValue = -1` stored in a `midi::DataByte`. */
  const InitialControlValue: Byte := CInt.ToUInt8(-1)

  datatype Message =
    | NoteOn(note: Note, velocity: Byte, channel: int)
    | NoteOff(note: Note, velocity: Byte, channel: int)
    | ControlChange(control: int, value: int, channel: int)

  /** The channel number and the chord last sent on it. */
  datatype Channel = Channel(chan: int, prev: Chord)

  /** The messages an operation emits together with the state it leaves. */
  datatype Sent<S> = Sent(messages: seq<Message>, state: S)

  /** `value` limited to [0, hi]. */
  function Clamp(value: int, hi: int): (v: int)
    requires hi >= 0
    ensures 0 <= v <= hi
    ensures 0 <= value <= hi ==> v == value
    ensures value < 0 ==> v == 0
    ensures value > hi ==> v == hi
  {
    if value < 0 then 0 else if value > hi then hi else value
  }

  // ---------------------------------------------------------------------------
  // Chords

  /** A message of the diff is a note-on or note-off on the channel. */
  predicate NoteMessage(msg: Message, chan: int) {
    (msg.NoteOn? || msg.NoteOff?) && msg.channel == chan && InChordRange(msg.note)
  }

  /** A message that belongs in the diff for `prev` to `chord`: a note-on,
      with the note's velocity, for a note the chord adds, or a note-off at
      velocity 0 for a note it drops. */
  predicate Justified(msg: Message, prev: Chord, chord: Chord, velocity: Note -> Byte, chan: int) {
    && NoteMessage(msg, chan)
    && (msg.NoteOn? ==> Has(chord, msg.note) && !Has(prev, msg.note) && msg.velocity == velocity(msg.note))
    && (msg.NoteOff? ==> Has(prev, msg.note) && !Has(chord, msg.note) && msg.velocity == 0)
  }

  /** The message, if any, for one note: a note-on if the new chord adds
      it, a note-off if the new chord drops it. */
  function NoteChange(prev: Chord, chord: Chord, velocity: Note -> Byte, chan: int, n: Note): (r: seq<Message>)
    requires InChordRange(n)
    ensures |r| <= 1
    ensures forall i :: 0 <= i < |r| ==> Justified(r[i], prev, chord, velocity, chan) && r[i].note == n
    ensures Has(chord, n) != Has(prev, n) <==> |r| == 1
  {
    if Has(chord, n) && !Has(prev, n) then [NoteOn(n, velocity(n), chan)]
    else if Has(prev, n) && !Has(chord, n) then [NoteOff(n, 0, chan)]
    else []
  }

  /** The messages for the first `k` notes of the chord range, lowest first. */
  function ChordDiff(prev: Chord, chord: Chord, velocity: Note -> Byte, chan: int, k: nat): seq<Message>
    requires k <= 64
  {
    if k == 0 then []
    else ChordDiff(prev, chord, velocity, chan, k - 1) + NoteChange(prev, chord, velocity, chan, NoteAt(k - 1))
  }

  /** Every message of `s` is justified and concerns a note below `bound`,
      and the notes ascend. */
  predicate SoundDiff(s: seq<Message>, prev: Chord, chord: Chord, velocity: Note -> Byte, chan: int, bound: int) {
    && (forall i :: 0 <= i < |s| ==> Justified(s[i], prev, chord, velocity, chan) && s[i].note.num < bound)
    && (forall i, j :: 0 <= i < j < |s| ==> s[i].note.num < s[j].note.num)
  }

  /** `s` holds the note-on of every note below `bound` that the chord adds
      and the note-off of every one it drops. */
  ghost predicate CompleteDiff(s: seq<Message>, prev: Chord, chord: Chord, velocity: Note -> Byte, chan: int, bound: int) {
    forall m :: InChordRange(m) && m.num < bound ==>
      && (Has(chord, m) && !Has(prev, m) ==> NoteOn(m, velocity(m), chan) in s)
      && (Has(prev, m) && !Has(chord, m) ==> NoteOff(m, 0, chan) in s)
  }

  /** Every message of the diff is justified, and the notes ascend. */
  lemma {:induction false} ChordDiffSound(prev: Chord, chord: Chord, velocity: Note -> Byte, chan: int, k: nat)
    requires k <= 64
    ensures SoundDiff(ChordDiff(prev, chord, velocity, chan, k), prev, chord, velocity, chan, ChordBase.num + k)
  {
    if k > 0 {
      ChordDiffSound(prev, chord, velocity, chan, k - 1);
      var before := ChordDiff(prev, chord, velocity, chan, k - 1);
      var extra := NoteChange(prev, chord, velocity, chan, NoteAt(k - 1));
      var s := ChordDiff(prev, chord, velocity, chan, k);
      assert s == before + extra;
      forall i | 0 <= i < |s|
        ensures Justified(s[i], prev, chord, velocity, chan) && s[i].note.num < ChordBase.num + k
      {
        if i >= |before| {
          assert s[i] == extra[i - |before|];
        } else {
          assert s[i] == before[i];
        }
      }
      forall i, j | 0 <= i < j < |s|
        ensures s[i].note.num < s[j].note.num
      {
        if j < |before| {
          assert s[i] == before[i] && s[j] == before[j];
        } else {
          assert s[i] == before[i] && s[j] == extra[j - |before|];
        }
      }
    }
  }

  /** Every note the chord adds has its note-on in the diff and every note it
      drops its note-off. */
  lemma {:induction false} ChordDiffComplete(prev: Chord, chord: Chord, velocity: Note -> Byte, chan: int, k: nat)
    requires k <= 64
    ensures CompleteDiff(ChordDiff(prev, chord, velocity, chan, k), prev, chord, velocity, chan, ChordBase.num + k)
  {
    if k > 0 {
      ChordDiffComplete(prev, chord, velocity, chan, k - 1);
      var n := NoteAt(k - 1);
      var before := ChordDiff(prev, chord, velocity, chan, k - 1);
      var extra := NoteChange(prev, chord, velocity, chan, n);
      var s := ChordDiff(prev, chord, velocity, chan, k);
      assert s == before + extra;
      forall m | InChordRange(m) && m.num < ChordBase.num + k
        ensures Has(chord, m) && !Has(prev, m) ==> NoteOn(m, velocity(m), chan) in s
        ensures Has(prev, m) && !Has(chord, m) ==> NoteOff(m, 0, chan) in s
      {
        if m.num == ChordBase.num + k - 1 {
          assert m == n;
          if |extra| == 1 {
            assert s[|s| - 1] == extra[0];
          }
        } else {
          assert m.num < ChordBase.num + (k - 1);
        }
      }
    }
  }

  /** A message that is in the whole diff is justified. */
  lemma DiffMember(prev: Chord, chord: Chord, velocity: Note -> Byte, chan: int, msg: Message)
    requires msg in ChordDiff(prev, chord, velocity, chan, 64)
    ensures Justified(msg, prev, chord, velocity, chan)
  {
    ChordDiffSound(prev, chord, velocity, chan, 64);
    var s := ChordDiff(prev, chord, velocity, chan, 64);
    var i :| 0 <= i < |s| && s[i] == msg;
  }

  /** The whole diff: a note-on exactly for each note the chord adds and a
      note-off exactly for each it drops. */
  ghost predicate ExactDiff(s: seq<Message>, prev: Chord, chord: Chord, velocity: Note -> Byte, chan: int) {
    forall m :: InChordRange(m) ==>
      && (NoteOn(m, velocity(m), chan) in s <==> Has(chord, m) && !Has(prev, m))
      && (NoteOff(m, 0, chan) in s <==> Has(prev, m) && !Has(chord, m))
  }

  lemma ChordDiffExact(prev: Chord, chord: Chord, velocity: Note -> Byte, chan: int)
    ensures ExactDiff(ChordDiff(prev, chord, velocity, chan, 64), prev, chord, velocity, chan)
  {
    ChordDiffComplete(prev, chord, velocity, chan, 64);
    forall m | InChordRange(m)
      ensures NoteOn(m, velocity(m), chan) in ChordDiff(prev, chord, velocity, chan, 64) ==> Has(chord, m) && !Has(prev, m)
      ensures NoteOff(m, 0, chan) in ChordDiff(prev, chord, velocity, chan, 64) ==> Has(prev, m) && !Has(chord, m)
    {
      if NoteOn(m, velocity(m), chan) in ChordDiff(prev, chord, velocity, chan, 64) {
        DiffMember(prev, chord, velocity, chan, NoteOn(m, velocity(m), chan));
      }
      if NoteOff(m, 0, chan) in ChordDiff(prev, chord, velocity, chan, 64) {
        DiffMember(prev, chord, velocity, chan, NoteOff(m, 0, chan));
      }
    }
  }

  /** `sendChord`: walks the chord range from ChordBase up, sends a note-on
      for each note the new chord adds and a note-off for each it drops,
      remembers the new chord, and says whether anything was sent. */
  method SendChord(ch: Channel, chord: Chord, velocity: Note -> Byte)
    returns (sent: seq<Message>, changed: bool, after: Channel)
    ensures sent == ChordDiff(ch.prev, chord, velocity, ch.chan, 64)
    ensures forall m :: InChordRange(m) ==>
      (NoteOn(m, velocity(m), ch.chan) in sent <==> Has(chord, m) && !Has(ch.prev, m))
      && (NoteOff(m, 0, ch.chan) in sent <==> Has(ch.prev, m) && !Has(chord, m))
    ensures changed <==> |sent| > 0
    ensures after == ch.(prev := chord)
  {
    sent := [];
    changed := false;
    var n := ChordBase;
    ghost var k := 0;
    while n.num < ChordLimit.num
      invariant 0 <= k <= 64 && n == Note(ChordBase.num + k)
      invariant sent == ChordDiff(ch.prev, chord, velocity, ch.chan, k)
      invariant changed <==> |sent| > 0
      decreases 64 - k
    {
      assert n == NoteAt(k);
      assert ChordDiff(ch.prev, chord, velocity, ch.chan, k + 1) == sent + NoteChange(ch.prev, chord, velocity, ch.chan, n);
      if Has(chord, n) && !Has(ch.prev, n) {
        sent := sent + [NoteOn(n, velocity(n), ch.chan)];
        changed := true;
      } else if Has(ch.prev, n) && !Has(chord, n) {
        sent := sent + [NoteOff(n, 0, ch.chan)];
        changed := true;
      }
      n := Plus(n, 1);
      k := k + 1;
    }
    after := ch.(prev := chord);
    ChordDiffExact(ch.prev, chord, velocity, ch.chan);
  }

  /** Sending the chord the channel already holds sends nothing. */
  lemma {:induction false} ResendIsSilent(c: Chord, velocity: Note -> Byte, chan: int, k: nat)
    requires k <= 64
    ensures ChordDiff(c, c, velocity, chan, k) == []
  {
    if k > 0 {
      ResendIsSilent(c, velocity, chan, k - 1);
    }
  }

  /** `sendAllNotesOff`: controller 123 with value 0, after which the
      channel holds no notes. */
  function SendAllNotesOff(ch: Channel): (r: Sent<Channel>)
    ensures r.messages == [ControlChange(AllNotesOffController, 0, ch.chan)]
    ensures r.state.chan == ch.chan
    ensures forall m :: InChordRange(m) ==> !Has(r.state.prev, m)
  {
    Sent([ControlChange(AllNotesOffController, 0, ch.chan)], ch.(prev := Empty()))
  }

  /** After All Notes Off, the next chord is sent as note-ons for exactly
      its notes and no note-off. */
  lemma AllNotesOffThenChord(ch: Channel, chord: Chord, velocity: Note -> Byte)
    ensures var s := ChordDiff(SendAllNotesOff(ch).state.prev, chord, velocity, ch.chan, 64);
      && (forall i :: 0 <= i < |s| ==> s[i].NoteOn?)
      && (forall m :: InChordRange(m) ==> (NoteOn(m, velocity(m), ch.chan) in s <==> Has(chord, m)))
  {
    var prev := SendAllNotesOff(ch).state.prev;
    var s := ChordDiff(prev, chord, velocity, ch.chan, 64);
    ChordDiffSound(prev, chord, velocity, ch.chan, 64);
    ChordDiffComplete(prev, chord, velocity, ch.chan, 64);
    forall m | InChordRange(m) && NoteOn(m, velocity(m), ch.chan) in s
      ensures Has(chord, m)
    {
      DiffMember(prev, chord, velocity, ch.chan, NoteOn(m, velocity(m), ch.chan));
    }
  }

  // ---------------------------------------------------------------------------
  // 14-bit control changes

  /** The value last sent on a controller, if any. */
  function LastValue(msgs: seq<Message>, control: int): Option<int> {
    if msgs == [] then None
    else
      var msg := msgs[|msgs| - 1];
      if msg.ControlChange? && msg.control == control then Some(msg.value)
      else LastValue(msgs[..|msgs| - 1], control)
  }

  /** The 14-bit value a receiver reads for controller `control` (0 to 31)
      under the controller table of the MIDI 1.0 Detailed Specification:
      the most significant 7 bits from `control`, the least significant
      from `control + 32`. */
  function Received(msgs: seq<Message>, control: int): Option<int> {
    match (LastValue(msgs, control), LastValue(msgs, control + 32))
    case (Some(msb), Some(lsb)) => Some(msb * 128 + lsb)
    case _ => None
  }

  /** Both values of a two-message control change are 7-bit data bytes. */
  predicate DataBytes(msgs: seq<Message>) {
    forall i :: 0 <= i < |msgs| ==> msgs[i].ControlChange? && 0 <= msgs[i].value < 128
  }

  /** `sendControlChange` as written: the value is clamped and compared with
      the 8-bit `prevControlValue`; if it differs, the high 7 bits go out on
      `control + 32` and then the low 7 bits on `control`, and the value is
      stored truncated to 8 bits. */
  function SendControlChangeAsWritten(chan: int, prevControlValue: Byte, control: int, value: int): (r: Sent<Byte>)
    ensures var v := Clamp(value, MaxControlValue);
      && (r.messages == [] <==> v == prevControlValue)
      && (r.messages == [] ==> r.state == prevControlValue)
      && (r.messages != [] ==>
            && |r.messages| == 2 && DataBytes(r.messages)
            && r.messages[0].control == control + 32 && r.messages[1].control == control
            && r.messages[0].channel == chan && r.messages[1].channel == chan
            && r.messages[0].value * 128 + r.messages[1].value == v
            && r.state == CInt.ToUInt8(v))
  {
    var v := Clamp(value, MaxControlValue);
    if v == prevControlValue then Sent([], prevControlValue)
    else
      var lo := v % 128;
      var hi := v / 128;
      Sent([ControlChange(control + 32, hi, chan), ControlChange(control, lo, chan)], CInt.ToUInt8(v))
  }

  /** The value 128 is read back as 1: its high bits arrive where a receiver
      expects the low ones. */
  lemma HighBitsOnLowController()
    ensures var r := SendControlChangeAsWritten(1, InitialControlValue, 1, 128);
      r.messages != [] && Received(r.messages, 1) == Some(1)
  {
    var r := SendControlChangeAsWritten(1, InitialControlValue, 1, 128);
    assert r.messages == [ControlChange(33, 1, 1), ControlChange(1, 0, 1)];
    assert LastValue(r.messages, 1) == Some(0);
    assert r.messages[..1] == [ControlChange(33, 1, 1)];
    assert LastValue(r.messages, 33) == Some(1);
  }

  /** Sending 300 and then 44 sends nothing for 44: both are 44 modulo 256.
      And 255 is never sent as the first value. */
  lemma DedupAliasesModulo256()
    ensures var a := SendControlChangeAsWritten(1, InitialControlValue, 1, 300);
      a.messages != [] && SendControlChangeAsWritten(1, a.state, 1, 44).messages == []
    ensures SendControlChangeAsWritten(1, InitialControlValue, 1, 255).messages == []
  {
  }

  /** `sendControlChange` as its comment and the MIDI controller table
      intend: the most significant 7 bits on `control` first, the least
      significant on `control + 32`, deduplicated against the full value
      last sent (none before the first call). */
  function SendControlChange(chan: int, last: Option<int>, control: int, value: int): (r: Sent<Option<int>>)
    ensures var v := Clamp(value, MaxControlValue);
      && (r.messages == [] <==> last == Some(v))
      && r.state == Some(v)
      && (r.messages != [] ==>
            && |r.messages| == 2 && DataBytes(r.messages)
            && r.messages[0].control == control
            && r.messages[0].channel == chan && r.messages[1].channel == chan
            && Received(r.messages, control) == Some(v))
  {
    var v := Clamp(value, MaxControlValue);
    if last == Some(v) then Sent([], last)
    else
      var msgs := [ControlChange(control, v / 128, chan), ControlChange(control + 32, v % 128, chan)];
      assert LastValue(msgs, control + 32) == Some(v % 128);
      assert msgs[..1] == [ControlChange(control, v / 128, chan)];
      assert LastValue(msgs, control) == Some(v / 128);
      Sent(msgs, Some(v))
  }

  /** Every distinct value is sent, including the first, and a repeated
      value is not. */
  lemma ControlChangeDedup(chan: int, control: int, a: int, b: int)
    ensures SendControlChange(chan, None, control, a).messages != []
    ensures var first := SendControlChange(chan, None, control, a);
      var second := SendControlChange(chan, first.state, control, b);
      second.messages == [] <==> Clamp(a, MaxControlValue) == Clamp(b, MaxControlValue)
  {
  }
}
