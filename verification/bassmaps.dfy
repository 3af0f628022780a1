/** The key tables of the bass boards (include/bassmaps.h): which chord each
    of the 16 buttons of the lower and upper boards plays. A table entry is
    written as the constructor call the table header makes, so that the notes it
    uses can be checked against the chord range before the chord is built. */
module BassMaps {
  import opened Music

  /** The lowest note a bass button plays. */
  const BottomBass: Note := G1

  /** `bass(note)`: the note moved into the octave from G1 up, doubled one
      and two octaves higher. */
  function BassChord(n: Note): (r: Chord)
    ensures var b := ToOctaveRangeFrom(n, BottomBass).num;
      && BottomBass.num <= b < BottomBass.num + 12
      && b % 12 == n.num % 12
      && forall m :: InChordRange(m) ==> (Has(r, m) <==> m.num in {b, b + 12, b + 24})
  {
    assert BottomBass.num == 31;
    DoubleOctave(ToOctaveRangeFrom(n, BottomBass))
  }

  /** Every bass chord lists exactly three notes, from G1 up to below G4. */
  lemma BassChordHasThreeNotes(n: Note)
    ensures var b := ToOctaveRangeFrom(n, BottomBass);
      Notes(BassChord(n)) == [b, Plus(b, 12), Plus(b, 24)]
    ensures |Notes(BassChord(n))| == 3
    ensures forall i :: 0 <= i < 3 ==> 31 <= Notes(BassChord(n))[i].num < 67
  {
    assert BottomBass.num == 31;
    var b := ToOctaveRangeFrom(n, BottomBass);
    var s := [b, Plus(b, 12), Plus(b, 24)];
    NotesAre(BassChord(n), s);
  }

  datatype Quality = Major | Minor

  /** Which note of the triad is the named one: the lowest, the highest or
      the middle. */
  datatype Shape = Up | Down | Mid

  /** One table entry as include/bassmaps.h writes it. */
  datatype Key = NoChord | Triad(quality: Quality, shape: Shape, root: Note) | Bass(note: Note)

  /** The notes, as numbers, that an entry's constructor puts in the chord. */
  function KeyNotes(k: Key): set<int> {
    match k
    case NoChord => {}
    case Triad(Major, Up, r) => {r.num, r.num + 4, r.num + 7}
    case Triad(Major, Down, r) => {r.num - 8, r.num - 5, r.num}
    case Triad(Major, Mid, r) => {r.num - 5, r.num, r.num + 4}
    case Triad(Minor, Up, r) => {r.num, r.num + 3, r.num + 7}
    case Triad(Minor, Down, r) => {r.num - 9, r.num - 5, r.num}
    case Triad(Minor, Mid, r) => {r.num - 5, r.num, r.num + 3}
    case Bass(n) =>
      var b := ToOctaveRangeFrom(n, BottomBass).num;
      {b, b + 12, b + 24}
  }

  /** Every note the entry uses has a bit in the chord word. */
  predicate Playable(k: Key) {
    forall x :: x in KeyNotes(k) ==> ChordBase.num <= x < ChordLimit.num
  }

  /** A bass entry is playable whatever its note. */
  lemma BassIsPlayable(n: Note)
    ensures Playable(Bass(n))
  {
    assert BottomBass.num == 31;
  }

  /** The chord a major triad entry builds. */
  function MajorChord(s: Shape, root: Note): (r: Chord)
    requires Playable(Triad(Major, s, root))
    ensures forall m :: InChordRange(m) ==> (Has(r, m) <==> m.num in KeyNotes(Triad(Major, s, root)))
  {
    match s
    case Up => MajorUpEntry(root)
    case Down => MajorDownEntry(root)
    case Mid => MajorMidEntry(root)
  }

  /** The chord a minor triad entry builds. */
  function MinorChord(s: Shape, root: Note): (r: Chord)
    requires Playable(Triad(Minor, s, root))
    ensures forall m :: InChordRange(m) ==> (Has(r, m) <==> m.num in KeyNotes(Triad(Minor, s, root)))
  {
    match s
    case Up => MinorUpEntry(root)
    case Down => MinorDownEntry(root)
    case Mid => MinorMidEntry(root)
  }

  /** The major triad entry with the named note the lowest. */
  function MajorUpEntry(root: Note): (r: Chord)
    requires Playable(Triad(Major, Up, root))
    ensures forall m :: InChordRange(m) ==> (Has(r, m) <==> m.num in KeyNotes(Triad(Major, Up, root)))
  {
    assert root.num in KeyNotes(Triad(Major, Up, root)) && root.num + 7 in KeyNotes(Triad(Major, Up, root));
    MajorUp(root)
  }

  /** The major triad entry with the named note the highest. */
  function MajorDownEntry(root: Note): (r: Chord)
    requires Playable(Triad(Major, Down, root))
    ensures forall m :: InChordRange(m) ==> (Has(r, m) <==> m.num in KeyNotes(Triad(Major, Down, root)))
  {
    assert root.num - 8 in KeyNotes(Triad(Major, Down, root)) && root.num in KeyNotes(Triad(Major, Down, root));
    MajorDown(root)
  }

  /** The major triad entry with the named note the middle. */
  function MajorMidEntry(root: Note): (r: Chord)
    requires Playable(Triad(Major, Mid, root))
    ensures forall m :: InChordRange(m) ==> (Has(r, m) <==> m.num in KeyNotes(Triad(Major, Mid, root)))
  {
    assert root.num - 5 in KeyNotes(Triad(Major, Mid, root)) && root.num + 4 in KeyNotes(Triad(Major, Mid, root));
    MajorMid(root)
  }

  /** The minor triad entry with the named note the lowest. */
  function MinorUpEntry(root: Note): (r: Chord)
    requires Playable(Triad(Minor, Up, root))
    ensures forall m :: InChordRange(m) ==> (Has(r, m) <==> m.num in KeyNotes(Triad(Minor, Up, root)))
  {
    assert root.num in KeyNotes(Triad(Minor, Up, root)) && root.num + 7 in KeyNotes(Triad(Minor, Up, root));
    MinorUp(root)
  }

  /** The minor triad entry with the named note the highest. */
  function MinorDownEntry(root: Note): (r: Chord)
    requires Playable(Triad(Minor, Down, root))
    ensures forall m :: InChordRange(m) ==> (Has(r, m) <==> m.num in KeyNotes(Triad(Minor, Down, root)))
  {
    assert root.num - 9 in KeyNotes(Triad(Minor, Down, root)) && root.num in KeyNotes(Triad(Minor, Down, root));
    MinorDown(root)
  }

  /** The minor triad entry with the named note the middle. */
  function MinorMidEntry(root: Note): (r: Chord)
    requires Playable(Triad(Minor, Mid, root))
    ensures forall m :: InChordRange(m) ==> (Has(r, m) <==> m.num in KeyNotes(Triad(Minor, Mid, root)))
  {
    assert root.num - 5 in KeyNotes(Triad(Minor, Mid, root)) && root.num + 3 in KeyNotes(Triad(Minor, Mid, root));
    MinorMid(root)
  }

  /** The chord an entry builds: exactly the notes it uses. */
  function KeyChord(k: Key): (r: Chord)
    requires Playable(k)
    ensures forall m :: InChordRange(m) ==> (Has(r, m) <==> m.num in KeyNotes(k))
  {
    match k
    case NoChord => Empty()
    case Triad(Major, s, root) => MajorChord(s, root)
    case Triad(Minor, s, root) => MinorChord(s, root)
    case Bass(n) => BassChord(n)
  }

  /** Buttons per board, `buttonCount` of the board driver. */
  const ButtonCount: nat := 16

  /** Eight entries with no chord. */
  const Silent: seq<Key> := [NoChord, NoChord, NoChord, NoChord, NoChord, NoChord, NoChord, NoChord]

  /** The major triads of the lower board's second half. */
  const MajorRow: seq<Key> := [
    Triad(Major, Up, E3), Triad(Major, Down, A3), Triad(Major, Up, D3), Triad(Major, Mid, G3),
    Triad(Major, Up, C3), Triad(Major, Mid, F3), Triad(Major, Down, Minus(B3, 1)), Triad(Major, Up, Minus(E3, 1))]

  /** The minor triads of the upper board's first half. */
  const MinorRow: seq<Key> := [
    Triad(Minor, Up, E3), Triad(Minor, Down, A3), Triad(Minor, Up, D3), Triad(Minor, Mid, G3),
    Triad(Minor, Up, C3), Triad(Minor, Mid, F3), Triad(Minor, Down, Minus(B3, 1)), Triad(Minor, Up, Minus(E3, 1))]

  const LowerChordKeys: seq<Key> := Silent + MajorRow

  const LowerBassKeys: seq<Key> := [
    Bass(G2), Bass(D2), Bass(A2), Bass(E2),
    Bass(B2), Bass(Plus(F2, 1)), Bass(Plus(C2, 1)), Bass(Plus(G2, 1))] + Silent

  const UpperChordKeys: seq<Key> := MinorRow + Silent

  const UpperBassKeys: seq<Key> := Silent + [
    Bass(Minus(E2, 1)), Bass(Minus(B2, 1)), Bass(F2), Bass(C2),
    Bass(G2), Bass(D2), Bass(A2), Bass(E2)]

  /** A table of 16 entries whose every note lies in the chord range. */
  predicate WellFormed(keys: seq<Key>) {
    |keys| == ButtonCount && forall i :: 0 <= i < |keys| ==> Playable(keys[i])
  }

  /** Every triad root of the two chord rows, with the note values the
      constants stand for. */
  lemma TriadRoots()
    ensures E3.num == 52 && A3.num == 57 && D3.num == 50 && G3.num == 55
    ensures C3.num == 48 && F3.num == 53 && Minus(B3, 1).num == 58 && Minus(E3, 1).num == 51
  {
  }

  lemma MajorRowPlayable()
    ensures forall i :: 0 <= i < |MajorRow| ==> Playable(MajorRow[i])
  {
    TriadRoots();
    assert ChordBase.num == 24 && ChordLimit.num == 88;
  }

  lemma MinorRowPlayable()
    ensures forall i :: 0 <= i < |MinorRow| ==> Playable(MinorRow[i])
  {
    TriadRoots();
    assert ChordBase.num == 24 && ChordLimit.num == 88;
  }

  lemma SilentPlayable()
    ensures forall i :: 0 <= i < |Silent| ==> Playable(Silent[i])
  {
  }

  /** A table made of a silent half and a playable half is well formed. */
  lemma HalvesWellFormed(a: seq<Key>, b: seq<Key>)
    requires |a| == 8 && |b| == 8
    requires forall i :: 0 <= i < 8 ==> Playable(a[i]) && Playable(b[i])
    ensures WellFormed(a + b)
  {
  }

  /** No entry of any table shifts outside the 64-bit word. */
  lemma TablesAreWellFormed()
    ensures WellFormed(LowerChordKeys) && WellFormed(LowerBassKeys)
    ensures WellFormed(UpperChordKeys) && WellFormed(UpperBassKeys)
  {
    MajorRowPlayable();
    MinorRowPlayable();
    SilentPlayable();
    var lowerBass := LowerBassKeys[..8];
    var upperBass := UpperBassKeys[8..];
    forall i | 0 <= i < 8
      ensures Playable(lowerBass[i]) && Playable(upperBass[i])
    {
      BassIsPlayable(lowerBass[i].note);
      BassIsPlayable(upperBass[i].note);
    }
    HalvesWellFormed(Silent, MajorRow);
    HalvesWellFormed(MinorRow, Silent);
    assert LowerBassKeys == lowerBass + Silent;
    HalvesWellFormed(lowerBass, Silent);
    assert UpperBassKeys == Silent + upperBass;
    HalvesWellFormed(Silent, upperBass);
  }

  /** The chords a table plays, one per button. */
  function KeyMap(keys: seq<Key>): (r: seq<Chord>)
    requires WellFormed(keys)
    ensures |r| == ButtonCount
    ensures forall i, m :: 0 <= i < ButtonCount && InChordRange(m) ==> (Has(r[i], m) <==> m.num in KeyNotes(keys[i]))
  {
    seq(ButtonCount, i requires 0 <= i < ButtonCount => KeyChord(keys[i]))
  }

  /** The lower board plays chords on its second half and basses on its
      first; the upper board the other way round. The halves left silent
      play nothing. */
  lemma SilentHalves()
    ensures forall i :: 0 <= i < 8 ==> LowerChordKeys[i] == NoChord && UpperBassKeys[i] == NoChord
    ensures forall i :: 8 <= i < 16 ==> LowerBassKeys[i] == NoChord && UpperChordKeys[i] == NoChord
    ensures forall i :: 8 <= i < 16 ==> LowerChordKeys[i].Triad? && UpperBassKeys[i].Bass?
    ensures forall i :: 0 <= i < 8 ==> LowerBassKeys[i].Bass? && UpperChordKeys[i].Triad?
    ensures KeyNotes(NoChord) == {}
  {
  }

  /** The upper chord row repeats the lower one's roots and shapes in the
      minor. */
  lemma ChordRowsMirror()
    ensures forall i :: 0 <= i < 8 ==>
      && LowerChordKeys[8 + i].Triad? && LowerChordKeys[8 + i].quality == Major
      && UpperChordKeys[i] == LowerChordKeys[8 + i].(quality := Minor)
  {
  }
}
