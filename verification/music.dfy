/** Basic music theory on MIDI note numbers (include/music.h): notes held in
    an unsigned char with wrapping arithmetic, note names in scientific pitch
    notation (middle C is C4), and chords as 64-bit sets of notes starting
    at C1. Printing builds the text that would be sent to the output. */
module Music {
  import opened CInt

  /** An unsigned char. */
  type Byte = x: int | 0 <= x < 256

  /** A MIDI note number. */
  datatype Note = Note(num: Byte)

  // ---------------------------------------------------------------------------
  // Note arithmetic

  /** `n + offset`: the sum is stored back into an unsigned char. */
  function Plus(n: Note, offset: Byte): (r: Note)
    ensures n.num + offset < 256 ==> r.num == n.num + offset
    ensures n.num + offset >= 256 ==> r.num == n.num + offset - 256
  {
    Note(ToUInt8(n.num + offset))
  }

  /** `n - offset`, wrapping below zero. */
  function Minus(n: Note, offset: Byte): (r: Note)
    ensures offset <= n.num ==> r.num == n.num - offset
    ensures offset > n.num ==> r.num == n.num - offset + 256
  {
    Note(ToUInt8(n.num - offset))
  }

  /** `n - other`: the distance as a signed char. Adding it back (as the
      unsigned char it converts to) leads from `other` to `n`. */
  function Diff(n: Note, other: Note): (d: int)
    ensures -128 <= d < 128
    ensures -128 <= n.num - other.num < 128 ==> d == n.num - other.num
    ensures Plus(other, ToUInt8(d)) == n
  {
    ToInt8(n.num - other.num)
  }

  /** Subtracting undoes adding and vice versa, wrap-around included. */
  lemma MinusUndoesPlus(n: Note, k: Byte)
    ensures Minus(Plus(n, k), k) == n
    ensures Plus(Minus(n, k), k) == n
  {
  }

  /** The signed distance recovers any offset below 128. */
  lemma DiffOfPlus(n: Note, k: Byte)
    requires k < 128
    ensures Diff(Plus(n, k), n) == k
    ensures Diff(n, Plus(n, k)) == -(k as int)
  {
  }

  // ---------------------------------------------------------------------------
  // Names and octaves

  const Names: seq<string> := ["C", "C#", "D", "D#", "E", "F", "F#", "G", "G#", "A", "A#", "B"]

  /** The name of the note's pitch class, `num % 12`: a letter, followed by
      a sharp exactly for the black keys. */
  function Name(n: Note): (s: string)
    ensures 1 <= |s| <= 2 && 'A' <= s[0] <= 'G'
    ensures |s| == 2 <==> n.num % 12 in {1, 3, 6, 8, 10}
    ensures |s| == 2 ==> s[1] == '#'
  {
    Names[n.num % 12]
  }

  /** The octave number, which increments at each C: octave `k` holds the
      twelve notes from 12(k+1) on. */
  function Octave(n: Note): (k: int)
    ensures -1 <= k <= 20
    ensures 12 * (k + 1) <= n.num < 12 * (k + 2)
  {
    n.num / 12 - 1
  }

  /** The name and the octave spell each note in exactly one way. */
  lemma NameAndOctaveIdentifyNote(a: Note, b: Note)
    requires Name(a) == Name(b) && Octave(a) == Octave(b)
    ensures a == b
  {
    var i, j := a.num % 12, b.num % 12;
    assert Names[i] == Names[j];
    assert i == j by {
      forall p, q | 0 <= p < 12 && 0 <= q < 12 && p != q
        ensures Names[p] != Names[q]
      {
        assert Names[p] != Names[q];
      }
    }
  }

  /** Twelve semitones up is the same name one octave higher. */
  lemma OctaveUp(n: Note)
    requires n.num + 12 < 256
    ensures Name(Plus(n, 12)) == Name(n)
    ensures Octave(Plus(n, 12)) == Octave(n) + 1
  {
    var m := n.num + 12;
    assert Plus(n, 12).num == m;
    assert m % 12 == n.num % 12 && m / 12 == n.num / 12 + 1;
  }

  /** `toOctaveRangeFrom(base)`: the note with the same pitch class in the
      twelve semitones from `base` up. The remainder is taken with C's `%`
      and turned into an unsigned char, so the promise holds for bases up to
      144 (every MIDI note among them); above, the arithmetic wraps. */
  function ToOctaveRangeFrom(n: Note, base: Note): (r: Note)
    ensures base.num <= 144 ==> base.num <= r.num < base.num + 12
    ensures base.num <= 144 ==> r.num % 12 == n.num % 12
  {
    var remainder := Mod((n.num + 144) - base.num, 12);
    Plus(base, ToUInt8(remainder))
  }

  /** There is only one such note, so a note already in range is kept and
      moving twice is moving once. */
  lemma OctaveRangeIsUnique(n: Note, base: Note, m: Note)
    requires base.num <= 144
    requires base.num <= m.num < base.num + 12 && m.num % 12 == n.num % 12
    ensures ToOctaveRangeFrom(n, base) == m
    ensures ToOctaveRangeFrom(m, base) == m
  {
    var r := ToOctaveRangeFrom(n, base);
    assert (r.num - m.num) % 12 == 0;
  }

  // ---------------------------------------------------------------------------
  // Note constants

  const MiddleC: Note := Note(60)
  const C4: Note := MiddleC

  const C1: Note := Note(24)
  const D1: Note := Note(26)
  const E1: Note := Note(28)
  const F1: Note := Note(29)
  const G1: Note := Note(31)
  const A1: Note := Note(33)
  const B1: Note := Note(35)

  const C2: Note := Note(36)
  const D2: Note := Note(38)
  const E2: Note := Note(40)
  const F2: Note := Note(41)
  const G2: Note := Note(43)
  const A2: Note := Note(45)
  const B2: Note := Note(47)

  const C3: Note := Note(48)
  const D3: Note := Note(50)
  const E3: Note := Note(52)
  const F3: Note := Note(53)
  const G3: Note := Note(55)
  const A3: Note := Note(57)
  const B3: Note := Note(59)

  /** Each constant is the one the header derives from its neighbour:
      C1 three octaves below middle C, the naturals a whole or half step
      apart, each C an octave above the last. */
  lemma ConstantsFollowDerivation()
    ensures C1 == Minus(MiddleC, 12 * 3)
    ensures D1 == Plus(C1, 2)
    ensures E1 == Plus(D1, 2)
    ensures F1 == Plus(E1, 1)
    ensures G1 == Plus(F1, 2)
    ensures A1 == Plus(G1, 2)
    ensures B1 == Plus(A1, 2)
    ensures C2 == Plus(C1, 12)
    ensures D2 == Plus(C2, 2)
    ensures E2 == Plus(D2, 2)
    ensures F2 == Plus(E2, 1)
    ensures G2 == Plus(F2, 2)
    ensures A2 == Plus(G2, 2)
    ensures B2 == Plus(A2, 2)
    ensures C3 == Plus(C2, 12)
    ensures D3 == Plus(C3, 2)
    ensures E3 == Plus(D3, 2)
    ensures F3 == Plus(E3, 1)
    ensures G3 == Plus(F3, 2)
    ensures A3 == Plus(G3, 2)
    ensures B3 == Plus(A3, 2)
    ensures ChordLimit == Plus(ChordBase, 64)
  {
  }

  /** The constants follow scientific pitch notation: middle C is C4 = 60,
      and each constant carries its own name and octave. */
  lemma ConstantsAreSpelled()
    ensures Name(MiddleC) == "C" && Octave(MiddleC) == 4
    ensures C1.num == 24 && C2.num == 36 && C3.num == 48
    ensures Name(C1) == "C" && Name(D1) == "D" && Name(E1) == "E" && Name(F1) == "F"
    ensures Name(G1) == "G" && Name(A1) == "A" && Name(B1) == "B"
    ensures Name(C2) == "C" && Name(D2) == "D" && Name(E2) == "E" && Name(F2) == "F"
    ensures Name(G2) == "G" && Name(A2) == "A" && Name(B2) == "B"
    ensures Name(C3) == "C" && Name(D3) == "D" && Name(E3) == "E" && Name(F3) == "F"
    ensures Name(G3) == "G" && Name(A3) == "A" && Name(B3) == "B"
    ensures Octave(C1) == 1 && Octave(B1) == 1 && Octave(C2) == 2 && Octave(B2) == 2
    ensures Octave(C3) == 3 && Octave(B3) == 3
  {
  }

  // ---------------------------------------------------------------------------
  // Chords

  /** 64 bits cover the notes from C1 up to but not including C1 + 64. */
  const ChordBase: Note := C1
  const ChordLimit: Note := Note(88)

  predicate InChordRange(n: Note) {
    ChordBase.num <= n.num < ChordLimit.num
  }

  /** The 64 bits of a uint64, lowest first. */
  type Word = w: seq<bool> | |w| == 64 witness seq(64, _ => false)

  /** The word with no bit set. */
  function Zero(): (w: Word)
    ensures forall i :: 0 <= i < 64 ==> !w[i]
  {
    seq(64, _ => false)
  }

  /** `1 << k`. */
  function Bit(k: nat): (w: Word)
    requires k < 64
    ensures forall i :: 0 <= i < 64 ==> (w[i] <==> i == k)
  {
    seq(64, i => i == k)
  }

  /** Bitwise or. */
  function Or(a: Word, b: Word): (w: Word)
    ensures forall i :: 0 <= i < 64 ==> (w[i] <==> a[i] || b[i])
  {
    seq(64, i requires 0 <= i < 64 => a[i] || b[i])
  }

  /** Bitwise and. */
  function And(a: Word, b: Word): (w: Word)
    ensures forall i :: 0 <= i < 64 ==> (w[i] <==> a[i] && b[i])
  {
    seq(64, i requires 0 <= i < 64 => a[i] && b[i])
  }

  /** `w != 0`. */
  predicate NonZero(w: Word) {
    exists i :: 0 <= i < 64 && w[i]
  }

  /** A set of notes, bit `k` standing for ChordBase + k. */
  datatype Chord = Chord(bits: Word)

  /** `toBit(n)`: the shift is `n - ChordBase`, defined only within range. */
  function ToBit(n: Note): (b: Word)
    requires InChordRange(n)
    ensures forall i :: 0 <= i < 64 ==> (b[i] <==> i == n.num - ChordBase.num)
  {
    Bit(Diff(n, ChordBase))
  }

  /** Whether the chord's bit for a note in range is set. */
  predicate Has(c: Chord, n: Note)
    requires InChordRange(n)
  {
    c.bits[n.num - ChordBase.num]
  }

  /** `has(n)` masks the chord with `toBit(n)` and tests for non-zero, which
      is the same as testing the note's bit. */
  lemma HasMasksOneBit(c: Chord, n: Note)
    requires InChordRange(n)
    ensures Has(c, n) <==> NonZero(And(ToBit(n), c.bits))
  {
    var k := n.num - ChordBase.num;
    assert And(ToBit(n), c.bits)[k] <==> c.bits[k];
  }

  /** `Chord()`. */
  function Empty(): (r: Chord)
    ensures forall m :: InChordRange(m) ==> !Has(r, m)
  {
    Chord(Zero())
  }

  /** The chord of the notes whose bits are in `b1 | b2 | b3`. */
  function Of3(n1: Note, n2: Note, n3: Note): (r: Chord)
    requires InChordRange(n1) && InChordRange(n2) && InChordRange(n3)
    ensures forall m :: InChordRange(m) ==> (Has(r, m) <==> m == n1 || m == n2 || m == n3)
  {
    Chord(Or(Or(ToBit(n1), ToBit(n2)), ToBit(n3)))
  }

  /** `Chord(n)`. */
  function Single(n: Note): (r: Chord)
    requires InChordRange(n)
    ensures forall m :: InChordRange(m) ==> (Has(r, m) <==> m == n)
  {
    Chord(ToBit(n))
  }

  /** `Chord(n1, n2)`. */
  function Pair(n1: Note, n2: Note): (r: Chord)
    requires InChordRange(n1) && InChordRange(n2)
    ensures forall m :: InChordRange(m) ==> (Has(r, m) <==> m == n1 || m == n2)
  {
    Of3(n1, n2, n2)
  }

  /** `Chord(n1, n2, n3)`. */
  function Triple(n1: Note, n2: Note, n3: Note): (r: Chord)
    requires InChordRange(n1) && InChordRange(n2) && InChordRange(n3)
    ensures forall m :: InChordRange(m) ==> (Has(r, m) <==> m == n1 || m == n2 || m == n3)
  {
    Of3(n1, n2, n3)
  }

  /** `doubleOctave(n)`: n and the same note one and two octaves up. */
  function DoubleOctave(n: Note): (r: Chord)
    requires ChordBase.num <= n.num && n.num + 24 < ChordLimit.num
    ensures forall m :: InChordRange(m) ==> (Has(r, m) <==> m.num in {n.num, n.num + 12, n.num + 24})
  {
    Of3(n, Plus(n, 12), Plus(n, 24))
  }

  /** The major triad with `n` as its lowest note. */
  function MajorUp(n: Note): (r: Chord)
    requires ChordBase.num <= n.num && n.num + 7 < ChordLimit.num
    ensures forall m :: InChordRange(m) ==> (Has(r, m) <==> m.num in {n.num, n.num + 4, n.num + 7})
  {
    Of3(n, Plus(n, 4), Plus(n, 7))
  }

  /** The major triad with `n` as its highest note (its second inversion). */
  function MajorDown(n: Note): (r: Chord)
    requires ChordBase.num <= n.num - 8 && n.num < ChordLimit.num
    ensures forall m :: InChordRange(m) ==> (Has(r, m) <==> m.num in {n.num - 8, n.num - 5, n.num})
  {
    Of3(n, Minus(n, 8), Minus(n, 5))
  }

  /** The major triad with `n` in the middle (its first inversion). */
  function MajorMid(n: Note): (r: Chord)
    requires ChordBase.num <= n.num - 5 && n.num + 4 < ChordLimit.num
    ensures forall m :: InChordRange(m) ==> (Has(r, m) <==> m.num in {n.num - 5, n.num, n.num + 4})
  {
    Of3(n, Plus(n, 4), Minus(n, 5))
  }

  /** The minor triad with `n` as its lowest note. */
  function MinorUp(n: Note): (r: Chord)
    requires ChordBase.num <= n.num && n.num + 7 < ChordLimit.num
    ensures forall m :: InChordRange(m) ==> (Has(r, m) <==> m.num in {n.num, n.num + 3, n.num + 7})
  {
    Of3(n, Plus(n, 3), Plus(n, 7))
  }

  /** The minor triad with `n` as its highest note. */
  function MinorDown(n: Note): (r: Chord)
    requires ChordBase.num <= n.num - 9 && n.num < ChordLimit.num
    ensures forall m :: InChordRange(m) ==> (Has(r, m) <==> m.num in {n.num - 9, n.num - 5, n.num})
  {
    Of3(n, Minus(n, 9), Minus(n, 5))
  }

  /** The minor triad with `n` in the middle. */
  function MinorMid(n: Note): (r: Chord)
    requires ChordBase.num <= n.num - 5 && n.num + 3 < ChordLimit.num
    ensures forall m :: InChordRange(m) ==> (Has(r, m) <==> m.num in {n.num - 5, n.num, n.num + 3})
  {
    Of3(n, Plus(n, 3), Minus(n, 5))
  }

  /** `a + b`: the notes of both chords. */
  function Union(a: Chord, b: Chord): (r: Chord)
    ensures forall m :: InChordRange(m) ==> (Has(r, m) <==> Has(a, m) || Has(b, m))
  {
    Chord(Or(a.bits, b.bits))
  }

  /** Union is commutative, associative and idempotent, with the empty chord
      as its identity. */
  lemma UnionLaws(a: Chord, b: Chord, c: Chord)
    ensures Union(a, b) == Union(b, a)
    ensures Union(Union(a, b), c) == Union(a, Union(b, c))
    ensures Union(a, a) == a
    ensures Union(a, Empty()) == a && Union(Empty(), a) == a
  {
  }

  // ---------------------------------------------------------------------------
  // Listing, counting and printing

  /** The `k`-th note of the chord range. */
  function NoteAt(k: nat): (n: Note)
    requires k < 64
    ensures InChordRange(n) && n.num == ChordBase.num + k
  {
    Note(ChordBase.num + k)
  }

  /** Notes strictly ascending. */
  predicate Ascending(s: seq<Note>) {
    forall i, j :: 0 <= i < j < |s| ==> s[i].num < s[j].num
  }

  /** The notes of the chord among the first `k` of the range, ascending. */
  function NotesBelow(c: Chord, k: nat): seq<Note>
    requires k <= 64
  {
    if k == 0 then [] else NotesBelow(c, k - 1) + (if Has(c, NoteAt(k - 1)) then [NoteAt(k - 1)] else [])
  }

  /** `s` lists exactly the chord's notes among the first `k` of the range,
      in ascending order. */
  ghost predicate ListsBelow(c: Chord, s: seq<Note>, k: int) {
    && Ascending(s)
    && (forall i :: 0 <= i < |s| ==> InChordRange(s[i]) && s[i].num < ChordBase.num + k && Has(c, s[i]))
    && (forall m :: InChordRange(m) && m.num < ChordBase.num + k && Has(c, m) ==> m in s)
  }

  /** The notes listed lie below the `k`-th and belong to the chord. */
  lemma {:induction false} NotesBelowSound(c: Chord, k: nat)
    requires k <= 64
    ensures forall i :: 0 <= i < |NotesBelow(c, k)| ==>
      InChordRange(NotesBelow(c, k)[i]) && NotesBelow(c, k)[i].num < ChordBase.num + k && Has(c, NotesBelow(c, k)[i])
  {
    if k > 0 {
      NotesBelowSound(c, k - 1);
      var prefix := NotesBelow(c, k - 1);
      var s := NotesBelow(c, k);
      forall i | 0 <= i < |s|
        ensures InChordRange(s[i]) && s[i].num < ChordBase.num + k && Has(c, s[i])
      {
        if i < |prefix| {
          assert s[i] == prefix[i];
        }
      }
    }
  }

  /** The notes are listed in ascending order. */
  lemma {:induction false} NotesBelowAscending(c: Chord, k: nat)
    requires k <= 64
    ensures Ascending(NotesBelow(c, k))
  {
    if k > 0 {
      NotesBelowAscending(c, k - 1);
      NotesBelowSound(c, k - 1);
      var n := NoteAt(k - 1);
      var prefix := NotesBelow(c, k - 1);
      var s := NotesBelow(c, k);
      if Has(c, n) {
        assert s == prefix + [n];
        forall i, j | 0 <= i < j < |s|
          ensures s[i].num < s[j].num
        {
          assert s[i] == prefix[i];
          if j < |prefix| {
            assert s[j] == prefix[j];
          }
        }
      } else {
        assert s == prefix;
      }
    }
  }

  /** Every note of the chord below the `k`-th is listed. */
  lemma {:induction false} NotesBelowComplete(c: Chord, k: nat, m: Note)
    requires k <= 64
    requires InChordRange(m) && m.num < ChordBase.num + k && Has(c, m)
    ensures m in NotesBelow(c, k)
  {
    var n := NoteAt(k - 1);
    var prefix := NotesBelow(c, k - 1);
    var s := NotesBelow(c, k);
    assert s == prefix + (if Has(c, n) then [n] else []);
    if m != n {
      NotesBelowComplete(c, k - 1, m);
      assert m in prefix;
    } else {
      assert s[|s| - 1] == n;
    }
  }

  /** The list holds exactly the chord's notes among the first `k`, in
      ascending order. */
  lemma NotesBelowListsChord(c: Chord, k: nat)
    requires k <= 64
    ensures ListsBelow(c, NotesBelow(c, k), k)
  {
    NotesBelowSound(c, k);
    NotesBelowAscending(c, k);
    forall m | InChordRange(m) && m.num < ChordBase.num + k && Has(c, m)
      ensures m in NotesBelow(c, k)
    {
      NotesBelowComplete(c, k, m);
    }
  }

  /** Every note of the chord, ascending. */
  function Notes(c: Chord): seq<Note> {
    NotesBelow(c, 64)
  }

  /** The number of set bits among the lowest `k`. */
  function PopCount(b: Word, k: nat): nat
    requires k <= 64
  {
    if k == 0 then 0 else PopCount(b, k - 1) + (if b[k - 1] then 1 else 0)
  }

  lemma {:induction false} NotesCountBits(c: Chord, k: nat)
    requires k <= 64
    ensures |NotesBelow(c, k)| == PopCount(c.bits, k)
  {
    if k > 0 {
      NotesCountBits(c, k - 1);
      var n := NoteAt(k - 1);
      var extra := if Has(c, n) then [n] else [];
      assert NotesBelow(c, k) == NotesBelow(c, k - 1) + extra;
      assert |extra| == (if c.bits[k - 1] then 1 else 0);
    }
  }

  /** `countNotes`: walks the range as music.h does and counts the
      notes the chord holds, which is the number of set bits. */
  method CountNotes(c: Chord) returns (notes: int)
    ensures notes == |Notes(c)|
    ensures notes == PopCount(c.bits, 64)
  {
    notes := 0;
    var n := ChordBase;
    while n.num < ChordLimit.num
      invariant ChordBase.num <= n.num <= ChordLimit.num
      invariant notes == |NotesBelow(c, n.num - ChordBase.num)|
      decreases ChordLimit.num - n.num
    {
      if Has(c, n) {
        notes := notes + 1;
      }
      n := Plus(n, 1);
    }
    NotesCountBits(c, 64);
  }

  /** Two ascending lists with the same elements are the same list, so a
      chord's note list is fixed by which notes it has. */
  lemma {:induction false} AscendingEqual(s: seq<Note>, t: seq<Note>)
    requires Ascending(s) && Ascending(t)
    requires forall x :: x in s <==> x in t
    ensures s == t
    decreases |s|
  {
    assert |t| > 0 ==> t[0] in t;
    if |s| > 0 {
      assert s[0] in t && t[0] in s;
      assert |t| > 0;
      assert s[0] == t[0];
      forall x
        ensures x in s[1..] <==> x in t[1..]
      {
        if x in s[1..] {
          var i :| 1 <= i < |s| && s[i] == x;
          assert x in s;
          var j :| 0 <= j < |t| && t[j] == x;
          assert j != 0;
          assert t[1..][j - 1] == x;
        }
        if x in t[1..] {
          var j :| 1 <= j < |t| && t[j] == x;
          assert x in t;
          var i :| 0 <= i < |s| && s[i] == x;
          assert i != 0;
          assert s[1..][i - 1] == x;
        }
      }
      AscendingEqual(s[1..], t[1..]);
      assert s == [s[0]] + s[1..];
      assert t == [t[0]] + t[1..];
    }
  }

  /** A chord's list is the ascending list of exactly its notes. */
  lemma NotesAre(c: Chord, s: seq<Note>)
    requires Ascending(s)
    requires forall i :: 0 <= i < |s| ==> InChordRange(s[i])
    requires forall m :: InChordRange(m) ==> (Has(c, m) <==> m in s)
    ensures Notes(c) == s
  {
    NotesBelowListsChord(c, 64);
    forall x
      ensures x in Notes(c) <==> x in s
    {
    }
    AscendingEqual(Notes(c), s);
  }

  /** The decimal form of an int, as `print(int)` writes it. */
  function IntToString(i: int): (s: string)
    ensures |s| >= 1
    ensures i < 0 <==> s[0] == '-'
  {
    if i < 0 then "-" + NatToString(-i) else NatToString(i)
  }

  function NatToString(n: nat): (s: string)
    ensures |s| >= 1
    ensures forall k :: 0 <= k < |s| ==> '0' <= s[k] <= '9'
    decreases n
  {
    if n < 10 then [Digit(n)] else NatToString(n / 10) + [Digit(n % 10)]
  }

  function Digit(d: nat): (c: char)
    requires d < 10
    ensures '0' <= c <= '9' && (c - '0') as nat == d
  {
    ('0' as int + d) as char
  }

  /** The value of a string of decimal digits. */
  function DigitsValue(s: string): nat
    requires forall k :: 0 <= k < |s| ==> '0' <= s[k] <= '9'
  {
    if |s| == 0 then 0 else 10 * DigitsValue(s[..|s| - 1]) + (s[|s| - 1] - '0') as nat
  }

  /** Reading the printed digits back gives the number. */
  lemma {:induction false} NatToStringRoundTrip(n: nat)
    ensures DigitsValue(NatToString(n)) == n
    decreases n
  {
    var s := NatToString(n);
    if n >= 10 {
      var d := Digit(n % 10);
      NatToStringRoundTrip(n / 10);
      assert s == NatToString(n / 10) + [d];
      assert s[..|s| - 1] == NatToString(n / 10) && s[|s| - 1] == d;
    } else {
      assert s == [Digit(n)];
    }
  }

  /** What `printTo` writes for one note: its name, then its octave. */
  function Label(n: Note): string {
    Name(n) + IntToString(Octave(n))
  }

  function Labels(s: seq<Note>): (r: seq<string>)
    ensures |r| == |s|
  {
    if |s| == 0 then [] else Labels(s[..|s| - 1]) + [Label(s[|s| - 1])]
  }

  /** The parts separated by ", ". */
  function Join(parts: seq<string>): string {
    if |parts| == 0 then ""
    else if |parts| == 1 then parts[0]
    else Join(parts[..|parts| - 1]) + ", " + parts[|parts| - 1]
  }

  /** Appending a part adds a separator unless it is the first. */
  lemma JoinSnoc(parts: seq<string>, x: string)
    ensures Join(parts + [x]) == if |parts| == 0 then x else Join(parts) + ", " + x
  {
    assert (parts + [x])[..|parts|] == parts;
  }

  /** The text `printTo` writes: "Chord(", the labels of the notes in
      ascending order separated by ", ", then ")". */
  function Render(c: Chord): string {
    "Chord(" + Join(Labels(Notes(c))) + ")"
  }

  /** Concatenation is associative. */
  lemma Assoc(a: string, b: string, c: string)
    ensures a + (b + c) == (a + b) + c
  {
  }

  /** The text written so far once the first `k` notes of the range have
      been visited. */
  function Written(c: Chord, k: nat): string
    requires k <= 64
  {
    "Chord(" + Join(Labels(NotesBelow(c, k)))
  }

  /** Labelling one more note appends its label. */
  lemma LabelsSnoc(s: seq<Note>, n: Note)
    ensures Labels(s + [n]) == Labels(s) + [Label(n)]
  {
    assert (s + [n])[..|s|] == s;
  }

  /** Joining one more part after the opening text. */
  lemma OpenJoinSnoc(ls: seq<string>, x: string)
    ensures "Chord(" + Join(ls + [x]) == (if |ls| > 0 then "Chord(" + Join(ls) + ", " else "Chord(" + Join(ls)) + x
  {
    JoinSnoc(ls, x);
    if |ls| > 0 {
      Assoc("Chord(", Join(ls) + ", ", x);
      Assoc("Chord(", Join(ls), ", ");
    } else {
      Assoc("Chord(", Join(ls), x);
    }
  }

  /** What one step of the printing loop appends for the `k`-th note: its
      label, after a separator unless it is the first note printed. */
  lemma {:induction false} PrintStep(c: Chord, k: nat)
    requires k < 64
    ensures var n := NoteAt(k);
      Written(c, k + 1) ==
        if !Has(c, n) then Written(c, k)
        else (if |NotesBelow(c, k)| > 0 then Written(c, k) + ", " else Written(c, k)) + Label(n)
  {
    var before := NotesBelow(c, k);
    var n := NoteAt(k);
    if Has(c, n) {
      assert NotesBelow(c, k + 1) == before + [n];
      LabelsSnoc(before, n);
      OpenJoinSnoc(Labels(before), Label(n));
    } else {
      assert NotesBelow(c, k + 1) == before;
    }
  }

  /** `printTo`: the loop of music.h, writing into a string. */
  method PrintTo(c: Chord) returns (out: string)
    ensures out == Render(c)
  {
    out := "Chord(";
    var notes := 0;
    var n := ChordBase;
    ghost var k := 0;
    while n.num < ChordLimit.num
      invariant 0 <= k <= 64 && n == Note(ChordBase.num + k)
      invariant notes == |NotesBelow(c, k)|
      invariant out == Written(c, k)
      decreases 64 - k
    {
      PrintStep(c, k);
      ghost var before := NotesBelow(c, k);
      assert NotesBelow(c, k + 1) == before + (if Has(c, n) then [n] else []);
      if Has(c, n) {
        if notes > 0 {
          out := out + ", ";
        }
        ghost var start := out;
        out := out + Name(n);
        out := out + IntToString(Octave(n));
        Assoc(start, Name(n), IntToString(Octave(n)));
        notes := notes + 1;
      }
      n := Plus(n, 1);
      k := k + 1;
    }
    out := out + ")";
  }

  /** The empty chord prints as "Chord()". */
  lemma EmptyPrints()
    ensures Render(Empty()) == "Chord()"
  {
    NotesAre(Empty(), []);
  }
}
