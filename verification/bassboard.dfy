/** The bass board driver (include/bassboard.h): an MCP23017 port expander
    whose 16 pins are read as one word, each low pin a pressed button, and
    the poll that turns the pressed buttons into a chord and a bass. The
    I2C bus is replaced by the outcome of one read transaction. */
module BassBoard {
  import opened Music
  import BassMaps

  const ButtonCount: nat := BassMaps.ButtonCount

  /** A `uint16_t`. */
  type Word16 = x: int | 0 <= x < 0x1_0000

  /** `w >> k`. */
  function Shr(w: nat, k: nat): nat {
    if k == 0 then w else Shr(w / 2, k - 1)
  }

  /** `(w >> k) & 1`. */
  function BitOf(w: nat, k: nat): (b: nat)
    ensures b < 2
  {
    Shr(w, k) % 2
  }

  /** Shifting by one more is halving the shifted word. */
  lemma {:induction false} ShrStep(w: nat, k: nat)
    ensures Shr(w, k + 1) == Shr(w, k) / 2
  {
    if k > 0 {
      ShrStep(w / 2, k - 1);
    }
  }

  /** `c << k`, written as repeated doubling. */
  function Shl(c: nat, k: nat): nat {
    if k == 0 then c else 2 * Shl(c, k - 1)
  }

  /** Shifting below the width of the low part leaves the high part scaled:
      `(a + (c << k)) >> i == (a >> i) + (c << (k - i))`. */
  lemma {:induction false} ShrSplit(a: nat, c: nat, k: nat, i: nat)
    requires i <= k
    ensures Shr(a + Shl(c, k), i) == Shr(a, i) + Shl(c, k - i)
  {
    if i > 0 {
      var half := Shl(c, k - 1);
      assert a + Shl(c, k) == a + 2 * half;
      assert (a + 2 * half) / 2 == a / 2 + half;
      ShrSplit(a / 2, c, k - 1, i - 1);
    }
  }

  /** A number below `1 << k` shifted right by `k` is zero. */
  lemma {:induction false} ShrBelow(a: nat, k: nat)
    requires a < Shl(1, k)
    ensures Shr(a, k) == 0
  {
    if k > 0 {
      ShrBelow(a / 2, k - 1);
    }
  }

  /** Shifting by `k` and then by `j` is shifting by `k + j`. */
  lemma {:induction false} ShrAdd(w: nat, k: nat, j: nat)
    ensures Shr(Shr(w, k), j) == Shr(w, k + j)
  {
    if k > 0 {
      ShrAdd(w / 2, k - 1, j);
    }
  }

  /** `low | (hi << 8)`: the two port bytes as one word, port A low. */
  function Pack(low: Byte, hi: Byte): (w: Word16)
    ensures w % 256 == low && w / 256 == hi
  {
    low + 256 * hi
  }

  /** Every word is the packing of its two bytes. */
  lemma PackRoundTrip(w: Word16)
    ensures Pack(w % 256, w / 256) == w
  {
  }

  /** `c << 8` is `256 * c`. */
  lemma ShlByte(c: nat)
    ensures Shl(c, 8) == 256 * c
  {
    assert Shl(c, 0) == c;
    assert Shl(c, 1) == 2 * c;
    assert Shl(c, 2) == 4 * c;
    assert Shl(c, 3) == 8 * c;
    assert Shl(c, 4) == 16 * c;
    assert Shl(c, 5) == 32 * c;
    assert Shl(c, 6) == 64 * c;
    assert Shl(c, 7) == 128 * c;
  }

  /** Bit `i` of the packed word is pin `i` of port A for the first eight
      buttons and pin `i - 8` of port B for the rest. */
  lemma PackBits(low: Byte, hi: Byte, i: nat)
    requires i < 16
    ensures i < 8 ==> BitOf(Pack(low, hi), i) == BitOf(low, i)
    ensures 8 <= i ==> BitOf(Pack(low, hi), i) == BitOf(hi, i - 8)
  {
    ShlByte(hi);
    if i < 8 {
      ShrSplit(low, hi, 8, i);
      assert Shl(hi, 8 - i) == 2 * Shl(hi, 7 - i);
    } else {
      assert Shl(1, 8) == 256;
      ShrSplit(low, hi, 8, 8);
      ShrBelow(low, 8);
      ShrAdd(Pack(low, hi), 8, i - 8);
    }
  }

  /** The outcome of the read transaction: the status `endTransmission`
      returns after the register address is written, and the bytes
      `requestFrom` delivers. */
  datatype Transfer = Transfer(status: int, received: seq<Byte>)

  predicate Succeeded(t: Transfer) {
    t.status == 0 && |t.received| == 2
  }

  /** `readAll`: whether the read succeeded and the value left in `*values`. */
  function ReadAll(t: Transfer, values: Word16): (r: (bool, Word16))
    ensures r.0 <==> Succeeded(t)
    ensures !r.0 ==> r.1 == values
    ensures r.0 ==> r.1 % 256 == t.received[0] && r.1 / 256 == t.received[1]
  {
    if t.status != 0 then (false, values)
    else if |t.received| != 2 then (false, values)
    else (true, Pack(t.received[0], t.received[1]))
  }

  /** Pull-ups hold a released button's pin high; a pressed one reads 0. */
  predicate Pressed(w: Word16, i: nat) {
    BitOf(w, i) == 0
  }

  /** The chords of the buttons pressed among the first `k`, joined. */
  function PressedUnion(table: seq<Chord>, w: Word16, k: nat): Chord
    requires k <= |table|
  {
    if k == 0 then Empty()
    else if Pressed(w, k - 1) then Union(PressedUnion(table, w, k - 1), table[k - 1])
    else PressedUnion(table, w, k - 1)
  }

  /** A note sounds exactly when some pressed button's chord has it. */
  lemma {:induction false} PressedUnionMembers(table: seq<Chord>, w: Word16, k: nat, m: Note)
    requires k <= |table| && InChordRange(m)
    ensures Has(PressedUnion(table, w, k), m) <==> exists i :: 0 <= i < k && Pressed(w, i) && Has(table[i], m)
  {
    if k > 0 {
      PressedUnionMembers(table, w, k - 1, m);
      if Has(PressedUnion(table, w, k), m) && !Has(PressedUnion(table, w, k - 1), m) {
        assert Pressed(w, k - 1) && Has(table[k - 1], m);
      }
    }
  }

  /** With no button pressed the union is empty. */
  lemma {:induction false} NonePressedIsEmpty(table: seq<Chord>, w: Word16, k: nat)
    requires k <= |table|
    requires forall i :: 0 <= i < k ==> !Pressed(w, i)
    ensures PressedUnion(table, w, k) == Empty()
  {
    if k > 0 {
      assert !Pressed(w, k - 1);
      NonePressedIsEmpty(table, w, k - 1);
    }
  }

  /** The result of one poll; the read time is not modelled. */
  datatype Reading = Reading(chord: Chord, bass: Chord, valid: bool)

  /** `poll`: reads the port, then walks the 16 bits lowest first, adding
      the chord and bass of every pressed button. A word of 0 reads as all
      buttons down, which the board takes for a read error. */
  method Poll(t: Transfer, chordMap: seq<Chord>, bassMap: seq<Chord>) returns (r: Reading)
    requires |chordMap| == ButtonCount && |bassMap| == ButtonCount
    ensures r.valid <==> Succeeded(t) && Pack(t.received[0], t.received[1]) != 0
    ensures !r.valid ==> r.chord == Empty() && r.bass == Empty()
    ensures r.valid ==> var w := Pack(t.received[0], t.received[1]);
      r.chord == PressedUnion(chordMap, w, ButtonCount) && r.bass == PressedUnion(bassMap, w, ButtonCount)
  {
    var read := ReadAll(t, 0);
    var word := read.1;
    var valid := read.0 && word != 0;
    var chord := Empty();
    var bass := Empty();
    if valid {
      var bits: nat := word;
      var i := 0;
      while i < ButtonCount
        invariant 0 <= i <= ButtonCount
        invariant bits == Shr(word, i)
        invariant chord == PressedUnion(chordMap, word, i)
        invariant bass == PressedUnion(bassMap, word, i)
      {
        if bits % 2 == 0 {
          chord := Union(chord, chordMap[i]);
          bass := Union(bass, bassMap[i]);
        }
        ShrStep(word, i);
        bits := bits / 2;
        i := i + 1;
      }
    }
    r := Reading(chord, bass, valid);
  }

  /** The word whose low `n` bits are set, `(1 << n) - 1`. */
  function Ones(n: nat): nat {
    if n == 0 then 0 else 2 * Ones(n - 1) + 1
  }

  /** Every one of the low `n` bits of that word is set. */
  lemma {:induction false} AllOnes(n: nat, i: nat)
    requires i < n
    ensures BitOf(Ones(n), i) == 1
  {
    if i > 0 {
      assert Ones(n) / 2 == Ones(n - 1);
      AllOnes(n - 1, i - 1);
    }
  }

  /** With every button released the word is 0xFFFF, a valid reading, and
      nothing sounds. */
  lemma NothingPressed(table: seq<Chord>)
    requires |table| == ButtonCount
    ensures forall i :: 0 <= i < ButtonCount ==> !Pressed(0xFFFF, i)
    ensures PressedUnion(table, 0xFFFF, ButtonCount) == Empty()
  {
    assert Ones(16) == 0xFFFF by {
      assert Ones(8) == 255 by {
        assert Ones(4) == 15;
      }
    }
    forall i | 0 <= i < ButtonCount
      ensures !Pressed(0xFFFF, i)
    {
      AllOnes(16, i);
    }
    NonePressedIsEmpty(table, 0xFFFF, ButtonCount);
  }

  /** Polling a board whose maps come from two key tables: a note sounds in
      the chord exactly when a pressed button's table entry uses it. */
  lemma PressedKeys(keys: seq<BassMaps.Key>, w: Word16, m: Note)
    requires BassMaps.WellFormed(keys) && InChordRange(m)
    ensures Has(PressedUnion(BassMaps.KeyMap(keys), w, ButtonCount), m)
      <==> exists i :: 0 <= i < ButtonCount && Pressed(w, i) && m.num in BassMaps.KeyNotes(keys[i])
  {
    var table := BassMaps.KeyMap(keys);
    PressedUnionMembers(table, w, ButtonCount, m);
    assert forall i :: 0 <= i < ButtonCount ==> (Has(table[i], m) <==> m.num in BassMaps.KeyNotes(keys[i]));
  }
}
