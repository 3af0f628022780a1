# midicontroller core in Dafny

A Dafny model of the logic of the midicontroller firmware. The firmware is a
Raspberry Pi Pico accordion-style MIDI controller with two button boards of
bass and chord buttons and a rotary bellows sensor. The model covers the
parts of the firmware that compute, leaving out the parts that talk to hardware.

The model has one module per part of the firmware:

- `Sensor` (src/sensor.cpp, include/sensor.h). It covers:
  - the piecewise-linear phase estimate from the two quadrature channels;
  - the lap counter that unwraps the phase;
  - the folding of five samples into one pushed reading;
  - `Report::clear`.
- `Calibration` (src/calibration.h). It covers:
  - the 36-bin circular histogram `Weights` (`get`, `fill`, `add`, `update`, `addRange`);
  - the up/down/none state machine of `updateWeights`;
  - `calculateWeights`.
- `Music` (include/music.h). It covers:
  - notes as wrapping unsigned chars, their names and octaves;
  - the note constants;
  - chords as 64-bit sets starting at C1, with their constructors, union, membership, `countNotes` and `printTo`.
- `BassMaps` (include/bassmaps.h): `bass()` and the four key tables, written as the constructor calls the header makes.
- `BassBoard` (include/bassboard.h): the port packing of `Device::readAll` and the decoding of active-low buttons in `Board::poll`.
- `MidiOut` (include/midi_out.h): `Channel::sendChord`, `sendAllNotesOff` and the 14-bit `sendControlChange`.
- `MainLoop` (src/main.cpp): the 7-bit `sendControlChange`.
- `Tachometer`: the `crossed` pulse detector of tachometer.h and of src/tachometer.h.
- `Filters`: `MovingAverageFilter` of src/filters.h and include/filters.h.

Two support modules serve the others:

- `CInt` gives C++ integer semantics. Division and remainder truncate toward zero, and conversions to 8-bit types wrap.
- `Wrappers` gives `Option`.

How the model represents the firmware:

- Operations are pure functions, or methods where the source loops. Messages the firmware would send are returned as lists.
- `float` and `double` are `real`. The NaN start position of the calibration is `None`.
- A 64-bit chord word is a sequence of 64 booleans, bit `k` standing for note C1 + k.

Where the code and its documentation or the MIDI standard disagree, the model follows the code. In each such case it also gives a corrected definition (see Findings). The rest of the model uses the corrected definitions, with one exception: the calibration lap collector (`updateWeights`, `calculateWeights`) takes a `Version` argument. `AsWritten` runs the header's own `addRange` and `update`, and `Corrected` runs the corrected ones.

## Model

| member | source | states |
|---|---|---|
| Sensor.TurnFractionsExact | src/sensor.cpp:65-67 | 720 ticks per turn divide exactly into half (360), quarter (180) and eighth (90) turns |
| Sensor.ApproximatePhaseAsWritten | src/sensor.cpp:69-80 | the estimate as written is undefined (a division by zero) exactly when both centred channels are 0 |
| Sensor.MidpointReadingDividesByZero | src/sensor.cpp:119 | two raw readings of 300 reach that division by zero |
| Sensor.ApproximatePhase | src/sensor.cpp:69-80 | agrees with the estimate as written wherever it is defined; each region's result stays within an eighth turn of its centre: [-90, 90], [90, 270], [-270, -90], (270, 450) |
| Sensor.DiagonalsAgree | src/sensor.cpp:71-79 | on the diagonals the neighbouring branches give the same angle, so the order of the tests does not matter there |
| Sensor.CalculatePhase | src/sensor.cpp:98-102 | the phase lies in [0, 720) and differs from the estimate by a whole number of turns |
| Sensor.CountLaps | src/sensor.cpp:85-96 | unwrapped position grows by exactly the change; laps +1 iff raw change < -360, -1 iff > 360, never more; change congruent to the raw change and within [-360, 360] for normalised angles |
| Sensor.StepTracksMotion | src/sensor.cpp:86-95 | a true step of less than half a turn is recovered exactly from the new angle, and the counter keeps the true lap count and angle |
| Sensor.LapCountFollowsTrajectory | src/sensor.cpp:85-96 | along any trajectory whose steps are all shorter than half a turn, the counter ends on the true lap count and angle |
| Sensor.StartAcquisition | src/sensor.cpp:148-154 | after the warm-up the state is valid, with no laps, the angle `calculatePhase(a - 300, b - 300)` of the last warm-up reading, and an empty window: 0 samples, 0 change, maxIdle 0, minIdle samplePeriod |
| Sensor.StartTracksWarmup | src/sensor.cpp:154 | the start state tracks the warm-up position, and a first sample with the same channel readings sees no motion and leaves the counter unchanged |
| Sensor.ReadAndSend | src/sensor.cpp:111-143 | keeps the window invariant; pushes a reading exactly when the fifth sample arrives; that reading carries the window's summed change and current laps and angle; its minIdle is the smaller and its maxIdle the larger of the accumulator and the sample's idle time, as is the accumulator when nothing is pushed; accumulators reset to 0, 0, samplePeriod |
| Sensor.RunCountsReports | src/sensor.cpp:122-142 | over any run one reading is pushed per five samples, the window counter is the remainder, and the per-sample changes sum to the unwrapped motion |
| Sensor.RunCarriesChanges | src/sensor.cpp:123-140 | pushed readings plus the pending sum carry exactly the per-sample changes; every reading has minIdle <= maxIdle |
| Sensor.ReportsConserveMotion | src/sensor.cpp:106-142 | the two run properties together: no motion is lost at report boundaries |
| Sensor.OneReportPerWindow | src/sensor.cpp:106-142 | five samples from a fresh window push one reading whose change is their sum, whose minIdle is the least of samplePeriod and their idle times and whose maxIdle is the greatest of 0 and their idle times; the accumulators are back at 0, 0, samplePeriod |
| Sensor.WindowIdles | src/sensor.cpp:125-135 | the samples completing a window push one reading whose idle bounds are the minimum and maximum of the accumulators and the samples' idle times |
| Sensor.MinIdleOf | src/sensor.cpp:126 | at most the start value and every idle time, and equal to one of them |
| Sensor.MaxIdleOf | src/sensor.cpp:125 | at least the start value and every idle time, and equal to one of them |
| Sensor.Clear | include/sensor.h:32-37 | samples, thetaChange and maxJitter become 0 and minIdle INT_MAX; last and sendTime are kept |
| Sensor.ClearIdempotent | include/sensor.h:32-37 | clearing twice is clearing once |
| Sensor.ClearedIsNeutral | include/sensor.h:35-36 | after clear the first idle time becomes the minimum and the first jitter the maximum |
| CInt.Div | src/sensor.cpp:72 | C++ `/`: the quotient is rounded toward zero (magnitude bracket and sign) |
| CInt.Mod | src/calibration.h:20 | C++ `%`: `a == (a/b)*b + a%b`, the remainder is smaller than the divisor and has the dividend's sign, and it agrees with the mathematical remainder for non-negative operands |
| Calibration.BinIndex | src/calibration.h:20 | the normalised index lies in [0, 36) and is congruent to i modulo 36 for every i, negative included |
| Calibration.Get | src/calibration.h:19-21 | an index in [0, 36) reads its own bin, and every index, negative included, reads the bin of its residue modulo 36 |
| Calibration.GetIsCircular | src/calibration.h:19-21 | indices a lap apart read the same bin; -1 reads the last bin |
| Calibration.OffsetStep | src/calibration.h:60-62 | stepping the index on by one: the index's own bin goes from offset 0 to offset 35, and every other bin comes one closer |
| Calibration.OffsetCovers | src/calibration.h:60-62 | within a lap, the bins at offset below hi - i from i are exactly the bins of the indices i, ..., hi - 1 |
| Calibration.Fill | src/calibration.h:23-28 | every bin is val and the total is 36 * val, so the table is balanced |
| Calibration.Add | src/calibration.h:30-33 | only the normalised bin changes, by val, and the total changes by val; balance and non-negativity are kept |
| Calibration.UpdateAsWritten | src/calibration.h:35-41 | each bin becomes bin * (1 - w) + next.bin * w / next.total; the total is left unchanged; the bins' sum is blended the same way |
| Calibration.UpdateKeepsUnitSum | src/calibration.h:35-41 | bins summing to 1, blended with a balanced table, still sum to 1 |
| Calibration.UpdateAsWrittenUnbalances | src/calibration.h:35-41 | a concrete balanced pair whose update as written leaves total != sum of bins |
| Calibration.Update | src/calibration.h:35-41 | the same bins, with the total blended too, so balanced tables stay balanced |
| Calibration.UpdateKeepsNonNegative | src/calibration.h:36-40 | a blend with weight in [0, 1] of non-negative tables is non-negative |
| Calibration.Ceil | src/calibration.h:58 | C `ceil`: the least integer not below x, equal to floor(x) exactly on integers |
| Calibration.Ordered | src/calibration.h:44-48 | the two ends in ascending order |
| Calibration.OrderedIsSymmetric | src/calibration.h:44-48 | swapping the arguments gives the same ordered pair |
| Calibration.AddEach | src/calibration.h:60-62 | adding v to each bin of [i, hi) raises the total by (hi - i) * v and keeps balance and non-negativity; for at most a lap of indices, each bin gains v if one of the indices lands on it and is unchanged otherwise |
| Calibration.Spread | src/calibration.h:57-62 | the multi-bin case raises the total by first + last + (bins between) * weight, keeping balance; over less than a lap, the start bin gains first, the end bin last, each bin strictly between weight, and every other bin nothing |
| Calibration.SpreadAmounts | src/calibration.h:57-62 | the covered shares add up to val; as written, a start on a bin boundary loses one bin unit of weight |
| Calibration.AsWrittenShares | src/calibration.h:57-62 | the shares as written add up to val iff the start is off a boundary or val is 0 |
| Calibration.Overlap | src/calibration.h:57-62 | how much of the unit bin [k, k + 1) the range [lo, hi) covers, in [0, 1] and never more than the range's length |
| Calibration.SharesAreOverlaps | src/calibration.h:57-62 | each share is val in proportion to the overlap of the range with its bin unit: the start and end bins by their covered parts, a bin between by a whole unit, a bin after the end by nothing |
| Calibration.BinGainIsOverlap | src/calibration.h:57-62 | over less than a lap, every bin but the start bin gains val times the fraction of it the range covers, and the covered part of the start bin is FirstShare |
| Calibration.SpreadRange | src/calibration.h:57-62 | the multi-bin case on [lo, hi) with a given start-bin credit: the total rises by that credit plus the end and middle shares; balance and non-negativity are kept; over less than a lap, every other bin gains its proportional share |
| Calibration.AddScaledRangeAsWritten | src/calibration.h:51-62 | keeps balance; raises the total by val exactly when both ends share a bin, the start is off a boundary, or val is 0; a start on a boundary with the end in a later bin loses val / (hi - lo); a non-negative val never raises the total by more than val and keeps the bins non-negative; both ends in one bin put all of val there; over less than a lap the start bin gains `ceil(lo) - lo` units and every other bin its proportional share |
| Calibration.AddScaledRange | src/calibration.h:51-62 | raises the total by exactly val, keeping balance and non-negativity; both ends in one bin put all of val there; over less than a lap every bin gains val times the fraction of it the range covers |
| Calibration.AddRangeAsWritten | src/calibration.h:43-63 | the same as AddScaledRangeAsWritten for unordered, unscaled ends |
| Calibration.AddRange | src/calibration.h:43-63 | raises the total by exactly val, keeps balance and non-negativity, puts all of val in one bin when both scaled ends share it, and otherwise, over less than a lap, gives every bin val times the fraction of it the scaled range covers |
| Calibration.RangeVersionsDifferAtStartBin | src/calibration.h:57-58 | over less than a lap the two versions fill every bin alike but the start bin, which as written has one bin unit of weight less exactly when the scaled start is a whole number |
| Calibration.AddRangeIgnoresOrder | src/calibration.h:44-48 | the order of the ends does not matter, as written or corrected |
| Calibration.BoundaryStartLosesMass | src/calibration.h:58 | on any table, spreading 1 over [0, 0.05) as written leaves bin 0 unchanged and adds 0.8/1.8 to the total |
| Calibration.BoundaryStartKeepsMass | src/calibration.h:43-63 | on any table, the corrected addRange of 1 over [0, 0.05) adds 1/1.8 to bin 0 and 1 to the total |
| Calibration.HalfBinsSplitEvenly | src/calibration.h:57-62 | a range from the middle of bin 0 to the middle of bin 1 gives each half |
| Calibration.DirectionOf | src/calibration.h:95-97 | up iff laps > prevPos, down iff laps < prevPos; none from the NaN start |
| Calibration.Initial | src/calibration.h:69-83 | the start-up state satisfies the invariant |
| Calibration.AddPiece | src/calibration.h:106-121 | the addRange of either version keeps balance and non-negativity, never adds more than a non-negative val, and adds all of it iff corrected or the as-written range loses nothing |
| Calibration.AddPieceIgnoresOrder | src/calibration.h:114 | crediting from the finish line to the position is crediting from the position to the finish line, in either version |
| Calibration.AddPieceIsAddRange | src/calibration.h:106-121 | the as-written collector credits with the header's addRange and the corrected one with the corrected addRange, so their per-bin contracts apply |
| Calibration.UpdatesAgreeOnUnitTotal | src/calibration.h:35-41 | on a table whose total is 1 the as-written and corrected updates are equal |
| Calibration.CommitLap | src/calibration.h:86-93 | clears the flag; blends the partial lap in, with the bins of `update`, and counts an update iff its mass lies in [10, 50]; otherwise changes nothing else; keeps the invariant in either version |
| Calibration.CommitVersionsAgree | src/calibration.h:86-93 | under the invariant both versions commit a lap alike |
| Calibration.UpdateWeights | src/calibration.h:85-123 | keeps the invariant; a pending lap is committed; a new or changed direction restarts the lap at laps with finish line one lap on; reaching the finish line credits the piece from the tracked position to the finish line and sets the flag; otherwise credits one unit over [prevPos, laps] and advances; each credit is the version's addRange of that piece, exact when corrected, and as written exact iff the piece does not start on a bin boundary, and never more |
| Calibration.FinishLap | src/calibration.h:105-119 | up or down, the credited piece is the version's addRange from the tracked position to the finish line with the remaining distance as its mass; the lap is left pending with no direction and nothing else changes |
| Calibration.VersionsDifferOnlyInPartial | src/calibration.h:85-123 | under the invariant one call of either version gives the same state except the partial lap, whose mass as written is at most the corrected one, and equal states when no lap is in progress |
| Calibration.BoundaryStartDiverges | src/calibration.h:95-123 | from start-up, positions -1, 0 and 0.05 make the as-written collector credit 0.8/1.8 to the partial lap where the corrected one credits 1 |
| Calibration.BoundaryMove | src/calibration.h:121-122 | on a fresh upward lap at 0, the move to 0.05 credits 0.8/1.8 as written and 1 when corrected |
| Calibration.RemainingWithinOneLap | src/calibration.h:106-120 | while a direction is set, the last piece of a lap is in (0, 1] |
| Calibration.PendingLapIgnoresPosition | src/calibration.h:86-93 | with a pending lap the input position does not matter, and the flag is cleared |
| Calibration.CalculateWeights | src/calibration.h:131-139 | runs updateWeights of its version; keeps the invariant; reports the current bin, its value in the updated table, and the update count; the bin value is in [0, 1]; the bin advances cyclically |
| Calibration.MetricsAgree | src/calibration.h:131-139 | under the invariant both versions report the same metrics |
| Calibration.GetWithinUnit | src/calibration.h:136 | a bin of a non-negative table summing to 1 is in [0, 1] |
| Music.Plus | include/music.h:15-17 | note + offset wraps modulo 256 |
| Music.Minus | include/music.h:19-21 | note - offset wraps modulo 256 |
| Music.Diff | include/music.h:23-25 | note - note is a signed char; adding it back leads from the other note to this one |
| Music.MinusUndoesPlus | include/music.h:15-21 | subtracting undoes adding and vice versa, wrap-around included |
| Music.DiffOfPlus | include/music.h:15-25 | the signed difference recovers offsets below 128 in both directions |
| Music.Name | include/music.h:31-33 | a name is a letter A-G, followed by '#' exactly for pitch classes 1, 3, 6, 8, 10 |
| Music.Octave | include/music.h:35-37 | octave k holds the notes 12(k+1) to 12(k+2) - 1 |
| Music.NameAndOctaveIdentifyNote | include/music.h:31-37 | name and octave determine the note |
| Music.OctaveUp | include/music.h:31-37 | twelve semitones up keeps the name and raises the octave by one |
| Music.ToOctaveRangeFrom | include/music.h:39-42 | for base <= 144, the result is in [base, base + 12) with the input's pitch class |
| Music.OctaveRangeIsUnique | include/music.h:39-42 | that note is unique, so a note already in range is kept |
| Music.ConstantsFollowDerivation | include/music.h:66-93 | each note constant and ChordLimit is the one the header derives from its neighbour |
| Music.ConstantsAreSpelled | include/music.h:59-88 | in scientific pitch notation middle C is C4; C1 = 24; each constant has its own name and octave |
| Music.ToBit | include/music.h:99-101 | the word with exactly the bit n - ChordBase set |
| Music.Has | include/music.h:147-149 | whether the chord's bit for the note is set; by HasMasksOneBit, the same as the header's mask-and-test |
| Music.HasMasksOneBit | include/music.h:147-149 | masking with the note's bit and testing for non-zero is testing that bit |
| Music.Empty | include/music.h:109 | holds no note |
| Music.Single | include/music.h:110 | holds exactly n |
| Music.Pair | include/music.h:111 | holds exactly n1 and n2 |
| Music.Triple | include/music.h:112 | holds exactly n1, n2 and n3 |
| Music.DoubleOctave | include/music.h:103-116 | holds exactly n, n + 12, n + 24 |
| Music.MajorUp | include/music.h:118-120 | holds exactly n, n + 4, n + 7 |
| Music.MajorDown | include/music.h:122-124 | holds exactly n - 8, n - 5, n |
| Music.MajorMid | include/music.h:126-128 | holds exactly n - 5, n, n + 4 |
| Music.MinorUp | include/music.h:130-132 | holds exactly n, n + 3, n + 7 |
| Music.MinorDown | include/music.h:134-136 | holds exactly n - 9, n - 5, n |
| Music.MinorMid | include/music.h:138-140 | holds exactly n - 5, n, n + 3 |
| Music.Union | include/music.h:142-145 | holds a note iff either chord does |
| Music.UnionLaws | include/music.h:142-145 | union is commutative, associative and idempotent, with the empty chord as identity |
| Music.NotesBelowListsChord | include/music.h:164-173 | walking the range lists exactly the chord's notes, in ascending order |
| Music.NotesCountBits | include/music.h:151-159 | the number of notes listed is the number of set bits |
| Music.CountNotes | include/music.h:151-159 | the loop counts the chord's notes, which is its number of set bits |
| Music.AscendingEqual | include/music.h:164-173 | two ascending lists with the same elements are equal |
| Music.NotesAre | include/music.h:164-173 | a chord's note list is the ascending list of exactly its notes |
| Music.NatToStringRoundTrip | include/music.h:170 | the printed decimal digits of a number read back as that number |
| Music.PrintStep | include/music.h:165-172 | one loop step appends the note's name and octave, after ", " unless it is the first |
| Music.PrintTo | include/music.h:161-175 | the loop writes "Chord(", the labels of the notes in ascending order joined by ", ", and ")" |
| Music.EmptyPrints | include/music.h:161-175 | the empty chord prints as "Chord()" |
| BassMaps.BassChord | include/bassmaps.h:16-20 | the note moved into [31, 43) keeping its pitch class, with exactly it and its two octaves up |
| BassMaps.BassChordHasThreeNotes | include/bassmaps.h:18-20 | every bass chord lists exactly three notes, all in [31, 67) |
| BassMaps.BassIsPlayable | include/bassmaps.h:18-20 | every bass entry lies within the chord range |
| BassMaps.MajorChord | include/bassmaps.h:25-26 | a major entry's chord holds exactly the notes the entry names |
| BassMaps.MinorChord | include/bassmaps.h:38-39 | a minor entry's chord holds exactly the notes the entry names |
| BassMaps.MajorUpEntry | include/music.h:118-121 | a `majorUp` entry in range holds exactly root, root + 4 and root + 7 |
| BassMaps.MajorDownEntry | include/music.h:122-125 | a `majorDown` entry in range holds exactly root - 8, root - 5 and root |
| BassMaps.MajorMidEntry | include/music.h:126-129 | a `majorMid` entry in range holds exactly root - 5, root and root + 4 |
| BassMaps.MinorUpEntry | include/music.h:130-133 | a `minorUp` entry in range holds exactly root, root + 3 and root + 7 |
| BassMaps.MinorDownEntry | include/music.h:134-137 | a `minorDown` entry in range holds exactly root - 9, root - 5 and root |
| BassMaps.MinorMidEntry | include/music.h:138-141 | a `minorMid` entry in range holds exactly root - 5, root and root + 3 |
| BassMaps.KeyChord | include/bassmaps.h:22-49 | any playable entry's chord holds exactly the notes it uses |
| BassMaps.TriadRoots | include/bassmaps.h:25-26 | the roots E3, A3, D3, G3, C3, F3, B3-1, E3-1 are 52, 57, 50, 55, 48, 53, 58, 51 |
| BassMaps.MajorRowPlayable | include/bassmaps.h:25-26 | every major triad of the lower board stays in [24, 88) |
| BassMaps.MinorRowPlayable | include/bassmaps.h:38-39 | every minor triad of the upper board stays in [24, 88) |
| BassMaps.TablesAreWellFormed | include/bassmaps.h:22-49 | all four tables have 16 entries whose every note has a bit in the chord word |
| BassMaps.KeyMap | include/bassmaps.h:22-49 | one chord per button, holding exactly that entry's notes |
| BassMaps.SilentHalves | include/bassmaps.h:22-49 | lower chords 0-7, upper bass 0-7, lower bass 8-15 and upper chords 8-15 are empty; the other halves hold triads or basses |
| BassMaps.ChordRowsMirror | include/bassmaps.h:22-42 | the upper chord row uses the lower row's roots and shapes in the minor |
| BassBoard.Pack | include/bassboard.h:61-63 | low is the word's low byte and hi its high byte |
| BassBoard.PackRoundTrip | include/bassboard.h:63 | every 16-bit word is the packing of its two bytes |
| BassBoard.PackBits | include/bassboard.h:63 | bit i of the word is pin i of port A for i < 8 and pin i - 8 of port B otherwise |
| BassBoard.ReadAll | include/bassboard.h:53-65 | succeeds iff the address write returns 0 and two bytes arrive; on failure the value is untouched; on success it holds the two bytes |
| BassBoard.PressedUnionMembers | include/bassboard.h:124-131 | the union sounds a note iff some pressed button's chord has it |
| BassBoard.NonePressedIsEmpty | include/bassboard.h:124-131 | with no button pressed the union is empty |
| BassBoard.Poll | include/bassboard.h:112-135 | valid iff the read succeeded and the word is not 0; invalid readings are empty; valid ones are the unions over pressed buttons of the chord and bass maps |
| BassBoard.NothingPressed | include/bassboard.h:120-131 | the word 0xFFFF has no button pressed and gives an empty union |
| BassBoard.PressedKeys | include/bassboard.h:124-131 | with a well-formed table, a note sounds iff a pressed button's entry uses it |
| MidiOut.Clamp | include/midi_out.h:56-57 | the value limited to [0, hi], unchanged inside |
| MidiOut.NoteChange | include/midi_out.h:33-39 | at most one message for the note, justified by the chord change; one exactly when membership changes |
| MidiOut.ChordDiffSound | include/midi_out.h:32-40 | every message is a note-on for an added note or a note-off for a dropped one, in ascending note order |
| MidiOut.ChordDiffComplete | include/midi_out.h:32-40 | every added note has its note-on and every dropped note its note-off |
| MidiOut.DiffMember | include/midi_out.h:32-40 | any message of the whole diff is justified |
| MidiOut.ChordDiffExact | include/midi_out.h:32-40 | note-on exactly for chord minus prev, note-off exactly for prev minus chord |
| MidiOut.SendChord | include/midi_out.h:29-43 | the loop sends exactly that diff, returns true iff it sent something, and remembers the new chord |
| MidiOut.ResendIsSilent | include/midi_out.h:41 | sending the remembered chord again sends nothing |
| MidiOut.SendAllNotesOff | include/midi_out.h:45-48 | sends controller 123 value 0 on the channel and leaves no note remembered |
| MidiOut.AllNotesOffThenChord | include/midi_out.h:45-48 | after All Notes Off the next chord is sent as note-ons for exactly its notes |
| MidiOut.SendControlChangeAsWritten | include/midi_out.h:52-68 | clamps to [0, 16383]; sends nothing iff the value equals the 8-bit previous one; otherwise two 7-bit bytes hi, lo with hi * 128 + lo = value, hi on control + 32 first; stores the value mod 256 |
| MidiOut.HighBitsOnLowController | include/midi_out.h:65-66 | a receiver following the MIDI controller table reads 128 as 1 |
| MidiOut.DedupAliasesModulo256 | include/midi_out.h:24 | 44 after 300 is suppressed, and 255 is never sent first |
| MidiOut.SendControlChange | include/midi_out.h:50-68 | corrected: sends nothing iff the clamped value equals the last one sent; otherwise the receiver reads back exactly the clamped value; MSB on control first |
| MidiOut.ControlChangeDedup | include/midi_out.h:58-60 | the first value is always sent; a second is suppressed iff it clamps to the same value |
| MainLoop.SendControlChange | src/main.cpp:17-27 | clamps to [0, 127]; sends nothing iff equal to the previous value; else one control change on controller 1, channel 1, remembered |
| MainLoop.FirstCallSends | src/main.cpp:13 | the start value is 255, so the first call always sends |
| MainLoop.RepeatIsSilent | src/main.cpp:21-26 | after a call, the next is silent iff it clamps to the same value |
| MainLoop.SentValuesAreDataBytes | src/main.cpp:18-20 | every value sent is in [0, 127] |
| Tachometer.CrossedAt | tachometer.h:59-63 | crosses iff high and v below -threshold, or low and v above it; a crossing flips the level, otherwise it is kept |
| Tachometer.CrossedByMinHeight | tachometer.h:59-63 | with minPulseHeight / 2 the dead band is [-100, 100] |
| Tachometer.CrossedByFraction | src/tachometer.h:51-55 | with 0.1 * pulseHeight the dead band is [-100, 100] |
| Tachometer.VersionsAgree | src/tachometer.h:52 | the two versions detect the same crossings |
| Tachometer.DeadBand | src/tachometer.h:52 | a voltage in [-100, 100] never changes the state |
| Tachometer.RepeatDoesNotCross | src/tachometer.h:52-53 | the same voltage twice crosses at most once |
| Tachometer.CrossingFollowsSign | src/tachometer.h:53 | after a crossing the level is the sign of the voltage |
| Filters.Reset | src/filters.h:64-70 | every slot 0, next 0, sum 0, and the invariant holds |
| Filters.Update | src/filters.h:72-79 | writes only slot next, advances next cyclically, keeps sum == sum of the queue, and returns the mean of the queue |
| Filters.UpdateShiftsWindow | src/filters.h:73-77 | one update drops the oldest input from the window read from next and appends the new one |
| Filters.RunHoldsWindow | src/filters.h:60-79 | after any inputs from reset the queue read from next is the last SIZE inputs (zeros for unwritten slots), and sum is their sum |
| Filters.OutputIsMean | src/filters.h:72-78 | each output is the mean of the last SIZE inputs, counting unwritten slots as zeros |
| Filters.UpdateChecked | include/filters.h:25-33 | a NaN or infinite input is returned as is and leaves the filter alone; a finite one is a plain update; the invariant is kept |

## Left out

- The cross-core FIFO hand-off (`begin`, `next`, `push` with READY/SENT) and `takeReport`: concurrency. A pushed reading is returned instead.
- Timing in src/sensor.cpp. This covers `takeReading`, `takeTimedReading`, idling and resuming the other core, busy waits, `elapsedMicros` and the read-time fields. The idle time and jitter of a sample are plain inputs.
- The `Reading` declared in src/sensor.h lacks fields that src/sensor.cpp writes. The model uses the fields src/sensor.cpp uses.
- The other I2C transactions of the bass board `Device` (`begin`, `ping`, `writeTwoRegisters`) and `Board::begin`/`reset`. A read is replaced by its status and received bytes. The poll's read time is not modelled.
- The USB MIDI transport, Serial logging, `printHeader`, `setup`/`loop`, and the float-to-int scaling at src/main.cpp:66.
- The IIR filters (`LowPassFilter`, `HighPassFilter`, `ZeroLevelTracker`, the low-pass stage of `MultipassFilter`) and the root filters.h: floating-point signal processing.
- The tachometer's `poll`, `read`, `begin`, `highPass`, `lowPass` and `findFrequency`: analog reads, GPIO and frequency estimation. The reuse of `smoothAmbient1` for channel 2 at src/tachometer.h:130 is not modelled.
- IEEE float rounding, NaN and infinity in the calibration and the moving average: these are `real`. The non-finite inputs of include/filters.h are the exception and are modelled.
- Tachometer.CrossedAt: `pulseHigh` is never initialised in either header. It is a parameter, so every initial value is covered.
- Sensor.CountLaps: `laps`, `thetaChange` and the window sums are unbounded integers. 32-bit overflow would need about three million laps and is not modelled.
- Sensor.ApproximatePhase: the corrected estimate returns 0 at the origin, where the code divides by zero. Any value there would do. Everywhere else it is the estimate as written.
- Music.ToOctaveRangeFrom: the in-range promise is proved for bases up to 144, which covers every MIDI note. Above that the unsigned-char arithmetic wraps.
- Music.MajorUp, Music.MajorDown, Music.MajorMid, Music.MinorUp, Music.MinorDown, Music.MinorMid, Music.DoubleOctave and Music.ToBit require their notes to lie in [ChordBase, ChordLimit). A shift outside the 64-bit word is undefined behaviour in C++. The tables are proved to stay inside.
- Music.PrintTo: `Print` is replaced by string concatenation, and `print(int)` by its decimal form.
- MidiOut.SendChord: the note-on velocity is the template argument `velocity`, passed as a function parameter.
- Filters.Reset: requires SIZE > 0. A zero-size template instance would divide by zero in `update` and is not modelled.
- Calibration.AddEach, Calibration.Spread, Calibration.SpreadRange, Calibration.AddScaledRange, Calibration.AddScaledRangeAsWritten, Calibration.AddRange, Calibration.AddRangeAsWritten: what each bin gains is stated only for ranges over less than a lap of bins (fewer than 36 bin boundaries crossed). A longer range, one move of more than a lap between two samples, wraps round the table and credits some bins more than once; for it only the total, balance and non-negativity are stated.
- Calibration.UpdateWeights: the mixing of `float` and `double` in the positions is not modelled. Both are `real`.

## Findings

| source | as written | input that shows it | evidently intended | confidence | as-written member | corrected member |
|---|---|---|---|---|---|---|
| src/sensor.cpp:71-72 | the first branch of `approximatePhase` is taken at x = y = 0 and divides by x | both channels reading 300, so x = y = 0 | some defined angle at the origin | not executed | Sensor.MidpointReadingDividesByZero | Sensor.ApproximatePhase |
| src/calibration.h:35-41 | `update` blends the bins but leaves `total` alone, so the bins no longer add up to `total` | two all-ones tables blended half and half: total 36, bins 18.5 | the total blended like the bins | not executed | Calibration.UpdateAsWrittenUnbalances | Calibration.Update |
| src/calibration.h:58 | the start bin is credited `ceil(start) - start` units, which is 0 when the scaled start is a whole number | `addRange(0, 0.05, 1)` adds 0.8/1.8 instead of 1 and leaves bin 0 empty; `updateWeights` reaches this call from start-up on positions -1, 0, 0.05 (Calibration.BoundaryStartDiverges) | the covered part of the start bin, `floor(start) + 1 - start` | not executed | Calibration.BoundaryStartLosesMass | Calibration.AddRange |
| include/midi_out.h:65-66 | the high 7 bits are sent on `control + 32`, although the comment at line 51 and the MIDI 1.0 controller table put the low 7 bits there | value 128 on controller 1 is read back as 1 | MSB on `control`, LSB on `control + 32` | not executed | MidiOut.HighBitsOnLowController | MidiOut.SendControlChange |
| include/midi_out.h:24 | duplicates are detected against an 8-bit copy of the 14-bit value | 300 then 44 sends nothing for 44; a first value of 255 is never sent | compare with the full value last sent | not executed | MidiOut.DedupAliasesModulo256 | MidiOut.SendControlChange |
