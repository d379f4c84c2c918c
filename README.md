# Melody extraction for a five-bell carillon, in Dafny

This project models the melody extractor of the `inferno-bell` backend
(`backend/melody_detector.py`, class `MelodyDetector`) and proves properties
of the model. The extractor takes a parsed MIDI file and returns a list of
bell strikes. Each strike names one of five bells (Do, Ré, Mi, Fa, Sol), a
delay in milliseconds since the end of the previous strike, and a ring
duration. The model gives each stage its own Dafny module:

| stage | module | file | form |
|---|---|---|---|
| MIDI data model (tracks of timed messages, ticks per beat) | `Midi` | `midi.dfy` | datatypes |
| tempo: first `set_tempo` in file order, else 500000 µs per beat | `Tempo` | `tempo.dfy` | functions and lemmas |
| track selection: skip tracks with no notes or with percussion, then one best track per cluster | `TrackSelection` | `track_selection.dfy` | functions and lemmas |
| note events: pair note starts and ends per pitch, then sort stably by start tick | `NoteEvents` | `note_events.dfy` | spec functions, a method with loops |
| time grid: bucket events by their start rounded to a 32nd note | `TimeGrid` | `time_grid.dfy` | spec functions, a method with a loop |
| monophonic reduction: one note per grid slot, plus the overlap override rule | `Reducer` | `reducer.dfy` | spec functions, a method with a loop |
| bell mapping: a pitch class goes to the nearest allowed bell | `Bells` | `bells.dfy` | functions and lemmas |
| bell sequence: milliseconds, 300 ms minimum ring, 250 ms minimum gap | `Sequencer` | `sequencer.dfy` | spec functions, methods with loops |
| `extract`, which chains the stages | `MelodyDetector` | `melody_detector.dfy` | a method, its spec function, lemmas |

Each stage that loops and updates variables in the source is a `method`. Its
`ensures` equates the result to a specification function of the inputs, and
lemmas prove the specification's properties. Stages that only compute a value
are functions. `MelodyDetector` has no class: `extract` never updates the
detector's fields. The bell map and the list of allowed pitch classes are
constants, and the audio samples matter only for playback.

Modelling choices, stated once:

- **Grid keys.** A grid position is stored as its slot index `k`, which stands
  for tick `k * tpq / 8`. The slot of a start tick is `round(8 * start / tpq)`
  computed exactly, with ties going to the even slot as Python's `round` does.
  The overlap test `pos < last_note_end` becomes `k * tpq < 8 * lastNoteEnd`.
- **Salience.** `0.7 * pitch + 0.3 * velocity` becomes `7 * pitch + 3 * velocity`,
  ten times the source's key in exact arithmetic. Strict comparison keeps the
  first maximum, like Python's `max`. For pitches and velocities 0-127, notes
  whose exact saliences differ are ordered the same way by the float key. On an
  exact tie the float key may break the tie differently (see "Left out").
- **Velocity override.** `v > 1.2 * c` becomes `5v > 6c`, the same test in exact arithmetic.
- **Clustering is an input.** Ward clustering of pitch histograms and the
  floating-point melodic score are outside the model. `labels[i]` and
  `scores[i]` give the cluster id and the score of the i-th qualifying track.
- **Milliseconds.** `int(tick2second(t, tpq, tempo) * 1000)` is modelled as
  the integer `t * tempo / tpq / 1000`, the truncated exact quotient. The float
  value can be 1 ms lower (see "Left out"). Durations are kept in whole
  milliseconds as `max(300, endMs - startMs)`.
- **Zero ticks per beat.** With `tpq = 0` and at least one note, the source
  divides by a zero grid resolution and raises. The model returns
  `Failure(ZeroTicksPerBeat)`.

## Model

| member | source | states |
|---|---|---|
| Tempo.FirstTempoIndex | backend/melody_detector.py:93-97 | no index exactly when the messages have no `set_tempo`; otherwise the index is a `set_tempo` with none before it |
| Tempo.GetTempo | backend/melody_detector.py:89-99 | a file with no `set_tempo` in any track gets the default tempo of 500000 µs per beat |
| Tempo.FirstTempoIndexAppend | backend/melody_detector.py:93-97 | the first `set_tempo` of a concatenation is the first in the first part, otherwise the first in the second part, shifted by the first part's length |
| Tempo.GetTempoIsFirstInFileOrder | backend/melody_detector.py:89-99 | the track-by-track early-return search gives the tempo of the first `set_tempo` of the whole file in file order |
| TrackSelection.QualifyingIndices | backend/melody_detector.py:112-125 | exactly the tracks that have a note_on with velocity > 0 and no message on channel 9, in strictly increasing file order |
| TrackSelection.BestInCluster | backend/melody_detector.py:183-186 | none iff the cluster has no member; otherwise a member whose score is maximal, with every earlier member scoring strictly less (Python's `max` keeps the first maximum) |
| TrackSelection.ClusterWinners | backend/melody_detector.py:180-187 | at most `k` winners, each labelled with an id in `1..k`, in strictly increasing cluster-id order |
| TrackSelection.ClusterWinnersAreBest | backend/melody_detector.py:182-187 | every cluster id in `1..k` that labels some track has its argmax member among the winners |
| TrackSelection.SelectMelodyTracks | backend/melody_detector.py:155-190 | no qualifying track gives `[]`; exactly one gives that track without consulting the clustering; otherwise at most 3 tracks, all qualifying, including the best-scoring track of every cluster `1..min(3, n)` that has members |
| NoteEvents.Step | backend/melody_detector.py:206-228 | one message advances the clock by its delta; the closed notes only grow, by at most one, and only when the message ends a sounding pitch |
| NoteEvents.Scan | backend/melody_detector.py:203-228 | scanning a track from tick 0 ends at the sum of its deltas and closes at most one note per message |
| NoteEvents.TrackEvents | backend/melody_detector.py:201-228 | a track's closed notes are well formed and come out in order of end tick |
| NoteEvents.CollectEvents | backend/melody_detector.py:199-228 | the closed notes of all selected tracks, track after track, are each well formed |
| NoteEvents.StepConsistent | backend/melody_detector.py:206-228 | one message keeps the scan invariant: open notes started in the past with velocity > 0; closed notes are well formed and in order of end tick |
| NoteEvents.ScanConsistent | backend/melody_detector.py:203-228 | every extracted event has `start <= end`, `duration == end - start` and velocity > 0; a track's events come out in order of end tick |
| NoteEvents.UnmatchedNoteEndIsIgnored | backend/melody_detector.py:215 | a note end for a pitch that is not sounding emits nothing and leaves the open notes unchanged; only the clock advances |
| NoteEvents.NoteStartOverwrites | backend/melody_detector.py:209-214 | a note start records the new start and velocity for its pitch, overwriting any open note of that pitch; other pitches and the emitted list are unchanged |
| NoteEvents.MatchedNoteEndEmits | backend/melody_detector.py:215-228 | ending a sounding pitch emits exactly one event, from its recorded start to the current tick, and closes that pitch |
| NoteEvents.EventsNeverInvented | backend/melody_detector.py:206-228 | emitted events plus still-open notes never exceed the note starts; emitted events never exceed the note ends |
| NoteEvents.InsertByStart | backend/melody_detector.py:231 | inserting adds exactly one element: the length grows by one and the multiset gains `e` |
| NoteEvents.InsertByStartSorted | backend/melody_detector.py:231 | inserting into a list sorted by start keeps it sorted |
| NoteEvents.SortByStart | backend/melody_detector.py:231 | the result is a permutation of the input (same length, same multiset) and is sorted by start |
| NoteEvents.InsertByStartStable | backend/melody_detector.py:231 | the insertion keeps the relative order of events with equal start |
| NoteEvents.SortByStartStable | backend/melody_detector.py:231 | the sort is stable: for every start tick, the events with that start keep their input order |
| NoteEvents.ExtractNoteEvents | backend/melody_detector.py:192-231 | the loops return the stable sort of the selected tracks' events, track after track; the result is sorted and a permutation of them |
| TimeGrid.Slot | backend/melody_detector.py:255 | the slot is within half a resolution step of the start, and an exact half goes to an even slot |
| TimeGrid.SlotIsNearest | backend/melody_detector.py:255 | no slot is nearer to the start than the chosen one; when another slot is just as near (an exact half), the chosen one is even |
| TimeGrid.SlotMonotonic | backend/melody_detector.py:255 | quantisation keeps order: an earlier start never gets a later slot |
| TimeGrid.InSlot | backend/melody_detector.py:253-258 | a bucket is no longer than the event list, and each of its events starts in its slot |
| TimeGrid.TimeGridOf | backend/melody_detector.py:251-258 | the slot of every event has a bucket, and each bucket holds only events of its slot |
| TimeGrid.InSlotMembers | backend/melody_detector.py:253-258 | a bucket holds exactly the events whose start rounds to its slot |
| TimeGrid.TimeGridKeys | backend/melody_detector.py:251-258 | a slot is a grid key exactly when the events rounding to it form a non-empty bucket |
| TimeGrid.TimeGridSnoc | backend/melody_detector.py:253-258 | adding one event appends it to its slot's bucket and leaves every other bucket unchanged |
| TimeGrid.TimeGridConsistent | backend/melody_detector.py:251-258 | every bucket is non-empty and holds only events of its slot |
| TimeGrid.TimeGridSize | backend/melody_detector.py:251-258 | there are no more grid slots than events |
| TimeGrid.CreateTimeGrid | backend/melody_detector.py:244-260 | an empty event list gives an empty grid; otherwise the loop builds exactly the bucketed grid, each bucket in input order |
| Reducer.SortedKeys | backend/melody_detector.py:279 | the slots in strictly ascending order, each exactly once |
| Reducer.Salience | backend/melody_detector.py:292 | the salience is ten times the source's `0.7 * pitch + 0.3 * velocity` in exact arithmetic |
| Reducer.MostSalient | backend/melody_detector.py:292-303 | an index of greatest salience, with every earlier note strictly less salient (the first maximum) |
| Reducer.SalienceTieKeepsFirst | backend/melody_detector.py:292 | on an exact tie of salience (pitch 36 at velocity 114, then pitch 39 at velocity 107) the model keeps the first note; on this pair the source's float key picks the second |
| Reducer.Overrides | backend/melody_detector.py:295 | the candidate wins exactly when it is more than 3 semitones higher or its velocity exceeds 1.2 times the current one |
| Reducer.ReduceStep | backend/melody_detector.py:280-308 | one slot keeps this guarantee: whenever a note is sounding the melody is non-empty, so `melody[-1]` is defined |
| Reducer.OverlapOverrideRule | backend/melody_detector.py:287-298 | in the overlap branch the melody keeps its length and prefix; a candidate more than 3 semitones higher or more than 20% louder replaces the last note and its end becomes the sounding end; any other candidate changes nothing |
| Reducer.NoOverlapAppends | backend/melody_detector.py:299-308 | outside the overlap branch the slot's most salient note (its only note, when alone) is appended and becomes the sounding note |
| Reducer.ReduceKeysNonEmpty | backend/melody_detector.py:279-308 | once a visited slot has notes, the melody is non-empty |
| Reducer.ReduceKeys | backend/melody_detector.py:279-308 | after any prefix of the slots, whenever a note is sounding the melody is non-empty |
| Reducer.Melody | backend/melody_detector.py:262-310 | the melody has at most one note per grid slot |
| Reducer.ReduceKeysLength | backend/melody_detector.py:279-308 | each slot adds at most one note |
| Reducer.ReduceKeysFromGrid | backend/melody_detector.py:279-308 | every melody note comes from the bucket of a visited slot |
| Reducer.ReduceKeysChronological | backend/melody_detector.py:279-308 | visiting slots in ascending order gives a melody whose slots strictly increase |
| Reducer.MelodyDrawnFromEvents | backend/melody_detector.py:262-310 | the melody uses only input notes, at most one per grid slot |
| Reducer.MelodyNonEmpty | backend/melody_detector.py:244-310 | a non-empty event list always gives a non-empty melody |
| Reducer.MelodyChronological | backend/melody_detector.py:262-310 | melody notes have strictly increasing start ticks |
| Reducer.OverlapExample | backend/melody_detector.py:287-298 | at 480 ticks per beat, pitch 60 (0-480, velocity 100) and pitch 67 (240-720, velocity 110) reduce to the 67 alone |
| Reducer.BuildMonophonicMelody | backend/melody_detector.py:262-310 | the loop over sorted slots returns exactly the specified melody; an empty grid gives `[]` |
| Bells.Closest | backend/melody_detector.py:321 | an allowed class at the least circular distance, with every earlier class strictly farther (Python's `min` keeps the first) |
| Bells.MapToNearestBell | backend/melody_detector.py:312-322 | pitch class 0 gives Do, pitch class 7 or more gives Sol, and classes 1-6 give the nearest bell by circular distance, ties to the lower class |
| Bells.NearestBellUnique | backend/melody_detector.py:321 | the nearest-bell rule with its tie-break picks at most one bell |
| Bells.BellTable | backend/melody_detector.py:312-322 | the full table: classes 0-1 give Do, 2-3 Ré, 4 Mi, 5-6 Fa, 7-11 Sol |
| Sequencer.TicksToMs | backend/melody_detector.py:351-352 | the result is the truncated exact number of milliseconds: `ms * tpq * 1000 <= ticks * tempo < (ms + 1) * tpq * 1000` |
| Sequencer.TicksToMsMonotonic | backend/melody_detector.py:351-352 | a later tick never converts to an earlier millisecond |
| Sequencer.QuarterNoteMs | backend/melody_detector.py:351-352 | `tpq` ticks, one quarter note, last the tempo in whole milliseconds |
| Sequencer.DelayAt | backend/melody_detector.py:369-373 | the first delay is the first note's start; a later delay is at least 250 ms, never lets the strike fall before the note's start measured from the previous end, and equals that distance unless the 250 ms floor applies |
| Sequencer.AbsoluteTimes | backend/melody_detector.py:348-362 | the first loop places every melody note in milliseconds, with its bell and a duration floored at 300 ms |
| Sequencer.RelativeDelays | backend/melody_detector.py:365-382 | the second loop, carrying the previous note's end, gives each strike's delay |
| Sequencer.CreateBellSequence | backend/melody_detector.py:324-384 | an empty melody gives `[]`; otherwise the result is exactly the two-pass bell sequence |
| Sequencer.BellSequence | backend/melody_detector.py:324-384 | one strike per note, on the note's nearest bell, each ringing ≥ 300 ms; the first waits for the first note's start, every later one ≥ 250 ms |
| Sequencer.StrikeTime | backend/melody_detector.py:400-414 | with non-negative delays, a strike sounds no earlier than its own delay after the start of playback |
| Sequencer.ScheduleNeverEarly | backend/melody_detector.py:365-382 | played back event by event, no bell sounds before its note's time; at least 250 ms pass between a ring's end and the next strike; a note that far from the previous scheduled end sounds exactly on time (the source can be 1 ms later, see below) |
| Sequencer.StrikesInOrder | backend/melody_detector.py:365-382 | every strike comes after all earlier strikes' rings plus the 250 ms gap |
| MelodyDetector.ExtractSpec | backend/melody_detector.py:48-87 | extraction fails exactly when ticks per beat is zero and the selected tracks close at least one note |
| MelodyDetector.Extract | backend/melody_detector.py:48-87 | the stages chained: the specified result, including the empty result when no track or no note is found and the failure for zero ticks per beat |
| MelodyDetector.NoMelodicTrackGivesEmpty | backend/melody_detector.py:63-66 | a file whose every track is percussion or has no notes gives an empty sequence, not an error |
| MelodyDetector.SingleTrackIgnoresClustering | backend/melody_detector.py:158-160 | with exactly one qualifying track the result does not depend on the clustering |
| MelodyDetector.NotesGiveStrikes | backend/melody_detector.py:70-87 | when the selected tracks close a note and ticks per beat is positive, extraction succeeds with at least one strike |
| MelodyDetector.MelodySequenceShape | backend/melody_detector.py:76-83 | the sequence of the melody of any sorted note list has at most one strike per note, each on the nearest bell of a note's pitch |
| MelodyDetector.ExtractedSequenceShape | backend/melody_detector.py:48-87 | a successful result has at most one strike per note of the selected tracks, each on the nearest bell of such a note's pitch; rings ≥ 300 ms; gaps ≥ 250 ms after the first strike |
| MelodyDetector.OverlapScenario | backend/melody_detector.py:48-87 | the two overlapping notes above, at 480 ticks per beat and default tempo, extract to one Sol strike at 250 ms lasting 500 ms |

## Left out

- `play_sequence` (lines 386-417) sleeps and plays audio, which is I/O. `Sequencer.StrikeTime` gives only its timing arithmetic, and takes every bell's sample as loaded (a missing sample waits 0.3 s instead of the duration).
- Loading bell samples in the constructor, and all logging, are I/O.
- Ward clustering (`linkage`, `fcluster`) and the floating-point features behind it are not modelled: average pitch, pitch range, note density, pitch-class histograms and the melodic score. Labels and scores are inputs, one per qualifying track.
- `max(...)` of the end ticks (line 248) is computed but never used, so it is not modelled.
- mido's parsing of files into messages is not modelled. Messages are grouped into the kinds the extractor tells apart: note_on, note_off, other channel messages, set_tempo, channel_prefix (a meta message with a `channel` attribute), and all other meta and system messages, which have no channel.
- `backend/server.py` is not part of this model.
- `Sequencer.TicksToMs`: `tick2second` is floating point, and `int(... * 1000)` of a float can land 1 ms below the exact truncated quotient the model uses. Example: tick 84 at 96 ticks per beat and tempo 600000 gives 0.5249999999999999 s, so 524 ms, where the exact value is 525 ms.
- `Sequencer.RelativeDelays`: the source computes the previous end as `start_ms + int(duration_sec * 1000)` after a float round trip of the duration, which can lose 1 ms. The model keeps durations as exact integer milliseconds. The output duration is in milliseconds, not seconds.
- `TimeGrid.Slot`: the source's keys are floats `round(start / (tpq / 8)) * (tpq / 8)`. The model uses the exact slot index. `tpq / 8` is exact in binary floating point for every `tpq`, so `start / (tpq / 8)` is the correctly rounded value of `8 * start / tpq`. Its `round` equals the exact half-to-even slot, and `k * (tpq / 8)` is exact, unless `8 * start` or `k * tpq` approaches 2^52, far beyond any real file.
- `Reducer.MostSalient`: on an exact tie of `7p + 3v` the source's float key `0.7p + 0.3v` can differ by rounding, so Python's `max` may pick the later note. Example: pitch 36 at velocity 114, then pitch 39 at velocity 107. Both have exact salience 594, but the float keys are 59.39999999999999 and 59.4. The source picks pitch 39 (Ré); the model keeps pitch 36 (Do). Notes whose exact saliences differ are ordered the same way by both.
- `Reducer.SalienceTieKeepsFirst`: shows the model's first-note tie-break on one exact tie. On this pair the source's float keys are 59.39999999999999 and 59.4, so the source picks pitch 39.
- `Sequencer.ScheduleNeverEarly`: the "exactly on time" clause holds for the model's integer durations. In the source, the float round trip at line 382 can leave the previous end 1 ms short. Example: a note from 0 to 1001 ms, then a note at 1251 ms. `int(1.001 * 1000)` is 1000, so the source waits 251 ms and strikes at 1252 ms, where the model waits 250 ms and strikes at 1251 ms.
