/**
 * The extractor's entry point: tempo, track selection, note extraction,
 * quantisation, monophonic reduction and bell sequencing, chained.  The
 * clustering of the selected tracks is an input: `labels[i]` and `scores[i]`
 * are the cluster label and the melodic score of the i-th qualifying track.
 */
module MelodyDetector {
  import opened Midi
  import opened Tempo
  import opened TrackSelection
  import opened NoteEvents
  import opened TimeGrid
  import opened Reducer
  import opened Bells
  import opened Sequencer

  /** The one way extraction fails: notes to quantise on a zero-resolution grid. */
  datatype ExtractError = ZeroTicksPerBeat

  datatype Result<T> = Success(value: T) | Failure(error: ExtractError)

  /** The clustering supplies one label and one score per qualifying track. */
  predicate ClusteringFits(midi: MidiFile, labels: seq<int>, scores: seq<int>) {
    |labels| == |QualifyingIndices(midi.tracks)| && |scores| == |labels|
  }

  /** The notes of the selected tracks, sorted by start tick. */
  function SelectedEvents(midi: MidiFile, labels: seq<int>, scores: seq<int>): seq<NoteEvent>
    requires ClusteringFits(midi, labels, scores)
  {
    SortByStart(CollectEvents(midi.tracks, SelectMelodyTracks(midi.tracks, labels, scores)))
  }

  /**
   * What extraction yields for a file.  It fails exactly when the file's
   * resolution is zero and the selected tracks close at least one note.
   */
  function ExtractSpec(midi: MidiFile, labels: seq<int>, scores: seq<int>): (r: Result<seq<BellEvent>>)
    requires ClusteringFits(midi, labels, scores)
    ensures r.Failure? <==>
              midi.ticksPerBeat == 0 && CollectEvents(midi.tracks, SelectMelodyTracks(midi.tracks, labels, scores)) != []
  {
    var tempo := GetTempo(midi.tracks);
    var tpq := midi.ticksPerBeat;
    if SelectMelodyTracks(midi.tracks, labels, scores) == [] then Success([])
    else
      var events := SelectedEvents(midi, labels, scores);
      if events == [] then Success([])
      else if tpq == 0 then Failure(ZeroTicksPerBeat)
      else Success(BellSequence(Melody(TimeGridOf(events, tpq), tpq), tpq, tempo))
  }

  method Extract(midi: MidiFile, labels: seq<int>, scores: seq<int>) returns (result: Result<seq<BellEvent>>)
    requires ClusteringFits(midi, labels, scores)
    ensures result == ExtractSpec(midi, labels, scores)
  {
    var tempo := GetTempo(midi.tracks);
    var tpq := midi.ticksPerBeat;
    var bestTracks := SelectMelodyTracks(midi.tracks, labels, scores);
    if bestTracks == [] {
      return Success([]);
    }
    var allEvents := ExtractNoteEvents(midi, bestTracks);
    if allEvents == [] {
      return Success([]);
    }
    if tpq == 0 {
      return Failure(ZeroTicksPerBeat);
    }
    var grid := CreateTimeGrid(allEvents, tpq);
    var melody := BuildMonophonicMelody(grid, tpq);
    var sequence := CreateBellSequence(melody, tpq, tempo);
    return Success(sequence);
  }

  // ---------------------------------------------------------------------------
  // End-to-end properties

  /** A file none of whose tracks has notes off the percussion channel yields an empty sequence, not an error. */
  lemma NoMelodicTrackGivesEmpty(midi: MidiFile, labels: seq<int>, scores: seq<int>)
    requires ClusteringFits(midi, labels, scores)
    requires forall t :: 0 <= t < |midi.tracks| ==> IsPercussion(midi.tracks[t]) || !HasNotes(midi.tracks[t])
    ensures ExtractSpec(midi, labels, scores) == Success([])
  {
  }

  /** With exactly one qualifying track the clustering is never consulted. */
  lemma SingleTrackIgnoresClustering(midi: MidiFile, labels: seq<int>, scores: seq<int>,
                                     labels': seq<int>, scores': seq<int>)
    requires ClusteringFits(midi, labels, scores) && ClusteringFits(midi, labels', scores')
    requires |QualifyingIndices(midi.tracks)| == 1
    ensures ExtractSpec(midi, labels, scores) == ExtractSpec(midi, labels', scores')
  {
  }

  /**
   * The bell sequence of the melody of a sorted copy of `events` strikes at
   * most one bell per event, each the nearest bell of an event's pitch.
   */
  lemma MelodySequenceShape(events: seq<NoteEvent>, sorted: seq<NoteEvent>, tpq: nat, tempo: nat)
    requires tpq > 0 && multiset(sorted) == multiset(events)
    ensures var out := BellSequence(Melody(TimeGridOf(sorted, tpq), tpq), tpq, tempo);
            && |out| <= |events|
            && forall i :: 0 <= i < |out| ==> exists x :: x in events && out[i].note == MapToNearestBell(x.pitch)
  {
    var m := Melody(TimeGridOf(sorted, tpq), tpq);
    var out := BellSequence(m, tpq, tempo);
    MelodyDrawnFromEvents(sorted, tpq);
    TimeGridSize(sorted, tpq);
    assert |sorted| == |multiset(sorted)| == |events|;
    forall i | 0 <= i < |out|
      ensures exists x :: x in events && out[i].note == MapToNearestBell(x.pitch)
    {
      assert m[i] in sorted;
      assert m[i] in multiset(events);
    }
  }

  /** When the selected tracks close a note and the resolution is positive, at least one bell is struck. */
  lemma NotesGiveStrikes(midi: MidiFile, labels: seq<int>, scores: seq<int>)
    requires ClusteringFits(midi, labels, scores) && midi.ticksPerBeat > 0
    requires CollectEvents(midi.tracks, SelectMelodyTracks(midi.tracks, labels, scores)) != []
    ensures ExtractSpec(midi, labels, scores).Success? && ExtractSpec(midi, labels, scores).value != []
  {
    var sorted := SelectedEvents(midi, labels, scores);
    assert sorted != [];
    MelodyNonEmpty(sorted, midi.ticksPerBeat);
  }

  /** A successful non-empty result is the bell sequence of the melody of the selected notes. */
  lemma ExtractSpecUnfolded(midi: MidiFile, labels: seq<int>, scores: seq<int>)
    requires ClusteringFits(midi, labels, scores) && ExtractSpec(midi, labels, scores).Success?
    ensures var out := ExtractSpec(midi, labels, scores).value;
            out == [] ||
            (midi.ticksPerBeat > 0 &&
             out == BellSequence(Melody(TimeGridOf(SelectedEvents(midi, labels, scores), midi.ticksPerBeat),
                                        midi.ticksPerBeat), midi.ticksPerBeat, GetTempo(midi.tracks)))
  {
  }

  /**
   * A successful extraction strikes at most one bell per note of the
   * selected tracks, each the nearest bell of such a note's pitch, rings
   * every bell at least 300 ms and leaves at least 250 ms between strikes.
   */
  lemma ExtractedSequenceShape(midi: MidiFile, labels: seq<int>, scores: seq<int>)
    requires ClusteringFits(midi, labels, scores) && ExtractSpec(midi, labels, scores).Success?
    ensures var out := ExtractSpec(midi, labels, scores).value;
            var events := CollectEvents(midi.tracks, SelectMelodyTracks(midi.tracks, labels, scores));
            && |out| <= |events|
            && (forall i :: 0 <= i < |out| ==>
                  out[i].durationMs >= MinDurationMs &&
                  exists x :: x in events && out[i].note == MapToNearestBell(x.pitch))
            && (forall i :: 0 < i < |out| ==> out[i].delayMs >= MinGapMs)
  {
    ExtractSpecUnfolded(midi, labels, scores);
    var out := ExtractSpec(midi, labels, scores).value;
    if out != [] {
      var events := CollectEvents(midi.tracks, SelectMelodyTracks(midi.tracks, labels, scores));
      MelodySequenceShape(events, SelectedEvents(midi, labels, scores), midi.ticksPerBeat, GetTempo(midi.tracks));
    }
  }

  // ---------------------------------------------------------------------------
  // The two-note scenario, end to end

  /** Pitch 60 from tick 0 to 480 at velocity 100, pitch 67 from 240 to 720 at velocity 110. */
  const OverlapTrack: Track :=
    [NoteOn(0, 60, 100, 0), NoteOn(0, 67, 110, 240), NoteOff(0, 60, 0, 240), NoteOff(0, 67, 0, 240)]

  lemma OverlapTrackEvents()
    ensures TrackEvents(OverlapTrack) ==
            [NoteEvent(60, 0, 480, 480, 100), NoteEvent(67, 240, 720, 480, 110)]
  {
    ScanOfFour(OverlapTrack);
    OverlapSteps();
  }

  lemma OverlapSteps()
    ensures var s2 := Step(Step(Initial, NoteOn(0, 60, 100, 0)), NoteOn(0, 67, 110, 240));
            Step(Step(s2, NoteOff(0, 60, 0, 240)), NoteOff(0, 67, 0, 240)).emitted ==
            [NoteEvent(60, 0, 480, 480, 100), NoteEvent(67, 240, 720, 480, 110)]
  {
    var s2 := Step(Step(Initial, NoteOn(0, 60, 100, 0)), NoteOn(0, 67, 110, 240));
    OverlapFirstStep();
    OverlapSecondStep();
    OverlapLateSteps(s2);
  }

  lemma OverlapFirstStep()
    ensures Step(Initial, NoteOn(0, 60, 100, 0)) == ScanState(0, map[60 := OpenNote(0, 100)], [])
  {
  }

  lemma OverlapSecondStep()
    ensures var s2 := Step(ScanState(0, map[60 := OpenNote(0, 100)], []), NoteOn(0, 67, 110, 240));
            && s2.absTime == 240 && s2.emitted == []
            && 60 in s2.active && s2.active[60] == OpenNote(0, 100)
            && 67 in s2.active && s2.active[67] == OpenNote(240, 110)
  {
  }

  lemma OverlapLateSteps(s2: ScanState)
    requires s2.absTime == 240 && s2.emitted == []
    requires 60 in s2.active && s2.active[60] == OpenNote(0, 100)
    requires 67 in s2.active && s2.active[67] == OpenNote(240, 110)
    ensures Step(Step(s2, NoteOff(0, 60, 0, 240)), NoteOff(0, 67, 0, 240)).emitted ==
            [NoteEvent(60, 0, 480, 480, 100), NoteEvent(67, 240, 720, 480, 110)]
  {
    var s3 := Step(s2, NoteOff(0, 60, 0, 240));
    assert 67 in s3.active && s3.active[67] == OpenNote(240, 110);
  }

  /** The scan of a four-message track, step by step. */
  lemma ScanOfFour(t: Track)
    requires |t| == 4
    ensures Scan(t) == Step(Step(Step(Step(Initial, t[0]), t[1]), t[2]), t[3])
  {
    assert t[..1][..0] == [];
    assert Scan(t[..1]) == Step(Initial, t[0]);
    assert t[..2][..1] == t[..1];
    assert Scan(t[..2]) == Step(Scan(t[..1]), t[1]);
    assert t[..3][..2] == t[..2];
    assert Scan(t[..3]) == Step(Scan(t[..2]), t[2]);
    assert t[..3] == t[..|t| - 1];
  }

  lemma OverlapTrackSelected(labels: seq<int>, scores: seq<int>)
    requires ClusteringFits(MidiFile([OverlapTrack], 480), labels, scores)
    ensures SelectMelodyTracks([OverlapTrack], labels, scores) == [0]
  {
    var tracks := [OverlapTrack];
    assert IsNoteStart(OverlapTrack[0]);
    assert Qualifies(tracks[0]);
    assert tracks[..0] == [];
    assert QualifyingIndices(tracks) == [] + [0];
  }

  lemma OverlapTempo()
    ensures GetTempo([OverlapTrack]) == DefaultTempo
  {
    assert NoTempoIn([OverlapTrack][0]);
  }

  lemma OverlapCollected()
    ensures CollectEvents([OverlapTrack], [0]) ==
            [NoteEvent(60, 0, 480, 480, 100), NoteEvent(67, 240, 720, 480, 110)]
  {
    OverlapTrackEvents();
    var none: seq<nat> := [];
    var first: seq<nat> := [0];
    assert first[..0] == none;
  }

  lemma OverlapSelectedEvents(labels: seq<int>, scores: seq<int>)
    requires ClusteringFits(MidiFile([OverlapTrack], 480), labels, scores)
    ensures SelectedEvents(MidiFile([OverlapTrack], 480), labels, scores) ==
            [NoteEvent(60, 0, 480, 480, 100), NoteEvent(67, 240, 720, 480, 110)]
  {
    var low, high := NoteEvent(60, 0, 480, 480, 100), NoteEvent(67, 240, 720, 480, 110);
    OverlapTrackSelected(labels, scores);
    OverlapCollected();
    OverlapSorted();
  }

  lemma OverlapSorted()
    ensures var low, high := NoteEvent(60, 0, 480, 480, 100), NoteEvent(67, 240, 720, 480, 110);
            SortByStart([low, high]) == [low, high]
  {
    var low, high := NoteEvent(60, 0, 480, 480, 100), NoteEvent(67, 240, 720, 480, 110);
    assert [low, high][..1] == [low];
    assert SortByStart([low]) == [low];
  }

  lemma OverlapBells()
    ensures BellSequence([NoteEvent(67, 240, 720, 480, 110)], 480, DefaultTempo) == [BellEvent(Sol, 250, 500)]
  {
    var high := NoteEvent(67, 240, 720, 480, 110);
    assert TicksToMs(240, 480, DefaultTempo) == 250;
    assert TicksToMs(720, 480, DefaultTempo) == 750;
    assert 67 % 12 == 7;
    var timed := TimedNotes([high], 480, DefaultTempo);
    assert timed == [TimedNote(67, Sol, 250, 500)];
  }

  /**
   * Two overlapping notes, pitch 60 (ticks 0-480, velocity 100) and pitch 67
   * (ticks 240-720, velocity 110), at 480 ticks per quarter note and the
   * default tempo: the 67 is kept alone and rings the Sol bell from 250 ms
   * for 500 ms.
   */
  lemma OverlapScenario(labels: seq<int>, scores: seq<int>)
    requires ClusteringFits(MidiFile([OverlapTrack], 480), labels, scores)
    ensures ExtractSpec(MidiFile([OverlapTrack], 480), labels, scores) == Success([BellEvent(Sol, 250, 500)])
  {
    var low, high := NoteEvent(60, 0, 480, 480, 100), NoteEvent(67, 240, 720, 480, 110);
    OverlapTrackSelected(labels, scores);
    OverlapTempo();
    OverlapSelectedEvents(labels, scores);
    OverlapExample(low, high);
    OverlapBells();
  }
}
