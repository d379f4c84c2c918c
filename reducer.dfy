/**
 * Monophonic reduction: a greedy left-to-right pass over the grid slots that
 * keeps at most one note per slot, and lets a note that starts while the
 * previous one is still sounding replace it only if it is clearly better.
 */
module Reducer {
  import opened Midi
  import opened NoteEvents
  import opened TimeGrid

  // ---------------------------------------------------------------------------
  // Walking the grid slots in ascending order (`sorted(grid.keys())`)

  predicate IsLeast(m: nat, s: set<nat>) {
    m in s && forall x :: x in s ==> m <= x
  }

  lemma {:induction false} HasMinimum(s: set<nat>)
    requires s != {}
    ensures exists m :: IsLeast(m, s)
    decreases |s|
  {
    var y :| y in s;
    var rest := s - {y};
    if rest == {} {
      assert s == rest + {y};
      assert IsLeast(y, s);
    } else {
      HasMinimum(rest);
      var m :| IsLeast(m, rest);
      var least := if y < m then y else m;
      forall x | x in s
        ensures least <= x
      {
        if x != y {
          assert x in rest;
        }
      }
      assert IsLeast(least, s);
    }
  }

  function SetMin(s: set<nat>): (m: nat)
    requires s != {}
    ensures IsLeast(m, s)
  {
    HasMinimum(s);
    var m :| IsLeast(m, s);
    m
  }

  /** The elements of `s` in ascending order. */
  function SortedKeys(s: set<nat>): (ks: seq<nat>)
    ensures StrictlyIncreasing(ks)
    ensures forall x :: x in s <==> x in ks
    ensures |ks| == |s|
    decreases |s|
  {
    if s == {} then []
    else
      var m := SetMin(s);
      [m] + SortedKeys(s - {m})
  }

  // ---------------------------------------------------------------------------
  // One slot of the pass

  /** Ten times the source's key `0.7p + 0.3v`, taken in exact arithmetic. */
  function Salience(n: NoteEvent): (s: int)
    ensures s as real == 10.0 * (0.7 * n.pitch as real + 0.3 * n.velocity as real)
  {
    7 * n.pitch + 3 * n.velocity
  }

  /** The first most salient note (Python's `max` keeps the first maximum). */
  function MostSalient(notes: seq<NoteEvent>): (i: nat)
    requires notes != []
    ensures i < |notes|
    ensures forall j :: 0 <= j < |notes| ==> Salience(notes[j]) <= Salience(notes[i])
    ensures forall j :: 0 <= j < i ==> Salience(notes[j]) < Salience(notes[i])
  {
    if |notes| == 1 then 0
    else
      var b := MostSalient(notes[..|notes| - 1]);
      if Salience(notes[|notes| - 1]) > Salience(notes[b]) then |notes| - 1 else b
  }

  /**
   * On an exact tie of the salience the first note is kept: C2 at velocity
   * 114 and D#2 at velocity 107 both have salience 594.
   */
  lemma SalienceTieKeepsFirst(first: NoteEvent, second: NoteEvent)
    requires first.pitch == 36 && first.velocity == 114
    requires second.pitch == 39 && second.velocity == 107
    ensures Salience(first) == Salience(second) == 594
    ensures MostSalient([first, second]) == 0
  {
    assert [first, second][..1] == [first];
  }

  /** Semitones by which a candidate must exceed the sounding note. */
  const PitchMargin: nat := 3

  /**
   * The candidate is clearly better than the sounding note: more than three
   * semitones higher, or louder by more than 20%, in exact arithmetic.
   */
  predicate Overrides(candidate: NoteEvent, current: NoteEvent): (b: bool)
    ensures b <==> candidate.pitch > current.pitch + PitchMargin
                   || candidate.velocity as real > 1.2 * current.velocity as real
  {
    candidate.pitch > current.pitch + PitchMargin || 5 * candidate.velocity > 6 * current.velocity
  }

  /** The melody so far and the end tick of its sounding note. */
  datatype Reduction = Reduction(melody: seq<NoteEvent>, lastNoteEnd: nat)

  /** Whenever a note is recorded as sounding there is a last melody entry to compare with. */
  predicate Safe(r: Reduction) {
    r.lastNoteEnd > 0 ==> r.melody != []
  }

  /** Slot `k`, at `k * tpq / 8` ticks, lies strictly before tick `t`. */
  predicate Before(k: nat, tpq: nat, t: nat) {
    k * tpq < SlotsPerBeat * t
  }

  /** Slots are never before tick 0, so the overlap branch needs a sounding note. */
  lemma BeforeMeansSounding(k: nat, tpq: nat, t: nat)
    requires Before(k, tpq, t)
    ensures t > 0
  {
    assert k * tpq >= 0;
  }

  /**
   * One slot.  The overlap branch reads `melody[-1]`; it is only taken when a
   * note is sounding, so the access is always defined.
   */
  function ReduceStep(r: Reduction, k: nat, notes: seq<NoteEvent>, tpq: nat): (r': Reduction)
    requires Safe(r)
    ensures Safe(r')
  {
    if notes == [] then r
    else if Before(k, tpq, r.lastNoteEnd) then
      var current := r.melody[|r.melody| - 1];
      var candidate := notes[MostSalient(notes)];
      if Overrides(candidate, current) then
        Reduction(r.melody[..|r.melody| - 1] + [candidate], candidate.end)
      else r
    else
      var best := if |notes| > 1 then notes[MostSalient(notes)] else notes[0];
      Reduction(r.melody + [best], best.end)
  }

  predicate KeysIn(grid: Grid, ks: seq<nat>) {
    forall j :: 0 <= j < |ks| ==> ks[j] in grid
  }

  /** The pass over the slots `ks`, in that order, from an empty melody. */
  function ReduceKeys(grid: Grid, ks: seq<nat>, tpq: nat): (r: Reduction)
    requires KeysIn(grid, ks)
    ensures Safe(r)
  {
    if ks == [] then Reduction([], 0)
    else ReduceStep(ReduceKeys(grid, ks[..|ks| - 1], tpq), ks[|ks| - 1], grid[ks[|ks| - 1]], tpq)
  }

  /**
   * The monophonic melody of a grid: the pass over its slots in ascending
   * order, with at most one note per slot.
   */
  function Melody(grid: Grid, tpq: nat): (m: seq<NoteEvent>)
    ensures |m| <= |grid.Keys|
  {
    ReduceKeysLength(grid, SortedKeys(grid.Keys), tpq);
    ReduceKeys(grid, SortedKeys(grid.Keys), tpq).melody
  }

  lemma ReduceKeysPrefix(grid: Grid, ks: seq<nat>, i: nat, tpq: nat)
    requires KeysIn(grid, ks) && i < |ks|
    ensures KeysIn(grid, ks[..i]) && KeysIn(grid, ks[..i + 1])
    ensures ReduceKeys(grid, ks[..i + 1], tpq) ==
            ReduceStep(ReduceKeys(grid, ks[..i], tpq), ks[i], grid[ks[i]], tpq)
  {
    assert ks[..i + 1][..i] == ks[..i];
  }

  // ---------------------------------------------------------------------------
  // What the pass guarantees

  /**
   * In the overlap branch the melody keeps its length and only its last
   * entry may change: a candidate that overrides the sounding note replaces
   * it and its end becomes the sounding end; any other candidate leaves the
   * melody and the sounding note's end as they were.
   */
  lemma OverlapOverrideRule(r: Reduction, k: nat, notes: seq<NoteEvent>, tpq: nat)
    requires Safe(r) && notes != [] && Before(k, tpq, r.lastNoteEnd)
    ensures r.melody != []
    ensures var r' := ReduceStep(r, k, notes, tpq);
            var candidate := notes[MostSalient(notes)];
            var current := r.melody[|r.melody| - 1];
            && |r'.melody| == |r.melody|
            && r'.melody[..|r.melody| - 1] == r.melody[..|r.melody| - 1]
            && (Overrides(candidate, current) ==>
                  r'.melody == r.melody[..|r.melody| - 1] + [candidate] && r'.lastNoteEnd == candidate.end)
            && (!Overrides(candidate, current) ==> r' == r)
  {
    BeforeMeansSounding(k, tpq, r.lastNoteEnd);
    var r' := ReduceStep(r, k, notes, tpq);
    assert r'.melody[..|r.melody| - 1] == r.melody[..|r.melody| - 1];
  }

  /**
   * Outside the overlap branch the most salient note of the slot (the only
   * one, when there is one) is appended and becomes the sounding note.
   */
  lemma NoOverlapAppends(r: Reduction, k: nat, notes: seq<NoteEvent>, tpq: nat)
    requires Safe(r) && notes != [] && !Before(k, tpq, r.lastNoteEnd)
    ensures var best := notes[MostSalient(notes)];
            ReduceStep(r, k, notes, tpq) == Reduction(r.melody + [best], best.end)
  {
  }

  /** Once some visited slot has notes, the melody is non-empty. */
  lemma {:induction false} ReduceKeysNonEmpty(grid: Grid, ks: seq<nat>, tpq: nat, j: nat)
    requires KeysIn(grid, ks) && j < |ks| && grid[ks[j]] != []
    ensures ReduceKeys(grid, ks, tpq).melody != []
  {
    var init, last := ks[..|ks| - 1], ks[|ks| - 1];
    var r := ReduceKeys(grid, init, tpq);
    if grid[last] != [] {
      if Before(last, tpq, r.lastNoteEnd) {
        OverlapOverrideRule(r, last, grid[last], tpq);
      }
    } else {
      assert init[j] == ks[j];
      ReduceKeysNonEmpty(grid, init, tpq, j);
    }
  }

  /** Each slot contributes at most one entry, so the melody is no longer than the number of slots. */
  lemma {:induction false} ReduceKeysLength(grid: Grid, ks: seq<nat>, tpq: nat)
    requires KeysIn(grid, ks)
    ensures |ReduceKeys(grid, ks, tpq).melody| <= |ks|
  {
    if ks != [] {
      ReduceKeysLength(grid, ks[..|ks| - 1], tpq);
    }
  }

  /** Every melody entry is a note of a bucket the pass has visited. */
  lemma {:induction false} ReduceKeysFromGrid(grid: Grid, ks: seq<nat>, tpq: nat)
    requires KeysIn(grid, ks)
    ensures forall x :: x in ReduceKeys(grid, ks, tpq).melody ==>
              exists j :: 0 <= j < |ks| && x in grid[ks[j]]
  {
    if ks != [] {
      var init := ks[..|ks| - 1];
      ReduceKeysFromGrid(grid, init, tpq);
      var r := ReduceKeys(grid, init, tpq);
      var r' := ReduceKeys(grid, ks, tpq);
      forall x | x in r'.melody
        ensures exists j :: 0 <= j < |ks| && x in grid[ks[j]]
      {
        if x in r.melody {
          var j :| 0 <= j < |init| && x in grid[init[j]];
          assert ks[j] == init[j];
        } else {
          var notes := grid[ks[|ks| - 1]];
          assert x in notes;
        }
      }
    }
  }

  /** The slots of the melody's entries strictly increase. */
  predicate SlotsIncreasing(m: seq<NoteEvent>, tpq: nat)
    requires tpq > 0
  {
    forall i, j :: 0 <= i < j < |m| ==> Slot(m[i].start, tpq) < Slot(m[j].start, tpq)
  }

  lemma ReduceStepChronological(r: Reduction, k: nat, notes: seq<NoteEvent>, tpq: nat)
    requires tpq > 0 && Safe(r) && notes != []
    requires forall e :: e in notes ==> Slot(e.start, tpq) == k
    requires SlotsIncreasing(r.melody, tpq)
    requires forall i :: 0 <= i < |r.melody| ==> Slot(r.melody[i].start, tpq) < k
    ensures var m' := ReduceStep(r, k, notes, tpq).melody;
            && SlotsIncreasing(m', tpq)
            && forall i :: 0 <= i < |m'| ==> m'[i] in r.melody || Slot(m'[i].start, tpq) == k
  {
    var m := r.melody;
    var m' := ReduceStep(r, k, notes, tpq).melody;
    if Before(k, tpq, r.lastNoteEnd) {
      BeforeMeansSounding(k, tpq, r.lastNoteEnd);
      assert notes[MostSalient(notes)] in notes;
    } else if |notes| > 1 {
      assert notes[MostSalient(notes)] in notes;
    } else {
      assert notes[0] in notes;
    }
    assert forall i :: 0 <= i < |m'| - 1 ==> m'[i] == m[i];
  }

  /**
   * Over a grid built by the quantiser, melody entries come from strictly
   * increasing slots, and every entry's slot is one the pass visited.
   */
  lemma {:induction false} ReduceKeysChronological(grid: Grid, ks: seq<nat>, tpq: nat)
    requires tpq > 0 && BucketsConsistent(grid, tpq)
    requires KeysIn(grid, ks) && StrictlyIncreasing(ks)
    ensures var m := ReduceKeys(grid, ks, tpq).melody;
            && SlotsIncreasing(m, tpq)
            && forall i :: 0 <= i < |m| ==> Slot(m[i].start, tpq) in ks
  {
    if ks != [] {
      var init, k := ks[..|ks| - 1], ks[|ks| - 1];
      ReduceKeysChronological(grid, init, tpq);
      var r := ReduceKeys(grid, init, tpq);
      forall i | 0 <= i < |r.melody|
        ensures Slot(r.melody[i].start, tpq) < k
      {
        var j :| 0 <= j < |init| && init[j] == Slot(r.melody[i].start, tpq);
        assert init[j] == ks[j];
      }
      ReduceStepChronological(r, k, grid[k], tpq);
      var m' := ReduceKeys(grid, ks, tpq).melody;
      forall i | 0 <= i < |m'|
        ensures Slot(m'[i].start, tpq) in ks
      {
        if m'[i] in r.melody {
          var j :| 0 <= j < |r.melody| && r.melody[j] == m'[i];
          var j' :| 0 <= j' < |init| && init[j'] == Slot(r.melody[j].start, tpq);
          assert ks[j'] == init[j'];
        }
      }
    }
  }

  lemma SortedKeysIn(grid: Grid)
    ensures KeysIn(grid, SortedKeys(grid.Keys))
  {
    var ks := SortedKeys(grid.Keys);
    forall j | 0 <= j < |ks|
      ensures ks[j] in grid.Keys
    {
      assert ks[j] in ks;
    }
  }

  /**
   * The melody of a quantised note list is made of input notes and has at
   * most one note per occupied slot.
   */
  lemma MelodyDrawnFromEvents(events: seq<NoteEvent>, tpq: nat)
    requires tpq > 0
    ensures var grid := TimeGridOf(events, tpq);
            var m := Melody(grid, tpq);
            && |m| <= |grid.Keys|
            && (forall x :: x in m ==> x in events)
  {
    var grid := TimeGridOf(events, tpq);
    var ks := SortedKeys(grid.Keys);
    SortedKeysIn(grid);
    ReduceKeysLength(grid, ks, tpq);
    ReduceKeysFromGrid(grid, ks, tpq);
    forall x | x in Melody(grid, tpq)
      ensures x in events
    {
      var j :| 0 <= j < |ks| && x in grid[ks[j]];
      InSlotMembers(events, ks[j], tpq, x);
    }
  }

  /** The melody of a quantised note list is in strictly increasing order of start tick. */
  lemma MelodyChronological(events: seq<NoteEvent>, tpq: nat)
    requires tpq > 0
    ensures var m := Melody(TimeGridOf(events, tpq), tpq);
            forall i, j :: 0 <= i < j < |m| ==> m[i].start < m[j].start
  {
    var grid := TimeGridOf(events, tpq);
    var ks := SortedKeys(grid.Keys);
    SortedKeysIn(grid);
    TimeGridConsistent(events, tpq);
    ReduceKeysChronological(grid, ks, tpq);
    var m := Melody(grid, tpq);
    forall i, j | 0 <= i < j < |m|
      ensures m[i].start < m[j].start
    {
      if m[j].start <= m[i].start {
        SlotMonotonic(m[j].start, m[i].start, tpq);
      }
    }
  }

  /** Notes to quantise always leave a non-empty melody. */
  lemma MelodyNonEmpty(events: seq<NoteEvent>, tpq: nat)
    requires tpq > 0 && events != []
    ensures Melody(TimeGridOf(events, tpq), tpq) != []
  {
    var grid := TimeGridOf(events, tpq);
    var k := Slot(events[0].start, tpq);
    TimeGridConsistent(events, tpq);
    SortedKeysIn(grid);
    var ks := SortedKeys(grid.Keys);
    var j :| 0 <= j < |ks| && ks[j] == k;
    ReduceKeysNonEmpty(grid, ks, tpq, j);
  }

  lemma ExampleBuckets(low: NoteEvent, high: NoteEvent)
    requires low == NoteEvent(60, 0, 480, 480, 100) && high == NoteEvent(67, 240, 720, 480, 110)
    ensures InSlot([low, high], 0, 480) == [low] && InSlot([low, high], 4, 480) == [high]
  {
    assert Slot(0, 480) == 0;
    assert Slot(240, 480) == 4;
    assert [] + [low] == [low] && [low] + [high] == [low, high];
    InSlotSnoc([], low, 0, 480);
    InSlotSnoc([low], high, 0, 480);
    InSlotSnoc([], low, 4, 480);
    InSlotSnoc([low], high, 4, 480);
  }

  lemma ExampleGrid(low: NoteEvent, high: NoteEvent)
    requires low == NoteEvent(60, 0, 480, 480, 100) && high == NoteEvent(67, 240, 720, 480, 110)
    ensures TimeGridOf([low, high], 480) == map[0 := [low], 4 := [high]]
  {
    var events := [low, high];
    assert SlotSet(events, 480) == {0, 4} by {
      assert Slot(events[0].start, 480) == 0;
      assert Slot(events[1].start, 480) == 4;
    }
    ExampleBuckets(low, high);
    var grid := TimeGridOf(events, 480);
    assert grid.Keys == {0, 4} && grid[0] == [low] && grid[4] == [high];
  }

  lemma ExampleKeys()
    ensures SortedKeys({0, 4}) == [0, 4]
  {
    var ks := SortedKeys({0, 4});
    assert |{0, 4}| == 2;
    assert ks[0] in {0, 4} && ks[1] in {0, 4};
  }

  /**
   * With 480 ticks per quarter note, pitch 60 (ticks 0-480, velocity 100)
   * and pitch 67 (ticks 240-720, velocity 110) reduce to the 67 alone: it
   * starts while the 60 sounds and is seven semitones higher.
   */
  lemma OverlapExample(low: NoteEvent, high: NoteEvent)
    requires low == NoteEvent(60, 0, 480, 480, 100) && high == NoteEvent(67, 240, 720, 480, 110)
    ensures Melody(TimeGridOf([low, high], 480), 480) == [high]
  {
    ExampleGrid(low, high);
    var grid := map[0 := [low], 4 := [high]];
    assert grid.Keys == {0, 4};
    ExampleKeys();
    var ks: seq<nat> := [0, 4];
    var first: seq<nat> := [0];
    assert ks[..1] == first && first[..0] == [];
    assert ReduceKeys(grid, first[..0], 480) == Reduction([], 0);
    var r0 := ReduceKeys(grid, first, 480);
    assert r0 == ReduceStep(Reduction([], 0), 0, [low], 480);
    assert r0 == Reduction([low], 480);
    assert ReduceKeys(grid, ks, 480) == ReduceStep(r0, 4, [high], 480);
  }

  // ---------------------------------------------------------------------------
  // The reduction loop

  method BuildMonophonicMelody(grid: Grid, tpq: nat) returns (melody: seq<NoteEvent>)
    ensures melody == Melody(grid, tpq)
  {
    if grid == map[] {
      return [];
    }
    melody := [];
    var lastNoteEnd: nat := 0;
    var ks := SortedKeys(grid.Keys);
    SortedKeysIn(grid);
    for i := 0 to |ks|
      invariant Reduction(melody, lastNoteEnd) == ReduceKeys(grid, ks[..i], tpq)
    {
      var pos := ks[i];
      var notes := grid[pos];
      ghost var before := Reduction(melody, lastNoteEnd);
      ReduceKeysPrefix(grid, ks, i, tpq);
      if notes == [] {
        continue;
      }
      if Before(pos, tpq, lastNoteEnd) {
        BeforeMeansSounding(pos, tpq, lastNoteEnd);
        var current := melody[|melody| - 1];
        var candidate := notes[MostSalient(notes)];
        if Overrides(candidate, current) {
          melody := melody[..|melody| - 1] + [candidate];
          lastNoteEnd := candidate.end;
        }
      } else {
        var best: NoteEvent;
        if |notes| > 1 {
          best := notes[MostSalient(notes)];
        } else {
          best := notes[0];
        }
        melody := melody + [best];
        lastNoteEnd := best.end;
      }
      assert Reduction(melody, lastNoteEnd) == ReduceStep(before, pos, notes, tpq);
    }
    assert ks[..|ks|] == ks;
  }
}
