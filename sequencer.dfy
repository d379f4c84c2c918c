/**
 * Sequencing: each melody note becomes a bell strike with a delay relative to
 * the end of the previous strike and a ring duration, with a 300 ms floor on
 * durations and a 250 ms floor on the gap between strikes.  Times are kept in
 * whole milliseconds.
 */
module Sequencer {
  import opened NoteEvents
  import opened Bells

  /** Shortest silence between two strikes. */
  const MinGapMs: nat := 250

  /** Shortest ring time of a bell (0.3 s). */
  const MinDurationMs: nat := 300

  function Max(a: int, b: int): int {
    if a < b then b else a
  }

  /**
   * `int(tick2second(t, tpq, tempo) * 1000)`: `t * tempo` microseconds per
   * `tpq` ticks, in milliseconds, truncated: the largest whole number of
   * milliseconds not after the tick.
   */
  function TicksToMs(ticks: nat, tpq: nat, tempo: nat): (ms: nat)
    requires tpq > 0
    ensures ms * (tpq * 1000) <= ticks * tempo < (ms + 1) * (tpq * 1000)
  {
    ChainedDivision(ticks * tempo, tpq);
    ticks * tempo / tpq / 1000
  }

  /** Dividing by `d` and then by 1000 gives the floor of dividing by `d * 1000`. */
  lemma ChainedDivision(x: nat, d: nat)
    requires d > 0
    ensures x / d / 1000 * (d * 1000) <= x < (x / d / 1000 + 1) * (d * 1000)
  {
    var q1, r1 := x / d, x % d;
    var q2, r2 := q1 / 1000, q1 % 1000;
    assert x == q1 * d + r1 && r1 < d;
    assert q1 == q2 * 1000 + r2 && r2 < 1000;
    assert q1 * d == q2 * (d * 1000) + r2 * d;
    MulMonotonic(r2, 999, d);
    assert r2 * d + r1 < d * 1000;
    assert (q2 + 1) * (d * 1000) == q2 * (d * 1000) + d * 1000;
  }

  /** A later tick never maps to an earlier millisecond. */
  lemma TicksToMsMonotonic(a: nat, b: nat, tpq: nat, tempo: nat)
    requires tpq > 0 && a <= b
    ensures TicksToMs(a, tpq, tempo) <= TicksToMs(b, tpq, tempo)
  {
    MulMonotonic(a, b, tempo);
    DivMonotonic(a * tempo, b * tempo, tpq);
    DivMonotonic(a * tempo / tpq, b * tempo / tpq, 1000);
  }

  /** One quarter note lasts the tempo, in whole milliseconds. */
  lemma QuarterNoteMs(tpq: nat, tempo: nat)
    requires tpq > 0
    ensures TicksToMs(tpq, tpq, tempo) == tempo / 1000
  {
    assert tpq * tempo == tempo * tpq;
    DivExact(tempo, tpq);
  }

  lemma DivExact(q: nat, d: nat)
    requires d > 0
    ensures q * d / d == q
  {
    var q' := q * d / d;
    var r := q * d % d;
    assert q * d == q' * d + r;
    if q' < q {
      MulMonotonic(q' + 1, q, d);
    } else if q < q' {
      MulMonotonic(q + 1, q', d);
    }
  }

  lemma MulMonotonic(a: nat, b: nat, c: nat)
    requires a <= b
    ensures a * c <= b * c
  {
  }

  lemma DivMonotonic(x: nat, y: nat, d: nat)
    requires d > 0 && x <= y
    ensures x / d <= y / d
  {
    var qx, qy := x / d, y / d;
    assert x == qx * d + x % d && y == qy * d + y % d;
    if qy < qx {
      MulMonotonic(qy + 1, qx, d);
    }
  }

  /** A note placed in absolute milliseconds, with its bell and floored duration. */
  datatype TimedNote = TimedNote(pitch: nat, bell: Bell, startMs: nat, durationMs: nat)

  /** The output record: which bell, how long to wait before it, how long it rings. */
  datatype BellEvent = BellEvent(note: Bell, delayMs: int, durationMs: nat)

  function Timed(n: NoteEvent, tpq: nat, tempo: nat): TimedNote
    requires tpq > 0
  {
    var startMs := TicksToMs(n.start, tpq, tempo);
    var endMs := TicksToMs(n.end, tpq, tempo);
    TimedNote(n.pitch, MapToNearestBell(n.pitch), startMs, Max(MinDurationMs, endMs - startMs))
  }

  function TimedNotes(melody: seq<NoteEvent>, tpq: nat, tempo: nat): seq<TimedNote>
    requires tpq > 0
  {
    seq(|melody|, i requires 0 <= i < |melody| => Timed(melody[i], tpq, tempo))
  }

  /**
   * The delay before strike `i`: the first waits for its own start; every
   * later one waits until its start measured from the previous note's
   * start plus floored duration, but never less than the minimum gap.
   */
  function DelayAt(ts: seq<TimedNote>, i: nat): (d: int)
    requires i < |ts|
    ensures i == 0 ==> d == ts[0].startMs
    ensures i > 0 ==> d >= MinGapMs && ts[i - 1].startMs + ts[i - 1].durationMs + d >= ts[i].startMs
    ensures i > 0 ==> d == MinGapMs || ts[i - 1].startMs + ts[i - 1].durationMs + d == ts[i].startMs
  {
    if i == 0 then ts[0].startMs
    else Max(MinGapMs, ts[i].startMs - (ts[i - 1].startMs + ts[i - 1].durationMs))
  }

  function Relative(ts: seq<TimedNote>): seq<BellEvent> {
    seq(|ts|, i requires 0 <= i < |ts| => BellEvent(ts[i].bell, DelayAt(ts, i), ts[i].durationMs))
  }

  /**
   * The bell sequence of a melody: one strike per melody note, on the note's
   * nearest bell; every ring lasts at least 300 ms; the first strike waits
   * for the first note's start and every later one waits at least 250 ms.
   */
  function BellSequence(melody: seq<NoteEvent>, tpq: nat, tempo: nat): (evs: seq<BellEvent>)
    requires melody != [] ==> tpq > 0
    ensures |evs| == |melody|
    ensures forall i :: 0 <= i < |evs| ==>
              evs[i].note == MapToNearestBell(melody[i].pitch) && evs[i].durationMs >= MinDurationMs
    ensures evs != [] ==> evs[0].delayMs == TicksToMs(melody[0].start, tpq, tempo)
    ensures forall i :: 0 < i < |evs| ==> evs[i].delayMs >= MinGapMs
  {
    if melody == [] then [] else Relative(TimedNotes(melody, tpq, tempo))
  }

  /** First pass: every melody note placed in absolute milliseconds. */
  method AbsoluteTimes(melody: seq<NoteEvent>, tpq: nat, tempo: nat) returns (absEvents: seq<TimedNote>)
    requires tpq > 0
    ensures absEvents == TimedNotes(melody, tpq, tempo)
  {
    absEvents := [];
    for i := 0 to |melody|
      invariant absEvents == TimedNotes(melody[..i], tpq, tempo)
    {
      var note := melody[i];
      var startMs := TicksToMs(note.start, tpq, tempo);
      var endMs := TicksToMs(note.end, tpq, tempo);
      var durationMs := Max(MinDurationMs, endMs as int - startMs);
      var timed := TimedNote(note.pitch, MapToNearestBell(note.pitch), startMs, durationMs);
      assert timed == Timed(note, tpq, tempo);
      assert TimedNotes(melody[..i + 1], tpq, tempo) == absEvents + [timed];
      absEvents := absEvents + [timed];
    }
    assert melody[..|melody|] == melody;
  }

  /** Second pass: absolute times turned into delays, carrying the previous note's end. */
  method RelativeDelays(absEvents: seq<TimedNote>) returns (sequence: seq<BellEvent>)
    ensures sequence == Relative(absEvents)
  {
    ghost var target := Relative(absEvents);
    sequence := [];
    var prevEndMs := 0;
    for i := 0 to |absEvents|
      invariant sequence == target[..i]
      invariant i > 0 ==> prevEndMs == absEvents[i - 1].startMs + absEvents[i - 1].durationMs
    {
      var event := absEvents[i];
      var delayMs;
      if i == 0 {
        delayMs := event.startMs;
      } else {
        delayMs := Max(MinGapMs, event.startMs - prevEndMs);
      }
      assert target[i] == BellEvent(event.bell, delayMs, event.durationMs);
      assert target[..i + 1] == target[..i] + [target[i]];
      sequence := sequence + [BellEvent(event.bell, delayMs, event.durationMs)];
      prevEndMs := event.startMs + event.durationMs;
    }
    assert target[..|absEvents|] == target;
  }

  /** The two passes; an empty melody gives an empty sequence. */
  method CreateBellSequence(melody: seq<NoteEvent>, tpq: nat, tempo: nat) returns (sequence: seq<BellEvent>)
    requires melody != [] ==> tpq > 0
    ensures sequence == BellSequence(melody, tpq, tempo)
  {
    if melody == [] {
      return [];
    }
    var absEvents := AbsoluteTimes(melody, tpq, tempo);
    sequence := RelativeDelays(absEvents);
  }

  // ---------------------------------------------------------------------------
  // The schedule a player following the sequence produces

  /**
   * When strike `i` sounds for a player that, event by event, waits the
   * delay, strikes the bell and lets it ring for its duration.
   */
  function StrikeTime(evs: seq<BellEvent>, i: nat): (t: int)
    requires i < |evs|
    ensures (forall j :: 0 <= j <= i ==> evs[j].delayMs >= 0) ==> t >= evs[i].delayMs >= 0
  {
    if i == 0 then evs[0].delayMs
    else StrikeTime(evs, i - 1) + evs[i - 1].durationMs + evs[i].delayMs
  }

  /**
   * Played back, the sequence never strikes a bell before the note's own
   * time, and between the end of one ring and the next strike there are at
   * least 250 ms; a note whose time is that far from the previous note's
   * scheduled end is struck exactly on time.
   */
  lemma {:induction false} ScheduleNeverEarly(ts: seq<TimedNote>, i: nat)
    requires i < |ts|
    ensures var evs := Relative(ts);
            && StrikeTime(evs, i) >= ts[i].startMs
            && (i > 0 ==> StrikeTime(evs, i) - (StrikeTime(evs, i - 1) + evs[i - 1].durationMs) >= MinGapMs)
            && (i > 0 && StrikeTime(evs, i - 1) == ts[i - 1].startMs &&
                ts[i].startMs - (ts[i - 1].startMs + ts[i - 1].durationMs) >= MinGapMs
                ==> StrikeTime(evs, i) == ts[i].startMs)
  {
    if i > 0 {
      ScheduleNeverEarly(ts, i - 1);
    }
  }

  /** Strike times strictly increase: each comes after the previous ring plus the minimum gap. */
  lemma {:induction false} StrikesInOrder(ts: seq<TimedNote>, i: nat, j: nat)
    requires i < j < |ts|
    ensures var evs := Relative(ts);
            StrikeTime(evs, i) + ts[i].durationMs + MinGapMs <= StrikeTime(evs, j)
    decreases j - i
  {
    if i + 1 < j {
      StrikesInOrder(ts, i + 1, j);
    }
  }
}
