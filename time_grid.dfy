/**
 * Quantisation: every note start is snapped to the nearest thirty-second
 * note (a grid of `tpq / 8` ticks) and the notes are bucketed by grid slot.
 *
 * A grid position is `k * tpq / 8` ticks, which is not a whole number of
 * ticks unless 8 divides `tpq`; the model therefore keys each bucket by its
 * slot index `k` and compares positions exactly, as rationals.
 */
module TimeGrid {
  import opened NoteEvents

  /** Grid slots per quarter note: the resolution is `tpq / 8` ticks. */
  const SlotsPerBeat: nat := 8

  function Dist(a: int, b: int): nat {
    if a < b then b - a else a - b
  }

  /**
   * The slot of tick `start`: `round(start / (tpq / 8))` with Python's
   * `round`, which takes the nearest integer and breaks ties to the even one.
   */
  function Slot(start: nat, tpq: nat): (k: nat)
    requires tpq > 0
    ensures 2 * Dist(SlotsPerBeat * start, k * tpq) <= tpq
    ensures 2 * Dist(SlotsPerBeat * start, k * tpq) == tpq ==> k % 2 == 0
  {
    var x := SlotsPerBeat * start;
    var q := x / tpq;
    var r := x % tpq;
    DivMod(x, tpq);
    MulSucc(q, tpq);
    if 2 * r < tpq then q
    else if 2 * r > tpq then q + 1
    else if q % 2 == 0 then q else q + 1
  }

  lemma DivMod(x: nat, tpq: nat)
    requires tpq > 0
    ensures x == (x / tpq) * tpq + x % tpq && 0 <= x % tpq < tpq
  {
  }

  lemma MulSucc(k: nat, tpq: nat)
    ensures (k + 1) * tpq == k * tpq + tpq
  {
  }

  lemma {:induction false} MultiplesApart(k: nat, k': nat, tpq: nat)
    requires k < k'
    ensures k * tpq + tpq <= k' * tpq
    decreases k' - k
  {
    MulSucc(k' - 1, tpq);
    if k + 1 < k' {
      MultiplesApart(k, k' - 1, tpq);
    }
  }

  /**
   * The slot is a nearest multiple of the resolution: no other slot is
   * closer, and when another one is as close (an exact half) the chosen
   * slot is the even one.
   */
  lemma SlotIsNearest(start: nat, tpq: nat, k': nat)
    requires tpq > 0
    ensures Dist(SlotsPerBeat * start, Slot(start, tpq) * tpq) <= Dist(SlotsPerBeat * start, k' * tpq)
    ensures k' != Slot(start, tpq) &&
            Dist(SlotsPerBeat * start, Slot(start, tpq) * tpq) == Dist(SlotsPerBeat * start, k' * tpq)
            ==> Slot(start, tpq) % 2 == 0
  {
    var k := Slot(start, tpq);
    if k < k' {
      MultiplesApart(k, k', tpq);
    } else if k' < k {
      MultiplesApart(k', k, tpq);
    }
  }

  /** Rounding is monotonic: a later start never lands in an earlier slot. */
  lemma SlotMonotonic(a: nat, b: nat, tpq: nat)
    requires tpq > 0 && a <= b
    ensures Slot(a, tpq) <= Slot(b, tpq)
  {
    var ka, kb := Slot(a, tpq), Slot(b, tpq);
    if kb < ka {
      // both would be exact halves, hence both even, yet one slot apart
      MultiplesApart(kb, ka, tpq);
    }
  }

  type Grid = map<nat, seq<NoteEvent>>

  /** The events of `events` whose start snaps to slot `k`, in input order. */
  function InSlot(events: seq<NoteEvent>, k: nat, tpq: nat): (b: seq<NoteEvent>)
    requires tpq > 0
    ensures |b| <= |events|
    ensures forall i :: 0 <= i < |b| ==> Slot(b[i].start, tpq) == k
  {
    if events == [] then []
    else
      var last := events[|events| - 1];
      InSlot(events[..|events| - 1], k, tpq) + (if Slot(last.start, tpq) == k then [last] else [])
  }

  function SlotSet(events: seq<NoteEvent>, tpq: nat): set<nat>
    requires tpq > 0
  {
    set i | 0 <= i < |events| :: Slot(events[i].start, tpq)
  }

  /**
   * The grid: one bucket per occupied slot.  The slot of every event has a
   * bucket, and a bucket holds only events whose start snaps to its slot.
   */
  function TimeGridOf(events: seq<NoteEvent>, tpq: nat): (g: Grid)
    requires tpq > 0
    ensures forall i :: 0 <= i < |events| ==> Slot(events[i].start, tpq) in g
    ensures forall k :: k in g ==> forall i :: 0 <= i < |g[k]| ==> Slot(g[k][i].start, tpq) == k
  {
    map k | k in SlotSet(events, tpq) :: InSlot(events, k, tpq)
  }

  lemma InSlotSnoc(events: seq<NoteEvent>, e: NoteEvent, k: nat, tpq: nat)
    requires tpq > 0
    ensures InSlot(events + [e], k, tpq) == InSlot(events, k, tpq) + (if Slot(e.start, tpq) == k then [e] else [])
  {
    assert (events + [e])[..|events|] == events;
  }

  /**
   * An event belongs to bucket `k` exactly when it is one of the input events
   * and its start snaps to `k`, so every input event sits in exactly one bucket.
   */
  lemma {:induction false} InSlotMembers(events: seq<NoteEvent>, k: nat, tpq: nat, x: NoteEvent)
    requires tpq > 0
    ensures x in InSlot(events, k, tpq) <==> x in events && Slot(x.start, tpq) == k
  {
    if events != [] {
      var init, last := events[..|events| - 1], events[|events| - 1];
      assert events == init + [last];
      InSlotMembers(init, k, tpq, x);
    }
  }

  /** A slot has a bucket exactly when some event snaps to it; buckets are never empty. */
  lemma {:induction false} TimeGridKeys(events: seq<NoteEvent>, k: nat, tpq: nat)
    requires tpq > 0
    ensures k in TimeGridOf(events, tpq) <==> InSlot(events, k, tpq) != []
  {
    if InSlot(events, k, tpq) != [] {
      var x := InSlot(events, k, tpq)[0];
      InSlotMembers(events, k, tpq, x);
      var i :| 0 <= i < |events| && events[i] == x;
      assert k == Slot(events[i].start, tpq);
    } else if k in SlotSet(events, tpq) {
      var i :| 0 <= i < |events| && Slot(events[i].start, tpq) == k;
      InSlotMembers(events, k, tpq, events[i]);
    }
  }

  lemma TimeGridSnoc(events: seq<NoteEvent>, e: NoteEvent, tpq: nat)
    requires tpq > 0
    ensures var g := TimeGridOf(events, tpq);
            var k := Slot(e.start, tpq);
            TimeGridOf(events + [e], tpq) == g[k := (if k in g then g[k] else []) + [e]]
  {
    var g := TimeGridOf(events, tpq);
    var g' := TimeGridOf(events + [e], tpq);
    var k := Slot(e.start, tpq);
    var h := g[k := (if k in g then g[k] else []) + [e]];
    forall j
      ensures j in g' <==> j in h
      ensures j in g' ==> g'[j] == h[j]
    {
      InSlotSnoc(events, e, j, tpq);
      TimeGridKeys(events, j, tpq);
      TimeGridKeys(events + [e], j, tpq);
    }
  }

  /** Every bucket is non-empty and holds only events whose start snaps to its slot. */
  predicate BucketsConsistent(grid: Grid, tpq: nat)
    requires tpq > 0
  {
    forall k :: k in grid ==> grid[k] != [] && forall e :: e in grid[k] ==> Slot(e.start, tpq) == k
  }

  lemma TimeGridConsistent(events: seq<NoteEvent>, tpq: nat)
    requires tpq > 0
    ensures BucketsConsistent(TimeGridOf(events, tpq), tpq)
  {
    forall k, e | k in TimeGridOf(events, tpq) && e in TimeGridOf(events, tpq)[k]
      ensures Slot(e.start, tpq) == k
    {
      InSlotMembers(events, k, tpq, e);
    }
    forall k | k in TimeGridOf(events, tpq)
      ensures TimeGridOf(events, tpq)[k] != []
    {
      TimeGridKeys(events, k, tpq);
    }
  }

  lemma {:induction false} SlotSetSize(events: seq<NoteEvent>, tpq: nat)
    requires tpq > 0
    ensures |SlotSet(events, tpq)| <= |events|
  {
    if events != [] {
      var init := events[..|events| - 1];
      var k := Slot(events[|events| - 1].start, tpq);
      SlotSetSize(init, tpq);
      var a, b := SlotSet(events, tpq), SlotSet(init, tpq) + {k};
      assert a <= b by {
        forall j | j in a
          ensures j in b
        {
          var i :| 0 <= i < |events| && j == Slot(events[i].start, tpq);
          if i < |events| - 1 {
            assert events[i] == init[i];
          }
        }
      }
      assert b == a + (b - a);
      assert |b| <= |SlotSet(init, tpq)| + 1;
    }
  }

  /** There are no more occupied slots than events. */
  lemma TimeGridSize(events: seq<NoteEvent>, tpq: nat)
    requires tpq > 0
    ensures |TimeGridOf(events, tpq).Keys| <= |events|
  {
    SlotSetSize(events, tpq);
    assert TimeGridOf(events, tpq).Keys == SlotSet(events, tpq);
  }

  /**
   * Buckets the events by slot, appending to a bucket in input order; an
   * empty input gives an empty grid.  A zero `tpq` makes the resolution zero,
   * which the source divides by: callers must not pass it with events.
   */
  method CreateTimeGrid(events: seq<NoteEvent>, tpq: nat) returns (grid: Grid)
    requires events != [] ==> tpq > 0
    ensures events == [] ==> grid == map[]
    ensures events != [] ==> grid == TimeGridOf(events, tpq)
  {
    if events == [] {
      return map[];
    }
    grid := map[];
    for i := 0 to |events|
      invariant grid == TimeGridOf(events[..i], tpq)
    {
      var e := events[i];
      var pos := Slot(e.start, tpq);
      var bucket := if pos in grid then grid[pos] else [];
      TimeGridSnoc(events[..i], e, tpq);
      assert events[..i + 1] == events[..i] + [e];
      grid := grid[pos := bucket + [e]];
    }
    assert events[..|events|] == events;
  }
}
