/**
 * Note-event extraction: pairing note_on and note_off messages per pitch with
 * an "active notes" dictionary, then sorting the closed notes by start tick.
 */
module NoteEvents {
  import opened Midi

  /** A closed note: `duration` is stored, as the source stores it. */
  datatype NoteEvent = NoteEvent(pitch: nat, start: nat, end: nat, duration: int, velocity: nat)

  /** The bookkeeping kept for a pitch that is sounding. */
  datatype OpenNote = OpenNote(start: nat, velocity: nat)

  /** Where the scan of one track stands: absolute tick, open notes, notes closed so far. */
  datatype ScanState = ScanState(absTime: nat, active: map<nat, OpenNote>, emitted: seq<NoteEvent>)

  const Initial: ScanState := ScanState(0, map[], [])

  /**
   * One message of the scan: the clock advances by the message's delta, and
   * the closed notes grow by at most one, only when the message ends a note.
   */
  function Step(st: ScanState, m: Message): (r: ScanState)
    ensures r.absTime == st.absTime + m.time
    ensures st.emitted <= r.emitted && |r.emitted| <= |st.emitted| + 1
    ensures |r.emitted| == |st.emitted| + 1 ==> IsNoteEnd(m) && m.note in st.active
  {
    var t := st.absTime + m.time;
    if IsNoteStart(m) then
      ScanState(t, st.active[m.note := OpenNote(t, m.velocity)], st.emitted)
    else if IsNoteEnd(m) && m.note in st.active then
      var o := st.active[m.note];
      ScanState(t, st.active - {m.note},
                st.emitted + [NoteEvent(m.note, o.start, t, t - o.start, o.velocity)])
    else
      ScanState(t, st.active, st.emitted)
  }

  /** The sum of the tick deltas of a message list. */
  function ElapsedTicks(msgs: seq<Message>): nat {
    if msgs == [] then 0 else msgs[0].time + ElapsedTicks(msgs[1..])
  }

  lemma {:induction false} ElapsedTicksSnoc(msgs: seq<Message>)
    requires msgs != []
    ensures ElapsedTicks(msgs) == ElapsedTicks(msgs[..|msgs| - 1]) + msgs[|msgs| - 1].time
    decreases |msgs|
  {
    if |msgs| > 1 {
      ElapsedTicksSnoc(msgs[1..]);
      assert msgs[1..][..|msgs[1..]| - 1] == msgs[..|msgs| - 1][1..];
    }
  }

  /**
   * The scan of a whole message list, from tick 0 with nothing open: the
   * clock ends at the sum of the deltas, and no message closes more than one note.
   */
  function Scan(msgs: seq<Message>): (st: ScanState)
    ensures st.absTime == ElapsedTicks(msgs)
    ensures |st.emitted| <= |msgs|
  {
    if msgs == [] then Initial
    else
      ElapsedTicksSnoc(msgs);
      Step(Scan(msgs[..|msgs| - 1]), msgs[|msgs| - 1])
  }

  /**
   * The notes a track closes, in the order they close; notes left open are
   * dropped.  Each is well formed, and their end ticks never decrease.
   */
  function TrackEvents(t: Track): (es: seq<NoteEvent>)
    ensures forall k :: 0 <= k < |es| ==> WellFormedEvent(es[k])
    ensures forall k, l :: 0 <= k < l < |es| ==> es[k].end <= es[l].end
  {
    ScanConsistent(t);
    Scan(t).emitted
  }

  predicate ValidIndices(tracks: seq<Track>, indices: seq<nat>) {
    forall k :: 0 <= k < |indices| ==> indices[k] < |tracks|
  }

  /** The closed notes of the given tracks, track after track; each is well formed. */
  function CollectEvents(tracks: seq<Track>, indices: seq<nat>): (es: seq<NoteEvent>)
    requires ValidIndices(tracks, indices)
    ensures forall k :: 0 <= k < |es| ==> WellFormedEvent(es[k])
  {
    if indices == [] then []
    else CollectEvents(tracks, indices[..|indices| - 1]) + TrackEvents(tracks[indices[|indices| - 1]])
  }

  // ---------------------------------------------------------------------------
  // What the scan guarantees

  predicate WellFormedEvent(e: NoteEvent) {
    e.start <= e.end && e.duration == e.end - e.start && e.velocity > 0
  }

  /** The invariant of a scan: open notes started in the past, closed notes are well formed and closed in order. */
  predicate Consistent(st: ScanState) {
    && (forall p :: p in st.active ==> st.active[p].start <= st.absTime && st.active[p].velocity > 0)
    && (forall k :: 0 <= k < |st.emitted| ==> WellFormedEvent(st.emitted[k]) && st.emitted[k].end <= st.absTime)
    && (forall k, l :: 0 <= k < l < |st.emitted| ==> st.emitted[k].end <= st.emitted[l].end)
  }

  lemma StepConsistent(st: ScanState, m: Message)
    requires Consistent(st)
    ensures Consistent(Step(st, m))
  {
  }

  /**
   * Every extracted event has `end >= start`, `duration == end - start` and a
   * non-zero velocity, and the events of a track come out in the order of
   * their end ticks.
   */
  lemma {:induction false} ScanConsistent(msgs: seq<Message>)
    ensures Consistent(Scan(msgs))
  {
    if msgs != [] {
      ScanConsistent(msgs[..|msgs| - 1]);
      StepConsistent(Scan(msgs[..|msgs| - 1]), msgs[|msgs| - 1]);
    }
  }

  lemma ScanSnoc(msgs: seq<Message>, m: Message)
    ensures Scan(msgs + [m]) == Step(Scan(msgs), m)
  {
    assert (msgs + [m])[..|msgs|] == msgs;
  }

  /**
   * A note_off (or velocity-0 note_on) for a pitch that is not sounding emits
   * nothing and leaves the open notes as they were; only the clock advances.
   */
  lemma UnmatchedNoteEndIsIgnored(msgs: seq<Message>, m: Message)
    requires IsNoteEnd(m) && m.note !in Scan(msgs).active
    ensures Scan(msgs + [m]).active == Scan(msgs).active
    ensures Scan(msgs + [m]).emitted == Scan(msgs).emitted
    ensures Scan(msgs + [m]).absTime == Scan(msgs).absTime + m.time
  {
    ScanSnoc(msgs, m);
  }

  /**
   * Striking a pitch, sounding or not, records the new start and velocity for
   * it, overwriting any earlier ones; nothing is emitted and no other pitch changes.
   */
  lemma NoteStartOverwrites(msgs: seq<Message>, m: Message)
    requires IsNoteStart(m)
    ensures Scan(msgs + [m]).active[m.note] == OpenNote(Scan(msgs).absTime + m.time, m.velocity)
    ensures forall p :: p != m.note ==>
              (p in Scan(msgs + [m]).active <==> p in Scan(msgs).active)
    ensures forall p :: p != m.note && p in Scan(msgs).active ==>
              Scan(msgs + [m]).active[p] == Scan(msgs).active[p]
    ensures Scan(msgs + [m]).emitted == Scan(msgs).emitted
  {
    ScanSnoc(msgs, m);
  }

  /**
   * Ending a sounding pitch emits exactly one event for it, from its recorded
   * start to the current tick, and closes it.
   */
  lemma MatchedNoteEndEmits(msgs: seq<Message>, m: Message)
    requires IsNoteEnd(m) && m.note in Scan(msgs).active
    ensures var o := Scan(msgs).active[m.note];
            var t := Scan(msgs).absTime + m.time;
            Scan(msgs + [m]).emitted == Scan(msgs).emitted + [NoteEvent(m.note, o.start, t, t - o.start, o.velocity)]
    ensures Scan(msgs + [m]).active == Scan(msgs).active - {m.note}
  {
    ScanSnoc(msgs, m);
  }

  function CountStarts(msgs: seq<Message>): nat {
    if msgs == [] then 0
    else CountStarts(msgs[..|msgs| - 1]) + (if IsNoteStart(msgs[|msgs| - 1]) then 1 else 0)
  }

  function CountEnds(msgs: seq<Message>): nat {
    if msgs == [] then 0
    else CountEnds(msgs[..|msgs| - 1]) + (if IsNoteEnd(msgs[|msgs| - 1]) then 1 else 0)
  }

  /**
   * Events are never invented: each closed note used up one note start and
   * one note end, and the notes still open at the end of the track (which
   * produce no event) used up the remaining starts.
   */
  lemma {:induction false} EventsNeverInvented(msgs: seq<Message>)
    ensures |Scan(msgs).emitted| + |Scan(msgs).active| <= CountStarts(msgs)
    ensures |Scan(msgs).emitted| <= CountEnds(msgs)
  {
    if msgs != [] {
      var init := msgs[..|msgs| - 1];
      var m := msgs[|msgs| - 1];
      EventsNeverInvented(init);
      var st := Scan(init);
      if IsNoteStart(m) {
        assert st.active[m.note := OpenNote(st.absTime + m.time, m.velocity)].Keys == st.active.Keys + {m.note};
      } else if IsNoteEnd(m) && m.note in st.active {
        assert (st.active - {m.note}).Keys == st.active.Keys - {m.note};
      }
    }
  }

  // ---------------------------------------------------------------------------
  // The stable sort by start tick (Python's `sorted` with key `start`)

  predicate SortedByStart(s: seq<NoteEvent>) {
    forall i, j :: 0 <= i < j < |s| ==> s[i].start <= s[j].start
  }

  /** Inserts `e` after every element whose start is not later than its own. */
  function InsertByStart(s: seq<NoteEvent>, e: NoteEvent): (r: seq<NoteEvent>)
    ensures |r| == |s| + 1
    ensures multiset(r) == multiset(s) + multiset{e}
  {
    if s == [] || s[|s| - 1].start <= e.start then s + [e]
    else
      assert s == s[..|s| - 1] + [s[|s| - 1]];
      InsertByStart(s[..|s| - 1], e) + [s[|s| - 1]]
  }

  lemma {:induction false} InsertByStartSorted(s: seq<NoteEvent>, e: NoteEvent)
    requires SortedByStart(s)
    ensures SortedByStart(InsertByStart(s, e))
  {
    if s != [] && e.start < s[|s| - 1].start {
      var init, last := s[..|s| - 1], s[|s| - 1];
      assert SortedByStart(init);
      InsertByStartSorted(init, e);
      var r' := InsertByStart(init, e);
      forall i | 0 <= i < |r'|
        ensures r'[i].start <= last.start
      {
        assert r'[i] in multiset(r');
        assert r'[i] == e || r'[i] in multiset(init);
      }
    }
  }

  function SortByStart(s: seq<NoteEvent>): (r: seq<NoteEvent>)
    ensures |r| == |s|
    ensures multiset(r) == multiset(s)
    ensures SortedByStart(r)
  {
    if s == [] then []
    else
      assert s == s[..|s| - 1] + [s[|s| - 1]];
      InsertByStartSorted(SortByStart(s[..|s| - 1]), s[|s| - 1]);
      InsertByStart(SortByStart(s[..|s| - 1]), s[|s| - 1])
  }

  /** The elements of `s` that start at tick `t`, in their order in `s`. */
  function WithStart(s: seq<NoteEvent>, t: nat): seq<NoteEvent> {
    if s == [] then []
    else WithStart(s[..|s| - 1], t) + (if s[|s| - 1].start == t then [s[|s| - 1]] else [])
  }

  lemma WithStartSnoc(s: seq<NoteEvent>, e: NoteEvent, t: nat)
    ensures WithStart(s + [e], t) == WithStart(s, t) + (if e.start == t then [e] else [])
  {
    assert (s + [e])[..|s|] == s;
  }

  lemma {:induction false} InsertByStartStable(s: seq<NoteEvent>, e: NoteEvent, t: nat)
    requires SortedByStart(s)
    ensures WithStart(InsertByStart(s, e), t) == WithStart(s, t) + (if e.start == t then [e] else [])
  {
    if s == [] || s[|s| - 1].start <= e.start {
      WithStartSnoc(s, e, t);
    } else {
      var init, last := s[..|s| - 1], s[|s| - 1];
      assert SortedByStart(init);
      assert s == init + [last];
      assert InsertByStart(s, e) == InsertByStart(init, e) + [last];
      InsertByStartStable(init, e, t);
      WithStartSnoc(InsertByStart(init, e), last, t);
      WithStartSnoc(init, last, t);
    }
  }

  /**
   * The sort is stable: for every start tick, the events starting at that
   * tick keep their original relative order.  Together with sortedness and
   * the permutation property this pins the result down completely.
   */
  lemma {:induction false} SortByStartStable(s: seq<NoteEvent>, t: nat)
    ensures WithStart(SortByStart(s), t) == WithStart(s, t)
  {
    if s != [] {
      var init, last := s[..|s| - 1], s[|s| - 1];
      SortByStartStable(init, t);
      InsertByStartStable(SortByStart(init), last, t);
    }
  }

  // ---------------------------------------------------------------------------
  // The extraction loop

  /**
   * Scans each selected track from tick 0 with no open notes, appending every
   * closed note to one list, then sorts that list by start tick, stably.
   */
  method ExtractNoteEvents(midi: MidiFile, trackIndices: seq<nat>) returns (events: seq<NoteEvent>)
    requires ValidIndices(midi.tracks, trackIndices)
    ensures events == SortByStart(CollectEvents(midi.tracks, trackIndices))
    ensures SortedByStart(events)
    ensures multiset(events) == multiset(CollectEvents(midi.tracks, trackIndices))
  {
    var collected: seq<NoteEvent> := [];
    var n := 0;
    while n < |trackIndices|
      invariant 0 <= n <= |trackIndices|
      invariant collected == CollectEvents(midi.tracks, trackIndices[..n])
    {
      var track := midi.tracks[trackIndices[n]];
      var absTime: nat := 0;
      var active: map<nat, OpenNote> := map[];
      ghost var before := collected;
      var i := 0;
      while i < |track|
        invariant 0 <= i <= |track|
        invariant absTime == Scan(track[..i]).absTime
        invariant active == Scan(track[..i]).active
        invariant collected == before + Scan(track[..i]).emitted
      {
        var msg := track[i];
        assert track[..i + 1] == track[..i] + [msg];
        ScanSnoc(track[..i], msg);
        absTime := absTime + msg.time;
        if IsNoteStart(msg) {
          active := active[msg.note := OpenNote(absTime, msg.velocity)];
        } else if IsNoteEnd(msg) && msg.note in active {
          var start := active[msg.note].start;
          var velocity := active[msg.note].velocity;
          collected := collected + [NoteEvent(msg.note, start, absTime, absTime - start, velocity)];
          active := active - {msg.note};
        }
        i := i + 1;
      }
      assert track[..|track|] == track;
      assert trackIndices[..n + 1][..n] == trackIndices[..n];
      n := n + 1;
    }
    assert trackIndices[..n] == trackIndices;
    events := SortByStart(collected);
  }
}
