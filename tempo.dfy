/**
 * Tempo resolution: the first set_tempo message of the file, scanning the
 * tracks in order and the messages of each track in order; 120 BPM otherwise.
 */
module Tempo {
  import opened Midi

  /** 500000 microseconds per quarter note, i.e. 120 BPM. */
  const DefaultTempo: nat := 500000

  predicate NoTempoIn(msgs: seq<Message>) {
    forall j :: 0 <= j < |msgs| ==> !msgs[j].SetTempo?
  }

  /** `j` is the position of the first set_tempo message of `msgs`. */
  predicate IsFirstTempoAt(msgs: seq<Message>, j: nat) {
    j < |msgs| && msgs[j].SetTempo? && NoTempoIn(msgs[..j])
  }

  /** The position of the first set_tempo message, if any. */
  function FirstTempoIndex(msgs: seq<Message>): (r: Option<nat>)
    ensures r.None? <==> NoTempoIn(msgs)
    ensures r.Some? ==> IsFirstTempoAt(msgs, r.value)
  {
    if msgs == [] then None
    else if msgs[0].SetTempo? then Some(0)
    else match FirstTempoIndex(msgs[1..])
      case None => None
      case Some(j) =>
        assert msgs[..j + 1] == [msgs[0]] + msgs[1..][..j];
        Some(j + 1)
  }

  /** The tempo a single message stream resolves to: its first set_tempo, else the default. */
  function TempoOf(msgs: seq<Message>): nat {
    match FirstTempoIndex(msgs)
    case None => DefaultTempo
    case Some(j) => msgs[j].tempo
  }

  /** All tracks of the file, one after the other, in file order. */
  function Concat(tracks: seq<Track>): seq<Message> {
    if tracks == [] then [] else tracks[0] + Concat(tracks[1..])
  }

  /** The search with early return of the source: track by track, message by message. */
  function GetTempo(tracks: seq<Track>): (tempo: nat)
    ensures (forall i :: 0 <= i < |tracks| ==> NoTempoIn(tracks[i])) ==> tempo == DefaultTempo
  {
    if tracks == [] then DefaultTempo
    else match FirstTempoIndex(tracks[0])
      case Some(j) => tracks[0][j].tempo
      case None => GetTempo(tracks[1..])
  }

  lemma {:induction false} FirstTempoIndexAppend(a: seq<Message>, b: seq<Message>)
    ensures FirstTempoIndex(a + b) ==
      match FirstTempoIndex(a)
      case Some(j) => Some(j)
      case None =>
        match FirstTempoIndex(b)
        case None => None
        case Some(j) => Some(|a| + j)
  {
    if a == [] {
      assert a + b == b;
    } else {
      assert (a + b)[0] == a[0];
      if !a[0].SetTempo? {
        assert (a + b)[1..] == a[1..] + b;
        FirstTempoIndexAppend(a[1..], b);
      }
    }
  }

  /**
   * The tempo is that of the first set_tempo message of the whole file in
   * file order (tracks in order, messages within a track in order), or
   * 500000 when the file has none.
   */
  lemma {:induction false} GetTempoIsFirstInFileOrder(tracks: seq<Track>)
    ensures GetTempo(tracks) == TempoOf(Concat(tracks))
  {
    if tracks != [] {
      GetTempoIsFirstInFileOrder(tracks[1..]);
      FirstTempoIndexAppend(tracks[0], Concat(tracks[1..]));
      match FirstTempoIndex(tracks[0])
      case Some(j) =>
        assert Concat(tracks)[j] == tracks[0][j];
      case None =>
        match FirstTempoIndex(Concat(tracks[1..]))
        case None =>
        case Some(j) =>
          assert Concat(tracks)[|tracks[0]| + j] == Concat(tracks[1..])[j];
    }
  }
}
