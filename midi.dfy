/**
 * The parsed MIDI file that the melody extractor consumes: a list of tracks,
 * each an ordered list of timed messages whose `time` is the tick delta since
 * the previous message of the same track, plus the file-level ticks per
 * quarter note.  Only the message kinds the extractor inspects are told apart.
 */
module Midi {

  datatype Option<T> = None | Some(value: T)

  datatype Message =
    | NoteOn(channel: nat, note: nat, velocity: nat, time: nat)
    | NoteOff(channel: nat, note: nat, velocity: nat, time: nat)
      /** any other channel message: control change, program change, pitch wheel, ... */
    | ChannelMessage(channel: nat, time: nat)
      /** the set_tempo meta message, in microseconds per quarter note */
    | SetTempo(tempo: nat, time: nat)
      /** the channel_prefix meta message: the channel that the following meta
          events of the track refer to */
    | ChannelPrefix(channel: nat, time: nat)
      /** any other meta or system message: it has no `channel` attribute */
    | MetaMessage(time: nat)

  type Track = seq<Message>

  datatype MidiFile = MidiFile(tracks: seq<Track>, ticksPerBeat: nat)

  /** Channel index 9 (channel 10 for musicians) is General MIDI percussion. */
  const PercussionChannel: nat := 9

  /** The message has a `channel` attribute and it is the percussion channel. */
  predicate OnPercussionChannel(m: Message) {
    (m.NoteOn? || m.NoteOff? || m.ChannelMessage? || m.ChannelPrefix?) && m.channel == PercussionChannel
  }

  /** Every element is smaller than every later one. */
  predicate StrictlyIncreasing(s: seq<nat>) {
    forall i, j :: 0 <= i < j < |s| ==> s[i] < s[j]
  }

  /** A note_on with a non-zero velocity starts a note. */
  predicate IsNoteStart(m: Message) {
    m.NoteOn? && m.velocity > 0
  }

  /** A note_off, or a note_on with velocity 0, ends a note. */
  predicate IsNoteEnd(m: Message) {
    m.NoteOff? || (m.NoteOn? && m.velocity == 0)
  }
}
