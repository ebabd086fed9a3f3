/** The already-decoded Standard MIDI File, as the external decoder hands it
    to the parser: a timing descriptor and, per track, the messages with
    their tick deltas. The bounded integer types of the decoder (4-, 7-,
    14-, 15-, 24- and 28-bit) are subset types of `nat`. */
module Midi {

  type U4 = x: nat | x < 0x10
  type U7 = x: nat | x < 0x80
  type U14 = x: nat | x < 0x4000
  type U15 = x: nat | x < 0x8000
  type U24 = x: nat | x < 0x100_0000
  type U28 = x: nat | x < 0x1000_0000

  /** The header's timing field: ticks per quarter note, or SMPTE timecode. */
  datatype Timing = Metrical(tpb: U15) | Timecode

  /** Channel voice messages. `PitchBend` carries the unsigned 14-bit value
      of the wire format (centre 0x2000). */
  datatype MidiMessage =
    | NoteOff(key: U7, vel: U7)
    | NoteOn(key: U7, vel: U7)
    | Aftertouch(key: U7, vel: U7)
    | Controller(controller: U7, value: U7)
    | ProgramChange(program: U7)
    | ChannelAftertouch(vel: U7)
    | PitchBend(bend: U14)

  /** Meta messages. Only `Tempo` (microseconds per quarter note) carries a
      payload the parser reads; the payloads of the others are omitted. */
  datatype MetaMessage =
    | TrackNumber | Text | Copyright | TrackName | InstrumentName | Lyric
    | Marker | CuePoint | ProgramName | DeviceName | MidiChannel | MidiPort
    | EndOfTrack
    | Tempo(micros: U24)
    | SmpteOffset | TimeSignature | KeySignature | SequencerSpecific | Unknown

  datatype TrackEventKind =
    | Midi(channel: U4, message: MidiMessage)
    | SysEx
    | Escape
    | Meta(meta: MetaMessage)

  /** One decoded message of a track, with its delta from the previous one. */
  datatype TrackEvent = TrackEvent(delta: U28, kind: TrackEventKind)

  /** The signed value of a pitch bend, `raw - 0x2000`, in -8192..8191. */
  function BendAsInt(bend: U14): (r: int)
    ensures -0x2000 <= r < 0x2000
  {
    bend - 0x2000
  }

  /** The tempo message of a track event, if it is one. */
  predicate IsTempo(kind: TrackEventKind) {
    kind.Meta? && kind.meta.Tempo?
  }

  /** Every tempo message of every track has a non-zero period, so that
      `60_000_000 / micros` is defined. */
  predicate TempoPeriodsPositive(tracks: seq<seq<TrackEvent>>) {
    forall t, j :: 0 <= t < |tracks| && 0 <= j < |tracks[t]| && IsTempo(tracks[t][j].kind) ==>
      tracks[t][j].kind.meta.micros > 0
  }
}
