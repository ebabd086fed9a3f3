/** The semantic event produced by the parser and consumed by the
    dispatcher: an `Event` record and the closed, seven-variant `EventBody`.
    Floating-point fields are exact reals; byte fields are `U8`. */
module Model {

  type U8 = x: nat | x < 0x100
  type I16 = x: int | -0x8000 <= x < 0x8000

  datatype EventBody =
    | NoteOn(notenum: U8, velocity: real, rawVelocity: U8)
    | NoteOff(notenum: U8, velocity: real, rawVelocity: U8)
    | Volume(volume: real, rawVolume: U8)
    | Pan(pan: real, rawPan: U8)
    | PitchBend(bend: real, rawBend: I16)      // rawBend documented to lie in -8192..8191
    | ProgramChange(program: U8)
    | Tempo(tempo: real)                       // beats per minute

  datatype Event = Event(track: U8, beat: real, channel: nat, body: EventBody)

  /** Beats never decrease along the stream. */
  predicate BeatsInOrder(es: seq<Event>) {
    forall i, j :: 0 <= i < j < |es| ==> es[i].beat <= es[j].beat
  }

  /** `a` comes no later than `b` in the order by beat, then track. */
  predicate BeatTrackLe(a: Event, b: Event) {
    a.beat < b.beat || (a.beat == b.beat && a.track <= b.track)
  }

  /** Ordered by beat and, among equal beats, by track. */
  predicate BeatsThenTracksInOrder(es: seq<Event>) {
    forall i, j :: 0 <= i < j < |es| ==> BeatTrackLe(es[i], es[j])
  }
}
