/** Translating the merged messages into semantic events: the timing check,
    the per-message translation with its fixed normalisations, the drop
    policy, and the whole `parse` pipeline. The pitch bend is scaled by the
    constant range 2; no controller message changes how later messages are
    translated. */
module Parse {
  import opened Wrappers
  import opened Midi
  import opened Model
  import opened Merge

  datatype ParseError = TimecodeUnsupported

  /** The pitch-bend range in semitones, fixed for every channel. */
  const PitchBendRange: real := 2.0

  /** A 7-bit value scaled to [0, 1]. */
  function Unit(raw: U7): real {
    raw as real / 127.0
  }

  /** A pan value: `(raw - 64) / 63`, clamped below at -1 and not above. */
  function PanValue(raw: U7): real {
    var p := (raw as real - 64.0) / 63.0;
    if p < -1.0 then -1.0 else p
  }

  /** Beats per minute from microseconds per quarter note. */
  function Bpm(micros: U24): real
    requires micros > 0
  {
    60_000_000.0 / micros as real
  }

  /** The seven message kinds that produce an event: note off, note on,
      controllers 7 (volume) and 10 (pan), program change, pitch bend and
      the tempo meta message. Everything else is dropped. */
  predicate Kept(kind: TrackEventKind) {
    match kind
    case Midi(_, m) =>
      m.NoteOff? || m.NoteOn? || (m.Controller? && (m.controller == 7 || m.controller == 10))
      || m.ProgramChange? || m.PitchBend?
    case Meta(m) => m.Tempo?
    case _ => false
  }

  /** What every event of the parser satisfies: 7-bit raw bytes, channels
      below 16, normalised values tied to their raw byte, the pitch bend
      scaled by the fixed range, and tempo events on channel 0 with a
      positive tempo. */
  predicate Normalised(e: Event, normalizeBend: int -> real) {
    && e.channel < 16
    && match e.body
       case NoteOn(n, v, raw) => n < 128 && raw < 128 && v == raw as real / 127.0
       case NoteOff(n, v, raw) => n < 128 && raw < 128 && v == raw as real / 127.0
       case Volume(v, raw) => raw < 128 && v * 127.0 == raw as real
       case Pan(p, raw) => raw < 128 && -1.0 <= p <= 1.0 && p == PanValue(raw)
       case PitchBend(b, raw) => -0x2000 <= raw < 0x2000 && b == normalizeBend(raw) * PitchBendRange
       case ProgramChange(p) => p < 128
       case Tempo(t) => t > 0.0 && e.channel == 0
  }

  /** The event carries the raw fields of the message it was made from. */
  predicate Carries(kind: TrackEventKind, e: Event) {
    match kind
    case Midi(c, m) =>
      e.channel == c &&
      (match m
      case NoteOff(k, v) => e.body.NoteOff? && e.body.notenum == k && e.body.rawVelocity == v
      case NoteOn(k, v) => e.body.NoteOn? && e.body.notenum == k && e.body.rawVelocity == v
      case Controller(cc, v) =>
        (cc == 7 ==> e.body.Volume? && e.body.rawVolume == v) &&
        (cc == 10 ==> e.body.Pan? && e.body.rawPan == v)
      case ProgramChange(p) => e.body.ProgramChange? && e.body.program == p
      case PitchBend(b) => e.body.PitchBend? && e.body.rawBend == BendAsInt(b)
      case _ => false)
    case Meta(m) => m.Tempo? && m.micros > 0 && e.body == EventBody.Tempo(Bpm(m.micros))
    case _ => false
  }

  /** The tempo messages of a merged list have non-zero periods. */
  predicate TempoPeriodsDefined(s: seq<Stamped>) {
    forall x :: x in s && IsTempo(x.event.kind) ==> x.event.kind.meta.micros > 0
  }

  /** The body of the event a message becomes, or None for a dropped
      message. */
  function TranslateBody(kind: TrackEventKind, normalizeBend: int -> real): (r: Option<EventBody>)
    requires IsTempo(kind) ==> kind.meta.micros > 0
    ensures r.Some? <==> Kept(kind)
  {
    match kind
    case Midi(_, message) =>
      (match message
       case NoteOff(key, vel) => Some(EventBody.NoteOff(key, Unit(vel), vel))
       case NoteOn(key, vel) => Some(EventBody.NoteOn(key, Unit(vel), vel))
       case Aftertouch(_, _) => None
       case Controller(controller, value) =>
         if controller == 7 then Some(Volume(Unit(value), value))
         else if controller == 10 then Some(Pan(PanValue(value), value))
         else None
       case ProgramChange(program) => Some(EventBody.ProgramChange(program))
       case ChannelAftertouch(_) => None
       case PitchBend(bend) =>
         var raw := BendAsInt(bend);
         Some(EventBody.PitchBend(normalizeBend(raw) * PitchBendRange, raw)))
    case SysEx => None
    case Escape => None
    case Meta(m) =>
      match m
      case Tempo(t) => Some(EventBody.Tempo(Bpm(t)))
      case _ => None
  }

  /** The channel of the event a message becomes: the message's own channel,
      or 0 for a meta message. */
  function EventChannel(kind: TrackEventKind): nat {
    if kind.Midi? then kind.channel else 0
  }

  /** One merged message to at most one event. */
  function Translate(x: Stamped, tpb: nat, normalizeBend: int -> real): (r: Option<Event>)
    requires tpb > 0
    requires IsTempo(x.event.kind) ==> x.event.kind.meta.micros > 0
    ensures r.Some? <==> Kept(x.event.kind)
    ensures r.Some? ==> r.value.track == x.track % 256
    ensures r.Some? ==> r.value.beat == x.tick as real / tpb as real
  {
    var track: U8 := x.track % 256;
    var beat := x.tick as real / tpb as real;
    match TranslateBody(x.event.kind, normalizeBend)
    case Some(body) => Some(Event(track, beat, EventChannel(x.event.kind), body))
    case None => None
  }

  /** A translated event is normalised and carries the raw fields of its
      message. */
  lemma TranslateNormalises(x: Stamped, tpb: nat, normalizeBend: int -> real)
    requires tpb > 0
    requires IsTempo(x.event.kind) ==> x.event.kind.meta.micros > 0
    requires Kept(x.event.kind)
    ensures Normalised(Translate(x, tpb, normalizeBend).value, normalizeBend)
    ensures Carries(x.event.kind, Translate(x, tpb, normalizeBend).value)
  {
  }

  /** The translations of the kept messages, in order. */
  function TranslateAll(s: seq<Stamped>, tpb: nat, normalizeBend: int -> real): (r: seq<Event>)
    requires tpb > 0 && TempoPeriodsDefined(s)
    ensures |r| <= |s|
  {
    if s == [] then []
    else
      var init, x := s[..|s| - 1], s[|s| - 1];
      assert forall y :: y in init ==> y in s;
      var tail := match Translate(x, tpb, normalizeBend) case Some(e) => [e] case None => [];
      TranslateAll(init, tpb, normalizeBend) + tail
  }

  lemma TempoPeriodsDefinedFlattened(tracks: seq<seq<TrackEvent>>)
    requires TempoPeriodsPositive(tracks)
    ensures TempoPeriodsDefined(Flattened(tracks))
    ensures TempoPeriodsDefined(SortByTick(Flattened(tracks)))
  {
    var f := Flattened(tracks);
    forall x | x in f && IsTempo(x.event.kind) ensures x.event.kind.meta.micros > 0 {
      FlattenedMember(tracks, x);
    }
    SortByTickPermutes(f);
    forall x | x in SortByTick(f) ensures x in f {
      assert x in multiset(SortByTick(f));
    }
  }

  /** Every entry of the flattened list is a message of some track. */
  lemma {:induction false} FlattenedMember(tracks: seq<seq<TrackEvent>>, x: Stamped)
    requires x in Flattened(tracks)
    ensures exists t, j :: 0 <= t < |tracks| && 0 <= j < |tracks[t]| && x.event == tracks[t][j]
  {
    var init, last := tracks[..|tracks| - 1], tracks[|tracks| - 1];
    if x in Flattened(init) {
      FlattenedMember(init, x);
      var t, j :| 0 <= t < |init| && 0 <= j < |init[t]| && x.event == init[t][j];
      assert tracks[t] == init[t];
    } else {
      var st := StampTrack(|tracks| - 1, last);
      assert x in st;
      var j :| 0 <= j < |st| && st[j] == x;
      assert x.event == tracks[|tracks| - 1][j];
    }
  }

  /** The whole of `parse` on a decoded file: fail on timecode timing before
      anything is produced; otherwise translate the stably sorted merge. */
  function ParseSpec(timing: Timing, tracks: seq<seq<TrackEvent>>, normalizeBend: int -> real)
    : (r: Result<seq<Event>, ParseError>)
    requires timing.Metrical? ==> timing.tpb > 0
    requires timing.Metrical? ==> TempoPeriodsPositive(tracks)
    ensures r.Failure? <==> timing.Timecode?
  {
    match timing
    case Timecode => Failure(TimecodeUnsupported)
    case Metrical(tpb) =>
      TempoPeriodsDefinedFlattened(tracks);
      Success(TranslateAll(SortByTick(Flattened(tracks)), tpb, normalizeBend))
  }

  /** ezmid's `parse` as it runs: the timing check, the running tick
      per track, the in-place stable sort, and the loop that pushes each
      kept message's event. */
  method Parse(timing: Timing, tracks: seq<seq<TrackEvent>>, normalizeBend: int -> real)
    returns (r: Result<seq<Event>, ParseError>)
    requires timing.Metrical? ==> timing.tpb > 0
    requires timing.Metrical? ==> TempoPeriodsPositive(tracks)
    ensures r == ParseSpec(timing, tracks, normalizeBend)
  {
    if timing.Timecode? {
      return Failure(TimecodeUnsupported);
    }
    var tpb := timing.tpb;
    var flat := Flatten(tracks);
    var a := new Stamped[|flat|](k requires 0 <= k < |flat| => flat[k]);
    assert a[..] == flat;
    SortInPlace(a);
    ghost var sorted := a[..];
    TempoPeriodsDefinedFlattened(tracks);
    var events := [];
    var k := 0;
    while k < a.Length
      invariant 0 <= k <= a.Length == |sorted| && a[..] == sorted
      invariant TempoPeriodsDefined(sorted[..k])
      invariant events == TranslateAll(sorted[..k], tpb, normalizeBend)
    {
      TranslateStep(sorted, k, tpb, normalizeBend);
      match Translate(a[k], tpb, normalizeBend) {
        case Some(e) => events := events + [e];
        case None =>
      }
      k := k + 1;
    }
    assert sorted[..k] == sorted;
    return Success(events);
  }

  /** One round of the parser's loop: the translation of one more entry
      extends the events by that entry's event, if it has one. */
  lemma TranslateStep(s: seq<Stamped>, k: nat, tpb: nat, normalizeBend: int -> real)
    requires tpb > 0 && TempoPeriodsDefined(s) && k < |s|
    ensures IsTempo(s[k].event.kind) ==> s[k].event.kind.meta.micros > 0
    ensures TempoPeriodsDefined(s[..k]) && TempoPeriodsDefined(s[..k + 1])
    ensures TranslateAll(s[..k + 1], tpb, normalizeBend)
         == TranslateAll(s[..k], tpb, normalizeBend)
          + match Translate(s[k], tpb, normalizeBend) case Some(e) => [e] case None => []
  {
    assert s[k] in s;
    assert forall y :: y in s[..k + 1] ==> y in s;
    assert s[..k + 1][..k] == s[..k];
  }

  // ---------------------------------------------------------------------
  // Properties of the translation

  /** Each event of the translation comes from some entry of the list. */
  lemma {:induction false} TranslatedFrom(s: seq<Stamped>, tpb: nat, normalizeBend: int -> real, i: nat)
    requires tpb > 0 && TempoPeriodsDefined(s)
    requires i < |TranslateAll(s, tpb, normalizeBend)|
    ensures exists j :: 0 <= j < |s| && Translate(s[j], tpb, normalizeBend) == Some(TranslateAll(s, tpb, normalizeBend)[i])
  {
    var init, x := s[..|s| - 1], s[|s| - 1];
    assert forall y :: y in init ==> y in s;
    var prev := TranslateAll(init, tpb, normalizeBend);
    if i < |prev| {
      TranslatedFrom(init, tpb, normalizeBend, i);
      var j :| 0 <= j < |init| && Translate(init[j], tpb, normalizeBend) == Some(prev[i]);
      assert s[j] == init[j];
    } else {
      assert Translate(x, tpb, normalizeBend) == Some(TranslateAll(s, tpb, normalizeBend)[i]);
    }
  }

  lemma BeatMonotone(a: nat, b: nat, tpb: nat)
    requires a <= b && tpb > 0
    ensures a as real / tpb as real <= b as real / tpb as real
  {
    var d := (b - a) as real / tpb as real;
    assert d >= 0.0;
    assert b as real / tpb as real == a as real / tpb as real + d;
  }

  lemma BeatStrictlyMonotone(a: nat, b: nat, tpb: nat)
    requires a < b && tpb > 0
    ensures a as real / tpb as real < b as real / tpb as real
  {
    var d := (b - a) as real / tpb as real;
    assert d > 0.0;
    assert b as real / tpb as real == a as real / tpb as real + d;
  }

  /** Translating a list sorted by tick gives events whose beats never
      decrease. */
  lemma {:induction false} TranslateAllBeatsInOrder(s: seq<Stamped>, tpb: nat, normalizeBend: int -> real)
    requires tpb > 0 && TempoPeriodsDefined(s) && SortedByTick(s)
    ensures BeatsInOrder(TranslateAll(s, tpb, normalizeBend))
  {
    if s != [] {
      var init, x := s[..|s| - 1], s[|s| - 1];
      assert forall y :: y in init ==> y in s;
      assert SortedByTick(init);
      TranslateAllBeatsInOrder(init, tpb, normalizeBend);
      var prev := TranslateAll(init, tpb, normalizeBend);
      var out := TranslateAll(s, tpb, normalizeBend);
      if Translate(x, tpb, normalizeBend).Some? {
        var e := Translate(x, tpb, normalizeBend).value;
        assert out == prev + [e];
        forall i, j | 0 <= i < j < |out| ensures out[i].beat <= out[j].beat {
          if j == |prev| {
            TranslatedFrom(init, tpb, normalizeBend, i);
            var k :| 0 <= k < |init| && Translate(init[k], tpb, normalizeBend) == Some(prev[i]);
            assert s[k] == init[k];
            BeatMonotone(init[k].tick, x.tick, tpb);
          } else {
            assert out[i] == prev[i] && out[j] == prev[j];
          }
        }
      }
    }
  }

  /** Translating a list ordered by tick, then track, with fewer than 256
      tracks, gives events ordered by beat, then track. */
  lemma {:induction false} TranslateAllTracksInOrder(s: seq<Stamped>, tpb: nat, normalizeBend: int -> real)
    requires tpb > 0 && TempoPeriodsDefined(s) && SortedByTickThenTrack(s)
    requires forall x :: x in s ==> x.track < 256
    ensures BeatsThenTracksInOrder(TranslateAll(s, tpb, normalizeBend))
  {
    if s != [] {
      var init, x := s[..|s| - 1], s[|s| - 1];
      assert forall y :: y in init ==> y in s;
      assert SortedByTickThenTrack(init);
      TranslateAllTracksInOrder(init, tpb, normalizeBend);
      var prev := TranslateAll(init, tpb, normalizeBend);
      if Translate(x, tpb, normalizeBend).Some? {
        var e := Translate(x, tpb, normalizeBend).value;
        forall i | 0 <= i < |prev| ensures BeatTrackLe(prev[i], e) {
          TranslatedBefore(s, tpb, normalizeBend, i);
        }
        SnocBeatsThenTracks(prev, e);
      }
    }
  }

  /** An event translated from an earlier entry of a list ordered by tick,
      then track, comes no later than the last entry's event. */
  lemma TranslatedBefore(s: seq<Stamped>, tpb: nat, normalizeBend: int -> real, i: nat)
    requires tpb > 0 && TempoPeriodsDefined(s) && SortedByTickThenTrack(s) && s != []
    requires forall x :: x in s ==> x.track < 256
    requires Translate(s[|s| - 1], tpb, normalizeBend).Some?
    requires TempoPeriodsDefined(s[..|s| - 1]) && i < |TranslateAll(s[..|s| - 1], tpb, normalizeBend)|
    ensures BeatTrackLe(TranslateAll(s[..|s| - 1], tpb, normalizeBend)[i], Translate(s[|s| - 1], tpb, normalizeBend).value)
  {
    var init, x := s[..|s| - 1], s[|s| - 1];
    TranslatedFrom(init, tpb, normalizeBend, i);
    var k :| 0 <= k < |init| && Translate(init[k], tpb, normalizeBend) == Some(TranslateAll(init, tpb, normalizeBend)[i]);
    assert s[k] == init[k];
    assert x in s && s[k] in s;
    TranslatedPairLe(init[k], x, tpb, normalizeBend);
  }

  /** Entries in (tick, track) order translate to events in (beat, track)
      order, as long as the track numbers do not wrap. */
  lemma TranslatedPairLe(y: Stamped, x: Stamped, tpb: nat, normalizeBend: int -> real)
    requires tpb > 0 && TickTrackLe(y, x) && y.track < 256 && x.track < 256
    requires IsTempo(y.event.kind) ==> y.event.kind.meta.micros > 0
    requires IsTempo(x.event.kind) ==> x.event.kind.meta.micros > 0
    requires Translate(y, tpb, normalizeBend).Some? && Translate(x, tpb, normalizeBend).Some?
    ensures BeatTrackLe(Translate(y, tpb, normalizeBend).value, Translate(x, tpb, normalizeBend).value)
  {
    if y.tick < x.tick {
      BeatStrictlyMonotone(y.tick, x.tick, tpb);
    }
  }

  lemma SnocBeatsThenTracks(es: seq<Event>, e: Event)
    requires BeatsThenTracksInOrder(es)
    requires forall i :: 0 <= i < |es| ==> BeatTrackLe(es[i], e)
    ensures BeatsThenTracksInOrder(es + [e])
  {
    forall i, j | 0 <= i < j < |es + [e]| ensures BeatTrackLe((es + [e])[i], (es + [e])[j]) {
      if j == |es| {
        assert (es + [e])[i] == es[i];
      } else {
        assert (es + [e])[i] == es[i] && (es + [e])[j] == es[j];
      }
    }
  }

  // ---------------------------------------------------------------------
  // Properties of parse

  /** Timecode timing fails, and fails before any event exists: the result
      carries no events at all. */
  lemma TimecodeFails(tracks: seq<seq<TrackEvent>>, normalizeBend: int -> real)
    ensures ParseSpec(Timecode, tracks, normalizeBend) == Failure(TimecodeUnsupported)
  {
  }

  /** Timecode timing fails even when a tempo message has period 0, which
      is never divided by on that path. */
  lemma TimecodeZeroTempoFails(normalizeBend: int -> real)
    ensures ParseSpec(Timecode, [[TrackEvent(0, Meta(MetaMessage.Tempo(0)))]], normalizeBend)
      == Failure(TimecodeUnsupported)
  {
  }

  /** The kept messages are at most all messages. */
  lemma ParseLength(tpb: U15, tracks: seq<seq<TrackEvent>>, normalizeBend: int -> real)
    requires tpb > 0 && TempoPeriodsPositive(tracks)
    ensures |ParseSpec(Metrical(tpb), tracks, normalizeBend).value| <= TotalLength(tracks)
  {
    FlattenedLength(tracks);
    SortByTickPermutes(Flattened(tracks));
    assert |multiset(SortByTick(Flattened(tracks)))| == |multiset(Flattened(tracks))|;
  }

  /** No tracks, or only empty ones, give an empty stream and no error. */
  lemma {:induction false} ParseEmpty(tpb: U15, tracks: seq<seq<TrackEvent>>, normalizeBend: int -> real)
    requires tpb > 0
    requires forall t :: 0 <= t < |tracks| ==> tracks[t] == []
    ensures TempoPeriodsPositive(tracks)
    ensures ParseSpec(Metrical(tpb), tracks, normalizeBend) == Success([])
  {
    FlattenedLength(tracks);
    TotalLengthEmpty(tracks);
  }

  lemma {:induction false} TotalLengthEmpty(tracks: seq<seq<TrackEvent>>)
    requires forall t :: 0 <= t < |tracks| ==> tracks[t] == []
    ensures TotalLength(tracks) == 0
  {
    if tracks != [] {
      TotalLengthEmpty(tracks[..|tracks| - 1]);
    }
  }

  /** The beats of the parsed stream never decrease. */
  lemma ParseBeatsInOrder(tpb: U15, tracks: seq<seq<TrackEvent>>, normalizeBend: int -> real)
    requires tpb > 0 && TempoPeriodsPositive(tracks)
    ensures BeatsInOrder(ParseSpec(Metrical(tpb), tracks, normalizeBend).value)
  {
    TempoPeriodsDefinedFlattened(tracks);
    SortByTickSorted(Flattened(tracks));
    TranslateAllBeatsInOrder(SortByTick(Flattened(tracks)), tpb, normalizeBend);
  }

  /** With at most 256 tracks, events at the same beat come out in track
      order: the tie-break of the stable sort. */
  lemma ParseTracksInOrder(tpb: U15, tracks: seq<seq<TrackEvent>>, normalizeBend: int -> real)
    requires tpb > 0 && TempoPeriodsPositive(tracks) && |tracks| <= 256
    ensures BeatsThenTracksInOrder(ParseSpec(Metrical(tpb), tracks, normalizeBend).value)
  {
    var f := Flattened(tracks);
    TempoPeriodsDefinedFlattened(tracks);
    FlattenedTrackMajor(tracks);
    SortByTickOrdersTracks(f);
    SortByTickPermutes(f);
    forall x | x in SortByTick(f) ensures x.track < 256 {
      assert x in multiset(SortByTick(f));
    }
    TranslateAllTracksInOrder(SortByTick(f), tpb, normalizeBend);
  }

  /** Every parsed event is normalised; in particular every pitch bend is
      `normalizeBend(raw) * 2`, whatever controller messages came before it
      on its channel. */
  lemma ParseNormalised(tpb: U15, tracks: seq<seq<TrackEvent>>, normalizeBend: int -> real)
    requires tpb > 0 && TempoPeriodsPositive(tracks)
    ensures forall e :: e in ParseSpec(Metrical(tpb), tracks, normalizeBend).value ==>
      Normalised(e, normalizeBend) && e.beat >= 0.0
  {
    TempoPeriodsDefinedFlattened(tracks);
    var s := SortByTick(Flattened(tracks));
    var out := TranslateAll(s, tpb, normalizeBend);
    forall i | 0 <= i < |out| ensures Normalised(out[i], normalizeBend) && out[i].beat >= 0.0 {
      TranslatedNormalised(s, tpb, normalizeBend, i);
    }
    assert ParseSpec(Metrical(tpb), tracks, normalizeBend).value == out;
  }

  /** Each event of a translation is normalised and has a beat of 0 or
      later. */
  lemma TranslatedNormalised(s: seq<Stamped>, tpb: nat, normalizeBend: int -> real, i: nat)
    requires tpb > 0 && TempoPeriodsDefined(s)
    requires i < |TranslateAll(s, tpb, normalizeBend)|
    ensures Normalised(TranslateAll(s, tpb, normalizeBend)[i], normalizeBend)
    ensures TranslateAll(s, tpb, normalizeBend)[i].beat >= 0.0
  {
    TranslatedFrom(s, tpb, normalizeBend, i);
    var j :| 0 <= j < |s| && Translate(s[j], tpb, normalizeBend) == Some(TranslateAll(s, tpb, normalizeBend)[i]);
    assert s[j] in s;
    TranslateNormalises(s[j], tpb, normalizeBend);
    BeatMonotone(0, s[j].tick, tpb);
    ZeroTickBeat(tpb);
  }

  // ---------------------------------------------------------------------
  // The normalisations

  /** Pan lies in [-1, 1]; raw 0 is hard left, 64 the centre, 127 hard right. */
  lemma PanBounds(raw: U7)
    ensures -1.0 <= PanValue(raw) <= 1.0
    ensures PanValue(0) == -1.0 && PanValue(64) == 0.0 && PanValue(127) == 1.0
  {
  }

  /** A volume is recovered exactly from its normalised value. */
  lemma VolumeRoundTrip(raw: U7)
    ensures Unit(raw) * 127.0 == raw as real
    ensures 0.0 <= Unit(raw) <= 1.0
  {
  }

  /** A normalised velocity is zero exactly when the raw byte is. */
  lemma VelocityZero(raw: U7)
    ensures Unit(raw) == 0.0 <==> raw == 0
  {
  }

  // ---------------------------------------------------------------------
  // Concrete streams

  /** A list with nothing kept translates to no events. */
  lemma {:induction false} TranslateAllDropped(s: seq<Stamped>, tpb: nat, normalizeBend: int -> real)
    requires tpb > 0 && TempoPeriodsDefined(s)
    requires forall i :: 0 <= i < |s| ==> !Kept(s[i].event.kind)
    ensures TranslateAll(s, tpb, normalizeBend) == []
  {
    if s != [] {
      assert forall y :: y in s[..|s| - 1] ==> y in s;
      TranslateAllDropped(s[..|s| - 1], tpb, normalizeBend);
    }
  }

  /** A track whose deltas are all zero stamps every message at tick 0. */
  lemma {:induction false} SumDeltasZero(evs: seq<TrackEvent>)
    requires forall i :: 0 <= i < |evs| ==> evs[i].delta == 0
    ensures SumDeltas(evs) == 0
  {
    if evs != [] {
      SumDeltasZero(evs[..|evs| - 1]);
    }
  }

  lemma StampTrackAtZero(t: nat, evs: seq<TrackEvent>)
    requires forall i :: 0 <= i < |evs| ==> evs[i].delta == 0
    ensures StampTrack(t, evs) == seq(|evs|, n requires 0 <= n < |evs| => Stamped(t, 0, evs[n]))
  {
    forall n | 0 <= n < |evs| ensures StampTrack(t, evs)[n] == Stamped(t, 0, evs[n]) {
      SumDeltasZero(evs[..n + 1]);
    }
  }

  /** A list already sorted by tick is left as it is. */
  lemma SortByTickSortedIdentity(s: seq<Stamped>)
    requires SortedByTick(s)
    ensures SortByTick(s) == s
  {
    StableSortUnique(s, s);
  }

  /** Two one-message tracks with zero deltas flatten to both messages at
      tick 0, track 0 first. */
  lemma FlattenTwoSingles(ea: TrackEvent, eb: TrackEvent)
    requires ea.delta == 0 && eb.delta == 0
    ensures Flattened([[ea], [eb]]) == [Stamped(0, 0, ea), Stamped(1, 0, eb)]
  {
    var tracks := [[ea], [eb]];
    StampTrackAtZero(0, [ea]);
    StampTrackAtZero(1, [eb]);
    assert tracks[..1][..0] == [];
    assert Flattened(tracks[..1]) == [Stamped(0, 0, ea)];
  }

  /** Two kept entries at tick 0 of tracks 0 and 1 translate to two events
      at beat 0 of tracks 0 and 1. */
  lemma TranslateAllPair(x0: Stamped, x1: Stamped, tpb: nat, normalizeBend: int -> real)
    requires tpb > 0 && TempoPeriodsDefined([x0, x1]) && Kept(x0.event.kind) && Kept(x1.event.kind)
    requires x0.track == 0 && x1.track == 1 && x0.tick == 0 && x1.tick == 0
    ensures var r := TranslateAll([x0, x1], tpb, normalizeBend);
      |r| == 2 && r[0].track == 0 && r[1].track == 1 && r[0].beat == 0.0 && r[1].beat == 0.0
  {
    assert x0 in [x0, x1] && x1 in [x0, x1];
    assert [x0, x1][..1] == [x0] && [x0][..0] == [];
    var e0, e1 := Translate(x0, tpb, normalizeBend).value, Translate(x1, tpb, normalizeBend).value;
    assert TranslateAll([x0, x1], tpb, normalizeBend) == [e0, e1];
    ZeroTickBeat(tpb);
  }

  /** Two tracks with one kept message at tick 0 each: both events are at
      beat 0, and track 0's comes first. */
  lemma SimultaneousMessagesKeepTrackOrder(ea: TrackEvent, eb: TrackEvent, tpb: U15, normalizeBend: int -> real)
    requires tpb > 0 && ea.delta == 0 && eb.delta == 0
    requires Kept(ea.kind) && Kept(eb.kind) && TempoPeriodsPositive([[ea], [eb]])
    ensures var r := ParseSpec(Metrical(tpb), [[ea], [eb]], normalizeBend);
      && r.Success? && |r.value| == 2
      && r.value[0].track == 0 && r.value[1].track == 1
      && r.value[0].beat == 0.0 && r.value[1].beat == 0.0
  {
    var x0, x1 := Stamped(0, 0, ea), Stamped(1, 0, eb);
    FlattenTwoSingles(ea, eb);
    assert SortedByTick([x0, x1]);
    ParseSortedFlattened(tpb, [[ea], [eb]], normalizeBend);
    TranslateAllPair(x0, x1, tpb, normalizeBend);
  }

  /** Tick 0 is beat 0. */
  lemma ZeroTickBeat(tpb: nat)
    requires tpb > 0
    ensures 0 as real / tpb as real == 0.0
  {
  }

  /** A file whose merged messages are already in tick order parses to their
      translation in that order. */
  lemma ParseSortedFlattened(tpb: U15, tracks: seq<seq<TrackEvent>>, normalizeBend: int -> real)
    requires tpb > 0 && TempoPeriodsPositive(tracks) && SortedByTick(Flattened(tracks))
    ensures TempoPeriodsDefined(Flattened(tracks))
    ensures ParseSpec(Metrical(tpb), tracks, normalizeBend) == Success(TranslateAll(Flattened(tracks), tpb, normalizeBend))
  {
    TempoPeriodsDefinedFlattened(tracks);
    SortByTickSortedIdentity(Flattened(tracks));
  }

  /** A single track whose deltas are all zero parses to the translation of
      its messages in their own order. */
  lemma ZeroDeltaTrack(evs: seq<TrackEvent>, tpb: U15, normalizeBend: int -> real)
    requires tpb > 0 && TempoPeriodsPositive([evs])
    requires forall i :: 0 <= i < |evs| ==> evs[i].delta == 0
    ensures var f := seq(|evs|, n requires 0 <= n < |evs| => Stamped(0, 0, evs[n]));
      TempoPeriodsDefined(f) && ParseSpec(Metrical(tpb), [evs], normalizeBend) == Success(TranslateAll(f, tpb, normalizeBend))
  {
    var f := seq(|evs|, n requires 0 <= n < |evs| => Stamped(0, 0, evs[n]));
    assert [evs][..0] == [];
    StampTrackAtZero(0, evs);
    assert Flattened([evs]) == f;
    SortByTickSortedIdentity(f);
    TempoPeriodsDefinedFlattened([evs]);
  }

  /** On any channel `c`, selecting the pitch-bend-sensitivity parameter
      (controllers 101 and 100 set to 0) and sending any data entry `n`
      (controller 6) produces no event, and a following pitch bend is still
      scaled by the fixed range 2. */
  lemma DataEntryDoesNotRescaleBend(c: U4, n: U7, bend: U14, normalizeBend: int -> real)
    ensures var tracks := [[TrackEvent(0, Midi(c, Controller(101, 0))), TrackEvent(0, Midi(c, Controller(100, 0))),
                            TrackEvent(0, Midi(c, Controller(6, n))), TrackEvent(0, Midi(c, MidiMessage.PitchBend(bend)))]];
      var r := ParseSpec(Metrical(96), tracks, normalizeBend);
      r.Success? && r.value == [Event(0, 0.0, c, EventBody.PitchBend(normalizeBend(bend - 0x2000) * 2.0, bend - 0x2000))]
  {
    var evs := [TrackEvent(0, Midi(c, Controller(101, 0))), TrackEvent(0, Midi(c, Controller(100, 0))),
                TrackEvent(0, Midi(c, Controller(6, n))), TrackEvent(0, Midi(c, MidiMessage.PitchBend(bend)))];
    assert TempoPeriodsPositive([evs]);
    ZeroDeltaTrack(evs, 96, normalizeBend);
    var f := seq(|evs|, n requires 0 <= n < |evs| => Stamped(0, 0, evs[n]));
    TranslateAllOnlyLast(f, 96, normalizeBend);
    BendAtZero(c, bend, normalizeBend);
  }

  /** A list in which only the last entry is kept translates to that entry's
      event alone. */
  lemma TranslateAllOnlyLast(s: seq<Stamped>, tpb: nat, normalizeBend: int -> real)
    requires tpb > 0 && TempoPeriodsDefined(s) && s != []
    requires forall i :: 0 <= i < |s| - 1 ==> !Kept(s[i].event.kind)
    requires Kept(s[|s| - 1].event.kind)
    ensures IsTempo(s[|s| - 1].event.kind) ==> s[|s| - 1].event.kind.meta.micros > 0
    ensures TranslateAll(s, tpb, normalizeBend) == [Translate(s[|s| - 1], tpb, normalizeBend).value]
  {
    assert s[|s| - 1] in s;
    TranslateAllDropped(s[..|s| - 1], tpb, normalizeBend);
  }

  /** A pitch bend at tick 0 of track 0 becomes a bend event at beat 0,
      scaled by the fixed range. */
  lemma BendAtZero(c: U4, bend: U14, normalizeBend: int -> real)
    ensures Translate(Stamped(0, 0, TrackEvent(0, Midi(c, MidiMessage.PitchBend(bend)))), 96, normalizeBend)
         == Some(Event(0, 0.0, c, EventBody.PitchBend(normalizeBend(bend - 0x2000) * 2.0, bend - 0x2000)))
  {
  }
}
