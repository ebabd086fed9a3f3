/** The parser's output fed to a fresh dispatcher, as the library's callers
    use it: what the dispatcher can rely on about a parsed stream. */
module Pipeline {
  import opened Wrappers
  import opened Midi
  import opened Model
  import opened Merge
  import opened Parse
  import opened Dispatch

  /** Parsed events have non-zero (indeed positive) tempos, beats at 0 or
      later that never decrease, so their schedule has a positive tempo,
      intervals that are never negative and a clock that never runs
      backwards. */
  lemma ParsedStreamSchedules(tpb: U15, tracks: seq<seq<TrackEvent>>, normalizeBend: int -> real)
    requires tpb > 0 && TempoPeriodsPositive(tracks)
    ensures var es := ParseSpec(Metrical(tpb), tracks, normalizeBend).value;
      && NonZeroTempos(es) && PositiveTempos(es)
      && (forall k :: 0 <= k < |es| ==> Schedule(es)[k].bpm > 0.0 && Schedule(es)[k].dtime >= 0.0)
      && (forall j, k :: 0 <= j <= k < |es| ==> Schedule(es)[j].time <= Schedule(es)[k].time)
  {
    ParsedEventsFit(tpb, tracks, normalizeBend);
    ScheduleWellBehaved(ParseSpec(Metrical(tpb), tracks, normalizeBend).value);
  }

  /** Parsed events meet what the dispatcher's clock properties ask for. */
  lemma ParsedEventsFit(tpb: U15, tracks: seq<seq<TrackEvent>>, normalizeBend: int -> real)
    requires tpb > 0 && TempoPeriodsPositive(tracks)
    ensures var es := ParseSpec(Metrical(tpb), tracks, normalizeBend).value;
      && NonZeroTempos(es) && PositiveTempos(es) && BeatsInOrder(es)
      && (forall i :: 0 <= i < |es| ==> es[i].beat >= 0.0)
  {
    ParseNormalised(tpb, tracks, normalizeBend);
    ParseBeatsInOrder(tpb, tracks, normalizeBend);
    NormalisedEventsFit(ParseSpec(Metrical(tpb), tracks, normalizeBend).value, normalizeBend);
  }

  /** Normalised events have positive tempos. */
  lemma NormalisedEventsFit(es: seq<Event>, normalizeBend: int -> real)
    requires forall e :: e in es ==> Normalised(e, normalizeBend) && e.beat >= 0.0
    ensures NonZeroTempos(es) && PositiveTempos(es)
    ensures forall i :: 0 <= i < |es| ==> es[i].beat >= 0.0
  {
    forall i | 0 <= i < |es| ensures Normalised(es[i], normalizeBend) && es[i].beat >= 0.0 {
      assert es[i] in es;
    }
  }

  /** A parsed NoteOn is emitted as a NoteOff exactly when its raw velocity
      is 0, keeping its key and its raw velocity. */
  lemma ParsedSilentNoteOn(tpb: U15, tracks: seq<seq<TrackEvent>>, normalizeBend: int -> real, k: nat)
    requires tpb > 0 && TempoPeriodsPositive(tracks)
    requires var es := ParseSpec(Metrical(tpb), tracks, normalizeBend).value;
      k < |es| && es[k].body.NoteOn?
    ensures var es := ParseSpec(Metrical(tpb), tracks, normalizeBend).value;
      NonZeroTempos(es) &&
      (es[k].body.rawVelocity == 0 <==> Schedule(es)[k].event.body.NoteOff?) &&
      (es[k].body.rawVelocity == 0 ==> Schedule(es)[k].event.body == EventBody.NoteOff(es[k].body.notenum, 0.0, 0))
  {
    var es := ParseSpec(Metrical(tpb), tracks, normalizeBend).value;
    ParsedStreamSchedules(tpb, tracks, normalizeBend);
    ParseNormalised(tpb, tracks, normalizeBend);
    ScheduleKeepsEvents(es, k);
    assert es[k] in es;
  }

  /** A file with no messages schedules nothing. */
  lemma EmptyFileSchedulesNothing(tpb: U15, tracks: seq<seq<TrackEvent>>, normalizeBend: int -> real)
    requires tpb > 0
    requires forall t :: 0 <= t < |tracks| ==> tracks[t] == []
    ensures TempoPeriodsPositive(tracks)
    ensures var es := ParseSpec(Metrical(tpb), tracks, normalizeBend).value;
      NonZeroTempos(es) && Schedule(es) == []
  {
    ParseEmpty(tpb, tracks, normalizeBend);
  }

  /** Parses the file and runs a fresh dispatcher over the events to the
      end. Timecode timing fails before anything is dispatched. */
  method ParseAndDispatch(timing: Timing, tracks: seq<seq<TrackEvent>>, normalizeBend: int -> real)
    returns (r: Result<seq<DispatchedEvent>, ParseError>)
    requires timing.Metrical? ==> timing.tpb > 0
    requires timing.Metrical? ==> TempoPeriodsPositive(tracks)
    ensures r.Failure? <==> timing.Timecode?
    ensures r.Success? ==> var es := ParseSpec(timing, tracks, normalizeBend).value;
      NonZeroTempos(es) && r.value == Schedule(es)
  {
    var parsed := Parse.Parse(timing, tracks, normalizeBend);
    match parsed {
      case Failure(e) =>
        r := Failure(e);
      case Success(events) =>
        ParsedStreamSchedules(timing.tpb, tracks, normalizeBend);
        var out := DispatchAll(events);
        r := Success(out);
    }
  }
}
