# ezmid in Dafny

ezmid turns a Standard MIDI File into its musical events and then schedules
those events in seconds. This project models both halves.

- **`parse`** runs the steps below on a decoded file.
  - It rejects timecode timing.
  - It numbers each track's messages with their absolute tick, which starts at 0 for each track and adds each message's delta.
  - It flattens the tracks in track order and stably sorts the result by tick.
  - It translates every kept message into an `Event` and drops the rest. The kept kinds are note off and note on, controllers 7 (volume) and 10 (pan), program change, pitch bend, and the tempo meta message.
  - It uses fixed normalisations:
    - velocity and volume `raw / 127`;
    - pan `max((raw - 64) / 63, -1)`;
    - pitch bend `normalizeBend(raw) * 2`;
    - tempo `60000000 / µs` beats per minute on channel 0.
- **`Dispatcher`** is an iterator over the parsed events with the state `i`, `bpm` (initially 120), `time` (initially 0) and `last_beat` (initially 0). Each `next` does the following, in order:
  - computes `dtime = (beat - last_beat) * 60 / bpm` with the tempo in force before the event;
  - adds `dtime` to the clock;
  - applies a Tempo event;
  - rewrites a NoteOn whose velocity is 0 into a NoteOff;
  - records the beat and yields the event with the tempo, clock and interval.

Three modules have counterparts in the crate: `Model` (`src/model.rs`), `Merge` with `Parse` (`src/parse.rs`) and `Dispatch` (`src/dispatcher.rs`). `Midi`, `Pipeline` and `Wrappers` stand for what lies around them. The modules:

- `Midi`: midly's decoded types, the input of `parse`: the timing, track events, channel and meta messages, and the 14-bit pitch bend.
- `Model` (`src/model.rs`): `Event` and the closed seven-variant `EventBody`.
- `Merge`: the first half of `parse`.
  - The per-track running tick, as the `Flatten` method and the `Flattened` function.
  - The stable sort by tick. `SortByTick` is the specification: a stable insertion sort. `SortInPlace` is the in-place array sort proved equal to it.
- `Parse`: the other half of `parse`.
  - `Translate`, one message to at most one event, and the drop policy.
  - `ParseSpec`, the whole of `parse` as a function.
  - `Parse`, the same as a method with the source's loops.
- `Dispatch` (`src/dispatcher.rs`):
  - `Schedule`, the stream the dispatcher yields as a function of the events;
  - the `Dispatcher` class with `Next`, whose ghost `dtimes` records every emitted interval;
  - `DispatchAll`, which drains a fresh dispatcher.
- `Pipeline`: the parser's output fed to a dispatcher, as the crate's example programs use the two.
- `Wrappers`: the stock `Option` and `Result` datatypes.

Modelling choices:

- Every float becomes a Dafny `real`.
- midly's `PitchBend::as_f32` is the parameter `normalizeBend`, because its body is not part of this model.
- A timecode file gives `Failure(TimecodeUnsupported)`; the source panics at that point.
- `track as u8` is written out as `track % 256`.

## Model

| member | source | states |
|---|---|---|
| Midi.BendAsInt | src/parse.rs:99 | The signed raw bend of a 14-bit value lies in -8192..8191, the range `raw_bend` documents at src/model.rs:31. |
| Merge.StampTrack | src/parse.rs:16-21 | One numbered entry per message of the track. |
| Merge.StampTrackSnoc | src/parse.rs:17-20 | Numbering one more message appends it with the track index and the sum of the deltas up to and including it. |
| Merge.Flatten | src/parse.rs:12-23 | The nested loop result equals `Flattened(tracks)`: each track's stamped messages in track order. The running tick restarts at 0 per track and is the prefix sum of deltas. |
| Merge.FlattenedLength | src/parse.rs:12-23 | The flattened list has one entry per message of the file. |
| Merge.FlattenedAt | src/parse.rs:16-21 | Message `j` of track `t` sits at `Offset(t) + j` with track `t` and tick `SumDeltas(tracks[t][..j+1])`. |
| Merge.FlattenedTrackMajor | src/parse.rs:12-16 | Every entry's track is a valid index, and the flattened list's tracks never decrease. |
| Merge.WithTick | src/parse.rs:24 | The entries with one tick are no longer than the list. |
| Merge.WithTickMembers | src/parse.rs:24 | The entries kept for a tick are exactly the list's entries with that tick. |
| Merge.InsertByTickPermutes | src/parse.rs:24 | One insertion step adds exactly the new entry to the multiset. |
| Merge.InsertByTickOrdersTracks | src/parse.rs:24 | Inserting an entry whose track is not below any present one keeps (tick, track) order. |
| Merge.InsertByTickStable | src/parse.rs:24 | Insertion appends the new entry at the end of its tick group. |
| Merge.SortByTickPermutes | src/parse.rs:24 | The sort is a permutation (multiset equality). |
| Merge.SortByTickSorted | src/parse.rs:24 | The sorted list's ticks never decrease. |
| Merge.SortByTickStable | src/parse.rs:24 | Stability: for every tick, the entries with that tick come out exactly in their input order. |
| Merge.SortByTickOrdersTracks | src/parse.rs:12-24 | Input in track order sorts to (tick, track) order, so simultaneous messages keep track order. |
| Merge.StableSortUnique | src/parse.rs:24 | Any list sorted by tick that agrees with the input on every tick group equals `SortByTick(input)`. Any stable sort, such as Rust's `sort_by_key`, therefore gives this result. |
| Merge.SortedDeterminedByTicks | src/parse.rs:24 | Two tick-sorted lists with the same tick groups are equal. |
| Merge.WithTickAppend | src/parse.rs:24 | Tick groups distribute over concatenation. |
| Merge.InsertAt | src/parse.rs:24 | The shifting loop leaves the array as `InsertByTick(old a[..i], old a[i])` followed by the untouched `old a[i+1..]`. |
| Merge.InsertByTickAt | src/parse.rs:24 | Insertion places the entry right after position `j - 1`, whose tick is at most its own, and before every later entry, all of whose ticks are greater. |
| Merge.SortStep | src/parse.rs:24 | Inserting entry `i` into the sorted prefix sorts one more entry of the input, and the rest stays as it was. |
| Merge.SortInPlace | src/parse.rs:24 | The in-place sort of the array yields exactly `SortByTick(old a[..])`. |
| Merge.SameLast | src/parse.rs:24 | Two tick-sorted lists with the same tick groups, not both empty, are both non-empty and end with the same entry. |
| Parse.TranslateBody | src/parse.rs:29-135 | A message has an event body exactly when it is one of the seven kept kinds. |
| Parse.Translate | src/parse.rs:28-136 | A message yields an event exactly when it is one of the seven kept kinds. The event has track `track % 256` and beat `tick / tpb`. |
| Parse.TranslateNormalises | src/parse.rs:31-128 | A kept message's event is `Normalised` and carries the message's raw fields. Normalised means: 7-bit raw bytes, channel below 16, velocity `raw/127`, `volume*127 == raw`, pan `PanValue(raw)` in [-1, 1], bend `normalizeBend(raw)*2` with `raw_bend` kept, and tempo `60000000/µs` on channel 0. |
| Parse.TranslateAll | src/parse.rs:26-138 | The translated stream is no longer than the merged list. |
| Parse.TempoPeriodsDefinedFlattened | src/parse.rs:12-24 | Flattening and sorting keep every tempo message's non-zero period, because they only rearrange the file's messages. |
| Parse.FlattenedMember | src/parse.rs:12-23 | Every flattened entry is a message of some track. |
| Parse.ParseSpec | src/parse.rs:4-139 | `parse` fails exactly on timecode timing, before any event is produced. |
| Parse.Parse | src/parse.rs:4-139 | The imperative pipeline gives exactly `ParseSpec`. It consists of the timing check, the running-tick loops, the in-place sort of a copy of the list, and the translate-and-push loop. |
| Parse.TranslateStep | src/parse.rs:27-137 | One round of the push loop appends the entry's event when it has one and nothing otherwise. |
| Parse.TimecodeFails | src/parse.rs:6-11 | Timecode timing gives `Failure(TimecodeUnsupported)` whatever the tracks. |
| Parse.TimecodeZeroTempoFails | src/parse.rs:6-11 | A timecode file whose only message is a Tempo of period 0 still fails with `TimecodeUnsupported`. |
| Parse.TranslatedFrom | src/parse.rs:28-137 | Every output event is the translation of some merged entry. |
| Parse.TranslateAllBeatsInOrder | src/parse.rs:24-34 | Translating a tick-sorted list gives beats that never decrease. |
| Parse.TranslateAllTracksInOrder | src/parse.rs:24-34 | Translating a (tick, track)-sorted list of fewer than 256 tracks gives (beat, track) order. |
| Parse.TranslatedBefore | src/parse.rs:24-34 | In such a list, every event translated from an earlier entry comes no later in (beat, track) order than the last entry's event. |
| Parse.TranslatedPairLe | src/parse.rs:33-34 | Entries in (tick, track) order with tracks below 256 translate to events in (beat, track) order. |
| Parse.BeatMonotone | src/parse.rs:34 | `tick / tpb` is monotone in the tick. |
| Parse.BeatStrictlyMonotone | src/parse.rs:34 | `tick / tpb` is strictly monotone in the tick, so equal beats mean equal ticks. |
| Parse.ParseLength | src/parse.rs:26-138 | The output is no longer than the file's message count. |
| Parse.ParseEmpty | src/parse.rs:12-138 | No tracks or only empty tracks give an empty output. |
| Parse.TotalLengthEmpty | src/parse.rs:12-23 | Only empty tracks means no messages. |
| Parse.ParseBeatsInOrder | src/parse.rs:24-34 | The parsed beats never decrease. |
| Parse.ParseTracksInOrder | src/parse.rs:12-34 | With at most 256 tracks, events at the same beat come out in track order. |
| Parse.ParseNormalised | src/parse.rs:26-137 | Every parsed event is `Normalised` and has a beat of 0 or later. In particular every bend is `normalizeBend(raw) * 2`. |
| Parse.TranslatedNormalised | src/parse.rs:26-137 | Every event of a translated list is `Normalised` and has a beat of 0 or later. |
| Parse.PanBounds | src/parse.rs:74 | Pan lies in [-1, 1] for every 7-bit raw value. Raw 0 gives -1, 64 gives 0 and 127 gives 1. |
| Parse.VolumeRoundTrip | src/parse.rs:62-65 | `volume * 127 == raw` and volume lies in [0, 1]. |
| Parse.VelocityZero | src/parse.rs:38-51 | The normalised velocity is 0 exactly when the raw velocity is 0. |
| Parse.TranslateAllDropped | src/parse.rs:28-137 | A list of only dropped messages translates to nothing. |
| Parse.SumDeltasZero | src/parse.rs:17-19 | Zero deltas keep the running tick at 0. |
| Parse.StampTrackAtZero | src/parse.rs:16-21 | With zero deltas every message of a track is stamped at tick 0 with its track index. |
| Parse.SortByTickSortedIdentity | src/parse.rs:24 | Sorting a list already sorted by tick changes nothing. |
| Parse.ZeroDeltaTrack | src/parse.rs:12-137 | A single track of zero-delta messages parses to their translations in order. |
| Parse.ParseSortedFlattened | src/parse.rs:12-137 | A file whose flattened messages are already in tick order parses to their translation in that order. |
| Parse.FlattenTwoSingles | src/parse.rs:12-23 | Two one-message tracks with zero deltas flatten to both messages at tick 0, track 0 first. |
| Parse.TranslateAllPair | src/parse.rs:28-137 | Two kept entries at tick 0 of tracks 0 and 1 give two events at beat 0 of tracks 0 and 1. |
| Parse.SimultaneousMessagesKeepTrackOrder | src/parse.rs:12-137 | Two tracks with one kept message each at tick 0 parse to two events at beat 0, the track-0 event first. |
| Parse.TranslateAllOnlyLast | src/parse.rs:28-137 | A list in which only the last entry is kept translates to that entry's event alone. |
| Parse.BendAtZero | src/parse.rs:92-102 | A pitch bend at tick 0 of track 0 becomes the event `PitchBend(normalizeBend(bend - 8192) * 2, bend - 8192)` at beat 0 on its channel. |
| Parse.DataEntryDoesNotRescaleBend | src/parse.rs:27-102 | Consider controllers 101=0, 100=0 and 6=n (selecting and setting the pitch-bend range) followed by a pitch bend. The controllers are dropped, and the bend is still `normalizeBend(raw) * 2`. |
| Dispatch.BpmAfterNonZero | src/dispatcher.rs:24-44 | With non-zero tempos the tempo in force, that of the last Tempo event consumed or the initial 120, is never 0. |
| Dispatch.BpmAfterPositive | src/dispatcher.rs:24-44 | With positive tempos the tempo in force is positive. |
| Dispatch.BpmAfterNoTempo | src/dispatcher.rs:24-44 | Without Tempo events the tempo in force stays 120. |
| Dispatch.Rewrite | src/dispatcher.rs:42-57 | Track, beat and channel are never altered. |
| Dispatch.Schedule | src/dispatcher.rs:34-65 | The dispatcher yields one entry per event. |
| Dispatch.SchedulePrefix | src/dispatcher.rs:34-65 | The first `n` yields are `n` entries. |
| Dispatch.SchedulePrefixAt | src/dispatcher.rs:34-65 | Entry `k` of the first `n` yields is the output for event `k`. |
| Dispatch.ScheduleAt | src/dispatcher.rs:34-65 | Entry `k` of the stream is the output for event `k`. |
| Dispatch.Intervals | src/dispatcher.rs:40 | The intervals of the first `n` events are `n` values. |
| Dispatch.IntervalsAt | src/dispatcher.rs:40 | Interval `k` is the one computed before event `k`. |
| Dispatch.IntervalsPrefix | src/dispatcher.rs:40 | The first `m` intervals of `n` events are those of the first `m` events. |
| Dispatch.Dispatcher.constructor | src/dispatcher.rs:20-28 | A fresh dispatcher holds the events, with `i = 0`, bpm 120, time 0, last beat 0 and no emitted intervals. |
| Dispatch.Dispatcher.Next | src/dispatcher.rs:34-65 | See the list after this table. |
| Dispatch.StepKeepsValid | src/dispatcher.rs:38-64 | One `next` from the state after `i` events: the history grows by the new interval, the clock by its sum, the tempo and last beat follow the event, and the yielded entry is the schedule's entry `i`. |
| Dispatch.ElapsedIsSum | src/dispatcher.rs:41 | The clock after `n` events is the sum of their intervals. |
| Dispatch.DispatchAll | src/dispatcher.rs:31-65 | A fresh dispatcher yields exactly `Schedule(events)`: that is `\|events\|` items in input order, each the rewritten input event. |
| Dispatch.ScheduleEvents | src/dispatcher.rs:38-63 | Every entry of the stream carries its input event, rewritten. |
| Dispatch.TempoBeforeAndAfter | src/dispatcher.rs:40-60 | `dtime` uses the tempo before the event. The reported bpm is the event's tempo for a Tempo event, otherwise the tempo before it. |
| Dispatch.BpmStaysPositive | src/dispatcher.rs:24-44 | With positive tempos the reported bpm is always positive. |
| Dispatch.ScheduleWellBehaved | src/dispatcher.rs:38-64 | Non-decreasing beats from 0 under positive tempos give a schedule whose bpm is always positive, whose intervals are 0 or more and whose clock never runs backwards. |
| Dispatch.DtimeNonNegative | src/dispatcher.rs:40 | Non-decreasing beats from 0 under positive tempos give intervals of 0 or more. |
| Dispatch.IntervalNonNegative | src/dispatcher.rs:40 | The same, for the interval before each event; only the first interval needs its beat to be at least 0. |
| Dispatch.TimesInOrder | src/dispatcher.rs:40-41 | Under positive tempos and ordered beats the reported times never decrease, whatever beat the stream starts at. |
| Dispatch.ElapsedOrdered | src/dispatcher.rs:40-41 | Under positive tempos and ordered beats the clock after `m` events is at most the clock after `n >= m` events; from the start this needs the first beat to be at least 0. |
| Dispatch.SumPrefixLe | src/dispatcher.rs:41 | A sum of intervals is at least the sum of any prefix after which no interval is negative. |
| Dispatch.ElapsedWithoutTempo | src/dispatcher.rs:24-41 | Without Tempo events the clock after `n` events is `last_beat * 60 / 120`. |
| Dispatch.NoTempoTelescopes | src/dispatcher.rs:24-41 | Without Tempo events the time of an event at beat b is `b * 60 / 120`, and the bpm stays 120. |
| Dispatch.RewriteLossless | src/dispatcher.rs:42-57 | A silent NoteOn becomes a NoteOff with the same notenum, velocity and raw velocity. Every other event is unchanged. No silent NoteOn is emitted. The rewrite is idempotent. |
| Dispatch.ScheduleKeepsEvents | src/dispatcher.rs:38-63 | The emitted event is its input event, rewritten, with its track, beat and channel. |
| Dispatch.TempoChangeExample | src/dispatcher.rs:40-44 | Take Tempo 120 at beat 0, Tempo 60 at beat 4, then a NoteOn at beat 6. The NoteOn is due at 4.0 s at 60 bpm. |
| Pipeline.ParsedStreamSchedules | src/dispatcher.rs:24-44 | Parsed events have positive tempos, so their schedule has positive bpm, intervals of 0 or more and a clock that never runs backwards. |
| Pipeline.ParsedEventsFit | src/parse.rs:26-137 | Parsed events have non-zero and positive tempos, beats that never decrease, and beats of 0 or later. |
| Pipeline.NormalisedEventsFit | src/parse.rs:120-128 | Normalised events have positive tempos. |
| Pipeline.ParsedSilentNoteOn | src/dispatcher.rs:47-55 | A parsed NoteOn is emitted as a NoteOff exactly when its raw velocity is 0, and then as `NoteOff(notenum, 0, 0)`. |
| Pipeline.EmptyFileSchedulesNothing | src/parse.rs:12-138 | A file without messages gives an empty schedule. |
| Pipeline.ParseAndDispatch | src/dispatcher.rs:20-65 | Parsing then draining a fresh dispatcher fails exactly on timecode timing. On metrical timing it gives `Schedule(ParseSpec(...))`. |

`Dispatch.Dispatcher.Next` states:

- It returns None exactly when `i >= |events|`, and then leaves all state unchanged.
- Otherwise it advances `i` by 1 and yields `Dispatched(events, i)`.
- `dtime` is computed from the old last beat and the old bpm.
- `time` grows by `dtime`.
- bpm becomes the event's tempo on a Tempo event.
- The last beat is recorded.
- `dtime` is appended to the ghost history.
- It preserves `Valid()`: the tempo is the one the consumed events determine and is never 0, and the clock is the sum of the history.

## Left out

- The midly decoder (`Smf::parse`: chunks, variable-length quantities) and its `unwrap` panic on malformed bytes are not modelled. `parse` takes the decoded timing and tracks.
- `PitchBend::as_f32` from midly is not part of this model. It is the uninterpreted parameter `normalizeBend`, so no range of the normalised bend is assumed or proved.
- IEEE floats are not modelled: no f32/f64 rounding, NaN or infinity.
  - Beats, velocities, tempos and times are exact reals.
  - On metrical timing, `tpb > 0` and tempo periods `µs > 0` (`TempoPeriodsPositive`) are preconditions, where the source would divide by zero. Timecode timing needs neither, because the source stops before any division.
  - `velocity == 0.0` is a real comparison. Over the reals it holds exactly when the raw velocity is 0 (`Parse.VelocityZero`).
- The dispatcher requires the events' tempos to be non-zero (`NonZeroTempos`), where the source would divide by zero. The parser's output always satisfies this (`Pipeline.ParsedStreamSchedules`).
- The `u32` wrap-around of the running tick is not modelled. Ticks are unbounded naturals.
- `Parse.ParseTracksInOrder` requires at most 256 tracks. Beyond that, `track as u8` wraps, and the wrapped track numbers need not be in order. The wrap itself is modelled in `Parse.Translate`.
- Rust's `sort_by_key` is not transliterated. The model sorts by stable insertion instead. `Merge.StableSortUnique` shows that every stable sort by tick gives the same list.
- `Merge.SortInPlace` works on an array copy of the flattened list, where the source sorts its `Vec` in place with no copy.
- The order within a track among messages with equal ticks shows through tick groups (`Merge.SortByTickStable` together with `Merge.FlattenedAt`). There is no separate positional lemma for it.
- ezmid does not implement MIDI's registered-parameter convention, in which controllers 101 and 100 select a parameter and controller 6 sets the pitch-bend range. The code keeps no per-channel state, drops controllers 6, 100 and 101, and scales every bend by the constant 2 (`Parse.DataEntryDoesNotRescaleBend`).
- The crate's example programs are not modelled: audio synthesis, rodio output, sleeping, terminal rendering, file and argument I/O, and printing.
