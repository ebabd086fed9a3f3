/** The temporal dispatcher: an external iterator over the parsed events that
    turns beats into seconds under the tempo in force, one event per call.
    `Schedule` is the whole output stream as a function of the events; the
    `Dispatcher` class computes it step by step. */
module Dispatch {
  import opened Wrappers
  import opened Model

  /** An event with its schedule: the tempo after the event, the elapsed
      seconds since the start, and the seconds since the previous event. */
  datatype DispatchedEvent = DispatchedEvent(bpm: real, time: real, dtime: real, event: Event)

  /** The tempo before any Tempo event, in beats per minute. */
  const InitialBpm: real := 120.0

  /** No Tempo event sets the tempo to 0, so dividing by the tempo in force is
      defined. */
  predicate NonZeroTempos(es: seq<Event>) {
    forall i :: 0 <= i < |es| && es[i].body.Tempo? ==> es[i].body.tempo != 0.0
  }

  /** Every Tempo event sets a positive tempo. */
  predicate PositiveTempos(es: seq<Event>) {
    forall i :: 0 <= i < |es| && es[i].body.Tempo? ==> es[i].body.tempo > 0.0
  }

  /** The tempo in force once the first `n` events have been consumed: that
      of the last Tempo event among them, or the initial 120. */
  function BpmAfter(es: seq<Event>, n: nat): real
    requires n <= |es|
  {
    if n == 0 then InitialBpm
    else if es[n - 1].body.Tempo? then es[n - 1].body.tempo
    else BpmAfter(es, n - 1)
  }

  /** With non-zero tempos the tempo in force is never 0. */
  lemma {:induction false} BpmAfterNonZero(es: seq<Event>, n: nat)
    requires NonZeroTempos(es) && n <= |es|
    ensures BpmAfter(es, n) != 0.0
  {
    if n > 0 && !es[n - 1].body.Tempo? {
      BpmAfterNonZero(es, n - 1);
    }
  }

  /** With positive tempos the tempo in force is positive. */
  lemma {:induction false} BpmAfterPositive(es: seq<Event>, n: nat)
    requires PositiveTempos(es) && n <= |es|
    ensures BpmAfter(es, n) > 0.0
  {
    if n > 0 && !es[n - 1].body.Tempo? {
      BpmAfterPositive(es, n - 1);
    }
  }

  /** Without Tempo events the tempo in force stays the initial 120. */
  lemma {:induction false} BpmAfterNoTempo(es: seq<Event>, n: nat)
    requires n <= |es|
    requires forall i :: 0 <= i < |es| ==> !es[i].body.Tempo?
    ensures BpmAfter(es, n) == InitialBpm
  {
    if n > 0 {
      BpmAfterNoTempo(es, n - 1);
    }
  }

  /** The beat of the last consumed event, or 0 before the first. */
  function LastBeat(es: seq<Event>, n: nat): real
    requires n <= |es|
  {
    if n == 0 then 0.0 else es[n - 1].beat
  }

  /** The seconds between event `k - 1` (or the start) and event `k`, at the
      tempo in force before event `k`. */
  function DTime(es: seq<Event>, k: nat): real
    requires k < |es| && NonZeroTempos(es)
  {
    BpmAfterNonZero(es, k);
    (es[k].beat - LastBeat(es, k)) * 60.0 / BpmAfter(es, k)
  }

  /** The seconds from the start to event `n - 1`: the sum of the first `n`
      intervals. */
  function Elapsed(es: seq<Event>, n: nat): real
    requires n <= |es| && NonZeroTempos(es)
  {
    if n == 0 then 0.0 else Elapsed(es, n - 1) + DTime(es, n - 1)
  }

  /** A NoteOn whose velocity is 0 becomes a NoteOff with the same fields;
      every other event passes through. */
  function Rewrite(e: Event): (r: Event)
    ensures r.track == e.track && r.beat == e.beat && r.channel == e.channel
  {
    match e.body
    case NoteOn(n, v, raw) => if v == 0.0 then e.(body := NoteOff(n, v, raw)) else e
    case _ => e
  }

  /** The output for event `k`. */
  function Dispatched(es: seq<Event>, k: nat): DispatchedEvent
    requires k < |es| && NonZeroTempos(es)
  {
    DispatchedEvent(BpmAfter(es, k + 1), Elapsed(es, k + 1), DTime(es, k), Rewrite(es[k]))
  }

  /** The whole stream the dispatcher yields for `es`, one entry per event. */
  function Schedule(es: seq<Event>): (r: seq<DispatchedEvent>)
    requires NonZeroTempos(es)
    ensures |r| == |es|
  {
    SchedulePrefix(es, |es|)
  }

  /** The first `n` entries of the schedule. */
  function SchedulePrefix(es: seq<Event>, n: nat): (r: seq<DispatchedEvent>)
    requires n <= |es| && NonZeroTempos(es)
    ensures |r| == n
  {
    if n == 0 then [] else SchedulePrefix(es, n - 1) + [Dispatched(es, n - 1)]
  }

  /** Entry `k` of a prefix of the schedule is the output for event `k`. */
  lemma {:induction false} SchedulePrefixAt(es: seq<Event>, n: nat, k: nat)
    requires NonZeroTempos(es) && k < n <= |es|
    ensures SchedulePrefix(es, n)[k] == Dispatched(es, k)
  {
    if k < n - 1 {
      SchedulePrefixAt(es, n - 1, k);
    }
  }

  /** Entry `k` of the schedule is the output for event `k`. */
  lemma ScheduleAt(es: seq<Event>, k: nat)
    requires NonZeroTempos(es) && k < |es|
    ensures Schedule(es)[k] == Dispatched(es, k)
  {
    SchedulePrefixAt(es, |es|, k);
  }

  /** The intervals before each of the first `n` events. */
  function Intervals(es: seq<Event>, n: nat): (r: seq<real>)
    requires n <= |es| && NonZeroTempos(es)
    ensures |r| == n
  {
    if n == 0 then [] else Intervals(es, n - 1) + [DTime(es, n - 1)]
  }

  /** Interval `k` among the first `n` is the one before event `k`. */
  lemma {:induction false} IntervalsAt(es: seq<Event>, n: nat, k: nat)
    requires NonZeroTempos(es) && k < n <= |es|
    ensures Intervals(es, n)[k] == DTime(es, k)
  {
    if k < n - 1 {
      IntervalsAt(es, n - 1, k);
    }
  }

  /** The first `m` of the first `n` intervals are those of the first `m`
      events. */
  lemma {:induction false} IntervalsPrefix(es: seq<Event>, m: nat, n: nat)
    requires NonZeroTempos(es) && m <= n <= |es|
    ensures Intervals(es, m) == Intervals(es, n)[..m]
    decreases n
  {
    if m < n {
      IntervalsPrefix(es, m, n - 1);
      assert Intervals(es, n)[..n - 1] == Intervals(es, n - 1);
    }
  }

  /** The sum of a list of intervals. */
  function Sum(xs: seq<real>): real {
    if xs == [] then 0.0 else Sum(xs[..|xs| - 1]) + xs[|xs| - 1]
  }

  class Dispatcher {
    const events: seq<Event>
    var i: nat
    var bpm: real
    var time: real
    var lastBeat: real
    /** The `dtime` of every event emitted so far. */
    ghost var dtimes: seq<real>

    /** `i` events have been consumed; the tempo (never 0), the last beat and
        the clock are those they determine, and the clock is the sum of the emitted
        intervals. */
    ghost predicate Valid()
      reads this
    {
      && NonZeroTempos(events)
      && i <= |events|
      && bpm == BpmAfter(events, i) && bpm != 0.0
      && lastBeat == LastBeat(events, i)
      && dtimes == Intervals(events, i)
      && time == Sum(dtimes)
    }

    constructor (events: seq<Event>)
      requires NonZeroTempos(events)
      ensures Valid()
      ensures this.events == events && i == 0 && dtimes == []
      ensures bpm == InitialBpm && time == 0.0 && lastBeat == 0.0
    {
      this.events := events;
      i := 0;
      bpm := InitialBpm;
      time := 0.0;
      lastBeat := 0.0;
      dtimes := [];
    }

    /** Yields the next event and its schedule, or None once every event has
        been consumed, in which case nothing changes. */
    method Next() returns (r: Option<DispatchedEvent>)
      requires Valid()
      modifies this
      ensures Valid()
      ensures r.None? <==> old(i) >= |events|
      ensures r.None? ==> i == old(i) && bpm == old(bpm) && time == old(time)
                          && lastBeat == old(lastBeat) && dtimes == old(dtimes)
      ensures r.Some? ==>
        && i == old(i) + 1
        && r.value == Dispatched(events, old(i))
        && r.value.dtime == (events[old(i)].beat - old(lastBeat)) * 60.0 / old(bpm)
        && r.value.bpm == (if events[old(i)].body.Tempo? then events[old(i)].body.tempo else old(bpm))
        && r.value.time == old(time) + r.value.dtime
        && bpm == r.value.bpm && time == r.value.time
        && lastBeat == events[old(i)].beat
        && dtimes == old(dtimes) + [r.value.dtime]
    {
      if |events| <= i {
        return None;
      }
      var event := events[i];
      var dtime := (event.beat - lastBeat) * 60.0 / bpm;
      StepKeepsValid(events, i, dtime);
      i := i + 1;
      time := time + dtime;
      if event.body.Tempo? {
        bpm := event.body.tempo;
      }
      lastBeat := event.beat;
      dtimes := dtimes + [dtime];
      r := Some(DispatchedEvent(bpm, time, dtime, Rewrite(event)));
    }
  }

  /** One call of `next` from a state after `i` events: the history extended
      by the new interval is the schedule's first `i + 1` intervals, and the
      emitted entry is the schedule's entry `i`. */
  lemma StepKeepsValid(es: seq<Event>, i: nat, dtime: real)
    requires NonZeroTempos(es) && i < |es|
    requires dtime == DTime(es, i)
    ensures Intervals(es, i + 1) == Intervals(es, i) + [dtime]
    ensures Sum(Intervals(es, i) + [dtime]) == Sum(Intervals(es, i)) + dtime
    ensures BpmAfter(es, i + 1) == if es[i].body.Tempo? then es[i].body.tempo else BpmAfter(es, i)
    ensures LastBeat(es, i + 1) == es[i].beat
    ensures Dispatched(es, i)
         == DispatchedEvent(BpmAfter(es, i + 1), Sum(Intervals(es, i)) + dtime, dtime, Rewrite(es[i]))
  {
    DispatchedStep(es, i);
    ElapsedIsSum(es, i);
    SumSnoc(Intervals(es, i), dtime);
  }

  /** One step of the schedule from the state before event `k`. */
  lemma DispatchedStep(es: seq<Event>, k: nat)
    requires NonZeroTempos(es) && k < |es|
    ensures BpmAfter(es, k + 1) == if es[k].body.Tempo? then es[k].body.tempo else BpmAfter(es, k)
    ensures Elapsed(es, k + 1) == Elapsed(es, k) + DTime(es, k)
    ensures LastBeat(es, k + 1) == es[k].beat
    ensures Dispatched(es, k).dtime == DTime(es, k)
  {
  }

  lemma SumSnoc(xs: seq<real>, x: real)
    ensures Sum(xs + [x]) == Sum(xs) + x
  {
    assert (xs + [x])[..|xs|] == xs;
  }

  /** The clock after `n` events is the sum of their intervals. */
  lemma {:induction false} ElapsedIsSum(es: seq<Event>, n: nat)
    requires NonZeroTempos(es) && n <= |es|
    ensures Elapsed(es, n) == Sum(Intervals(es, n))
  {
    if n > 0 {
      ElapsedIsSum(es, n - 1);
      SumSnoc(Intervals(es, n - 1), DTime(es, n - 1));
    }
  }

  /** Runs a fresh dispatcher until it yields None, collecting what it
      yields: exactly one entry per event, in input order. */
  method DispatchAll(events: seq<Event>) returns (out: seq<DispatchedEvent>)
    requires NonZeroTempos(events)
    ensures out == Schedule(events)
    ensures |out| == |events|
    ensures forall k :: 0 <= k < |out| ==> out[k].event == Rewrite(events[k])
  {
    var d := new Dispatcher(events);
    out := [];
    var r := d.Next();
    while r.Some?
      invariant d.Valid() && d.events == events
      invariant r.Some? ==> d.i == |out| + 1 && |out| < |events| && r.value == Dispatched(events, |out|)
      invariant r.None? ==> d.i == |out| && |out| >= |events|
      invariant |out| <= |events| && out == SchedulePrefix(events, |out|)
      decreases |events| - |out|
    {
      PrefixSnoc(events, out, r.value);
      out := out + [r.value];
      r := d.Next();
    }
    ScheduleEvents(events);
  }

  /** Appending the output for the next event extends the prefix. */
  lemma PrefixSnoc(es: seq<Event>, out: seq<DispatchedEvent>, v: DispatchedEvent)
    requires NonZeroTempos(es) && |out| < |es|
    requires out == SchedulePrefix(es, |out|) && v == Dispatched(es, |out|)
    ensures out + [v] == SchedulePrefix(es, |out| + 1)
  {
  }

  /** Every entry of the schedule carries its input event, rewritten. */
  lemma ScheduleEvents(es: seq<Event>)
    requires NonZeroTempos(es)
    ensures forall k :: 0 <= k < |es| ==> Schedule(es)[k].event == Rewrite(es[k])
  {
    forall k | 0 <= k < |es| ensures Schedule(es)[k].event == Rewrite(es[k]) {
      ScheduleAt(es, k);
    }
  }

  // ---------------------------------------------------------------------
  // Properties of the schedule

  /** The interval before event `k` uses the tempo in force before it; the
      tempo reported with event `k` is the one after it. */
  lemma TempoBeforeAndAfter(es: seq<Event>, k: nat)
    requires NonZeroTempos(es) && k < |es|
    ensures BpmAfter(es, k) != 0.0
    ensures Schedule(es)[k].dtime == (es[k].beat - LastBeat(es, k)) * 60.0 / BpmAfter(es, k)
    ensures Schedule(es)[k].bpm == if es[k].body.Tempo? then es[k].body.tempo else BpmAfter(es, k)
  {
    ScheduleAt(es, k);
    BpmAfterNonZero(es, k);
  }

  /** With positive tempos the tempo in force is always positive. */
  lemma BpmStaysPositive(es: seq<Event>, k: nat)
    requires NonZeroTempos(es) && PositiveTempos(es) && k < |es|
    ensures Schedule(es)[k].bpm > 0.0
  {
    ScheduleAt(es, k);
    BpmAfterPositive(es, k + 1);
  }

  /** Beats at 0 or later that never decrease, under positive tempos: the
      tempo stays positive, no interval is negative, and the clock never runs
      backwards. */
  lemma ScheduleWellBehaved(es: seq<Event>)
    requires NonZeroTempos(es) && PositiveTempos(es) && BeatsInOrder(es)
    requires forall i :: 0 <= i < |es| ==> es[i].beat >= 0.0
    ensures forall k :: 0 <= k < |es| ==> Schedule(es)[k].bpm > 0.0 && Schedule(es)[k].dtime >= 0.0
    ensures forall j, k :: 0 <= j <= k < |es| ==> Schedule(es)[j].time <= Schedule(es)[k].time
  {
    forall k | 0 <= k < |es| ensures Schedule(es)[k].bpm > 0.0 && Schedule(es)[k].dtime >= 0.0 {
      BpmStaysPositive(es, k);
      DtimeNonNegative(es, k);
    }
    forall j, k | 0 <= j <= k < |es| ensures Schedule(es)[j].time <= Schedule(es)[k].time {
      TimesInOrder(es, j, k);
    }
  }

  /** Beats that start at 0 or later and never decrease, under positive
      tempos, give intervals that are never negative. */
  lemma DtimeNonNegative(es: seq<Event>, k: nat)
    requires NonZeroTempos(es) && PositiveTempos(es) && BeatsInOrder(es)
    requires forall i :: 0 <= i < |es| ==> es[i].beat >= 0.0
    requires k < |es|
    ensures Schedule(es)[k].dtime >= 0.0
  {
    ScheduleAt(es, k);
    IntervalNonNegative(es, k);
  }

  /** The same fact about the interval function itself. Only the first
      interval, measured from the initial last beat 0, needs its beat to be
      at least 0; every later one follows from the beat order. */
  lemma IntervalNonNegative(es: seq<Event>, k: nat)
    requires NonZeroTempos(es) && PositiveTempos(es) && BeatsInOrder(es)
    requires k == 0 && |es| > 0 ==> es[0].beat >= 0.0
    requires k < |es|
    ensures DTime(es, k) >= 0.0
  {
    BpmAfterPositive(es, k);
    var d := es[k].beat - LastBeat(es, k);
    assert d >= 0.0;
    var b := BpmAfter(es, k);
    assert d * 60.0 / b == (d * 60.0) * (1.0 / b);
    assert 1.0 / b > 0.0;
    NonNegativeProduct(d * 60.0, 1.0 / b);
  }

  lemma NonNegativeProduct(x: real, y: real)
    requires x >= 0.0 && y >= 0.0
    ensures x * y >= 0.0
  {
  }

  /** Under positive tempos and ordered beats the clock never runs
      backwards, wherever the beats start: the time of event `k` exceeds that
      of event `j` by the intervals after `j`, none of them negative. */
  lemma TimesInOrder(es: seq<Event>, j: nat, k: nat)
    requires NonZeroTempos(es) && PositiveTempos(es) && BeatsInOrder(es)
    requires j <= k < |es|
    ensures Schedule(es)[j].time <= Schedule(es)[k].time
  {
    ScheduleAt(es, j);
    ScheduleAt(es, k);
    ElapsedOrdered(es, j + 1, k + 1);
  }

  /** The clock after `m` events is at most the clock after `n >= m`: the
      difference is the intervals from `m` on, none of them negative. From the
      start (`m == 0`) that needs the first beat to be at least 0. */
  lemma ElapsedOrdered(es: seq<Event>, m: nat, n: nat)
    requires NonZeroTempos(es) && PositiveTempos(es) && BeatsInOrder(es)
    requires m == 0 && |es| > 0 ==> es[0].beat >= 0.0
    requires m <= n <= |es|
    ensures Elapsed(es, m) <= Elapsed(es, n)
  {
    var ds := Intervals(es, n);
    IntervalsPrefix(es, m, n);
    forall i | m <= i < |ds| ensures ds[i] >= 0.0 {
      IntervalsAt(es, n, i);
      IntervalNonNegative(es, i);
    }
    ElapsedIsSum(es, n);
    ElapsedIsSum(es, m);
    SumPrefixLe(ds, m);
  }

  /** A sum of reals is at least the sum of any prefix after which none is
      negative. */
  lemma {:induction false} SumPrefixLe(xs: seq<real>, m: nat)
    requires m <= |xs|
    requires forall i :: m <= i < |xs| ==> xs[i] >= 0.0
    ensures Sum(xs[..m]) <= Sum(xs)
  {
    if m < |xs| {
      var init := xs[..|xs| - 1];
      SumPrefixLe(init, m);
      assert init[..m] == xs[..m];
    } else {
      assert xs[..m] == xs;
    }
  }

  /** Without Tempo events the clock runs at 120 beats per minute from the
      start: the intervals telescope to `beat * 60 / 120`. */
  lemma {:induction false} ElapsedWithoutTempo(es: seq<Event>, n: nat)
    requires NonZeroTempos(es) && n <= |es|
    requires forall i :: 0 <= i < |es| ==> !es[i].body.Tempo?
    ensures Elapsed(es, n) == LastBeat(es, n) * 60.0 / 120.0
  {
    if n > 0 {
      ElapsedWithoutTempo(es, n - 1);
      BpmAfterNoTempo(es, n - 1);
    }
  }

  lemma NoTempoTelescopes(es: seq<Event>, k: nat)
    requires NonZeroTempos(es) && k < |es|
    requires forall i :: 0 <= i < |es| ==> !es[i].body.Tempo?
    ensures Schedule(es)[k].time == es[k].beat * 60.0 / 120.0
    ensures Schedule(es)[k].bpm == InitialBpm
  {
    ScheduleAt(es, k);
    ElapsedWithoutTempo(es, k + 1);
    BpmAfterNoTempo(es, k + 1);
  }

  /** The rewrite loses nothing: the note fields survive, only a silent
      NoteOn changes (to a NoteOff), and no silent NoteOn is ever emitted. */
  lemma RewriteLossless(e: Event)
    ensures (e.body.NoteOn? && e.body.velocity == 0.0) ==>
      Rewrite(e).body == NoteOff(e.body.notenum, e.body.velocity, e.body.rawVelocity)
    ensures !(e.body.NoteOn? && e.body.velocity == 0.0) ==> Rewrite(e) == e
    ensures !(Rewrite(e).body.NoteOn? && Rewrite(e).body.velocity == 0.0)
    ensures Rewrite(Rewrite(e)) == Rewrite(e)
  {
  }

  /** Every emitted event is its input event, rewritten. */
  lemma ScheduleKeepsEvents(es: seq<Event>, k: nat)
    requires NonZeroTempos(es) && k < |es|
    ensures Schedule(es)[k].event == Rewrite(es[k])
    ensures Schedule(es)[k].event.track == es[k].track
    ensures Schedule(es)[k].event.beat == es[k].beat
    ensures Schedule(es)[k].event.channel == es[k].channel
  {
    ScheduleAt(es, k);
  }

  /** Tempo 120 at beat 0, tempo 60 at beat 4, then a note at beat 6: the
      note is due at 4 beats * 0.5 s + 2 beats * 1 s = 4 s. */
  lemma TempoChangeExample(n: U8, v: real, raw: U8)
    ensures var es := [Event(0, 0.0, 0, Tempo(120.0)), Event(0, 4.0, 0, Tempo(60.0)), Event(0, 6.0, 0, NoteOn(n, v, raw))];
      NonZeroTempos(es) && Schedule(es)[2].time == 4.0 && Schedule(es)[2].bpm == 60.0
  {
    var es := [Event(0, 0.0, 0, Tempo(120.0)), Event(0, 4.0, 0, Tempo(60.0)), Event(0, 6.0, 0, NoteOn(n, v, raw))];
    assert BpmAfter(es, 1) == 120.0;
    assert BpmAfter(es, 2) == 60.0;
    assert BpmAfter(es, 3) == 60.0;
    assert DTime(es, 0) == 0.0;
    assert DTime(es, 1) == 2.0;
    assert DTime(es, 2) == 2.0;
    assert Elapsed(es, 1) == 0.0;
    assert Elapsed(es, 2) == 2.0;
    assert Elapsed(es, 3) == 4.0;
    ScheduleAt(es, 2);
  }
}
