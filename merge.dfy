/** Merging the tracks of a file into one tick-ordered list: each track's
    deltas are accumulated into absolute ticks (the counter restarts for each
    track), the tracks are concatenated in order, and the result is sorted
    stably by tick. */
module Merge {
  import opened Midi

  /** A message tagged with its track index and its absolute tick. */
  datatype Stamped = Stamped(track: nat, tick: nat, event: TrackEvent)

  // ---------------------------------------------------------------------
  // Absolute ticks

  /** The sum of the deltas of a run of messages. */
  function SumDeltas(evs: seq<TrackEvent>): nat {
    if evs == [] then 0 else SumDeltas(evs[..|evs| - 1]) + evs[|evs| - 1].delta
  }

  /** The messages of track `t`, each stamped with the sum of the deltas of the
      messages up to and including it. */
  function StampTrack(t: nat, evs: seq<TrackEvent>): (r: seq<Stamped>)
    ensures |r| == |evs|
  {
    seq(|evs|, n requires 0 <= n < |evs| => Stamped(t, SumDeltas(evs[..n + 1]), evs[n]))
  }

  /** All tracks, stamped, concatenated in track order. */
  function Flattened(tracks: seq<seq<TrackEvent>>): seq<Stamped> {
    if tracks == [] then []
    else Flattened(tracks[..|tracks| - 1]) + StampTrack(|tracks| - 1, tracks[|tracks| - 1])
  }

  /** The number of messages in all tracks. */
  function TotalLength(tracks: seq<seq<TrackEvent>>): nat {
    if tracks == [] then 0 else TotalLength(tracks[..|tracks| - 1]) + |tracks[|tracks| - 1]|
  }

  lemma StampTrackSnoc(t: nat, evs: seq<TrackEvent>, j: nat)
    requires j < |evs|
    ensures StampTrack(t, evs[..j + 1]) == StampTrack(t, evs[..j]) + [Stamped(t, SumDeltas(evs[..j + 1]), evs[j])]
  {
    var a := StampTrack(t, evs[..j + 1]);
    var b := StampTrack(t, evs[..j]) + [Stamped(t, SumDeltas(evs[..j + 1]), evs[j])];
    forall n | 0 <= n < j + 1 ensures a[n] == b[n] {
      assert evs[..j + 1][..n + 1] == evs[..n + 1];
      if n < j {
        assert evs[..j][..n + 1] == evs[..n + 1];
      }
    }
  }

  /** The running counter of ezmid's `parse`: one pass over the tracks, the tick
      reset to 0 at the start of each track and advanced by each delta. */
  method Flatten(tracks: seq<seq<TrackEvent>>) returns (flat: seq<Stamped>)
    ensures flat == Flattened(tracks)
  {
    flat := [];
    var t := 0;
    while t < |tracks|
      invariant 0 <= t <= |tracks|
      invariant flat == Flattened(tracks[..t])
    {
      var evs := tracks[t];
      var tick := 0;
      var j := 0;
      while j < |evs|
        invariant 0 <= j <= |evs|
        invariant tick == SumDeltas(evs[..j])
        invariant flat == Flattened(tracks[..t]) + StampTrack(t, evs[..j])
      {
        assert evs[..j + 1][..j] == evs[..j];
        tick := tick + evs[j].delta;
        StampTrackSnoc(t, evs, j);
        flat := flat + [Stamped(t, tick, evs[j])];
        j := j + 1;
      }
      assert evs[..j] == evs;
      assert tracks[..t + 1][..t] == tracks[..t];
      t := t + 1;
    }
    assert tracks[..t] == tracks;
  }

  /** The position of the first message of track `t` in the flattened list. */
  function Offset(tracks: seq<seq<TrackEvent>>, t: nat): nat
    requires t <= |tracks|
  {
    TotalLength(tracks[..t])
  }

  lemma {:induction false} FlattenedLength(tracks: seq<seq<TrackEvent>>)
    ensures |Flattened(tracks)| == TotalLength(tracks)
  {
    if tracks != [] {
      FlattenedLength(tracks[..|tracks| - 1]);
    }
  }

  /** The message at index `j` of track `t` appears in the flattened list at
      `Offset(tracks, t) + j`, with the track index `t` and the sum of the
      deltas of its own track up to and including it. */
  lemma {:induction false} FlattenedAt(tracks: seq<seq<TrackEvent>>, t: nat, j: nat)
    requires t < |tracks| && j < |tracks[t]|
    ensures Offset(tracks, t) + j < |Flattened(tracks)|
    ensures Flattened(tracks)[Offset(tracks, t) + j]
         == Stamped(t, SumDeltas(tracks[t][..j + 1]), tracks[t][j])
  {
    var last := |tracks| - 1;
    var init := tracks[..last];
    FlattenedLength(init);
    if t == last {
      assert tracks[..t] == init;
    } else {
      assert init[..t] == tracks[..t];
      FlattenedAt(init, t, j);
    }
  }

  /** Track indices never decrease along the flattened list. */
  lemma {:induction false} FlattenedTrackMajor(tracks: seq<seq<TrackEvent>>)
    ensures forall x :: x in Flattened(tracks) ==> x.track < |tracks|
    ensures TracksInOrder(Flattened(tracks))
  {
    if tracks != [] {
      var init := tracks[..|tracks| - 1];
      FlattenedTrackMajor(init);
    }
  }

  predicate TracksInOrder(s: seq<Stamped>) {
    forall i, j :: 0 <= i < j < |s| ==> s[i].track <= s[j].track
  }

  // ---------------------------------------------------------------------
  // Stable sort by tick

  predicate SortedByTick(s: seq<Stamped>) {
    forall i, j :: 0 <= i < j < |s| ==> s[i].tick <= s[j].tick
  }

  /** `a` comes no later than `b` in the order by tick, then track. */
  predicate TickTrackLe(a: Stamped, b: Stamped) {
    a.tick < b.tick || (a.tick == b.tick && a.track <= b.track)
  }

  /** Sorted by tick and, among equal ticks, by track index. */
  predicate SortedByTickThenTrack(s: seq<Stamped>) {
    forall i, j :: 0 <= i < j < |s| ==> TickTrackLe(s[i], s[j])
  }

  lemma SnocSortedByTickThenTrack(s: seq<Stamped>, l: Stamped)
    requires SortedByTickThenTrack(s)
    requires forall y :: y in s ==> TickTrackLe(y, l)
    ensures SortedByTickThenTrack(s + [l])
  {
    forall i, j | 0 <= i < j < |s + [l]| ensures TickTrackLe((s + [l])[i], (s + [l])[j]) {
      if j == |s| {
        assert (s + [l])[i] == s[i];
      } else {
        assert (s + [l])[i] == s[i] && (s + [l])[j] == s[j];
      }
    }
  }

  lemma SnocSortedByTick(s: seq<Stamped>, l: Stamped)
    requires SortedByTick(s)
    requires forall y :: y in s ==> y.tick <= l.tick
    ensures SortedByTick(s + [l])
  {
    forall i, j | 0 <= i < j < |s + [l]| ensures (s + [l])[i].tick <= (s + [l])[j].tick {
      if j == |s| {
        assert (s + [l])[i] == s[i];
      } else {
        assert (s + [l])[i] == s[i] && (s + [l])[j] == s[j];
      }
    }
  }

  /** An entry of `InsertByTick(s, x)` is `x` or an entry of `s`. */
  lemma InsertByTickMembers(s: seq<Stamped>, x: Stamped, y: Stamped)
    requires y in InsertByTick(s, x)
    ensures y == x || y in s
  {
    InsertByTickPermutes(s, x);
    assert y in multiset(InsertByTick(s, x));
  }

  /** The entries of `s` whose tick is `k`, in their order in `s`. */
  function WithTick(s: seq<Stamped>, k: nat): (r: seq<Stamped>)
    ensures |r| <= |s|
  {
    if s == [] then []
    else WithTick(s[..|s| - 1], k) + (if s[|s| - 1].tick == k then [s[|s| - 1]] else [])
  }

  /** The entries kept by `WithTick` are exactly the list's entries with that tick. */
  lemma {:induction false} WithTickMembers(s: seq<Stamped>, k: nat)
    ensures forall x :: x in WithTick(s, k) <==> x in s && x.tick == k
  {
    if s != [] {
      WithTickMembers(s[..|s| - 1], k);
      assert s == s[..|s| - 1] + [s[|s| - 1]];
    }
  }

  /** Inserts `x` after every entry whose tick is at most `x.tick`. */
  function InsertByTick(s: seq<Stamped>, x: Stamped): seq<Stamped> {
    if s == [] || s[|s| - 1].tick <= x.tick then s + [x]
    else InsertByTick(s[..|s| - 1], x) + [s[|s| - 1]]
  }

  /** A stable sort by tick: insertion of each entry, left to right. */
  function SortByTick(s: seq<Stamped>): seq<Stamped> {
    if s == [] then [] else InsertByTick(SortByTick(s[..|s| - 1]), s[|s| - 1])
  }

  lemma {:induction false} InsertByTickPermutes(s: seq<Stamped>, x: Stamped)
    ensures multiset(InsertByTick(s, x)) == multiset(s) + multiset{x}
  {
    if s != [] && s[|s| - 1].tick > x.tick {
      var init := s[..|s| - 1];
      InsertByTickPermutes(init, x);
      assert s == init + [s[|s| - 1]];
    }
  }

  lemma {:induction false} InsertByTickOrdersTracks(s: seq<Stamped>, x: Stamped)
    requires SortedByTickThenTrack(s)
    requires forall y :: y in s ==> y.track <= x.track
    ensures SortedByTickThenTrack(InsertByTick(s, x))
  {
    if s == [] || s[|s| - 1].tick <= x.tick {
      SnocSortedByTickThenTrack(s, x);
    } else {
      var init, l := s[..|s| - 1], s[|s| - 1];
      assert s == init + [l];
      assert SortedByTickThenTrack(init);
      InsertByTickOrdersTracks(init, x);
      var r := InsertByTick(init, x);
      forall y | y in r ensures TickTrackLe(y, l) {
        InsertByTickMembers(init, x, y);
        if y != x {
          var i :| 0 <= i < |init| && init[i] == y;
          assert s[i] == y;
        }
      }
      SnocSortedByTickThenTrack(r, l);
    }
  }

  lemma {:induction false} WithTickAppend(a: seq<Stamped>, b: seq<Stamped>, k: nat)
    ensures WithTick(a + b, k) == WithTick(a, k) + WithTick(b, k)
    decreases |b|
  {
    if b == [] {
      assert a + b == a;
    } else {
      var b', l := b[..|b| - 1], b[|b| - 1];
      assert (a + b)[..|a + b| - 1] == a + b';
      WithTickAppend(a, b', k);
    }
  }

  lemma {:induction false} InsertByTickStable(s: seq<Stamped>, x: Stamped, k: nat)
    ensures WithTick(InsertByTick(s, x), k) == WithTick(s, k) + WithTick([x], k)
  {
    if s == [] || s[|s| - 1].tick <= x.tick {
      WithTickAppend(s, [x], k);
    } else {
      var init, l := s[..|s| - 1], s[|s| - 1];
      assert InsertByTick(s, x) == InsertByTick(init, x) + [l];
      InsertByTickStable(init, x, k);
      WithTickAppend(InsertByTick(init, x), [l], k);
      WithTickAppend(init, [l], k);
      assert init + [l] == s;
      WithTickSingle(x, k);
      WithTickSingle(l, k);
      SwapEmpty(WithTick(init, k), WithTick([x], k), WithTick([l], k));
    }
  }

  /** The entries with tick `k` of a one-entry list. */
  lemma WithTickSingle(x: Stamped, k: nat)
    ensures WithTick([x], k) == if x.tick == k then [x] else []
  {
    assert [x][..0] == [];
  }

  /** Two pieces of which one is empty may be swapped. */
  lemma SwapEmpty(a: seq<Stamped>, b: seq<Stamped>, c: seq<Stamped>)
    requires b == [] || c == []
    ensures a + b + c == a + c + b
  {
  }

  lemma {:induction false} SortByTickPermutes(s: seq<Stamped>)
    ensures multiset(SortByTick(s)) == multiset(s)
  {
    if s != [] {
      var init, l := s[..|s| - 1], s[|s| - 1];
      assert SortByTick(s) == InsertByTick(SortByTick(init), l);
      SortByTickPermutes(init);
      InsertByTickPermutes(SortByTick(init), l);
      assert s == init + [l];
    }
  }

  /** The sort is stable: for every tick value, the entries with that tick
      come out in the order they went in. */
  lemma {:induction false} SortByTickStable(s: seq<Stamped>, k: nat)
    ensures WithTick(SortByTick(s), k) == WithTick(s, k)
  {
    if s != [] {
      var init, l := s[..|s| - 1], s[|s| - 1];
      assert SortByTick(s) == InsertByTick(SortByTick(init), l);
      SortByTickStable(init, k);
      InsertByTickStable(SortByTick(init), l, k);
      WithTickSingle(l, k);
    }
  }

  /** Sorting a list whose track indices never decrease yields a list ordered
      by tick and, among equal ticks, by track: simultaneous messages of
      different tracks keep the track order. */
  lemma {:induction false} SortByTickOrdersTracks(s: seq<Stamped>)
    requires TracksInOrder(s)
    ensures SortedByTickThenTrack(SortByTick(s))
  {
    if s != [] {
      var init, x := s[..|s| - 1], s[|s| - 1];
      SortByTickOrdersTracks(init);
      SortByTickPermutes(init);
      forall y | y in SortByTick(init) ensures y.track <= x.track {
        assert y in multiset(SortByTick(init));
        var i :| 0 <= i < |init| && init[i] == y;
        assert s[i] == y;
      }
      InsertByTickOrdersTracks(SortByTick(init), x);
    }
  }

  /** Any list that is sorted by tick and agrees with `s` on every tick's
      entries is the one `SortByTick` produces: the stable sort is unique. */
  lemma {:induction false} StableSortUnique(s: seq<Stamped>, r: seq<Stamped>)
    requires SortedByTick(r)
    requires forall k: nat :: WithTick(r, k) == WithTick(s, k)
    ensures r == SortByTick(s)
  {
    // Proved below via the tick-wise characterisation of sorted lists.
    var q := SortByTick(s);
    SortByTickSorted(s);
    forall k: nat ensures WithTick(r, k) == WithTick(q, k) {
      SortByTickStable(s, k);
    }
    SortedDeterminedByTicks(r, q);
  }

  lemma {:induction false} SortByTickSorted(s: seq<Stamped>)
    ensures SortedByTick(SortByTick(s))
  {
    if s != [] {
      var init, x := s[..|s| - 1], s[|s| - 1];
      SortByTickSorted(init);
      InsertByTickSorted(SortByTick(init), x);
    }
  }

  lemma {:induction false} InsertByTickSorted(s: seq<Stamped>, x: Stamped)
    requires SortedByTick(s)
    ensures SortedByTick(InsertByTick(s, x))
  {
    if s == [] || s[|s| - 1].tick <= x.tick {
      SnocSortedByTick(s, x);
    } else {
      var init, l := s[..|s| - 1], s[|s| - 1];
      assert s == init + [l];
      assert SortedByTick(init);
      InsertByTickSorted(init, x);
      var r := InsertByTick(init, x);
      forall y | y in r ensures y.tick <= l.tick {
        InsertByTickMembers(init, x, y);
        if y != x {
          var i :| 0 <= i < |init| && init[i] == y;
          assert s[i] == y;
        }
      }
      SnocSortedByTick(r, l);
    }
  }

  /** Two lists sorted by tick that have the same entries for every tick are
      equal. */
  lemma {:induction false} SortedDeterminedByTicks(a: seq<Stamped>, b: seq<Stamped>)
    requires SortedByTick(a) && SortedByTick(b)
    requires forall k: nat :: WithTick(a, k) == WithTick(b, k)
    ensures a == b
    decreases |a| + |b|
  {
    if a != [] || b != [] {
      SameLast(a, b);
      var a', b' := a[..|a| - 1], b[..|b| - 1];
      assert a == a' + [a[|a| - 1]] && b == b' + [b[|b| - 1]];
      SameInits(a', b', a[|a| - 1]);
      assert SortedByTick(a') && SortedByTick(b');
      SortedDeterminedByTicks(a', b');
    }
  }

  /** Sorted lists with the same entries for every tick, not both empty, are
      both non-empty and end in the same entry. */
  lemma SameLast(a: seq<Stamped>, b: seq<Stamped>)
    requires SortedByTick(a) && SortedByTick(b)
    requires forall k: nat :: WithTick(a, k) == WithTick(b, k)
    requires a != [] || b != []
    ensures a != [] && b != [] && a[|a| - 1] == b[|b| - 1]
  {
    if a == [] {
      NoneEmpty(b, a);
    } else if b == [] {
      NoneEmpty(a, b);
    } else {
      var la, lb := a[|a| - 1], b[|b| - 1];
      if la.tick < lb.tick {
        LastTickBelow(a, b);
      } else if lb.tick < la.tick {
        LastTickBelow(b, a);
      } else {
        LastOfTickGroup(a);
        LastOfTickGroup(b);
        assert WithTick(a, la.tick) == WithTick(b, la.tick);
      }
    }
  }

  /** The last entry of a list ends the group of entries with its tick. */
  lemma LastOfTickGroup(s: seq<Stamped>)
    requires s != []
    ensures var g := WithTick(s, s[|s| - 1].tick); g != [] && g[|g| - 1] == s[|s| - 1]
  {
    assert WithTick(s, s[|s| - 1].tick) == WithTick(s[..|s| - 1], s[|s| - 1].tick) + [s[|s| - 1]];
  }

  /** A non-empty list and an empty one differ on the tick of the last entry. */
  lemma NoneEmpty(a: seq<Stamped>, e: seq<Stamped>)
    requires a != [] && e == []
    ensures WithTick(a, a[|a| - 1].tick) != WithTick(e, a[|a| - 1].tick)
  {
    WithTickOfLast(a);
  }

  /** When `a` ends below the last tick of `b`, they differ on that tick. */
  lemma LastTickBelow(a: seq<Stamped>, b: seq<Stamped>)
    requires SortedByTick(a) && a != [] && b != []
    requires a[|a| - 1].tick < b[|b| - 1].tick
    ensures WithTick(a, b[|b| - 1].tick) != WithTick(b, b[|b| - 1].tick)
  {
    WithTickAllBelow(a, b[|b| - 1].tick);
    WithTickOfLast(b);
  }

  /** Dropping the same last entry keeps the entries for every tick equal. */
  lemma SameInits(a: seq<Stamped>, b: seq<Stamped>, l: Stamped)
    requires forall k: nat :: WithTick(a + [l], k) == WithTick(b + [l], k)
    ensures forall k: nat :: WithTick(a, k) == WithTick(b, k)
  {
    forall k: nat ensures WithTick(a, k) == WithTick(b, k) {
      var tail := if l.tick == k then [l] else [];
      assert (a + [l])[..|a|] == a && (b + [l])[..|b|] == b;
      assert WithTick(a + [l], k) == WithTick(b + [l], k);
      DropSameSuffix(WithTick(a, k), WithTick(b, k), tail);
    }
  }

  /** The last entry of a non-empty list is among the entries with its tick. */
  lemma WithTickOfLast(s: seq<Stamped>)
    requires s != []
    ensures WithTick(s, s[|s| - 1].tick) != []
  {
  }

  lemma DropSameSuffix(p: seq<Stamped>, q: seq<Stamped>, tail: seq<Stamped>)
    requires p + tail == q + tail
    ensures p == q
  {
    assert |p| == |q|;
    assert (p + tail)[..|p|] == p && (q + tail)[..|q|] == q;
  }

  /** In a list sorted by tick, no entry has a tick beyond the last one's. */
  lemma {:induction false} WithTickAllBelow(s: seq<Stamped>, k: nat)
    requires SortedByTick(s) && s != [] && s[|s| - 1].tick < k
    ensures WithTick(s, k) == []
  {
    WithTickNone(s, k);
  }

  lemma {:induction false} WithTickNone(s: seq<Stamped>, k: nat)
    requires forall i :: 0 <= i < |s| ==> s[i].tick != k
    ensures WithTick(s, k) == []
  {
    if s != [] {
      WithTickNone(s[..|s| - 1], k);
    }
  }

  // ---------------------------------------------------------------------
  // The in-place sort

  /** Where a sorted insertion puts `x`: after the entry at `j - 1`, whose
      tick is at most `x.tick`, and before every later entry, whose ticks are
      all greater. */
  lemma {:induction false} InsertByTickAt(s: seq<Stamped>, x: Stamped, j: nat)
    requires j <= |s| && (j == 0 || s[j - 1].tick <= x.tick)
    requires forall k :: j <= k < |s| ==> s[k].tick > x.tick
    ensures InsertByTick(s, x) == s[..j] + [x] + s[j..]
  {
    if j == |s| {
      assert s[..j] == s && s[j..] == [];
    } else {
      var init, l := s[..|s| - 1], s[|s| - 1];
      assert l.tick > x.tick;
      InsertByTickAt(init, x, j);
      assert init[..j] == s[..j] && init[j..] + [l] == s[j..];
    }
  }

  /** Moves `a[i]` left past every entry of the sorted prefix `a[..i]` whose
      tick is greater: one step of insertion sort. */
  method InsertAt(a: array<Stamped>, i: nat)
    requires i < a.Length
    modifies a
    ensures a[..] == InsertByTick(old(a[..])[..i], old(a[i])) + old(a[..])[i + 1..]
  {
    ghost var b0 := a[..];
    ghost var sorted := b0[..i];
    ghost var rest := b0[i + 1..];
    var x := a[i];
    var j := i;
    PiecesStart(a[..], sorted, x, rest);
    assert sorted[..j] == sorted && sorted[j..] == [];
    while j > 0 && a[j - 1].tick > x.tick
      invariant 0 <= j <= i
      invariant a[..] == sorted[..j] + [x] + sorted[j..] + rest
      invariant forall k :: j <= k < i ==> sorted[k].tick > x.tick
      decreases j
    {
      ghost var b := a[..];
      PiecesAround(sorted, x, rest, j);
      assert b[j - 1] == sorted[j - 1] && b[j] == x;
      SwapStep(sorted, x, rest, j);
      a[j - 1], a[j] := x, a[j - 1];
      assert a[..] == b[j - 1 := x][j := b[j - 1]];
      j := j - 1;
    }
    if j > 0 {
      PiecesAround(sorted, x, rest, j);
    }
    InsertByTickAt(sorted, x, j);
  }

  /** Left of `x` in the pieces is the last entry of the first part. */
  lemma PiecesAround(sorted: seq<Stamped>, x: Stamped, rest: seq<Stamped>, j: nat)
    requires 0 < j <= |sorted|
    ensures var b := sorted[..j] + [x] + sorted[j..] + rest;
      |b| == |sorted| + 1 + |rest| && b[j - 1] == sorted[j - 1] && b[j] == x
  {
  }

  /** Before the first swap the array is the sorted prefix, `x`, the rest. */
  lemma PiecesStart(b: seq<Stamped>, sorted: seq<Stamped>, x: Stamped, rest: seq<Stamped>)
    requires |sorted| < |b| && b[..|sorted|] == sorted && b[|sorted|] == x && b[|sorted| + 1..] == rest
    ensures b == sorted + [x] + rest
  {
    assert b == b[..|sorted|] + [b[|sorted|]] + b[|sorted| + 1..];
  }

  /** Swapping `x` with the entry to its left moves the split one place
      left. */
  lemma SwapStep(sorted: seq<Stamped>, x: Stamped, rest: seq<Stamped>, j: nat)
    requires 0 < j <= |sorted|
    ensures var b := sorted[..j] + [x] + sorted[j..] + rest;
      b[j - 1 := x][j := b[j - 1]] == sorted[..j - 1] + [x] + sorted[j - 1..] + rest
  {
    var b := sorted[..j] + [x] + sorted[j..] + rest;
    var c := sorted[..j - 1] + [x] + sorted[j - 1..] + rest;
    assert |b[j - 1 := x][j := b[j - 1]]| == |c|;
    forall k | 0 <= k < |c| ensures b[j - 1 := x][j := b[j - 1]][k] == c[k] {
      if k < j - 1 {
      } else if k == j - 1 {
      } else if k == j {
      } else if k <= |sorted| {
      } else {
      }
    }
  }

  /** Sorts the array in place, stably by tick, as `sort_by_key` does on the
      flattened vector. */
  method SortInPlace(a: array<Stamped>)
    modifies a
    ensures a[..] == SortByTick(old(a[..]))
  {
    ghost var input := a[..];
    var i := 0;
    assert input[..0] == [] && input[0..] == input;
    while i < a.Length
      invariant 0 <= i <= a.Length
      invariant a[..] == SortByTick(input[..i]) + input[i..]
    {
      ghost var before := a[..];
      InsertAt(a, i);
      SortStep(input, i, before, a[..]);
      i := i + 1;
    }
    assert input[..a.Length] == input && input[a.Length..] == [];
  }

  /** One round of the sort: inserting element `i` into the sorted prefix
      sorts one more element of the input. */
  lemma SortStep(input: seq<Stamped>, i: nat, before: seq<Stamped>, after: seq<Stamped>)
    requires i < |input|
    requires before == SortByTick(input[..i]) + input[i..]
    requires |before| == |input|
    requires after == InsertByTick(before[..i], before[i]) + before[i + 1..]
    ensures after == SortByTick(input[..i + 1]) + input[i + 1..]
  {
    assert |SortByTick(input[..i])| == i;
    assert before[..i] == SortByTick(input[..i]) && before[i] == input[i];
    assert before[i + 1..] == input[i + 1..];
    assert input[..i + 1][..i] == input[..i];
  }
}
