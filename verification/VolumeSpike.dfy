/** The transaction-volume rule: fixed windows advanced lazily, one event at a time. */
module VolumeSpike {
  import opened Division

  /** Per-contract state: start of the open window, events in it, counts of earlier windows. */
  datatype WindowState = WindowState(start: int, count: nat, history: seq<nat>)

  datatype Anomaly = Anomaly(contractId: string, observed: nat, baseline: real)

  // ---- The histogram of an event stream ---------------------------------------------

  /** Index of the window that is open after the events ts: windows of width w start at ts[0], and
      an event older than the open window is counted in the open window. */
  function OpenWindow(ts: seq<int>, w: int): nat
    requires w > 0
  {
    if |ts| <= 1 then 0
    else
      var before := OpenWindow(ts[..|ts| - 1], w);
      var own := (ts[|ts| - 1] - ts[0]) / w;
      if own > before then own else before
  }

  /** Number of events counted in window i. */
  function EventsIn(ts: seq<int>, w: int, i: int): nat
    requires w > 0
  {
    if ts == [] then 0
    else EventsIn(ts[..|ts| - 1], w, i) + if OpenWindow(ts, w) == i then 1 else 0
  }

  /** Number of windows kept as history when window c is open. */
  function Kept(c: nat, limit: nat): nat {
    if c < limit then c else limit
  }

  /** Exact counts, empty windows included, of the last windows before window c. */
  function CountsBefore(ts: seq<int>, w: int, c: nat, limit: nat): (h: seq<nat>)
    requires w > 0
    ensures |h| == Kept(c, limit)
  {
    seq<nat>(Kept(c, limit), k requires 0 <= k < Kept(c, limit) => EventsIn(ts, w, c - Kept(c, limit) + k))
  }

  /** The state that the whole event history calls for. */
  function Closed(ts: seq<int>, w: int, limit: nat): WindowState
    requires w > 0 && ts != []
  {
    var c := OpenWindow(ts, w);
    WindowState(ts[0] + w * c, EventsIn(ts, w, c), CountsBefore(ts, w, c, limit))
  }

  lemma {:induction false} NothingAhead(ts: seq<int>, w: int, i: int)
    requires w > 0 && (ts == [] || i > OpenWindow(ts, w))
    ensures EventsIn(ts, w, i) == 0
  {
    if ts != [] {
      NothingAhead(ts[..|ts| - 1], w, i);
    }
  }

  /** Every event is counted in exactly one window. */
  lemma {:induction false} CountsAddUp(ts: seq<int>, w: int)
    requires w > 0 && ts != []
    ensures Total(seq(OpenWindow(ts, w) + 1, i => EventsIn(ts, w, i))) == |ts|
  {
    var c := OpenWindow(ts, w);
    if |ts| == 1 {
      assert ts[..0] == [];
      assert seq(1, i => EventsIn(ts, w, i)) == [EventsIn(ts, w, 0)] == [1];
    } else {
      var prior := ts[..|ts| - 1];
      var b := OpenWindow(prior, w);
      CountsAddUp(prior, w);
      var earlier := seq(b + 1, i => EventsIn(prior, w, i));
      var padded := seq(c + 1, i => EventsIn(prior, w, i));
      forall i | b < i ensures EventsIn(prior, w, i) == 0 { NothingAhead(prior, w, i); }
      assert padded == earlier + seq(c - b, i => 0);
      TotalConcat(earlier, seq(c - b, i => 0));
      TotalZeros(c - b);
      var now := seq(c + 1, i => EventsIn(ts, w, i));
      assert now == padded[c := padded[c] + 1];
      TotalBump(padded, c);
    }
  }

  function Total(h: seq<nat>): nat {
    if h == [] then 0 else h[0] + Total(h[1..])
  }

  lemma {:induction false} TotalConcat(g: seq<nat>, h: seq<nat>)
    ensures Total(g + h) == Total(g) + Total(h)
  {
    if g == [] {
      assert g + h == h;
    } else {
      assert (g + h)[1..] == g[1..] + h;
      TotalConcat(g[1..], h);
    }
  }

  lemma {:induction false} TotalZeros(n: nat)
    ensures Total(seq(n, i => 0)) == 0
  {
    if n > 0 {
      assert seq(n, i => 0)[1..] == seq(n - 1, i => 0);
      TotalZeros(n - 1);
    }
  }

  lemma {:induction false} TotalBump(h: seq<nat>, i: nat)
    requires i < |h|
    ensures Total(h[i := h[i] + 1]) == Total(h) + 1
  {
    if i > 0 {
      assert h[i := h[i] + 1][1..] == h[1..][i - 1 := h[1..][i - 1] + 1];
      TotalBump(h[1..], i - 1);
    }
  }

  // ---- Event times in order -------------------------------------------------------------

  ghost predicate NonDecreasing(ts: seq<int>) {
    forall i, j :: 0 <= i <= j < |ts| ==> ts[i] <= ts[j]
  }

  /** Number of events whose time falls in [from, to). */
  function Between(ts: seq<int>, from: int, to: int): nat {
    if ts == [] then 0
    else Between(ts[..|ts| - 1], from, to) + if from <= ts[|ts| - 1] < to then 1 else 0
  }

  /** For events in time order the open window is the one containing the last event, and each
      count is the number of events whose time lies in that window. */
  lemma {:induction false} OrderedHistogram(ts: seq<int>, w: int, i: int)
    requires w > 0 && ts != [] && NonDecreasing(ts)
    ensures OpenWindow(ts, w) == (ts[|ts| - 1] - ts[0]) / w
    ensures EventsIn(ts, w, i) == Between(ts, ts[0] + w * i, ts[0] + w * i + w)
  {
    var last := ts[|ts| - 1];
    FloorIs(last - ts[0], w, i);
    if |ts| == 1 {
      assert ts[..0] == [];
      assert 0 / w == 0;
    } else {
      var prior := ts[..|ts| - 1];
      OrderedHistogram(prior, w, i);
      QuotientMonotone(prior[|prior| - 1] - ts[0], last - ts[0], w);
    }
  }

  // ---- Rolling forward --------------------------------------------------------------------

  /** One iteration of the roll-forward loop. */
  function RollOnce(s: WindowState, w: int, limit: nat): WindowState {
    var pushed := s.history + [s.count];
    WindowState(s.start + w, 0, if |pushed| > limit then pushed[1..] else pushed)
  }

  /** Closing window c turns the counts before c into the counts before c + 1. */
  lemma CountsAdvance(ts: seq<int>, w: int, c: nat, limit: nat)
    requires w > 0
    ensures var pushed := CountsBefore(ts, w, c, limit) + [EventsIn(ts, w, c)];
      CountsBefore(ts, w, c + 1, limit) == if |pushed| > limit then pushed[1..] else pushed
  {
  }

  /** n iterations of the roll-forward loop. */
  function RollTimes(s: WindowState, w: int, limit: nat, n: nat): WindowState {
    if n == 0 then s else RollOnce(RollTimes(s, w, limit, n - 1), w, limit)
  }

  /** A loop that is entered ends exactly for a positive width. With a width of zero, which the
      configuration accepts, the first event of a contract already enters it. */
  lemma {:induction false} LoopEndsIffWidthPositive(s: WindowState, w: int, limit: nat, now: int)
    requires w >= 0 && now - s.start >= w
    ensures (exists n: nat :: now - RollTimes(s, w, limit, n).start < w) <==> w > 0
  {
    if w == 0 {
      forall n: nat ensures !(now - RollTimes(s, w, limit, n).start < w) {
        StartAfter(s, w, limit, n);
      }
    } else {
      var n := (now - s.start) / w;
      StartAfter(s, w, limit, n);
      assert now - RollTimes(s, w, limit, n).start < w;
    }
  }

  lemma {:induction false} StartAfter(s: WindowState, w: int, limit: nat, n: nat)
    ensures RollTimes(s, w, limit, n).start == s.start + w * n
  {
    if n > 0 {
      StartAfter(s, w, limit, n - 1);
      assert w * n == w * (n - 1) + w;
    }
  }

  function Mean(h: seq<nat>): real {
    if h == [] then 0.0 else (Total(h) as real) / (|h| as real)
  }

  /** When an alert is due: some window has closed, the open one reaches the floor, and its
      count exceeds the multiple of the average of the kept closed windows. */
  ghost predicate Spikes(s: WindowState, minCount: nat, multiplier: real) {
    var total := Total(s.history);
    && |s.history| >= 1 && s.count >= minCount && total > 0
    && s.count as real * |s.history| as real > total as real * multiplier
  }

  lemma MeanComparison(total: nat, n: nat, count: nat, multiplier: real)
    requires n > 0
    ensures count as real > (total as real / n as real) * multiplier
      <==> count as real * n as real > total as real * multiplier
    ensures total as real / n as real > 0.0 <==> total > 0
  {
    var r, m := n as real, total as real / n as real;
    assert m * r == total as real;
    assert (count as real - m * multiplier) * r == count as real * r - (m * r) * multiplier;
    PositiveFactor(count as real - m * multiplier, r);
    PositiveFactor(m, r);
  }

  lemma PositiveFactor(x: real, r: real)
    requires r > 0.0
    ensures x * r > 0.0 <==> x > 0.0
  {
  }

  lemma MeanIs(h: seq<nat>)
    requires h != []
    ensures Mean(h) * |h| as real == Total(h) as real
  {
  }

  lemma {:induction false} BetweenSplits(ts: seq<int>, a: int, b: int, c: int)
    requires a <= b <= c
    ensures Between(ts, a, c) == Between(ts, a, b) + Between(ts, b, c)
  {
    if ts != [] { BetweenSplits(ts[..|ts| - 1], a, b, c); }
  }

  /** The counts of n consecutive windows, from window i on. */
  function CountsFrom(ts: seq<int>, w: int, i: int, n: nat): seq<nat>
    requires w > 0
  {
    seq<nat>(n, k requires 0 <= k < n => EventsIn(ts, w, i + k))
  }

  /** They add up to the events in their time span. */
  lemma {:induction false} CountsSpan(ts: seq<int>, w: int, i: int, n: nat)
    requires w > 0 && ts != [] && NonDecreasing(ts)
    ensures Total(CountsFrom(ts, w, i, n)) == Between(ts, ts[0] + w * i, ts[0] + w * (i + n))
    decreases n
  {
    if n == 0 {
      BetweenSplits(ts, ts[0] + w * i, ts[0] + w * i, ts[0] + w * i);
    } else {
      assert CountsFrom(ts, w, i, n)[1..] == CountsFrom(ts, w, i + 1, n - 1);
      CountsSpan(ts, w, i + 1, n - 1);
      OrderedHistogram(ts, w, i);
      MultiplyMonotone(w, i + 1, i + n);
      BetweenSplits(ts, ts[0] + w * i, ts[0] + w * (i + 1), ts[0] + w * (i + n));
    }
  }

  /** The state in terms of event times alone, for events in order: c full windows since the first event,
      the events of the open window, and those of the last min(c, limit) windows before it. */
  lemma ClosedByTimes(ts: seq<int>, w: int, limit: nat, c: nat, k: nat)
    requires w > 0 && ts != [] && NonDecreasing(ts)
    requires c == (ts[|ts| - 1] - ts[0]) / w && k == if c < limit then c else limit
    ensures var s := Closed(ts, w, limit);
      && s.start == ts[0] + w * c && s.count == Between(ts, ts[0] + w * c, ts[0] + w * c + w)
      && |s.history| == k && Total(s.history) == Between(ts, ts[0] + w * (c - k), ts[0] + w * c)
  {
    OrderedHistogram(ts, w, c);
    CountsSpan(ts, w, c - k, k);
    assert CountsBefore(ts, w, c, limit) == CountsFrom(ts, w, c - k, k);
  }

  /** n events now against m events in k closed windows: at least minCount, and more than the multiple of
      their average. */
  ghost predicate Alarming(n: nat, m: nat, k: nat, minCount: nat, multiplier: real) {
    k >= 1 && n >= minCount && m > 0 && m as real * multiplier < k as real * n as real
  }

  lemma SpikesIs(s: WindowState, minCount: nat, multiplier: real)
    ensures Spikes(s, minCount, multiplier) <==> Alarming(s.count, Total(s.history), |s.history|, minCount, multiplier)
  {
    assert s.count as real * |s.history| as real == |s.history| as real * s.count as real;
  }

  /** For events in order, an alert is due exactly when the events of the open window are alarming against
      those of the last min(c, limit) windows before it. */
  lemma AlertIff(ts: seq<int>, w: int, limit: nat, minCount: nat, multiplier: real, c: nat, k: nat)
    requires w > 0 && ts != [] && NonDecreasing(ts)
    requires c == (ts[|ts| - 1] - ts[0]) / w && k == if c < limit then c else limit
    ensures Spikes(Closed(ts, w, limit), minCount, multiplier) <==>
      Alarming(Between(ts, ts[0] + w * c, ts[0] + w * c + w), Between(ts, ts[0] + w * (c - k), ts[0] + w * c), k,
               minCount, multiplier)
  {
    ClosedByTimes(ts, w, limit, c, k);
    SpikesIs(Closed(ts, w, limit), minCount, multiplier);
  }

  class VolumeSpikeRule {
    const windowMs: int
    const baselineWindows: nat
    const minCount: nat
    const multiplier: real
    var states: map<string, WindowState>
    /** Every event time evaluated so far, per contract. */
    ghost var seen: map<string, seq<int>>

    ghost predicate Valid()
      reads this
    {
      && windowMs >= 0 && states.Keys == seen.Keys
      && forall id :: id in seen ==>
           windowMs > 0 && seen[id] != [] && states[id] == Closed(seen[id], windowMs, baselineWindows)
    }

    constructor (windowSeconds: nat, baselineWindows: nat, minCount: nat, multiplier: real)
      ensures Valid() && seen == map[]
      ensures windowMs == windowSeconds * 1000 && this.baselineWindows == baselineWindows
      ensures this.minCount == minCount && this.multiplier == multiplier
    {
      windowMs := windowSeconds * 1000;
      this.baselineWindows, this.minCount, this.multiplier := baselineWindows, minCount, multiplier;
      states, seen := map[], map[];
    }

    ghost function SeenOf(id: string): seq<int>
      reads this
    {
      if id in seen then seen[id] else []
    }

    /** Roll the window of a contract forward to an event and count it. */
    method Advance(id: string, nowMs: int) returns (state: WindowState)
      requires Valid() && windowMs > 0
      modifies this
      ensures Valid() && seen == old(seen)[id := old(SeenOf(id)) + [nowMs]]
      ensures states == old(states)[id := state]
    {
      ghost var ts := SeenOf(id) + [nowMs];
      state := if id in states then states[id] else WindowState(nowMs, 0, []);
      state := RollForward(state, nowMs, windowMs, baselineWindows, SeenOf(id));
      state := state.(count := state.count + 1);
      states := states[id := state];
      seen := seen[id := ts];
    }

    /** Evaluate one invocation. An unparseable time is ignored; any other needs a positive width, without
        which the roll-forward loop does not end. */
    method Evaluate(id: string, occurredAt: OptionalTime) returns (anomalies: seq<Anomaly>)
      requires Valid() && (windowMs > 0 || occurredAt.Unparseable?)
      modifies this
      ensures Valid()
      ensures occurredAt.Unparseable? ==> anomalies == [] && seen == old(seen) && states == old(states)
      ensures occurredAt.At? ==>
        var ts := old(SeenOf(id)) + [occurredAt.ms];
        && seen == old(seen)[id := ts]
        && states[id] == Closed(ts, windowMs, baselineWindows)
        && (forall other :: other in old(states) && other != id ==> states[other] == old(states)[other])
        && anomalies ==
           if Spikes(Closed(ts, windowMs, baselineWindows), minCount, multiplier)
           then [Anomaly(id, states[id].count, Mean(states[id].history))] else []
    {
      if occurredAt.Unparseable? { return []; }
      var state := Advance(id, occurredAt.ms);
      anomalies := Check(id, state);
    }

    /** The alert condition on a state. */
    method Check(id: string, state: WindowState) returns (anomalies: seq<Anomaly>)
      ensures anomalies ==
        if Spikes(state, minCount, multiplier) then [Anomaly(id, state.count, Mean(state.history))] else []
    {
      anomalies := [];
      if |state.history| >= 1 && state.count >= minCount {
        var baseline := Mean(state.history);
        MeanComparison(Total(state.history), |state.history|, state.count, multiplier);
        if baseline > 0.0 && state.count as real > baseline * multiplier {
          anomalies := [Anomaly(id, state.count, baseline)];
        }
      }
    }
  }

  datatype OptionalTime = At(ms: int) | Unparseable

  ghost function FirstTime(prior: seq<int>, now: int): int {
    if prior == [] then now else prior[0]
  }

  ghost function FirstOpen(prior: seq<int>, w: int): nat
    requires w > 0
  {
    if prior == [] then 0 else OpenWindow(prior, w)
  }

  /** The state in which window c is open and no event after prior has been counted. */
  ghost function RolledTo(prior: seq<int>, now: int, w: int, limit: nat, c: nat): WindowState
    requires w > 0
  {
    WindowState(FirstTime(prior, now) + w * c, EventsIn(prior, w, c), CountsBefore(prior, w, c, limit))
  }

  lemma RollStep(prior: seq<int>, now: int, w: int, limit: nat, c: nat)
    requires w > 0 && c >= FirstOpen(prior, w)
    ensures RollOnce(RolledTo(prior, now, w, limit, c), w, limit) == RolledTo(prior, now, w, limit, c + 1)
  {
    CountsAdvance(prior, w, c, limit);
    NothingAhead(prior, w, c + 1);
    MultiplyMonotone(w, c + 1, c + 1);
  }

  /** The roll-forward loop: it stops at the window of the event, with the exact counts of the
      windows it closed, and leaves the event itself to be counted. */
  method RollForward(before: WindowState, nowMs: int, windowMs: int, limit: nat, ghost prior: seq<int>)
    returns (state: WindowState)
    requires windowMs > 0
    requires before == if prior == [] then WindowState(nowMs, 0, []) else Closed(prior, windowMs, limit)
    ensures state.(count := state.count + 1) == Closed(prior + [nowMs], windowMs, limit)
  {
    state := before;
    ghost var c := FirstOpen(prior, windowMs);
    assert prior == [] ==> CountsBefore(prior, windowMs, 0, limit) == [];
    while nowMs - state.start >= windowMs
      invariant c >= FirstOpen(prior, windowMs) && state == RolledTo(prior, nowMs, windowMs, limit, c)
      invariant c > FirstOpen(prior, windowMs) ==> nowMs >= state.start
      decreases nowMs - state.start
    {
      RollStep(prior, nowMs, windowMs, limit, c);
      state := RollOnce(state, windowMs, limit);
      c := c + 1;
    }
    OpenAfter(prior, nowMs, windowMs, c);
    CountedAfter(prior, nowMs, windowMs, c, limit);
  }

  /** The window reached by the loop is the one open after the event. */
  lemma OpenAfter(prior: seq<int>, now: int, w: int, c: nat)
    requires w > 0
    requires var start := FirstTime(prior, now) + w * c;
      c >= FirstOpen(prior, w) && now - start < w && (c > FirstOpen(prior, w) ==> now >= start)
    ensures OpenWindow(prior + [now], w) == c
  {
    var ts := prior + [now];
    assert ts[..|ts| - 1] == prior;
    if prior == [] {
      if c > 0 { MultiplyMonotone(w, 1, c); }
    } else {
      var x := now - prior[0];
      FloorIs(x, w, c);
      FloorIs(x, w, x / w);
      if x / w > c { MultiplyMonotone(w, c + 1, x / w); }
    }
  }

  /** Counting the event in window c leaves every earlier count alone. */
  lemma CountedAfter(prior: seq<int>, now: int, w: int, c: nat, limit: nat)
    requires w > 0 && OpenWindow(prior + [now], w) == c
    ensures EventsIn(prior + [now], w, c) == EventsIn(prior, w, c) + 1
    ensures CountsBefore(prior + [now], w, c, limit) == CountsBefore(prior, w, c, limit)
  {
    var ts := prior + [now];
    assert ts[..|ts| - 1] == prior;
    forall i: int | i != c ensures EventsIn(ts, w, i) == EventsIn(prior, w, i) {
    }
  }
}
