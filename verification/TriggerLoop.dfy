/** When the worker's loop runs a cycle: at each timer tick, and at the notification that
    reaches the threshold; a threshold of 0 means ticks only. */
module TriggerLoop {
  datatype Trigger = Tick | Notify | Closed

  /** The counter while the loop waits, after these triggers. */
  function Waiting(threshold: nat, ts: seq<Trigger>): nat {
    if ts == [] then 0
    else
      var count := Waiting(threshold, ts[..|ts| - 1]);
      match ts[|ts| - 1]
      case Tick => 0
      case Notify => if threshold == 0 || count + 1 < threshold then count + 1 else 0
      case Closed => count
  }

  predicate Fires(threshold: nat, count: nat, t: Trigger) {
    t.Tick? || (t.Notify? && threshold > 0 && count + 1 >= threshold)
  }

  /** The positions at which a cycle runs; the first `Closed` ends the loop. */
  function Fired(threshold: nat, ts: seq<Trigger>): seq<nat> {
    if ts == [] then []
    else
      var n := |ts| - 1;
      var before := Fired(threshold, ts[..n]);
      if Closed !in ts[..n] && Fires(threshold, Waiting(threshold, ts[..n]), ts[n]) then before + [n] else before
  }

  lemma {:induction false} FiredStops(threshold: nat, ts: seq<Trigger>, i: nat)
    requires i < |ts| && ts[i] == Closed
    ensures Fired(threshold, ts) == Fired(threshold, ts[..i])
    decreases |ts|
  {
    var n := |ts| - 1;
    if i < n {
      assert ts[..n][..i] == ts[..i] && ts[..n][i] == Closed;
      FiredStops(threshold, ts[..n], i);
    }
  }

  // ---- The counter ----

  function Notifies(ts: seq<Trigger>): nat {
    if ts == [] then 0 else Notifies(ts[..|ts| - 1]) + if ts[|ts| - 1].Notify? then 1 else 0
  }

  /** Where the triggers since the last cycle begin. */
  function Since(fired: seq<nat>): nat {
    if fired == [] then 0 else fired[|fired| - 1] + 1
  }

  lemma {:induction false} FiredAscends(threshold: nat, ts: seq<Trigger>)
    ensures forall k :: 0 <= k < |Fired(threshold, ts)| ==> Fired(threshold, ts)[k] < |ts|
    ensures forall j, k :: 0 <= j < k < |Fired(threshold, ts)| ==> Fired(threshold, ts)[j] < Fired(threshold, ts)[k]
    decreases |ts|
  {
    if ts != [] {
      FiredAscends(threshold, ts[..|ts| - 1]);
    }
  }

  /** While the loop waits, the counter is the number of notifications since the last cycle,
      and below the threshold if there is one. */
  lemma {:induction false} WaitingCounts(threshold: nat, ts: seq<Trigger>)
    requires Closed !in ts
    ensures Since(Fired(threshold, ts)) <= |ts|
    ensures Waiting(threshold, ts) == Notifies(ts[Since(Fired(threshold, ts))..])
    ensures threshold > 0 ==> Waiting(threshold, ts) < threshold
    decreases |ts|
  {
    if ts != [] {
      var n := |ts| - 1;
      var init, start := ts[..n], Since(Fired(threshold, ts[..n]));
      WaitingCounts(threshold, init);
      assert init[start..] == ts[start..][..n - start];
      assert ts[n] == ts[start..][n - start];
    }
  }

  lemma {:induction false} FiredPrefix(threshold: nat, ts: seq<Trigger>, k: nat)
    requires k < |Fired(threshold, ts)| && Closed !in ts
    ensures var i := Fired(threshold, ts)[k];
            && i < |ts|
            && Fired(threshold, ts[..i]) == Fired(threshold, ts)[..k]
            && Fires(threshold, Waiting(threshold, ts[..i]), ts[i])
    decreases |ts|
  {
    var n := |ts| - 1;
    var init := ts[..n];
    if k < |Fired(threshold, init)| {
      FiredPrefix(threshold, init, k);
      var i := Fired(threshold, init)[k];
      assert init[..i] == ts[..i];
    }
  }

  /** At most `threshold` notifications fall after one cycle and up to the next, and as many
      as that exactly when the next is not the timer's. */
  lemma NotifiesBetweenCycles(threshold: nat, ts: seq<Trigger>, k: nat)
    requires threshold > 0 && Closed !in ts && k < |Fired(threshold, ts)|
    ensures var fired := Fired(threshold, ts);
            var from, to := Since(fired[..k]), fired[k];
            && from <= to < |ts|
            && Notifies(ts[from..to + 1]) <= threshold
            && (Notifies(ts[from..to + 1]) == threshold <==> ts[to].Notify?)
  {
    var fired := Fired(threshold, ts);
    var from, to := Since(fired[..k]), fired[k];
    FiredPrefix(threshold, ts, k);
    WaitingCounts(threshold, ts[..to]);
    assert ts[from..to + 1][..to - from] == ts[..to][from..];
  }

  // ---- How many cycles ----

  /** The numbers of notifications before, between and after the ticks. */
  function Segments(ts: seq<Trigger>): (segments: seq<nat>)
    ensures segments != []
  {
    if ts == [] then [0]
    else
      var before := Segments(ts[..|ts| - 1]);
      match ts[|ts| - 1]
      case Tick => before + [0]
      case Notify => before[|before| - 1 := before[|before| - 1] + 1]
      case Closed => before
  }

  function FullThresholds(segments: seq<nat>, threshold: nat): nat
    requires threshold > 0
  {
    if segments == [] then 0
    else FullThresholds(segments[..|segments| - 1], threshold) + segments[|segments| - 1] / threshold
  }

  lemma NextQuotient(n: nat, d: nat)
    requires d > 0
    ensures n % d + 1 < d ==> (n + 1) / d == n / d && (n + 1) % d == n % d + 1
    ensures n % d + 1 == d ==> (n + 1) / d == n / d + 1 && (n + 1) % d == 0
  {
    var q, r := n / d, n % d;
    if r + 1 < d {
      QuotientIs(n + 1, d, q, r + 1);
    } else {
      assert (q + 1) * d == q * d + d;
      QuotientIs(n + 1, d, q + 1, 0);
    }
  }

  lemma QuotientIs(n: nat, d: nat, q: nat, r: nat)
    requires d > 0 && n == q * d + r && r < d
    ensures n / d == q && n % d == r
  {
    var q', r' := n / d, n % d;
    assert n == d * q' + r' == q' * d + r';
    SmallDifference(d, q - q', r' - r) by {
      assert (q - q') * d == q * d - q' * d;
    }
  }

  lemma SmallDifference(d: int, k: int, r: int)
    requires k * d == r && -d < r < d
    ensures k == 0
  {
    ScaledUp(d, k);
    ScaledUp(d, -k);
  }

  lemma ScaledUp(d: int, k: int)
    requires d > 0
    ensures k >= 1 ==> k * d >= d
  {
    if k >= 1 {
      assert k * d == d + (k - 1) * d;
    }
  }

  lemma EmptySegment(before: seq<nat>, threshold: nat)
    requires threshold > 0
    ensures FullThresholds(before + [0], threshold) == FullThresholds(before, threshold)
  {
    assert (before + [0])[..|before|] == before;
  }

  lemma LongerSegment(before: seq<nat>, threshold: nat)
    requires threshold > 0 && before != []
    ensures var n := |before| - 1;
            FullThresholds(before[n := before[n] + 1], threshold)
            == FullThresholds(before, threshold) + (before[n] + 1) / threshold - before[n] / threshold
  {
    var n := |before| - 1;
    assert before[n := before[n] + 1][..n] == before[..n];
  }

  /** The number of cycles in closed form: one for each tick, and one for each full threshold
      of notifications between ticks. What is left over is what the counter holds. */
  lemma {:induction false} CyclesClosedForm(threshold: nat, ts: seq<Trigger>)
    requires Closed !in ts && threshold > 0
    ensures var segments := Segments(ts);
            && |Fired(threshold, ts)| == |segments| - 1 + FullThresholds(segments, threshold)
            && Waiting(threshold, ts) == segments[|segments| - 1] % threshold
    decreases |ts|
  {
    if ts != [] {
      var init := ts[..|ts| - 1];
      CyclesClosedForm(threshold, init);
      var before := Segments(init);
      EmptySegment(before, threshold);
      LongerSegment(before, threshold);
      NextQuotient(before[|before| - 1], threshold);
    }
  }

  function TickCount(ts: seq<Trigger>): nat {
    if ts == [] then 0 else TickCount(ts[..|ts| - 1]) + if ts[|ts| - 1].Tick? then 1 else 0
  }

  lemma {:induction false} SegmentsCountTicks(ts: seq<Trigger>)
    ensures |Segments(ts)| == TickCount(ts) + 1
    ensures TickCount(ts) == 0 ==> Segments(ts) == [Notifies(ts)]
    decreases |ts|
  {
    if ts != [] {
      SegmentsCountTicks(ts[..|ts| - 1]);
    }
  }

  /** Notifications alone: a cycle for each full threshold of them. */
  lemma CyclesWithoutTicks(threshold: nat, ts: seq<Trigger>)
    requires Closed !in ts && Tick !in ts && threshold > 0
    ensures |Fired(threshold, ts)| == |ts| / threshold && Waiting(threshold, ts) == |ts| % threshold
  {
    OnlyNotifies(ts);
    SegmentsCountTicks(ts);
    CyclesClosedForm(threshold, ts);
    assert FullThresholds([|ts|], threshold) == FullThresholds([], threshold) + |ts| / threshold;
  }

  lemma {:induction false} OnlyNotifies(ts: seq<Trigger>)
    requires Closed !in ts && Tick !in ts
    ensures Notifies(ts) == |ts| && TickCount(ts) == 0
    decreases |ts|
  {
    if ts != [] {
      var n := |ts| - 1;
      OnlyNotifies(ts[..n]);
      assert ts[n] in ts;
    }
  }

  /** A threshold of 0 leaves the timer alone in charge. */
  lemma {:induction false} CyclesWithoutThreshold(ts: seq<Trigger>)
    requires Closed !in ts
    ensures |Fired(0, ts)| == TickCount(ts)
    decreases |ts|
  {
    if ts != [] {
      CyclesWithoutThreshold(ts[..|ts| - 1]);
    }
  }
}
