/** Aggregation of per-worker resource samples: a sweep over all timestamps with one cursor per
    worker, and the summary of the rows it emits. */
module ResourceSweep {
  import opened Options

  datatype Metric =
    | CpuPercent | RssBytes | PssBytes | ProcessCount | ThreadCount | FdCount | CaptureDurationMs

  const METRICS: set<Metric> :=
    {CpuPercent, RssBytes, PssBytes, ProcessCount, ThreadCount, FdCount, CaptureDurationMs}

  /** One sample of one worker; a metric that was not captured is absent. */
  datatype Sample = Sample(timestamp: real, metrics: map<Metric, real>)

  /** One aggregate row; a total that is not complete is absent. */
  datatype Row = Row(
    timestamp: real,
    elapsedMs: real,
    workerCount: nat,
    observedWorkerCount: nat,
    totals: map<Metric, real>)

  // ----- Sorted distinct timestamps -------------------------------------------------------

  ghost predicate Rising(s: seq<real>) {
    forall i, j :: 0 <= i < j < |s| ==> s[i] < s[j]
  }

  predicate IsEarliest(s: set<real>, m: real) {
    m in s && forall x | x in s :: m <= x
  }

  lemma {:induction false} EarliestExists(s: set<real>) returns (m: real)
    requires s != {}
    ensures IsEarliest(s, m)
  {
    assert (forall x: real :: x !in s) ==> s == {};
    var x: real :| x in s;
    if s == {x} {
      m := x;
    } else {
      var rest := s - {x};
      assert s == rest + {x};
      m := EarliestExists(rest);
      if x < m {
        m := x;
      }
    }
  }

  function Earliest(s: set<real>): (m: real)
    requires s != {}
    ensures IsEarliest(s, m)
  {
    assert exists m :: IsEarliest(s, m) by { var m := EarliestExists(s); }
    var m :| m in s && IsEarliest(s, m);
    m
  }

  function SortTimes(s: set<real>): (r: seq<real>)
    ensures |r| == |s| && Rising(r)
    ensures forall x :: x in r <==> x in s
  {
    if s == {} then
      []
    else
      var m := Earliest(s);
      var rest := SortTimes(s - {m});
      [m] + rest
  }

  function Times(ws: seq<seq<Sample>>): set<real> {
    set w, s | w in ws && s in w :: s.timestamp
  }

  // ----- What a row should hold -----------------------------------------------------------

  /** How many samples precede the first one later than `t`. */
  ghost function Leading(samples: seq<Sample>, t: real): (k: nat)
    ensures k <= |samples|
  {
    if samples == [] || samples[0].timestamp > t then 0 else 1 + Leading(samples[1..], t)
  }

  ghost function Latest(samples: seq<Sample>, t: real): Option<Sample> {
    var k := Leading(samples, t);
    if k == 0 then None else Some(samples[k - 1])
  }

  function Present(latest: seq<Option<Sample>>): seq<Sample> {
    if latest == [] then []
    else Present(latest[..|latest| - 1]) +
         if latest[|latest| - 1].Some? then [latest[|latest| - 1].value] else []
  }

  ghost function LatestOf(ws: seq<seq<Sample>>, t: real): seq<Option<Sample>> {
    seq(|ws|, i requires 0 <= i < |ws| => Latest(ws[i], t))
  }

  /** The samples in force at `t`, one for each worker observed so far. */
  ghost function Observed(ws: seq<seq<Sample>>, t: real): seq<Sample> {
    Present(LatestOf(ws, t))
  }

  function Total(current: seq<Sample>, m: Metric): real
    requires forall s :: s in current ==> m in s.metrics
  {
    if current == [] then 0.0
    else Total(current[..|current| - 1], m) + current[|current| - 1].metrics[m]
  }

  /** The sum over all observed workers, or nothing when one of them lacks the metric. */
  function SumComplete(current: seq<Sample>): map<Metric, real> {
    map m | m in METRICS && current != [] && (forall s | s in current :: m in s.metrics) ::
      Total(current, m)
  }

  function RowOf(current: seq<Sample>, workers: nat, t: real, first: real): Row {
    Row(t, (t - first) * 1000.0, workers, |current|, SumComplete(current))
  }

  /** One row for each of the given times at which some worker has been observed. */
  ghost function RowsFor(ws: seq<seq<Sample>>, times: seq<real>, first: real): seq<Row> {
    if times == [] then
      []
    else
      var t := times[|times| - 1];
      RowsFor(ws, times[..|times| - 1], first) +
      if Observed(ws, t) == [] then [] else [RowOf(Observed(ws, t), |ws|, t, first)]
  }

  // ----- The sweep ------------------------------------------------------------------------

  lemma {:induction false} LeadingMeans(samples: seq<Sample>, t: real, k: nat)
    requires k <= |samples| && (forall i :: 0 <= i < k ==> samples[i].timestamp <= t)
    requires k < |samples| ==> samples[k].timestamp > t
    ensures Leading(samples, t) == k
  {
    if k > 0 {
      LeadingMeans(samples[1..], t, k - 1);
    }
  }

  lemma {:induction false} LeadingBounds(samples: seq<Sample>, t: real)
    ensures forall i :: 0 <= i < Leading(samples, t) ==> samples[i].timestamp <= t
    ensures Leading(samples, t) < |samples| ==> samples[Leading(samples, t)].timestamp > t
  {
    if samples != [] && samples[0].timestamp <= t {
      LeadingBounds(samples[1..], t);
      forall i | 0 < i < Leading(samples, t) ensures samples[i].timestamp <= t {
        assert samples[i] == samples[1..][i - 1];
      }
    }
  }

  ghost predicate Consumed(samples: seq<Sample>, cursor: nat, t: real) {
    cursor <= |samples| && forall i :: 0 <= i < cursor ==> samples[i].timestamp <= t
  }

  ghost predicate Remembers(samples: seq<Sample>, cursor: nat, latest: Option<Sample>) {
    cursor <= |samples| && latest == if cursor == 0 then None else Some(samples[cursor - 1])
  }

  /** Moves one worker's cursor past everything at or before `t`. */
  method Advance(samples: seq<Sample>, cursor: nat, latest: Option<Sample>, t: real)
    returns (c: nat, l: Option<Sample>, ghost moves: nat)
    requires Consumed(samples, cursor, t) && Remembers(samples, cursor, latest)
    ensures c == Leading(samples, t) && l == Latest(samples, t) && c == cursor + moves
  {
    c, l, moves := cursor, latest, 0;
    while c < |samples| && samples[c].timestamp <= t
      invariant c == cursor + moves && Consumed(samples, c, t) && Remembers(samples, c, l)
    {
      l := Some(samples[c]);
      c := c + 1;
      moves := moves + 1;
    }
    LeadingMeans(samples, t, c);
  }

  ghost predicate Swept(ws: seq<seq<Sample>>, cursors: seq<nat>, latest: seq<Option<Sample>>, t: real) {
    && |cursors| == |latest| == |ws|
    && forall w :: 0 <= w < |ws| ==> Consumed(ws[w], cursors[w], t) && Remembers(ws[w], cursors[w], latest[w])
  }

  ghost function Sum(cursors: seq<nat>): nat {
    if cursors == [] then 0 else Sum(cursors[..|cursors| - 1]) + cursors[|cursors| - 1]
  }

  lemma {:induction false} SumUpdate(cursors: seq<nat>, w: nat, c: nat)
    requires w < |cursors|
    ensures Sum(cursors[w := c]) == Sum(cursors) - cursors[w] + c
  {
    var n := |cursors| - 1;
    if w < n {
      SumUpdate(cursors[..n], w, c);
      assert cursors[w := c][..n] == cursors[..n][w := c];
    } else {
      assert cursors[w := c][..n] == cursors[..n];
    }
  }

  /** Moves every worker's cursor past everything at or before `t`. */
  method AdvanceAll(ws: seq<seq<Sample>>, cursors: seq<nat>, latest: seq<Option<Sample>>, t: real)
    returns (c: seq<nat>, l: seq<Option<Sample>>, ghost moves: nat)
    requires Swept(ws, cursors, latest, t)
    ensures Swept(ws, c, l, t) && l == LatestOf(ws, t)
    ensures Sum(c) == Sum(cursors) + moves
  {
    hide Sum;
    c, l, moves := cursors, latest, 0;
    for w := 0 to |ws|
      invariant Swept(ws, c, l, t) && Sum(c) == Sum(cursors) + moves
      invariant forall v :: 0 <= v < w ==> l[v] == Latest(ws[v], t)
      invariant forall v :: w <= v < |ws| ==> c[v] == cursors[v] && l[v] == latest[v]
    {
      var cursor, sample;
      ghost var steps;
      cursor, sample, steps := Advance(ws[w], c[w], l[w], t);
      LeadingBounds(ws[w], t);
      SumUpdate(c, w, cursor);
      c, l, moves := c[w := cursor], l[w := sample], moves + steps;
    }
  }

  ghost function SampleCount(ws: seq<seq<Sample>>): nat {
    if ws == [] then 0 else SampleCount(ws[..|ws| - 1]) + |ws[|ws| - 1]|
  }

  lemma {:induction false} SumBounded(ws: seq<seq<Sample>>, cursors: seq<nat>)
    requires |cursors| == |ws| && forall w :: 0 <= w < |ws| ==> cursors[w] <= |ws[w]|
    ensures Sum(cursors) <= SampleCount(ws)
  {
    if ws != [] {
      SumBounded(ws[..|ws| - 1], cursors[..|ws| - 1]);
    }
  }

  lemma {:induction false} SumZero(n: nat)
    ensures Sum(seq(n, w => 0)) == 0
  {
    var zeros: seq<nat> := seq(n, w => 0);
    if n > 0 {
      var fewer: seq<nat> := seq(n - 1, w => 0);
      assert zeros[..n - 1] == fewer;
      SumZero(n - 1);
    }
  }

  /** Time only moves forward, so what was consumed stays consumed. */
  lemma {:induction false} SweptLater(
    ws: seq<seq<Sample>>, cursors: seq<nat>, latest: seq<Option<Sample>>, t: real, u: real)
    requires Swept(ws, cursors, latest, t) && t <= u
    ensures Swept(ws, cursors, latest, u)
  {
  }

  lemma {:induction false} RowsNext(ws: seq<seq<Sample>>, times: seq<real>, k: nat, first: real)
    requires k < |times|
    ensures RowsFor(ws, times[..k + 1], first) ==
            if Observed(ws, times[k]) == [] then RowsFor(ws, times[..k], first)
            else RowsFor(ws, times[..k], first) + [RowOf(Observed(ws, times[k]), |ws|, times[k], first)]
  {
    hide Observed, RowOf;
    assert times[..k + 1][..k] == times[..k];
  }

  /** The aggregation, for samples in any order. Worker `w` stands for the `w`-th label; `moves`
      counts the steps of all cursors together. */
  method Aggregate(ws: seq<seq<Sample>>) returns (rows: seq<Row>, ghost moves: nat)
    ensures var times := SortTimes(Times(ws));
            rows == RowsFor(ws, times, if times == [] then 0.0 else times[0])
    ensures RowsTimed(ws, rows)
    ensures AllSorted(ws) ==> ShowsLastSamples(ws, rows)
    ensures moves <= SampleCount(ws)
  {
    hide Observed, RowOf, LatestOf, Times, Sum, Swept, RowsFor, Present, ShowsLastSamples, AllSorted;
    hide RowsTimed;
    var times := SortTimes(Times(ws));
    var cursors: seq<nat> := seq(|ws|, w => 0);
    var latest: seq<Option<Sample>> := seq(|ws|, w => None);
    var first := if times == [] then 0.0 else times[0];
    rows, moves := [], 0;
    SumZero(|ws|);
    SweepStarts(ws, first);
    assert times[..0] == [];
    for k := 0 to |times|
      invariant rows == RowsFor(ws, times[..k], first)
      invariant Swept(ws, cursors, latest, if k == 0 then first else times[k - 1])
      invariant moves == Sum(cursors)
    {
      var t := times[k];
      SweptLater(ws, cursors, latest, if k == 0 then first else times[k - 1], t);
      ghost var steps;
      cursors, latest, steps := AdvanceAll(ws, cursors, latest, t);
      moves := moves + steps;
      var current := Present(latest);
      ObservedIs(ws, t);
      RowsNext(ws, times, k, first);
      if current == [] {
        continue;
      }
      rows := rows + [RowOf(current, |ws|, t, first)];
    }
    assert times[..|times|] == times;
    SweptBounded(ws, cursors, latest, if times == [] then first else times[|times| - 1]);
    SweepTimes(ws);
    if AllSorted(ws) {
      SortedSweep(ws);
    }
  }

  lemma {:induction false} SweepStarts(ws: seq<seq<Sample>>, t: real)
    ensures Swept(ws, seq(|ws|, w => 0), seq(|ws|, w => None), t)
    ensures RowsFor(ws, [], t) == []
  {
  }

  lemma {:induction false} SweptBounded(
    ws: seq<seq<Sample>>, cursors: seq<nat>, latest: seq<Option<Sample>>, t: real)
    requires Swept(ws, cursors, latest, t)
    ensures Sum(cursors) <= SampleCount(ws)
  {
    SumBounded(ws, cursors);
  }

  lemma {:induction false} ObservedIs(ws: seq<seq<Sample>>, t: real)
    ensures Observed(ws, t) == Present(LatestOf(ws, t))
  {
  }

  // ----- Rows in time order ---------------------------------------------------------------

  ghost predicate TimeSorted(samples: seq<Sample>) {
    forall i, j :: 0 <= i <= j < |samples| ==> samples[i].timestamp <= samples[j].timestamp
  }

  /** One more than the position of the last sample at or before `t`, or 0 when there is none. */
  ghost function LastCount(samples: seq<Sample>, t: real): (k: nat)
    ensures k <= |samples|
  {
    if samples == [] then 0
    else if samples[|samples| - 1].timestamp <= t then |samples|
    else LastCount(samples[..|samples| - 1], t)
  }

  /** The last sample at or before `t`, found by looking at the whole list. */
  ghost function LastAtOrBefore(samples: seq<Sample>, t: real): Option<Sample> {
    var k := LastCount(samples, t);
    if k == 0 then None else Some(samples[k - 1])
  }

  lemma {:induction false} LastCountBounds(samples: seq<Sample>, t: real)
    ensures forall i :: LastCount(samples, t) <= i < |samples| ==> samples[i].timestamp > t
    ensures LastCount(samples, t) > 0 ==> samples[LastCount(samples, t) - 1].timestamp <= t
  {
    if samples != [] && samples[|samples| - 1].timestamp > t {
      LastCountBounds(samples[..|samples| - 1], t);
    }
  }

  /** The cursor has stopped right behind the last sample at or before `t`. */
  ghost predicate FindsLast(samples: seq<Sample>, t: real) {
    Leading(samples, t) == LastCount(samples, t)
  }

  /** The cursor finds the last sample at or before every time exactly when samples come in time
      order. */
  lemma {:induction false} SweepNeedsOrder(samples: seq<Sample>)
    ensures TimeSorted(samples) <==> forall t :: FindsLast(samples, t)
  {
    if TimeSorted(samples) {
      forall t ensures FindsLast(samples, t) {
        var n := LastCount(samples, t);
        LastCountBounds(samples, t);
        forall i | 0 <= i < n ensures samples[i].timestamp <= t {
          assert samples[i].timestamp <= samples[n - 1].timestamp;
        }
        LeadingMeans(samples, t, n);
      }
    }
    if forall t :: FindsLast(samples, t) {
      forall i, j | 0 <= i <= j < |samples| ensures samples[i].timestamp <= samples[j].timestamp {
        var t := samples[j].timestamp;
        assert FindsLast(samples, t);
        LeadingBounds(samples, t);
        LastCountBounds(samples, t);
      }
    }
  }

  /** In time order the last sample at or before `t` is also the most recent one. */
  lemma {:induction false} LastIsMostRecent(samples: seq<Sample>, t: real, s: Sample)
    requires TimeSorted(samples) && s in samples && s.timestamp <= t
    ensures LastAtOrBefore(samples, t).Some?
    ensures s.timestamp <= LastAtOrBefore(samples, t).value.timestamp <= t
  {
    LastCountBounds(samples, t);
  }

  lemma {:induction false} LeadingMonotone(samples: seq<Sample>, t: real, u: real)
    requires t <= u
    ensures Leading(samples, t) <= Leading(samples, u)
  {
    if samples != [] && samples[0].timestamp <= t {
      LeadingMonotone(samples[1..], t, u);
    }
  }

  lemma {:induction false} PresentMonotone(a: seq<Option<Sample>>, b: seq<Option<Sample>>)
    requires |a| == |b| && forall i :: 0 <= i < |a| && a[i].Some? ==> b[i].Some?
    ensures |Present(a)| <= |Present(b)| <= |b|
  {
    if a != [] {
      PresentMonotone(a[..|a| - 1], b[..|b| - 1]);
    }
  }

  /** A worker once observed stays observed. */
  lemma {:induction false} ObservedMonotone(ws: seq<seq<Sample>>, t: real, u: real)
    requires t <= u
    ensures |Observed(ws, t)| <= |Observed(ws, u)| <= |ws|
  {
    forall i | 0 <= i < |ws| && LatestOf(ws, t)[i].Some? ensures LatestOf(ws, u)[i].Some? {
      LeadingMonotone(ws[i], t, u);
    }
    PresentMonotone(LatestOf(ws, t), LatestOf(ws, u));
  }

  lemma {:induction false} PresentSome(l: seq<Option<Sample>>)
    ensures Present(l) != [] <==> exists i :: 0 <= i < |l| && l[i].Some?
  {
    if l != [] {
      var front := l[..|l| - 1];
      PresentSome(front);
      if i :| 0 <= i < |l| && l[i].Some? {
        assert i < |front| ==> front[i] == l[i];
      }
      if i :| 0 <= i < |front| && front[i].Some? {
        assert l[i].Some?;
      }
    }
  }

  /** Some worker starts no later than `t`. */
  ghost predicate Started(ws: seq<seq<Sample>>, t: real) {
    exists w :: 0 <= w < |ws| && ws[w] != [] && ws[w][0].timestamp <= t
  }

  lemma {:induction false} ObservedMeans(ws: seq<seq<Sample>>, t: real)
    ensures Observed(ws, t) != [] <==> Started(ws, t)
  {
    var l := LatestOf(ws, t);
    PresentSome(l);
    if i :| 0 <= i < |l| && l[i].Some? {
      assert ws[i] != [] && ws[i][0].timestamp <= t;
    }
    if Started(ws, t) {
      var w :| 0 <= w < |ws| && ws[w] != [] && ws[w][0].timestamp <= t;
      assert l[w].Some?;
    }
  }

  /** No time is skipped exactly when some worker's first sample is the earliest of all. */
  lemma {:induction false} NoTimeSkipped(ws: seq<seq<Sample>>)
    requires Times(ws) != {}
    ensures (forall t :: t in Times(ws) ==> Observed(ws, t) != []) <==> Started(ws, Earliest(Times(ws)))
  {
    hide Observed, Times;
    var e := Earliest(Times(ws));
    ObservedMeans(ws, e);
    if Started(ws, e) {
      forall t | t in Times(ws) ensures Observed(ws, t) != [] {
        ObservedMeans(ws, t);
        var w :| 0 <= w < |ws| && ws[w] != [] && ws[w][0].timestamp <= e;
      }
    }
  }

  /** With every worker's samples in time order no time is skipped. */
  lemma {:induction false} SortedSkipsNothing(ws: seq<seq<Sample>>)
    requires Times(ws) != {} && forall w :: 0 <= w < |ws| ==> TimeSorted(ws[w])
    ensures Started(ws, Earliest(Times(ws)))
  {
    var e := Earliest(Times(ws));
    assert e in Times(ws);
    var w, s :| w in ws && s in w && s.timestamp == e;
    var i :| 0 <= i < |ws| && ws[i] == w;
    var j :| 0 <= j < |w| && w[j] == s;
    assert ws[i][0].timestamp <= ws[i][j].timestamp;
  }

  ghost predicate RowBelongs(ws: seq<seq<Sample>>, times: seq<real>, first: real, r: Row) {
    r.timestamp in times && r == RowOf(Observed(ws, r.timestamp), |ws|, r.timestamp, first)
  }

  ghost predicate InTimeOrder(rows: seq<Row>) {
    forall i, j :: 0 <= i < j < |rows| ==> rows[i].timestamp < rows[j].timestamp
  }

  lemma {:induction false} BelongsEarlier(
    ws: seq<seq<Sample>>, times: seq<real>, first: real, r: Row)
    requires times != [] && Rising(times) && RowBelongs(ws, times[..|times| - 1], first, r)
    ensures RowBelongs(ws, times, first, r) && r.timestamp < times[|times| - 1]
  {
    hide RowOf, Observed;
    var front := times[..|times| - 1];
    assert r.timestamp in front;
    var k :| 0 <= k < |front| && front[k] == r.timestamp;
    assert times[k] == front[k];
  }

  /** Every row is the row of its own time, and rows come in time order. */
  lemma {:induction false} RowsInOrder(ws: seq<seq<Sample>>, times: seq<real>, first: real)
    requires Rising(times)
    ensures InTimeOrder(RowsFor(ws, times, first))
    ensures forall i :: 0 <= i < |RowsFor(ws, times, first)| ==>
                          RowBelongs(ws, times, first, RowsFor(ws, times, first)[i])
  {
    hide Observed, SumComplete, RowBelongs;
    if times != [] {
      var front, t := times[..|times| - 1], times[|times| - 1];
      RowsInOrder(ws, front, first);
      var before, rows := RowsFor(ws, front, first), RowsFor(ws, times, first);
      forall i | 0 <= i < |before|
        ensures RowBelongs(ws, times, first, before[i]) && before[i].timestamp < t
      {
        BelongsEarlier(ws, times, first, before[i]);
      }
      LastBelongs(ws, times, first);
    }
  }

  lemma {:induction false} LastBelongs(ws: seq<seq<Sample>>, times: seq<real>, first: real)
    requires times != []
    ensures var t := times[|times| - 1];
            RowBelongs(ws, times, first, RowOf(Observed(ws, t), |ws|, t, first))
  {
  }

  /** When no time is skipped there is one row for each time. */
  lemma {:induction false} OneRowPerTime(ws: seq<seq<Sample>>, times: seq<real>, first: real)
    requires forall t :: t in times ==> Observed(ws, t) != []
    ensures |RowsFor(ws, times, first)| == |times|
    ensures forall i :: 0 <= i < |times| ==> RowsFor(ws, times, first)[i].timestamp == times[i]
  {
    hide Observed, SumComplete;
    if times != [] {
      assert times[|times| - 1] in times;
      OneRowPerTime(ws, times[..|times| - 1], first);
    }
  }

  /** Some worker has a sample of time `t`. */
  ghost predicate Sampled(ws: seq<seq<Sample>>, t: real) {
    exists w, i :: 0 <= w < |ws| && 0 <= i < |ws[w]| && ws[w][i].timestamp == t
  }

  ghost predicate HasRow(rows: seq<Row>, t: real) {
    exists k :: 0 <= k < |rows| && rows[k].timestamp == t
  }

  ghost predicate MeasuredFrom(rows: seq<Row>, t: real) {
    forall k :: 0 <= k < |rows| ==> rows[k].elapsedMs == (rows[k].timestamp - t) * 1000.0
  }

  ghost predicate LeastSampled(ws: seq<seq<Sample>>, t: real) {
    Sampled(ws, t) && forall w, i :: 0 <= w < |ws| && 0 <= i < |ws[w]| ==> t <= ws[w][i].timestamp
  }

  /** When rows are emitted, said of the samples alone: in time order, one for the time of each
      sample by which some worker has started, and measured from the least sample time. */
  ghost predicate RowsTimed(ws: seq<seq<Sample>>, rows: seq<Row>) {
    && InTimeOrder(rows)
    && (forall t :: HasRow(rows, t) <==> Sampled(ws, t) && Started(ws, t))
    && (rows != [] ==> exists t :: LeastSampled(ws, t) && MeasuredFrom(rows, t))
  }

  lemma {:induction false} TimesExactly(ws: seq<seq<Sample>>, t: real)
    ensures t in Times(ws) <==> Sampled(ws, t)
  {
    if t in Times(ws) {
      var w, s :| w in ws && s in w && s.timestamp == t;
      var v :| 0 <= v < |ws| && ws[v] == w;
      var i :| 0 <= i < |w| && w[i] == s;
      assert ws[v][i].timestamp == t;
    }
    if w, i :| 0 <= w < |ws| && 0 <= i < |ws[w]| && ws[w][i].timestamp == t {
      assert ws[w] in ws && ws[w][i] in ws[w];
    }
  }

  lemma {:induction false} RowTime(ws: seq<seq<Sample>>, times: seq<real>, first: real, t: real)
    requires Rising(times) && (t in times <==> Sampled(ws, t))
    ensures HasRow(RowsFor(ws, times, first), t) <==> Sampled(ws, t) && Started(ws, t)
  {
    hide Observed, SumComplete, RowsFor, Started, Sampled;
    var rows := RowsFor(ws, times, first);
    ObservedMeans(ws, t);
    RowsInOrder(ws, times, first);
    RowsObserve(ws, times, first);
    if k :| 0 <= k < |rows| && rows[k].timestamp == t {
      assert RowBelongs(ws, times, first, rows[k]) && rows[k] in rows;
    }
    if Sampled(ws, t) && Started(ws, t) {
      var k := TimeHasRow(ws, times, first, t);
    }
  }

  lemma {:induction false} SweepTimes(ws: seq<seq<Sample>>)
    ensures var times := SortTimes(Times(ws));
            RowsTimed(ws, RowsFor(ws, times, if times == [] then 0.0 else times[0]))
  {
    hide RowsFor, RowsTimed, Times, Sampled;
    var times := SortTimes(Times(ws));
    forall t ensures t in times <==> Sampled(ws, t) {
      TimesExactly(ws, t);
    }
    TimedFor(ws, times, if times == [] then 0.0 else times[0]);
  }

  lemma {:induction false} TimedFor(ws: seq<seq<Sample>>, times: seq<real>, first: real)
    requires Rising(times) && (forall t :: t in times <==> Sampled(ws, t))
    requires times != [] ==> first == times[0]
    ensures RowsTimed(ws, RowsFor(ws, times, first))
  {
    hide RowsFor, Started, Sampled, HasRow, MeasuredFrom, LeastSampled, InTimeOrder, RowBelongs;
    var rows := RowsFor(ws, times, first);
    RowsInOrder(ws, times, first);
    RowsMeasured(ws, times, first);
    forall t ensures HasRow(rows, t) <==> Sampled(ws, t) && Started(ws, t) {
      RowTime(ws, times, first, t);
    }
    if times == [] {
      NoRows(ws, first);
    } else {
      FirstIsLeast(ws, times);
    }
  }

  lemma {:induction false} RowsMeasured(ws: seq<seq<Sample>>, times: seq<real>, first: real)
    requires Rising(times)
    ensures MeasuredFrom(RowsFor(ws, times, first), first)
  {
    hide Observed, SumComplete, RowsFor;
    var rows := RowsFor(ws, times, first);
    RowsInOrder(ws, times, first);
    forall k | 0 <= k < |rows| ensures rows[k].elapsedMs == (rows[k].timestamp - first) * 1000.0 {
      assert RowBelongs(ws, times, first, rows[k]);
    }
  }

  lemma {:induction false} FirstIsLeast(ws: seq<seq<Sample>>, times: seq<real>)
    requires times != [] && Rising(times) && forall t :: t in times <==> Sampled(ws, t)
    ensures LeastSampled(ws, times[0])
  {
    assert times[0] in times;
    forall w, i | 0 <= w < |ws| && 0 <= i < |ws[w]| ensures times[0] <= ws[w][i].timestamp {
      assert Sampled(ws, ws[w][i].timestamp);
      var k :| 0 <= k < |times| && times[k] == ws[w][i].timestamp;
    }
  }

  // ----- Totals ---------------------------------------------------------------------------

  ghost predicate HasMetric(current: seq<Sample>, m: Metric) {
    forall s :: s in current ==> m in s.metrics
  }

  lemma {:induction false} TotalConcat(a: seq<Sample>, b: seq<Sample>, m: Metric)
    requires HasMetric(a, m) && HasMetric(b, m)
    ensures HasMetric(a + b, m) && Total(a + b, m) == Total(a, m) + Total(b, m)
  {
    if b == [] {
      assert a + b == a;
    } else {
      var front := b[..|b| - 1];
      TotalConcat(a, front, m);
      assert (a + b)[..|a + b| - 1] == a + front;
    }
  }

  lemma {:induction false} TotalWithout(a: seq<Sample>, k: nat, m: Metric)
    requires k < |a| && HasMetric(a, m)
    ensures HasMetric(a[..k] + a[k + 1..], m)
    ensures Total(a, m) == Total(a[..k] + a[k + 1..], m) + a[k].metrics[m]
    ensures multiset(a[..k] + a[k + 1..]) == multiset(a) - multiset{a[k]}
  {
    assert a == a[..k] + [a[k]] + a[k + 1..];
    assert multiset(a) == multiset(a[..k]) + multiset{a[k]} + multiset(a[k + 1..]);
    TotalConcat(a[..k] + [a[k]], a[k + 1..], m);
    TotalConcat(a[..k], [a[k]], m);
    TotalConcat(a[..k], a[k + 1..], m);
    TotalOne(a[k], m);
  }

  lemma {:induction false} TotalOne(s: Sample, m: Metric)
    requires m in s.metrics
    ensures Total([s], m) == s.metrics[m]
  {
    assert [s][..0] == [];
  }

  /** The order in which workers are added up does not matter. */
  lemma {:induction false} TotalPermutes(a: seq<Sample>, b: seq<Sample>, m: Metric)
    requires multiset(a) == multiset(b) && HasMetric(a, m)
    ensures HasMetric(b, m) && Total(a, m) == Total(b, m)
    decreases |a|
  {
    hide Total;
    assert |multiset(a)| == |a| && |multiset(b)| == |b|;
    assert HasMetric(b, m) by { forall s | s in b ensures m in s.metrics { assert s in multiset(a); } }
    if a == [] {
      assert b == [];
    } else {
      assert a[0] in multiset(b);
      var k :| 0 <= k < |b| && b[k] == a[0];
      TotalWithout(a, 0, m);
      TotalWithout(b, k, m);
      TotalPermutes(a[..0] + a[1..], b[..k] + b[k + 1..], m);
    }
  }

  // ----- Samples in time order ------------------------------------------------------------

  ghost function NaiveAt(ws: seq<seq<Sample>>, t: real): seq<Option<Sample>> {
    seq(|ws|, w requires 0 <= w < |ws| => LastAtOrBefore(ws[w], t))
  }

  ghost function CountSome(l: seq<Option<Sample>>): nat {
    if l == [] then 0 else CountSome(l[..|l| - 1]) + if l[|l| - 1].Some? then 1 else 0
  }

  ghost function Share(o: Option<Sample>, m: Metric): real {
    if o.Some? && m in o.value.metrics then o.value.metrics[m] else 0.0
  }

  ghost function SumOver(l: seq<Option<Sample>>, m: Metric): real {
    if l == [] then 0.0 else SumOver(l[..|l| - 1], m) + Share(l[|l| - 1], m)
  }

  /** Every worker seen so far reports the metric. */
  ghost predicate AllReport(l: seq<Option<Sample>>, m: Metric) {
    forall w :: 0 <= w < |l| && l[w].Some? ==> m in l[w].value.metrics
  }

  /** The row for `t`, said worker by worker: how many have a sample at or before `t`, and for each
      metric that all of these report, the sum of their last such samples. */
  ghost predicate AggregatesAt(ws: seq<seq<Sample>>, t: real, first: real, r: Row) {
    var l := NaiveAt(ws, t);
    && r.timestamp == t && r.elapsedMs == (t - first) * 1000.0 && r.workerCount == |ws|
    && r.observedWorkerCount == CountSome(l) > 0
    && (forall m :: m in r.totals <==> AllReport(l, m))
    && (forall m :: m in r.totals ==> r.totals[m] == SumOver(l, m))
  }

  lemma {:induction false} PresentTotals(l: seq<Option<Sample>>, m: Metric)
    ensures |Present(l)| == CountSome(l)
    ensures HasMetric(Present(l), m) <==> AllReport(l, m)
    ensures HasMetric(Present(l), m) ==> Total(Present(l), m) == SumOver(l, m)
  {
    if l != [] {
      var front, o := l[..|l| - 1], l[|l| - 1];
      PresentTotals(front, m);
      assert AllReport(l, m) <==> AllReport(front, m) && (o.Some? ==> m in o.value.metrics) by {
        assert l == front + [o];
      }
      if o.Some? {
        assert Present(l) == Present(front) + [o.value];
        assert HasMetric(Present(l), m) <==> HasMetric(Present(front), m) && m in o.value.metrics by {
          assert o.value in Present(l);
          assert forall s :: s in Present(front) ==> s in Present(l);
        }
        if HasMetric(Present(l), m) {
          TotalConcat(Present(front), [o.value], m);
          TotalOne(o.value, m);
        }
      } else {
        assert Present(l) == Present(front);
      }
    }
  }

  lemma {:induction false} RowAggregates(ws: seq<seq<Sample>>, t: real, first: real)
    requires LatestOf(ws, t) == NaiveAt(ws, t) && Observed(ws, t) != []
    ensures AggregatesAt(ws, t, first, RowOf(Observed(ws, t), |ws|, t, first))
  {
    var current, l := Observed(ws, t), NaiveAt(ws, t);
    forall m ensures |current| == CountSome(l)
             ensures m in SumComplete(current) <==> AllReport(l, m)
             ensures m in SumComplete(current) ==> SumComplete(current)[m] == SumOver(l, m)
    {
      PresentTotals(l, m);
      AllMetrics(m);
    }
    PresentTotals(l, CpuPercent);
  }

  lemma {:induction false} AllMetrics(m: Metric)
    ensures m in METRICS
  {
    match m
    case CpuPercent => case RssBytes => case PssBytes => case ProcessCount =>
    case ThreadCount => case FdCount => case CaptureDurationMs =>
  }

  ghost predicate AllSorted(ws: seq<seq<Sample>>) {
    forall w :: 0 <= w < |ws| ==> TimeSorted(ws[w])
  }

  /** Besides, the time of every sample has a row, and each row aggregates the last samples of its
      time, the first row being that of the least time. */
  ghost predicate ShowsLastSamples(ws: seq<seq<Sample>>, rows: seq<Row>) {
    && RowsTimed(ws, rows)
    && (forall w, i :: 0 <= w < |ws| && 0 <= i < |ws[w]| ==> HasRow(rows, ws[w][i].timestamp))
    && (forall k :: 0 <= k < |rows| ==> AggregatesAt(ws, rows[k].timestamp, rows[0].timestamp, rows[k]))
  }

  lemma {:induction false} SortedLatest(ws: seq<seq<Sample>>, t: real)
    requires AllSorted(ws)
    ensures LatestOf(ws, t) == NaiveAt(ws, t)
  {
    forall w | 0 <= w < |ws| ensures Latest(ws[w], t) == LastAtOrBefore(ws[w], t) {
      SweepNeedsOrder(ws[w]);
      assert FindsLast(ws[w], t);
    }
  }

  /** With every worker's samples in time order the sweep shows the last samples, at every time. */
  lemma {:induction false} SortedSweep(ws: seq<seq<Sample>>)
    requires AllSorted(ws)
    ensures var times := SortTimes(Times(ws));
            ShowsLastSamples(ws, RowsFor(ws, times, if times == [] then 0.0 else times[0]))
  {
    hide Observed, AggregatesAt, Times, RowsFor, HasRow, MeasuredFrom, AllSorted, InTimeOrder;
    var times := SortTimes(Times(ws));
    SweepTimes(ws);
    forall w, i | 0 <= w < |ws| && 0 <= i < |ws[w]|
      ensures Sampled(ws, ws[w][i].timestamp) && Started(ws, ws[w][i].timestamp)
    {
      SampleStarted(ws, w, i);
    }
    if times == [] {
      NoRows(ws, 0.0);
    } else {
      assert times[0] in Times(ws);
      SortedRows(ws);
    }
  }

  lemma {:induction false} NoRows(ws: seq<seq<Sample>>, first: real)
    ensures RowsFor(ws, [], first) == []
  {
  }

  lemma {:induction false} SampleStarted(ws: seq<seq<Sample>>, w: nat, i: nat)
    requires AllSorted(ws) && w < |ws| && i < |ws[w]|
    ensures Started(ws, ws[w][i].timestamp)
  {
    assert TimeSorted(ws[w]) && ws[w][0].timestamp <= ws[w][i].timestamp;
  }

  lemma {:induction false} SortedRows(ws: seq<seq<Sample>>)
    requires AllSorted(ws) && Times(ws) != {}
    ensures var times := SortTimes(Times(ws)); var rows := RowsFor(ws, times, times[0]);
            forall k :: 0 <= k < |rows| ==> AggregatesAt(ws, rows[k].timestamp, rows[0].timestamp, rows[k])
  {
    hide Observed, AggregatesAt, Times, RowOf;
    var times := SortTimes(Times(ws));
    var first := times[0];
    var rows := RowsFor(ws, times, first);
    assert times[0] in Times(ws);
    SortedSkipsNothing(ws);
    NoTimeSkipped(ws);
    OneRowPerTime(ws, times, first);
    RowsInOrder(ws, times, first);
    forall k | 0 <= k < |times| ensures AggregatesAt(ws, times[k], first, rows[k]) {
      assert RowBelongs(ws, times, first, rows[k]) && times[k] in times;
      SortedLatest(ws, times[k]);
      RowAggregates(ws, times[k], first);
    }
  }

  // ----- Samples out of order -------------------------------------------------------------

  lemma {:induction false} TimeHasRow(ws: seq<seq<Sample>>, times: seq<real>, first: real, t: real)
    returns (i: nat)
    requires t in times && Observed(ws, t) != []
    ensures i < |RowsFor(ws, times, first)|
    ensures RowsFor(ws, times, first)[i] == RowOf(Observed(ws, t), |ws|, t, first)
  {
    hide Observed, RowOf;
    var front, last := times[..|times| - 1], times[|times| - 1];
    if t == last {
      i := |RowsFor(ws, front, first)|;
    } else {
      i := TimeHasRow(ws, front, first, t);
    }
  }

  /** A worker whose clock stepped back: the samples were taken at 1, 3 and 2. */
  const STEPPED_BACK: seq<Sample> := [
    Sample(1.0, map[CpuPercent := 10.0]),
    Sample(3.0, map[CpuPercent := 30.0]),
    Sample(2.0, map[CpuPercent := 20.0])]

  /** At time 2 the row still shows the sample of time 1, although one of time 2 is in the list. */
  lemma {:induction false} StaleRow() returns (i: nat)
    ensures var ws := [STEPPED_BACK]; var times := SortTimes(Times(ws));
            && LastAtOrBefore(STEPPED_BACK, 2.0) == Some(STEPPED_BACK[2])
            && times != [] && i < |RowsFor(ws, times, times[0])|
            && RowsFor(ws, times, times[0])[i].timestamp == 2.0
            && RowsFor(ws, times, times[0])[i].totals == map[CpuPercent := 10.0]
  {
    hide Total, RowsFor, Observed, Present, LatestOf;
    var ws := [STEPPED_BACK];
    var times := SortTimes(Times(ws));
    assert STEPPED_BACK in ws && STEPPED_BACK[2] in STEPPED_BACK;
    assert 2.0 in Times(ws);
    LeadingMeans(STEPPED_BACK, 2.0, 1);
    OneWorker(STEPPED_BACK, 2.0);
    i := TimeHasRow(ws, times, times[0], 2.0);
    var shown := [STEPPED_BACK[0]];
    TotalOne(STEPPED_BACK[0], CpuPercent);
    assert CpuPercent in METRICS;
    assert SumComplete(shown) == map[CpuPercent := 10.0];
  }

  lemma {:induction false} OneWorker(samples: seq<Sample>, t: real)
    ensures Observed([samples], t) == if Latest(samples, t).Some? then [Latest(samples, t).value] else []
  {
    var l, none := LatestOf([samples], t), LatestOf([], t);
    assert l == [Latest(samples, t)] && l[..|l| - 1] == none == [];
    assert Present(none) == [];
    assert Present(l) == Present(none) + if l[0].Some? then [l[0].value] else [];
  }

  /** A time at which no worker shows a sample has no row. */
  lemma {:induction false} RowsObserve(ws: seq<seq<Sample>>, times: seq<real>, first: real)
    ensures forall r :: r in RowsFor(ws, times, first) ==> Observed(ws, r.timestamp) != []
  {
    hide Observed, SumComplete;
    if times != [] {
      RowsObserve(ws, times[..|times| - 1], first);
    }
  }

  /** A time that only a sample out of order bears gets no row at all. */
  lemma {:induction false} SkippedTime(early: real, late: real, samples: seq<Sample>)
    requires |samples| == 2 && samples[0].timestamp == late && samples[1].timestamp == early < late
    ensures var times := SortTimes(Times([samples]));
            early in times && forall r :: r in RowsFor([samples], times, times[0]) ==> r.timestamp != early
  {
    hide RowsFor, Observed;
    var ws := [samples];
    assert early in Times(ws) by { assert samples in ws && samples[1] in samples; }
    var times := SortTimes(Times(ws));
    OneWorker(samples, early);
    RowsObserve(ws, times, times[0]);
  }

  // ----- Complete rows --------------------------------------------------------------------

  predicate IsComplete(r: Row) {
    r.observedWorkerCount == r.workerCount
  }

  function CompleteRows(rows: seq<Row>): seq<Row> {
    if rows == [] then []
    else CompleteRows(rows[..|rows| - 1]) + if IsComplete(rows[|rows| - 1]) then [rows[|rows| - 1]] else []
  }

  lemma {:induction false} ObservedNeverFalls(ws: seq<seq<Sample>>, times: seq<real>, first: real, i: nat, j: nat)
    requires Rising(times) && i <= j < |RowsFor(ws, times, first)|
    ensures var rows := RowsFor(ws, times, first);
            rows[i].observedWorkerCount <= rows[j].observedWorkerCount <= rows[j].workerCount == |ws|
  {
    hide Observed, SumComplete, RowsFor;
    var rows := RowsFor(ws, times, first);
    RowsInOrder(ws, times, first);
    assert RowBelongs(ws, times, first, rows[i]) && RowBelongs(ws, times, first, rows[j]);
    ObservedMonotone(ws, rows[i].timestamp, rows[j].timestamp);
  }

  lemma {:induction false} PresentFull(l: seq<Option<Sample>>)
    ensures |Present(l)| <= |l|
    ensures |Present(l)| == |l| <==> forall i :: 0 <= i < |l| ==> l[i].Some?
  {
    if l != [] {
      var front := l[..|l| - 1];
      PresentFull(front);
      assert forall i :: 0 <= i < |front| ==> front[i] == l[i];
    }
  }

  /** Every worker has a sample before or at `t` at the head of its list. */
  ghost predicate AllStarted(ws: seq<seq<Sample>>, t: real) {
    forall w :: 0 <= w < |ws| ==> ws[w] != [] && ws[w][0].timestamp <= t
  }

  lemma {:induction false} CompleteMeans(ws: seq<seq<Sample>>, t: real)
    ensures |Observed(ws, t)| == |ws| <==> AllStarted(ws, t)
  {
    var l := LatestOf(ws, t);
    PresentFull(l);
    forall w | 0 <= w < |ws| ensures l[w].Some? <==> ws[w] != [] && ws[w][0].timestamp <= t {
    }
  }

  ghost predicate CompleteFrom(rows: seq<Row>, k: nat) {
    forall i :: 0 <= i < |rows| ==> (IsComplete(rows[i]) <==> k <= i)
  }

  lemma {:induction false} SuffixOf(rows: seq<Row>, k: nat)
    requires k <= |rows| && CompleteFrom(rows, k)
    ensures CompleteRows(rows) == rows[k..]
  {
    hide IsComplete;
    if rows != [] {
      var n := |rows| - 1;
      if k <= n {
        SuffixOf(rows[..n], k);
        assert rows[k..] == rows[..n][k..] + [rows[n]];
      } else {
        SuffixOf(rows[..n], n);
      }
    }
  }

  /** The first complete row, or the number of rows. */
  lemma {:induction false} FirstComplete(rows: seq<Row>) returns (k: nat)
    requires forall i, j :: 0 <= i <= j < |rows| && IsComplete(rows[i]) ==> IsComplete(rows[j])
    ensures k <= |rows| && CompleteFrom(rows, k)
  {
    hide IsComplete;
    k := 0;
    while k < |rows| && !IsComplete(rows[k])
      invariant k <= |rows| && forall i :: 0 <= i < k ==> !IsComplete(rows[i])
    {
      k := k + 1;
    }
  }

  /** The rows that the summary keeps are contiguous: all from the first one at which every worker
      has started. */
  lemma {:induction false} CompleteRowsAreSuffix(ws: seq<seq<Sample>>, times: seq<real>, first: real)
    returns (k: nat)
    requires Rising(times)
    ensures var rows := RowsFor(ws, times, first);
            && k <= |rows| && CompleteRows(rows) == rows[k..]
            && forall i :: 0 <= i < |rows| ==> (k <= i <==> AllStarted(ws, rows[i].timestamp))
  {
    hide RowsFor, CompleteRows, Observed, SumComplete, AllStarted;
    var rows := RowsFor(ws, times, first);
    RowsInOrder(ws, times, first);
    forall i | 0 <= i < |rows| ensures IsComplete(rows[i]) <==> AllStarted(ws, rows[i].timestamp) {
      assert RowBelongs(ws, times, first, rows[i]);
      CompleteMeans(ws, rows[i].timestamp);
    }
    forall i, j | 0 <= i <= j < |rows| && IsComplete(rows[i]) ensures IsComplete(rows[j]) {
      ObservedNeverFalls(ws, times, first, i, j);
      ObservedNeverFalls(ws, times, first, i, i);
    }
    k := FirstComplete(rows);
    SuffixOf(rows, k);
  }

  function Intervals(rows: seq<Row>): seq<real> {
    if |rows| <= 1 then []
    else seq(|rows| - 1, i requires 0 <= i < |rows| - 1 => rows[i + 1].elapsedMs - rows[i].elapsedMs)
  }

  function SumOf(xs: seq<real>): real {
    if xs == [] then 0.0 else SumOf(xs[..|xs| - 1]) + xs[|xs| - 1]
  }

  lemma {:induction false} IntervalsTelescope(rows: seq<Row>)
    requires rows != []
    ensures SumOf(Intervals(rows)) == rows[|rows| - 1].elapsedMs - rows[0].elapsedMs
  {
    if |rows| > 1 {
      var n := |rows| - 1;
      IntervalsTelescope(rows[..n]);
      assert Intervals(rows)[..n - 1] == Intervals(rows[..n]);
    }
  }

  /** The update intervals of the summary are the differences of neighbouring times, positive, and
      add up to the time they span. */
  lemma {:induction false} UpdateIntervals(ws: seq<seq<Sample>>, times: seq<real>, first: real)
    requires Rising(times) && CompleteRows(RowsFor(ws, times, first)) != []
    ensures var kept := CompleteRows(RowsFor(ws, times, first));
            && |Intervals(kept)| == |kept| - 1
            && (forall i :: 0 <= i < |kept| - 1 ==>
                  0.0 < Intervals(kept)[i] == (kept[i + 1].timestamp - kept[i].timestamp) * 1000.0)
            && SumOf(Intervals(kept)) == (kept[|kept| - 1].timestamp - kept[0].timestamp) * 1000.0
  {
    hide RowsFor, CompleteRows, Observed, SumComplete;
    var rows := RowsFor(ws, times, first);
    var k := CompleteRowsAreSuffix(ws, times, first);
    RowsInOrder(ws, times, first);
    var kept := rows[k..];
    forall i | 0 <= i < |kept| ensures kept[i].elapsedMs == (kept[i].timestamp - first) * 1000.0 {
      assert RowBelongs(ws, times, first, rows[k + i]);
    }
    forall i | 0 <= i < |kept| - 1
      ensures 0.0 < Intervals(kept)[i] == (kept[i + 1].timestamp - kept[i].timestamp) * 1000.0
    {
      assert kept[i].timestamp < kept[i + 1].timestamp;
    }
    IntervalsTelescope(kept);
  }
}
