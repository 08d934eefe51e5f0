/**
 * scripts/dns-slow-replay.py: a detector over one-minute windows fires when a condition holds and clears once it has
 * not held for `CLEAR_SECS`; proposals for the condition are compared by the stretches in which they fire.
 */
module DnsSlow {
  import opened Names

  const CLEAR_SECS: Time := 300.0
  const DNS_MISS_MS: real := 100.0
  const DNS_CANARY_RATIO: real := 3.0
  const DNS_MIN_MISSES := 3
  const DNS_MIN_SUM_MS: real := 1000.0
  const SLOW_MIN_MISSES := 10
  const SLOW_AVG_MS: real := 100.0

  /** One five-minute window: misses, their ms in all, the worst one-minute mean, and the limit. */
  datatype Win = Win(t: Time, misses: nat, msSum: real, worst: real, limit: real)

  datatype Episode = Episode(start: Time, end: Option<Time>)

  /** The detector: whether it fires and since when, since when the condition has been off, and what it has recorded. */
  datatype Detector = Detector(firing: bool, since: Time, calm: Option<Time>, out: seq<Episode>)

  const QUIET := Detector(false, 0.0, None, [])

  function Observe(d: Detector, t: Time, holds: bool): Detector {
    if holds then
      if d.firing then d.(calm := None) else d.(firing := true, since := t, calm := None)
    else if !d.firing then d
    else
      var calm := if d.calm.None? then t else d.calm.value;
      if t - calm >= CLEAR_SECS then Detector(false, d.since, None, d.out + [Episode(d.since, Some(t))])
      else d.(calm := Some(calm))
  }

  function Detect(d: Detector, ws: seq<Win>, cond: Win -> bool): Detector
    decreases |ws|
  {
    if ws == [] then d else Detect(Observe(d, ws[0].t, cond(ws[0])), ws[1..], cond)
  }

  /** What has been recorded, with the stretch still firing as one without an end. */
  function Recorded(d: Detector): seq<Episode> {
    d.out + if d.firing then [Episode(d.since, None)] else []
  }

  /** `episodes`: the loop over the windows. */
  method Episodes(ws: seq<Win>, cond: Win -> bool) returns (out: seq<Episode>)
    ensures out == Recorded(Detect(QUIET, ws, cond))
  {
    out := [];
    var firing, since: Time, calm: Option<Time> := false, 0.0, None;
    for i := 0 to |ws|
      invariant Detect(Detector(firing, since, calm, out), ws[i..], cond) == Detect(QUIET, ws, cond)
    {
      var w := ws[i];
      assert ws[i..][1..] == ws[i + 1..];
      if cond(w) {
        calm := None;
        if !firing {
          firing, since := true, w.t;
        }
        continue;
      }
      if !firing {
        continue;
      }
      if calm.None? {
        calm := Some(w.t);
      }
      if w.t - calm.value >= CLEAR_SECS {
        out := out + [Episode(since, Some(w.t))];
        firing, calm := false, None;
      }
    }
    if firing {
      out := out + [Episode(since, None)];
    }
  }

  // ---- a weaker condition fires whenever a stronger one does

  ghost predicate InTime(ws: seq<Win>, now: Time) {
    ws == [] || (now <= ws[0].t && InTime(ws[1..], ws[0].t))
  }

  ghost predicate Implies(a: Win -> bool, b: Win -> bool, ws: seq<Win>) {
    forall w :: w in ws && a(w) ==> b(w)
  }

  /** `b` fires whenever `a` does, and has been off no longer. */
  ghost predicate Follows(a: Detector, b: Detector, now: Time) {
    && (a.firing ==> b.firing)
    && (a.firing && b.calm.Some? ==> a.calm.Some? && a.calm.value <= b.calm.value)
    && (b.firing ==> b.since <= now)
    && (a.firing ==> a.since <= now)
    && (a.calm.Some? ==> a.calm.value <= now)
  }

  /** `f` begins no later than `e` and ends no earlier. */
  predicate Contains(f: Episode, e: Episode) {
    f.start <= e.start && (f.end.Some? ==> e.end.Some? && e.end.value <= f.end.value)
  }

  /** Some recorded stretch of `b` has all of `e` in it. */
  ghost predicate Met(e: Episode, b: seq<Episode>) {
    exists f :: f in b && Contains(f, e)
  }

  ghost predicate AllMet(a: Detector, b: Detector, now: Time) {
    forall e :: e in Recorded(a) ==>
      e.start <= now && (e.end.Some? ==> e.start <= e.end.value <= now) && Met(e, Recorded(b))
  }

  lemma ObserveFollows(a: Detector, b: Detector, now: Time, t: Time, holdsA: bool, holdsB: bool)
    requires Follows(a, b, now) && now <= t && (holdsA ==> holdsB)
    ensures Follows(Observe(a, t, holdsA), Observe(b, t, holdsB), t)
  {
  }

  /** What contains a closed stretch goes on doing so: it stays open, stays closed, or closes later. */
  lemma ObserveKeepsMet(b: Detector, now: Time, t: Time, holds: bool, e: Episode)
    requires Met(e, Recorded(b)) && e.end.Some? && e.end.value <= now <= t
    ensures Met(e, Recorded(Observe(b, t, holds)))
  {
    var f :| f in Recorded(b) && Contains(f, e);
    var c := Observe(b, t, holds);
    if f in b.out {
      assert f in Recorded(c);
    } else if c.firing {
      assert Episode(b.since, None) in Recorded(c);
    } else {
      assert Episode(b.since, Some(t)) in Recorded(c);
    }
  }

  /** The stretch that is firing lies in the one that is firing in the other detector, and closes no later. */
  lemma ObserveOpen(a: Detector, b: Detector, now: Time, t: Time, holdsA: bool, holdsB: bool)
    requires Follows(a, b, now) && now <= t && (holdsA ==> holdsB) && a.firing && b.since <= a.since
    ensures var c := Observe(a, t, holdsA); var d := Observe(b, t, holdsB);
      && c.since == a.since && d.since == b.since
      && Met(Episode(a.since, if c.firing then None else Some(t)), Recorded(d))
  {
    ObserveFollows(a, b, now, t, holdsA, holdsB);
    var d := Observe(b, t, holdsB);
    var f := Episode(b.since, if d.firing then None else Some(t));
    assert f in Recorded(d);
    var c := Observe(a, t, holdsA);
    assert Contains(f, Episode(a.since, if c.firing then None else Some(t)));
  }

  /** An open stretch is contained in an open one only. */
  lemma OpenMet(a: Detector, b: Detector, now: Time)
    requires Follows(a, b, now) && AllMet(a, b, now) && a.firing && (forall f :: f in b.out ==> f.end.Some?)
    ensures b.since <= a.since
  {
    var e := Episode(a.since, None);
    assert e in Recorded(a);
    var f :| f in Recorded(b) && Contains(f, e);
  }

  /** What has been recorded as over is closed. */
  ghost predicate Closed(d: Detector) {
    forall f :: f in d.out ==> f.end.Some?
  }

  lemma ObserveMeets(a: Detector, b: Detector, now: Time, t: Time, holdsA: bool, holdsB: bool)
    requires Follows(a, b, now) && AllMet(a, b, now) && now <= t && (holdsA ==> holdsB) && Closed(a) && Closed(b)
    ensures AllMet(Observe(a, t, holdsA), Observe(b, t, holdsB), t)
    ensures Closed(Observe(a, t, holdsA)) && Closed(Observe(b, t, holdsB))
  {
    var c := Observe(a, t, holdsA);
    var d := Observe(b, t, holdsB);
    ObserveFollows(a, b, now, t, holdsA, holdsB);
    if a.firing {
      OpenMet(a, b, now);
      ObserveOpen(a, b, now, t, holdsA, holdsB);
    }
    forall e | e in Recorded(c)
      ensures e.start <= t && (e.end.Some? ==> e.start <= e.end.value <= t) && Met(e, Recorded(d))
    {
      if e in a.out {
        assert e in Recorded(a);
        ObserveKeepsMet(b, now, t, holdsB, e);
      } else if a.firing {
        assert e == Episode(a.since, if c.firing then None else Some(t));
      } else {
        assert e == Episode(t, None);
        assert Episode(d.since, None) in Recorded(d) && Contains(Episode(d.since, None), e);
      }
    }
  }

  lemma {:induction false} DetectFollows(
    a: Win -> bool, b: Win -> bool, d: Detector, e: Detector, ws: seq<Win>, now: Time)
    requires Implies(a, b, ws) && InTime(ws, now) && Follows(d, e, now) && AllMet(d, e, now) && Closed(d) && Closed(e)
    ensures Detect(d, ws, a).firing ==> Detect(e, ws, b).firing
    ensures forall ep :: ep in Recorded(Detect(d, ws, a)) ==>
              Met(ep, Recorded(Detect(e, ws, b))) && (ep.end.Some? ==> ep.start <= ep.end.value)
    decreases |ws|
  {
    hide AllMet, Follows, Observe, Met, Recorded, Closed;
    if ws == [] {
      Unfold(d, e, now);
    } else {
      var t := ws[0].t;
      assert ws[0] in ws;
      ObserveFollows(d, e, now, t, a(ws[0]), b(ws[0]));
      ObserveMeets(d, e, now, t, a(ws[0]), b(ws[0]));
      assert forall w :: w in ws[1..] ==> w in ws;
      DetectFollows(a, b, Observe(d, t, a(ws[0])), Observe(e, t, b(ws[0])), ws[1..], t);
    }
  }

  lemma Unfold(d: Detector, e: Detector, now: Time)
    requires Follows(d, e, now) && AllMet(d, e, now)
    ensures d.firing ==> e.firing
    ensures forall ep :: ep in Recorded(d) ==> Met(ep, Recorded(e)) && (ep.end.Some? ==> ep.start <= ep.end.value)
  {
  }

  /** Every stretch of `es` lies in one of `fs`. */
  ghost predicate Within(es: seq<Episode>, fs: seq<Episode>) {
    forall e :: e in es ==> Met(e, fs) && (e.end.Some? ==> e.start <= e.end.value)
  }

  /**
   * If one condition implies another on every window, then at the end of any prefix of windows in time order the
   * second detector fires whenever the first does, and every stretch of the first lies in a stretch of the second.
   */
  lemma WeakerContains(a: Win -> bool, b: Win -> bool, ws: seq<Win>, start: Time)
    requires Implies(a, b, ws) && InTime(ws, start)
    ensures Detect(QUIET, ws, a).firing ==> Detect(QUIET, ws, b).firing
    ensures Within(Recorded(Detect(QUIET, ws, a)), Recorded(Detect(QUIET, ws, b)))
  {
    hide Detect;
    DetectFollows(a, b, QUIET, QUIET, ws, start);
  }

  // ---- the proposals

  function Avg(w: Win): real {
    if w.misses == 0 then 0.0 else w.msSum / (w.misses as real)
  }

  /** The mean without the slowest minute's mean, or 0 when one miss at most is left. */
  function Trim1(w: Win): real {
    if w.misses <= 1 then 0.0
    else (if w.msSum - w.worst > 0.0 then w.msSum - w.worst else 0.0) / ((w.misses - 1) as real)
  }

  predicate Min(least: nat, w: Win) {
    w.misses >= least && Avg(w) >= w.limit
  }

  predicate Current(w: Win) {
    Min(DNS_MIN_MISSES, w)
  }

  predicate Sum(least: real, w: Win) {
    w.misses >= DNS_MIN_MISSES && Avg(w) >= w.limit && w.msSum >= least
  }

  predicate Trimmed(w: Win) {
    w.misses >= DNS_MIN_MISSES && Trim1(w) >= w.limit
  }

  /** `limit_of`: 100 ms, or three times the canary's median if that is more. */
  function LimitOf(p50: Option<real>): (r: real)
    ensures r >= DNS_MISS_MS && (p50.Some? ==> r >= DNS_CANARY_RATIO * p50.value)
    ensures r == DNS_MISS_MS || (p50.Some? && r == DNS_CANARY_RATIO * p50.value)
  {
    if p50.None? || DNS_CANARY_RATIO * p50.value < DNS_MISS_MS then DNS_MISS_MS else DNS_CANARY_RATIO * p50.value
  }

  /** One minute of the history. */
  datatype Row = Row(t: Time, misses: nat, ms: real)

  function Misses(rows: seq<Row>): nat {
    if rows == [] then 0 else rows[0].misses + Misses(rows[1..])
  }

  function Ms(rows: seq<Row>): real {
    if rows == [] then 0.0 else rows[0].ms + Ms(rows[1..])
  }

  /** The largest mean of a minute that has misses, 0 when none has. */
  function Worst(rows: seq<Row>): real {
    if rows == [] then 0.0
    else if rows[0].misses == 0 then Worst(rows[1..])
    else
      var mean := rows[0].ms / (rows[0].misses as real);
      if Misses(rows[1..]) == 0 || mean > Worst(rows[1..]) then mean else Worst(rows[1..])
  }

  /** `windows`: the last five minutes at the end of minute `i`, `p50` being the canary's median then. */
  function WindowAt(rows: seq<Row>, i: nat, p50: Option<real>): Win
    requires 4 <= i < |rows|
  {
    var part := rows[i - 4..i + 1];
    Win(rows[i].t + 60.0, Misses(part), Ms(part), Worst(part), LimitOf(p50))
  }

  function Windows(rows: seq<Row>, p50: seq<Option<real>>, i: nat): seq<Win>
    requires 4 <= i && |p50| == |rows|
    decreases |rows| - i
  {
    if i >= |rows| then [] else [WindowAt(rows, i, p50[i])] + Windows(rows, p50, i + 1)
  }

  lemma MulLeq(a: real, b: real, m: real)
    requires a <= b && 0.0 <= m
    ensures a * m <= b * m
  {
  }

  lemma Combine(ms: real, n: real, mean: real, restMs: real, m: real, restWorst: real, worst: real)
    requires n > 0.0 && m >= 0.0 && mean * n == ms && mean <= worst && restMs <= restWorst * m
    requires m == 0.0 || restWorst <= worst
    ensures ms + restMs <= worst * (n + m)
  {
    MulLeq(mean, worst, n);
    var p, q := worst * n, worst * m;
    assert restMs <= q by {
      if m != 0.0 {
        MulLeq(restWorst, worst, m);
      }
    }
    assert worst * (n + m) == p + q;
  }

  /** The mean over several minutes is at most the worst minute's, when minutes without misses carry no time. */
  lemma {:induction false} WorstIsAtLeastMean(rows: seq<Row>)
    requires Clean(rows)
    ensures Ms(rows) <= Worst(rows) * (Misses(rows) as real)
  {
    hide Ms, Worst, Misses;
    if rows == [] {
      EmptyRows();
    } else {
      var r, rest := rows[0], rows[1..];
      assert r in rows && forall q :: q in rest ==> q in rows;
      WorstIsAtLeastMean(rest);
      assert [r] + rest == rows;
      WorstStep(r, rest);
    }
  }

  lemma EmptyRows()
    ensures Ms([]) == 0.0 && Misses([]) == 0 && Worst([]) == 0.0
  {
  }

  lemma WorstStep(r: Row, rest: seq<Row>)
    requires r.misses == 0 ==> r.ms == 0.0
    requires Ms(rest) <= Worst(rest) * (Misses(rest) as real)
    ensures var rows := [r] + rest; Ms(rows) <= Worst(rows) * (Misses(rows) as real)
  {
    hide Ms, Worst, Misses;
    var rows := [r] + rest;
    RowsParts(r, rest);
    if r.misses > 0 {
      var n, m := r.misses as real, Misses(rest) as real;
      DivTimes(r.ms, n);
      Combine(r.ms, n, r.ms / n, Ms(rest), m, Worst(rest), Worst(rows));
      assert Misses(rows) as real == n + m;
    }
  }

  lemma RowsParts(r: Row, rest: seq<Row>)
    ensures var rows := [r] + rest;
      && Ms(rows) == r.ms + Ms(rest) && Misses(rows) == r.misses + Misses(rest)
      && (r.misses == 0 ==> Worst(rows) == Worst(rest))
      && (r.misses > 0 ==> r.ms / (r.misses as real) <= Worst(rows))
      && (r.misses > 0 && Misses(rest) > 0 ==> Worst(rest) <= Worst(rows))
  {
    assert ([r] + rest)[1..] == rest;
  }

  lemma MeanWithout(s: real, worst: real, m: real, x: real, a: real)
    requires m > 1.0 && a * m == s && x * (m - 1.0) == s - worst
    ensures x <= a <==> a <= worst
  {
    assert a * (m - 1.0) == a * m - a;
    Scale(x, a, m - 1.0);
  }

  lemma DivTimes(y: real, m: real)
    requires m > 0.0
    ensures y / m * m == y
  {
  }

  /** What `trim1` gives is at most the plain mean exactly when the worst minute's mean is at least the plain mean. */
  lemma TrimIsBelowMean(w: Win)
    requires w.misses >= 2 && w.worst <= w.msSum
    ensures Trim1(w) <= Avg(w) <==> Avg(w) <= w.worst
  {
    var m := w.misses as real;
    DivTimes(w.msSum, m);
    DivTimes(w.msSum - w.worst, m - 1.0);
    MeanWithout(w.msSum, w.worst, m, (w.msSum - w.worst) / (m - 1.0), Avg(w));
  }

  lemma Scale(x: real, a: real, m: real)
    requires m > 0.0
    ensures x * m <= a * m <==> x <= a
  {
    if x <= a {
      MulLeq(x, a, m);
    } else {
      assert (x - a) * m > 0.0;
    }
  }

  lemma TrimmedImpliesCurrent(w: Win)
    requires w.limit > 0.0 && w.msSum <= w.worst * (w.misses as real) && Trimmed(w)
    ensures Current(w)
  {
    var m := w.misses as real;
    DivTimes(w.msSum, m);
    Scale(Avg(w), w.worst, m);
    assert w.worst <= w.msSum by { TrimIsPositive(w); }
    TrimIsBelowMean(w);
  }

  lemma TrimIsPositive(w: Win)
    requires w.misses >= 2 && Trim1(w) > 0.0
    ensures w.worst < w.msSum
  {
  }

  /** Minutes without misses carry no time. */
  ghost predicate Clean(rows: seq<Row>) {
    forall r :: r in rows && r.misses == 0 ==> r.ms == 0.0
  }

  lemma WindowIsSound(rows: seq<Row>, i: nat, p50: Option<real>)
    requires 4 <= i < |rows| && Clean(rows)
    ensures var w := WindowAt(rows, i, p50); w.limit >= DNS_MISS_MS && w.msSum <= w.worst * (w.misses as real)
  {
    hide Misses, Ms, Worst;
    var part := rows[i - 4..i + 1];
    assert forall j :: 0 <= j < 5 ==> part[j] == rows[i - 4 + j];
    WorstIsAtLeastMean(part);
  }

  lemma {:induction false} WindowsAreSound(rows: seq<Row>, p50: seq<Option<real>>, i: nat, w: Win)
    requires 4 <= i && |p50| == |rows| && Clean(rows) && w in Windows(rows, p50, i)
    ensures w.limit >= DNS_MISS_MS && w.msSum <= w.worst * (w.misses as real)
    decreases |rows| - i
  {
    hide WindowAt;
    if i < |rows| {
      if w == WindowAt(rows, i, p50[i]) {
        WindowIsSound(rows, i, p50[i]);
      } else {
        WindowsAreSound(rows, p50, i + 1, w);
      }
    }
  }

  /**
   * The proposals are nested on every history: 10, 8, 5 and 3 misses, 2,000 ms in all, 1,000 ms and none, and (when
   * minutes without misses carry no time) the trimmed mean, each imply the next.
   */
  lemma ProposalsAreNested(rows: seq<Row>, p50: seq<Option<real>>)
    requires |p50| == |rows|
    ensures var ws := Windows(rows, p50, 4);
      && Implies(w => Min(10, w), w => Min(8, w), ws)
      && Implies(w => Min(8, w), w => Min(5, w), ws)
      && Implies(w => Min(5, w), Current, ws)
      && Implies(w => Sum(2000.0, w), w => Sum(DNS_MIN_SUM_MS, w), ws)
      && Implies(w => Sum(DNS_MIN_SUM_MS, w), Current, ws)
      && (Clean(rows) ==> Implies(Trimmed, Current, ws))
  {
    var ws := Windows(rows, p50, 4);
    forall w | Clean(rows) && w in ws && Trimmed(w) ensures Current(w) {
      WindowsAreSound(rows, p50, 4, w);
      TrimmedImpliesCurrent(w);
    }
  }

  /** Three misses of 30 ms in all, and 260 ms in a minute without any. */
  function Unclean(): seq<Row> {
    [Row(0.0, 3, 30.0), Row(60.0, 0, 260.0), Row(120.0, 0, 0.0), Row(180.0, 0, 0.0), Row(240.0, 0, 0.0)]
  }

  /** A minute with time but no misses breaks that: the trimmed mean can fire where the plain one does not. */
  lemma TimeWithoutMisses()
    ensures var w := WindowAt(Unclean(), 4, None); Trimmed(w) && !Current(w)
  {
    var rows := Unclean();
    var a, b, c, d, e := rows[0], rows[1], rows[2], rows[3], rows[4];
    assert rows == [a, b, c, d, e];
    assert rows[0..5] == rows;
    assert rows[1..] == [b, c, d, e] && [b, c, d, e][1..] == [c, d, e] && [c, d, e][1..] == [d, e];
    assert [d, e][1..] == [e] && [e][1..] == [];
    assert Ms([e]) == 0.0 && Misses([e]) == 0 && Worst([e]) == 0.0;
    assert Ms([d, e]) == 0.0 && Misses([d, e]) == 0 && Worst([d, e]) == 0.0;
    assert Ms([c, d, e]) == 0.0 && Misses([c, d, e]) == 0 && Worst([c, d, e]) == 0.0;
    assert Ms([b, c, d, e]) == 260.0 && Misses([b, c, d, e]) == 0 && Worst([b, c, d, e]) == 0.0;
    assert Ms(rows) == 290.0 && Misses(rows) == 3 && Worst(rows) == 10.0;
  }

  lemma {:induction false} WindowsInTime(rows: seq<Row>, p50: seq<Option<real>>, i: nat, now: Time)
    requires 4 <= i && |p50| == |rows| && forall j, k :: 0 <= j < k < |rows| ==> rows[j].t <= rows[k].t
    requires i < |rows| ==> now <= rows[i].t + 60.0
    ensures InTime(Windows(rows, p50, i), now)
    decreases |rows| - i
  {
    if i < |rows| {
      WindowsInTime(rows, p50, i + 1, rows[i].t + 60.0);
      assert Windows(rows, p50, i)[1..] == Windows(rows, p50, i + 1);
    }
  }

  /** What a proposal records over a history. */
  function Fires(rows: seq<Row>, p50: seq<Option<real>>, cond: Win -> bool): seq<Episode>
    requires |p50| == |rows|
  {
    Recorded(Detect(QUIET, Windows(rows, p50, 4), cond))
  }

  ghost predicate Ordered(rows: seq<Row>) {
    forall j, k :: 0 <= j < k < |rows| ==> rows[j].t <= rows[k].t
  }

  lemma WeakerFires(rows: seq<Row>, p50: seq<Option<real>>, a: Win -> bool, b: Win -> bool)
    requires |p50| == |rows| && Ordered(rows) && Implies(a, b, Windows(rows, p50, 4))
    ensures Within(Fires(rows, p50, a), Fires(rows, p50, b))
  {
    var start := if |rows| > 4 then rows[4].t else 0.0;
    WindowsInTime(rows, p50, 4, start);
    WeakerContains(a, b, Windows(rows, p50, 4), start);
  }

  /**
   * On a history in time order every stretch of a stronger proposal lies in a stretch of each weaker one, all the way
   * down to the condition of before; and, when minutes without misses carry no time, so does one of the trimmed mean.
   */
  lemma NestedContain(rows: seq<Row>, p50: seq<Option<real>>)
    requires |p50| == |rows| && Ordered(rows)
    ensures Within(Fires(rows, p50, w => Min(10, w)), Fires(rows, p50, w => Min(8, w)))
    ensures Within(Fires(rows, p50, w => Min(8, w)), Fires(rows, p50, w => Min(5, w)))
    ensures Within(Fires(rows, p50, w => Min(5, w)), Fires(rows, p50, Current))
    ensures Within(Fires(rows, p50, w => Sum(2000.0, w)), Fires(rows, p50, w => Sum(DNS_MIN_SUM_MS, w)))
    ensures Within(Fires(rows, p50, w => Sum(DNS_MIN_SUM_MS, w)), Fires(rows, p50, Current))
    ensures Clean(rows) ==> Within(Fires(rows, p50, Trimmed), Fires(rows, p50, Current))
  {
    hide Fires, Within;
    ProposalsAreNested(rows, p50);
    WeakerFires(rows, p50, w => Min(10, w), w => Min(8, w));
    WeakerFires(rows, p50, w => Min(8, w), w => Min(5, w));
    WeakerFires(rows, p50, w => Min(5, w), Current);
    WeakerFires(rows, p50, w => Sum(2000.0, w), w => Sum(DNS_MIN_SUM_MS, w));
    WeakerFires(rows, p50, w => Sum(DNS_MIN_SUM_MS, w), Current);
    if Clean(rows) {
      WeakerFires(rows, p50, Trimmed, Current);
    }
  }
}
