/** scripts/dns-slow-replay.py, what it reports of a proposal: how many slow stretches it drops. */
module DnsDropped {
  import opened Names
  import opened DnsSlow

  /** Two stretches have a moment in common; one without an end goes on for ever. */
  predicate Overlap(e: Episode, f: Episode) {
    && (e.end.Some? ==> f.start <= e.end.value)
    && (f.end.Some? ==> e.start <= f.end.value)
  }

  predicate OverlapsAny(e: Episode, fires: seq<Episode>) {
    exists f :: f in fires && Overlap(e, f)
  }

  /** `x` lies in the stretch, its ends included. */
  ghost predicate During(e: Episode, x: Time) {
    e.start <= x && (e.end.Some? ==> x <= e.end.value)
  }

  /** Two stretches that end no earlier than they begin overlap exactly when some moment lies in both. */
  lemma OverlapMeans(e: Episode, f: Episode)
    requires (e.end.Some? ==> e.start <= e.end.value) && (f.end.Some? ==> f.start <= f.end.value)
    ensures Overlap(e, f) <==> exists x :: During(e, x) && During(f, x)
  {
    var later := if e.start < f.start then f.start else e.start;
    if Overlap(e, f) {
      assert During(e, later) && During(f, later);
    }
  }

  /** `overlaps`: the loop over the stretches of a proposal. */
  method Overlaps(e: Episode, fires: seq<Episode>) returns (r: bool)
    ensures r <==> OverlapsAny(e, fires)
  {
    for i := 0 to |fires|
      invariant forall j :: 0 <= j < i ==> !Overlap(e, fires[j])
    {
      if (fires[i].end.None? || e.start <= fires[i].end.value) && (e.end.None? || fires[i].start <= e.end.value) {
        assert fires[i] in fires && Overlap(e, fires[i]);
        return true;
      }
    }
    return false;
  }

  /** `dropped_slow`: the slow stretches with which no stretch of the proposal overlaps. */
  function Dropped(slow: seq<Episode>, fires: seq<Episode>): nat {
    if slow == [] then 0 else (if OverlapsAny(slow[0], fires) then 0 else 1) + Dropped(slow[1..], fires)
  }

  lemma {:induction false} DroppedAppend(slow: seq<Episode>, e: Episode, fires: seq<Episode>)
    ensures Dropped(slow + [e], fires) == Dropped(slow, fires) + if OverlapsAny(e, fires) then 0 else 1
  {
    hide OverlapsAny;
    if slow != [] {
      assert (slow + [e])[1..] == slow[1..] + [e];
      DroppedAppend(slow[1..], e, fires);
    }
  }

  ghost function Missed(slow: seq<Episode>, fires: seq<Episode>): set<nat> {
    set i: nat | i < |slow| && !OverlapsAny(slow[i], fires)
  }

  lemma DroppedNone(fires: seq<Episode>)
    ensures Dropped([], fires) == 0
  {
  }

  /** It is the number of those stretches. */
  lemma {:induction false} DroppedCounts(slow: seq<Episode>, fires: seq<Episode>)
    ensures Dropped(slow, fires) == |Missed(slow, fires)|
  {
    hide OverlapsAny, Dropped;
    if slow == [] {
      assert Missed(slow, fires) == {};
      DroppedNone(fires);
    } else {
      var last := |slow| - 1;
      DroppedCounts(slow[..last], fires);
      DroppedAppend(slow[..last], slow[last], fires);
      assert slow[..last] + [slow[last]] == slow;
      var before := Missed(slow[..last], fires);
      assert Missed(slow, fires) == if OverlapsAny(slow[last], fires) then before else before + {last};
    }
  }

  /** Ten misses or more at more than 100 ms each: a window that is slow without doubt. */
  predicate Slow(w: Win) {
    w.misses >= SLOW_MIN_MISSES && Avg(w) > SLOW_AVG_MS
  }

  // ---- a looser proposal drops no more

  lemma OverlapsMore(e: Episode, es: seq<Episode>, fs: seq<Episode>)
    requires Within(es, fs) && OverlapsAny(e, es)
    ensures OverlapsAny(e, fs)
  {
    var f :| f in es && Overlap(e, f);
    var g :| g in fs && Contains(g, f);
    assert Overlap(e, g);
  }

  lemma {:induction false} DropsNoMore(slow: seq<Episode>, es: seq<Episode>, fs: seq<Episode>)
    requires Within(es, fs)
    ensures Dropped(slow, fs) <= Dropped(slow, es)
  {
    if slow != [] {
      if OverlapsAny(slow[0], es) {
        OverlapsMore(slow[0], es, fs);
      }
      DropsNoMore(slow[1..], es, fs);
    }
  }

  lemma {:induction false} DropsNone(slow: seq<Episode>, fs: seq<Episode>)
    requires Within(slow, fs)
    ensures Dropped(slow, fs) == 0
  {
    if slow != [] {
      var e := slow[0];
      assert e in slow;
      var f :| f in fs && Contains(f, e);
      assert Overlap(e, f);
      assert forall x :: x in slow[1..] ==> x in slow;
      DropsNone(slow[1..], fs);
    }
  }

  /** What the tool reports of a proposal over a history. */
  function DroppedBy(rows: seq<Row>, p50: seq<Option<real>>, cond: Win -> bool): nat
    requires |p50| == |rows|
  {
    Dropped(Fires(rows, p50, Slow), Fires(rows, p50, cond))
  }

  /** The reported number never rises from a proposal to a looser one. */
  lemma LooserDropsNoMore(rows: seq<Row>, p50: seq<Option<real>>)
    requires |p50| == |rows| && Ordered(rows)
    ensures DroppedBy(rows, p50, Current) <= DroppedBy(rows, p50, w => Min(5, w))
            <= DroppedBy(rows, p50, w => Min(8, w)) <= DroppedBy(rows, p50, w => Min(10, w))
    ensures DroppedBy(rows, p50, Current) <= DroppedBy(rows, p50, w => Sum(DNS_MIN_SUM_MS, w))
            <= DroppedBy(rows, p50, w => Sum(2000.0, w))
    ensures Clean(rows) ==> DroppedBy(rows, p50, Current) <= DroppedBy(rows, p50, Trimmed)
  {
    hide Fires, Within, Dropped;
    NestedContain(rows, p50);
    var slow := Fires(rows, p50, Slow);
    DropsNoMore(slow, Fires(rows, p50, w => Min(10, w)), Fires(rows, p50, w => Min(8, w)));
    DropsNoMore(slow, Fires(rows, p50, w => Min(8, w)), Fires(rows, p50, w => Min(5, w)));
    DropsNoMore(slow, Fires(rows, p50, w => Min(5, w)), Fires(rows, p50, Current));
    DropsNoMore(slow, Fires(rows, p50, w => Sum(2000.0, w)), Fires(rows, p50, w => Sum(DNS_MIN_SUM_MS, w)));
    DropsNoMore(slow, Fires(rows, p50, w => Sum(DNS_MIN_SUM_MS, w)), Fires(rows, p50, Current));
    if Clean(rows) {
      DropsNoMore(slow, Fires(rows, p50, Trimmed), Fires(rows, p50, Current));
    }
  }

  // ---- which proposals drop a slow stretch

  function Always(p50: Option<real>, n: nat): seq<Option<real>> {
    seq(n, i => p50)
  }

  /** No slow stretch is dropped on any history with this median of the canary. */
  ghost predicate CatchesSlow(p50: Option<real>, cond: Win -> bool) {
    forall rows :: Ordered(rows) ==> DroppedBy(rows, Always(p50, |rows|), cond) == 0
  }

  /** The canary never raises the limit in the windows of the history, with its median taken anew each minute. */
  ghost predicate NeverRaised(p50: seq<Option<real>>) {
    forall i :: 4 <= i < |p50| ==> LimitOf(p50[i]) <= SLOW_AVG_MS
  }

  lemma {:induction false} LimitsAre(rows: seq<Row>, p50: seq<Option<real>>, i: nat, w: Win)
    requires 4 <= i && |p50| == |rows| && w in Windows(rows, p50, i) && NeverRaised(p50)
    ensures w.limit <= SLOW_AVG_MS
    decreases |rows| - i
  {
    hide LimitOf;
    if i < |rows| && w != WindowAt(rows, i, p50[i]) {
      LimitsAre(rows, p50, i + 1, w);
    }
  }

  lemma SlowMeans(w: Win)
    requires w.limit <= SLOW_AVG_MS && Slow(w)
    ensures Min(10, w) && Min(8, w) && Min(5, w) && Current(w) && Sum(DNS_MIN_SUM_MS, w)
  {
    var n := w.misses as real;
    assert Avg(w) * n == w.msSum;
    assert (Avg(w) - 100.0) * n >= 0.0;
  }

  /** Five minutes with these misses and times. */
  lemma FiveMinutes(a: Row, b: Row, c: Row, d: Row, e: Row)
    ensures var rows := [a, b, c, d, e];
      && Misses(rows) == a.misses + b.misses + c.misses + d.misses + e.misses
      && Ms(rows) == a.ms + b.ms + c.ms + d.ms + e.ms
      && Worst(rows) == Worst([a] + [b, c, d, e])
  {
    var rows := [a, b, c, d, e];
    assert rows[1..] == [b, c, d, e] && [b, c, d, e][1..] == [c, d, e] && [c, d, e][1..] == [d, e];
    assert [d, e][1..] == [e] && [e][1..] == [];
    assert Ms([e]) == e.ms && Misses([e]) == e.misses;
    assert Ms([d, e]) == d.ms + e.ms && Misses([d, e]) == d.misses + e.misses;
    assert Ms([c, d, e]) == c.ms + d.ms + e.ms && Misses([c, d, e]) == c.misses + d.misses + e.misses;
    assert rows == [a] + [b, c, d, e];
  }

  /** A history of five minutes has one window, and a proposal fires once, for good, or never. */
  lemma OneWindow(rows: seq<Row>, p50: Option<real>, cond: Win -> bool)
    requires |rows| == 5
    ensures var w := WindowAt(rows, 4, p50);
      Fires(rows, Always(p50, 5), cond) == if cond(w) then [Episode(w.t, None)] else []
  {
    var w := WindowAt(rows, 4, p50);
    var ps := Always(p50, 5);
    var ws := Windows(rows, ps, 4);
    assert Windows(rows, ps, 5) == [] && ps[4] == p50;
    assert ws == [w] && ws[1..] == [];
    assert Detect(QUIET, ws, cond) == Observe(QUIET, w.t, cond(w));
  }

  /** A slow window that a proposal misses is a stretch dropped. */
  lemma MissedIsDropped(rows: seq<Row>, p50: Option<real>, cond: Win -> bool)
    requires |rows| == 5 && Ordered(rows)
    requires Slow(WindowAt(rows, 4, p50)) && !cond(WindowAt(rows, 4, p50))
    ensures !CatchesSlow(p50, cond)
  {
    OneWindow(rows, p50, Slow);
    OneWindow(rows, p50, cond);
    var slow := Fires(rows, Always(p50, 5), Slow);
    assert !OverlapsAny(slow[0], []);
    assert DroppedBy(rows, Always(p50, |rows|), cond) != 0;
  }

  /** Ten misses in five minutes, each of the same time. */
  function Evenly(each: real): seq<Row> {
    var two := each + each;
    [Row(0.0, 2, two), Row(60.0, 2, two), Row(120.0, 2, two), Row(180.0, 2, two), Row(240.0, 2, two)]
  }

  lemma EvenlyIs(each: real, p50: Option<real>)
    ensures |Evenly(each)| == 5 && Ordered(Evenly(each))
    ensures var w := WindowAt(Evenly(each), 4, p50);
      w.misses == 10 && w.msSum == 10.0 * each && Avg(w) == each && w.limit == LimitOf(p50)
  {
    var rows := Evenly(each);
    FiveMinutes(rows[0], rows[1], rows[2], rows[3], rows[4]);
    assert rows[0..5] == rows;
  }

  /** One miss of 500 ms, and nine of 600 ms in all. */
  function OneLong(): seq<Row> {
    [Row(0.0, 9, 600.0), Row(60.0, 0, 0.0), Row(120.0, 0, 0.0), Row(180.0, 0, 0.0), Row(240.0, 1, 500.0)]
  }

  lemma OneLongSums()
    ensures Misses(OneLong()) == 10 && Ms(OneLong()) == 1100.0 && Worst(OneLong()) == 500.0
  {
    var rows := OneLong();
    var a, b, c, d, e := rows[0], rows[1], rows[2], rows[3], rows[4];
    FiveMinutes(a, b, c, d, e);
    assert rows[0..5] == rows == [a] + [b, c, d, e] && rows[1..] == [b, c, d, e] && [b, c, d, e][1..] == [c, d, e];
    assert [c, d, e][1..] == [d, e] && [d, e][1..] == [e] && [e][1..] == [];
    assert Worst([e]) == 500.0 && Misses([e]) == 1;
    assert Worst([d, e]) == 500.0 && Misses([d, e]) == 1;
    assert Worst([c, d, e]) == 500.0 && Misses([c, d, e]) == 1;
    assert Worst([b, c, d, e]) == 500.0 && Misses([b, c, d, e]) == 1;
    assert Worst(rows) == 500.0;
  }

  lemma OneLongIs(p50: Option<real>)
    ensures |OneLong()| == 5 && Ordered(OneLong())
    ensures Slow(WindowAt(OneLong(), 4, p50)) && !Trimmed(WindowAt(OneLong(), 4, p50))
  {
    hide Worst, Misses, Ms, LimitOf;
    OneLongSums();
    assert OneLong()[0..5] == OneLong();
    assert WindowAt(OneLong(), 4, p50) == Win(300.0, 10, 1100.0, 500.0, LimitOf(p50));
  }

  /** What every slow window at a limit of 100 ms satisfies drops no slow stretch of a history with such limits. */
  lemma Catches(rows: seq<Row>, p50: seq<Option<real>>, cond: Win -> bool)
    requires |p50| == |rows| && Ordered(rows) && NeverRaised(p50)
    requires forall w: Win :: w.limit <= SLOW_AVG_MS && Slow(w) ==> cond(w)
    ensures DroppedBy(rows, p50, cond) == 0
  {
    hide Fires, Dropped;
    forall w | w in Windows(rows, p50, 4) && Slow(w) ensures cond(w) {
      LimitsAre(rows, p50, 4, w);
    }
    WeakerFires(rows, p50, Slow, cond);
    DropsNone(Fires(rows, p50, Slow), Fires(rows, p50, cond));
  }

  /** On a history whose limits the canary never raises, proposals by misses and by 1,000 ms drop no slow stretch. */
  lemma UnraisedDropNothing(rows: seq<Row>, p50: seq<Option<real>>)
    requires |p50| == |rows| && Ordered(rows) && NeverRaised(p50)
    ensures DroppedBy(rows, p50, w => Min(10, w)) == DroppedBy(rows, p50, w => Min(8, w)) == 0
    ensures DroppedBy(rows, p50, w => Min(5, w)) == DroppedBy(rows, p50, Current) == 0
    ensures DroppedBy(rows, p50, w => Sum(DNS_MIN_SUM_MS, w)) == 0
  {
    hide DroppedBy, NeverRaised;
    forall w: Win | w.limit <= SLOW_AVG_MS && Slow(w)
      ensures Min(10, w) && Min(8, w) && Min(5, w) && Current(w) && Sum(DNS_MIN_SUM_MS, w)
    {
      SlowMeans(w);
    }
    Catches(rows, p50, w => Min(10, w));
    Catches(rows, p50, w => Min(8, w));
    Catches(rows, p50, w => Min(5, w));
    Catches(rows, p50, Current);
    Catches(rows, p50, w => Sum(DNS_MIN_SUM_MS, w));
  }

  /**
   * For a median that stays the same: exactly when a proposal by misses, or by 1,000 ms in all, drops no slow stretch,
   * the canary does not raise the limit above 100 ms. The proposals by 2,000 ms and by the trimmed mean drop one on
   * some history, always.
   */
  lemma CatchesSlowIff(p50: Option<real>)
    ensures CatchesSlow(p50, w => Min(10, w)) <==> LimitOf(p50) <= SLOW_AVG_MS
    ensures CatchesSlow(p50, w => Min(8, w)) <==> LimitOf(p50) <= SLOW_AVG_MS
    ensures CatchesSlow(p50, w => Min(5, w)) <==> LimitOf(p50) <= SLOW_AVG_MS
    ensures CatchesSlow(p50, Current) <==> LimitOf(p50) <= SLOW_AVG_MS
    ensures CatchesSlow(p50, w => Sum(DNS_MIN_SUM_MS, w)) <==> LimitOf(p50) <= SLOW_AVG_MS
    ensures !CatchesSlow(p50, w => Sum(2000.0, w)) && !CatchesSlow(p50, Trimmed)
  {
    hide DroppedBy, LimitOf;
    EvenlyIs(101.0, p50);
    MissedIsDropped(Evenly(101.0), p50, w => Sum(2000.0, w));
    OneLongIs(p50);
    MissedIsDropped(OneLong(), p50, Trimmed);
    if LimitOf(p50) > SLOW_AVG_MS {
      hide CatchesSlow;
      var each := (100.0 + LimitOf(p50)) / 2.0;
      EvenlyIs(each, p50);
      MissedIsDropped(Evenly(each), p50, w => Min(10, w));
      MissedIsDropped(Evenly(each), p50, w => Min(8, w));
      MissedIsDropped(Evenly(each), p50, w => Min(5, w));
      MissedIsDropped(Evenly(each), p50, Current);
      MissedIsDropped(Evenly(each), p50, w => Sum(DNS_MIN_SUM_MS, w));
    } else {
      forall rows | Ordered(rows)
        ensures DroppedBy(rows, Always(p50, |rows|), w => Min(10, w)) == 0
        ensures DroppedBy(rows, Always(p50, |rows|), w => Min(8, w)) == 0
        ensures DroppedBy(rows, Always(p50, |rows|), w => Min(5, w)) == 0
        ensures DroppedBy(rows, Always(p50, |rows|), Current) == 0
        ensures DroppedBy(rows, Always(p50, |rows|), w => Sum(DNS_MIN_SUM_MS, w)) == 0
      {
        UnraisedDropNothing(rows, Always(p50, |rows|));
      }
    }
  }

  // ---- the proposal by ten misses, for any medians

  /** Ten misses in the five minutes up to minute `i`, each of the same time, and none before or after. */
  function Burst(n: nat, i: nat, each: real): seq<Row> {
    seq(n, j => Row(60.0 * (j as real), if i - 4 <= j <= i then 2 else 0, if i - 4 <= j <= i then each + each else 0.0))
  }

  /** Only the window at the end of the burst has its ten misses. */
  lemma BurstWindow(n: nat, i: nat, each: real, k: nat, p50: Option<real>)
    requires 4 <= i < n && 4 <= k < n
    ensures var w := WindowAt(Burst(n, i, each), k, p50);
      && (k != i ==> w.misses < 10)
      && (k == i ==> w.misses == 10 && Avg(w) == each && w.limit == LimitOf(p50))
  {
    hide Misses, Ms, Worst, LimitOf;
    var rows := Burst(n, i, each);
    var a, b, c, d, e := rows[k - 4], rows[k - 3], rows[k - 2], rows[k - 1], rows[k];
    FiveMinutes(a, b, c, d, e);
    assert rows[k - 4..k + 1] == [a, b, c, d, e];
  }

  lemma {:induction false} BurstWindows(n: nat, i: nat, each: real, p50: seq<Option<real>>, k: nat, w: Win)
    requires 4 <= i < n == |p50| && 4 <= k && w in Windows(Burst(n, i, each), p50, k)
    ensures w.misses < 10 || w == WindowAt(Burst(n, i, each), i, p50[i])
    decreases n - k
  {
    hide WindowAt, Burst;
    BurstOrdered(n, i, each);
    if k < n {
      BurstWindow(n, i, each, k, p50[k]);
      if w != WindowAt(Burst(n, i, each), k, p50[k]) {
        BurstWindows(n, i, each, p50, k + 1, w);
      }
    }
  }

  lemma {:induction false} WindowIsIn(rows: seq<Row>, p50: seq<Option<real>>, i: nat, k: nat)
    requires |p50| == |rows| && 4 <= k <= i < |rows|
    ensures WindowAt(rows, i, p50[i]) in Windows(rows, p50, k)
    decreases i - k
  {
    hide WindowAt;
    if k < i {
      WindowIsIn(rows, p50, i, k + 1);
    }
  }

  /** A condition that never holds records nothing. */
  lemma {:induction false} NeverRecords(ws: seq<Win>, cond: Win -> bool)
    requires forall w :: w in ws ==> !cond(w)
    ensures Detect(QUIET, ws, cond) == QUIET
  {
    if ws != [] {
      assert ws[0] in ws;
      assert forall w :: w in ws[1..] ==> w in ws;
      NeverRecords(ws[1..], cond);
    }
  }

  /** A detector that has fired has something to show for it. */
  lemma {:induction false} KeepsRecord(d: Detector, ws: seq<Win>, cond: Win -> bool)
    requires Recorded(d) != []
    ensures Recorded(Detect(d, ws, cond)) != []
    decreases |ws|
  {
    if ws != [] {
      KeepsRecord(Observe(d, ws[0].t, cond(ws[0])), ws[1..], cond);
    }
  }

  lemma {:induction false} HoldingRecords(d: Detector, ws: seq<Win>, cond: Win -> bool, w: Win)
    requires w in ws && cond(w)
    ensures Recorded(Detect(d, ws, cond)) != []
    decreases |ws|
  {
    hide Recorded;
    var d' := Observe(d, ws[0].t, cond(ws[0]));
    if ws[0] == w {
      FiringRecords(d');
      KeepsRecord(d', ws[1..], cond);
    } else {
      assert ws == [ws[0]] + ws[1..];
      HoldingRecords(d', ws[1..], cond, w);
    }
  }

  lemma FiringRecords(d: Detector)
    requires d.firing
    ensures Recorded(d) != []
  {
  }

  lemma BurstIsDropped(n: nat, i: nat, p50: seq<Option<real>>)
    requires 4 <= i < n == |p50| && LimitOf(p50[i]) > SLOW_AVG_MS
    ensures var rows := Burst(n, i, (100.0 + LimitOf(p50[i])) / 2.0);
      Ordered(rows) && DroppedBy(rows, p50, w => Min(10, w)) > 0
  {
    hide LimitOf, WindowAt, Detect, Burst;
    var each := (100.0 + LimitOf(p50[i])) / 2.0;
    var rows := Burst(n, i, each);
    BurstOrdered(n, i, each);
    BurstWindow(n, i, each, i, p50[i]);
    WindowIsIn(rows, p50, i, 4);
    HoldingRecords(QUIET, Windows(rows, p50, 4), Slow, WindowAt(rows, i, p50[i]));
    forall w | w in Windows(rows, p50, 4) ensures !Min(10, w) {
      BurstWindows(n, i, each, p50, 4, w);
    }
    NeverRecords(Windows(rows, p50, 4), w => Min(10, w));
    assert Fires(rows, p50, w => Min(10, w)) == [];
    var slow := Fires(rows, p50, Slow);
    assert !OverlapsAny(slow[0], []);
  }

  lemma BurstOrdered(n: nat, i: nat, each: real)
    ensures |Burst(n, i, each)| == n && Ordered(Burst(n, i, each))
  {
  }

  /** Exactly for which medians, minute by minute, the proposal by ten misses drops no slow stretch of any history. */
  lemma TenMissesCatchIff(p50: seq<Option<real>>)
    ensures (forall rows :: Ordered(rows) && |rows| == |p50| ==> DroppedBy(rows, p50, w => Min(10, w)) == 0) <==>
            NeverRaised(p50)
  {
    hide DroppedBy, LimitOf;
    if i :| 4 <= i < |p50| && LimitOf(p50[i]) > SLOW_AVG_MS {
      BurstIsDropped(|p50|, i, p50);
    } else {
      forall rows | Ordered(rows) && |rows| == |p50| ensures DroppedBy(rows, p50, w => Min(10, w)) == 0 {
        UnraisedDropNothing(rows, p50);
      }
    }
  }
}
