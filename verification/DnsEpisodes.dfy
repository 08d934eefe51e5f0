/** scripts/dns-slow-replay.py, when a detector fires and what a window holds, without the detector and its numbers. */
module DnsEpisodes {
  import opened Names
  import opened DnsSlow
  import opened DnsDropped

  ghost predicate WindowsInOrder(ws: seq<Win>) {
    forall i, j :: 0 <= i < j < |ws| ==> ws[i].t <= ws[j].t
  }

  /** The last window up to `i` in which the condition held is `j`. */
  ghost predicate HeldLast(ws: seq<Win>, cond: Win -> bool, j: int, i: int)
    requires 0 <= i < |ws|
  {
    && 0 <= j <= i && cond(ws[j])
    && forall l :: j < l <= i ==> !cond(ws[l])
  }

  /**
   * It fires behind window `i`: the condition has held, and if it no longer does, then the first window since in which
   * it did not is less than 300 seconds back.
   */
  ghost predicate On(ws: seq<Win>, cond: Win -> bool, i: int)
    requires 0 <= i < |ws|
  {
    exists j :: HeldLast(ws, cond, j, i) && (j == i || ws[i].t - ws[j + 1].t < 300.0)
  }

  function After(ws: seq<Win>, cond: Win -> bool, n: nat): Detector
    requires n <= |ws|
  {
    Detect(QUIET, ws[..n], cond)
  }

  lemma {:induction false} DetectAppend(d: Detector, ws: seq<Win>, w: Win, cond: Win -> bool)
    ensures Detect(d, ws + [w], cond) == Observe(Detect(d, ws, cond), w.t, cond(w))
    decreases |ws|
  {
    if ws == [] {
      assert [] + [w] == [w] && [w][1..] == [];
      assert Detect(d, [w], cond) == Detect(Observe(d, w.t, cond(w)), [], cond);
    } else {
      assert (ws + [w])[1..] == ws[1..] + [w];
      DetectAppend(Observe(d, ws[0].t, cond(ws[0])), ws[1..], w, cond);
    }
  }

  lemma AfterNext(ws: seq<Win>, cond: Win -> bool, n: nat)
    requires n < |ws|
    ensures After(ws, cond, n + 1) == Observe(After(ws, cond, n), ws[n].t, cond(ws[n]))
  {
    assert ws[..n + 1] == ws[..n] + [ws[n]];
    DetectAppend(QUIET, ws[..n], ws[n], cond);
  }

  /** What the detector knows behind window `i`: the last window that held, and since when none has. */
  ghost predicate Knows(ws: seq<Win>, cond: Win -> bool, i: int, d: Detector)
    requires 0 <= i < |ws|
  {
    && (d.firing <==> On(ws, cond, i))
    && (d.firing ==> exists j :: HeldLast(ws, cond, j, i)
                                 && d.calm == if j == i then None else Some(ws[j + 1].t))
    && (!d.firing ==> d.calm == None && !cond(ws[i]))
  }

  lemma HeldOnce(ws: seq<Win>, cond: Win -> bool, j: int, k: int, i: int)
    requires 0 <= i < |ws| && HeldLast(ws, cond, j, i) && HeldLast(ws, cond, k, i)
    ensures j == k
  {
    assert cond(ws[j]) && cond(ws[k]);
  }

  lemma KnowsFirst(ws: seq<Win>, cond: Win -> bool)
    requires ws != []
    ensures Knows(ws, cond, 0, Observe(QUIET, ws[0].t, cond(ws[0])))
  {
    if cond(ws[0]) {
      assert HeldLast(ws, cond, 0, 0);
    }
  }

  lemma KnowsNext(ws: seq<Win>, cond: Win -> bool, i: int, d: Detector)
    requires 0 < i < |ws| && WindowsInOrder(ws) && Knows(ws, cond, i - 1, d)
    ensures Knows(ws, cond, i, Observe(d, ws[i].t, cond(ws[i])))
  {
    var before := i - 1;
    if cond(ws[i]) {
      assert HeldLast(ws, cond, i, i);
    } else {
      forall j | HeldLast(ws, cond, j, i) ensures HeldLast(ws, cond, j, before) {
      }
      if d.firing {
        var j :| HeldLast(ws, cond, j, before) && d.calm == if j == before then None else Some(ws[j + 1].t);
        assert HeldLast(ws, cond, j, i);
        forall k | HeldLast(ws, cond, k, i) ensures k == j {
          HeldOnce(ws, cond, j, k, i);
        }
      } else {
        forall k | HeldLast(ws, cond, k, i) ensures ws[i].t - ws[k + 1].t >= 300.0 {
          assert HeldLast(ws, cond, k, before) && !On(ws, cond, before);
          assert ws[before].t <= ws[i].t;
        }
      }
    }
  }

  lemma {:induction false} KnowsAll(ws: seq<Win>, cond: Win -> bool, i: nat)
    requires i < |ws| && WindowsInOrder(ws)
    ensures Knows(ws, cond, i, After(ws, cond, i + 1))
  {
    hide Knows, After, Observe;
    AfterNext(ws, cond, i);
    if i == 0 {
      AfterNone(ws, cond);
      KnowsFirst(ws, cond);
    } else {
      KnowsAll(ws, cond, i - 1);
      KnowsNext(ws, cond, i, After(ws, cond, i));
    }
  }

  lemma AfterNone(ws: seq<Win>, cond: Win -> bool)
    ensures After(ws, cond, 0) == QUIET
  {
  }

  /** Windows `lo` to `hi`, without `hi`: it fires behind each of them, and not behind those next to them. */
  datatype Stretch = Stretch(lo: nat, hi: nat)

  ghost predicate Fired(ws: seq<Win>, cond: Win -> bool, n: nat, s: Stretch)
    requires n <= |ws|
  {
    && s.lo < s.hi <= n && (forall l :: s.lo <= l < s.hi ==> On(ws, cond, l))
    && (s.lo > 0 ==> !On(ws, cond, s.lo - 1)) && (s.hi < n ==> !On(ws, cond, s.hi))
  }

  /** All the stretches of the first `n` windows, in order. */
  ghost predicate AllFired(ws: seq<Win>, cond: Win -> bool, n: nat, ss: seq<Stretch>)
    requires n <= |ws|
  {
    && (forall i :: 0 <= i < |ss| ==> Fired(ws, cond, n, ss[i]))
    && (forall i, j :: 0 <= i < j < |ss| ==> ss[i].hi < ss[j].lo)
    && (forall l :: 0 <= l < n && On(ws, cond, l) ==> exists i :: 0 <= i < |ss| && ss[i].lo <= l < ss[i].hi)
  }

  /** It begins with its first window, and ends with the first behind it, if there is one. */
  function Recording(ws: seq<Win>, n: nat, s: Stretch): Episode
    requires s.lo < s.hi <= n <= |ws|
  {
    Episode(ws[s.lo].t, if s.hi == n then None else Some(ws[s.hi].t))
  }

  ghost predicate Records(ws: seq<Win>, cond: Win -> bool, n: nat, out: seq<Episode>, ss: seq<Stretch>)
    requires n <= |ws|
  {
    && AllFired(ws, cond, n, ss) && |out| == |ss|
    && forall i :: 0 <= i < |ss| ==> out[i] == Recording(ws, n, ss[i])
  }

  lemma FiresBehind(ws: seq<Win>, cond: Win -> bool, n: nat)
    requires n <= |ws| && WindowsInOrder(ws)
    ensures After(ws, cond, n).firing <==> n > 0 && On(ws, cond, n - 1)
  {
    if n > 0 {
      KnowsAll(ws, cond, n - 1);
    }
  }

  /** What is left of the stretches once window `n` is there too: the last one grows, or a new one begins. */
  function Grown(ss: seq<Stretch>, n: nat, was: bool, now: bool): seq<Stretch> {
    if !now then ss
    else if was && ss != [] then ss[..|ss| - 1] + [Stretch(ss[|ss| - 1].lo, n + 1)]
    else ss + [Stretch(n, n + 1)]
  }

  /** Only the last stretch can reach up to the present, and does when it fires. */
  lemma OnlyLastIsOpen(ws: seq<Win>, cond: Win -> bool, n: nat, ss: seq<Stretch>)
    requires n <= |ws| && AllFired(ws, cond, n, ss)
    ensures n > 0 && On(ws, cond, n - 1) <==> ss != [] && ss[|ss| - 1].hi == n
    ensures forall i :: 0 <= i < |ss| - 1 ==> ss[i].hi < n
    ensures forall i :: 0 <= i < |ss| ==> ss[i].lo < ss[i].hi <= n
  {
    hide On;
    forall i | 0 <= i < |ss| - 1 ensures ss[i].hi < n {
      assert ss[i].hi < ss[i + 1].lo;
    }
    if n > 0 && On(ws, cond, n - 1) {
      var i :| 0 <= i < |ss| && ss[i].lo <= n - 1 < ss[i].hi;
    }
  }

  lemma OffNext(ws: seq<Win>, cond: Win -> bool, n: nat, ss: seq<Stretch>)
    requires n < |ws| && AllFired(ws, cond, n, ss) && !On(ws, cond, n)
    ensures AllFired(ws, cond, n + 1, ss)
  {
    hide On;
  }

  lemma BeginsNext(ws: seq<Win>, cond: Win -> bool, n: nat, ss: seq<Stretch>)
    requires n < |ws| && AllFired(ws, cond, n, ss) && On(ws, cond, n) && (n > 0 ==> !On(ws, cond, n - 1))
    ensures AllFired(ws, cond, n + 1, ss + [Stretch(n, n + 1)])
  {
    hide On;
    OnlyLastIsOpen(ws, cond, n, ss);
    Covering(ws, cond, n, ss, ss + [Stretch(n, n + 1)]);
  }

  lemma GrowsNext(ws: seq<Win>, cond: Win -> bool, n: nat, ss: seq<Stretch>)
    requires 0 < n < |ws| && AllFired(ws, cond, n, ss) && On(ws, cond, n) && On(ws, cond, n - 1)
    ensures ss != []
    ensures AllFired(ws, cond, n + 1, ss[..|ss| - 1] + [Stretch(ss[|ss| - 1].lo, n + 1)])
  {
    hide On;
    OnlyLastIsOpen(ws, cond, n, ss);
    Covering(ws, cond, n, ss, ss[..|ss| - 1] + [Stretch(ss[|ss| - 1].lo, n + 1)]);
  }

  lemma Covering(ws: seq<Win>, cond: Win -> bool, n: nat, ss: seq<Stretch>, ts: seq<Stretch>)
    requires n < |ws| && AllFired(ws, cond, n, ss) && |ss| <= |ts| && ts != [] && ts[|ts| - 1].lo <= n < ts[|ts| - 1].hi
    requires forall i :: 0 <= i < |ss| ==> ts[i].lo == ss[i].lo && ss[i].hi <= ts[i].hi
    ensures forall l :: 0 <= l < n + 1 && On(ws, cond, l) ==> exists i :: 0 <= i < |ts| && ts[i].lo <= l < ts[i].hi
  {
    hide On;
    forall l | 0 <= l < n + 1 && On(ws, cond, l) ensures exists i :: 0 <= i < |ts| && ts[i].lo <= l < ts[i].hi {
      if l == n {
        assert ts[|ts| - 1].lo <= l < ts[|ts| - 1].hi;
      } else {
        var i :| 0 <= i < |ss| && ss[i].lo <= l < ss[i].hi;
        assert ts[i].lo <= l < ts[i].hi;
      }
    }
  }

  lemma FiredNext(ws: seq<Win>, cond: Win -> bool, n: nat, ss: seq<Stretch>)
    requires n < |ws| && AllFired(ws, cond, n, ss)
    ensures AllFired(ws, cond, n + 1, Grown(ss, n, n > 0 && On(ws, cond, n - 1), On(ws, cond, n)))
  {
    hide On, AllFired;
    if !On(ws, cond, n) {
      OffNext(ws, cond, n, ss);
    } else if n > 0 && On(ws, cond, n - 1) {
      GrowsNext(ws, cond, n, ss);
    } else {
      BeginsNext(ws, cond, n, ss);
    }
  }

  lemma RecordsNext(ws: seq<Win>, cond: Win -> bool, n: nat, d: Detector, ss: seq<Stretch>) returns (ts: seq<Stretch>)
    requires n < |ws| && Records(ws, cond, n, Recorded(d), ss)
    requires d.firing <==> n > 0 && On(ws, cond, n - 1)
    requires Observe(d, ws[n].t, cond(ws[n])).firing <==> On(ws, cond, n)
    ensures Records(ws, cond, n + 1, Recorded(Observe(d, ws[n].t, cond(ws[n]))), ts)
  {
    hide On, AllFired;
    ts := Grown(ss, n, n > 0 && On(ws, cond, n - 1), On(ws, cond, n));
    FiredNext(ws, cond, n, ss);
    OnlyLastIsOpen(ws, cond, n, ss);
    OnlyLastIsOpen(ws, cond, n + 1, ts);
    RecordedNext(ws, n, d, ws[n].t, cond(ws[n]), ss);
  }

  /** What the detector records grows as the stretches do. */
  lemma RecordedNext(ws: seq<Win>, n: nat, d: Detector, t: Time, holds: bool, ss: seq<Stretch>)
    requires n < |ws| && t == ws[n].t && forall i :: 0 <= i < |ss| ==> ss[i].lo < ss[i].hi <= n
    requires forall i :: 0 <= i < |ss| - 1 ==> ss[i].hi < n
    requires |Recorded(d)| == |ss| && forall i :: 0 <= i < |ss| ==> Recorded(d)[i] == Recording(ws, n, ss[i])
    requires d.firing <==> ss != [] && ss[|ss| - 1].hi == n
    ensures var c := Observe(d, t, holds); var ts := Grown(ss, n, d.firing, c.firing);
      && |Recorded(c)| == |ts|
      && forall i :: 0 <= i < |ts| ==> ts[i].lo < ts[i].hi <= n + 1 && Recorded(c)[i] == Recording(ws, n + 1, ts[i])
  {
    var c := Observe(d, t, holds);
    if d.firing {
      var last := |ss| - 1;
      assert Recorded(d)[last] == Episode(d.since, None);
      assert forall i :: 0 <= i < last ==> Recorded(d)[i] == d.out[i];
    }
  }

  lemma {:induction false} RecordsUpTo(ws: seq<Win>, cond: Win -> bool, n: nat) returns (ss: seq<Stretch>)
    requires n <= |ws| && WindowsInOrder(ws)
    ensures Records(ws, cond, n, Recorded(After(ws, cond, n)), ss)
  {
    hide On, After, Observe;
    if n == 0 {
      ss := [];
      AfterNone(ws, cond);
    } else {
      var before := RecordsUpTo(ws, cond, n - 1);
      AfterNext(ws, cond, n - 1);
      FiresBehind(ws, cond, n - 1);
      FiresBehind(ws, cond, n);
      ss := RecordsNext(ws, cond, n - 1, After(ws, cond, n - 1), before);
    }
  }

  /**
   * For windows in time order: what is recorded are exactly the stretches in which it fires, each as long as it goes,
   * in order. One closes at the first window that comes 300 seconds or more after the condition was first off.
   */
  lemma EpisodesAre(ws: seq<Win>, cond: Win -> bool) returns (ss: seq<Stretch>)
    requires WindowsInOrder(ws)
    ensures Records(ws, cond, |ws|, Recorded(Detect(QUIET, ws, cond)), ss)
  {
    assert ws[..|ws|] == ws;
    ss := RecordsUpTo(ws, cond, |ws|);
  }

  // ---- what a window holds

  /** The worst minute's mean: no minute's is above it, and it is some minute's, or 0 when there was no miss at all. */
  lemma {:induction false} WorstMeans(rows: seq<Row>)
    ensures forall r :: r in rows && r.misses > 0 ==> r.ms / (r.misses as real) <= Worst(rows)
    ensures if forall r :: r in rows ==> r.misses == 0 then Worst(rows) == 0.0
            else exists r :: r in rows && r.misses > 0 && Worst(rows) == r.ms / (r.misses as real)
    ensures Misses(rows) == 0 <==> forall r :: r in rows ==> r.misses == 0
  {
    if rows != [] {
      assert rows == [rows[0]] + rows[1..];
      WorstMeans(rows[1..]);
    }
  }

  /** A window for each minute but the first four, made of that minute and the four before it. */
  lemma {:induction false} WindowsAre(rows: seq<Row>, p50: seq<Option<real>>, i: nat)
    requires 4 <= i && |p50| == |rows|
    ensures |Windows(rows, p50, i)| == if |rows| > i then |rows| - i else 0
    ensures forall k :: 0 <= k < |rows| - i ==> Windows(rows, p50, i)[k] == WindowAt(rows, i + k, p50[i + k])
    decreases |rows| - i
  {
    hide WindowAt;
    if i < |rows| {
      WindowsAre(rows, p50, i + 1);
      var rest := Windows(rows, p50, i + 1);
      forall k | 0 <= k < |rows| - i
        ensures Windows(rows, p50, i)[k] == WindowAt(rows, i + k, p50[i + k])
      {
        if k > 0 {
          assert Windows(rows, p50, i)[k] == rest[k - 1];
        }
      }
    }
  }

  /** At the end of a minute: the misses and the time of five minutes, and the limit of the canary's median. */
  lemma WindowHolds(rows: seq<Row>, i: nat, p50: Option<real>)
    requires 4 <= i < |rows|
    ensures var w := WindowAt(rows, i, p50);
      && w.t == rows[i].t + 60.0
      && w.misses == rows[i - 4].misses + rows[i - 3].misses + rows[i - 2].misses + rows[i - 1].misses + rows[i].misses
      && w.msSum == rows[i - 4].ms + rows[i - 3].ms + rows[i - 2].ms + rows[i - 1].ms + rows[i].ms
      && w.worst == Worst(rows[i - 4..i + 1])
    ensures p50.None? ==> WindowAt(rows, i, p50).limit == 100.0
    ensures p50.Some? ==> WindowAt(rows, i, p50).limit == (if 3.0 * p50.value > 100.0 then 3.0 * p50.value else 100.0)
  {
    hide Worst;
    var a, b, c, d, e := rows[i - 4], rows[i - 3], rows[i - 2], rows[i - 1], rows[i];
    assert rows[i - 4..i + 1] == [a, b, c, d, e];
    SumsOf(a, b, c, d, e);
  }

  lemma SumsOf(a: Row, b: Row, c: Row, d: Row, e: Row)
    ensures Misses([a, b, c, d, e]) == a.misses + b.misses + c.misses + d.misses + e.misses
    ensures Ms([a, b, c, d, e]) == a.ms + b.ms + c.ms + d.ms + e.ms
  {
    assert [a, b, c, d, e][1..] == [b, c, d, e] && [b, c, d, e][1..] == [c, d, e] && [c, d, e][1..] == [d, e];
    assert [d, e][1..] == [e] && [e][1..] == [];
    assert Ms([e]) == e.ms && Misses([e]) == e.misses;
    assert Ms([d, e]) == d.ms + e.ms && Misses([d, e]) == d.misses + e.misses;
    assert Ms([c, d, e]) == c.ms + d.ms + e.ms && Misses([c, d, e]) == c.misses + d.misses + e.misses;
  }

  lemma DivGeq(y: real, n: real, x: real)
    requires n > 0.0
    ensures y / n >= x <==> y >= x * n
    ensures y / n > x <==> y > x * n
  {
    DivTimes(y, n);
    Scale(x, y / n, n);
    Scale(y / n, x, n);
  }

  /** What the proposals ask of a window, and what makes one slow, without a mean and at their numbers. */
  lemma ProposalsMean(w: Win, least: nat, total: real)
    requires w.limit > 0.0
    ensures Min(least, w) <==> 0 < w.misses && least <= w.misses && w.msSum >= w.limit * (w.misses as real)
    ensures Current(w) <==> w.misses >= 3 && w.msSum >= w.limit * (w.misses as real)
    ensures Sum(total, w) <==> w.misses >= 3 && w.msSum >= w.limit * (w.misses as real) && w.msSum >= total
    ensures Trimmed(w) <==> w.misses >= 3 && w.msSum - w.worst >= w.limit * ((w.misses - 1) as real)
    ensures Slow(w) <==> w.misses >= 10 && w.msSum > 100.0 * (w.misses as real)
  {
    var n := w.misses as real;
    if w.misses > 0 {
      DivGeq(w.msSum, n, w.limit);
      DivGeq(w.msSum, n, 100.0);
    }
    if w.misses > 1 {
      var rest := if w.msSum - w.worst > 0.0 then w.msSum - w.worst else 0.0;
      DivGeq(rest, (w.misses - 1) as real, w.limit);
      assert w.limit * ((w.misses - 1) as real) > 0.0;
    }
  }
}
