/**
 * scripts/connect-fail-replay.py: a failed target is remembered for `secs` seconds after the failure ends, and
 * requests arriving in `(f, f + secs]` are refused. Also the sweep that tells whether spans cover an interval.
 */
module ConnectFail {
  import opened Names

  // ---- covered_by

  datatype Span = Span(lo: Time, hi: Time)

  predicate SpanLeq(p: Span, q: Span) {
    p.lo < q.lo || (p.lo == q.lo && p.hi <= q.hi)
  }

  ghost predicate SortedSpans(s: seq<Span>) {
    forall i, j :: 0 <= i < j < |s| ==> SpanLeq(s[i], s[j])
  }

  function Insert(s: seq<Span>, p: Span): (r: seq<Span>)
    ensures |r| == |s| + 1 && forall q :: q in r <==> q in s || q == p
  {
    if s == [] || SpanLeq(p, s[0]) then [p] + s else [s[0]] + Insert(s[1..], p)
  }

  lemma {:induction false} InsertSorted(s: seq<Span>, p: Span)
    requires SortedSpans(s)
    ensures SortedSpans(Insert(s, p))
  {
    if s != [] && !SpanLeq(p, s[0]) {
      var rest := Insert(s[1..], p);
      InsertSorted(s[1..], p);
      assert forall q :: q in rest ==> SpanLeq(s[0], q);
      assert forall i :: 0 <= i < |rest| ==> rest[i] in rest;
    }
  }

  /** Python's `sorted` on pairs. */
  function Sort(s: seq<Span>): (r: seq<Span>)
    ensures SortedSpans(r) && |r| == |s| && forall q :: q in r <==> q in s
  {
    if s == [] then []
    else
      assert s == [s[0]] + s[1..];
      InsertSorted(Sort(s[1..]), s[0]);
      Insert(Sort(s[1..]), s[0])
  }

  /** `x` is in one of the spans, closed on the left and open on the right. */
  ghost predicate InSome(cov: seq<Span>, x: Time) {
    exists s :: s in cov && s.lo <= x < s.hi
  }

  /** `x` is in one of the spans, open on the left and closed on the right. */
  ghost predicate InSomeFromAbove(cov: seq<Span>, x: Time) {
    exists s :: s in cov && s.lo < x <= s.hi
  }

  /** A point of `(t, b]` that no later span starts before. */
  ghost function JustAbove(cov: seq<Span>, t: Time, b: Time): (x: Time)
    requires t < b
    ensures t < x <= b
    ensures forall s :: s in cov && t < s.lo ==> x <= s.lo
  {
    if cov == [] then b
    else
      var x := JustAbove(cov[1..], t, b);
      assert cov == [cov[0]] + cov[1..];
      if t < cov[0].lo < x then cov[0].lo else x
  }

  /**
   * `covered_by`: one pass over the sorted spans. It says true exactly when every point of `[a, b)` is in a span
   * `[lo, hi)`; equally, exactly when every point of `(a, b]` is in a span `(lo, hi]`.
   */
  method CoveredBy(a: Time, b: Time, cov: seq<Span>) returns (r: bool)
    ensures r <==> forall x :: a <= x < b ==> InSome(cov, x)
    ensures r <==> forall x :: a < x <= b ==> InSomeFromAbove(cov, x)
  {
    var sorted := Sort(cov);
    var t := a;
    for i := 0 to |sorted|
      invariant a <= t
      invariant forall x :: a <= x < t ==> InSome(cov, x)
      invariant forall x :: a < x <= t ==> InSomeFromAbove(cov, x)
      invariant forall j :: 0 <= j < i ==> sorted[j].hi <= t || t < sorted[j].lo
      invariant i > 0 ==> t < b
    {
      var s := sorted[i];
      assert s in sorted;
      assert s in cov;
      if s.lo <= t < s.hi {
        forall x | t <= x < s.hi ensures InSome(cov, x) {
          assert s in cov && s.lo <= x < s.hi;
        }
        forall x | t < x <= s.hi ensures InSomeFromAbove(cov, x) {
          assert s in cov && s.lo < x <= s.hi;
        }
        assert forall j :: 0 <= j < i ==> SpanLeq(sorted[j], s);
        t := s.hi;
      }
      if t >= b {
        return true;
      }
    }
    r := t >= b;
    if !r {
      Uncovered(sorted, cov, t, b);
      assert a <= t < b && !InSome(cov, t);
      var x := JustAbove(cov, t, b);
      assert a < x <= b && !InSomeFromAbove(cov, x);
    }
  }

  lemma Uncovered(sorted: seq<Span>, cov: seq<Span>, t: Time, b: Time)
    requires (forall s :: s in cov <==> s in sorted) && t < b
    requires forall j :: 0 <= j < |sorted| ==> sorted[j].hi <= t || t < sorted[j].lo
    ensures !InSome(cov, t) && !InSomeFromAbove(cov, JustAbove(cov, t, b))
  {
    forall s | s in cov ensures s.hi <= t || t < s.lo {
      var j :| 0 <= j < |sorted| && sorted[j] == s;
    }
  }

  // ---- replay

  /** A failed attempt: when it was over, and how long it made the request wait. */
  datatype Failure = Failure(done: Time, wait: Time) {
    function Arrived(): Time {
      done - wait
    }
  }

  predicate Refuses(mem: Option<Time>, at: Time, secs: Time) {
    mem.Some? && mem.value < at <= mem.value + secs
  }

  function After(mem: Option<Time>, done: Time): Option<Time> {
    Some(if mem.Some? && mem.value > done then mem.value else done)
  }

  /** Which failures the rule refuses, when it sees the failures alone. */
  function Refused(mem: Option<Time>, fails: seq<Failure>, secs: Time): (r: seq<bool>)
    ensures |r| == |fails|
    decreases |fails|
  {
    if fails == [] then []
    else if Refuses(mem, fails[0].Arrived(), secs) then [true] + Refused(mem, fails[1..], secs)
    else [false] + Refused(After(mem, fails[0].done), fails[1..], secs)
  }

  /** The failures of a list whose flag is `flag`, in order. */
  function Chosen(fails: seq<Failure>, flags: seq<bool>, flag: bool): seq<Failure>
    requires |flags| == |fails|
  {
    if fails == [] then []
    else (if flags[0] == flag then [fails[0]] else []) + Chosen(fails[1..], flags[1..], flag)
  }

  /** The failures refused, and the windows that the others open. */
  function Rejected(mem: Option<Time>, fails: seq<Failure>, secs: Time): seq<Failure>
    decreases |fails|
  {
    if fails == [] then []
    else if Refuses(mem, fails[0].Arrived(), secs) then [fails[0]] + Rejected(mem, fails[1..], secs)
    else Rejected(After(mem, fails[0].done), fails[1..], secs)
  }

  function Opened(mem: Option<Time>, fails: seq<Failure>, secs: Time): seq<Span>
    decreases |fails|
  {
    if fails == [] then []
    else if Refuses(mem, fails[0].Arrived(), secs) then Opened(mem, fails[1..], secs)
    else [Span(fails[0].done, fails[0].done + secs)] + Opened(After(mem, fails[0].done), fails[1..], secs)
  }

  lemma {:induction false} RejectedAreRefused(mem: Option<Time>, fails: seq<Failure>, secs: Time)
    ensures Rejected(mem, fails, secs) == Chosen(fails, Refused(mem, fails, secs), true)
    ensures |Opened(mem, fails, secs)| == |Chosen(fails, Refused(mem, fails, secs), false)|
    decreases |fails|
  {
    if fails != [] {
      var flags := Refused(mem, fails, secs);
      var mem' := if flags[0] then mem else After(mem, fails[0].done);
      RejectedAreRefused(mem', fails[1..], secs);
      assert flags[1..] == Refused(mem', fails[1..], secs);
    }
  }

  /** The failures chosen from two lists, one behind the other, are those chosen from each. */
  lemma {:induction false} ChosenAppend(
    fails: seq<Failure>, flags: seq<bool>, more: seq<Failure>, moreFlags: seq<bool>, flag: bool)
    requires |flags| == |fails| && |moreFlags| == |more|
    ensures Chosen(fails + more, flags + moreFlags, flag) ==
            Chosen(fails, flags, flag) + Chosen(more, moreFlags, flag)
  {
    if fails == [] {
      assert fails + more == more && flags + moreFlags == moreFlags;
    } else {
      assert (fails + more)[1..] == fails[1..] + more && (flags + moreFlags)[1..] == flags[1..] + moreFlags;
      ChosenAppend(fails[1..], flags[1..], more, moreFlags, flag);
      var one := if flags[0] == flag then [fails[0]] else [];
      assert Chosen(fails + more, flags + moreFlags, flag) ==
             one + Chosen(fails[1..] + more, flags[1..] + moreFlags, flag);
    }
  }

  lemma ChosenOne(f: Failure, chosen: bool, flag: bool)
    ensures Chosen([f], [chosen], flag) == if chosen == flag then [f] else []
  {
    assert [f][1..] == [] && [chosen][1..] == [];
  }

  /** The last end of a failure among the first `i` that are let through and the memory is `f`. */
  ghost predicate Latest(mem: Option<Time>, fails: seq<Failure>, flags: seq<bool>, i: nat, f: Time)
    requires |flags| == |fails| && i <= |fails|
  {
    && (mem == Some(f) || exists j :: 0 <= j < i && !flags[j] && fails[j].done == f)
    && (mem.Some? ==> mem.value <= f)
    && forall j :: 0 <= j < i && !flags[j] ==> fails[j].done <= f
  }

  lemma LatestNext(mem: Option<Time>, fails: seq<Failure>, flags: seq<bool>, i: nat, f: Time)
    requires |flags| == |fails| && 0 < i <= |fails|
    ensures var mem' := if flags[0] then mem else After(mem, fails[0].done);
      Latest(mem, fails, flags, i, f) <==> Latest(mem', fails[1..], flags[1..], i - 1, f)
  {
    var mem' := if flags[0] then mem else After(mem, fails[0].done);
    if Latest(mem, fails, flags, i, f) && mem' != Some(f) {
      var j :| 0 <= j < i && !flags[j] && fails[j].done == f;
      assert fails[1..][j - 1].done == f && !flags[1..][j - 1];
    }
    if Latest(mem', fails[1..], flags[1..], i - 1, f) {
      forall j | 0 <= j < i && !flags[j] ensures fails[j].done <= f {
        if j > 0 {
          assert !flags[1..][j - 1] && fails[1..][j - 1].done <= f;
        }
      }
      if mem' != Some(f) {
        var j :| 0 <= j < i - 1 && !flags[1..][j] && fails[1..][j].done == f;
        assert !flags[j + 1] && fails[j + 1].done == f;
      } else if mem != Some(f) {
        assert !flags[0] && fails[0].done == f;
      }
    }
  }

  /** A failure comes within `secs` seconds of the last end `f`. */
  ghost predicate Soon(
    mem: Option<Time>, fails: seq<Failure>, flags: seq<bool>, i: nat, f: Time, secs: Time)
    requires |flags| == |fails| && i < |fails|
  {
    Latest(mem, fails, flags, i, f) && f < fails[i].done - fails[i].wait <= f + secs
  }

  lemma {:induction false} RefusedFrom(mem: Option<Time>, fails: seq<Failure>, secs: Time, i: nat)
    requires i < |fails|
    ensures var flags := Refused(mem, fails, secs); flags[i] <==> exists f :: Soon(mem, fails, flags, i, f, secs)
    decreases i
  {
    hide Latest;
    var flags := Refused(mem, fails, secs);
    var mem' := if flags[0] then mem else After(mem, fails[0].done);
    assert flags[1..] == Refused(mem', fails[1..], secs);
    if i == 0 {
      LatestFirst(mem, fails, flags);
      if flags[0] {
        assert Soon(mem, fails, flags, 0, mem.value, secs);
      }
    } else {
      RefusedFrom(mem', fails[1..], secs, i - 1);
      assert fails[1..][i - 1] == fails[i];
      if f :| Soon(mem, fails, flags, i, f, secs) {
        LatestNext(mem, fails, flags, i, f);
        assert Soon(mem', fails[1..], flags[1..], i - 1, f, secs);
      }
      var later, k := fails[1..], i - 1;
      if f :| Soon(mem', later, flags[1..], k, f, secs) {
        LatestNext(mem, fails, flags, i, f);
        assert Soon(mem, fails, flags, i, f, secs);
      }
    }
  }

  lemma LatestFirst(mem: Option<Time>, fails: seq<Failure>, flags: seq<bool>)
    requires |flags| == |fails|
    ensures forall f :: Latest(mem, fails, flags, 0, f) <==> mem == Some(f)
  {
  }

  /** Of the failures let through among the first `i`, `j` is one, and none ended later. */
  ghost predicate EndedLast(fails: seq<Failure>, flags: seq<bool>, i: nat, j: int)
    requires |flags| == |fails| && i <= |fails|
  {
    0 <= j < i && !flags[j] && forall l :: 0 <= l < i && !flags[l] ==> fails[l].done <= fails[j].done
  }

  /**
   * For any failures in any order: one is refused exactly when, of those let through before it, the one that ended
   * last ended before it came, and at most `secs` seconds before.
   */
  lemma RefusedMeans(fails: seq<Failure>, secs: Time, i: nat)
    requires i < |fails|
    ensures var flags := Refused(None, fails, secs);
      flags[i] <==> exists j :: EndedLast(fails, flags, i, j)
                                && fails[j].done < fails[i].done - fails[i].wait <= fails[j].done + secs
  {
    var flags := Refused(None, fails, secs);
    RefusedFrom(None, fails, secs, i);
    if flags[i] {
      var f :| Soon(None, fails, flags, i, f, secs);
      var j :| 0 <= j < i && !flags[j] && fails[j].done == f;
      assert EndedLast(fails, flags, i, j);
    }
    if j :| EndedLast(fails, flags, i, j) && fails[j].done < fails[i].done - fails[i].wait <= fails[j].done + secs {
      assert Soon(None, fails, flags, i, fails[j].done, secs);
    }
  }

  /** Each failure let through opens a window of `secs` seconds at its end. */
  lemma {:induction false} WindowsOpenAtEnds(mem: Option<Time>, fails: seq<Failure>, secs: Time)
    ensures var let := Chosen(fails, Refused(mem, fails, secs), false); var windows := Opened(mem, fails, secs);
      |windows| == |let| && forall i :: 0 <= i < |let| ==> windows[i] == Span(let[i].done, let[i].done + secs)
    decreases |fails|
  {
    if fails != [] {
      var flags := Refused(mem, fails, secs);
      var mem' := if flags[0] then mem else After(mem, fails[0].done);
      assert flags[1..] == Refused(mem', fails[1..], secs);
      var let := Chosen(fails[1..], flags[1..], false);
      assert Chosen(fails, flags, false) == if flags[0] then let else [fails[0]] + let;
      WindowsOpenAtEnds(mem', fails[1..], secs);
      hide Chosen, Refused;
    }
  }

  /** What one turn of the loop adds. */
  lemma ReplayNext(mem: Option<Time>, fails: seq<Failure>, i: nat, secs: Time)
    requires i < |fails|
    ensures var f := fails[i];
      if Refuses(mem, f.Arrived(), secs) then
        && Rejected(mem, fails[i..], secs) == [f] + Rejected(mem, fails[i + 1..], secs)
        && Opened(mem, fails[i..], secs) == Opened(mem, fails[i + 1..], secs)
      else
        && Rejected(mem, fails[i..], secs) == Rejected(After(mem, f.done), fails[i + 1..], secs)
        && Opened(mem, fails[i..], secs) ==
           [Span(f.done, f.done + secs)] + Opened(After(mem, f.done), fails[i + 1..], secs)
  {
    assert fails[i..][1..] == fails[i + 1..];
  }

  /** `replay`: the loop, with the refused failures and the windows of the others. Each failure goes to one of them. */
  method Replay(fails: seq<Failure>, secs: Time) returns (rejected: seq<Failure>, windows: seq<Span>)
    ensures rejected == Rejected(None, fails, secs) && windows == Opened(None, fails, secs)
    ensures |rejected| + |windows| == |fails|
  {
    hide Rejected, Opened;
    rejected, windows := [], [];
    var mem: Option<Time> := None;
    for i := 0 to |fails|
      invariant |rejected| + |windows| == i
      invariant rejected + Rejected(mem, fails[i..], secs) == Rejected(None, fails, secs)
      invariant windows + Opened(mem, fails[i..], secs) == Opened(None, fails, secs)
    {
      var f := fails[i];
      ReplayNext(mem, fails, i, secs);
      if Refuses(mem, f.Arrived(), secs) {
        rejected := rejected + [f];
        continue;
      }
      mem := After(mem, f.done);
      windows := windows + [Span(f.done, f.done + secs)];
    }
    NoneLeft(mem, secs);
    assert fails[|fails|..] == [];
  }

  lemma NoneLeft(mem: Option<Time>, secs: Time)
    ensures Rejected(mem, [], secs) == [] && Opened(mem, [], secs) == []
  {
  }

  // ---- the whole rule, with successes

  /** A request to the target: when it came and was over, and whether it would succeed. */
  datatype Request = Request(arrived: Time, done: Time, ok: bool)

  /** The rule as it would run: a success that is let through forgets the failure. */
  function Full(mem: Option<Time>, reqs: seq<Request>, secs: Time): (r: seq<bool>)
    ensures |r| == |reqs|
    decreases |reqs|
  {
    if reqs == [] then []
    else if Refuses(mem, reqs[0].arrived, secs) then [true] + Full(mem, reqs[1..], secs)
    else if reqs[0].ok then [false] + Full(None, reqs[1..], secs)
    else [false] + Full(After(mem, reqs[0].done), reqs[1..], secs)
  }

  function Failures(reqs: seq<Request>): seq<Failure> {
    if reqs == [] then []
    else (if reqs[0].ok then [] else [Failure(reqs[0].done, reqs[0].done - reqs[0].arrived)]) + Failures(reqs[1..])
  }

  /** The flags of the requests that fail. */
  function OfFailures(reqs: seq<Request>, flags: seq<bool>): seq<bool>
    requires |flags| == |reqs|
  {
    if reqs == [] then []
    else (if reqs[0].ok then [] else [flags[0]]) + OfFailures(reqs[1..], flags[1..])
  }

  /** One at a time: each request comes after the one before is over. */
  ghost predicate Serial(reqs: seq<Request>, prev: Time) {
    reqs == [] || (prev < reqs[0].arrived <= reqs[0].done && Serial(reqs[1..], reqs[0].done))
  }

  /** The two memories can differ only in a failure that is out of date. */
  ghost predicate SameForLater(full: Option<Time>, alone: Option<Time>, prev: Time, secs: Time) {
    && (alone.Some? ==> alone.value <= prev)
    && (full == alone || (full == None && alone.Some? && alone.value + secs < prev))
  }

  lemma {:induction false} RefusesAlike(
    full: Option<Time>, alone: Option<Time>, reqs: seq<Request>, prev: Time, secs: Time)
    requires secs > 0.0 && Serial(reqs, prev) && SameForLater(full, alone, prev, secs)
    ensures OfFailures(reqs, Full(full, reqs, secs)) == Refused(alone, Failures(reqs), secs)
    decreases |reqs|
  {
    if reqs != [] {
      var r := reqs[0];
      var rest := reqs[1..];
      var fails := Failures(rest);
      var flags := Full(full, reqs, secs);
      assert Refuses(full, r.arrived, secs) == Refuses(alone, r.arrived, secs);
      var full' := if Refuses(full, r.arrived, secs) then full else if r.ok then None else After(full, r.done);
      var alone' := if Refuses(full, r.arrived, secs) || r.ok then alone else After(alone, r.done);
      assert flags[1..] == Full(full', rest, secs);
      RefusesAlike(full', alone', rest, r.done, secs);
      if r.ok {
        assert [] + fails == fails;
      } else {
        assert ([Failure(r.done, r.done - r.arrived)] + fails)[1..] == fails;
      }
    }
  }

  /**
   * Where the successes lie does not matter: for requests one at a time, the rule with successes refuses exactly the
   * failures that `replay` refuses on the failures alone.
   */
  lemma SuccessesDoNotMatter(reqs: seq<Request>, prev: Time, secs: Time)
    requires secs > 0.0 && Serial(reqs, prev)
    ensures OfFailures(reqs, Full(None, reqs, secs)) == Refused(None, Failures(reqs), secs)
  {
    RefusesAlike(None, None, reqs, prev, secs);
  }

  /** A success that was under way before the failure ended, or comes the moment it ends, does matter. */
  lemma SerialityIsNeeded()
    ensures var early := [Request(0.0, 10.0, false), Request(8.0, 8.0, true), Request(20.0, 21.0, false)];
      OfFailures(early, Full(None, early, 30.0)) != Refused(None, Failures(early), 30.0)
    ensures var same := [Request(0.0, 10.0, false), Request(10.0, 10.0, true), Request(20.0, 21.0, false)];
      OfFailures(same, Full(None, same, 30.0)) != Refused(None, Failures(same), 30.0)
  {
    ForgottenTooEarly(8.0);
    ForgottenTooEarly(10.0);
  }

  lemma ForgottenTooEarly(t: Time)
    requires t <= 10.0
    ensures var reqs := [Request(0.0, 10.0, false), Request(t, t, true), Request(20.0, 21.0, false)];
      OfFailures(reqs, Full(None, reqs, 30.0)) == [false, false] && Refused(None, Failures(reqs), 30.0) == [false, true]
  {
    var a, b, c := Request(0.0, 10.0, false), Request(t, t, true), Request(20.0, 21.0, false);
    var reqs := [a, b, c];
    assert reqs[1..] == [b, c] && [b, c][1..] == [c] && [c][1..] == [];
    assert Full(None, [c], 30.0) == [false];
    assert Full(Some(10.0), [b, c], 30.0) == [false, false];
    assert Full(None, reqs, 30.0) == [false, false, false];
    assert [false, false, false][1..] == [false, false] && [false, false][1..] == [false] && [false][1..] == [];
    assert OfFailures([c], [false]) == [false];
    assert OfFailures([b, c], [false, false]) == [false];
    var x, z := Failure(10.0, 10.0), Failure(21.0, 1.0);
    assert Failures([c]) == [z];
    assert Failures([b, c]) == [z];
    assert Failures(reqs) == [x, z];
    assert [x, z][1..] == [z] && [z][1..] == [];
    assert Refused(Some(10.0), [z], 30.0) == [true];
  }

  /** Failures that come after `at`. */
  ghost predicate Later(fails: seq<Failure>, at: Time) {
    forall i :: 0 <= i < |fails| ==> fails[i].wait >= 0.0 && at < fails[i].Arrived()
  }

  /** Forgetting the failure that ended at `f` changes nothing for failures that come after `done`. */
  ghost predicate Harmless(f: Time, done: Time, secs: Time) {
    forall fails: seq<Failure> :: Later(fails, done) ==> Refused(None, fails, secs) == Refused(Some(f), fails, secs)
  }

  /**
   * Exactly when a success may be left out of the account: forgetting at its end the failure that ended at `f` changes
   * nothing for any failures to come if and only if the window was over by then. So it is for a success let through
   * that came after `f`, however long it took.
   */
  lemma ForgettingIsHarmlessIff(f: Time, arrived: Time, done: Time, secs: Time)
    requires secs > 0.0 && arrived <= done
    ensures Harmless(f, done, secs) <==> f + secs <= done
    ensures f < arrived && !Refuses(Some(f), arrived, secs) ==> Harmless(f, done, secs)
  {
    if f + secs <= done {
      forall fails: seq<Failure> | Later(fails, done)
        ensures Refused(None, fails, secs) == Refused(Some(f), fails, secs)
      {
        assert fails != [] ==> After(Some(f), fails[0].done) == After(None, fails[0].done);
      }
    } else {
      var next := [Failure(f + secs, (if done > f then f + secs - done else secs) / 2.0)];
      assert Later(next, done) && next[1..] == [];
      assert Refused(None, next, secs)[0] != Refused(Some(f), next, secs)[0];
    }
  }

  // ---- refused means inside a window

  /** When the failures that are let through end. */
  function Remembered(mem: Option<Time>, reqs: seq<Request>, secs: Time): seq<Time>
    decreases |reqs|
  {
    if reqs == [] then []
    else if Refuses(mem, reqs[0].arrived, secs) then Remembered(mem, reqs[1..], secs)
    else if reqs[0].ok then Remembered(None, reqs[1..], secs)
    else [reqs[0].done] + Remembered(After(mem, reqs[0].done), reqs[1..], secs)
  }

  /** The two memories refuse the same next request, and go on differing in nothing that matters. */
  lemma RefusesSame(full: Option<Time>, alone: Option<Time>, r: Request, prev: Time, secs: Time)
    requires secs > 0.0 && prev < r.arrived <= r.done && SameForLater(full, alone, prev, secs)
    ensures Refuses(full, r.arrived, secs) <==> Refuses(alone, r.arrived, secs)
    ensures SameForLater(full, alone, r.done, secs)
    ensures !Refuses(full, r.arrived, secs) ==> SameForLater(None, alone, r.done, secs)
    ensures SameForLater(After(full, r.done), After(alone, r.done), r.done, secs)
  {
  }

  /** What the first request does to the windows of the failures, as `alone` remembers them. */
  lemma OpenedFirst(alone: Option<Time>, reqs: seq<Request>, secs: Time)
    requires reqs != []
    ensures var r := reqs[0]; var fails := Failures(reqs[1..]);
      Opened(alone, Failures(reqs), secs) ==
      if r.ok || Refuses(alone, r.arrived, secs) then Opened(alone, fails, secs)
      else [Span(r.done, r.done + secs)] + Opened(After(alone, r.done), fails, secs)
  {
    var r := reqs[0];
    var fails := Failures(reqs[1..]);
    if r.ok {
      assert [] + fails == fails;
    } else {
      assert ([Failure(r.done, r.done - r.arrived)] + fails)[1..] == fails;
    }
  }

  lemma {:induction false} WindowsAlike(
    full: Option<Time>, alone: Option<Time>, reqs: seq<Request>, prev: Time, secs: Time, i: nat)
    requires secs > 0.0 && Serial(reqs, prev) && SameForLater(full, alone, prev, secs)
    ensures |Opened(alone, Failures(reqs), secs)| == |Remembered(full, reqs, secs)|
    ensures i < |Remembered(full, reqs, secs)| ==>
      var f := Remembered(full, reqs, secs)[i]; Opened(alone, Failures(reqs), secs)[i] == Span(f, f + secs)
    decreases |reqs|
  {
    hide SameForLater, Refuses, After;
    if reqs != [] {
      var r := reqs[0];
      OpenedFirst(alone, reqs, secs);
      RefusesSame(full, alone, r, prev, secs);
      hide Opened, Failures;
      if Refuses(full, r.arrived, secs) {
        WindowsAlike(full, alone, reqs[1..], r.done, secs, i);
      } else if r.ok {
        WindowsAlike(None, alone, reqs[1..], r.done, secs, i);
      } else {
        WindowsAlike(After(full, r.done), After(alone, r.done), reqs[1..], r.done, secs, if i == 0 then 0 else i - 1);
      }
    }
  }

  /** The windows of the whole rule are those `replay` returns on the failures alone. */
  lemma WindowsOfFailuresAlone(reqs: seq<Request>, prev: Time, secs: Time, i: nat)
    requires secs > 0.0 && Serial(reqs, prev)
    ensures var w := Remembered(None, reqs, secs); var spans := Opened(None, Failures(reqs), secs);
      |spans| == |w| && (i < |w| ==> spans[i] == Span(w[i], w[i] + secs))
  {
    WindowsAlike(None, None, reqs, prev, secs, i);
  }

  /** `inside`: `t` is in the window of some remembered failure. */
  ghost predicate Inside(t: Time, ends: seq<Time>, secs: Time) {
    exists f :: f in ends && f < t <= f + secs
  }

  /** What the windows of the past say of any later moment is what the memory says. */
  ghost predicate MemoryIs(past: seq<Time>, mem: Option<Time>, prev: Time, secs: Time) {
    && (forall f :: f in past ==> f <= prev)
    && (mem.Some? ==> mem.value <= prev)
    && (forall a: Time :: prev < a ==> (Inside(a, past, secs) <==> Refuses(mem, a, secs)))
  }

  lemma {:induction false} RememberedLater(mem: Option<Time>, reqs: seq<Request>, prev: Time, secs: Time)
    requires secs > 0.0 && Serial(reqs, prev)
    ensures forall f :: f in Remembered(mem, reqs, secs) ==> prev < f
    ensures reqs != [] ==> forall f :: f in Remembered(mem, reqs, secs) ==> reqs[0].arrived <= f
    decreases |reqs|
  {
    if reqs != [] {
      var mem' := if Refuses(mem, reqs[0].arrived, secs) then mem
                  else if reqs[0].ok then None else After(mem, reqs[0].done);
      RememberedLater(mem', reqs[1..], reqs[0].done, secs);
    }
  }

  lemma MemoryAfter(past: seq<Time>, mem: Option<Time>, r: Request, prev: Time, secs: Time)
    requires secs > 0.0 && prev < r.arrived <= r.done && MemoryIs(past, mem, prev, secs)
    ensures Refuses(mem, r.arrived, secs) ==> MemoryIs(past, mem, r.done, secs)
    ensures !Refuses(mem, r.arrived, secs) && r.ok ==> MemoryIs(past, None, r.done, secs)
    ensures !Refuses(mem, r.arrived, secs) && !r.ok ==>
              MemoryIs(past + [r.done], After(mem, r.done), r.done, secs)
  {
    if !Refuses(mem, r.arrived, secs) {
      forall a: Time | r.done < a ensures !Inside(a, past, secs) {
        if f :| f in past && f < a <= f + secs {
          assert Inside(r.arrived, past, secs);
        }
      }
      forall a: Time | r.done < a
        ensures Inside(a, past + [r.done], secs) <==> Refuses(Some(r.done), a, secs)
      {
        assert r.done in past + [r.done];
        assert forall f :: f in past + [r.done] ==> f in past || f == r.done;
        assert forall f :: f in past ==> !(f < a <= f + secs) by { assert !Inside(a, past, secs); }
      }
    }
  }

  lemma {:induction false} RefusedIffInsideFrom(
    past: seq<Time>, mem: Option<Time>, reqs: seq<Request>, prev: Time, secs: Time, i: nat)
    requires secs > 0.0 && Serial(reqs, prev) && MemoryIs(past, mem, prev, secs) && i < |reqs|
    ensures Full(mem, reqs, secs)[i] <==> Inside(reqs[i].arrived, past + Remembered(mem, reqs, secs), secs)
    decreases |reqs|
  {
    hide MemoryIs;
    var r := reqs[0];
    var rest := reqs[1..];
    var all := past + Remembered(mem, reqs, secs);
    MemoryAfter(past, mem, r, prev, secs);
    if i == 0 {
      RememberedLater(mem, reqs, prev, secs);
      assert Inside(r.arrived, past, secs) <==> Refuses(mem, r.arrived, secs) by {
        MemoryTells(past, mem, prev, secs, r.arrived);
      }
      InsideOfEarlier(r.arrived, past, Remembered(mem, reqs, secs), secs);
    } else if Refuses(mem, r.arrived, secs) {
      RefusedIffInsideFrom(past, mem, rest, r.done, secs, i - 1);
    } else if r.ok {
      RefusedIffInsideFrom(past, None, rest, r.done, secs, i - 1);
    } else {
      RefusedIffInsideFrom(past + [r.done], After(mem, r.done), rest, r.done, secs, i - 1);
      assert past + [r.done] + Remembered(After(mem, r.done), rest, secs) == all;
    }
  }

  lemma MemoryTells(past: seq<Time>, mem: Option<Time>, prev: Time, secs: Time, a: Time)
    requires MemoryIs(past, mem, prev, secs) && prev < a
    ensures Inside(a, past, secs) <==> Refuses(mem, a, secs)
  {
  }

  lemma InsideOfEarlier(t: Time, past: seq<Time>, later: seq<Time>, secs: Time)
    requires forall f :: f in later ==> t <= f
    ensures Inside(t, past + later, secs) <==> Inside(t, past, secs)
  {
    if f :| f in past + later && f < t <= f + secs {
      assert f in past;
    }
    if f :| f in past && f < t <= f + secs {
      assert f in past + later;
    }
  }

  /** For requests one at a time, a request is refused exactly when it comes inside some window. */
  lemma RefusedIffInside(reqs: seq<Request>, prev: Time, secs: Time, i: nat)
    requires secs > 0.0 && Serial(reqs, prev) && i < |reqs|
    ensures Full(None, reqs, secs)[i] <==> Inside(reqs[i].arrived, Remembered(None, reqs, secs), secs)
  {
    assert [] + Remembered(None, reqs, secs) == Remembered(None, reqs, secs);
    RefusedIffInsideFrom([], None, reqs, prev, secs, i);
  }

  /** Each time is more than `secs` after the one before, the first more than `secs` after `last`. */
  ghost predicate FarApart(w: seq<Time>, last: Time, secs: Time) {
    w == [] || (last + secs < w[0] && FarApart(w[1..], w[0], secs))
  }

  lemma {:induction false} WindowsApartFrom(mem: Option<Time>, reqs: seq<Request>, prev: Time, secs: Time, last: Time)
    requires secs > 0.0 && Serial(reqs, prev) && last <= prev && (mem == Some(last) || last + secs < prev)
    requires mem.Some? ==> mem.value == last
    ensures FarApart(Remembered(mem, reqs, secs), last, secs)
    decreases |reqs|
  {
    if reqs != [] {
      var r := reqs[0];
      if Refuses(mem, r.arrived, secs) {
        WindowsApartFrom(mem, reqs[1..], r.done, secs, last);
      } else if r.ok {
        WindowsApartFrom(None, reqs[1..], r.done, secs, last);
      } else {
        WindowsApartFrom(After(mem, r.done), reqs[1..], r.done, secs, r.done);
        var w := Remembered(After(mem, r.done), reqs[1..], secs);
        assert ([r.done] + w)[1..] == w;
      }
    }
  }

  lemma {:induction false} FarApartMeans(w: seq<Time>, last: Time, secs: Time, i: int, j: nat)
    requires secs > 0.0 && FarApart(w, last, secs) && -1 <= i < j < |w|
    ensures (if i == -1 then last else w[i]) + secs < w[j]
  {
    if i <= 0 && j > 0 {
      FarApartMeans(w[1..], w[0], secs, -1, j - 1);
    } else if i > 0 {
      FarApartMeans(w[1..], w[0], secs, i - 1, j - 1);
    }
  }

  /** The windows do not meet: each failure remembered ends more than `secs` after the one before. */
  lemma WindowsAreDisjoint(reqs: seq<Request>, prev: Time, secs: Time)
    requires secs > 0.0 && Serial(reqs, prev)
    ensures var w := Remembered(None, reqs, secs);
      forall i, j :: 0 <= i < j < |w| ==> w[i] + secs < w[j]
  {
    var w := Remembered(None, reqs, secs);
    WindowsApartFrom(None, reqs, prev, secs, prev - secs - 1.0);
    forall i, j | 0 <= i < j < |w| ensures w[i] + secs < w[j] {
      FarApartMeans(w, prev - secs - 1.0, secs, i, j);
    }
  }
}
