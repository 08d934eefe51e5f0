/** The function `replay` of scripts/dns-replay.py: a run-up that is not counted, then the measured window. */
module DnsReplay {
  import opened Names
  import opened OrderedDict
  import opened Heap
  import opened DnsModel
  import opened DnsRun
  import opened DnsTally
  import opened DnsTimerBound
  import opened NegativeCache
  import opened DnsNegative
  import opened DnsTable
  import opened DnsNoWarm
  import opened DnsOldAnswers
  import opened DnsServeStale

  /** What `replay` is given: arrivals before the window and in it, its bounds, and names that were there before. */
  datatype Window = Window(
    warmup: seq<Arrival>, inside: seq<Arrival>, c0: Time, taken: Time,
    seen: seq<Name>, primeWarm: bool, fails: set<Arrival>)

  ghost predicate InOrder(arr: seq<Arrival>) {
    forall i, j :: 0 <= i < j < |arr| ==> arr[i].at <= arr[j].at
  }

  /** Both lists are sorted, the first ends by `c0` and the second lies in `[c0, taken]`. */
  ghost predicate WellTimed(w: Window, start: Time) {
    && InOrder(w.warmup) && InOrder(w.inside)
    && (forall a :: a in w.warmup ==> start <= a.at <= w.c0)
    && (forall a :: a in w.inside ==> w.c0 <= a.at <= w.taken)
    && 0.0 <= start <= w.c0 <= w.taken
  }

  function Looks(arr: seq<Arrival>, fails: set<Arrival>): seq<Op> {
    seq(|arr|, i requires 0 <= i < |arr| => Look(arr[i].name, arr[i].at, arr[i] in fails))
  }

  function Seeds(names: seq<Name>, c0: Time, warm: bool): seq<Op> {
    seq(|names|, i requires 0 <= i < |names| => Seed(names[i], if warm then c0 else c0 - PRIME_BEFORE, warm))
  }

  function RunUp(w: Window): seq<Op> {
    Looks(w.warmup, {}) + ([Tick(w.c0)] + Seeds(w.seen, w.c0, w.primeWarm))
  }

  function Measured(w: Window): seq<Op> {
    Looks(w.inside, w.fails) + [Tick(w.taken)]
  }

  // ---- the operations of `replay`

  lemma {:induction false} LooksTimely(arr: seq<Arrival>, fails: set<Arrival>, clock: Time, hi: Time, counting: bool)
    requires InOrder(arr) && clock <= hi && forall a :: a in arr ==> clock <= a.at <= hi
    ensures Timely(Looks(arr, fails), clock, counting) && CountingAfter(Looks(arr, fails), counting) == counting
    ensures clock <= EndClock(Looks(arr, fails), clock) <= hi
    decreases |arr|
  {
    if arr != [] {
      assert arr[0] in arr;
      assert Looks(arr, fails)[1..] == Looks(arr[1..], fails);
      assert forall a :: a in arr[1..] ==> a in arr;
      assert forall i :: 0 <= i < |arr| - 1 ==> arr[1..][i] == arr[i + 1];
      LooksTimely(arr[1..], fails, arr[0].at, hi, counting);
    }
  }

  lemma {:induction false} SeedsTimely(names: seq<Name>, c0: Time, warm: bool)
    ensures Timely(Seeds(names, c0, warm), c0, false)
    ensures EndClock(Seeds(names, c0, warm), c0) == c0 && !CountingAfter(Seeds(names, c0, warm), false)
    decreases |names|
  {
    if names != [] {
      assert Seeds(names, c0, warm)[1..] == Seeds(names[1..], c0, warm);
      SeedsTimely(names[1..], c0, warm);
    }
  }

  lemma RunUpTimely(w: Window, start: Time)
    requires WellTimed(w, start)
    ensures Timely(RunUp(w), start, false) && EndClock(RunUp(w), start) == w.c0 && !CountingAfter(RunUp(w), false)
    ensures Timely(Measured(w), w.c0, true) && EndClock(Measured(w), w.c0) == w.taken
  {
    var looks := Looks(w.warmup, {});
    var seeds := Seeds(w.seen, w.c0, w.primeWarm);
    LooksTimely(w.warmup, {}, start, w.c0, false);
    SeedsTimely(w.seen, w.c0, w.primeWarm);
    var rest := [Tick(w.c0)] + seeds;
    assert rest[1..] == seeds;
    TimelyAppend(looks, rest, start, false);
    LooksTimely(w.inside, w.fails, w.c0, w.taken, true);
    TimelyAppend(Looks(w.inside, w.fails), [Tick(w.taken)], w.c0, true);
  }

  /** The table when counting begins. */
  ghost function AtC0(cfg: Config, w: Window, start: Time): (r: State)
    requires Ok(cfg) && WellTimed(w, start)
    ensures Inv(cfg, r, w.c0) && r.counting && r.warmT == Some(w.c0)
  {
    RunUpTimely(w, start);
    StartInv(cfg, start, false);
    BeginCounting(Run(cfg, Start(false), start, RunUp(w)), w.c0)
  }

  /** The table `replay` reports on. */
  ghost function Replayed(cfg: Config, w: Window, start: Time): (r: State)
    requires Ok(cfg) && WellTimed(w, start)
    ensures Inv(cfg, r, w.taken)
  {
    RunUpTimely(w, start);
    Run(cfg, AtC0(cfg, w, start), w.c0, Measured(w))
  }

  // ---- the run-up leaves the counters at zero

  /** Not counting, and nothing counted yet; no request has failed. */
  ghost predicate Uncounted(s: State) {
    !s.counting && s.warmSecs == 0.0 && s.negative == map[] && forall e :: e in s.log ==> !e.counted
  }

  lemma {:induction false} AdvanceUncounted(cfg: Config, s: State, now: Time)
    requires cfg.k > 0.0 && Linked(s) && Uncounted(s)
    ensures Uncounted(Advance(cfg, s, now))
    decreases TotalRounds(cfg.k, s.heap, now)
  {
    hide Push, Without;
    if s.heap != [] && s.heap[0].due <= now {
      PopDueDecreases(cfg, s, now);
      AdvanceUncounted(cfg, PopDue(cfg, s), now);
    }
  }

  lemma PromoteUncounted(cfg: Config, s: State, name: Name, now: Time)
    requires Linked(s) && Valid(s.queue) && name in s.table && cfg.maxWarm >= 1 && Uncounted(s)
    ensures Uncounted(Promote(cfg, s, name, now))
  {
    hide Push, Without, NoDup;
  }

  lemma AnsweredUncounted(cfg: Config, s: State, name: Name, now: Time)
    requires Linked(s) && Valid(s.queue) && cfg.maxWarm >= 1 && Uncounted(s)
    ensures Uncounted(Answered(cfg, s, name, now, false))
  {
    hide Push, Without, NoDup, Promote;
    if name in s.table {
      var s2 := Serve(cfg, Emit(s, Looked, name, now), name, now);
      assert Uncounted(s2);
      PromoteUncounted(cfg, s2, name, now);
    }
  }

  lemma StepUncounted(cfg: Config, s: State, clock: Time, op: Op)
    requires Ok(cfg) && Inv(cfg, s, clock) && Legal(op, clock, false) && Uncounted(s)
    requires !op.Begin? && (op.Look? ==> !op.fail)
    ensures op.Look? ==> Inv(cfg, Advance(cfg, s, op.at), op.at)
    ensures Uncounted(Step(cfg, s, op))
  {
    hide Answered, Advance, Promote, Uncounted;
    match op
    case Look(name, at, _) =>
      AdvanceInv(cfg, s, clock, at);
      AdvanceUncounted(cfg, s, at);
      AnsweredUncounted(cfg, Advance(cfg, s, at), name, at);
    case Tick(at) =>
      AdvanceUncounted(cfg, s, at);
    case Seed(name, lastUsed, warm) =>
      if name !in s.table {
        var s1 := SeedEntry(s, name, lastUsed);
        assert Uncounted(s1) by { SeedUncounted(s, name, lastUsed); }
        PromoteUncounted(cfg, s1, name, lastUsed);
      }
  }

  lemma SeedUncounted(s: State, name: Name, lastUsed: Time)
    requires Uncounted(s)
    ensures Uncounted(SeedEntry(s, name, lastUsed))
  {
  }

  /** No counting begins, and no lookup fails. */
  ghost predicate Plain(ops: seq<Op>) {
    forall op :: op in ops ==> !op.Begin? && (op.Look? ==> !op.fail)
  }

  lemma {:induction false} RunUncounted(cfg: Config, s: State, clock: Time, ops: seq<Op>)
    requires Ok(cfg) && Inv(cfg, s, clock) && Timely(ops, clock, false) && !s.counting && Uncounted(s) && Plain(ops)
    ensures Uncounted(Run(cfg, s, clock, ops))
    decreases |ops|
  {
    hide Step, Uncounted;
    if ops != [] {
      assert ops[0] in ops;
      assert forall op :: op in ops[1..] ==> op in ops;
      StepInv(cfg, s, clock, ops[0]);
      StepUncounted(cfg, s, clock, ops[0]);
      RunUncounted(cfg, Step(cfg, s, ops[0]), ClockAfter(ops[0], clock), ops[1..]);
    }
  }

  lemma {:induction false} NothingCounted(k: Time, log: seq<Event>)
    requires forall e :: e in log ==> !e.counted
    ensures Tally(log) == ZERO && Ledger(k, log) == 0.0
  {
    if log != [] {
      assert log[|log| - 1] in log;
      NothingCounted(k, log[..|log| - 1]);
    }
  }

  lemma RunUpPlain(w: Window)
    ensures Plain(RunUp(w))
  {
  }

  lemma CountFromTally(k: Time, log: seq<Event>, len: nat, c0: Time)
    requires Tally(log) == ZERO && Ledger(k, log) == 0.0
    ensures var r := log + [Event(true, CountFrom(len), [], c0)];
      Tally(r) == ZERO.(warmMax := len) && Ledger(k, r) == 0.0
  {
    TallyAppend(log, Event(true, CountFrom(len), [], c0));
    LedgerAppend(k, log, Event(true, CountFrom(len), [], c0));
  }

  /** Counting begins from zero, but for the length of the queue. */
  lemma AtC0Counts(cfg: Config, w: Window, start: Time)
    requires Ok(cfg) && WellTimed(w, start)
    ensures var s := AtC0(cfg, w, start);
      && Tally(s.log) == ZERO.(warmMax := |s.queue.keys|) && Ledger(cfg.k, s.log) == 0.0
      && s.warmSecs == 0.0 && s.negative == map[] && SoundLog(cfg, s.log)
  {
    hide Run, Tally, Ledger, Inv;
    RunUpTimely(w, start);
    StartInv(cfg, start, false);
    RunUpPlain(w);
    var s := Run(cfg, Start(false), start, RunUp(w));
    RunUncounted(cfg, Start(false), start, RunUp(w));
    RunSound(cfg, Start(false), start, RunUp(w));
    NothingCounted(cfg.k, s.log);
    CountFromTally(cfg.k, s.log, |s.queue.keys|, w.c0);
  }

  // ---- every arrival of the window is one counted lookup

  function LookCount(ops: seq<Op>): nat {
    if ops == [] then 0 else (if ops[0].Look? then 1 else 0) + LookCount(ops[1..])
  }

  lemma {:induction false} RunLookups(cfg: Config, s: State, clock: Time, ops: seq<Op>)
    requires Ok(cfg) && Inv(cfg, s, clock) && Timely(ops, clock, s.counting) && s.counting
    ensures Tally(Run(cfg, s, clock, ops).log).lookups == Tally(s.log).lookups + LookCount(ops)
    decreases |ops|
  {
    hide Tally, Answered, Advance;
    if ops != [] {
      StepInv(cfg, s, clock, ops[0]);
      if ops[0].Look? || ops[0].Tick? {
        AdvanceOutcomes(cfg, s, ops[0].at);
        AdvanceCounting(cfg, s, ops[0].at);
        if ops[0].Look? {
          AnsweredTally(cfg, Advance(cfg, s, ops[0].at), ops[0].name, ops[0].at, ops[0].fail);
        }
      }
      RunLookups(cfg, Step(cfg, s, ops[0]), ClockAfter(ops[0], clock), ops[1..]);
    }
  }

  lemma {:induction false} LooksCount(arr: seq<Arrival>, fails: set<Arrival>, rest: seq<Op>)
    ensures LookCount(Looks(arr, fails) + rest) == |arr| + LookCount(rest)
    decreases |arr|
  {
    if arr == [] {
      assert Looks(arr, fails) + rest == rest;
    } else {
      assert (Looks(arr, fails) + rest)[1..] == Looks(arr[1..], fails) + rest;
      LooksCount(arr[1..], fails, rest);
    }
  }

  /** The arrivals of the window whose resolution failed, in order. */
  function FailedInside(arr: seq<Arrival>, fails: set<Arrival>): seq<Arrival> {
    if arr == [] then []
    else if arr[0] in fails then [arr[0]] + FailedInside(arr[1..], fails)
    else FailedInside(arr[1..], fails)
  }

  lemma {:induction false} FailingLooks(arr: seq<Arrival>, fails: set<Arrival>, taken: Time)
    ensures Failing(Looks(arr, fails) + [Tick(taken)]) == FailedInside(arr, fails)
    decreases |arr|
  {
    if arr == [] {
      assert Looks(arr, fails) + [Tick(taken)] == [Tick(taken)];
    } else {
      assert (Looks(arr, fails) + [Tick(taken)])[1..] == Looks(arr[1..], fails) + [Tick(taken)];
      FailingLooks(arr[1..], fails, taken);
    }
  }

  /**
   * What `replay` counts, for any sorted arrivals and any settings: one lookup per arrival of the window, each with
   * one outcome; misses by kind and refreshes by cause; the peak of the queue, within its limit.
   */
  lemma ReplayCounters(cfg: Config, w: Window, start: Time)
    requires Ok(cfg) && WellTimed(w, start)
    ensures var r := Replayed(cfg, w, start); var c := Tally(r.log);
      && c.lookups == |w.inside| == c.hits + c.staleHits + c.negativeHits + c.misses
      && AddsUp(c) && c.refreshAsk <= c.hits
      && |r.queue.keys| <= c.warmMax <= cfg.maxWarm
  {
    hide Run, Tally, AddsUp, Ledger, SoundLog, HeapInv, DuesWithin, EntriesBy, Valid;
    var s := AtC0(cfg, w, start);
    var ops := Measured(w);
    RunUpTimely(w, start);
    AtC0Counts(cfg, w, start);
    TallyAddsUp(Replayed(cfg, w, start).log);
    RunBalanced(cfg, s, w.c0, ops);
    RunAsksAfterHits(cfg, s, w.c0, ops);
    PeakBounds(cfg, s, w.c0, ops);
    RunLookups(cfg, s, w.c0, ops);
    LooksCount(w.inside, w.fails, [Tick(w.taken)]);
  }

  /** The failing arrivals of the window are split as the negative-cache replay at 60 seconds splits them. */
  lemma ReplayFailures(cfg: Config, w: Window, start: Time)
    requires Ok(cfg) && WellTimed(w, start)
    ensures var c := Tally(Replayed(cfg, w, start).log);
      var m := Feed(BLANK, FailedInside(w.inside, w.fails), NEGATIVE_TTL);
      c.negativeHits == m.hits && c.negative == m.lookups
  {
    hide Run, Tally, Ledger, SoundLog, Inv;
    RunUpTimely(w, start);
    AtC0Counts(cfg, w, start);
    FailingLooks(w.inside, w.fails, w.taken);
    FailuresSplitAlike(cfg, AtC0(cfg, w, start), w.c0, Measured(w));
  }

  /** The queue time of the window is at most `maxWarm` times its length. */
  lemma ReplayQueueTime(cfg: Config, w: Window, start: Time)
    requires Ok(cfg) && WellTimed(w, start)
    ensures Replayed(cfg, w, start).warmSecs <= Area(cfg.maxWarm, w.taken - w.c0)
  {
    hide Area, Run, Tally, Ledger, SoundLog, Inv;
    RunUpTimely(w, start);
    AtC0Counts(cfg, w, start);
    RunWarmSecs(cfg, AtC0(cfg, w, start), w.c0, Measured(w));
  }

  /**
   * Timer refreshes of the window are at most `maxWarm * ((taken - c0) / k + 1)`, to which promotion by the answer
   * adds its promotions.
   */
  lemma ReplayCeiling(cfg: Config, w: Window, start: Time)
    requires Ok(cfg) && WellTimed(w, start)
    ensures var c := Tally(Replayed(cfg, w, start).log);
      (c.refreshWarm as real) <=
      (cfg.maxWarm as real) * ((w.taken - w.c0) / cfg.k + 1.0) + (Advances(cfg, c) as real)
  {
    hide Run, Tally, Ledger, QueueCredit, SoundLog, Inv, Advances;
    RunUpTimely(w, start);
    AtC0Counts(cfg, w, start);
    TimerCeiling(cfg, AtC0(cfg, w, start), w.c0, Measured(w));
  }

  /** The ceiling of the manual, "32 names / 45 s", for a TTL of 60 s. */
  lemma DocumentedCeiling(rule: Rule, window: Time, serveStale: Time, w: Window, start: Time)
    requires WellTimed(w, start)
    ensures var cfg := Settings(rule, 60.0, window, 32, serveStale, Now, None);
      && cfg.k == 45.0 && Ok(cfg)
      && (Tally(Replayed(cfg, w, start).log).refreshWarm as real) <= 32.0 * ((w.taken - w.c0) / 45.0 + 1.0)
  {
    hide Tally, Replayed;
    ReplayCeiling(Settings(rule, 60.0, window, 32, serveStale, Now, None), w, start);
  }

  lemma {:induction false} PeakBounds(cfg: Config, s: State, clock: Time, ops: seq<Op>)
    requires Ok(cfg) && Inv(cfg, s, clock) && Timely(ops, clock, s.counting)
    ensures |Run(cfg, s, clock, ops).queue.keys| <= Peak(cfg, s, clock, ops)
    decreases |ops|
  {
    hide Step;
    if ops != [] {
      StepInv(cfg, s, clock, ops[0]);
      PeakBounds(cfg, Step(cfg, s, ops[0]), ClockAfter(ops[0], clock), ops[1..]);
    }
  }

  // ---- the loops of `replay`

  /** The next operation of a run is one step from where the run has come to. */
  lemma RunNext(cfg: Config, s: State, clock: Time, ops: seq<Op>, i: nat)
    requires Ok(cfg) && Inv(cfg, s, clock) && Timely(ops, clock, s.counting) && i < |ops|
    ensures Timely(ops[..i], clock, s.counting) && Timely(ops[..i + 1], clock, s.counting)
    ensures var m := Run(cfg, s, clock, ops[..i]); var now := EndClock(ops[..i], clock);
      && Legal(ops[i], now, m.counting)
      && (ops[i].Look? ==> Inv(cfg, Advance(cfg, m, ops[i].at), ops[i].at))
      && Run(cfg, s, clock, ops[..i + 1]) == Step(cfg, m, ops[i])
      && EndClock(ops[..i + 1], clock) == ClockAfter(ops[i], now)
  {
    hide Step, Inv, Legal;
    assert ops == ops[..i] + ops[i..] == ops[..i + 1] + ops[i + 1..];
    assert ops[..i + 1] == ops[..i] + [ops[i]];
    TimelyAppend(ops[..i + 1], ops[i + 1..], clock, s.counting);
    TimelyAppend(ops[..i], [ops[i]], clock, s.counting);
    RunAppend(cfg, s, clock, ops[..i], [ops[i]]);
    var m := Run(cfg, s, clock, ops[..i]);
    var now := EndClock(ops[..i], clock);
    assert [ops[i]][1..] == [];
    StepInv(cfg, m, now, ops[i]);
    OneStep(cfg, m, now, ops[i]);
  }

  lemma StepTick(cfg: Config, s: State, at: Time)
    requires Ok(cfg) && Linked(s) && Valid(s.queue)
    ensures Step(cfg, s, Tick(at)) == Advance(cfg, s, at)
  {
  }

  lemma StepSeed(cfg: Config, s: State, name: Name, lastUsed: Time, warm: bool)
    requires Ok(cfg) && Linked(s) && Valid(s.queue)
    ensures Step(cfg, s, Seed(name, lastUsed, warm)) == Prime(cfg, s, name, lastUsed, warm)
  {
  }

  lemma RunUpLength(w: Window)
    ensures |RunUp(w)| == |w.warmup| + 1 + |w.seen|
  {
  }

  lemma SeedAt(w: Window, i: nat)
    requires i < |w.seen|
    ensures |RunUp(w)| == |w.warmup| + 1 + |w.seen|
    ensures RunUp(w)[|w.warmup| + 1 + i] ==
            Seed(w.seen[i], if w.primeWarm then w.c0 else w.c0 - PRIME_BEFORE, w.primeWarm)
  {
  }

  /** The names seeded at `c0`, after the run-up. */
  method SeedAll(tb: Table, w: Window, ghost start: Time)
    requires tb.Valid() && WellTimed(w, start) && Inv(tb.cfg, Start(false), start)
    requires Timely(RunUp(w), start, false) && Timely(RunUp(w)[..|w.warmup| + 1], start, false)
    requires tb.View() == Run(tb.cfg, Start(false), start, RunUp(w)[..|w.warmup| + 1])
    requires tb.clock == EndClock(RunUp(w)[..|w.warmup| + 1], start)
    modifies tb
    ensures tb.Valid() && tb.clock == EndClock(RunUp(w), start)
    ensures tb.View() == Run(tb.cfg, Start(false), start, RunUp(w))
  {
    hide Run, Step, Inv, Tally, Advance, Prime, Table.Counted, RunUp, Timely, EndClock, InOrder;
    ghost var cfg := tb.cfg;
    ghost var ops := RunUp(w);
    ghost var s := Start(false);
    RunUpLength(w);
    for i := 0 to |w.seen|
      invariant tb.Valid()
      invariant Timely(ops[..|w.warmup| + 1 + i], start, false)
      invariant tb.View() == Run(cfg, s, start, ops[..|w.warmup| + 1 + i])
      invariant tb.clock == EndClock(ops[..|w.warmup| + 1 + i], start)
    {
      RunNext(cfg, s, start, ops, |w.warmup| + 1 + i);
      InvLinked(cfg, tb.View(), tb.clock);
      SeedAt(w, i);
      var lastUsed := if w.primeWarm then w.c0 else w.c0 - PRIME_BEFORE;
      StepSeed(cfg, tb.View(), w.seen[i], lastUsed, w.primeWarm);
      tb.PrimeName(w.seen[i], lastUsed, w.primeWarm);
    }
    assert ops[..|w.warmup| + 1 + |w.seen|] == ops;
  }

  /** The first half of `replay`: the run-up, uncounted, and the names seeded at `c0`. */
  method Prepare(tb: Table, w: Window, ghost start: Time)
    requires tb.Valid() && tb.View() == Start(true) && tb.clock == start && WellTimed(w, start)
    modifies tb
    ensures tb.Valid() && tb.clock == w.c0
    ensures Timely(RunUp(w), start, false) && Inv(tb.cfg, Start(false), start)
    ensures tb.View() == Run(tb.cfg, Start(false), start, RunUp(w))
  {
    hide Run, Step, Inv, Tally, Advance, Prime, Table.Counted;
    tb.StopCounting();
    ghost var cfg := tb.cfg;
    ghost var ops := RunUp(w);
    ghost var s := Start(false);
    RunUpTimely(w, start);
    StartInv(cfg, start, false);
    EmptyRun(cfg, s, start, ops);
    for i := 0 to |w.warmup|
      invariant tb.Valid()
      invariant Timely(ops[..i], start, false)
      invariant tb.View() == Run(cfg, s, start, ops[..i]) && tb.clock == EndClock(ops[..i], start)
    {
      RunNext(cfg, s, start, ops, i);
      tb.Lookup(w.warmup[i].name, w.warmup[i].at, false);
    }
    RunNext(cfg, s, start, ops, |w.warmup|);
    InvLinked(cfg, tb.View(), tb.clock);
    StepTick(cfg, tb.View(), w.c0);
    tb.AdvanceTo(w.c0);
    SeedAll(tb, w, start);
  }

  /** `replay`, on a new table: the run-up, then the window, counted. */
  method Replay(rule: Rule, ttl: Time, window: Time, maxWarm: nat, serveStale: Time, promoteAt: PromoteAt,
                refreshAt: Option<Time>, w: Window, ghost start: Time) returns (tb: Table)
    requires Ok(Settings(rule, ttl, window, maxWarm, serveStale, promoteAt, refreshAt)) && WellTimed(w, start)
    ensures fresh(tb) && tb.Valid() && tb.clock == w.taken
    ensures tb.cfg.rule == rule && tb.cfg.ttl == ttl && tb.cfg.window == window && tb.cfg.maxWarm == maxWarm
    ensures tb.cfg.serveStale == serveStale && tb.cfg.promoteAt == promoteAt
    ensures tb.cfg.k == if refreshAt.Some? && refreshAt.value != 0.0 then refreshAt.value else ttl - ttl / 4.0
    ensures tb.View() == Replayed(tb.cfg, w, start)
    ensures window <= 0.0 ==> tb.queue.keys == [] && tb.c.refreshWarm == 0
    ensures serveStale <= ttl ==> tb.c.staleHits == 0
    ensures tb.c.lookups == |w.inside| == tb.c.hits + tb.c.staleHits + tb.c.negativeHits + tb.c.misses
  {
    hide Run, Step, Inv, Tally, Advance, Prime, Table.Counted;
    tb := new Table(rule, ttl, window, maxWarm, serveStale, promoteAt, refreshAt, start);
    Prepare(tb, w, start);
    NotCounting(tb.cfg, w, start);
    tb.CountFromNow(w.c0);
    ghost var cfg := tb.cfg;
    ghost var s := tb.View();
    ghost var ops := Measured(w);
    RunUpTimely(w, start);
    EmptyRun(cfg, s, w.c0, ops);
    for i := 0 to |w.inside|
      invariant fresh(tb) && tb.cfg == cfg && tb.Valid()
      invariant Timely(ops[..i], w.c0, true)
      invariant tb.View() == Run(cfg, s, w.c0, ops[..i]) && tb.clock == EndClock(ops[..i], w.c0)
    {
      RunNext(cfg, s, w.c0, ops, i);
      tb.Lookup(w.inside[i].name, w.inside[i].at, w.inside[i] in w.fails);
    }
    RunNext(cfg, s, w.c0, ops, |w.inside|);
    InvLinked(cfg, tb.View(), tb.clock);
    StepTick(cfg, tb.View(), w.taken);
    tb.AdvanceTo(w.taken);
    assert ops[..|w.inside| + 1] == ops;
    ReplaySettings(tb.cfg, w, start);
    ReplayCounters(tb.cfg, w, start);
    CountedTally(tb);
  }

  lemma CountedTally(tb: Table)
    requires tb.Valid()
    ensures tb.c == Tally(tb.View().log)
  {
    hide Tally, Inv;
  }

  /** Without a window nothing is kept warm, and without a window for old answers past the TTL none is given. */
  lemma ReplaySettings(cfg: Config, w: Window, start: Time)
    requires Ok(cfg) && WellTimed(w, start)
    ensures var r := Replayed(cfg, w, start); var c := Tally(r.log);
      && (cfg.window <= 0.0 ==> r.queue.keys == [] && c.refreshWarm == 0)
      && (cfg.serveStale <= cfg.ttl ==> c.staleHits == 0)
  {
    hide Run, Tally, Inv, Timely;
    var ops := ReplayCourse(cfg, w, start);
    OldAnswersAreInWindow(cfg, false, start, ops);
    if cfg.window <= 0.0 {
      NothingKeptWarm(cfg, false, start, ops);
    }
  }

  /** Two calls that differ in the window for old answers alone: the longer relabels what the shorter counts. */
  lemma ReplayRelabels(a: Config, b: Config, w: Window, start: Time)
    requires Ok(a) && Longer(a, b) && WellTimed(w, start)
    ensures var s := Replayed(a, w, start); var r := Replayed(b, w, start);
      && s.table == r.table && s.queue == r.queue && s.warmSecs == r.warmSecs
      && Shifted(Tally(s.log), Tally(r.log))
  {
    hide Run, Tally, Inv, Timely, Shifted, RelabelledLog;
    var ops := ReplayCourse(a, w, start);
    var ops' := ReplayCourse(b, w, start);
    assert ops == ops';
    ServeStaleOnlyRelabels(a, b, false, start, ops);
  }

  /**
   * What `replay` does, operation by operation: the run-up, time to `c0`, the names that were there before (two hours
   * back, or warm now), the beginning of the count, the arrivals of the window, and time to its end.
   */
  ghost predicate IsCourse(ops: seq<Op>, w: Window) {
    var a := |w.warmup|; var b := a + 1 + |w.seen|; var c := b + 1 + |w.inside|;
    && |ops| == c + 1
    && (forall i :: 0 <= i < |w.warmup| ==> ops[i] == Look(w.warmup[i].name, w.warmup[i].at, false))
    && ops[a] == Tick(w.c0)
    && (forall i :: 0 <= i < |w.seen| ==>
          ops[a + 1 + i] == Seed(w.seen[i], if w.primeWarm then w.c0 else w.c0 - 7200.0, w.primeWarm))
    && ops[b] == Begin(w.c0)
    && (forall i :: 0 <= i < |w.inside| ==>
          ops[b + 1 + i] == Look(w.inside[i].name, w.inside[i].at, w.inside[i] in w.fails))
    && ops[c] == Tick(w.taken)
  }

  lemma ReplayCourse(cfg: Config, w: Window, start: Time) returns (ops: seq<Op>)
    requires Ok(cfg) && WellTimed(w, start)
    ensures ops == RunUp(w) + ([Begin(w.c0)] + Measured(w)) && IsCourse(ops, w)
    ensures Timely(ops, start, false) && Inv(cfg, Start(false), start)
    ensures Run(cfg, Start(false), start, ops) == Replayed(cfg, w, start)
  {
    ops := RunUp(w) + ([Begin(w.c0)] + Measured(w));
    ReplayIsRun(cfg, w, start);
    CourseIs(w);
  }

  lemma CourseIs(w: Window)
    ensures IsCourse(RunUp(w) + ([Begin(w.c0)] + Measured(w)), w)
  {
  }

  lemma NotCounting(cfg: Config, w: Window, start: Time)
    requires Ok(cfg) && WellTimed(w, start)
    ensures Timely(RunUp(w), start, false) && Inv(cfg, Start(false), start)
    ensures !Run(cfg, Start(false), start, RunUp(w)).counting
  {
    hide Run, Inv;
    RunUpTimely(w, start);
    StartInv(cfg, start, false);
    assert RunUp(w) + [] == RunUp(w);
    RunAppend(cfg, Start(false), start, RunUp(w), []);
  }

  /** The whole of `replay` is one run, so that what is proved of all runs holds of it. */
  lemma ReplayIsRun(cfg: Config, w: Window, start: Time)
    requires Ok(cfg) && WellTimed(w, start)
    ensures var ops := RunUp(w) + ([Begin(w.c0)] + Measured(w));
      && Timely(ops, start, false) && Inv(cfg, Start(false), start)
      && Run(cfg, Start(false), start, ops) == Replayed(cfg, w, start)
  {
    hide Inv;
    var rest := [Begin(w.c0)] + Measured(w);
    assert rest[1..] == Measured(w);
    RunUpTimely(w, start);
    StartInv(cfg, start, false);
    NotCounting(cfg, w, start);
    TimelyAppend(RunUp(w), rest, start, false);
    RunAppend(cfg, Start(false), start, RunUp(w), rest);
  }

  lemma EmptyRun(cfg: Config, s: State, clock: Time, ops: seq<Op>)
    requires Ok(cfg) && Inv(cfg, s, clock)
    ensures Timely(ops[..0], clock, s.counting) && EndClock(ops[..0], clock) == clock
    ensures Run(cfg, s, clock, ops[..0]) == s
  {
  }
}
