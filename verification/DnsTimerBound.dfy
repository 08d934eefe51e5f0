/** How many timer refreshes there can be: an exact account of the time names spend in the queue. */
module DnsTimerBound {
  import opened Names
  import opened OrderedDict
  import opened Heap
  import opened DnsModel
  import opened DnsRun
  import opened DnsTally

  /** What an event takes out of the queue's credit (and a promotion may put in). */
  function Spent(k: Time, e: Event): Time {
    if !e.counted then 0.0
    else match e.what
      case Timer => k
      case Cooled => k
      case Evicted(due) => e.at - (due - k)
      case Promoted(due, _) => (due - k) - e.at
      case _ => 0.0
  }

  function Ledger(k: Time, log: seq<Event>): Time {
    if log == [] then 0.0 else Ledger(k, log[..|log| - 1]) + Spent(k, log[|log| - 1])
  }

  lemma LedgerAppend(k: Time, log: seq<Event>, e: Event)
    ensures Ledger(k, log + [e]) == Ledger(k, log) + Spent(k, e)
  {
    assert (log + [e])[..|log|] == log;
  }

  /** Queue time counted so far, less what the log accounts for, less what the queued names still hold. */
  function Balance(cfg: Config, s: State, clock: Time): Time {
    s.warmSecs - Ledger(cfg.k, s.log) - QueueCredit(s.queue, cfg.k, clock)
  }

  lemma TickBalance(cfg: Config, s: State, clock: Time, now: Time)
    requires s.counting && s.warmT == Some(clock) && clock <= now
    ensures Balance(cfg, TickWarm(s, now), now) == Balance(cfg, s, clock)
  {
    CreditLater(s.queue.keys, s.queue.due, cfg.k, clock, now);
  }

  lemma FireBalance(cfg: Config, s: State, clock: Time, name: Name, due: Time)
    requires Linked(s) && Valid(s.queue) && name in s.queue.due && s.queue.due[name] == due
    requires s.counting && s.warmT == Some(clock) && clock <= due
    ensures Balance(cfg, Fire(cfg, s, name, due), due) == Balance(cfg, s, clock)
  {
    hide Push, Without, Credit, Ledger;
    var t := TickWarm(s, due);
    TickBalance(cfg, s, clock, due);
    FireFields(cfg, s, name, due);
    DelValid(s.queue, name);
    CreditDel(s.queue, name, cfg.k, due);
    CreditSetNew(Del(s.queue, name), name, due + cfg.k, cfg.k, due);
    LedgerAppend(cfg.k, s.log, Event(s.counting, Timer, name, due));
    LedgerAppend(cfg.k, s.log, Event(s.counting, Cooled, name, due));
  }

  lemma {:induction false} AdvanceBalance(cfg: Config, s: State, clock: Time, now: Time)
    requires Ok(cfg) && Inv(cfg, s, clock) && clock <= now && s.counting && s.warmT.Some?
    ensures Balance(cfg, Advance(cfg, s, now), now) == Balance(cfg, s, clock)
    decreases TotalRounds(cfg.k, s.heap, now)
  {
    hide Push, Without, Ledger, QueueCredit, Fire, TickWarm;
    if s.heap != [] && s.heap[0].due <= now {
      PopDueDecreases(cfg, s, now);
      if Live(s) {
        var p := s.heap[0];
        PopLiveInv(cfg, s, clock);
        FireBalance(cfg, s.(heap := s.heap[1..]), clock, p.name, p.due);
        FireFields(cfg, s.(heap := s.heap[1..]), p.name, p.due);
        AdvanceBalance(cfg, PopDue(cfg, s), p.due, now);
      } else {
        PopStaleInv(cfg, s, clock);
        AdvanceBalance(cfg, PopDue(cfg, s), clock, now);
      }
    } else {
      TickBalance(cfg, s, clock, now);
    }
  }

  lemma RoomyBalance(cfg: Config, s: State, name: Name, clock: Time)
    requires Ok(cfg) && Inv(cfg, s, clock) && s.counting && s.warmT.Some?
    ensures Balance(cfg, Roomy(cfg, s, clock), clock) == Balance(cfg, s, clock)
  {
    hide Push, Without, Ledger, Credit;
    if |s.queue.keys| >= cfg.maxWarm {
      var v := Victim(s.queue.keys, s.table);
      CreditDel(s.queue, v, cfg.k, clock);
      LedgerAppend(cfg.k, s.log, Event(s.counting, Evicted(Get(s.queue, v)), v, clock));
    }
  }

  lemma PromoteBalance(cfg: Config, s: State, name: Name, clock: Time)
    requires Ok(cfg) && Inv(cfg, s, clock) && s.counting && s.warmT.Some? && name in s.table && !s.table[name].warm
    ensures Balance(cfg, Promote(cfg, s, name, clock), clock) == Balance(cfg, s, clock)
  {
    hide Push, Without, Ledger, QueueCredit, Promote;
    var s2 := Roomy(cfg, s, clock);
    var at := FirstDue(cfg, s2.table[name], clock) by { RoomyInv(cfg, s, name, clock); }
    var r := Promote(cfg, s, name, clock);
    RoomyInv(cfg, s, name, clock);
    RoomyBalance(cfg, s, name, clock);
    PromoteFields(cfg, s, name, clock);
    CreditSetNew(s2.queue, name, at, cfg.k, clock);
    LedgerAppend(cfg.k, s2.log, Event(s.counting, Promoted(at, |r.queue.keys|), name, clock));
  }

  lemma ServeBalance(cfg: Config, s: State, name: Name, clock: Time)
    requires name in s.table
    ensures Balance(cfg, Serve(cfg, s, name, clock), clock) == Balance(cfg, s, clock)
  {
    hide Ledger, QueueCredit;
    var r := Serve(cfg, s, name, clock);
    LedgerAppend(cfg.k, s.log, r.log[|s.log|]);
    if |r.log| == |s.log| + 2 {
      LedgerAppend(cfg.k, s.log + [r.log[|s.log|]], r.log[|s.log| + 1]);
      assert s.log + [r.log[|s.log|]] + [r.log[|s.log| + 1]] == r.log;
    } else {
      assert s.log + [r.log[|s.log|]] == r.log;
    }
  }

  lemma AnsweredBalance(cfg: Config, s: State, name: Name, clock: Time, fail: bool)
    requires Ok(cfg) && Inv(cfg, s, clock) && s.counting && s.warmT.Some?
    ensures Balance(cfg, Answered(cfg, s, name, clock, fail), clock) == Balance(cfg, s, clock)
  {
    hide Push, Without, Ledger, QueueCredit, Promote, Serve;
    var s1 := Emit(s, Looked, name, clock);
    LedgerAppend(cfg.k, s.log, Event(s.counting, Looked, name, clock));
    if fail {
      LedgerAppend(cfg.k, s1.log, Event(s.counting, NegativeHit, name, clock));
      LedgerAppend(cfg.k, s1.log, Event(s.counting, Miss(Negative), name, clock));
    } else if name !in s.table {
      LedgerAppend(cfg.k, s1.log, Event(s.counting, Miss(Cold), name, clock));
    } else {
      ServeBalance(cfg, s1, name, clock);
      ServeFields(cfg, s1, name, clock);
      ServeInv(cfg, s1, name, clock);
      if Promotes(cfg, s.table[name], clock - s.table[name].lastUsed) {
        PromoteBalance(cfg, Serve(cfg, s1, name, clock), name, clock);
      }
    }
  }

  lemma StepBalance(cfg: Config, s: State, clock: Time, op: Op)
    requires Ok(cfg) && Inv(cfg, s, clock) && Legal(op, clock, s.counting) && s.counting && s.warmT.Some?
    ensures op.Look? ==> Inv(cfg, Advance(cfg, s, op.at), op.at)
    ensures Balance(cfg, Step(cfg, s, op), ClockAfter(op, clock)) == Balance(cfg, s, clock)
  {
    hide Answered, Advance, Prime, Balance;
    if op.Look? || op.Tick? {
      AdvanceInv(cfg, s, clock, op.at);
      AdvanceBalance(cfg, s, clock, op.at);
      AdvanceCounting(cfg, s, op.at);
      if op.Look? {
        AnsweredBalance(cfg, Advance(cfg, s, op.at), op.name, op.at, op.fail);
      }
    }
  }

  /**
   * Conservation. Over any counted run, the queue time counted equals what its events account for (a period `k` for
   * each timer refresh and each name let go unused, the part of a period used up by each evicted name, less what
   * promotions put in) plus the change in what the queued names hold. Nothing is lost and nothing is counted twice.
   */
  lemma {:induction false} RunConserves(cfg: Config, s: State, clock: Time, ops: seq<Op>)
    requires Ok(cfg) && Inv(cfg, s, clock) && Timely(ops, clock, s.counting) && s.counting && s.warmT.Some?
    ensures var r := Run(cfg, s, clock, ops); var now := EndClock(ops, clock);
      (r.warmSecs - s.warmSecs) + QueueCredit(s.queue, cfg.k, clock) ==
      (Ledger(cfg.k, r.log) - Ledger(cfg.k, s.log)) + QueueCredit(r.queue, cfg.k, now)
    decreases |ops|
  {
    hide Step, Ledger, QueueCredit;
    if ops != [] {
      StepInv(cfg, s, clock, ops[0]);
      StepBalance(cfg, s, clock, ops[0]);
      RunConserves(cfg, Step(cfg, s, ops[0]), ClockAfter(ops[0], clock), ops[1..]);
    }
  }

  // ---- every event of the account is worth what it should be

  /** Promotions can start in mid-period: by the answer, when there is a TTL for the answer to have aged in. */
  predicate Midway(cfg: Config) {
    cfg.promoteAt == Answer && cfg.ttl > 0.0
  }

  /** An evicted name has used part of its period; a promotion starts a whole one, or what is left of one. */
  ghost predicate Sound(cfg: Config, e: Event) {
    match e.what
    case Evicted(due) => due <= e.at + cfg.k
    case Promoted(due, _) => if Midway(cfg) then e.at <= due else due == e.at + cfg.k
    case _ => true
  }

  ghost predicate SoundLog(cfg: Config, log: seq<Event>) {
    forall e :: e in log ==> Sound(cfg, e)
  }

  lemma {:induction false} AdvanceSound(cfg: Config, s: State, now: Time)
    requires cfg.k > 0.0 && Linked(s) && SoundLog(cfg, s.log)
    ensures SoundLog(cfg, Advance(cfg, s, now).log)
    decreases TotalRounds(cfg.k, s.heap, now)
  {
    hide Push, Without;
    if s.heap != [] && s.heap[0].due <= now {
      PopDueDecreases(cfg, s, now);
      if Live(s) {
        FireFields(cfg, s.(heap := s.heap[1..]), s.heap[0].name, s.heap[0].due);
      }
      AdvanceSound(cfg, PopDue(cfg, s), now);
    }
  }

  lemma PromoteSound(cfg: Config, s: State, name: Name, clock: Time)
    requires Ok(cfg) && Inv(cfg, s, clock) && name in s.table && !s.table[name].warm && SoundLog(cfg, s.log)
    requires cfg.ttl <= 0.0 ==> s.table[name].resolvedAt == clock
    ensures SoundLog(cfg, Promote(cfg, s, name, clock).log)
  {
    hide Push, Without, Promote;
    RoomyInv(cfg, s, name, clock);
    PromoteFields(cfg, s, name, clock);
    assert SoundLog(cfg, Roomy(cfg, s, clock).log);
  }

  lemma AnsweredSound(cfg: Config, s: State, name: Name, clock: Time, fail: bool)
    requires Ok(cfg) && Inv(cfg, s, clock) && SoundLog(cfg, s.log)
    ensures SoundLog(cfg, Answered(cfg, s, name, clock, fail).log)
  {
    hide Push, Without, Promote;
    var s1 := Emit(s, Looked, name, clock);
    if !fail && name in s.table {
      assert SoundLog(cfg, Serve(cfg, s1, name, clock).log);
      ServeFields(cfg, s1, name, clock);
      ServeInv(cfg, s1, name, clock);
      if Promotes(cfg, s.table[name], clock - s.table[name].lastUsed) {
        PromoteSound(cfg, Serve(cfg, s1, name, clock), name, clock);
      }
    }
  }

  lemma StepSound(cfg: Config, s: State, clock: Time, op: Op)
    requires Ok(cfg) && Inv(cfg, s, clock) && Legal(op, clock, s.counting) && SoundLog(cfg, s.log)
    ensures op.Look? ==> Inv(cfg, Advance(cfg, s, op.at), op.at)
    ensures SoundLog(cfg, Step(cfg, s, op).log)
  {
    hide Answered, Advance, Promote;
    match op
    case Look(name, at, fail) =>
      AdvanceInv(cfg, s, clock, at);
      AdvanceSound(cfg, s, at);
      AnsweredSound(cfg, Advance(cfg, s, at), name, at, fail);
    case Tick(at) =>
      AdvanceSound(cfg, s, at);
    case Seed(name, lastUsed, warm) =>
      if name !in s.table && warm && cfg.window > 0.0 {
        var s1 := SeedEntry(s, name, lastUsed);
        assert Inv(cfg, s1, clock);
        PromoteSound(cfg, s1, name, clock);
      }
    case Begin(at) =>
  }

  lemma {:induction false} RunSound(cfg: Config, s: State, clock: Time, ops: seq<Op>)
    requires Ok(cfg) && Inv(cfg, s, clock) && Timely(ops, clock, s.counting) && SoundLog(cfg, s.log)
    ensures SoundLog(cfg, Run(cfg, s, clock, ops).log)
    decreases |ops|
  {
    hide Step, SoundLog;
    if ops != [] {
      StepInv(cfg, s, clock, ops[0]);
      StepSound(cfg, s, clock, ops[0]);
      RunSound(cfg, Step(cfg, s, ops[0]), ClockAfter(ops[0], clock), ops[1..]);
    }
  }

  lemma MulNext(k: Time, n: nat)
    ensures k * ((n + 1) as real) == k * (n as real) + k
  {
  }

  /** Promotions that may start in mid-period. */
  function Advances(cfg: Config, c: Counters): nat {
    if Midway(cfg) then c.promotes else 0
  }

  /** What timers cost is covered by what the log accounts for, and by a period for each promotion that may advance. */
  ghost predicate Paid(cfg: Config, c: Counters, spent: Time) {
    cfg.k * (c.refreshWarm as real) <= spent + cfg.k * (Advances(cfg, c) as real)
  }

  lemma PaidStep(cfg: Config, c: Counters, spent: Time, e: Event)
    requires Ok(cfg) && Sound(cfg, e) && Paid(cfg, c, spent)
    ensures Paid(cfg, Count(c, e), spent + Spent(cfg.k, e))
  {
    MulNext(cfg.k, c.refreshWarm);
    MulNext(cfg.k, Advances(cfg, c));
    if e.what.Promoted? {
      assert Spent(cfg.k, e) >= if Midway(cfg) && e.counted then -cfg.k else 0.0;
    }
  }

  lemma PaidNothing(cfg: Config)
    ensures Paid(cfg, ZERO, 0.0)
  {
  }

  /** Each timer refresh is paid for by a whole period, of which a promotion in mid-period may advance one. */
  lemma LedgerPaysTimers(cfg: Config, log: seq<Event>)
    requires Ok(cfg) && SoundLog(cfg, log)
    ensures cfg.k * (Tally(log).refreshWarm as real) <=
            Ledger(cfg.k, log) + cfg.k * (Advances(cfg, Tally(log)) as real)
  {
    AllPaid(cfg, log);
  }

  lemma {:induction false} AllPaid(cfg: Config, log: seq<Event>)
    requires Ok(cfg) && SoundLog(cfg, log)
    ensures Paid(cfg, Tally(log), Ledger(cfg.k, log))
  {
    hide Count, Paid, Spent;
    if log == [] {
      PaidNothing(cfg);
    } else {
      var last := |log| - 1;
      assert forall e :: e in log[..last] ==> e in log;
      AllPaid(cfg, log[..last]);
      assert Sound(cfg, log[last]);
      PaidStep(cfg, Tally(log[..last]), Ledger(cfg.k, log[..last]), log[last]);
    }
  }

  // ---- the documented ceiling

  lemma {:induction false} RunWarmSecs(cfg: Config, s: State, clock: Time, ops: seq<Op>)
    requires Ok(cfg) && Inv(cfg, s, clock) && Timely(ops, clock, s.counting) && s.counting && s.warmT.Some?
    ensures clock <= EndClock(ops, clock)
    ensures Run(cfg, s, clock, ops).warmSecs <= s.warmSecs + Area(cfg.maxWarm, EndClock(ops, clock) - clock)
    decreases |ops|
  {
    hide Step, Area;
    if ops == [] {
      AreaNow(cfg.maxWarm, 0.0);
    } else {
      var at := ClockAfter(ops[0], clock);
      StepInv(cfg, s, clock, ops[0]);
      StepWarmSecs(cfg, s, clock, ops[0]);
      RunWarmSecs(cfg, Step(cfg, s, ops[0]), at, ops[1..]);
      AreaAdd(cfg.maxWarm, EndClock(ops, clock) - at, at - clock);
    }
  }

  lemma TickArea(s: State, clock: Time, now: Time)
    requires s.counting && s.warmT == Some(clock) && clock <= now
    ensures TickWarm(s, now).warmSecs == s.warmSecs + Area(|s.queue.keys|, now - clock)
  {
    if now == clock {
      AreaNow(|s.queue.keys|, now - clock);
    }
  }

  lemma {:induction false} AdvanceWarmSecs(cfg: Config, s: State, clock: Time, now: Time)
    requires Ok(cfg) && Inv(cfg, s, clock) && clock <= now && s.counting && s.warmT.Some?
    ensures Advance(cfg, s, now).warmSecs <= s.warmSecs + Area(cfg.maxWarm, now - clock)
    decreases TotalRounds(cfg.k, s.heap, now)
  {
    hide Push, Without, Fire, Area, TickWarm;
    if s.heap != [] && s.heap[0].due <= now {
      PopDueDecreases(cfg, s, now);
      if Live(s) {
        var p := s.heap[0];
        PopLiveInv(cfg, s, clock);
        FireFields(cfg, s.(heap := s.heap[1..]), p.name, p.due);
        TickArea(s.(heap := s.heap[1..]), clock, p.due);
        AreaGrows(|s.queue.keys|, cfg.maxWarm, p.due - clock);
        AdvanceWarmSecs(cfg, PopDue(cfg, s), p.due, now);
        AreaAdd(cfg.maxWarm, now - p.due, p.due - clock);
      } else {
        PopStaleInv(cfg, s, clock);
        AdvanceWarmSecs(cfg, PopDue(cfg, s), clock, now);
      }
    } else {
      TickArea(s, clock, now);
      AreaGrows(|s.queue.keys|, cfg.maxWarm, now - clock);
    }
  }

  lemma StepWarmSecs(cfg: Config, s: State, clock: Time, op: Op)
    requires Ok(cfg) && Inv(cfg, s, clock) && Legal(op, clock, s.counting) && s.counting && s.warmT.Some?
    ensures op.Look? ==> Inv(cfg, Advance(cfg, s, op.at), op.at)
    ensures Step(cfg, s, op).warmSecs <= s.warmSecs + Area(cfg.maxWarm, ClockAfter(op, clock) - clock)
  {
    hide Answered, Advance, Area;
    AreaGrows(0, cfg.maxWarm, ClockAfter(op, clock) - clock);
    if op.Look? || op.Tick? {
      AdvanceInv(cfg, s, clock, op.at);
      AdvanceWarmSecs(cfg, s, clock, op.at);
      if op.Look? {
        AnsweredKeeps(cfg, Advance(cfg, s, op.at), op.name, op.at, op.fail);
      }
    }
  }

  lemma CreditWithinPeriods(cfg: Config, s: State, clock: Time)
    requires Ok(cfg) && Inv(cfg, s, clock)
    ensures 0.0 <= QueueCredit(s.queue, cfg.k, clock) <= Area(cfg.maxWarm, cfg.k)
  {
    hide HeapInv, EntriesBy, ClockInv, NoDup, Credit;
    CreditBounds(s.queue.keys, s.queue.due, cfg.k, clock);
    AreaGrows(|s.queue.keys|, cfg.maxWarm, cfg.k);
  }

  lemma DivideOut(n: real, m: nat, k: real, t: real, p: real)
    requires k > 0.0 && k * n <= Area(m, t) + Area(m, k) + k * p
    ensures n <= (m as real) * (t / k + 1.0) + p
  {
    var q := t / k;
    var w := m as real;
    assert q * k == t;
    assert w * t == w * (q * k) == (w * q) * k;
    assert k * (w * (q + 1.0) + p) == (w * q) * k + w * k + k * p;
    if n > w * (q + 1.0) + p {
      assert k * n > k * (w * (q + 1.0) + p);
    }
  }

  /**
   * The ceiling the manual gives ("32 names / 45 s"), in both modes: from the moment counting starts, timer refreshes
   * number at most `maxWarm * (elapsed / k + 1)`, to which promotion by the answer (if there is a TTL) adds its
   * promotions; and already no more than the queue time counted, and the start's credit, allow.
   */
  lemma TimerCeiling(cfg: Config, s: State, c0: Time, ops: seq<Op>)
    requires Ok(cfg) && Inv(cfg, s, c0) && SoundLog(cfg, s.log) && s.counting && s.warmT.Some?
    requires Timely(ops, c0, true)
    requires Ledger(cfg.k, s.log) == 0.0 && s.warmSecs == 0.0
    ensures var r := Run(cfg, s, c0, ops); var taken := EndClock(ops, c0);
      var n := Tally(r.log).refreshWarm as real; var p := Advances(cfg, Tally(r.log)) as real;
      && cfg.k * n + QueueCredit(r.queue, cfg.k, taken) <= r.warmSecs + QueueCredit(s.queue, cfg.k, c0) + cfg.k * p
      && n <= (cfg.maxWarm as real) * ((taken - c0) / cfg.k + 1.0) + p
  {
    hide Tally, Ledger, QueueCredit, Area, SoundLog, Run, QueueInv, HeapInv, DuesWithin, EntriesBy, Advances;
    var r := Run(cfg, s, c0, ops);
    var taken := EndClock(ops, c0);
    RunConserves(cfg, s, c0, ops);
    RunSound(cfg, s, c0, ops);
    LedgerPaysTimers(cfg, r.log);
    RunWarmSecs(cfg, s, c0, ops);
    CreditWithinPeriods(cfg, s, c0);
    CreditWithinPeriods(cfg, r, taken);
    DivideOut(Tally(r.log).refreshWarm as real, cfg.maxWarm, cfg.k, taken - c0, Advances(cfg, Tally(r.log)) as real);
  }
}
