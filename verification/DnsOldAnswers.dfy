/** Old answers are given only past the TTL, and only within the window for them. */
module DnsOldAnswers {
  import opened Names
  import opened OrderedDict
  import opened Heap
  import opened DnsModel
  import opened DnsRun
  import opened DnsTally
  import opened DnsCounts

  ghost predicate InWindow(cfg: Config, log: seq<Event>) {
    forall e :: e in log && e.what.Stale? ==> cfg.ttl <= e.what.age < cfg.serveStale
  }

  lemma {:induction false} AdvanceInWindow(cfg: Config, s: State, now: Time)
    requires cfg.k > 0.0 && Linked(s) && InWindow(cfg, s.log)
    ensures InWindow(cfg, Advance(cfg, s, now).log)
    decreases TotalRounds(cfg.k, s.heap, now)
  {
    hide Push, Without;
    if s.heap != [] && s.heap[0].due <= now {
      PopDueDecreases(cfg, s, now);
      AdvanceInWindow(cfg, PopDue(cfg, s), now);
    }
  }

  lemma PromoteInWindow(cfg: Config, s: State, name: Name, now: Time)
    requires Linked(s) && Valid(s.queue) && name in s.table && cfg.maxWarm >= 1 && InWindow(cfg, s.log)
    ensures InWindow(cfg, Promote(cfg, s, name, now).log)
  {
    hide Push, Without, NoDup;
  }

  lemma ServeInWindow(cfg: Config, s: State, name: Name, now: Time)
    requires name in s.table && s.table[name].hasAddrs && InWindow(cfg, s.log)
    ensures InWindow(cfg, Serve(cfg, s, name, now).log)
  {
  }

  lemma AnsweredInWindow(cfg: Config, s: State, name: Name, now: Time, fail: bool)
    requires Ok(cfg) && Inv(cfg, s, now) && InWindow(cfg, s.log)
    ensures InWindow(cfg, Answered(cfg, s, name, now, fail).log)
  {
    hide Push, Without, NoDup, Promote, Serve, HeapInv, DuesWithin, EntriesBy;
    var s1 := Emit(s, Looked, name, now);
    if !fail && name in s.table {
      ServeInWindow(cfg, s1, name, now);
      ServeFields(cfg, s1, name, now);
      PromoteInWindow(cfg, Serve(cfg, s1, name, now), name, now);
    }
  }

  lemma StepInWindow(cfg: Config, s: State, clock: Time, op: Op)
    requires Ok(cfg) && Inv(cfg, s, clock) && Legal(op, clock, s.counting) && InWindow(cfg, s.log)
    ensures op.Look? ==> Inv(cfg, Advance(cfg, s, op.at), op.at)
    ensures InWindow(cfg, Step(cfg, s, op).log)
  {
    hide Answered, Advance, Promote, NoDup, HeapInv, DuesWithin, EntriesBy;
    match op
    case Look(name, at, fail) =>
      AdvanceInv(cfg, s, clock, at);
      AdvanceInWindow(cfg, s, at);
      AnsweredInWindow(cfg, Advance(cfg, s, at), name, at, fail);
    case Tick(at) =>
      AdvanceInWindow(cfg, s, at);
    case Seed(name, lastUsed, warm) =>
      PromoteInWindow(cfg, SeedEntry(s, name, lastUsed), name, lastUsed);
    case Begin(at) =>
  }

  lemma {:induction false} RunInWindow(cfg: Config, s: State, clock: Time, ops: seq<Op>)
    requires Ok(cfg) && Inv(cfg, s, clock) && Timely(ops, clock, s.counting) && InWindow(cfg, s.log)
    ensures InWindow(cfg, Run(cfg, s, clock, ops).log)
    decreases |ops|
  {
    hide Step, InWindow;
    if ops != [] {
      StepInv(cfg, s, clock, ops[0]);
      StepInWindow(cfg, s, clock, ops[0]);
      RunInWindow(cfg, Step(cfg, s, ops[0]), ClockAfter(ops[0], clock), ops[1..]);
    }
  }

  lemma {:induction false} NoneOld(log: seq<Event>)
    requires forall e :: e in log ==> !e.what.Stale?
    ensures Number(log, OldAnswers) == 0
  {
    if log != [] {
      assert log[|log| - 1] in log;
      NoneOld(log[..|log| - 1]);
    }
  }

  /** Over every run an old answer is past the TTL and within the window; so none is given if that ends by the TTL. */
  lemma OldAnswersAreInWindow(cfg: Config, counting: bool, clock: Time, ops: seq<Op>)
    requires Ok(cfg) && Timely(ops, clock, counting)
    ensures Inv(cfg, Start(counting), clock)
    ensures var log := Run(cfg, Start(counting), clock, ops).log;
      InWindow(cfg, log) && (cfg.serveStale <= cfg.ttl ==> Tally(log).staleHits == 0)
  {
    hide Run, Tally, Number;
    StartInv(cfg, clock, counting);
    RunInWindow(cfg, Start(counting), clock, ops);
    var log := Run(cfg, Start(counting), clock, ops).log;
    CounterIsNumber(log, OldAnswers);
    if cfg.serveStale <= cfg.ttl {
      NoneOld(log);
    }
  }
}
