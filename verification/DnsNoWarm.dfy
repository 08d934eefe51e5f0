/** With a window of 0 nothing is kept warm, and at most one refresh goes with each answer given. */
module DnsNoWarm {
  import opened Names
  import opened OrderedDict
  import opened Heap
  import opened DnsModel
  import opened DnsRun
  import opened DnsTally

  /** Nothing is queued, and no timer has fired. */
  ghost predicate Idle(s: State) {
    s.queue.keys == [] && Tally(s.log).refreshWarm == 0
  }

  lemma TallyTimers(log: seq<Event>, e: Event)
    requires !e.what.Timer?
    ensures Tally(log + [e]).refreshWarm == Tally(log).refreshWarm
  {
    hide Count;
    TallyAppend(log, e);
    CountTimer(Tally(log), e);
  }

  lemma {:induction false} AdvanceIdle(cfg: Config, s: State, now: Time)
    requires cfg.k > 0.0 && Linked(s) && Valid(s.queue) && Idle(s)
    ensures Idle(Advance(cfg, s, now))
    decreases TotalRounds(cfg.k, s.heap, now)
  {
    hide Tally, Push, Without, NoDup;
    if s.heap != [] && s.heap[0].due <= now {
      PopDueDecreases(cfg, s, now);
      assert s.heap[0].name !in s.queue.keys;
      AdvanceIdle(cfg, PopDue(cfg, s), now);
    }
  }

  lemma ServeIdle(cfg: Config, s: State, name: Name, now: Time)
    requires name in s.table && Idle(s)
    ensures Idle(Serve(cfg, s, name, now))
  {
    hide Tally;
    var r := Serve(cfg, s, name, now);
    TallyTimers(s.log, r.log[|s.log|]);
    if |r.log| == |s.log| + 2 {
      TallyTimers(s.log + [r.log[|s.log|]], r.log[|s.log| + 1]);
      assert s.log + [r.log[|s.log|]] + [r.log[|s.log| + 1]] == r.log;
    } else {
      assert s.log + [r.log[|s.log|]] == r.log;
    }
  }

  lemma AnsweredIdle(cfg: Config, s: State, name: Name, now: Time, fail: bool)
    requires Ok(cfg) && cfg.window <= 0.0 && Linked(s) && Valid(s.queue) && Idle(s)
    ensures Idle(Answered(cfg, s, name, now, fail))
  {
    hide Tally, Serve, Promote;
    var s1 := Emit(s, Looked, name, now);
    TallyTimers(s.log, Event(s.counting, Looked, name, now));
    TallyTimers(s1.log, Event(s.counting, NegativeHit, name, now));
    TallyTimers(s1.log, Event(s.counting, Miss(Negative), name, now));
    TallyTimers(s1.log, Event(s.counting, Miss(Cold), name, now));
    if !fail && name in s.table {
      ServeIdle(cfg, s1, name, now);
    }
  }

  lemma StepIdle(cfg: Config, s: State, clock: Time, op: Op)
    requires Ok(cfg) && cfg.window <= 0.0 && Inv(cfg, s, clock) && Legal(op, clock, s.counting) && Idle(s)
    ensures op.Look? ==> Inv(cfg, Advance(cfg, s, op.at), op.at)
    ensures Idle(Step(cfg, s, op))
  {
    hide Answered, Advance, Tally;
    match op
    case Look(name, at, fail) =>
      AdvanceInv(cfg, s, clock, at);
      AdvanceIdle(cfg, s, at);
      AnsweredIdle(cfg, Advance(cfg, s, at), name, at, fail);
    case Tick(at) =>
      AdvanceIdle(cfg, s, at);
    case Seed(name, lastUsed, warm) =>
      TallyTimers(s.log, Event(s.counting, Seeded, name, lastUsed));
    case Begin(at) =>
      TallyTimers(s.log, Event(true, CountFrom(|s.queue.keys|), [], at));
  }

  lemma {:induction false} RunIdle(cfg: Config, s: State, clock: Time, ops: seq<Op>)
    requires Ok(cfg) && cfg.window <= 0.0 && Inv(cfg, s, clock) && Timely(ops, clock, s.counting) && Idle(s)
    ensures Idle(Run(cfg, s, clock, ops))
    decreases |ops|
  {
    hide Step, Idle;
    if ops != [] {
      StepInv(cfg, s, clock, ops[0]);
      StepIdle(cfg, s, clock, ops[0]);
      RunIdle(cfg, Step(cfg, s, ops[0]), ClockAfter(ops[0], clock), ops[1..]);
    }
  }

  lemma StartIdle(counting: bool)
    ensures Idle(Start(counting)) && Balanced(Start(counting))
  {
    EmptyTally();
  }

  lemma IdleMeans(s: State)
    requires Idle(s)
    ensures s.queue.keys == [] && Tally(s.log).refreshWarm == 0
  {
  }

  /**
   * The setting the program ships with: with a window of 0, over every run the queue stays empty, no timer fires, and
   * refreshes number at most the lookups that were answered from the table.
   */
  lemma NothingKeptWarm(cfg: Config, counting: bool, clock: Time, ops: seq<Op>)
    requires Ok(cfg) && cfg.window <= 0.0 && Timely(ops, clock, counting)
    ensures Inv(cfg, Start(counting), clock)
    ensures var r := Run(cfg, Start(counting), clock, ops); var c := Tally(r.log);
      && r.queue.keys == [] && c.refreshWarm == 0
      && c.refreshes <= c.hits + c.staleHits
  {
    hide Run, Tally, Inv, Idle;
    StartInv(cfg, clock, counting);
    StartIdle(counting);
    RunIdle(cfg, Start(counting), clock, ops);
    RunAsksAfterHits(cfg, Start(counting), clock, ops);
    TallyAddsUp(Run(cfg, Start(counting), clock, ops).log);
    IdleMeans(Run(cfg, Start(counting), clock, ops));
  }
}
