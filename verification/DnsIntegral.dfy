/** `warm_secs` is the integral of the queue's length over time, read off the log alone. */
module DnsIntegral {
  import opened Names
  import opened OrderedDict
  import opened Heap
  import opened DnsModel
  import opened DnsRun

  /** The length of the queue after the logged events: names come in by promotion and leave cooled or evicted. */
  function Queued(log: seq<Event>): nat {
    if log == [] then 0
    else
      var before := Queued(log[..|log| - 1]);
      match log[|log| - 1].what
      case Promoted(_, _) => before + 1
      case Evicted(_) | Cooled => if before > 0 then before - 1 else 0
      case _ => before
  }

  /** The integral of that step function up to `now`, over the time since counting began. */
  function Integral(log: seq<Event>, now: Time): Time {
    if log == [] then 0.0
    else
      var e := log[|log| - 1];
      Integral(log[..|log| - 1], e.at) + if e.counted then Area(Queued(log), now - e.at) else 0.0
  }

  lemma IntegralAppend(log: seq<Event>, e: Event)
    ensures Integral(log + [e], e.at) == Integral(log, e.at)
    ensures var before := Queued(log);
      Queued(log + [e]) ==
      match e.what
      case Promoted(_, _) => before + 1
      case Evicted(_) | Cooled => if before > 0 then before - 1 else 0
      case _ => before
  {
    assert (log + [e])[..|log|] == log;
    AreaNow(Queued(log + [e]), e.at - e.at);
  }

  lemma IntegralLater(log: seq<Event>, t: Time, now: Time)
    ensures log == [] ==> Integral(log, now) == Integral(log, t)
    ensures log != [] ==>
      Integral(log, now) == Integral(log, t) + if log[|log| - 1].counted then Area(Queued(log), now - t) else 0.0
  {
    if log != [] {
      AreaAdd(Queued(log), now - t, t - log[|log| - 1].at);
    }
  }

  /** Everything logged before counting began is uncounted, everything since is counted. */
  ghost predicate Marked(s: State) {
    && (s.log != [] ==> s.log[|s.log| - 1].counted == s.counting)
    && (s.counting && s.warmT.None? ==> s.log == [])
  }

  ghost predicate Metered(s: State, clock: Time) {
    Queued(s.log) == |s.queue.keys| && s.warmSecs == Integral(s.log, clock) && Marked(s)
  }

  lemma TickMetered(s: State, clock: Time, now: Time)
    requires Metered(s, clock) && clock <= now && ClockInv(s.counting, s.warmT, clock)
    ensures Metered(TickWarm(s, now), now)
  {
    IntegralLater(s.log, clock, now);
    if now == clock {
      AreaNow(|s.queue.keys|, now - clock);
    }
  }

  /** An event of now, after which the queue has the length that goes with it. */
  lemma EmitMetered(s: State, r: State, what: What, name: Name, clock: Time)
    requires Metered(s, clock) && (s.counting ==> s.warmT.Some?)
    requires r.log == Emit(s, what, name, clock).log && r.warmSecs == s.warmSecs
    requires r.counting == s.counting && r.warmT == s.warmT
    requires |r.queue.keys| ==
             |s.queue.keys| + if what.Promoted? then 1 else if what.Evicted? || what.Cooled? then -1 else 0
    ensures Metered(r, clock)
  {
    IntegralAppend(s.log, Event(s.counting, what, name, clock));
  }

  lemma FireMetered(cfg: Config, s: State, clock: Time, name: Name, due: Time)
    requires Linked(s) && Valid(s.queue) && name in s.queue.due && clock <= due
    requires Metered(s, clock) && ClockInv(s.counting, s.warmT, clock)
    ensures Metered(Fire(cfg, s, name, due), due)
  {
    hide Push, Without, NoDup, Queued, Integral, TickWarm;
    var t := TickWarm(s, due);
    var r := Fire(cfg, s, name, due);
    TickMetered(s, clock, due);
    TickKeeps(s, due);
    FireFields(cfg, s, name, due);
    DelValid(s.queue, name);
    if |r.queue.keys| < |s.queue.keys| {
      EmitMetered(t, r, Cooled, name, due);
    } else {
      SetNewValid(Del(s.queue, name), name, due + cfg.k);
      EmitMetered(t, r, Timer, name, due);
    }
  }

  lemma TickKeeps(s: State, now: Time)
    ensures var r := TickWarm(s, now); r == s.(warmT := Some(now), warmSecs := r.warmSecs)
  {
  }

  lemma {:induction false} AdvanceMetered(cfg: Config, s: State, clock: Time, now: Time)
    requires Ok(cfg) && Inv(cfg, s, clock) && clock <= now && Metered(s, clock)
    ensures Metered(Advance(cfg, s, now), now)
    decreases TotalRounds(cfg.k, s.heap, now)
  {
    hide Push, Without, NoDup, Fire, TickWarm, Metered;
    if s.heap != [] && s.heap[0].due <= now {
      var s0 := s.(heap := s.heap[1..]);
      PopDueDecreases(cfg, s, now);
      HeapAside(s, s0, clock);
      if Live(s) {
        PopLiveInv(cfg, s, clock);
        FireMetered(cfg, s0, clock, s.heap[0].name, s.heap[0].due);
        AdvanceMetered(cfg, PopDue(cfg, s), s.heap[0].due, now);
      } else {
        PopStaleInv(cfg, s, clock);
        AdvanceMetered(cfg, PopDue(cfg, s), clock, now);
      }
    } else {
      TickMetered(s, clock, now);
    }
  }

  /** The account does not look at the table or the heap. */
  lemma HeapAside(s: State, r: State, clock: Time)
    requires Metered(s, clock) && r == s.(table := r.table, heap := r.heap)
    ensures Metered(r, clock)
  {
  }

  lemma RoomyMetered(cfg: Config, s: State, name: Name, clock: Time)
    requires Ok(cfg) && Inv(cfg, s, clock) && Metered(s, clock) && (s.counting ==> s.warmT.Some?)
    ensures var r := Roomy(cfg, s, clock); Metered(r, clock) && r.counting == s.counting && r.warmT == s.warmT
  {
    hide Push, Without, NoDup, HeapInv, Metered;
    if |s.queue.keys| >= cfg.maxWarm {
      var v := Victim(s.queue.keys, s.table);
      DelValid(s.queue, v);
      EmitMetered(s, Roomy(cfg, s, clock), Evicted(Get(s.queue, v)), v, clock);
    }
  }

  lemma PromoteMetered(cfg: Config, s: State, name: Name, clock: Time)
    requires Ok(cfg) && Inv(cfg, s, clock) && Metered(s, clock) && (s.counting ==> s.warmT.Some?)
    requires name in s.table && !s.table[name].warm
    ensures Metered(Promote(cfg, s, name, clock), clock)
  {
    hide Push, Without, NoDup, Promote, HeapInv, Metered;
    var s2 := Roomy(cfg, s, clock);
    var r := Promote(cfg, s, name, clock);
    RoomyInv(cfg, s, name, clock);
    RoomyMetered(cfg, s, name, clock);
    PromoteFields(cfg, s, name, clock);
    PromoteKeeps(cfg, s, name, clock);
    RoomyKeeps(cfg, s, clock);
    SetNewValid(s2.queue, name, FirstDue(cfg, s2.table[name], clock));
    EmitMetered(s2, r, r.log[|s2.log|].what, name, clock);
  }

  lemma RoomyKeeps(cfg: Config, s: State, clock: Time)
    requires Linked(s) && Valid(s.queue) && cfg.maxWarm >= 1
    ensures Roomy(cfg, s, clock).warmSecs == s.warmSecs
  {
  }

  lemma ServeMetered(cfg: Config, s: State, name: Name, clock: Time)
    requires name in s.table && Metered(s, clock) && (s.counting ==> s.warmT.Some?)
    ensures Metered(Serve(cfg, s, name, clock), clock)
  {
    hide Queued, Integral, Marked, Metered;
    var r := Serve(cfg, s, name, clock);
    var one := Emit(s, r.log[|s.log|].what, name, clock);
    EmitMetered(s, one, r.log[|s.log|].what, name, clock);
    if |r.log| == |s.log| + 2 {
      var two := Emit(one, r.log[|s.log| + 1].what, name, clock);
      EmitMetered(one, two, r.log[|s.log| + 1].what, name, clock);
      assert r == two.(table := r.table);
      HeapAside(two, r, clock);
    } else {
      assert r == one.(table := r.table);
      HeapAside(one, r, clock);
    }
  }

  lemma AnsweredMetered(cfg: Config, s: State, name: Name, clock: Time, fail: bool)
    requires Ok(cfg) && Inv(cfg, s, clock) && Metered(s, clock) && (s.counting ==> s.warmT.Some?)
    ensures Metered(Answered(cfg, s, name, clock, fail), clock)
  {
    hide Push, Without, NoDup, Promote, Serve, HeapInv, Metered;
    var s1 := Emit(s, Looked, name, clock);
    var r := Answered(cfg, s, name, clock, fail);
    EmitMetered(s, s1, Looked, name, clock);
    if fail || name !in s.table {
      EmitMetered(s1, r, r.log[|s1.log|].what, name, clock);
    } else {
      ServeFields(cfg, s1, name, clock);
      ServeInv(cfg, s1, name, clock);
      ServeMetered(cfg, s1, name, clock);
      if Promotes(cfg, s.table[name], clock - s.table[name].lastUsed) {
        PromoteMetered(cfg, Serve(cfg, s1, name, clock), name, clock);
      }
    }
  }

  lemma StepMetered(cfg: Config, s: State, clock: Time, op: Op)
    requires Ok(cfg) && Inv(cfg, s, clock) && Legal(op, clock, s.counting) && Metered(s, clock)
    ensures op.Look? ==> Inv(cfg, Advance(cfg, s, op.at), op.at)
    ensures Metered(Step(cfg, s, op), ClockAfter(op, clock))
  {
    hide Answered, Advance, Promote, NoDup, HeapInv, Metered;
    match op
    case Look(name, at, fail) =>
      AdvanceInv(cfg, s, clock, at);
      AdvanceMetered(cfg, s, clock, at);
      AdvanceCounting(cfg, s, at);
      AnsweredMetered(cfg, Advance(cfg, s, at), name, at, fail);
    case Tick(at) =>
      AdvanceMetered(cfg, s, clock, at);
    case Seed(name, lastUsed, warm) =>
      if name !in s.table {
        var s1 := SeedEntry(s, name, lastUsed);
        assert Inv(cfg, s1, clock);
        SeedMetered(s, name, lastUsed, clock);
        if warm && cfg.window > 0.0 {
          PromoteMetered(cfg, s1, name, clock);
        }
      }
    case Begin(at) =>
      BeginMetered(s, clock);
  }

  lemma SeedMetered(s: State, name: Name, lastUsed: Time, clock: Time)
    requires Metered(s, clock) && !s.counting
    ensures Metered(SeedEntry(s, name, lastUsed), clock)
  {
    IntegralAppend(s.log, Event(false, Seeded, name, lastUsed));
    IntegralLater(s.log, clock, lastUsed);
    IntegralLater(s.log + [Event(false, Seeded, name, lastUsed)], lastUsed, clock);
  }

  lemma BeginMetered(s: State, clock: Time)
    requires Metered(s, clock)
    ensures Metered(BeginCounting(s, clock), clock)
  {
    IntegralAppend(s.log, Event(true, CountFrom(|s.queue.keys|), [], clock));
  }

  lemma {:induction false} RunMetered(cfg: Config, s: State, clock: Time, ops: seq<Op>)
    requires Ok(cfg) && Inv(cfg, s, clock) && Timely(ops, clock, s.counting) && Metered(s, clock)
    ensures Metered(Run(cfg, s, clock, ops), EndClock(ops, clock))
    decreases |ops|
  {
    hide Step, Metered;
    if ops != [] {
      StepInv(cfg, s, clock, ops[0]);
      StepMetered(cfg, s, clock, ops[0]);
      RunMetered(cfg, Step(cfg, s, ops[0]), ClockAfter(ops[0], clock), ops[1..]);
    }
  }

  /**
   * Over every run the log tells the length of the queue, and `warm_secs` is the integral of that length over the time
   * since counting began, however many timers fired and wherever time was looked at.
   */
  lemma WarmSecsIsIntegral(cfg: Config, counting: bool, clock: Time, ops: seq<Op>)
    requires Ok(cfg) && Timely(ops, clock, counting)
    ensures Inv(cfg, Start(counting), clock)
    ensures var r := Run(cfg, Start(counting), clock, ops);
      |r.queue.keys| == Queued(r.log) && r.warmSecs == Integral(r.log, EndClock(ops, clock))
  {
    hide Run;
    StartInv(cfg, clock, counting);
    RunMetered(cfg, Start(counting), clock, ops);
  }
}
