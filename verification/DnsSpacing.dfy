/** How close together one name can be resolved. */
module DnsSpacing {
  import opened Names
  import opened OrderedDict
  import opened Heap
  import opened DnsModel
  import opened DnsRun

  /** Resolutions a request brought about: ahead of expiry, behind an old answer, or a miss it waited for. */
  predicate OnDemand(what: What) {
    what.Ask? || what.Stale? || (what.Miss? && what.kind != Negative)
  }

  predicate Resolves(what: What) {
    what.Timer? || OnDemand(what)
  }

  /** A request resolves no answer younger than this: it would be a hit short of `k`. */
  function Gap(cfg: Config): Time {
    if cfg.k < cfg.ttl then cfg.k else cfg.ttl
  }

  /** `f` may follow `e`: timers of a name are a period apart, and a request resolves only an answer that old. */
  predicate Apart(cfg: Config, e: Event, f: Event) {
    e.name == f.name ==>
      && (e.what.Timer? && f.what.Timer? ==> e.at + cfg.k <= f.at)
      && (Resolves(e.what) && OnDemand(f.what) ==> e.at + Gap(cfg) <= f.at)
  }

  ghost predicate Spaced(cfg: Config, log: seq<Event>) {
    forall i, j :: 0 <= i < j < |log| ==> Apart(cfg, log[i], log[j])
  }

  /** Every resolution is reflected in the table, and every timer in the queue. */
  ghost predicate Traced(cfg: Config, s: State, e: Event) {
    && (Resolves(e.what) ==> e.name in s.table && e.at <= s.table[e.name].resolvedAt)
    && (e.what.Timer? && e.name in s.queue.due ==> e.at + cfg.k <= s.queue.due[e.name])
  }

  ghost predicate Spread(cfg: Config, s: State) {
    Spaced(cfg, s.log) && forall e :: e in s.log ==> Traced(cfg, s, e)
  }

  lemma SpacedAppend(cfg: Config, log: seq<Event>, f: Event)
    requires Spaced(cfg, log) && forall e :: e in log ==> Apart(cfg, e, f)
    ensures Spaced(cfg, log + [f])
  {
  }

  lemma PopSpread(cfg: Config, s: State, clock: Time)
    requires Ok(cfg) && Inv(cfg, s, clock) && s.heap != [] && Spread(cfg, s)
    ensures Spread(cfg, PopDue(cfg, s))
  {
    hide Push, Without, NoDup, Fire, Sorted, Spaced, Valid;
    if Live(s) {
      LiveDue(cfg, s, clock);
      FireSpread(cfg, s.(heap := s.heap[1..]), s.heap[0].name, s.heap[0].due);
    }
  }

  lemma FireSpread(cfg: Config, s: State, name: Name, due: Time)
    requires Ok(cfg) && Linked(s) && Valid(s.queue) && name in s.queue.due && s.queue.due[name] == due
    requires Spread(cfg, s) && s.table[name].resolvedAt <= due
    ensures Spread(cfg, Fire(cfg, s, name, due))
  {
    hide Push, Without, NoDup, Fire, Spaced, Set, Del, Valid;
    var r := Fire(cfg, s, name, due);
    FireFields(cfg, s, name, due);
    DelValid(s.queue, name);
    RequeueDues(s.queue, name, due + cfg.k);
    SpacedAppend(cfg, s.log, r.log[|s.log|]);
  }

  lemma {:induction false} AdvanceSpread(cfg: Config, s: State, clock: Time, now: Time)
    requires Ok(cfg) && Inv(cfg, s, clock) && clock <= now && Spread(cfg, s)
    ensures Spread(cfg, Advance(cfg, s, now))
    decreases TotalRounds(cfg.k, s.heap, now)
  {
    hide Push, Without, NoDup, PopDue, Spaced;
    if s.heap != [] && s.heap[0].due <= now {
      PopDueDecreases(cfg, s, now);
      PopSpread(cfg, s, clock);
      if Live(s) {
        PopLiveInv(cfg, s, clock);
        AdvanceSpread(cfg, PopDue(cfg, s), s.heap[0].due, now);
      } else {
        PopStaleInv(cfg, s, clock);
        AdvanceSpread(cfg, PopDue(cfg, s), clock, now);
      }
    }
  }

  lemma ServeSpread(cfg: Config, s: State, name: Name, now: Time)
    requires Ok(cfg) && Inv(cfg, s, now) && Spread(cfg, s) && name in s.table
    ensures Spread(cfg, Serve(cfg, s, name, now))
  {
    hide HeapInv, NoDup, Spread, Emit, QueueInv;
    var e := s.table[name].(lastUsed := now);
    var age := now - e.resolvedAt;
    var renewed := e.(resolvedAt := now);
    PutSpread(cfg, s, name, e);
    assert e.resolvedAt <= now;
    if e.hasAddrs && age < cfg.ttl {
      var s1 := Emit(Put(s, name, e), Hit, name, now);
      EmitSpread(cfg, Put(s, name, e), Hit, name, now);
      if age >= cfg.k {
        assert s1.table == Put(s, name, e).table by { EmitTable(Put(s, name, e), Hit, name, now); }
        RenewSpread(cfg, s1, name, renewed, Ask(e.warm), now);
      }
    } else {
      assert e.hasAddrs by { HasAddrs(cfg, s, name, now); }
      PutPut(s.table, name, e, renewed);
      RenewSpread(cfg, Put(s, name, e), name, renewed, Stale(e.warm, age), now);
      RenewSpread(cfg, Put(s, name, e), name, renewed, Miss(if e.warm then WarmStale else Expired), now);
      assert e.(resolvedAt := now, hasAddrs := true) == renewed;
    }
  }

  lemma HasAddrs(cfg: Config, s: State, name: Name, now: Time)
    requires Inv(cfg, s, now) && name in s.table
    ensures s.table[name].hasAddrs
  {
  }

  lemma EmitTable(s: State, what: What, name: Name, at: Time)
    ensures Emit(s, what, name, at).table == s.table
  {
  }

  /** An entry whose answer is as old as before (or younger) keeps the log traced. */
  lemma PutSpread(cfg: Config, s: State, name: Name, e: Entry)
    requires Spread(cfg, s) && name in s.table && s.table[name].resolvedAt <= e.resolvedAt
    ensures Spread(cfg, Put(s, name, e))
  {
    hide Spaced;
  }

  /** A request resolves an answer at least `Gap` old. */
  lemma RenewSpread(cfg: Config, s: State, name: Name, e: Entry, what: What, now: Time)
    requires Spread(cfg, s) && name in s.table && OnDemand(what)
    requires s.table[name].resolvedAt + Gap(cfg) <= now && s.table[name].resolvedAt <= now && e.resolvedAt == now
    ensures Spread(cfg, Emit(Put(s, name, e), what, name, now))
  {
    hide Spaced;
    SpacedAppend(cfg, s.log, Event(s.counting, what, name, now));
  }

  lemma RoomySpread(cfg: Config, s: State, clock: Time)
    requires Ok(cfg) && Inv(cfg, s, clock) && Spread(cfg, s)
    ensures Spread(cfg, Roomy(cfg, s, clock))
  {
    hide Push, Without, NoDup, HeapInv, Spaced;
    if |s.queue.keys| >= cfg.maxWarm {
      var v := Victim(s.queue.keys, s.table);
      DelValid(s.queue, v);
      SpacedAppend(cfg, s.log, Event(s.counting, Evicted(Get(s.queue, v)), v, clock));
    }
  }

  lemma PromoteSpread(cfg: Config, s: State, name: Name, clock: Time)
    requires Ok(cfg) && Inv(cfg, s, clock) && Spread(cfg, s) && name in s.table && !s.table[name].warm
    ensures Spread(cfg, Promote(cfg, s, name, clock))
  {
    hide Push, Without, NoDup, Promote, HeapInv, Spaced;
    var s2 := Roomy(cfg, s, clock);
    RoomyInv(cfg, s, name, clock);
    RoomySpread(cfg, s, clock);
    PromoteFields(cfg, s, name, clock);
    var r := Promote(cfg, s, name, clock);
    SpacedAppend(cfg, s2.log, r.log[|s2.log|]);
  }

  lemma EmitSpread(cfg: Config, s: State, what: What, name: Name, at: Time)
    requires Spread(cfg, s) && !Resolves(what)
    ensures Spread(cfg, Emit(s, what, name, at))
  {
    hide Spaced;
    SpacedAppend(cfg, s.log, Event(s.counting, what, name, at));
  }

  lemma ColdSpread(cfg: Config, s: State, name: Name, now: Time)
    requires Spread(cfg, s) && Linked(s) && name !in s.table
    ensures Spread(cfg, Emit(Put(s, name, Entry(true, now, now, false)), Miss(Cold), name, now))
  {
    hide Spaced;
    SpacedAppend(cfg, s.log, Event(s.counting, Miss(Cold), name, now));
  }

  lemma AnsweredSpread(cfg: Config, s: State, name: Name, clock: Time, fail: bool)
    requires Ok(cfg) && Inv(cfg, s, clock) && Spread(cfg, s)
    ensures Spread(cfg, Answered(cfg, s, name, clock, fail))
  {
    hide Push, Without, NoDup, Promote, HeapInv, Serve, Spaced;
    var s1 := Emit(s, Looked, name, clock);
    EmitSpread(cfg, s, Looked, name, clock);
    if fail {
      EmitSpread(cfg, s1, NegativeHit, name, clock);
      EmitSpread(cfg, s1, Miss(Negative), name, clock);
    } else if name !in s.table {
      ColdSpread(cfg, s1, name, clock);
    } else {
      ServeSpread(cfg, s1, name, clock);
      ServeFields(cfg, s1, name, clock);
      ServeInv(cfg, s1, name, clock);
      if Promotes(cfg, s.table[name], clock - s.table[name].lastUsed) {
        PromoteSpread(cfg, Serve(cfg, s1, name, clock), name, clock);
      }
    }
  }

  lemma SeedSpread(cfg: Config, s: State, name: Name, lastUsed: Time)
    requires Spread(cfg, s) && Linked(s) && name !in s.table
    ensures Spread(cfg, SeedEntry(s, name, lastUsed))
  {
    hide Spaced;
    SpacedAppend(cfg, s.log, Event(s.counting, Seeded, name, lastUsed));
  }

  lemma StepSpread(cfg: Config, s: State, clock: Time, op: Op)
    requires Ok(cfg) && Inv(cfg, s, clock) && Legal(op, clock, s.counting) && Spread(cfg, s)
    ensures op.Look? ==> Inv(cfg, Advance(cfg, s, op.at), op.at)
    ensures Spread(cfg, Step(cfg, s, op))
  {
    hide Answered, Advance, Promote, NoDup, HeapInv, Spaced;
    match op
    case Look(name, at, fail) =>
      AdvanceInv(cfg, s, clock, at);
      AdvanceSpread(cfg, s, clock, at);
      AnsweredSpread(cfg, Advance(cfg, s, at), name, at, fail);
    case Tick(at) =>
      AdvanceSpread(cfg, s, clock, at);
    case Seed(name, lastUsed, warm) =>
      if name !in s.table {
        var s1 := SeedEntry(s, name, lastUsed);
        assert Inv(cfg, s1, clock);
        SeedSpread(cfg, s, name, lastUsed);
        if warm && cfg.window > 0.0 {
          PromoteSpread(cfg, s1, name, clock);
        }
      }
    case Begin(at) =>
      EmitSpread(cfg, s.(counting := true), CountFrom(|s.queue.keys|), [], at);
  }

  lemma {:induction false} RunSpread(cfg: Config, s: State, clock: Time, ops: seq<Op>)
    requires Ok(cfg) && Inv(cfg, s, clock) && Timely(ops, clock, s.counting) && Spread(cfg, s)
    ensures Spread(cfg, Run(cfg, s, clock, ops))
    decreases |ops|
  {
    hide Step, Spread;
    if ops != [] {
      StepInv(cfg, s, clock, ops[0]);
      StepSpread(cfg, s, clock, ops[0]);
      RunSpread(cfg, Step(cfg, s, ops[0]), ClockAfter(ops[0], clock), ops[1..]);
    }
  }

  /**
   * In every run, in both modes and across evictions and re-promotions: two timer refreshes of one name are at least
   * `k` apart, and a request resolves a name only when every earlier resolution of it is at least `k` old (or the
   * TTL, should that be less).
   */
  lemma ResolutionsAreSpaced(cfg: Config, counting: bool, clock: Time, ops: seq<Op>)
    requires Ok(cfg) && Timely(ops, clock, counting)
    ensures Inv(cfg, Start(counting), clock)
    ensures Spaced(cfg, Run(cfg, Start(counting), clock, ops).log)
  {
    hide Run;
    StartInv(cfg, clock, counting);
    RunSpread(cfg, Start(counting), clock, ops);
  }
}
