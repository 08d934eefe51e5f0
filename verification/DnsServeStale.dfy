/** Serving old answers only relabels: two runs that differ in `serve_stale` alone go through the same states. */
module DnsServeStale {
  import opened Names
  import opened OrderedDict
  import opened Heap
  import opened DnsModel
  import opened DnsRun
  import opened DnsTally

  /** Two settings alike but for a longer window for old answers in the second. */
  ghost predicate Longer(a: Config, b: Config) {
    b == a.(serveStale := b.serveStale) && a.serveStale <= b.serveStale
  }

  /** All but the log. */
  ghost predicate SameTable(s: State, r: State) {
    s.(log := []) == r.(log := [])
  }

  /** The same event, or a miss on an expired answer that the longer window serves, refreshing behind it. */
  ghost predicate Relabelled(a: Config, b: Config, e: Event, f: Event) {
    || e == f
    || (&& f.what.Stale?
        && e == f.(what := Miss(if f.what.wasWarm then WarmStale else Expired))
        && a.serveStale <= f.what.age < b.serveStale && a.ttl <= f.what.age)
  }

  ghost predicate RelabelledLog(a: Config, b: Config, s: seq<Event>, r: seq<Event>) {
    |s| == |r| && forall i :: 0 <= i < |s| ==> Relabelled(a, b, s[i], r[i])
  }

  ghost predicate Related(a: Config, b: Config, s: State, r: State) {
    SameTable(s, r) && RelabelledLog(a, b, s.log, r.log)
  }

  lemma RelabelledAppend(a: Config, b: Config, s: seq<Event>, r: seq<Event>, e: Event, f: Event)
    requires RelabelledLog(a, b, s, r) && Relabelled(a, b, e, f)
    ensures RelabelledLog(a, b, s + [e], r + [f])
  {
  }

  lemma PopRelated(a: Config, b: Config, s: State, r: State)
    requires Longer(a, b) && Related(a, b, s, r) && Linked(s) && Linked(r) && s.heap != []
    ensures Related(a, b, PopDue(a, s), PopDue(b, r))
  {
    hide Push, Without, RelabelledLog, Fire;
    var p := s.heap[0];
    if Live(s) {
      FireFields(a, s.(heap := s.heap[1..]), p.name, p.due);
      FireFields(b, r.(heap := r.heap[1..]), p.name, p.due);
      var timer := Event(s.counting, Timer, p.name, p.due);
      var cooled := Event(s.counting, Cooled, p.name, p.due);
      RelabelledAppend(a, b, s.log, r.log, timer, timer);
      RelabelledAppend(a, b, s.log, r.log, cooled, cooled);
    }
  }

  lemma {:induction false} AdvanceRelated(a: Config, b: Config, s: State, r: State, now: Time)
    requires Longer(a, b) && a.k > 0.0 && Related(a, b, s, r) && Linked(s) && Linked(r)
    ensures Related(a, b, Advance(a, s, now), Advance(b, r, now))
    decreases TotalRounds(a.k, s.heap, now)
  {
    hide Push, Without, RelabelledLog, PopDue;
    if s.heap != [] && s.heap[0].due <= now {
      PopDueDecreases(a, s, now);
      PopDueDecreases(b, r, now);
      PopRelated(a, b, s, r);
      AdvanceRelated(a, b, PopDue(a, s), PopDue(b, r), now);
    }
  }

  lemma PromoteRelated(a: Config, b: Config, s: State, r: State, name: Name, now: Time)
    requires Longer(a, b) && Ok(a) && Related(a, b, s, r)
    requires Linked(s) && Valid(s.queue) && name in s.table && name !in s.queue.due
    ensures Related(a, b, Promote(a, s, name, now), Promote(b, r, name, now))
  {
    hide Push, Without, RelabelledLog, NoDup, Promote;
    PromoteFields(a, s, name, now);
    PromoteFields(b, r, name, now);
    if |s.queue.keys| >= a.maxWarm {
      var v := Victim(s.queue.keys, s.table);
      var e := Event(s.counting, Evicted(Get(s.queue, v)), v, now);
      RelabelledAppend(a, b, s.log, r.log, e, e);
    }
    var s2 := Roomy(a, s, now);
    var what := Promoted(FirstDue(a, s2.table[name], now), |Promote(a, s, name, now).queue.keys|);
    var e := Event(s.counting, what, name, now);
    RelabelledAppend(a, b, s2.log, Roomy(b, r, now).log, e, e);
  }

  lemma ServeRelated(a: Config, b: Config, s: State, r: State, name: Name, now: Time)
    requires Longer(a, b) && Related(a, b, s, r) && name in s.table && s.table[name].hasAddrs
    ensures Related(a, b, Serve(a, s, name, now), Serve(b, r, name, now))
  {
    hide RelabelledLog, Emit, Relabelled;
    var e := s.table[name].(lastUsed := now);
    var age := now - e.resolvedAt;
    PutRelated(a, b, s, r, name, e);
    var s1, r1 := Put(s, name, e), Put(r, name, e);
    EmitRelated(a, b, s1, r1, Hit, name, now);
    var fresh1 := e.(resolvedAt := now);
    var hitS, hitR := Emit(s1, Hit, name, now), Emit(r1, Hit, name, now);
    PutRelated(a, b, hitS, hitR, name, fresh1);
    EmitRelated(a, b, Put(hitS, name, fresh1), Put(hitR, name, fresh1), Ask(e.warm), name, now);
    PutRelated(a, b, s, r, name, fresh1);
    var s2, r2 := Put(s, name, fresh1), Put(r, name, fresh1);
    EmitRelated(a, b, s2, r2, Stale(e.warm, age), name, now);
    EmitRelated(a, b, s2, r2, Miss(if e.warm then WarmStale else Expired), name, now);
    if age >= a.ttl && a.serveStale <= age < b.serveStale {
      MissRelated(a, b, s2, r2, e.warm, age, name, now);
    }
    assert e.(resolvedAt := now, hasAddrs := true) == fresh1;
  }

  lemma PutRelated(a: Config, b: Config, s: State, r: State, name: Name, e: Entry)
    requires Related(a, b, s, r)
    ensures Related(a, b, Put(s, name, e), Put(r, name, e))
  {
    hide RelabelledLog;
  }

  lemma MissRelated(a: Config, b: Config, s: State, r: State, warm: bool, age: Time, name: Name, at: Time)
    requires Related(a, b, s, r) && a.serveStale <= age < b.serveStale && a.ttl <= age
    ensures Related(a, b, Emit(s, Miss(if warm then WarmStale else Expired), name, at),
                    Emit(r, Stale(warm, age), name, at))
  {
    hide RelabelledLog;
    RelabelledAppend(a, b, s.log, r.log, Event(s.counting, Miss(if warm then WarmStale else Expired), name, at),
                     Event(s.counting, Stale(warm, age), name, at));
  }

  lemma EmitRelated(a: Config, b: Config, s: State, r: State, what: What, name: Name, at: Time)
    requires Related(a, b, s, r)
    ensures Related(a, b, Emit(s, what, name, at), Emit(r, what, name, at))
  {
    hide RelabelledLog;
    var e := Event(s.counting, what, name, at);
    RelabelledAppend(a, b, s.log, r.log, e, e);
  }

  lemma AnsweredRelated(a: Config, b: Config, s: State, r: State, name: Name, now: Time, fail: bool)
    requires Longer(a, b) && Ok(a) && Related(a, b, s, r) && Inv(a, s, now)
    ensures Related(a, b, Answered(a, s, name, now, fail), Answered(b, r, name, now, fail))
  {
    hide Push, Without, RelabelledLog, NoDup, Promote, Serve, HeapInv;
    var s1 := Emit(s, Looked, name, now);
    var r1 := Emit(r, Looked, name, now);
    EmitRelated(a, b, s, r, Looked, name, now);
    if fail {
      EmitRelated(a, b, s1, r1, NegativeHit, name, now);
      EmitRelated(a, b, s1, r1, Miss(Negative), name, now);
    } else if name !in s.table {
      EmitRelated(a, b, s1, r1, Miss(Cold), name, now);
    } else {
      ServeRelated(a, b, s1, r1, name, now);
      ServeFields(a, s1, name, now);
      if Promotes(a, s.table[name], now - s.table[name].lastUsed) {
        PromoteRelated(a, b, Serve(a, s1, name, now), Serve(b, r1, name, now), name, now);
      }
    }
  }

  lemma StepRelated(a: Config, b: Config, s: State, r: State, clock: Time, op: Op)
    requires Longer(a, b) && Ok(a) && Related(a, b, s, r) && Inv(a, s, clock) && Inv(b, r, clock)
    requires Legal(op, clock, s.counting)
    ensures op.Look? ==> Inv(a, Advance(a, s, op.at), op.at) && Inv(b, Advance(b, r, op.at), op.at)
    ensures Related(a, b, Step(a, s, op), Step(b, r, op))
  {
    hide Answered, Advance, Promote, RelabelledLog;
    match op
    case Look(name, at, fail) =>
      AdvanceInv(a, s, clock, at);
      AdvanceInv(b, r, clock, at);
      AdvanceRelated(a, b, s, r, at);
      AnsweredRelated(a, b, Advance(a, s, at), Advance(b, r, at), name, at, fail);
    case Tick(at) =>
      AdvanceRelated(a, b, s, r, at);
    case Seed(name, lastUsed, warm) =>
      if name !in s.table {
        var e := Entry(true, lastUsed, lastUsed, false);
        PutRelated(a, b, s, r, name, e);
        EmitRelated(a, b, Put(s, name, e), Put(r, name, e), Seeded, name, lastUsed);
        if warm && a.window > 0.0 {
          PromoteRelated(a, b, SeedEntry(s, name, lastUsed), SeedEntry(r, name, lastUsed), name, lastUsed);
        }
      }
    case Begin(at) =>
      EmitRelated(a, b, s.(counting := true), r.(counting := true), CountFrom(|s.queue.keys|), [], at);
  }

  /** Whatever the arrivals, the two runs pass through the same states, and their logs differ only in labels. */
  lemma {:induction false} RunRelated(a: Config, b: Config, s: State, r: State, clock: Time, ops: seq<Op>)
    requires Longer(a, b) && Ok(a) && Related(a, b, s, r) && Inv(a, s, clock) && Inv(b, r, clock)
    requires Timely(ops, clock, s.counting)
    ensures Related(a, b, Run(a, s, clock, ops), Run(b, r, clock, ops))
    decreases |ops|
  {
    hide Step, RelabelledLog;
    if ops != [] {
      StepInv(a, s, clock, ops[0]);
      StepInv(b, r, clock, ops[0]);
      StepRelated(a, b, s, r, clock, ops[0]);
      RunRelated(a, b, Step(a, s, ops[0]), Step(b, r, ops[0]), ClockAfter(ops[0], clock), ops[1..]);
    }
  }

  /** What the longer window does to the counters: misses turn into old answers, one for one, each with a refresh. */
  ghost predicate Shifted(c: Counters, d: Counters) {
    && d.lookups == c.lookups && d.hits == c.hits && d.negativeHits == c.negativeHits
    && d.cold == c.cold && d.negative == c.negative
    && d.misses + d.staleHits == c.misses + c.staleHits && d.misses <= c.misses
    && d.warmStale + d.staleHitsWarm == c.warmStale + c.staleHitsWarm && d.warmStale <= c.warmStale
    && d.expired + (d.staleHits - d.staleHitsWarm) == c.expired + (c.staleHits - c.staleHitsWarm)
    && d.expired <= c.expired
    && d.refreshes - d.refreshStale == c.refreshes - c.refreshStale
    && d.refreshWarm == c.refreshWarm && d.refreshAsk == c.refreshAsk
    && d.refreshStale == d.staleHits && c.refreshStale == c.staleHits
    && d.promotes == c.promotes && d.warmEvicted == c.warmEvicted && d.warmMax == c.warmMax
  }

  lemma CountShifted(a: Config, b: Config, c: Counters, d: Counters, e: Event, f: Event)
    requires Shifted(c, d) && Relabelled(a, b, e, f)
    ensures Shifted(Count(c, e), Count(d, f))
  {
    if e == f {
      CountSame(c, d, e);
    } else {
      CountRelabelled(c, d, e, f);
    }
  }

  lemma CountSame(c: Counters, d: Counters, e: Event)
    requires Shifted(c, d)
    ensures Shifted(Count(c, e), Count(d, e))
  {
    if e.what.Miss? {
      MissSame(c, d, e);
    } else if e.what.Stale? {
      StaleSame(c, d, e);
    }
  }

  lemma MissSame(c: Counters, d: Counters, e: Event)
    requires Shifted(c, d) && e.what.Miss?
    ensures Shifted(Count(c, e), Count(d, e))
  {
  }

  lemma StaleSame(c: Counters, d: Counters, e: Event)
    requires Shifted(c, d) && e.what.Stale?
    ensures Shifted(Count(c, e), Count(d, e))
  {
  }

  lemma CountRelabelled(c: Counters, d: Counters, e: Event, f: Event)
    requires Shifted(c, d) && f.what.Stale? && e == f.(what := Miss(if f.what.wasWarm then WarmStale else Expired))
    ensures Shifted(Count(c, e), Count(d, f))
  {
  }

  lemma {:induction false} TallyShifted(a: Config, b: Config, s: seq<Event>, r: seq<Event>)
    requires RelabelledLog(a, b, s, r)
    ensures Shifted(Tally(s), Tally(r))
  {
    hide Count, Shifted, Relabelled;
    if s == [] {
      assert Shifted(ZERO, ZERO) by { ZeroShifted(); }
    } else {
      var last := |s| - 1;
      TallyShifted(a, b, s[..last], r[..last]);
      CountShifted(a, b, Tally(s[..last]), Tally(r[..last]), s[last], r[last]);
    }
  }

  lemma ZeroShifted()
    ensures Shifted(ZERO, ZERO)
  {
  }

  /**
   * Serving old answers is a pure relabelling. For any arrivals, lengthening the window leaves every hit, first miss,
   * remembered failure, timer, promotion, eviction and second of queue time as it was, and turns misses one for one
   * into old answers with one refresh each; so misses never rise as the window grows.
   */
  lemma ServeStaleOnlyRelabels(a: Config, b: Config, counting: bool, clock: Time, ops: seq<Op>)
    requires Longer(a, b) && Ok(a) && Timely(ops, clock, counting)
    ensures Inv(a, Start(counting), clock) && Inv(b, Start(counting), clock)
    ensures var s := Run(a, Start(counting), clock, ops); var r := Run(b, Start(counting), clock, ops);
      && s.table == r.table && s.queue == r.queue && s.heap == r.heap && s.negative == r.negative
      && s.warmSecs == r.warmSecs && RelabelledLog(a, b, s.log, r.log)
      && Shifted(Tally(s.log), Tally(r.log))
  {
    hide Run, Shifted;
    var s0 := Start(counting);
    StartInv(a, clock, counting);
    StartInv(b, clock, counting);
    RunRelated(a, b, s0, s0, clock, ops);
    TallyShifted(a, b, Run(a, s0, clock, ops).log, Run(b, s0, clock, ops).log);
  }
}
