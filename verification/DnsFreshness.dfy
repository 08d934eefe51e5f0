/** How old the answer of a warm name can get, in each of the two modes of promotion. */
module DnsFreshness {
  import opened Names
  import opened OrderedDict
  import opened Heap
  import opened DnsModel
  import opened DnsRun
  import opened DnsTally

  /**
   * A name is promoted with a new answer or one younger than this: a request within the TTL of the last one finds an
   * answer younger than `k` or has it renewed, and the rule lets only such requests through when the window is that
   * short.
   */
  function PromotionAge(cfg: Config): Time {
    if cfg.rule == Current && cfg.window <= cfg.ttl && cfg.k < cfg.ttl then cfg.k else cfg.ttl
  }

  /** How old the answer of a warm name can get, short of this. Without a TTL all answers are new at promotion. */
  function AgeLimit(cfg: Config): Time {
    if cfg.promoteAt == Answer || cfg.ttl <= 0.0 then cfg.k else PromotionAge(cfg) + cfg.k
  }

  /** The next refresh of a queued name comes while its answer is young enough. */
  ghost predicate DueInTime(cfg: Config, table: map<Name, Entry>, due: map<Name, Time>, clock: Time) {
    forall n :: n in due && n in table ==>
      && cfg.window > 0.0
      && match cfg.promoteAt
         case Now => due[n] <= table[n].resolvedAt + cfg.k || due[n] < table[n].resolvedAt + AgeLimit(cfg)
         case Answer => due[n] <= table[n].resolvedAt + cfg.k || due[n] <= clock
  }

  /** Under these a request for a warm name can miss. */
  predicate CanMissWarm(cfg: Config) {
    cfg.window > 0.0 && cfg.serveStale < AgeLimit(cfg) && cfg.ttl < AgeLimit(cfg)
  }

  /** Under these a request for a warm name can be given an expired answer. */
  predicate CanBeStaleWarm(cfg: Config) {
    cfg.window > 0.0 && cfg.ttl < cfg.serveStale && 0.0 < cfg.serveStale && cfg.ttl < AgeLimit(cfg)
  }

  /** Under these a request for a warm name can bring a refresh ahead of expiry. */
  predicate CanAskWarm(cfg: Config) {
    cfg.window > 0.0 && cfg.k < cfg.ttl && cfg.promoteAt == Now
  }

  /** What a warm name may be answered with. */
  ghost predicate Young(cfg: Config, what: What) {
    match what
    case Miss(WarmStale) => CanMissWarm(cfg)
    case Stale(wasWarm, age) => wasWarm ==> CanBeStaleWarm(cfg) && age < AgeLimit(cfg)
    case Ask(wasWarm) => wasWarm ==> CanAskWarm(cfg)
    case _ => true
  }

  ghost predicate YoungLog(cfg: Config, log: seq<Event>) {
    forall e :: e in log ==> Young(cfg, e.what)
  }

  ghost predicate Fresh(cfg: Config, s: State, clock: Time) {
    DueInTime(cfg, s.table, s.queue.due, clock) && YoungLog(cfg, s.log)
  }

  lemma PopFresh(cfg: Config, s: State, clock: Time)
    requires Ok(cfg) && Inv(cfg, s, clock) && s.heap != [] && Fresh(cfg, s, clock)
    ensures Live(s) ==> Fresh(cfg, PopDue(cfg, s), s.heap[0].due)
    ensures !Live(s) ==> Fresh(cfg, PopDue(cfg, s), clock)
  {
    hide Push, Without, NoDup, Fire, Sorted;
    if Live(s) {
      var p := s.heap[0];
      LiveDue(cfg, s, clock);
      FireFields(cfg, s.(heap := s.heap[1..]), p.name, p.due);
      DelValid(s.queue, p.name);
    }
  }

  lemma {:induction false} AdvanceFresh(cfg: Config, s: State, clock: Time, now: Time)
    requires Ok(cfg) && Inv(cfg, s, clock) && clock <= now && Fresh(cfg, s, clock)
    ensures Fresh(cfg, Advance(cfg, s, now), now)
    decreases TotalRounds(cfg.k, s.heap, now)
  {
    hide Push, Without, NoDup, PopDue, YoungLog;
    if s.heap != [] && s.heap[0].due <= now {
      PopDueDecreases(cfg, s, now);
      PopFresh(cfg, s, clock);
      if Live(s) {
        PopLiveInv(cfg, s, clock);
        AdvanceFresh(cfg, PopDue(cfg, s), s.heap[0].due, now);
      } else {
        PopStaleInv(cfg, s, clock);
        AdvanceFresh(cfg, PopDue(cfg, s), clock, now);
      }
    }
  }

  /**
   * After `advance(now)` the answer of a warm name has age below `AgeLimit`: `k` when promotion goes by the answer.
   */
  lemma WarmAge(cfg: Config, s: State, now: Time, n: Name)
    requires Ok(cfg) && Inv(cfg, s, now) && Fresh(cfg, s, now) && n in s.table && s.table[n].warm
    requires forall m :: m in s.queue.due ==> now < s.queue.due[m]
    ensures now - s.table[n].resolvedAt < AgeLimit(cfg)
  {
    hide HeapInv, EntriesBy, NoDup;
    assert n in s.queue.due;
  }

  /** Young enough to be promoted. */
  predicate YoungAt(cfg: Config, resolvedAt: Time, now: Time) {
    resolvedAt == now || now - resolvedAt < PromotionAge(cfg)
  }

  lemma ServeFresh(cfg: Config, s: State, name: Name, now: Time)
    requires Ok(cfg) && Inv(cfg, s, now) && Fresh(cfg, s, now) && name in s.table
    requires forall m :: m in s.queue.due ==> now < s.queue.due[m]
    ensures Fresh(cfg, Serve(cfg, s, name, now), now)
    ensures Promotes(cfg, s.table[name], now - s.table[name].lastUsed) ==>
              YoungAt(cfg, Serve(cfg, s, name, now).table[name].resolvedAt, now)
  {
    hide HeapInv, NoDup, EntriesBy, DuesWithin, Serve;
    if s.table[name].warm {
      WarmAge(cfg, s, now, name);
    }
    assert s.table[name].hasAddrs && s.table[name].resolvedAt <= now by { Entries(cfg, s, name, now); }
    assert s.table[name].warm ==> cfg.window > 0.0;
    ServeYoung(cfg, s, name, now);
    ServeFields(cfg, s, name, now);
  }

  lemma Entries(cfg: Config, s: State, name: Name, now: Time)
    requires Inv(cfg, s, now) && name in s.table
    ensures s.table[name].hasAddrs && s.table[name].resolvedAt <= now
  {
  }

  /** How a request is answered, from the age of the answer. */
  lemma ServeYoung(cfg: Config, s: State, name: Name, now: Time)
    requires Ok(cfg) && name in s.table && YoungLog(cfg, s.log)
    requires s.table[name].hasAddrs && s.table[name].resolvedAt <= now
    requires s.table[name].warm ==> cfg.window > 0.0
    requires s.table[name].warm ==>
               now - s.table[name].resolvedAt < AgeLimit(cfg)
    ensures YoungLog(cfg, Serve(cfg, s, name, now).log)
    ensures Promotes(cfg, s.table[name], now - s.table[name].lastUsed) ==>
              YoungAt(cfg, Serve(cfg, s, name, now).table[name].resolvedAt, now)
  {
    var r := Serve(cfg, s, name, now);
    assert forall e :: e in r.log ==> e in s.log || Young(cfg, e.what);
  }

  lemma PromoteFresh(cfg: Config, s: State, name: Name, clock: Time)
    requires Ok(cfg) && Inv(cfg, s, clock) && Fresh(cfg, s, clock) && name in s.table && !s.table[name].warm
    requires YoungAt(cfg, s.table[name].resolvedAt, clock) && cfg.window > 0.0
    ensures Fresh(cfg, Promote(cfg, s, name, clock), clock)
  {
    hide Push, Without, NoDup, Promote, HeapInv;
    RoomyInv(cfg, s, name, clock);
    RoomyFresh(cfg, s, clock);
    PromoteFields(cfg, s, name, clock);
  }

  lemma RoomyFresh(cfg: Config, s: State, clock: Time)
    requires Ok(cfg) && Inv(cfg, s, clock) && Fresh(cfg, s, clock)
    ensures Fresh(cfg, Roomy(cfg, s, clock), clock)
  {
    hide Push, Without, NoDup, HeapInv;
    if |s.queue.keys| >= cfg.maxWarm {
      DelValid(s.queue, Victim(s.queue.keys, s.table));
    }
  }

  lemma AnsweredFresh(cfg: Config, s: State, name: Name, clock: Time, fail: bool)
    requires Ok(cfg) && Inv(cfg, s, clock) && Fresh(cfg, s, clock)
    requires forall m :: m in s.queue.due ==> clock < s.queue.due[m]
    ensures Fresh(cfg, Answered(cfg, s, name, clock, fail), clock)
  {
    hide Push, Without, NoDup, Promote, HeapInv, Serve;
    var s1 := Emit(s, Looked, name, clock);
    if !fail && name in s.table {
      ServeFresh(cfg, s1, name, clock);
      ServeFields(cfg, s1, name, clock);
      ServeInv(cfg, s1, name, clock);
      if Promotes(cfg, s.table[name], clock - s.table[name].lastUsed) {
        PromoteFresh(cfg, Serve(cfg, s1, name, clock), name, clock);
      }
    }
  }

  lemma StepFresh(cfg: Config, s: State, clock: Time, op: Op)
    requires Ok(cfg) && Inv(cfg, s, clock) && Legal(op, clock, s.counting) && Fresh(cfg, s, clock)
    ensures op.Look? ==> Inv(cfg, Advance(cfg, s, op.at), op.at)
    ensures Fresh(cfg, Step(cfg, s, op), ClockAfter(op, clock))
  {
    hide Answered, Advance, Promote, NoDup, HeapInv;
    match op
    case Look(name, at, fail) =>
      AdvanceInv(cfg, s, clock, at);
      AdvanceFresh(cfg, s, clock, at);
      AnsweredFresh(cfg, Advance(cfg, s, at), name, at, fail);
    case Tick(at) =>
      AdvanceFresh(cfg, s, clock, at);
    case Seed(name, lastUsed, warm) =>
      if name !in s.table && warm && cfg.window > 0.0 {
        var s1 := SeedEntry(s, name, lastUsed);
        assert Inv(cfg, s1, clock);
        PromoteFresh(cfg, s1, name, clock);
      }
    case Begin(at) =>
  }

  lemma {:induction false} RunFresh(cfg: Config, s: State, clock: Time, ops: seq<Op>)
    requires Ok(cfg) && Inv(cfg, s, clock) && Timely(ops, clock, s.counting) && Fresh(cfg, s, clock)
    ensures Fresh(cfg, Run(cfg, s, clock, ops), EndClock(ops, clock))
    decreases |ops|
  {
    hide Step, Fresh;
    if ops != [] {
      StepInv(cfg, s, clock, ops[0]);
      StepFresh(cfg, s, clock, ops[0]);
      RunFresh(cfg, Step(cfg, s, ops[0]), ClockAfter(ops[0], clock), ops[1..]);
    }
  }

  lemma CountYoung(c: Counters, e: Event)
    ensures e.what != Miss(WarmStale) ==> Count(c, e).warmStale == c.warmStale
    ensures !(e.what.Stale? && e.what.wasWarm) ==> Count(c, e).staleHitsWarm == c.staleHitsWarm
  {
  }

  lemma {:induction false} NoOldAnswers(cfg: Config, log: seq<Event>)
    requires YoungLog(cfg, log)
    ensures Tally(log).warmStale > 0 ==> CanMissWarm(cfg)
    ensures Tally(log).staleHitsWarm > 0 ==> CanBeStaleWarm(cfg)
  {
    hide Count;
    if log != [] {
      var last := |log| - 1;
      assert forall e :: e in log[..last] ==> e in log;
      NoOldAnswers(cfg, log[..last]);
      assert Young(cfg, log[last].what);
      CountYoung(Tally(log[..last]), log[last]);
    }
  }

  /**
   * In every run: a warm name's answer stays younger than `AgeLimit`, and warm names miss, are given old answers or
   * are refreshed ahead on demand only under the settings said to allow it.
   */
  lemma WarmNamesAreFresh(cfg: Config, counting: bool, clock: Time, ops: seq<Op>)
    requires Ok(cfg) && Timely(ops, clock, counting)
    ensures Inv(cfg, Start(counting), clock)
    ensures var log := Run(cfg, Start(counting), clock, ops).log;
      && (Tally(log).warmStale > 0 ==> CanMissWarm(cfg))
      && (Tally(log).staleHitsWarm > 0 ==> CanBeStaleWarm(cfg))
      && (forall e :: e in log && e.what == Ask(true) ==> CanAskWarm(cfg))
      && (forall e :: e in log && e.what.Stale? && e.what.wasWarm ==> e.what.age < AgeLimit(cfg))
  {
    hide Run, Tally;
    StartInv(cfg, clock, counting);
    RunFresh(cfg, Start(counting), clock, ops);
    NoOldAnswers(cfg, Run(cfg, Start(counting), clock, ops).log);
  }
}
