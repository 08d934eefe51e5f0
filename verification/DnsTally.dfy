/** The counters of the table, read off its log, and the laws they obey. */
module DnsTally {
  import opened Names
  import opened OrderedDict
  import opened Heap
  import opened DnsModel
  import opened DnsRun

  datatype Counters = Counters(
    lookups: nat, hits: nat, misses: nat, negativeHits: nat,
    cold: nat, expired: nat, warmStale: nat, negative: nat,
    refreshes: nat, refreshWarm: nat, refreshAsk: nat,
    staleHits: nat, refreshStale: nat, staleHitsWarm: nat, staleAgeSum: Time, staleAgeMax: Time,
    promotes: nat, warmEvicted: nat, warmMax: nat)

  const ZERO := Counters(0, 0, 0, 0, 0, 0, 0, 0, 0, 0, 0, 0, 0, 0, 0.0, 0.0, 0, 0, 0)

  function Max(a: nat, b: nat): nat {
    if a >= b then a else b
  }

  function CountMiss(c: Counters, kind: MissKind): Counters {
    var c1 := c.(misses := c.misses + 1);
    match kind
    case Cold => c1.(cold := c.cold + 1)
    case Expired => c1.(expired := c.expired + 1)
    case WarmStale => c1.(warmStale := c.warmStale + 1)
    case Negative => c1.(negative := c.negative + 1)
  }

  function Count(c: Counters, e: Event): Counters {
    if !e.counted then c
    else match e.what
      case Looked => c.(lookups := c.lookups + 1)
      case Hit => c.(hits := c.hits + 1)
      case NegativeHit => c.(negativeHits := c.negativeHits + 1)
      case Miss(kind) => CountMiss(c, kind)
      case Ask(_) => c.(refreshes := c.refreshes + 1, refreshAsk := c.refreshAsk + 1)
      case Stale(wasWarm, age) =>
        c.(staleHits := c.staleHits + 1, staleHitsWarm := c.staleHitsWarm + (if wasWarm then 1 else 0),
           staleAgeSum := c.staleAgeSum + age, staleAgeMax := if age > c.staleAgeMax then age else c.staleAgeMax,
           refreshes := c.refreshes + 1, refreshStale := c.refreshStale + 1)
      case Timer => c.(refreshes := c.refreshes + 1, refreshWarm := c.refreshWarm + 1)
      case Cooled => c
      case Evicted(_) => c.(warmEvicted := c.warmEvicted + 1)
      case Promoted(_, len) => c.(promotes := c.promotes + 1, warmMax := Max(c.warmMax, len))
      case CountFrom(len) => c.(warmMax := len)
      case Seeded => c
  }

  function Tally(log: seq<Event>): Counters {
    if log == [] then ZERO else Count(Tally(log[..|log| - 1]), log[|log| - 1])
  }

  predicate IsRefresh(what: What) {
    what.Ask? || what.Stale? || what.Timer?
  }

  /** `per_name[n]`: the counted refreshes of one name. */
  function RefreshesOf(log: seq<Event>, n: Name): nat {
    if log == [] then 0
    else
      var e := log[|log| - 1];
      RefreshesOf(log[..|log| - 1], n) + if e.counted && IsRefresh(e.what) && e.name == n then 1 else 0
  }

  lemma TallyAppend(log: seq<Event>, e: Event)
    ensures Tally(log + [e]) == Count(Tally(log), e)
    ensures forall n :: RefreshesOf(log + [e], n) ==
                        RefreshesOf(log, n) + if e.counted && IsRefresh(e.what) && e.name == n then 1 else 0
  {
    assert (log + [e])[..|log|] == log;
  }

  lemma CountTimer(c: Counters, e: Event)
    ensures Count(c, e).refreshWarm == c.refreshWarm + if e.counted && e.what.Timer? then 1 else 0
  {
  }

  function TotalRefreshes(log: seq<Event>, names: seq<Name>): nat {
    if names == [] then 0 else RefreshesOf(log, names[0]) + TotalRefreshes(log, names[1..])
  }

  lemma {:induction false} TotalRefreshesAppend(log: seq<Event>, e: Event, names: seq<Name>)
    requires NoDup(names)
    ensures TotalRefreshes(log + [e], names) ==
            TotalRefreshes(log, names) + if e.counted && IsRefresh(e.what) && e.name in names then 1 else 0
  {
    if names != [] {
      TallyAppend(log, e);
      TotalRefreshesAppend(log, e, names[1..]);
      assert names == [names[0]] + names[1..];
      assert names[0] !in names[1..];
    }
  }

  lemma {:induction false} NoRefreshes(names: seq<Name>)
    ensures TotalRefreshes([], names) == 0
  {
    if names != [] {
      NoRefreshes(names[1..]);
    }
  }

  ghost predicate AddsUp(c: Counters) {
    && c.misses == c.cold + c.expired + c.warmStale + c.negative
    && c.refreshes == c.refreshWarm + c.refreshAsk + c.refreshStale
    && c.refreshStale == c.staleHits
    && c.staleHitsWarm <= c.staleHits
  }

  lemma CountAddsUp(c: Counters, e: Event)
    requires AddsUp(c)
    ensures AddsUp(Count(c, e))
    ensures Count(c, e).refreshes == c.refreshes + if e.counted && IsRefresh(e.what) then 1 else 0
  {
  }

  /**
   * Whatever was logged: misses add up by kind, refreshes by cause and (over any list of names without repeats
   * that has them all) by name; every old answer served brought exactly one refresh.
   */
  lemma {:induction false} CountersAddUp(log: seq<Event>, names: seq<Name>)
    requires NoDup(names) && forall e :: e in log ==> e.name in names
    ensures AddsUp(Tally(log)) && Tally(log).refreshes == TotalRefreshes(log, names)
  {
    hide Count, AddsUp, IsRefresh, RefreshesOf;
    if log == [] {
      NoRefreshes(names);
      ZeroAddsUp();
    } else {
      var last := |log| - 1;
      assert log == log[..last] + [log[last]];
      CountersAddUp(log[..last], names);
      TotalRefreshesAppend(log[..last], log[last], names);
      CountAddsUp(Tally(log[..last]), log[last]);
    }
  }

  lemma ZeroAddsUp()
    ensures AddsUp(ZERO)
  {
  }

  // ---- every counted lookup has exactly one outcome

  function Outcomes(c: Counters): nat {
    c.hits + c.staleHits + c.negativeHits + c.misses
  }

  /** Hits that brought no refresh ahead of expiry. */
  function Slack(c: Counters): int {
    c.hits - c.refreshAsk
  }

  /** How requests that failed were answered: from memory, by asking. */
  function Failures(c: Counters): (nat, nat) {
    (c.negativeHits, c.negative)
  }

  predicate IsOutcome(what: What) {
    what.Hit? || what.Stale? || what.NegativeHit? || what.Miss?
  }

  lemma CountStep(c: Counters, e: Event)
    ensures var r := Count(c, e);
      && r.lookups == c.lookups + (if e.counted && e.what.Looked? then 1 else 0)
      && Outcomes(r) == Outcomes(c) + (if e.counted && IsOutcome(e.what) then 1 else 0)
      && Slack(r) == Slack(c) + (if !e.counted then 0 else if e.what.Hit? then 1 else if e.what.Ask? then -1 else 0)
      && (!e.counted || !(e.what == NegativeHit || e.what == Miss(Negative)) ==> Failures(r) == Failures(c))
      && r.warmMax == if !e.counted then c.warmMax
                      else if e.what.Promoted? then Max(c.warmMax, e.what.len)
                      else if e.what.CountFrom? then e.what.len
                      else c.warmMax
  {
  }

  /** What one event does to the three numbers the laws below speak of. */
  lemma TallyStep(log: seq<Event>, e: Event)
    ensures var c := Tally(log); var r := Tally(log + [e]);
      && r.lookups == c.lookups + (if e.counted && e.what.Looked? then 1 else 0)
      && Outcomes(r) == Outcomes(c) + (if e.counted && IsOutcome(e.what) then 1 else 0)
      && Slack(r) == Slack(c) + (if !e.counted then 0 else if e.what.Hit? then 1 else if e.what.Ask? then -1 else 0)
      && (!e.counted || !(e.what == NegativeHit || e.what == Miss(Negative)) ==> Failures(r) == Failures(c))
      && r.warmMax == if !e.counted then c.warmMax
                      else if e.what.Promoted? then Max(c.warmMax, e.what.len)
                      else if e.what.CountFrom? then e.what.len
                      else c.warmMax
  {
    hide Count;
    TallyAppend(log, e);
    CountStep(Tally(log), e);
  }

  lemma {:induction false} AdvanceOutcomes(cfg: Config, s: State, now: Time)
    requires cfg.k > 0.0 && Linked(s)
    ensures var r := Tally(Advance(cfg, s, now).log); var c := Tally(s.log);
      && r.lookups == c.lookups && Outcomes(r) == Outcomes(c) && Slack(r) == Slack(c)
      && Failures(r) == Failures(c) && r.warmMax == c.warmMax
    ensures Valid(s.queue) ==>
              Valid(Advance(cfg, s, now).queue) && |Advance(cfg, s, now).queue.keys| <= |s.queue.keys|
    decreases TotalRounds(cfg.k, s.heap, now)
  {
    hide Count, Tally, Outcomes, Slack, Failures, Valid, Push, Without;
    if s.heap != [] && s.heap[0].due <= now {
      PopDueDecreases(cfg, s, now);
      AdvanceOutcomes(cfg, PopDue(cfg, s), now);
      PopOutcomes(cfg, s);
    }
  }

  lemma PopOutcomes(cfg: Config, s: State)
    requires Linked(s) && s.heap != []
    ensures var r := Tally(PopDue(cfg, s).log); var c := Tally(s.log);
      && r.lookups == c.lookups && Outcomes(r) == Outcomes(c) && Slack(r) == Slack(c)
      && Failures(r) == Failures(c) && r.warmMax == c.warmMax
    ensures Valid(s.queue) ==> Valid(PopDue(cfg, s).queue) && |PopDue(cfg, s).queue.keys| <= |s.queue.keys|
  {
    hide Count, Tally, Outcomes, Slack, Failures, Valid, Push, Without;
    var p := s.heap[0];
    if Live(s) {
      FireFields(cfg, s.(heap := s.heap[1..]), p.name, p.due);
      TallyStep(s.log, Event(s.counting, Timer, p.name, p.due));
      TallyStep(s.log, Event(s.counting, Cooled, p.name, p.due));
      if Valid(s.queue) {
        DelValid(s.queue, p.name);
        SetNewValid(Del(s.queue, p.name), p.name, p.due + cfg.k);
      }
    }
  }

  lemma PromoteTally(cfg: Config, s: State, name: Name, now: Time)
    requires Ok(cfg) && Inv(cfg, s, now) && name in s.table && !s.table[name].warm
    ensures var c := Tally(s.log); var p := Promote(cfg, s, name, now); var r := Tally(p.log);
      && r.lookups == c.lookups && Outcomes(r) == Outcomes(c) && Slack(r) == Slack(c)
      && Failures(r) == Failures(c)
      && r.warmMax == if s.counting then Max(c.warmMax, |p.queue.keys|) else c.warmMax
  {
    hide Count, Tally, Outcomes, Slack, Failures, Push, Without, Promote;
    var s2 := Roomy(cfg, s, now);
    PromoteFields(cfg, s, name, now);
    if |s.queue.keys| >= cfg.maxWarm {
      var v := Victim(s.queue.keys, s.table);
      TallyStep(s.log, Event(s.counting, Evicted(Get(s.queue, v)), v, now));
    }
    var r := Promote(cfg, s, name, now);
    TallyStep(s2.log, Event(s.counting, Promoted(FirstDue(cfg, s2.table[name], now), |r.queue.keys|), name, now));
  }

  lemma ServeTally(cfg: Config, s: State, name: Name, now: Time)
    requires name in s.table
    ensures var c := Tally(s.log); var r := Tally(Serve(cfg, s, name, now).log);
      && r.lookups == c.lookups && Outcomes(r) == Outcomes(c) + (if s.counting then 1 else 0)
      && Slack(r) >= Slack(c) && Failures(r) == Failures(c) && r.warmMax == c.warmMax
  {
    hide Count, Tally, Outcomes, Slack, Failures;
    var r := Serve(cfg, s, name, now);
    TallyStep(s.log, r.log[|s.log|]);
    if |r.log| == |s.log| + 2 {
      TallyStep(s.log + [r.log[|s.log|]], r.log[|s.log| + 1]);
      assert s.log + [r.log[|s.log|]] + [r.log[|s.log| + 1]] == r.log;
    } else {
      assert s.log + [r.log[|s.log|]] == r.log;
    }
  }

  lemma AnsweredTally(cfg: Config, s: State, name: Name, now: Time, fail: bool)
    requires Ok(cfg) && Inv(cfg, s, now)
    ensures var c := Tally(s.log); var a := Answered(cfg, s, name, now, fail); var r := Tally(a.log);
      && r.lookups == c.lookups + (if s.counting then 1 else 0)
      && Outcomes(r) == Outcomes(c) + (if s.counting then 1 else 0) && Slack(r) >= Slack(c)
      && (!fail ==> Failures(r) == Failures(c))
      && (s.counting && |s.queue.keys| <= c.warmMax ==> r.warmMax == Max(c.warmMax, |a.queue.keys|))
  {
    hide Count, Tally, Outcomes, Slack, Failures, Push, Without, Promote, Serve;
    var s1 := Emit(s, Looked, name, now);
    TallyStep(s.log, Event(s.counting, Looked, name, now));
    if fail {
      TallyStep(s1.log, Event(s.counting, NegativeHit, name, now));
      TallyStep(s1.log, Event(s.counting, Miss(Negative), name, now));
    } else if name !in s.table {
      TallyStep(s1.log, Event(s.counting, Miss(Cold), name, now));
    } else {
      ServeTally(cfg, s1, name, now);
      ServeFields(cfg, s1, name, now);
      ServeInv(cfg, s1, name, now);
      if Promotes(cfg, s.table[name], now - s.table[name].lastUsed) {
        PromoteTally(cfg, Serve(cfg, s1, name, now), name, now);
      }
    }
  }

  /** The counters that tell how lookups ended, and the longest queue, are right in `s`. */
  ghost predicate Balanced(s: State) {
    && Tally(s.log).lookups == Outcomes(Tally(s.log)) && Slack(Tally(s.log)) >= 0
    && (s.counting ==> |s.queue.keys| <= Tally(s.log).warmMax)
  }

  /** A failing request is counted one way or the other, by whether it is remembered. */
  lemma FailingTally(s: State, name: Name, now: Time)
    requires s.counting
    ensures var c := Tally(s.log); var r := Tally(LookupFailing(Emit(s, Looked, name, now), name, now).log);
      Failures(r) == if (if name in s.negative then s.negative[name] else 0.0) > now
                     then (c.negativeHits + 1, c.negative) else (c.negativeHits, c.negative + 1)
  {
    hide Tally;
    var s1 := Emit(s, Looked, name, now);
    TallyAppend(s.log, Event(s.counting, Looked, name, now));
    TallyAppend(s1.log, Event(s.counting, NegativeHit, name, now));
    TallyAppend(s1.log, Event(s.counting, Miss(Negative), name, now));
  }

  lemma LookBalanced(cfg: Config, s: State, clock: Time, name: Name, at: Time, fail: bool)
    requires Ok(cfg) && Inv(cfg, s, clock) && clock <= at && Balanced(s)
    ensures Inv(cfg, Advance(cfg, s, at), at)
    ensures var r := Answered(cfg, Advance(cfg, s, at), name, at, fail);
      Balanced(r) && (s.counting ==> Tally(r.log).warmMax == Max(Tally(s.log).warmMax, |r.queue.keys|))
  {
    hide HeapInv, DuesWithin, EntriesBy, Answered, Advance, Tally, Outcomes, Slack, Failures;
    LookInv(cfg, s, clock, name, at, fail);
    AdvanceCounting(cfg, s, at);
    AdvanceOutcomes(cfg, s, at);
    AnsweredTally(cfg, Advance(cfg, s, at), name, at, fail);
  }

  lemma PrimeBalanced(cfg: Config, s: State, name: Name, lastUsed: Time, warm: bool, clock: Time)
    requires Ok(cfg) && Inv(cfg, s, clock) && Legal(Seed(name, lastUsed, warm), clock, s.counting) && Balanced(s)
    ensures Balanced(Prime(cfg, s, name, lastUsed, warm))
  {
    hide Tally, Outcomes, Promote;
    if name !in s.table {
      var s1 := SeedEntry(s, name, lastUsed);
      TallyStep(s.log, Event(s.counting, Seeded, name, lastUsed));
      if warm && cfg.window > 0.0 {
        assert Inv(cfg, s1, clock);
        PromoteTally(cfg, s1, name, clock);
        PromoteFields(cfg, s1, name, clock);
      }
    }
  }

  /**
   * Every operation keeps "each counted lookup ended one way: hit, old answer, remembered failure or miss", and
   * while counting the recorded peak becomes exactly the larger of the old peak and the new queue length.
   */
  lemma StepBalanced(cfg: Config, s: State, clock: Time, op: Op)
    requires Ok(cfg) && Inv(cfg, s, clock) && Legal(op, clock, s.counting) && Balanced(s)
    ensures op.Look? ==> Inv(cfg, Advance(cfg, s, op.at), op.at)
    ensures Balanced(Step(cfg, s, op))
    ensures s.counting ==>
      Tally(Step(cfg, s, op).log).warmMax == Max(Tally(s.log).warmMax, |Step(cfg, s, op).queue.keys|)
    ensures op.Begin? ==> Tally(Step(cfg, s, op).log).warmMax == |s.queue.keys|
  {
    hide Answered, Advance, Prime, Tally, Outcomes, Slack, Failures;
    match op
    case Look(name, at, fail) =>
      LookBalanced(cfg, s, clock, name, at, fail);
    case Tick(at) =>
      AdvanceCounting(cfg, s, at);
      AdvanceOutcomes(cfg, s, at);
    case Seed(name, lastUsed, warm) =>
      PrimeBalanced(cfg, s, name, lastUsed, warm, clock);
    case Begin(at) =>
      TallyStep(s.log, Event(true, CountFrom(|s.queue.keys|), [], at));
  }

  /** The longest the queue is over a run, from the state it starts in. */
  ghost function Peak(cfg: Config, s: State, clock: Time, ops: seq<Op>): nat
    requires Ok(cfg) && Inv(cfg, s, clock) && Timely(ops, clock, s.counting)
    decreases |ops|
  {
    if ops == [] then |s.queue.keys|
    else
      StepInv(cfg, s, clock, ops[0]);
      Max(|s.queue.keys|, Peak(cfg, Step(cfg, s, ops[0]), ClockAfter(ops[0], clock), ops[1..]))
  }

  /** Over a counted run, `lookups` is the sum of the outcomes and `warm_max` is the true peak of the queue. */
  lemma {:induction false} RunBalanced(cfg: Config, s: State, clock: Time, ops: seq<Op>)
    requires Ok(cfg) && Inv(cfg, s, clock) && Timely(ops, clock, s.counting) && Balanced(s) && s.counting
    ensures var c := Tally(Run(cfg, s, clock, ops).log);
      && c.lookups == c.hits + c.staleHits + c.negativeHits + c.misses
      && c.warmMax == Max(Tally(s.log).warmMax, Peak(cfg, s, clock, ops))
      && c.warmMax <= Max(Tally(s.log).warmMax, cfg.maxWarm)
    decreases |ops|
  {
    hide Step, Tally;
    if ops != [] {
      StepInv(cfg, s, clock, ops[0]);
      StepBalanced(cfg, s, clock, ops[0]);
      RunBalanced(cfg, Step(cfg, s, ops[0]), ClockAfter(ops[0], clock), ops[1..]);
    }
  }

  lemma EmptyTally()
    ensures Tally([]) == ZERO
  {
  }

  lemma {:induction false} TallyAddsUp(log: seq<Event>)
    ensures AddsUp(Tally(log))
  {
    hide Count, AddsUp;
    if log == [] {
      ZeroAddsUp();
    } else {
      TallyAddsUp(log[..|log| - 1]);
      CountAddsUp(Tally(log[..|log| - 1]), log[|log| - 1]);
    }
  }

  /** In every run, a refresh ahead of expiry goes with a hit. */
  lemma {:induction false} RunAsksAfterHits(cfg: Config, s: State, clock: Time, ops: seq<Op>)
    requires Ok(cfg) && Inv(cfg, s, clock) && Timely(ops, clock, s.counting) && Balanced(s)
    ensures var c := Tally(Run(cfg, s, clock, ops).log);
      c.refreshAsk <= c.hits && c.lookups == c.hits + c.staleHits + c.negativeHits + c.misses
    decreases |ops|
  {
    hide Step, Tally;
    if ops != [] {
      StepInv(cfg, s, clock, ops[0]);
      StepBalanced(cfg, s, clock, ops[0]);
      RunAsksAfterHits(cfg, Step(cfg, s, ops[0]), ClockAfter(ops[0], clock), ops[1..]);
    }
  }
}
