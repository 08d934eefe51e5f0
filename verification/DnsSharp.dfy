/** Exactly which settings let the answer of a warm name grow old: the bounds of `DnsFreshness` are met. */
module DnsSharp {
  import opened Names
  import opened OrderedDict
  import opened Heap
  import opened DnsModel
  import opened DnsRun
  import opened DnsTally
  import opened DnsFreshness
  import opened DnsFrame

  /** The name that grows old; `Filler` names push it out of the queue. */
  const OLD: Name := "n"

  function Fresh0(lastUsed: Time): Entry {
    Entry(true, 0.0, lastUsed, false)
  }

  /** A run from a new table that has come to `s` at `clock`. */
  ghost predicate From0(cfg: Config, ops: seq<Op>, s: State, clock: Time)
    requires Ok(cfg)
  {
    Inv(cfg, Start(true), 0.0) && Reaches(cfg, Start(true), 0.0, ops, s, clock) && s.counting
  }

  lemma Begins(cfg: Config)
    requires Ok(cfg)
    ensures From0(cfg, [], Start(true), 0.0)
  {
    StartInv(cfg, 0.0, true);
    ReachesItself(cfg, Start(true), 0.0);
  }

  /** The first request. */
  lemma Asked(cfg: Config) returns (ops: seq<Op>, s: State)
    requires Ok(cfg)
    ensures From0(cfg, ops, s, 0.0) && Has(s, OLD, Fresh0(0.0), None)
  {
    hide Reaches, Inv;
    Begins(cfg);
    var mid;
    mid, s := LookNext(cfg, Start(true), 0.0, [], Start(true), 0.0, OLD, 0.0);
    AdvanceLeaves(cfg, Start(true), 0.0, 0.0, OLD) by { StartInv(cfg, 0.0, true); }
    AnsweredCold(cfg, mid, OLD, 0.0);
    ops := [] + [Look(OLD, 0.0, false)];
  }

  /** A request that hits, for a name with nothing due before, and without a refresh ahead of expiry. */
  lemma HitNext(cfg: Config, ops: seq<Op>, s: State, clock: Time, e: Entry, due: Option<Time>, at: Time)
    returns (next: seq<Op>, r: State)
    requires Ok(cfg) && From0(cfg, ops, s, clock) && clock <= at
    requires Has(s, OLD, e, due) && (due.Some? ==> at < due.value) && StaysAnswer(cfg, e, at)
    ensures From0(cfg, next, r, at)
    ensures if Promotes(cfg, e, at - e.lastUsed)
            then Has(r, OLD, e.(lastUsed := at, warm := true), Some(FirstDue(cfg, e, at)))
            else Has(r, OLD, e.(lastUsed := at), due)
  {
    hide Run, Inv, Answered, Advance;
    var mid;
    mid, r := LookNext(cfg, Start(true), 0.0, ops, s, clock, OLD, at);
    next := ops + [Look(OLD, at, false)];
    AdvanceLeaves(cfg, s, clock, at, OLD);
    AnsweredHit(cfg, mid, OLD, at, e, due);
  }

  /** A state in which the next request for the warm name finds an answer of the given age. */
  ghost predicate Ready(cfg: Config, ops: seq<Op>, s: State, clock: Time, e: Entry, due: Time, age: Time)
    requires Ok(cfg)
  {
    From0(cfg, ops, s, clock) && Has(s, OLD, e, Some(due)) && e.warm && clock <= e.resolvedAt + age < due
  }

  predicate FromPresent(cfg: Config) {
    cfg.promoteAt == Now && cfg.window > 0.0
  }

  /** How old an answer can be when a name that nothing else happens to is promoted, and still delay its timer. */
  function Reach(cfg: Config): Time {
    if cfg.promoteAt == Answer || cfg.ttl <= 0.0 then 0.0 else if cfg.k < cfg.ttl then cfg.k else cfg.ttl
  }

  /** The short way: promoted with an answer that old or nearly so, and next asked for before its timer. */
  lemma GrowsOldAlone(cfg: Config, age: Time) returns (ops: seq<Op>, s: State, clock: Time, e: Entry, due: Time)
    requires Ok(cfg) && cfg.window > 0.0 && 0.0 <= age < Reach(cfg) + cfg.k
    ensures Ready(cfg, ops, s, clock, e, due, age) && e.resolvedAt == 0.0 && e.lastUsed >= 0.0
  {
    hide From0, Inv;
    clock := if age + Reach(cfg) > cfg.k then (age + Reach(cfg) - cfg.k) / 2.0 else 0.0;
    e, due := Entry(true, 0.0, clock, true), clock + cfg.k;
    ops, s := Asked(cfg);
    ops, s := HitNext(cfg, ops, s, 0.0, Fresh0(0.0), None, clock);
    if Has(s, OLD, e, Some(due)) {
      ops, s := HitNext(cfg, ops, s, clock, e, Some(due), clock);
    } else {
      ops, s := HitNext(cfg, ops, s, clock, Fresh0(clock), None, clock);
    }
  }

  // ---- pushed out of the queue

  /** Either the name is out, or the first `m` fillers have been let in beside it. Nothing is due yet. */
  ghost predicate Pushed(cfg: Config, s: State, e: Entry, m: nat) {
    && (forall n :: n in s.queue.due ==> cfg.k < s.queue.due[n])
    && (Has(s, OLD, e.(warm := false), None) ||
        (Has(s, OLD, e, Some(cfg.k + cfg.k)) && forall i :: 0 <= i < m ==> Beside(cfg, s, Filler(i))))
  }

  /** Queued, and used at the moment of the timer. */
  ghost predicate Beside(cfg: Config, s: State, n: Name) {
    n in s.queue.due && n in s.table && s.table[n].lastUsed == cfg.k
  }

  lemma AnsweredDues(cfg: Config, s: State, name: Name, now: Time)
    requires Ok(cfg) && cfg.promoteAt == Now && Inv(cfg, s, now)
    requires forall n :: n in s.queue.due ==> now < s.queue.due[n]
    ensures forall n :: n in Answered(cfg, s, name, now, false).queue.due ==>
              now < Answered(cfg, s, name, now, false).queue.due[n]
  {
    hide Push, Without, NoDup, Promote, Serve, QueueInv, HeapInv, DuesWithin, EntriesBy;
    InvLinked(cfg, s, now);
    var s1 := Emit(s, Looked, name, now);
    if name in s.table {
      ServeFields(cfg, s1, name, now);
      ServeInv(cfg, s1, name, now);
      if Promotes(cfg, s.table[name], now - s.table[name].lastUsed) {
        PromotedDues(cfg, Serve(cfg, s1, name, now), name, now);
      }
    }
  }

  lemma PromotedDues(cfg: Config, s: State, name: Name, now: Time)
    requires Ok(cfg) && cfg.promoteAt == Now && Inv(cfg, s, now) && name in s.table && !s.table[name].warm
    requires forall n :: n in s.queue.due ==> now < s.queue.due[n]
    ensures Linked(s) && Valid(s.queue)
    ensures forall n :: n in Promote(cfg, s, name, now).queue.due ==> now < Promote(cfg, s, name, now).queue.due[n]
  {
    hide Push, Without, NoDup, Promote, HeapInv, EntriesBy;
    RoomyInv(cfg, s, name, now);
    PromoteFields(cfg, s, name, now);
    if |s.queue.keys| >= cfg.maxWarm {
      DelValid(s.queue, Victim(s.queue.keys, s.table));
    }
  }

  lemma FillerIsOther(i: nat, j: nat)
    ensures Filler(i) != OLD && (Filler(i) == Filler(j) ==> i == j)
  {
    FillersDiffer(i, j);
    assert Filler(i)[0] == 'o';
  }

  /** One request for the next filler, at a moment when nothing is due. */
  lemma FillerNext(cfg: Config, ops: seq<Op>, s: State, e: Entry, m: nat) returns (next: seq<Op>, r: State)
    requires Ok(cfg) && FromPresent(cfg) && From0(cfg, ops, s, cfg.k) && Pushed(cfg, s, e, m)
    requires e.warm && e.lastUsed < cfg.k
    ensures From0(cfg, next, r, cfg.k) && Pushed(cfg, r, e, m)
    ensures Filler(m) in r.table && r.table[Filler(m)].lastUsed == cfg.k
    ensures Filler(m) in s.table && s.table[Filler(m)].lastUsed == cfg.k ==> Pushed(cfg, r, e, m + 1)
  {
    hide Run, Answered, Advance, HeapInv, EntriesBy, NoDup;
    var mid;
    mid, r := LookNext(cfg, Start(true), 0.0, ops, s, cfg.k, Filler(m), cfg.k);
    next := ops + [Look(Filler(m), cfg.k, false)];
    AdvanceQuiet(cfg, s, cfg.k, cfg.k);
    FillerIsOther(m, m);
    AnsweredDues(cfg, mid, Filler(m), cfg.k);
    UsedNow(cfg, mid, Filler(m), cfg.k);
    if OLD in s.queue.due {
      AnsweredPushes(cfg, mid, Filler(m), cfg.k, OLD, e, cfg.k + cfg.k);
    } else {
      AnsweredLeaves(cfg, mid, Filler(m), cfg.k, OLD);
    }
  }

  lemma UsedNow(cfg: Config, s: State, name: Name, now: Time)
    requires Ok(cfg) && Inv(cfg, s, now)
    ensures var r := Answered(cfg, s, name, now, false); name in r.table && r.table[name].lastUsed == now
  {
    hide Push, Without, NoDup, Promote, Serve, HeapInv;
    var s1 := Emit(s, Looked, name, now);
    if name in s.table {
      var s2 := Serve(cfg, s1, name, now);
      ServeFields(cfg, s1, name, now);
      ServeInv(cfg, s1, name, now);
      if Promotes(cfg, s.table[name], now - s.table[name].lastUsed) {
        RoomyInv(cfg, s2, name, now);
        PromoteFields(cfg, s2, name, now);
      }
    }
  }

  /** A queue that holds the name and `m` fillers has more than `m` names. */
  lemma {:induction false} FillersCount(keys: seq<Name>, m: nat)
    requires NoDup(keys) && OLD in keys && forall i :: 0 <= i < m ==> Filler(i) in keys
    ensures |keys| > m
    decreases m
  {
    if m > 0 {
      WithoutElements(keys, Filler(m - 1));
      FillerIsOther(m - 1, m - 1);
      forall i | 0 <= i < m - 1 ensures Filler(i) in Without(keys, Filler(m - 1)) {
        FillerIsOther(i, m - 1);
      }
      FillersCount(Without(keys, Filler(m - 1)), m - 1);
    }
  }

  /** Asking twice for each of `max_warm` fillers pushes the name out. */
  lemma PushOut(cfg: Config, ops: seq<Op>, s: State, e: Entry, m: nat) returns (next: seq<Op>, r: State)
    requires Ok(cfg) && FromPresent(cfg) && From0(cfg, ops, s, cfg.k) && Pushed(cfg, s, e, m) && m <= cfg.maxWarm
    requires e.warm && e.lastUsed < cfg.k
    ensures From0(cfg, next, r, cfg.k) && Has(r, OLD, e.(warm := false), None)
    decreases cfg.maxWarm - m
  {
    hide Run, HeapInv, EntriesBy, NoDup;
    if m == cfg.maxWarm {
      next, r := ops, s;
      if OLD in s.queue.due {
        FillersCount(s.queue.keys, m);
        assert false;
      }
    } else {
      next, r := FillerNext(cfg, ops, s, e, m);
      next, r := FillerNext(cfg, next, r, e, m);
      next, r := PushOut(cfg, next, r, e, m + 1);
    }
  }

  /** Passing to the moment of its timer: the name is refreshed and nothing is due. */
  lemma TimerNext(cfg: Config, ops: seq<Op>, s: State, clock: Time, e: Entry) returns (next: seq<Op>, r: State)
    requires Ok(cfg) && From0(cfg, ops, s, clock) && clock <= cfg.k && Has(s, OLD, e, Some(cfg.k)) && e.warm
    requires cfg.k - e.lastUsed < cfg.window
    ensures From0(cfg, next, r, cfg.k) && Pushed(cfg, r, e.(resolvedAt := cfg.k), 0)
  {
    hide Run, Inv, Advance;
    ReachesNext(cfg, Start(true), 0.0, ops, s, clock, Tick(cfg.k));
    next, r := ops + [Tick(cfg.k)], Advance(cfg, s, cfg.k);
    AdvanceInv(cfg, s, clock, cfg.k);
    AdvanceCounting(cfg, s, cfg.k);
    AdvanceFires(cfg, s, clock, cfg.k, OLD, e, cfg.k);
  }

  /**
   * The long way, for windows above the TTL or the rule without one: refreshed by a timer, pushed out, and promoted
   * again a whole TTL after its last use, with an answer that has almost expired.
   */
  lemma GrowsOldOutside(cfg: Config, age: Time) returns (ops: seq<Op>, s: State, clock: Time, e: Entry, due: Time)
    requires Early(cfg) && FromPresent(cfg) && (cfg.rule == NoIdle || cfg.window > cfg.ttl)
    requires cfg.ttl <= age < cfg.ttl + cfg.k
    ensures Ready(cfg, ops, s, clock, e, due, age)
  {
    hide From0, Inv;
    var most := cfg.ttl + cfg.k - age;
    var g := (if most < cfg.window then most else cfg.window) / 2.0;
    var used := cfg.k - g;
    ops, s := Asked(cfg);
    ops, s := HitNext(cfg, ops, s, 0.0, Fresh0(0.0), None, 0.0);
    ops, s := HitNext(cfg, ops, s, 0.0, Entry(true, 0.0, 0.0, true), Some(cfg.k), used);
    e := Entry(true, 0.0, used, true);
    ops, s := TimerNext(cfg, ops, s, used, e);
    e := e.(resolvedAt := cfg.k);
    ops, s := PushOut(cfg, ops, s, e, 0);
    clock := used + cfg.ttl;
    ops, s := HitNext(cfg, ops, s, cfg.k, e.(warm := false), None, clock);
    e, due := e.(lastUsed := clock), clock + cfg.k;
  }

  /** The answer of a warm name gets to any age from the TTL up to `AgeLimit`. */
  lemma GrowsOldTo(cfg: Config, age: Time) returns (ops: seq<Op>, s: State, clock: Time, e: Entry, due: Time)
    requires Ok(cfg) && cfg.window > 0.0 && cfg.ttl <= age < AgeLimit(cfg) && 0.0 <= age
    ensures Ready(cfg, ops, s, clock, e, due, age)
  {
    hide Ready;
    if cfg.promoteAt == Now && cfg.k < cfg.ttl && PromotionAge(cfg) == cfg.ttl {
      ops, s, clock, e, due := GrowsOldOutside(cfg, age);
    } else {
      ops, s, clock, e, due := GrowsOldAlone(cfg, age);
    }
  }

  // ---- what the next request finds

  /** How a request for a warm name is answered. */
  function WarmWhat(cfg: Config, e: Entry, now: Time): What {
    var age := now - e.resolvedAt;
    if age < cfg.ttl then if now - e.lastUsed < cfg.ttl && age >= cfg.k then Ask(true) else Hit
    else if age < cfg.serveStale then Stale(true, age)
    else Miss(WarmStale)
  }

  lemma WarmAnswer(cfg: Config, s: State, now: Time, e: Entry, due: Time)
    requires Ok(cfg) && Inv(cfg, s, now) && Has(s, OLD, e, Some(due))
    ensures var log := Answered(cfg, s, OLD, now, false).log;
      log != [] && log[|log| - 1] == Event(s.counting, WarmWhat(cfg, e, now), OLD, now)
  {
    hide Push, Without, NoDup, Promote, HeapInv;
    assert e.warm && e.hasAddrs;
  }

  /** A run, from a new table that counts, whose last event is `what`. */
  ghost predicate EndsWith(cfg: Config, ops: seq<Op>, what: What)
    requires Ok(cfg)
  {
    && Timely(ops, 0.0, true) && Inv(cfg, Start(true), 0.0)
    && var log := Run(cfg, Start(true), 0.0, ops).log;
       log != [] && log[|log| - 1].what == what && log[|log| - 1].counted
  }

  lemma ReadyAnswer(cfg: Config, ops: seq<Op>, s: State, clock: Time, e: Entry, due: Time, age: Time)
    returns (all: seq<Op>)
    requires Ok(cfg) && Ready(cfg, ops, s, clock, e, due, age)
    ensures EndsWith(cfg, all, WarmWhat(cfg, e, e.resolvedAt + age))
  {
    hide Inv, Advance, Answered;
    var at := e.resolvedAt + age;
    var mid, r := LookNext(cfg, Start(true), 0.0, ops, s, clock, OLD, at);
    AdvanceLeaves(cfg, s, clock, at, OLD);
    WarmAnswer(cfg, mid, at, e, due);
    all := ops + [Look(OLD, at, false)];
  }

  // ---- the exact conditions

  /** Some run counts a miss for a warm name. */
  ghost predicate SomeMissesWarm(cfg: Config)
    requires Ok(cfg)
  {
    exists ops :: Timely(ops, 0.0, true) && Inv(cfg, Start(true), 0.0)
                  && Tally(Run(cfg, Start(true), 0.0, ops).log).warmStale > 0
  }

  /** Some run counts an old answer given for a warm name. */
  ghost predicate SomeStaleWarm(cfg: Config)
    requires Ok(cfg)
  {
    exists ops :: Timely(ops, 0.0, true) && Inv(cfg, Start(true), 0.0)
                  && Tally(Run(cfg, Start(true), 0.0, ops).log).staleHitsWarm > 0
  }

  /** Some run has a refresh ahead of expiry of a warm name. */
  ghost predicate SomeAsksWarm(cfg: Config)
    requires Ok(cfg)
  {
    exists ops :: EndsWith(cfg, ops, Ask(true))
  }

  lemma LastCounts(cfg: Config, ops: seq<Op>, what: What)
    requires Ok(cfg) && EndsWith(cfg, ops, what)
    ensures what == Miss(WarmStale) ==> SomeMissesWarm(cfg)
    ensures what.Stale? && what.wasWarm ==> SomeStaleWarm(cfg)
  {
    hide Run;
    var c := Tally(Run(cfg, Start(true), 0.0, ops).log);
    assert what == Miss(WarmStale) ==> c.warmStale > 0;
    assert what.Stale? && what.wasWarm ==> c.staleHitsWarm > 0;
  }

  /**
   * A request for a warm name can miss exactly when there is a window to keep names warm, and both the TTL and the
   * window for old answers end before `AgeLimit`.
   */
  lemma WarmNamesMissIff(cfg: Config)
    requires Ok(cfg)
    ensures SomeMissesWarm(cfg) <==> CanMissWarm(cfg)
  {
    hide Run, Tally, Ready, EndsWith;
    if CanMissWarm(cfg) {
      var least := if cfg.serveStale > cfg.ttl then cfg.serveStale else cfg.ttl;
      var age := if least > 0.0 then least else 0.0;
      var ops, s, clock, e, due := GrowsOldTo(cfg, age);
      var all := ReadyAnswer(cfg, ops, s, clock, e, due, age);
      LastCounts(cfg, all, Miss(WarmStale));
    } else if SomeMissesWarm(cfg) {
      var ops :| Timely(ops, 0.0, true) && Inv(cfg, Start(true), 0.0)
                 && Tally(Run(cfg, Start(true), 0.0, ops).log).warmStale > 0;
      WarmNamesAreFresh(cfg, true, 0.0, ops);
    }
  }

  /** It can be given an old answer exactly when such are served past the TTL, and that ends before `AgeLimit`. */
  lemma WarmNamesStaleIff(cfg: Config)
    requires Ok(cfg)
    ensures SomeStaleWarm(cfg) <==> CanBeStaleWarm(cfg)
  {
    hide Run, Tally, Ready, EndsWith;
    if CanBeStaleWarm(cfg) {
      var age := if cfg.ttl > 0.0 then cfg.ttl else 0.0;
      var ops, s, clock, e, due := GrowsOldTo(cfg, age);
      var all := ReadyAnswer(cfg, ops, s, clock, e, due, age);
      LastCounts(cfg, all, Stale(true, age));
    } else if SomeStaleWarm(cfg) {
      var ops :| Timely(ops, 0.0, true) && Inv(cfg, Start(true), 0.0)
                 && Tally(Run(cfg, Start(true), 0.0, ops).log).staleHitsWarm > 0;
      WarmNamesAreFresh(cfg, true, 0.0, ops);
    }
  }

  /** It can bring a refresh ahead of expiry exactly when it was promoted from the present, and `k` is below the TTL. */
  lemma WarmNamesAskIff(cfg: Config)
    requires Ok(cfg)
    ensures SomeAsksWarm(cfg) <==> CanAskWarm(cfg)
  {
    hide Run, Ready;
    if CanAskWarm(cfg) {
      var ops, s, clock, e, due := GrowsOldAlone(cfg, cfg.k);
      var all := ReadyAnswer(cfg, ops, s, clock, e, due, cfg.k);
    } else if SomeAsksWarm(cfg) {
      var ops :| EndsWith(cfg, ops, Ask(true));
      WarmNamesAreFresh(cfg, true, 0.0, ops);
    }
  }
}
