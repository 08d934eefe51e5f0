/** The class `Table` of scripts/dns-replay.py, method by method, proved against the transition function. */
module DnsTable {
  import opened Names
  import opened OrderedDict
  import opened Heap
  import opened DnsModel
  import opened DnsRun
  import opened DnsTally

  datatype Cause = ByTimer | ByAsk | ByStale

  /** `refreshes` and the counter of its cause. */
  function Refreshed(c: Counters, cause: Cause): Counters {
    var c1 := c.(refreshes := c.refreshes + 1);
    match cause
    case ByTimer => c1.(refreshWarm := c.refreshWarm + 1)
    case ByAsk => c1.(refreshAsk := c.refreshAsk + 1)
    case ByStale => c1.(refreshStale := c.refreshStale + 1)
  }

  function PerName(perName: map<Name, nat>, n: Name): nat {
    if n in perName then perName[n] else 0
  }

  /** The settings of a table: `refresh_at` when given and not 0, else 3/4 of the TTL. */
  function Settings(rule: Rule, ttl: Time, window: Time, maxWarm: nat, serveStale: Time, promoteAt: PromoteAt,
                    refreshAt: Option<Time>): Config {
    Config(rule, ttl, if refreshAt.Some? && refreshAt.value != 0.0 then refreshAt.value else RefreshAfter(ttl),
           window, maxWarm, serveStale, promoteAt)
  }

  class Table {
    const cfg: Config
    var table: map<Name, Entry>
    var queue: Dict
    var heap: seq<Pair>
    var negative: map<Name, Time>
    var counting: bool
    var warmT: Option<Time>
    var warmSecs: Time
    var perName: map<Name, nat>
    var c: Counters
    ghost var log: seq<Event>
    ghost var clock: Time

    ghost function View(): State
      reads this
    {
      State(table, queue, heap, negative, counting, warmT, warmSecs, log)
    }

    /** The counters are what the log says. */
    ghost predicate Counted()
      reads this
    {
      && c == Tally(log)
      && forall n :: PerName(perName, n) == RefreshesOf(log, n)
    }

    ghost predicate Valid()
      reads this
    {
      Ok(cfg) && Inv(cfg, View(), clock) && Counted()
    }

    constructor (rule: Rule, ttl: Time, window: Time, maxWarm: nat, serveStale: Time, promoteAt: PromoteAt,
                 refreshAt: Option<Time>, ghost start: Time)
      requires Ok(Settings(rule, ttl, window, maxWarm, serveStale, promoteAt, refreshAt))
      ensures cfg.rule == rule && cfg.ttl == ttl && cfg.window == window && cfg.maxWarm == maxWarm
      ensures cfg.serveStale == serveStale && cfg.promoteAt == promoteAt
      ensures cfg.k == if refreshAt.Some? && refreshAt.value != 0.0 then refreshAt.value else ttl - ttl / 4.0
      ensures cfg == Settings(rule, ttl, window, maxWarm, serveStale, promoteAt, refreshAt)
      ensures Valid() && clock == start && View() == Start(true)
    {
      cfg := Settings(rule, ttl, window, maxWarm, serveStale, promoteAt, refreshAt);
      table, queue, heap, negative := map[], EMPTY, [], map[];
      counting, warmT, warmSecs, perName, c := true, None, 0.0, map[], ZERO;
      log, clock := [], start;
    }

    /** Counting `e` is adding a refresh of this cause to the counters at hand. */
    ghost predicate Completes(e: Event, cause: Cause)
      reads this
    {
      && e.counted == counting && IsRefresh(e.what)
      && (forall n :: PerName(perName, n) == RefreshesOf(log, n))
      && Count(Tally(log), e) == if counting then Refreshed(c, cause) else c
    }

    /**
     * Resolves one entry anew, behind the requests. That is the event `e`: by cause and by name the counters say again
     * what the log says. (An old answer that is given has been counted by then, and is one event with its refresh.)
     */
    method Refresh(name: Name, now: Time, cause: Cause, ghost e: Event)
      requires name in table && e.name == name && e.at == now && Completes(e, cause)
      modifies this`table, this`c, this`perName, this`log
      ensures View() == Emit(Put(old(View()), name, old(table[name]).(resolvedAt := now)), e.what, name, now)
      ensures Counted()
    {
      hide Tally, Count, RefreshesOf, Refreshed;
      TallyAppend(log, e);
      table := table[name := table[name].(resolvedAt := now)];
      if counting {
        c := Refreshed(c, cause);
        perName := perName[name := PerName(perName, name) + 1];
      }
      log := log + [e];
    }

    method TickWarmTo(now: Time)
      modifies this`warmT, this`warmSecs
      ensures View() == TickWarm(old(View()), now)
    {
      if warmT.Some? && counting && now > warmT.value {
        warmSecs := warmSecs + Area(|queue.keys|, now - warmT.value);
      }
      warmT := Some(now);
    }

    method ScheduleAt(name: Name, at: Time)
      modifies this`queue, this`heap
      ensures View() == Schedule(old(View()), name, at)
    {
      queue := Set(queue, name, at);
      heap := Push(heap, Pair(at, name));
    }

    /** The work of the loop in `AdvanceTo` on a live timer. */
    method FireAt(name: Name, due: Time)
      requires name in table && Counted()
      modifies this
      ensures View() == Fire(cfg, old(View()), name, due) && Counted() && clock == old(clock)
    {
      hide Tally, Count, RefreshesOf, Push, Without;
      TickWarmTo(due);
      queue := Del(queue, name);
      if !table[name].warm || due - table[name].lastUsed >= cfg.window {
        CoolAt(name, due);
        return;
      }
      ScheduleAt(name, due + cfg.k);
      ghost var e := Event(counting, Timer, name, due);
      CountRefresh(c, e, ByTimer);
      Refresh(name, due, ByTimer, e);
    }

    /** The window of a name has passed: it is kept warm no longer. */
    method CoolAt(name: Name, due: Time)
      requires name in table && Counted()
      modifies this`table, this`log
      ensures View() == Emit(Put(old(View()), name, old(table[name]).(warm := false)), Cooled, name, due) && Counted()
    {
      hide Tally, Count, RefreshesOf;
      ghost var e := Event(counting, Cooled, name, due);
      TallyAppend(log, e);
      CountPlain(c, e);
      table := table[name := table[name].(warm := false)];
      log := log + [e];
    }

    /** Handles every timer due by `now`, in order; pairs the queue has disowned are thrown away. */
    method AdvanceTo(now: Time)
      requires Valid() && clock <= now
      modifies this
      ensures Valid() && clock == now && View() == Advance(cfg, old(View()), now)
      ensures forall n :: n in queue.due ==> now < queue.due[n]
    {
      hide Inv, Tally, RefreshesOf;
      InvLinked(cfg, View(), clock);
      AdvanceInv(cfg, View(), clock, now);
      while heap != [] && heap[0].due <= now
        invariant Linked(View()) && Counted() && clock == old(clock)
        invariant Advance(cfg, View(), now) == Advance(cfg, old(View()), now)
        decreases TotalRounds(cfg.k, heap, now)
      {
        PopDueDecreases(cfg, View(), now);
        var p := heap[0];
        heap := heap[1..];
        if p.name !in queue.due || queue.due[p.name] != p.due {
          continue;
        }
        FireAt(p.name, p.due);
      }
      TickWarmTo(now);
      clock := now;
    }

    /** The first half of `_promote`, when the queue is full: the name used longest ago makes way. */
    method EvictOldest(now: Time)
      requires Linked(View()) && OrderedDict.Valid(queue) && queue.keys != [] && Counted()
      modifies this`queue, this`table, this`c, this`log
      ensures View() == Evict(old(View()), now) && Counted()
    {
      hide Tally, Count, RefreshesOf, Without, NoDup;
      var victim := Victim(queue.keys, table);
      ghost var e := Event(counting, Evicted(Get(queue, victim)), victim, now);
      queue := Del(queue, victim);
      table := table[victim := table[victim].(warm := false)];
      if counting {
        c := c.(warmEvicted := c.warmEvicted + 1);
      }
      TallyAppend(log, e);
      CountEvicted(old(c), e);
      log := log + [e];
    }

    /** The second half of `_promote`: the name is queued for `at`, warm and counted. */
    method AdmitAt(name: Name, at: Time, now: Time)
      requires name in table && Counted()
      modifies this`queue, this`heap, this`table, this`c, this`log
      ensures Counted()
      ensures var s := Schedule(old(View()), name, at);
        View() == Emit(Put(s, name, old(table[name]).(warm := true)), Promoted(at, |s.queue.keys|), name, now)
    {
      hide Tally, Count, RefreshesOf, Push, Set;
      ScheduleAt(name, at);
      table := table[name := table[name].(warm := true)];
      ghost var e := Event(counting, Promoted(at, |queue.keys|), name, now);
      TallyAppend(log, e);
      CountPromoted(c, e);
      if counting {
        c := c.(promotes := c.promotes + 1, warmMax := Max(c.warmMax, |queue.keys|));
      }
      log := log + [e];
    }

    /** Keeps a name warm: room is made, its first timer is set, and its flag. */
    method PromoteNow(name: Name, now: Time)
      requires Ok(cfg) && Linked(View()) && OrderedDict.Valid(queue) && name in table && Counted()
      modifies this
      ensures View() == Promote(cfg, old(View()), name, now) && Counted() && clock == old(clock)
    {
      hide Counted, Push, Without, NoDup, Evict, Set;
      DelValid(queue, name);
      TakeOut(name);
      ghost var s1 := View();
      if |queue.keys| >= cfg.maxWarm {
        EvictOldest(now);
        EvictKeeps(s1, name, now);
      }
      ghost var s2 := View();
      var at := now + cfg.k;
      if cfg.promoteAt == Answer {
        at := if table[name].resolvedAt + cfg.k > now then table[name].resolvedAt + cfg.k else now;
      }
      assert at == FirstDue(cfg, s2.table[name], now);
      AdmitAt(name, at, now);
    }

    method TakeOut(name: Name)
      requires Counted()
      modifies this`queue
      ensures View() == old(View()).(queue := Del(old(queue), name)) && Counted()
    {
      queue := Del(queue, name);
    }

    /** `_miss`: one outcome of a request, counted by its kind. */
    method Missed(kind: MissKind, ghost name: Name, ghost now: Time)
      requires Counted()
      modifies this`c, this`log
      ensures View() == Emit(old(View()), Miss(kind), name, now) && Counted()
    {
      hide Tally, Count, RefreshesOf;
      ghost var e := Event(counting, Miss(kind), name, now);
      TallyAppend(log, e);
      CountOutcome(c, e);
      if counting {
        c := CountMiss(c, kind);
      }
      log := log + [e];
    }

    /** The part of `lookup` for a request whose name does not resolve. */
    method FailAt(name: Name, now: Time)
      requires Counted()
      modifies this`negative, this`c, this`log
      ensures View() == LookupFailing(old(View()), name, now) && Counted()
    {
      hide Tally, Count, RefreshesOf;
      if (if name in negative then negative[name] else 0.0) > now {
        ghost var e := Event(counting, NegativeHit, name, now);
        TallyAppend(log, e);
        CountOutcome(c, e);
        if counting {
          c := c.(negativeHits := c.negativeHits + 1);
        }
        log := log + [e];
      } else {
        Missed(Negative, name, now);
        negative := negative[name := now + NEGATIVE_TTL];
      }
    }

    method HitAt(name: Name, now: Time)
      requires Counted()
      modifies this`c, this`log
      ensures View() == Emit(old(View()), Hit, name, now) && Counted()
    {
      hide Tally, Count, RefreshesOf;
      ghost var hit := Event(counting, Hit, name, now);
      TallyAppend(log, hit);
      CountOutcome(c, hit);
      if counting {
        c := c.(hits := c.hits + 1);
      }
      log := log + [hit];
    }

    /** A hit on an answer past `k`, used within the TTL before: one refresh behind it. */
    method AskAt(name: Name, wasWarm: bool, now: Time)
      requires name in table && Counted()
      modifies this`table, this`c, this`perName, this`log
      ensures View() == Emit(Put(old(View()), name, old(table[name]).(resolvedAt := now)), Ask(wasWarm), name, now)
      ensures Counted()
    {
      hide Tally, Count, RefreshesOf;
      ghost var ask := Event(counting, Ask(wasWarm), name, now);
      CountRefresh(c, ask, ByAsk);
      Refresh(name, now, ByAsk, ask);
    }

    /** An expired answer still young enough is given, and refreshed behind. */
    method StaleAt(name: Name, wasWarm: bool, age: Time, now: Time)
      requires name in table && Counted()
      modifies this`table, this`c, this`perName, this`log
      ensures Counted()
      ensures View() ==
              Emit(Put(old(View()), name, old(table[name]).(resolvedAt := now)), Stale(wasWarm, age), name, now)
    {
      hide Tally, Count, RefreshesOf, Refreshed;
      ghost var stale := Event(counting, Stale(wasWarm, age), name, now);
      CountStale(c, stale);
      if counting {
        c := c.(staleHits := c.staleHits + 1);
        c := c.(staleHitsWarm := c.staleHitsWarm + if wasWarm then 1 else 0);
        c := c.(staleAgeSum := c.staleAgeSum + age);
        c := c.(staleAgeMax := if age > c.staleAgeMax then age else c.staleAgeMax);
      }
      Refresh(name, now, ByStale, stale);
    }

    /** A miss: the request waits for a new answer. */
    method MissAt(name: Name, e: Entry, kind: MissKind, now: Time)
      requires Counted()
      modifies this`table, this`c, this`log
      ensures View() == Emit(Put(old(View()), name, e), Miss(kind), name, now) && Counted()
    {
      hide Counted;
      Missed(kind, name, now);
      UseEntry(name, e);
    }

    /** The part of `lookup` between finding the entry and promoting it. */
    method ServeAt(name: Name, now: Time)
      requires name in table && Counted()
      modifies this`table, this`c, this`perName, this`log
      ensures View() == Serve(cfg, old(View()), name, now) && Counted()
    {
      hide Counted, Tally;
      var wasWarm := table[name].warm;
      var hot := now - table[name].lastUsed < cfg.ttl;
      ghost var before := table;
      var e := table[name].(lastUsed := now);
      UseEntry(name, e);
      var age := now - e.resolvedAt;
      if e.hasAddrs && age < cfg.ttl {
        HitAt(name, now);
        if hot && age >= cfg.k {
          PutPut(before, name, e, e.(resolvedAt := now));
          AskAt(name, wasWarm, now);
        }
      } else if e.hasAddrs && age < cfg.serveStale {
        PutPut(before, name, e, e.(resolvedAt := now));
        StaleAt(name, wasWarm, age, now);
      } else {
        PutPut(before, name, e, e.(resolvedAt := now, hasAddrs := true));
        MissAt(name, e.(resolvedAt := now, hasAddrs := true),
               if wasWarm then WarmStale else if e.hasAddrs then Expired else Cold, now);
      }
    }

    method UseEntry(name: Name, e: Entry)
      requires Counted()
      modifies this`table
      ensures View() == Put(old(View()), name, e) && Counted()
    {
      table := table[name := e];
    }

    /** `lookup`: a request for `name` at `now`, which `fail`s to resolve or not. */
    method Lookup(name: Name, now: Time, fail: bool)
      requires Valid() && clock <= now
      modifies this
      ensures Valid() && clock == now
      ensures OrderedDict.Valid(Advance(cfg, old(View()), now).queue)
      ensures View() == Step(cfg, old(View()), Look(name, now, fail))
    {
      hide Tally, Count, RefreshesOf, Inv, Promote, Serve, Advance;
      AdvanceTo(now);
      ghost var s := View();
      InvLinked(cfg, s, now);
      AnsweredInv(cfg, s, name, now, fail);
      TallyAppend(log, Event(counting, Looked, name, now));
      CountOutcome(c, Event(counting, Looked, name, now));
      if counting {
        c := c.(lookups := c.lookups + 1);
      }
      log := log + [Event(counting, Looked, name, now)];
      if fail {
        FailAt(name, now);
        return;
      }
      if name !in table {
        MissAt(name, Entry(true, now, now, false), Cold, now);
        return;
      }
      var promote := Promotes(cfg, table[name], now - table[name].lastUsed);
      ServeFields(cfg, View(), name, now);
      ServeAt(name, now);
      if promote {
        PromoteNow(name, now);
      }
    }

    method SeedAt(name: Name, lastUsed: Time)
      requires Counted()
      modifies this`table, this`log
      ensures View() == SeedEntry(old(View()), name, lastUsed) && Counted()
    {
      hide Tally, Count, RefreshesOf;
      ghost var e := Event(counting, Seeded, name, lastUsed);
      TallyAppend(log, e);
      CountPlain(c, e);
      table := table[name := Entry(true, lastUsed, lastUsed, false)];
      log := log + [e];
    }

    /** `prime`: puts a name that was there before into the table, expired, and warm if asked. */
    method PrimeName(name: Name, lastUsed: Time, warm: bool)
      requires Valid() && Legal(Seed(name, lastUsed, warm), clock, counting)
      modifies this
      ensures Valid() && clock == old(clock)
      ensures View() == Prime(cfg, old(View()), name, lastUsed, warm)
    {
      hide Tally, RefreshesOf, Inv, Promote;
      InvLinked(cfg, View(), clock);
      PrimeInv(cfg, View(), name, lastUsed, warm, clock);
      if name !in table {
        SeedAt(name, lastUsed);
        if warm && cfg.window > 0.0 {
          PromoteNow(name, lastUsed);
        }
      }
    }

    /** The lines of `replay` that stop counting for the run-up, on a new table. */
    method StopCounting()
      requires Valid() && View() == Start(true)
      modifies this`counting
      ensures Valid() && View() == Start(false)
    {
      counting := false;
      StartInv(cfg, clock, false);
    }

    /** The lines of `replay` that begin to count at `c0`. */
    method CountFromNow(c0: Time)
      requires Valid() && Legal(Begin(c0), clock, counting)
      modifies this`counting, this`c, this`warmT, this`log
      ensures Valid() && View() == BeginCounting(old(View()), c0)
    {
      hide Tally, Count, RefreshesOf;
      ghost var e := Event(true, CountFrom(|queue.keys|), [], c0);
      TallyAppend(log, e);
      CountOutcome(c, e);
      counting := true;
      c := c.(warmMax := |queue.keys|);
      warmT := Some(c0);
      log := log + [e];
    }
  }

  lemma CountOutcome(c: Counters, e: Event)
    requires e.what.Looked? || e.what.Hit? || e.what.NegativeHit? || e.what.Miss? || e.what.CountFrom?
    ensures !IsRefresh(e.what)
    ensures Count(c, e) ==
      if !e.counted then c
      else match e.what
        case Looked => c.(lookups := c.lookups + 1)
        case Hit => c.(hits := c.hits + 1)
        case NegativeHit => c.(negativeHits := c.negativeHits + 1)
        case Miss(kind) => CountMiss(c, kind)
        case CountFrom(len) => c.(warmMax := len)
        case _ => c
  {
  }

  lemma CountStale(c: Counters, e: Event)
    requires e.what.Stale?
    ensures IsRefresh(e.what)
    ensures Count(c, e) ==
      if !e.counted then c
      else Refreshed(
          c.(staleHits := c.staleHits + 1, staleHitsWarm := c.staleHitsWarm + (if e.what.wasWarm then 1 else 0),
             staleAgeSum := c.staleAgeSum + e.what.age,
             staleAgeMax := if e.what.age > c.staleAgeMax then e.what.age else c.staleAgeMax), ByStale)
  {
  }

  lemma EvictKeeps(s: State, name: Name, now: Time)
    requires Linked(s) && OrderedDict.Valid(s.queue) && s.queue.keys != [] && name in s.table
    ensures name in Evict(s, now).table
  {
  }

  lemma CountEvicted(c: Counters, e: Event)
    requires e.what.Evicted?
    ensures Count(c, e) == (if e.counted then c.(warmEvicted := c.warmEvicted + 1) else c) && !IsRefresh(e.what)
  {
  }

  lemma CountPromoted(c: Counters, e: Event)
    requires e.what.Promoted?
    ensures Count(c, e) ==
            if e.counted then c.(promotes := c.promotes + 1, warmMax := Max(c.warmMax, e.what.len)) else c
    ensures !IsRefresh(e.what)
  {
  }

  lemma CountPlain(c: Counters, e: Event)
    ensures e.what.Cooled? || e.what.Seeded? ==> Count(c, e) == c
    ensures !IsRefresh(Cooled) && !IsRefresh(Seeded)
  {
  }

  lemma CountRefresh(c: Counters, e: Event, cause: Cause)
    requires (e.what.Timer? && cause == ByTimer) || (e.what.Ask? && cause == ByAsk)
    ensures Count(c, e) == (if e.counted then Refreshed(c, cause) else c) && IsRefresh(e.what)
  {
  }
}
