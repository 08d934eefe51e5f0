/** What happens to one name while the table attends to others, and runs put together operation by operation. */
module DnsFrame {
  import opened Names
  import opened OrderedDict
  import opened Heap
  import opened DnsModel
  import opened DnsRun
  import opened DnsTally

  /** The name has this entry, and is queued for then (or is not queued). */
  ghost predicate Has(s: State, n: Name, e: Entry, due: Option<Time>) {
    && n in s.table && s.table[n] == e
    && (n in s.queue.due <==> due.Some?)
    && (due.Some? ==> s.queue.due[n] == due.value)
  }

  /** Nothing has changed for the name. */
  ghost predicate Same(s: State, r: State, n: Name) {
    && (n in r.table <==> n in s.table) && (n in s.table ==> r.table[n] == s.table[n])
    && (n in r.queue.due <==> n in s.queue.due) && (n in s.queue.due ==> r.queue.due[n] == s.queue.due[n])
  }

  /** As many names as a run needs. */
  function Filler(i: nat): Name {
    seq(i + 1, j => 'o')
  }

  lemma FillersDiffer(i: nat, j: nat)
    ensures Filler(i) == Filler(j) ==> i == j
  {
    assert |Filler(i)| == i + 1 && |Filler(j)| == j + 1;
  }

  // ---- the count of timers only grows

  lemma {:induction false} TimersGrow(a: seq<Event>, b: seq<Event>)
    requires a <= b
    ensures Tally(a).refreshWarm <= Tally(b).refreshWarm
  {
    hide Count;
    if a != b {
      var last := |b| - 1;
      TimersGrow(a, b[..last]);
      CountTimer(Tally(b[..last]), b[last]);
    }
  }

  lemma TimerCounted(log: seq<Event>, name: Name, at: Time)
    ensures Tally(log + [Event(true, Timer, name, at)]).refreshWarm == Tally(log).refreshWarm + 1
  {
    hide Count;
    TallyAppend(log, Event(true, Timer, name, at));
    CountTimer(Tally(log), Event(true, Timer, name, at));
  }

  lemma {:induction false} AdvanceLogs(cfg: Config, s: State, now: Time)
    requires cfg.k > 0.0 && Linked(s)
    ensures s.log <= Advance(cfg, s, now).log
    decreases TotalRounds(cfg.k, s.heap, now)
  {
    hide Push, Without;
    if s.heap != [] && s.heap[0].due <= now {
      PopDueDecreases(cfg, s, now);
      AdvanceLogs(cfg, PopDue(cfg, s), now);
    }
  }

  lemma PromoteLogs(cfg: Config, s: State, name: Name, now: Time)
    requires Linked(s) && Valid(s.queue) && name in s.table && cfg.maxWarm >= 1
    ensures s.log <= Promote(cfg, s, name, now).log
  {
    hide Push, Without, NoDup;
  }

  lemma AnsweredLogs(cfg: Config, s: State, name: Name, now: Time, fail: bool)
    requires Ok(cfg) && Linked(s) && Valid(s.queue)
    ensures s.log <= Answered(cfg, s, name, now, fail).log
  {
    hide Promote;
    if !fail && name in s.table && Promotes(cfg, s.table[name], now - s.table[name].lastUsed) {
      PromoteLogs(cfg, Serve(cfg, Emit(s, Looked, name, now), name, now), name, now);
    }
  }

  // ---- time passes

  /** A timer leaves every other name alone. */
  lemma PopLeaves(cfg: Config, s: State, n: Name)
    requires Linked(s) && Valid(s.queue) && s.heap != [] && (Live(s) ==> s.heap[0].name != n)
    ensures Same(s, PopDue(cfg, s), n)
  {
    hide Push, Without, Fire;
    if Live(s) {
      FireFields(cfg, s.(heap := s.heap[1..]), s.heap[0].name, s.heap[0].due);
      DelValid(s.queue, s.heap[0].name);
    }
  }

  /** Time leaves a name alone that is not queued, or not yet due. */
  lemma {:induction false} AdvanceLeaves(cfg: Config, s: State, clock: Time, now: Time, n: Name)
    requires Ok(cfg) && Inv(cfg, s, clock) && clock <= now && (n in s.queue.due ==> now < s.queue.due[n])
    ensures Same(s, Advance(cfg, s, now), n)
    decreases TotalRounds(cfg.k, s.heap, now)
  {
    hide Push, Without, NoDup, PopDue;
    if s.heap != [] && s.heap[0].due <= now {
      PopDueDecreases(cfg, s, now);
      PopLeaves(cfg, s, n);
      if Live(s) {
        PopLiveInv(cfg, s, clock);
        AdvanceLeaves(cfg, PopDue(cfg, s), s.heap[0].due, now, n);
      } else {
        PopStaleInv(cfg, s, clock);
        AdvanceLeaves(cfg, PopDue(cfg, s), clock, now, n);
      }
    }
  }

  /** With nothing due, time leaves every name alone. */
  lemma AdvanceQuiet(cfg: Config, s: State, clock: Time, now: Time)
    requires Ok(cfg) && Inv(cfg, s, clock) && clock <= now && forall n :: n in s.queue.due ==> now < s.queue.due[n]
    ensures Advance(cfg, s, now).table == s.table && Advance(cfg, s, now).queue.due == s.queue.due
  {
    hide Inv, Advance;
    InvLinked(cfg, s, clock);
    var r := Advance(cfg, s, now);
    forall n ensures (n in r.table <==> n in s.table) && (n in s.table ==> r.table[n] == s.table[n]) {
      AdvanceLeaves(cfg, s, clock, now, n);
    }
    forall n
      ensures (n in r.queue.due <==> n in s.queue.due) && (n in s.queue.due ==> r.queue.due[n] == s.queue.due[n])
    {
      AdvanceLeaves(cfg, s, clock, now, n);
    }
    assert r.table == s.table && r.queue.due == s.queue.due;
  }

  /** A warm name used within its window has its timer when that is due: a new answer, the next timer, one count. */
  lemma {:induction false} AdvanceFires(cfg: Config, s: State, clock: Time, now: Time, n: Name, e: Entry, due: Time)
    requires Ok(cfg) && Inv(cfg, s, clock) && clock <= now && Has(s, n, e, Some(due)) && e.warm
    requires due <= now < due + cfg.k && due - e.lastUsed < cfg.window
    ensures Has(Advance(cfg, s, now), n, e.(resolvedAt := due), Some(due + cfg.k))
    ensures s.counting ==> Tally(s.log).refreshWarm + 1 <= Tally(Advance(cfg, s, now).log).refreshWarm
    decreases TotalRounds(cfg.k, s.heap, now)
  {
    hide Push, Without, NoDup, PopDue, Tally;
    HeadIsLeast(s.queue.due, s.heap, n);
    PopDueDecreases(cfg, s, now);
    var r := PopDue(cfg, s);
    if Live(s) {
      PopLiveInv(cfg, s, clock);
      if s.heap[0].name == n {
        PopFires(cfg, s, n, e, due);
        AdvanceLeaves(cfg, r, due, now, n);
        AdvanceLogs(cfg, r, now);
        TimersGrow(r.log, Advance(cfg, r, now).log);
      } else {
        PopLeaves(cfg, s, n);
        PopLogs(cfg, s);
        AdvanceFires(cfg, r, s.heap[0].due, now, n, e, due);
      }
    } else {
      PopLeaves(cfg, s, n);
      PopStaleInv(cfg, s, clock);
      PopLogs(cfg, s);
      AdvanceFires(cfg, r, clock, now, n, e, due);
    }
  }

  lemma PopLogs(cfg: Config, s: State)
    requires Linked(s) && s.heap != []
    ensures PopDue(cfg, s).counting == s.counting
    ensures Tally(s.log).refreshWarm <= Tally(PopDue(cfg, s).log).refreshWarm
  {
    hide Push, Without, Tally;
    TimersGrow(s.log, PopDue(cfg, s).log);
  }

  lemma PopFires(cfg: Config, s: State, n: Name, e: Entry, due: Time)
    requires Linked(s) && Valid(s.queue) && Live(s) && s.heap[0].name == n && Has(s, n, e, Some(due))
    requires e.warm && due - e.lastUsed < cfg.window
    ensures Has(PopDue(cfg, s), n, e.(resolvedAt := due), Some(due + cfg.k))
    ensures s.counting ==> Tally(PopDue(cfg, s).log).refreshWarm == Tally(s.log).refreshWarm + 1
  {
    hide Push, Without, Fire, Tally;
    FireFields(cfg, s.(heap := s.heap[1..]), n, due);
    TimerCounted(s.log, n, due);
  }

  // ---- requests

  /** A request for another name leaves alone every name that is not queued. */
  lemma AnsweredLeaves(cfg: Config, s: State, name: Name, now: Time, n: Name)
    requires Ok(cfg) && Inv(cfg, s, now) && n != name && n !in s.queue.due
    ensures Same(s, Answered(cfg, s, name, now, false), n)
  {
    hide Push, Without, NoDup, Promote, Serve, HeapInv;
    var s1 := Emit(s, Looked, name, now);
    if name in s.table {
      ServeFields(cfg, s1, name, now);
      ServeInv(cfg, s1, name, now);
      if Promotes(cfg, s.table[name], now - s.table[name].lastUsed) {
        PromoteLeaves(cfg, Serve(cfg, s1, name, now), name, now, n);
      }
    }
  }

  lemma PromoteLeaves(cfg: Config, s: State, name: Name, now: Time, n: Name)
    requires Ok(cfg) && Inv(cfg, s, now) && n != name && n !in s.queue.due && name in s.table && !s.table[name].warm
    ensures Same(s, Promote(cfg, s, name, now), n)
  {
    hide Push, Without, NoDup, Promote, HeapInv;
    RoomyInv(cfg, s, name, now);
    PromoteFields(cfg, s, name, now);
    if |s.queue.keys| >= cfg.maxWarm {
      DelValid(s.queue, Victim(s.queue.keys, s.table));
    }
  }

  /** The first request for a name. */
  lemma AnsweredCold(cfg: Config, s: State, n: Name, now: Time)
    requires Ok(cfg) && Inv(cfg, s, now) && n !in s.table
    ensures var r := Answered(cfg, s, n, now, false);
      && r.table == s.table[n := Entry(true, now, now, false)] && r.queue == s.queue
      && Has(r, n, Entry(true, now, now, false), None)
  {
    hide Push, Without, NoDup, Promote, Serve, HeapInv;
  }

  /** The answer is this very moment's, or there is a hit with no refresh ahead of expiry. */
  predicate StaysAnswer(cfg: Config, e: Entry, now: Time) {
    || now == e.resolvedAt
    || (now - e.resolvedAt < cfg.ttl && (now - e.lastUsed >= cfg.ttl || now - e.resolvedAt < cfg.k))
  }

  /** Then the last use is now, and the name is promoted if the rule says so. */
  lemma AnsweredHit(cfg: Config, s: State, n: Name, now: Time, e: Entry, due: Option<Time>)
    requires Ok(cfg) && Inv(cfg, s, now) && Has(s, n, e, due) && StaysAnswer(cfg, e, now)
    ensures var r := Answered(cfg, s, n, now, false);
      if Promotes(cfg, e, now - e.lastUsed)
      then Has(r, n, e.(lastUsed := now, warm := true), Some(FirstDue(cfg, e, now)))
      else Has(r, n, e.(lastUsed := now), due)
  {
    hide Push, Without, NoDup, Promote, HeapInv, DuesWithin, EntriesBy, Serve;
    var s1 := Emit(s, Looked, n, now);
    var s2 := Serve(cfg, s1, n, now);
    ServeInv(cfg, s1, n, now);
    ServeFields(cfg, s1, n, now);
    ServeHit(cfg, s1, n, now);
    assert Has(s2, n, e.(lastUsed := now), due);
    if Promotes(cfg, e, now - e.lastUsed) {
      RoomyInv(cfg, s2, n, now);
      PromoteFields(cfg, s2, n, now);
    }
  }

  lemma ServeHit(cfg: Config, s: State, n: Name, now: Time)
    requires cfg.k > 0.0 && n in s.table && s.table[n].hasAddrs && StaysAnswer(cfg, s.table[n], now)
    ensures Serve(cfg, s, n, now).table[n] == s.table[n].(lastUsed := now)
  {
  }

  /** Another name that is asked for may push out the one used before it, and no name used at that moment. */
  lemma AnsweredPushes(cfg: Config, s: State, name: Name, now: Time, n: Name, e: Entry, due: Time)
    requires Ok(cfg) && Inv(cfg, s, now) && n != name && Has(s, n, e, Some(due)) && e.lastUsed < now
    ensures var r := Answered(cfg, s, name, now, false);
      && name in r.table && r.table[name].lastUsed == now && r.table[name].hasAddrs
      && (Has(r, n, e, Some(due)) || Has(r, n, e.(warm := false), None))
      && forall m :: m in s.queue.due && s.table[m].lastUsed == now && n in r.queue.due ==>
           m in r.queue.due && r.table[m].lastUsed == now
    ensures name in s.table && (s.table[name].warm || (s.table[name].lastUsed == now && cfg.window > 0.0)) ==>
              var r := Answered(cfg, s, name, now, false); n in r.queue.due ==> name in r.queue.due
  {
    hide Push, Without, NoDup, Promote, Serve, HeapInv;
    var s1 := Emit(s, Looked, name, now);
    if name in s.table {
      var s2 := Serve(cfg, s1, name, now);
      ServeFields(cfg, s1, name, now);
      ServeInv(cfg, s1, name, now);
      if Promotes(cfg, s.table[name], now - s.table[name].lastUsed) {
        PromotePushes(cfg, s2, name, now, n, e, due);
      }
    }
  }

  lemma PromotePushes(cfg: Config, s: State, name: Name, now: Time, n: Name, e: Entry, due: Time)
    requires Ok(cfg) && Inv(cfg, s, now) && n != name && Has(s, n, e, Some(due)) && e.lastUsed < now
    requires name in s.table && !s.table[name].warm
    ensures var r := Promote(cfg, s, name, now);
      && name in r.queue.due && r.table[name] == s.table[name].(warm := true)
      && (Has(r, n, e, Some(due)) || Has(r, n, e.(warm := false), None))
      && forall m :: m in s.queue.due && s.table[m].lastUsed == now && n in r.queue.due ==>
           m in r.queue.due && r.table[m].lastUsed == now
  {
    hide Push, Without, NoDup, Promote, HeapInv;
    RoomyInv(cfg, s, name, now);
    PromoteFields(cfg, s, name, now);
    if |s.queue.keys| >= cfg.maxWarm {
      DelValid(s.queue, Victim(s.queue.keys, s.table));
    }
  }

  /** A request changes no other name that is queued after it, and queues no other. */
  lemma AnsweredOthers(cfg: Config, s: State, name: Name, now: Time, n: Name)
    requires Ok(cfg) && Inv(cfg, s, now) && n != name && n in Answered(cfg, s, name, now, false).queue.due
    ensures n in s.queue.due && Same(s, Answered(cfg, s, name, now, false), n)
  {
    hide Push, Without, NoDup, Promote, Serve, HeapInv, DuesWithin, EntriesBy;
    var s1 := Emit(s, Looked, name, now);
    if name in s.table {
      ServeFields(cfg, s1, name, now);
      ServeInv(cfg, s1, name, now);
      if Promotes(cfg, s.table[name], now - s.table[name].lastUsed) {
        PromoteOthers(cfg, Serve(cfg, s1, name, now), name, now, n);
      }
    }
  }

  lemma PromoteOthers(cfg: Config, s: State, name: Name, now: Time, n: Name)
    requires Ok(cfg) && Inv(cfg, s, now) && n != name && name in s.table && !s.table[name].warm
    requires n in Promote(cfg, s, name, now).queue.due
    ensures n in s.queue.due && Same(s, Promote(cfg, s, name, now), n)
  {
    hide Push, Without, NoDup, Promote, HeapInv, DuesWithin, EntriesBy;
    RoomyInv(cfg, s, name, now);
    PromoteFields(cfg, s, name, now);
    if |s.queue.keys| >= cfg.maxWarm {
      DelValid(s.queue, Victim(s.queue.keys, s.table));
    }
  }

  /** A name used now keeps its place, when there is room or a queued name that was used before. */
  lemma AnsweredRoom(cfg: Config, s: State, name: Name, now: Time, n: Name)
    requires Ok(cfg) && Inv(cfg, s, now) && n != name && n in s.queue.due && s.table[n].lastUsed == now
    requires |s.queue.keys| < cfg.maxWarm || exists o :: o in s.queue.due && s.table[o].lastUsed < now
    ensures Same(s, Answered(cfg, s, name, now, false), n)
  {
    hide Push, Without, NoDup, Promote, Serve, HeapInv, DuesWithin, EntriesBy;
    var s1 := Emit(s, Looked, name, now);
    if name in s.table {
      ServeFields(cfg, s1, name, now);
      ServeInv(cfg, s1, name, now);
      if Promotes(cfg, s.table[name], now - s.table[name].lastUsed) {
        PromoteRoom(cfg, Serve(cfg, s1, name, now), name, now, n);
      }
    }
  }

  lemma PromoteRoom(cfg: Config, s: State, name: Name, now: Time, n: Name)
    requires Ok(cfg) && Inv(cfg, s, now) && n != name && n in s.queue.due && s.table[n].lastUsed == now
    requires |s.queue.keys| < cfg.maxWarm || exists o :: o in s.queue.due && s.table[o].lastUsed < now
    requires name in s.table && !s.table[name].warm
    ensures Same(s, Promote(cfg, s, name, now), n)
  {
    hide Push, Without, NoDup, Promote, HeapInv, DuesWithin, EntriesBy;
    RoomyInv(cfg, s, name, now);
    PromoteFields(cfg, s, name, now);
    if |s.queue.keys| >= cfg.maxWarm {
      DelValid(s.queue, Victim(s.queue.keys, s.table));
    }
  }

  /** A request for a queued name leaves the queue alone, and every other name. */
  lemma AnsweredQueued(cfg: Config, s: State, n: Name, now: Time)
    requires Ok(cfg) && Inv(cfg, s, now) && n in s.queue.due
    ensures var r := Answered(cfg, s, n, now, false);
      && r.queue == s.queue && n in r.table && r.table[n].lastUsed == now
      && forall q :: q != n ==> Same(s, r, q)
  {
    hide Push, Without, NoDup, Promote, Serve, HeapInv, DuesWithin, EntriesBy;
    ServeFields(cfg, Emit(s, Looked, n, now), n, now);
  }

  /** Time queues no name, and uses none. */
  lemma {:induction false} AdvanceUsed(cfg: Config, s: State, clock: Time, now: Time, n: Name)
    requires Ok(cfg) && Inv(cfg, s, clock) && clock <= now && n in Advance(cfg, s, now).queue.due
    ensures n in s.queue.due && n in s.table && n in Advance(cfg, s, now).table
    ensures Advance(cfg, s, now).table[n].lastUsed == s.table[n].lastUsed
    decreases TotalRounds(cfg.k, s.heap, now)
  {
    hide Push, Without, NoDup, PopDue;
    if s.heap != [] && s.heap[0].due <= now {
      PopDueDecreases(cfg, s, now);
      PopUsed(cfg, s, n);
      if Live(s) {
        PopLiveInv(cfg, s, clock);
        AdvanceUsed(cfg, PopDue(cfg, s), s.heap[0].due, now, n);
      } else {
        PopStaleInv(cfg, s, clock);
        AdvanceUsed(cfg, PopDue(cfg, s), clock, now, n);
      }
    }
  }

  lemma PopUsed(cfg: Config, s: State, n: Name)
    requires Linked(s) && Valid(s.queue) && s.heap != []
    ensures n in PopDue(cfg, s).queue.due ==>
              n in s.queue.due && PopDue(cfg, s).table[n].lastUsed == s.table[n].lastUsed
  {
    hide Push, Without, Fire;
    if Live(s) {
      FireFields(cfg, s.(heap := s.heap[1..]), s.heap[0].name, s.heap[0].due);
      DelValid(s.queue, s.heap[0].name);
    }
  }

  // ---- runs operation by operation

  /** A run from `s0` that has come to `s` at `clock`. */
  ghost predicate Reaches(cfg: Config, s0: State, c0: Time, ops: seq<Op>, s: State, clock: Time)
    requires Ok(cfg) && Inv(cfg, s0, c0)
  {
    && Timely(ops, c0, s0.counting) && EndClock(ops, c0) == clock && Run(cfg, s0, c0, ops) == s
    && Inv(cfg, s, clock) && s.counting == CountingAfter(ops, s0.counting)
  }

  lemma ReachesItself(cfg: Config, s0: State, c0: Time)
    requires Ok(cfg) && Inv(cfg, s0, c0)
    ensures Reaches(cfg, s0, c0, [], s0, c0)
  {
  }

  lemma ReachesNext(cfg: Config, s0: State, c0: Time, ops: seq<Op>, s: State, clock: Time, op: Op)
    requires Ok(cfg) && Inv(cfg, s0, c0) && Reaches(cfg, s0, c0, ops, s, clock) && Legal(op, clock, s.counting)
    ensures Linked(s) && Valid(s.queue) && (op.Look? ==> Inv(cfg, Advance(cfg, s, op.at), op.at))
    ensures Reaches(cfg, s0, c0, ops + [op], Step(cfg, s, op), ClockAfter(op, clock))
  {
    hide Step, Inv, Legal;
    TimelyAppend(ops, [op], c0, s0.counting);
    assert [op][1..] == [];
    StepInv(cfg, s, clock, op);
    InvLinked(cfg, s, clock);
    OneStep(cfg, s, clock, op);
    RunAppend(cfg, s0, c0, ops, [op]);
  }

  /** What a request does to a name it is for, from before time passes. */
  lemma LookNext(cfg: Config, s0: State, c0: Time, ops: seq<Op>, s: State, clock: Time, name: Name, at: Time)
    returns (mid: State, r: State)
    requires Ok(cfg) && Inv(cfg, s0, c0) && Reaches(cfg, s0, c0, ops, s, clock) && clock <= at
    ensures Linked(s) && mid == Advance(cfg, s, at) && Inv(cfg, mid, at) && mid.counting == s.counting
    ensures Ok(cfg) && r == Answered(cfg, mid, name, at, false) && s.log <= mid.log <= r.log
    ensures Reaches(cfg, s0, c0, ops + [Look(name, at, false)], r, at) && r.counting == s.counting
  {
    hide Run, Inv, Answered, Advance;
    ReachesNext(cfg, s0, c0, ops, s, clock, Look(name, at, false));
    mid := Advance(cfg, s, at);
    r := Answered(cfg, mid, name, at, false) by { InvLinked(cfg, mid, at); }
    AdvanceInv(cfg, s, clock, at);
    InvLinked(cfg, mid, at);
    AdvanceCounting(cfg, s, at);
    AdvanceLogs(cfg, s, at);
    AnsweredKeeps(cfg, mid, name, at, false);
    AnsweredLogs(cfg, mid, name, at, false);
  }
}
