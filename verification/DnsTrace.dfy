/**
 * The exact course of every operation, said of the log alone: which timers fire, how a request is answered, which names
 * are promoted and which make way. Whatever the table does, it does this.
 */
module DnsTrace {
  import opened Names
  import opened OrderedDict
  import opened Heap
  import opened DnsModel
  import opened DnsRun
  import opened DnsIntegral
  import opened DnsHistory

  // ---- the laws

  /** The next timer by `t`: of the names kept warm the one due first, by name if several are. */
  ghost predicate NextTimer(cfg: Config, h: seq<Event>, e: Event, counted: bool, t: Time) {
    && e.counted == counted && e.at <= t && DueIn(cfg.k, h, e.name) == Some(e.at)
    && (forall q :: DueIn(cfg.k, h, q).Some? ==>
          var due := DueIn(cfg.k, h, q).value; e.at < due || (e.at == due && NameLeq(e.name, q)))
    && e.what == if e.at - UsedAt(h, e.name) < cfg.window then Timer else Cooled
  }

  /** Time passes to `t`: timers one after the other, as long as any is due. */
  ghost predicate TimePassed(cfg: Config, before: seq<Event>, after: seq<Event>, counted: bool, t: Time) {
    && before <= after
    && (forall i :: |before| <= i < |after| ==> NextTimer(cfg, after[..i], after[i], counted, t))
    && (forall q :: DueIn(cfg.k, after, q).Some? ==> t < DueIn(cfg.k, after, q).value)
  }

  function Events(counted: bool, whats: seq<What>, n: Name, t: Time): seq<Event> {
    seq(|whats|, i requires 0 <= i < |whats| => Event(counted, whats[i], n, t))
  }

  /** How a request for a known name is answered, by the age of the answer. */
  function Reply(cfg: Config, h: seq<Event>, n: Name, t: Time): seq<What> {
    var age := t - ResolvedAt(h, n);
    var warm := DueIn(cfg.k, h, n).Some?;
    if age < cfg.ttl then
      if t - UsedAt(h, n) < cfg.ttl && age >= cfg.k then [Hit, Ask(warm)] else [Hit]
    else if age < cfg.serveStale then [Stale(warm, age)]
    else [Miss(if warm then WarmStale else Expired)]
  }

  /** A request for a known name has it kept warm from now on. */
  predicate Rises(cfg: Config, h: seq<Event>, n: Name, t: Time) {
    && DueIn(cfg.k, h, n).None? && cfg.window > 0.0
    && (cfg.rule == Current ==> t - UsedAt(h, n) < cfg.window)
  }

  /** The first timer: a period from now, or from the answer, but not in the past. */
  function FirstTimer(cfg: Config, h: seq<Event>, n: Name, t: Time): Time {
    var fromAnswer := ResolvedAt(h, n) + cfg.k;
    match cfg.promoteAt
    case Now => t + cfg.k
    case Answer => if fromAnswer < t then t else fromAnswer
  }

  /** Of the names kept warm the one used longest ago; of several, the one whose timer was set first. */
  ghost predicate Oldest(cfg: Config, h: seq<Event>, v: Name) {
    && DueIn(cfg.k, h, v).Some?
    && forall q :: q != v && DueIn(cfg.k, h, q).Some? ==>
         UsedAt(h, v) < UsedAt(h, q) || (UsedAt(h, v) == UsedAt(h, q) && SetIn(h, v) < SetIn(h, q))
  }

  /** What a promotion logs: the oldest makes way if there is no room, and the name has its first timer set. */
  ghost predicate Risen(cfg: Config, h: seq<Event>, n: Name, t: Time, counted: bool, tail: seq<Event>) {
    var up := |tail| - 1;
    && tail != []
    && tail[up] == Event(counted, Promoted(FirstTimer(cfg, h, n, t), Queued(h + tail)), n, t)
    && if Queued(h) < cfg.maxWarm then up == 0
       else
         && up == 1 && Oldest(cfg, h, tail[0].name)
         && tail[0] == Event(counted, Evicted(DueIn(cfg.k, h, tail[0].name).value), tail[0].name, t)
  }

  /** A name is remembered as failing for 60 seconds (one never asked for, as if since the epoch). */
  predicate FailsStill(h: seq<Event>, n: Name, t: Time) {
    match AskedIn(h, n)
    case None => t < 0.0
    case Some(asked) => t < asked + 60.0
  }

  /** How a request at `t` is answered, once time has passed to `t`. */
  ghost predicate Replied(cfg: Config, h: seq<Event>, n: Name, t: Time, fail: bool, counted: bool, tail: seq<Event>) {
    if fail then tail == Events(counted, [Looked, if FailsStill(h, n, t) then NegativeHit else Miss(Negative)], n, t)
    else if !KnownIn(h, n) then tail == Events(counted, [Looked, Miss(Cold)], n, t)
    else
      var given := Events(counted, [Looked] + Reply(cfg, h, n, t), n, t);
      && given <= tail
      && if Rises(cfg, h, n, t) then Risen(cfg, h + given, n, t, counted, tail[|given|..]) else tail == given
  }

  /** A name is put in the table unless it is there, and kept warm if asked. */
  ghost predicate Placed(cfg: Config, h: seq<Event>, n: Name, used: Time, warm: bool, counted: bool, tail: seq<Event>) {
    if KnownIn(h, n) then tail == []
    else
      var placed := [Event(counted, Seeded, n, used)];
      && placed <= tail
      && if warm && cfg.window > 0.0 then Risen(cfg, h + placed, n, used, counted, tail[1..]) else tail == placed
  }

  ghost predicate Lawful(cfg: Config, before: seq<Event>, op: Op, counting: bool, after: seq<Event>) {
    match op
    case Look(n, t, fail) =>
      exists h :: TimePassed(cfg, before, h, counting, t) && h <= after
                  && Replied(cfg, h, n, t, fail, counting, after[|h|..])
    case Tick(t) => TimePassed(cfg, before, after, counting, t)
    case Seed(n, used, warm) => before <= after && Placed(cfg, before, n, used, warm, counting, after[|before|..])
    case Begin(t) => after == before + [Event(true, CountFrom(Queued(before)), [], t)]
  }

  // ---- time

  lemma FireFollows(cfg: Config, s: State, name: Name, due: Time)
    requires Linked(s) && name in s.queue.due
    ensures var r := Fire(cfg, s, name, due); r.log != [] && Follows(cfg, s, r, r.log[|r.log| - 1])
  {
    hide Push, Without, Fire, Set, Del;
    FireFields(cfg, s, name, due);
  }

  lemma HeadIsNext(cfg: Config, s: State, clock: Time, now: Time)
    requires Ok(cfg) && Inv(cfg, s, clock) && Mirrors(cfg, s) && Live(s) && s.heap[0].due <= now
    ensures var r := PopDue(cfg, s);
      && r.log != [] && r.log == s.log + [r.log[|s.log|]] && NextTimer(cfg, s.log, r.log[|s.log|], s.counting, now)
      && Mirrors(cfg, r) && r.counting == s.counting
  {
    hide Push, Without, Fire, Set, Del, Sorted, UsedAt, DueIn, Follows, NoDup;
    var p := s.heap[0];
    var s0 := s.(heap := s.heap[1..]);
    assert Alike(s, s0);
    AlikeMirrors(cfg, s, s0);
    FireFields(cfg, s0, p.name, p.due);
    FireFollows(cfg, s0, p.name, p.due);
    var r := PopDue(cfg, s);
    FollowsMirrors(cfg, s0, r, r.log[|s.log|]);
    assert Mirror(cfg, s, p.name);
    forall q | DueIn(cfg.k, s.log, q).Some? ensures PairLeq(p, Pair(DueIn(cfg.k, s.log, q).value, q)) {
      assert Mirror(cfg, s, q);
      HeadIsLeast(s.queue.due, s.heap, q);
    }
  }

  lemma {:induction false} TimeLaw(cfg: Config, s: State, clock: Time, now: Time)
    requires Ok(cfg) && Inv(cfg, s, clock) && clock <= now && Mirrors(cfg, s)
    ensures var r := Advance(cfg, s, now);
      Mirrors(cfg, r) && TimePassed(cfg, s.log, r.log, s.counting, now)
    decreases TotalRounds(cfg.k, s.heap, now)
  {
    hide Push, Without, NoDup, PopDue, Mirrors, NextTimer, DueIn;
    if s.heap != [] && s.heap[0].due <= now {
      PopDueDecreases(cfg, s, now);
      var r := PopDue(cfg, s);
      if Live(s) {
        HeadIsNext(cfg, s, clock, now);
        PopLiveInv(cfg, s, clock);
        TimeLaw(cfg, r, s.heap[0].due, now);
        var all := Advance(cfg, r, now).log;
        assert all[|s.log|] == r.log[|s.log|] && all[..|s.log|] == s.log;
      } else {
        PopStaleInv(cfg, s, clock);
        DisownedMirrors(cfg, s);
        TimeLaw(cfg, r, clock, now);
      }
    } else {
      RestMirrors(cfg, s, now);
      NothingDue(s.queue.due, s.heap, now);
      DuesLater(cfg, s, now);
    }
  }

  lemma DisownedMirrors(cfg: Config, s: State)
    requires Linked(s) && s.heap != [] && !Live(s) && Mirrors(cfg, s)
    ensures Mirrors(cfg, PopDue(cfg, s)) && PopDue(cfg, s).log == s.log && PopDue(cfg, s).counting == s.counting
  {
    hide Mirrors;
    AlikeMirrors(cfg, s, PopDue(cfg, s));
  }

  lemma RestMirrors(cfg: Config, s: State, now: Time)
    requires Mirrors(cfg, s)
    ensures Mirrors(cfg, TickWarm(s, now)) && TickWarm(s, now).log == s.log
  {
    hide Mirrors;
    AlikeMirrors(cfg, s, TickWarm(s, now));
  }

  lemma DuesLater(cfg: Config, s: State, now: Time)
    requires Mirrors(cfg, s) && forall n :: n in s.queue.due ==> now < s.queue.due[n]
    ensures forall q :: DueIn(cfg.k, s.log, q).Some? ==> now < DueIn(cfg.k, s.log, q).value
  {
    hide DueIn;
    forall q | DueIn(cfg.k, s.log, q).Some? ensures now < DueIn(cfg.k, s.log, q).value {
      assert Mirror(cfg, s, q);
    }
  }

  // ---- promotion

  lemma {:induction false} VictimIsFirst(keys: seq<Name>, table: map<Name, Entry>) returns (i: nat)
    requires keys != []
    ensures i < |keys| && keys[i] == Victim(keys, table)
    ensures forall j :: 0 <= j < i ==> LastUsed(table, keys[i]) < LastUsed(table, keys[j])
    ensures forall j :: 0 <= j < |keys| ==> LastUsed(table, keys[i]) <= LastUsed(table, keys[j])
  {
    hide LastUsed;
    if |keys| == 1 {
      i := 0;
    } else {
      var last := |keys| - 1;
      var before := keys[..last];
      i := VictimIsFirst(before, table);
      assert forall j :: 0 <= j < last ==> keys[j] == before[j];
      if LastUsed(table, keys[last]) < LastUsed(table, before[i]) {
        i := last;
      }
    }
  }

  lemma VictimIsOldest(cfg: Config, s: State)
    requires Linked(s) && Valid(s.queue) && Mirrors(cfg, s) && s.queue.keys != []
    ensures Oldest(cfg, s.log, Victim(s.queue.keys, s.table))
  {
    hide UsedAt, DueIn, SetIn, NoDup, Queued, AskedIn, ResolvedAt, KnownIn, Victim;
    var keys := s.queue.keys;
    var i := VictimIsFirst(keys, s.table);
    var v := keys[i];
    assert v in keys && Mirror(cfg, s, v);
    forall q | q != v && DueIn(cfg.k, s.log, q).Some?
      ensures UsedAt(s.log, v) < UsedAt(s.log, q)
              || (UsedAt(s.log, v) == UsedAt(s.log, q) && SetIn(s.log, v) < SetIn(s.log, q))
    {
      assert Mirror(cfg, s, q) && q in keys;
      var j :| 0 <= j < |keys| && keys[j] == q;
    }
  }

  lemma RoomyLaw(cfg: Config, s: State, now: Time)
    requires Ok(cfg) && Inv(cfg, s, now) && Mirrors(cfg, s)
    ensures var r := Roomy(cfg, s, now);
      && Mirrors(cfg, r)
      && if Queued(s.log) < cfg.maxWarm then r == s
         else
           var v := Victim(s.queue.keys, s.table);
           && Oldest(cfg, s.log, v)
           && r.log == s.log + [Event(s.counting, Evicted(DueIn(cfg.k, s.log, v).value), v, now)]
  {
    hide UsedAt, DueIn, SetIn, NoDup, Without, HeapInv, Follows, Oldest, Queued;
    if |s.queue.keys| >= cfg.maxWarm {
      var v := Victim(s.queue.keys, s.table);
      VictimIsOldest(cfg, s);
      assert Mirror(cfg, s, v) && v in s.queue.due;
      EvictFollows(cfg, s, now);
      FollowsMirrors(cfg, s, Evict(s, now), Event(s.counting, Evicted(Get(s.queue, v)), v, now));
    }
  }

  lemma EvictFollows(cfg: Config, s: State, now: Time)
    requires Linked(s) && Valid(s.queue) && s.queue.keys != []
    ensures var v := Victim(s.queue.keys, s.table);
      Follows(cfg, s, Evict(s, now), Event(s.counting, Evicted(Get(s.queue, v)), v, now))
  {
    hide NoDup, Without;
  }

  lemma PromoteLaw(cfg: Config, s: State, name: Name, now: Time)
    requires Ok(cfg) && Inv(cfg, s, now) && Mirrors(cfg, s) && name in s.table && !s.table[name].warm
    ensures var r := Promote(cfg, s, name, now);
      && Mirrors(cfg, r) && s.log <= r.log && Risen(cfg, s.log, name, now, s.counting, r.log[|s.log|..])
  {
    hide UsedAt, DueIn, SetIn, NoDup, Without, Push, Promote, HeapInv, DuesWithin, EntriesBy, Oldest, Queued, Mirrors;
    hide Follows;
    var s2 := Roomy(cfg, s, now);
    var r := Promote(cfg, s, name, now);
    RoomyInv(cfg, s, name, now);
    RoomyLaw(cfg, s, now);
    PromoteFields(cfg, s, name, now);
    PromoteKeeps(cfg, s, name, now);
    var e := r.log[|s2.log|];
    PromoteFollows(cfg, s2, r, name, now);
    FollowsMirrors(cfg, s2, r, e);
    MirrorsQueued(cfg, r);
    MirrorsOne(cfg, s, name);
    assert s.log + r.log[|s.log|..] == r.log;
  }

  lemma MirrorsQueued(cfg: Config, s: State)
    requires Mirrors(cfg, s)
    ensures |s.queue.keys| == Queued(s.log)
  {
  }

  lemma MirrorsOne(cfg: Config, s: State, n: Name)
    requires Mirrors(cfg, s)
    ensures Mirror(cfg, s, n)
  {
  }

  lemma PromoteFollows(cfg: Config, s: State, r: State, name: Name, now: Time)
    requires name in s.table && name !in s.queue.due
    requires var at := FirstDue(cfg, s.table[name], now);
      && r.table == s.table[name := s.table[name].(warm := true)] && r.queue == Set(s.queue, name, at)
      && r.negative == s.negative
      && r.log == s.log + [Event(s.counting, Promoted(at, |r.queue.keys|), name, now)]
    ensures Follows(cfg, s, r, r.log[|s.log|])
  {
    hide Set;
  }

  // ---- answers

  /** One event that is not about the queue. */
  lemma EmitLaw(cfg: Config, s: State, r: State, what: What, n: Name, t: Time)
    requires Valid(s.queue) && Mirrors(cfg, s)
    requires !what.Promoted? && !what.Timer? && !what.Evicted? && !what.Cooled?
    requires r == Emit(s, what, n, t).(table := r.table, negative := r.negative)
    requires forall q :: q != n ==> (q in r.table <==> q in s.table) && (q in s.table ==> r.table[q] == s.table[q])
    requires EntryAfter(s, r, Event(s.counting, what, n, t))
    requires r.negative == if what == Miss(Negative) then s.negative[n := t + 60.0] else s.negative
    ensures Mirrors(cfg, r)
  {
    hide Mirrors;
    FollowsMirrors(cfg, s, r, Event(s.counting, what, n, t));
  }

  /** What the three ways of answering do. */
  lemma ServeWays(cfg: Config, s: State, n: Name, t: Time)
    requires n in s.table && s.table[n].hasAddrs
    ensures var e := s.table[n].(lastUsed := t); var renewed := e.(resolvedAt := t); var age := t - e.resolvedAt;
      var s1 := Emit(Put(s, n, e), Hit, n, t);
      Serve(cfg, s, n, t) ==
      if age < cfg.ttl then
        if t - s.table[n].lastUsed < cfg.ttl && age >= cfg.k then Emit(Put(s1, n, renewed), Ask(e.warm), n, t) else s1
      else if age < cfg.serveStale then Emit(Put(s, n, renewed), Stale(e.warm, age), n, t)
      else Emit(Put(s, n, renewed), Miss(if e.warm then WarmStale else Expired), n, t)
  {
    var e := s.table[n].(lastUsed := t);
    assert e.(resolvedAt := t, hasAddrs := true) == e.(resolvedAt := t);
  }

  /** One event for a request that puts an entry, which is as the event says. */
  lemma PutLaw(cfg: Config, s: State, what: What, n: Name, e: Entry, t: Time)
    requires Valid(s.queue) && Mirrors(cfg, s) && n in s.table
    requires (what == Hit && e.resolvedAt == s.table[n].resolvedAt && e.lastUsed == t)
          || (what.Ask? && e.resolvedAt == t && e.lastUsed == s.table[n].lastUsed)
          || ((what.Stale? || what == Miss(WarmStale) || what == Miss(Expired)) && e.resolvedAt == e.lastUsed == t)
    ensures Mirrors(cfg, Emit(Put(s, n, e), what, n, t))
  {
    hide Mirrors;
    EmitLaw(cfg, s, Emit(Put(s, n, e), what, n, t), what, n, t);
  }

  lemma ServeLaw(cfg: Config, s: State, h: seq<Event>, n: Name, t: Time)
    requires Ok(cfg) && Inv(cfg, s, t) && Mirrors(cfg, s) && n in s.table
    requires ResolvedAt(s.log, n) == ResolvedAt(h, n) && UsedAt(s.log, n) == UsedAt(h, n)
    requires DueIn(cfg.k, s.log, n) == DueIn(cfg.k, h, n)
    ensures Mirrors(cfg, Serve(cfg, s, n, t))
    ensures Serve(cfg, s, n, t).log == s.log + Events(s.counting, Reply(cfg, h, n, t), n, t)
  {
    hide UsedAt, DueIn, ResolvedAt, KnownIn, NoDup, Mirrors, HeapInv, DuesWithin, EntriesBy, Serve;
    MirrorsOne(cfg, s, n);
    ServeWays(cfg, s, n, t);
    var e := s.table[n].(lastUsed := t);
    var renewed := e.(resolvedAt := t);
    assert e.warm <==> DueIn(cfg.k, h, n).Some?;
    var age := t - e.resolvedAt;
    if age < cfg.ttl {
      PutLaw(cfg, s, Hit, n, e, t);
      PutLaw(cfg, Emit(Put(s, n, e), Hit, n, t), Ask(e.warm), n, renewed, t);
    } else {
      PutLaw(cfg, s, Stale(e.warm, age), n, renewed, t);
      PutLaw(cfg, s, Miss(if e.warm then WarmStale else Expired), n, renewed, t);
    }
  }

  lemma LookedLaw(cfg: Config, s: State, n: Name, t: Time)
    requires Valid(s.queue) && Mirrors(cfg, s)
    ensures var r := Emit(s, Looked, n, t);
      && Mirrors(cfg, r) && DueIn(cfg.k, r.log, n) == DueIn(cfg.k, s.log, n) && AskedIn(r.log, n) == AskedIn(s.log, n)
      && ResolvedAt(r.log, n) == ResolvedAt(s.log, n) && UsedAt(r.log, n) == UsedAt(s.log, n)
  {
    hide Mirrors;
    EmitLaw(cfg, s, Emit(s, Looked, n, t), Looked, n, t);
    LogAppend(cfg.k, s.log, Event(s.counting, Looked, n, t), n);
  }

  lemma EventsTwo(counted: bool, a: What, b: What, n: Name, t: Time)
    ensures Events(counted, [a, b], n, t) == [Event(counted, a, n, t), Event(counted, b, n, t)]
  {
  }

  lemma FailLaw(cfg: Config, s: State, n: Name, t: Time)
    requires Ok(cfg) && Inv(cfg, s, t) && Mirrors(cfg, s)
    ensures var r := Answered(cfg, s, n, t, true);
      && Mirrors(cfg, r)
      && r.log == s.log
                  + Events(s.counting, [Looked, if FailsStill(s.log, n, t) then NegativeHit else Miss(Negative)], n, t)
  {
    hide Mirrors, AskedIn, Mirror, Inv, NoDup, Events;
    InvLinked(cfg, s, t);
    var s1 := Emit(s, Looked, n, t);
    var r := Answered(cfg, s, n, t, true);
    LookedLaw(cfg, s, n, t);
    Remembered(cfg, s, n, t);
    EventsTwo(s.counting, Looked, if FailsStill(s.log, n, t) then NegativeHit else Miss(Negative), n, t);
    hide FailsStill;
    if FailsStill(s.log, n, t) {
      EmitLaw(cfg, s1, r, NegativeHit, n, t);
    } else {
      EmitLaw(cfg, s1, r, Miss(Negative), n, t);
    }
  }

  lemma Remembered(cfg: Config, s: State, n: Name, t: Time)
    requires Mirrors(cfg, s)
    ensures FailsStill(s.log, n, t) <==> (if n in s.negative then s.negative[n] else 0.0) > t
  {
    MirrorsOne(cfg, s, n);
  }

  lemma ColdLaw(cfg: Config, s: State, n: Name, t: Time)
    requires Ok(cfg) && Inv(cfg, s, t) && Mirrors(cfg, s) && n !in s.table
    ensures var r := Answered(cfg, s, n, t, false);
      Mirrors(cfg, r) && r.log == s.log + Events(s.counting, [Looked, Miss(Cold)], n, t)
  {
    hide Mirrors;
    LookedLaw(cfg, s, n, t);
    EmitLaw(cfg, Emit(s, Looked, n, t), Answered(cfg, s, n, t, false), Miss(Cold), n, t);
  }

  lemma KnownFacts(cfg: Config, s: State, n: Name, t: Time)
    requires Inv(cfg, s, t) && n in s.table
    ensures Linked(s) && Valid(s.queue) && s.table[n].hasAddrs && (s.table[n].warm <==> n in s.queue.due)
    ensures Inv(cfg, Emit(s, Looked, n, t), t)
  {
  }

  lemma KnownLaw(cfg: Config, s: State, n: Name, t: Time)
    requires Ok(cfg) && Inv(cfg, s, t) && Mirrors(cfg, s) && n in s.table
    ensures var r := Answered(cfg, s, n, t, false);
      && Mirrors(cfg, r) && s.log <= r.log && Replied(cfg, s.log, n, t, false, s.counting, r.log[|s.log|..])
  {
    hide Mirrors, UsedAt, DueIn, ResolvedAt, KnownIn, Inv, NoDup, Serve, Promote, Reply, Risen;
    KnownFacts(cfg, s, n, t);
    var h := s.log;
    var s1 := Emit(s, Looked, n, t);
    var s2 := Serve(cfg, s1, n, t);
    var r := Answered(cfg, s, n, t, false);
    LookedLaw(cfg, s, n, t);
    ServeLaw(cfg, s1, h, n, t);
    ServeFields(cfg, s1, n, t);
    ServeInv(cfg, s1, n, t);
    MirrorsOne(cfg, s, n);
    var given := Events(s.counting, [Looked] + Reply(cfg, h, n, t), n, t);
    assert given == [Event(s.counting, Looked, n, t)] + Events(s.counting, Reply(cfg, h, n, t), n, t);
    assert s2.log == h + given;
    if Rises(cfg, h, n, t) {
      PromoteLaw(cfg, s2, n, t);
      assert r.log[|h|..][|given|..] == r.log[|s2.log|..];
    }
    assert r.log[|h|..][..|given|] == given;
  }

  lemma AnsweredLaw(cfg: Config, s: State, n: Name, t: Time, fail: bool)
    requires Ok(cfg) && Inv(cfg, s, t) && Mirrors(cfg, s)
    ensures var r := Answered(cfg, s, n, t, fail);
      && Mirrors(cfg, r) && s.log <= r.log && Replied(cfg, s.log, n, t, fail, s.counting, r.log[|s.log|..])
  {
    hide Mirrors, Answered, KnownIn, Risen, Reply, Rises, FailsStill, Inv;
    InvLinked(cfg, s, t);
    MirrorsOne(cfg, s, n);
    if fail {
      FailLaw(cfg, s, n, t);
    } else if n !in s.table {
      ColdLaw(cfg, s, n, t);
    } else {
      KnownLaw(cfg, s, n, t);
    }
  }

  lemma PrimeLaw(cfg: Config, s: State, n: Name, used: Time, warm: bool, clock: Time)
    requires Ok(cfg) && Inv(cfg, s, clock) && Mirrors(cfg, s) && Legal(Seed(n, used, warm), clock, s.counting)
    ensures var r := Prime(cfg, s, n, used, warm);
      && Mirrors(cfg, r) && s.log <= r.log && Placed(cfg, s.log, n, used, warm, s.counting, r.log[|s.log|..])
  {
    hide Mirrors, UsedAt, DueIn, ResolvedAt, KnownIn, NoDup, HeapInv, Promote, Risen;
    var r := Prime(cfg, s, n, used, warm);
    MirrorsOne(cfg, s, n);
    if n !in s.table {
      var s1 := SeedEntry(s, n, used);
      var placed := [Event(s.counting, Seeded, n, used)];
      EmitLaw(cfg, s, s1, Seeded, n, used);
      if warm && cfg.window > 0.0 {
        assert Inv(cfg, s1, clock);
        PromoteLaw(cfg, s1, n, clock);
        assert r.log[|s.log|..][1..] == r.log[|s1.log|..];
      }
      assert r.log[|s.log|..][..1] == placed;
    }
  }

  // ---- which names are kept warm

  /** Events that do not touch the queue. */
  lemma {:induction false} AsideDue(k: Time, h: seq<Event>, tail: seq<Event>, n: Name)
    requires forall e :: e in tail ==> e.what != Timer && !e.what.Promoted? && !e.what.Evicted? && e.what != Cooled
    ensures DueIn(k, h + tail, n) == DueIn(k, h, n)
    decreases |tail|
  {
    hide DueIn;
    if tail == [] {
      assert h + tail == h;
    } else {
      var last := |tail| - 1;
      assert h + tail == (h + tail[..last]) + [tail[last]];
      AsideDue(k, h, tail[..last], n);
      LogAppend(k, h + tail[..last], tail[last], n);
    }
  }

  /** What a promotion does to the names kept warm: in with its first timer, and out at most the oldest. */
  lemma RisenDue(cfg: Config, h: seq<Event>, n: Name, t: Time, counted: bool, tail: seq<Event>, q: Name)
    requires Risen(cfg, h, n, t, counted, tail)
    ensures DueIn(cfg.k, h + tail, q) ==
            if q == n then Some(FirstTimer(cfg, h, n, t))
            else if |tail| == 2 && q == tail[0].name then None
            else DueIn(cfg.k, h, q)
  {
    hide DueIn, UsedAt, SetIn, FirstTimer, Queued;
    var up := |tail| - 1;
    assert h + tail == (h + tail[..up]) + [tail[up]];
    LogAppend(cfg.k, h + tail[..up], tail[up], q);
    if up == 1 {
      assert tail[..1] == [tail[0]];
      LogAppend(cfg.k, h, tail[0], q);
    } else {
      assert h + tail[..0] == h;
    }
  }

  /**
   * Exactly when a request leaves its name kept warm: it was, or it was known and the rule says so: a window, and with
   * the current rule a use within that window.
   */
  lemma RequestKeepsWarmIff(cfg: Config, h: seq<Event>, n: Name, t: Time, fail: bool, counted: bool, tail: seq<Event>)
    requires Replied(cfg, h, n, t, fail, counted, tail)
    ensures DueIn(cfg.k, h + tail, n).Some? <==>
            || DueIn(cfg.k, h, n).Some?
            || (!fail && KnownIn(h, n) && cfg.window > 0.0 && (cfg.rule == Current ==> t - UsedAt(h, n) < cfg.window))
  {
    hide DueIn, UsedAt, KnownIn, ResolvedAt, Risen;
    if fail || !KnownIn(h, n) {
      AsideDue(cfg.k, h, tail, n);
    } else {
      var given := Events(counted, [Looked] + Reply(cfg, h, n, t), n, t);
      AsideDue(cfg.k, h, given, n);
      if Rises(cfg, h, n, t) {
        assert (h + given) + tail[|given|..] == h + tail;
        RisenDue(cfg, h + given, n, t, counted, tail[|given|..], n);
      }
    }
  }

  /** A name seeded warm, and not there before, is kept warm, exactly when there is a window. */
  lemma SeedKeepsWarmIff(cfg: Config, h: seq<Event>, n: Name, used: Time, counted: bool, tail: seq<Event>)
    requires cfg.k > 0.0 && Placed(cfg, h, n, used, true, counted, tail) && !KnownIn(h, n)
    requires DueIn(cfg.k, h, n).None?
    ensures DueIn(cfg.k, h + tail, n) == if cfg.window > 0.0 then Some(used + cfg.k) else None
  {
    hide DueIn, UsedAt, KnownIn, ResolvedAt, Risen;
    var placed := [Event(counted, Seeded, n, used)];
    LogAppend(cfg.k, h, placed[0], n);
    if cfg.window > 0.0 {
      assert (h + placed) + tail[1..] == h + tail;
      RisenDue(cfg, h + placed, n, used, counted, tail[1..], n);
    } else {
      assert tail == placed;
    }
  }

  // ---- every operation of every run

  lemma StepLaw(cfg: Config, s: State, clock: Time, op: Op)
    requires Ok(cfg) && Inv(cfg, s, clock) && Legal(op, clock, s.counting) && Mirrors(cfg, s)
    ensures op.Look? ==> Inv(cfg, Advance(cfg, s, op.at), op.at)
    ensures Mirrors(cfg, Step(cfg, s, op)) && Lawful(cfg, s.log, op, s.counting, Step(cfg, s, op).log)
  {
    hide Mirrors, Answered, Advance, Prime, TimePassed, Replied, Placed, NoDup, HeapInv, Queued;
    match op
    case Look(n, t, fail) =>
      AdvanceInv(cfg, s, clock, t);
      AdvanceCounting(cfg, s, t);
      TimeLaw(cfg, s, clock, t);
      AnsweredLaw(cfg, Advance(cfg, s, t), n, t, fail);
    case Tick(t) =>
      TimeLaw(cfg, s, clock, t);
    case Seed(n, used, warm) =>
      PrimeLaw(cfg, s, n, used, warm, clock);
    case Begin(t) =>
      MirrorsQueued(cfg, s);
      BeginLaw(cfg, s, t);
  }

  lemma BeginLaw(cfg: Config, s: State, t: Time)
    requires Valid(s.queue) && Mirrors(cfg, s)
    ensures Mirrors(cfg, BeginCounting(s, t))
  {
    hide Mirrors;
    var s1 := s.(counting := true);
    AlikeButCounting(cfg, s, s1);
    var r := BeginCounting(s, t);
    EmitLaw(cfg, s1, r.(warmT := s.warmT), CountFrom(|s.queue.keys|), [], t);
    AlikeMirrors(cfg, r.(warmT := s.warmT), r);
  }

  lemma AlikeButCounting(cfg: Config, s: State, r: State)
    requires Mirrors(cfg, s) && r == s.(counting := r.counting)
    ensures Mirrors(cfg, r)
  {
    hide KnownIn, ResolvedAt, UsedAt, DueIn, AskedIn, SetIn;
    forall n ensures Mirror(cfg, r, n) {
      assert Mirror(cfg, s, n);
    }
  }

  lemma StartMirrors(cfg: Config, counting: bool)
    ensures Mirrors(cfg, Start(counting))
  {
  }

  lemma {:induction false} RunMirrors(cfg: Config, s: State, clock: Time, ops: seq<Op>)
    requires Ok(cfg) && Inv(cfg, s, clock) && Timely(ops, clock, s.counting) && Mirrors(cfg, s)
    ensures Mirrors(cfg, Run(cfg, s, clock, ops))
    decreases |ops|
  {
    hide Step, Mirrors, Lawful;
    if ops != [] {
      StepInv(cfg, s, clock, ops[0]);
      StepLaw(cfg, s, clock, ops[0]);
      RunMirrors(cfg, Step(cfg, s, ops[0]), ClockAfter(ops[0], clock), ops[1..]);
    }
  }

  /** Every operation of every run logs exactly what the laws say, from what was logged before and nothing else. */
  lemma EveryOperationIsLawful(cfg: Config, counting: bool, clock: Time, ops: seq<Op>, op: Op)
    requires Ok(cfg) && Timely(ops + [op], clock, counting)
    ensures Timely(ops, clock, counting) && Inv(cfg, Start(counting), clock)
    ensures var s := Run(cfg, Start(counting), clock, ops);
      Lawful(cfg, s.log, op, s.counting, Run(cfg, Start(counting), clock, ops + [op]).log)
  {
    hide Run, Step, Inv, Mirrors, Lawful, Legal;
    StartInv(cfg, clock, counting);
    StartMirrors(cfg, counting);
    TimelyAppend(ops, [op], clock, counting);
    RunAppend(cfg, Start(counting), clock, ops, [op]);
    RunMirrors(cfg, Start(counting), clock, ops);
    var s := Run(cfg, Start(counting), clock, ops);
    assert [op][1..] == [];
    StepLaw(cfg, s, EndClock(ops, clock), op);
    OneStep(cfg, s, EndClock(ops, clock), op);
  }

  /** In every reachable state the table is what its log says. */
  lemma TableIsItsHistory(cfg: Config, counting: bool, clock: Time, ops: seq<Op>, n: Name)
    requires Ok(cfg) && Timely(ops, clock, counting)
    ensures Inv(cfg, Start(counting), clock)
    ensures var s := Run(cfg, Start(counting), clock, ops);
      && (n in s.table <==> KnownIn(s.log, n))
      && (n in s.table ==> s.table[n].resolvedAt == ResolvedAt(s.log, n) && s.table[n].lastUsed == UsedAt(s.log, n)
                           && (s.table[n].warm <==> DueIn(cfg.k, s.log, n).Some?))
      && DueIn(cfg.k, s.log, n) == (if n in s.queue.due then Some(s.queue.due[n]) else None)
  {
    hide Run, KnownIn, ResolvedAt, UsedAt, DueIn, AskedIn, SetIn, HeapInv, DuesWithin, EntriesBy;
    StartInv(cfg, clock, counting);
    StartMirrors(cfg, counting);
    RunMirrors(cfg, Start(counting), clock, ops);
    assert Mirror(cfg, Run(cfg, Start(counting), clock, ops), n);
  }
}
