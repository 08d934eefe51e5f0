/** Runs of the table, and the invariant every reachable state satisfies. */
module DnsRun {
  import opened Names
  import opened OrderedDict
  import opened Heap
  import opened DnsModel

  /** What a caller of the table does: look a name up, let time pass, seed a name, begin to count. */
  datatype Op =
    | Look(name: Name, at: Time, fail: bool)
    | Tick(at: Time)
    | Seed(name: Name, lastUsed: Time, warm: bool)
    | Begin(at: Time)

  function ClockAfter(op: Op, clock: Time): Time {
    match op
    case Look(_, at, _) => at
    case Tick(at) => at
    case Seed(_, _, _) => clock
    case Begin(at) => at
  }

  /** Time does not go back; seeding happens before counting, and a warm name is seeded at the present. */
  predicate Legal(op: Op, clock: Time, counting: bool) {
    match op
    case Look(_, at, _) => clock <= at
    case Tick(at) => clock <= at
    case Seed(_, lastUsed, warm) => !counting && lastUsed <= clock && (warm ==> lastUsed == clock)
    case Begin(at) => !counting && clock == at
  }

  predicate Timely(ops: seq<Op>, clock: Time, counting: bool) {
    ops == [] ||
    (Legal(ops[0], clock, counting) && Timely(ops[1..], ClockAfter(ops[0], clock), counting || ops[0].Begin?))
  }

  function EndClock(ops: seq<Op>, clock: Time): Time {
    if ops == [] then clock else EndClock(ops[1..], ClockAfter(ops[0], clock))
  }

  /** The `warm` flags and the queue say the same, and the queue is no longer than its limit. */
  ghost predicate QueueInv(table: map<Name, Entry>, queue: Dict, maxWarm: nat) {
    && Valid(queue)
    && (forall n :: n in queue.due ==> n in table)
    && (forall n :: n in table ==> table[n].hasAddrs && (table[n].warm <==> n in queue.due))
    && |queue.keys| <= maxWarm
  }

  /** Every queued name has its pair in the heap; the heap may hold any others. */
  ghost predicate HeapInv(due: map<Name, Time>, heap: seq<Pair>) {
    && Sorted(heap)
    && (forall n :: n in due ==> Pair(due[n], n) in heap)
  }

  ghost predicate DuesWithin(due: map<Name, Time>, lo: Time, hi: Time) {
    forall n :: n in due ==> lo <= due[n] <= hi
  }

  ghost predicate EntriesBy(table: map<Name, Entry>, clock: Time) {
    forall n :: n in table ==> table[n].resolvedAt <= clock && table[n].lastUsed <= clock
  }

  ghost predicate ClockInv(counting: bool, warmT: Option<Time>, clock: Time) {
    warmT.Some? ==> warmT.value <= clock && (counting ==> warmT.value == clock)
  }

  /** The invariant of reachable states: the two halves of the queue agree, and its timers lie within one period. */
  ghost predicate Inv(cfg: Config, s: State, clock: Time) {
    && QueueInv(s.table, s.queue, cfg.maxWarm)
    && HeapInv(s.queue.due, s.heap)
    && DuesWithin(s.queue.due, clock, clock + cfg.k)
    && EntriesBy(s.table, clock)
    && ClockInv(s.counting, s.warmT, clock)
  }

  function Step(cfg: Config, s: State, op: Op): (r: State)
    requires Ok(cfg) && Linked(s) && Valid(s.queue)
    requires op.Look? ==> Valid(Advance(cfg, s, op.at).queue)
    ensures Linked(r)
  {
    match op
    case Look(name, at, fail) => Answered(cfg, Advance(cfg, s, at), name, at, fail)
    case Tick(at) => Advance(cfg, s, at)
    case Seed(name, lastUsed, warm) => Prime(cfg, s, name, lastUsed, warm)
    case Begin(at) => BeginCounting(s, at)
  }

  // ---- preservation

  ghost predicate Live(s: State) {
    s.heap != [] && s.heap[0].name in s.queue.due && s.queue.due[s.heap[0].name] == s.heap[0].due
  }

  /** The head of the heap is due no later than anything live. */
  lemma HeadIsLeast(due: map<Name, Time>, heap: seq<Pair>, n: Name)
    requires HeapInv(due, heap) && n in due
    ensures heap != [] && PairLeq(heap[0], Pair(due[n], n))
  {
    SortedMember(heap, Pair(due[n], n));
  }

  lemma PopKeepsHeap(h: seq<Pair>)
    requires Sorted(h) && h != []
    ensures Sorted(h[1..]) && forall p :: p in h && p != h[0] ==> p in h[1..]
  {
  }

  /** Taking a name out of the queue and clearing its flag keeps the two in step. */
  lemma UnqueueInv(table: map<Name, Entry>, queue: Dict, maxWarm: nat, n: Name, e: Entry)
    requires QueueInv(table, queue, maxWarm) && n in queue.due && e.hasAddrs && !e.warm
    ensures QueueInv(table[n := e], Del(queue, n), maxWarm)
    ensures |Del(queue, n).keys| == |queue.keys| - 1
  {
    hide NoDup, Without;
    DelValid(queue, n);
  }

  lemma EnqueueInv(table: map<Name, Entry>, queue: Dict, maxWarm: nat, n: Name, at: Time, e: Entry)
    requires QueueInv(table, queue, maxWarm) && n in table && n !in queue.due && |queue.keys| < maxWarm
    requires e.hasAddrs && e.warm
    ensures QueueInv(table[n := e], Set(queue, n, at), maxWarm)
  {
    SetNewValid(queue, n, at);
  }

  lemma DelHeapInv(queue: Dict, heap: seq<Pair>, n: Name)
    requires Valid(queue) && HeapInv(queue.due, heap)
    ensures HeapInv(Del(queue, n).due, heap)
  {
    DelValid(queue, n);
  }

  lemma PopHeapInv(queue: Dict, heap: seq<Pair>)
    requires Valid(queue) && HeapInv(queue.due, heap) && heap != []
    ensures HeapInv(Del(queue, heap[0].name).due, heap[1..])
    ensures (heap[0].name in queue.due && queue.due[heap[0].name] == heap[0].due) || HeapInv(queue.due, heap[1..])
  {
    DelValid(queue, heap[0].name);
    PopKeepsHeap(heap);
  }

  lemma SetHeapInv(queue: Dict, heap: seq<Pair>, n: Name, at: Time)
    requires HeapInv(queue.due, heap)
    ensures HeapInv(Set(queue, n, at).due, Push(heap, Pair(at, n)))
  {
    PushSorted(heap, Pair(at, n));
  }

  lemma PopStaleInv(cfg: Config, s: State, clock: Time)
    requires Inv(cfg, s, clock) && s.heap != [] && !Live(s)
    ensures Inv(cfg, PopDue(cfg, s), clock)
  {
    PopHeapInv(s.queue, s.heap);
  }

  lemma LiveDue(cfg: Config, s: State, clock: Time)
    requires Ok(cfg) && Inv(cfg, s, clock) && Live(s)
    ensures clock <= s.heap[0].due && DuesWithin(s.queue.due, s.heap[0].due, s.heap[0].due + cfg.k)
  {
    forall n | n in s.queue.due ensures s.heap[0].due <= s.queue.due[n] {
      HeadIsLeast(s.queue.due, s.heap, n);
    }
  }

  lemma EntriesLater(table: map<Name, Entry>, clock: Time, now: Time)
    requires EntriesBy(table, clock) && clock <= now
    ensures EntriesBy(table, now)
  {
  }

  lemma EntriesPut(table: map<Name, Entry>, clock: Time, n: Name, e: Entry)
    requires EntriesBy(table, clock) && e.resolvedAt <= clock && e.lastUsed <= clock
    ensures EntriesBy(table[n := e], clock)
  {
  }

  lemma DuesSet(queue: Dict, n: Name, at: Time, lo: Time, hi: Time)
    requires DuesWithin(queue.due, lo, hi) && lo <= at <= hi
    ensures DuesWithin(Set(queue, n, at).due, lo, hi)
  {
  }

  lemma DuesDel(queue: Dict, n: Name, lo: Time, hi: Time)
    requires DuesWithin(queue.due, lo, hi)
    ensures DuesWithin(Del(queue, n).due, lo, hi)
  {
  }

  lemma RequeueInv(table: map<Name, Entry>, queue: Dict, maxWarm: nat, n: Name, at: Time, e: Entry)
    requires QueueInv(table, queue, maxWarm) && n in queue.due && e.hasAddrs && e.warm
    ensures QueueInv(table[n := e], Set(Del(queue, n), n, at), maxWarm)
  {
    hide NoDup, Without, Set;
    var cold := table[n := e.(warm := false)];
    DelValid(queue, n);
    UnqueueInv(table, queue, maxWarm, n, e.(warm := false));
    EnqueueInv(cold, Del(queue, n), maxWarm, n, at, e);
    assert cold[n := e] == table[n := e];
  }

  /** What firing a live timer does, field by field. */
  lemma FireFields(cfg: Config, s: State, name: Name, due: Time)
    requires name in s.table
    ensures var r := Fire(cfg, s, name, due); var e := s.table[name];
      && r.negative == s.negative && r.counting == s.counting && r.warmT == Some(due)
      && r.warmSecs == TickWarm(s, due).warmSecs
      && if !e.warm || due - e.lastUsed >= cfg.window then
           && r.table == s.table[name := e.(warm := false)] && r.queue == Del(s.queue, name) && r.heap == s.heap
           && r.log == s.log + [Event(s.counting, Cooled, name, due)]
         else
           && r.table == s.table[name := e.(resolvedAt := due)]
           && r.queue == Set(Del(s.queue, name), name, due + cfg.k) && r.heap == Push(s.heap, Pair(due + cfg.k, name))
           && r.log == s.log + [Event(s.counting, Timer, name, due)]
  {
  }

  lemma FireCooledInv(cfg: Config, s: State, name: Name, due: Time)
    requires Ok(cfg) && QueueInv(s.table, s.queue, cfg.maxWarm) && name in s.queue.due
    requires HeapInv(Del(s.queue, name).due, s.heap)
    requires DuesWithin(s.queue.due, due, due + cfg.k) && EntriesBy(s.table, due)
    requires !s.table[name].warm || due - s.table[name].lastUsed >= cfg.window
    ensures Inv(cfg, Fire(cfg, s, name, due), due)
  {
    var e := s.table[name].(warm := false);
    FireFields(cfg, s, name, due);
    UnqueueInv(s.table, s.queue, cfg.maxWarm, name, e);
    EntriesPut(s.table, due, name, e);
    DuesDel(s.queue, name, due, due + cfg.k);
  }

  lemma FireTimerInv(cfg: Config, s: State, name: Name, due: Time)
    requires Ok(cfg) && QueueInv(s.table, s.queue, cfg.maxWarm) && name in s.queue.due
    requires HeapInv(Del(s.queue, name).due, s.heap)
    requires DuesWithin(s.queue.due, due, due + cfg.k) && EntriesBy(s.table, due)
    requires s.table[name].warm && due - s.table[name].lastUsed < cfg.window
    ensures Inv(cfg, Fire(cfg, s, name, due), due)
  {
    hide Push, Without, PairLeq, Valid, Sorted;
    var q := Del(s.queue, name);
    var e := s.table[name].(resolvedAt := due);
    FireFields(cfg, s, name, due);
    RequeueInv(s.table, s.queue, cfg.maxWarm, name, due + cfg.k, e);
    SetHeapInv(q, s.heap, name, due + cfg.k);
    EntriesPut(s.table, due, name, e);
    DuesDel(s.queue, name, due, due + cfg.k);
    DuesSet(q, name, due + cfg.k, due, due + cfg.k);
  }

  lemma PopLiveInv(cfg: Config, s: State, clock: Time)
    requires Ok(cfg) && Inv(cfg, s, clock) && Live(s)
    ensures clock <= s.heap[0].due && Inv(cfg, PopDue(cfg, s), s.heap[0].due)
  {
    var p := s.heap[0];
    var s0 := s.(heap := s.heap[1..]);
    LiveDue(cfg, s, clock);
    EntriesLater(s.table, clock, p.due);
    PopHeapInv(s.queue, s.heap);
    if s.table[p.name].warm && p.due - s.table[p.name].lastUsed < cfg.window {
      FireTimerInv(cfg, s0, p.name, p.due);
    } else {
      FireCooledInv(cfg, s0, p.name, p.due);
    }
  }

  lemma NothingDue(due: map<Name, Time>, heap: seq<Pair>, now: Time)
    requires HeapInv(due, heap) && !(heap != [] && heap[0].due <= now)
    ensures forall n :: n in due ==> now < due[n]
  {
    forall n | n in due ensures now < due[n] {
      HeadIsLeast(due, heap, n);
    }
  }

  /** Time may pass to `now` when nothing is due before it. */
  lemma TickInv(cfg: Config, s: State, clock: Time, now: Time)
    requires Inv(cfg, s, clock) && clock <= now
    requires forall n :: n in s.queue.due ==> now <= s.queue.due[n]
    ensures Inv(cfg, TickWarm(s, now), now)
  {
    EntriesLater(s.table, clock, now);
  }

  /** `advance` keeps the invariant and leaves no live timer due. */
  lemma {:induction false} AdvanceInv(cfg: Config, s: State, clock: Time, now: Time)
    requires Ok(cfg) && Inv(cfg, s, clock) && clock <= now
    ensures Inv(cfg, Advance(cfg, s, now), now)
    ensures forall n :: n in Advance(cfg, s, now).queue.due ==> now < Advance(cfg, s, now).queue.due[n]
    decreases TotalRounds(cfg.k, s.heap, now)
  {
    if s.heap != [] && s.heap[0].due <= now {
      PopDueDecreases(cfg, s, now);
      if Live(s) {
        PopLiveInv(cfg, s, clock);
        AdvanceInv(cfg, PopDue(cfg, s), s.heap[0].due, now);
      } else {
        PopStaleInv(cfg, s, clock);
        AdvanceInv(cfg, PopDue(cfg, s), clock, now);
      }
    } else {
      NothingDue(s.queue.due, s.heap, now);
      TickInv(cfg, s, clock, now);
    }
  }

  lemma EvictInv(cfg: Config, s: State, clock: Time)
    requires Inv(cfg, s, clock) && s.queue.keys != []
    ensures Inv(cfg, Evict(s, clock), clock)
    ensures |Evict(s, clock).queue.keys| == |s.queue.keys| - 1
    ensures forall n :: n in s.table && n !in s.queue.due ==> Evict(s, clock).table[n] == s.table[n]
    ensures forall n :: n in Evict(s, clock).queue.due ==> n in s.queue.due
  {
    var v := Victim(s.queue.keys, s.table);
    DelValid(s.queue, v);
    UnqueueInv(s.table, s.queue, cfg.maxWarm, v, s.table[v].(warm := false));
    DelHeapInv(s.queue, s.heap, v);
  }

  lemma PutPut(table: map<Name, Entry>, name: Name, a: Entry, b: Entry)
    ensures table[name := a][name := b] == table[name := b]
  {
  }

  /** The table just before `_promote` schedules: the room has been made. */
  function Roomy(cfg: Config, s: State, now: Time): (r: State)
    requires Linked(s) && Valid(s.queue) && cfg.maxWarm >= 1
    ensures Linked(r)
  {
    if |s.queue.keys| >= cfg.maxWarm then Evict(s, now) else s
  }

  lemma PromoteFields(cfg: Config, s: State, name: Name, now: Time)
    requires Ok(cfg) && Linked(s) && Valid(s.queue) && name in s.table && name !in s.queue.due
    ensures var s2 := Roomy(cfg, s, now); var r := Promote(cfg, s, name, now);
      && name in s2.table
      && var at := FirstDue(cfg, s2.table[name], now);
      && r.table == s2.table[name := s2.table[name].(warm := true)]
      && r.queue == Set(s2.queue, name, at) && r.heap == Push(s2.heap, Pair(at, name))
      && r.negative == s.negative && r.counting == s.counting && r.warmT == s.warmT && r.warmSecs == s.warmSecs
      && r.log == s2.log + [Event(s.counting, Promoted(at, |r.queue.keys|), name, now)]
  {
    DelValid(s.queue, name);
    assert s.(queue := Del(s.queue, name)) == s;
  }

  lemma RoomyInv(cfg: Config, s: State, name: Name, clock: Time)
    requires Ok(cfg) && Inv(cfg, s, clock) && name in s.table && !s.table[name].warm
    ensures var s2 := Roomy(cfg, s, clock);
      && Inv(cfg, s2, clock) && name !in s2.queue.due && |s2.queue.keys| < cfg.maxWarm
      && name in s2.table && s2.table[name] == s.table[name]
  {
    if |s.queue.keys| >= cfg.maxWarm {
      EvictInv(cfg, s, clock);
    }
  }

  lemma PromoteInv(cfg: Config, s: State, name: Name, clock: Time)
    requires Ok(cfg) && Inv(cfg, s, clock) && name in s.table && !s.table[name].warm
    ensures Inv(cfg, Promote(cfg, s, name, clock), clock)
  {
    hide NoDup, Without, Push, Promote, Set, QueueInv, HeapInv, DuesWithin, EntriesBy;
    NotQueued(cfg, s, name, clock);
    var s2 := Roomy(cfg, s, clock);
    RoomyInv(cfg, s, name, clock);
    NotQueued(cfg, s2, name, clock);
    PromoteFields(cfg, s, name, clock);
    var at := FirstDue(cfg, s2.table[name], clock);
    var e := s2.table[name].(warm := true);
    EnqueueInv(s2.table, s2.queue, cfg.maxWarm, name, at, e);
    SetHeapInv(s2.queue, s2.heap, name, at);
    DuesSet(s2.queue, name, at, clock, clock + cfg.k);
    EntriesPut(s2.table, clock, name, e);
    PromoteKeeps(cfg, s, name, clock);
  }

  /** A name that is not warm is not queued, and its answer and last use are in the past. */
  lemma NotQueued(cfg: Config, s: State, name: Name, clock: Time)
    requires Inv(cfg, s, clock) && name in s.table && !s.table[name].warm
    ensures Linked(s) && Valid(s.queue) && name !in s.queue.due && s.table[name].hasAddrs
    ensures s.table[name].resolvedAt <= clock && s.table[name].lastUsed <= clock
  {
  }

  /** Serving a request touches one entry and the log. */
  lemma ServeFields(cfg: Config, s: State, name: Name, now: Time)
    requires name in s.table
    ensures var r := Serve(cfg, s, name, now);
      && r == s.(table := r.table, log := r.log)
      && name in r.table && r.table == s.table[name := r.table[name]]
      && r.table[name].lastUsed == now && r.table[name].warm == s.table[name].warm && r.table[name].hasAddrs
      && (r.table[name].resolvedAt == s.table[name].resolvedAt || r.table[name].resolvedAt == now)
  {
  }

  lemma ServeInv(cfg: Config, s: State, name: Name, clock: Time)
    requires Inv(cfg, s, clock) && name in s.table
    ensures Inv(cfg, Serve(cfg, s, name, clock), clock)
  {
    ServeFields(cfg, s, name, clock);
  }

  lemma AnsweredInv(cfg: Config, s: State, name: Name, clock: Time, fail: bool)
    requires Ok(cfg) && Inv(cfg, s, clock)
    ensures Inv(cfg, Answered(cfg, s, name, clock, fail), clock)
  {
    hide NoDup, Push, Without, Promote, Serve;
    var s1 := Emit(s, Looked, name, clock);
    if !fail && name in s.table {
      ServeInv(cfg, s1, name, clock);
      ServeFields(cfg, s1, name, clock);
      if Promotes(cfg, s.table[name], clock - s.table[name].lastUsed) {
        PromoteInv(cfg, Serve(cfg, s1, name, clock), name, clock);
      }
    }
  }

  lemma PrimeInv(cfg: Config, s: State, name: Name, lastUsed: Time, warm: bool, clock: Time)
    requires Ok(cfg) && Inv(cfg, s, clock) && Legal(Seed(name, lastUsed, warm), clock, s.counting)
    ensures Inv(cfg, Prime(cfg, s, name, lastUsed, warm), clock)
    ensures Prime(cfg, s, name, lastUsed, warm).warmT == s.warmT
  {
    if name !in s.table {
      var s1 := SeedEntry(s, name, lastUsed);
      assert Inv(cfg, s1, clock);
      if warm && cfg.window > 0.0 {
        PromoteInv(cfg, s1, name, clock);
        PromoteFields(cfg, s1, name, clock);
      }
    }
  }

  lemma PromoteKeeps(cfg: Config, s: State, name: Name, now: Time)
    requires Linked(s) && Valid(s.queue) && name in s.table && cfg.maxWarm >= 1
    ensures var r := Promote(cfg, s, name, now);
      r.counting == s.counting && r.warmT == s.warmT && r.warmSecs == s.warmSecs && r.negative == s.negative
  {
    hide Push, Without, NoDup, Set, Victim;
  }

  /** Answering a request does not touch the clock, and a request that resolves does not touch the failures. */
  lemma AnsweredKeeps(cfg: Config, s: State, name: Name, now: Time, fail: bool)
    requires Ok(cfg) && Linked(s) && Valid(s.queue)
    ensures var r := Answered(cfg, s, name, now, fail);
      && r.counting == s.counting && r.warmT == s.warmT && r.warmSecs == s.warmSecs
      && (!fail ==> r.negative == s.negative)
  {
    hide Promote, Serve, NoDup;
    if !fail && name in s.table {
      var s1 := Emit(s, Looked, name, now);
      ServeFields(cfg, s1, name, now);
      if Promotes(cfg, s.table[name], now - s.table[name].lastUsed) {
        PromoteKeeps(cfg, Serve(cfg, s1, name, now), name, now);
      }
    }
  }

  lemma LookInv(cfg: Config, s: State, clock: Time, name: Name, at: Time, fail: bool)
    requires Ok(cfg) && Inv(cfg, s, clock) && clock <= at
    ensures Inv(cfg, Advance(cfg, s, at), at)
    ensures Inv(cfg, Answered(cfg, Advance(cfg, s, at), name, at, fail), at)
    ensures Answered(cfg, Advance(cfg, s, at), name, at, fail).counting == s.counting
    ensures Answered(cfg, Advance(cfg, s, at), name, at, fail).warmT == Some(at)
  {
    AdvanceInv(cfg, s, clock, at);
    AnsweredInv(cfg, Advance(cfg, s, at), name, at, fail);
    AdvanceCounting(cfg, s, at);
    AnsweredKeeps(cfg, Advance(cfg, s, at), name, at, fail);
  }

  /** What `Step` needs, and what it keeps: every operation of the table preserves the invariant. */
  lemma StepInv(cfg: Config, s: State, clock: Time, op: Op)
    requires Ok(cfg) && Inv(cfg, s, clock) && Legal(op, clock, s.counting)
    ensures op.Look? ==> Inv(cfg, Advance(cfg, s, op.at), op.at)
    ensures Inv(cfg, Step(cfg, s, op), ClockAfter(op, clock))
    ensures Step(cfg, s, op).counting == (s.counting || op.Begin?)
    ensures s.warmT.Some? ==> Step(cfg, s, op).warmT.Some?
  {
    match op
    case Look(name, at, fail) =>
      LookInv(cfg, s, clock, name, at, fail);
    case Tick(at) =>
      AdvanceInv(cfg, s, clock, at);
      AdvanceCounting(cfg, s, at);
    case Seed(name, lastUsed, warm) =>
      PrimeInv(cfg, s, name, lastUsed, warm, clock);
    case Begin(at) =>
  }

  lemma {:induction false} AdvanceCounting(cfg: Config, s: State, now: Time)
    requires cfg.k > 0.0 && Linked(s)
    ensures Advance(cfg, s, now).counting == s.counting && Advance(cfg, s, now).warmT == Some(now)
    decreases TotalRounds(cfg.k, s.heap, now)
  {
    if s.heap != [] && s.heap[0].due <= now {
      PopDueDecreases(cfg, s, now);
      AdvanceCounting(cfg, PopDue(cfg, s), now);
    }
  }

  lemma StartInv(cfg: Config, clock: Time, counting: bool)
    ensures Inv(cfg, Start(counting), clock)
  {
  }

  lemma InvLinked(cfg: Config, s: State, clock: Time)
    requires Inv(cfg, s, clock)
    ensures Linked(s) && Valid(s.queue)
  {
  }

  /** A whole run. */
  ghost function Run(cfg: Config, s: State, clock: Time, ops: seq<Op>): (r: State)
    requires Ok(cfg) && Inv(cfg, s, clock) && Timely(ops, clock, s.counting)
    ensures Inv(cfg, r, EndClock(ops, clock))
    decreases |ops|
  {
    if ops == [] then s
    else
      StepInv(cfg, s, clock, ops[0]);
      Run(cfg, Step(cfg, s, ops[0]), ClockAfter(ops[0], clock), ops[1..])
  }

  // ---- runs in pieces

  function CountingAfter(ops: seq<Op>, counting: bool): bool {
    if ops == [] then counting else CountingAfter(ops[1..], counting || ops[0].Begin?)
  }

  lemma {:induction false} TimelyAppend(a: seq<Op>, b: seq<Op>, clock: Time, counting: bool)
    ensures Timely(a + b, clock, counting) <==>
            Timely(a, clock, counting) && Timely(b, EndClock(a, clock), CountingAfter(a, counting))
    ensures EndClock(a + b, clock) == EndClock(b, EndClock(a, clock))
    ensures CountingAfter(a + b, counting) == CountingAfter(b, CountingAfter(a, counting))
    decreases |a|
  {
    if a == [] {
      assert a + b == b;
    } else {
      assert (a + b)[1..] == a[1..] + b;
      TimelyAppend(a[1..], b, ClockAfter(a[0], clock), counting || a[0].Begin?);
    }
  }

  lemma {:induction false} RunAppend(cfg: Config, s: State, clock: Time, a: seq<Op>, b: seq<Op>)
    requires Ok(cfg) && Inv(cfg, s, clock) && Timely(a + b, clock, s.counting)
    ensures Timely(a, clock, s.counting)
    ensures var m := Run(cfg, s, clock, a);
      && Timely(b, EndClock(a, clock), m.counting) && m.counting == CountingAfter(a, s.counting)
      && Run(cfg, s, clock, a + b) == Run(cfg, m, EndClock(a, clock), b)
    decreases |a|
  {
    hide Step;
    TimelyAppend(a, b, clock, s.counting);
    if a == [] {
      assert a + b == b;
    } else {
      assert (a + b)[1..] == a[1..] + b;
      StepInv(cfg, s, clock, a[0]);
      InvLinked(cfg, s, clock);
      RunAppend(cfg, Step(cfg, s, a[0]), ClockAfter(a[0], clock), a[1..], b);
    }
  }

  lemma OneStep(cfg: Config, s: State, clock: Time, op: Op)
    requires Ok(cfg) && Inv(cfg, s, clock) && Legal(op, clock, s.counting)
    ensures Timely([op], clock, s.counting)
    ensures op.Look? ==> Inv(cfg, Advance(cfg, s, op.at), op.at)
    ensures Run(cfg, s, clock, [op]) == Step(cfg, s, op)
  {
    hide Step;
    assert [op][1..] == [];
    StepInv(cfg, s, clock, op);
  }
}
