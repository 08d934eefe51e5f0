/**
 * The heap with lazy deletion, against a table that has no heap at all: a reference machine that always takes the
 * queued name with the least `(due, name)`. The two agree on everything but the heap, over whole runs.
 */
module DnsHeapRefinement {
  import opened Names
  import opened OrderedDict
  import opened Heap
  import opened DnsModel
  import opened DnsRun

  function Erase(s: State): State {
    s.(heap := [])
  }

  /** The queued name that is due first, ties broken by name. */
  function First(keys: seq<Name>, due: map<Name, Time>): (n: Name)
    requires keys != [] && forall n :: n in keys ==> n in due
    ensures n in keys
  {
    if |keys| == 1 then keys[0]
    else
      var m := First(keys[1..], due);
      if PairLeq(Pair(due[keys[0]], keys[0]), Pair(due[m], m)) then keys[0] else m
  }

  lemma {:induction false} FirstIsLeast(keys: seq<Name>, due: map<Name, Time>, n: Name)
    requires n in keys && forall n :: n in keys ==> n in due
    ensures var m := First(keys, due); PairLeq(Pair(due[m], m), Pair(due[n], n))
  {
    var head := Pair(due[keys[0]], keys[0]);
    if |keys| == 1 {
      PairLeqTotal(head, head);
    } else {
      var m := First(keys[1..], due);
      PairLeqTotal(head, Pair(due[m], m));
      PairLeqTotal(head, head);
      if n != keys[0] {
        assert n in keys[1..];
        FirstIsLeast(keys[1..], due, n);
        if PairLeq(head, Pair(due[m], m)) {
          PairLeqTransitive(head, Pair(due[m], m), Pair(due[n], n));
        }
      }
    }
  }

  /** How many timers the queued names can bring by `now`. */
  function KeyRounds(k: Time, keys: seq<Name>, due: map<Name, Time>, now: Time): nat
    requires k > 0.0
  {
    if keys == [] then 0
    else Rounds(k, if keys[0] in due then due[keys[0]] else now, now) + KeyRounds(k, keys[1..], due, now)
  }

  lemma {:induction false} KeyRoundsFrame(
    k: Time, keys: seq<Name>, due: map<Name, Time>, due': map<Name, Time>, now: Time)
    requires k > 0.0 && forall n :: n in keys ==> n in due && n in due' && due[n] == due'[n]
    ensures KeyRounds(k, keys, due, now) == KeyRounds(k, keys, due', now)
  {
    if keys != [] {
      assert keys[0] in keys;
      KeyRoundsFrame(k, keys[1..], due, due', now);
    }
  }

  lemma {:induction false} KeyRoundsAppend(k: Time, keys: seq<Name>, n: Name, due: map<Name, Time>, now: Time)
    requires k > 0.0 && n in due
    ensures KeyRounds(k, keys + [n], due, now) == KeyRounds(k, keys, due, now) + Rounds(k, due[n], now)
  {
    if keys == [] {
      assert keys + [n] == [n] && [n][1..] == [];
    } else {
      assert (keys + [n])[1..] == keys[1..] + [n];
      KeyRoundsAppend(k, keys[1..], n, due, now);
    }
  }

  lemma {:induction false} KeyRoundsWithout(k: Time, keys: seq<Name>, n: Name, due: map<Name, Time>, now: Time)
    requires k > 0.0 && n in keys && n in due
    ensures KeyRounds(k, Without(keys, n), due, now) + Rounds(k, due[n], now) == KeyRounds(k, keys, due, now)
  {
    if keys[0] != n {
      KeyRoundsWithout(k, keys[1..], n, due, now);
      assert ([keys[0]] + Without(keys[1..], n))[1..] == Without(keys[1..], n);
    }
  }

  /** Firing a due name uses up one of its turns. */
  lemma RequeueRounds(k: Time, d: Dict, n: Name, now: Time)
    requires k > 0.0 && Valid(d) && n in d.due && d.due[n] <= now
    ensures var q := Del(d, n); var r := Set(q, n, d.due[n] + k);
      && Valid(q) && Valid(r)
      && KeyRounds(k, q.keys, q.due, now) < KeyRounds(k, d.keys, d.due, now)
      && KeyRounds(k, r.keys, r.due, now) < KeyRounds(k, d.keys, d.due, now)
  {
    hide Rounds, KeyRounds, NoDup, Without;
    var q := Del(d, n);
    var at := d.due[n] + k;
    DelValid(d, n);
    SetNewValid(q, n, at);
    KeyRoundsWithout(k, d.keys, n, d.due, now);
    KeyRoundsFrame(k, q.keys, d.due, q.due, now);
    KeyRoundsFrame(k, q.keys, q.due, q.due[n := at], now);
    KeyRoundsAppend(k, q.keys, n, q.due[n := at], now);
    RoundsNext(k, d.due[n], now);
    assert q.due[n := at][n] == at;
  }

  /** The reference machine's turn: the least live timer fires. */
  function RefFire(cfg: Config, s: State): (r: State)
    requires Linked(s) && Valid(s.queue) && s.queue.keys != []
    ensures Linked(r)
  {
    var n := First(s.queue.keys, s.queue.due);
    Erase(Fire(cfg, s, n, s.queue.due[n]))
  }

  predicate RefDue(s: State, now: Time)
    requires Valid(s.queue)
  {
    s.queue.keys != [] && s.queue.due[First(s.queue.keys, s.queue.due)] <= now
  }

  lemma RefFireDecreases(cfg: Config, s: State, now: Time)
    requires cfg.k > 0.0 && Linked(s) && Valid(s.queue) && RefDue(s, now)
    ensures Valid(RefFire(cfg, s).queue)
    ensures var q := RefFire(cfg, s).queue;
      KeyRounds(cfg.k, q.keys, q.due, now) < KeyRounds(cfg.k, s.queue.keys, s.queue.due, now)
  {
    hide Push, Without, KeyRounds, First;
    var n := First(s.queue.keys, s.queue.due);
    assert n in s.queue.keys;
    FireFields(cfg, s, n, s.queue.due[n]);
    RequeueRounds(cfg.k, s.queue, n, now);
  }

  /** `advance` with no heap: while some queued name is due, the least one fires. */
  ghost function RefAdvance(cfg: Config, s: State, now: Time): (r: State)
    requires cfg.k > 0.0 && Linked(s) && Valid(s.queue)
    ensures Linked(r) && Valid(r.queue)
    decreases KeyRounds(cfg.k, s.queue.keys, s.queue.due, now)
  {
    if RefDue(s, now) then
      RefFireDecreases(cfg, s, now);
      RefAdvance(cfg, RefFire(cfg, s), now)
    else TickWarm(s, now)
  }

  /** A live head of the heap is exactly the reference machine's choice. */
  lemma HeadIsFirst(s: State)
    requires Valid(s.queue) && HeapInv(s.queue.due, s.heap) && Live(s)
    ensures s.queue.keys != [] && First(s.queue.keys, s.queue.due) == s.heap[0].name
  {
    hide NoDup, Sorted, First;
    var h := s.heap[0];
    assert h.name in s.queue.keys;
    var m := First(s.queue.keys, s.queue.due);
    FirstIsLeast(s.queue.keys, s.queue.due, h.name);
    HeadIsLeast(s.queue.due, s.heap, m);
    PairLeqAntisymmetric(Pair(s.queue.due[m], m), h);
  }

  lemma EraseFire(cfg: Config, s: State, name: Name, due: Time)
    requires name in s.table
    ensures Erase(Fire(cfg, s, name, due)) == Erase(Fire(cfg, Erase(s), name, due))
  {
    hide Push, Without, Fire;
    FireFields(cfg, s, name, due);
    FireFields(cfg, Erase(s), name, due);
  }

  lemma PopRefines(cfg: Config, s: State, clock: Time, now: Time)
    requires Ok(cfg) && Inv(cfg, s, clock) && s.heap != [] && s.heap[0].due <= now
    ensures Live(s) ==> RefDue(Erase(s), now) && Erase(PopDue(cfg, s)) == RefFire(cfg, Erase(s))
    ensures !Live(s) ==> Erase(PopDue(cfg, s)) == Erase(s)
  {
    hide Push, Without, Fire, First, NoDup, Sorted;
    if Live(s) {
      HeadIsFirst(s);
      EraseFire(cfg, s.(heap := s.heap[1..]), s.heap[0].name, s.heap[0].due);
    }
  }

  lemma QuietRefines(s: State, now: Time)
    requires Valid(s.queue) && HeapInv(s.queue.due, s.heap) && !(s.heap != [] && s.heap[0].due <= now)
    ensures !RefDue(Erase(s), now)
  {
    hide First, NoDup, Sorted;
    NothingDue(s.queue.due, s.heap, now);
    if s.queue.keys != [] {
      assert First(s.queue.keys, s.queue.due) in s.queue.keys;
    }
  }

  /**
   * `advance` over the heap does what the machine without a heap does: the live timers due by `now`, each once per
   * turn, in order of `(due, name)`. Pairs the queue has disowned, and duplicates, change nothing.
   */
  lemma {:induction false} AdvanceRefines(cfg: Config, s: State, clock: Time, now: Time)
    requires Ok(cfg) && Inv(cfg, s, clock) && clock <= now
    ensures Erase(Advance(cfg, s, now)) == RefAdvance(cfg, Erase(s), now)
    decreases TotalRounds(cfg.k, s.heap, now)
  {
    hide PopDue, First, NoDup, Sorted, RefDue, RefFire;
    if s.heap != [] && s.heap[0].due <= now {
      PopDueDecreases(cfg, s, now);
      PopRefines(cfg, s, clock, now);
      if Live(s) {
        RefFireDecreases(cfg, Erase(s), now);
        PopLiveInv(cfg, s, clock);
        AdvanceRefines(cfg, PopDue(cfg, s), s.heap[0].due, now);
      } else {
        PopStaleInv(cfg, s, clock);
        AdvanceRefines(cfg, PopDue(cfg, s), clock, now);
      }
    } else {
      QuietRefines(s, now);
    }
  }

  // ---- whole runs

  function RefAnswered(cfg: Config, s: State, name: Name, now: Time, fail: bool): (r: State)
    requires Linked(s) && Valid(s.queue) && cfg.maxWarm >= 1
    ensures Linked(r)
  {
    Erase(Answered(cfg, s, name, now, fail))
  }

  lemma ErasePromote(cfg: Config, s: State, name: Name, now: Time)
    requires Linked(s) && Valid(s.queue) && name in s.table && cfg.maxWarm >= 1
    ensures Erase(Promote(cfg, s, name, now)) == Erase(Promote(cfg, Erase(s), name, now))
    ensures Valid(Promote(cfg, s, name, now).queue)
  {
    hide Push, Without, NoDup, Victim;
    DelValid(s.queue, name);
    var s1 := s.(queue := Del(s.queue, name));
    if |s1.queue.keys| >= cfg.maxWarm {
      DelValid(s1.queue, Victim(s1.queue.keys, s1.table));
    }
    var s2 := if |s1.queue.keys| >= cfg.maxWarm then Evict(s1, now) else s1;
    SetNewValid(s2.queue, name, FirstDue(cfg, s2.table[name], now));
  }

  lemma EraseServe(cfg: Config, s: State, name: Name, now: Time)
    requires name in s.table
    ensures Erase(Serve(cfg, s, name, now)) == Serve(cfg, Erase(s), name, now)
  {
  }

  lemma EraseAnswered(cfg: Config, s: State, name: Name, now: Time, fail: bool)
    requires Linked(s) && Valid(s.queue) && cfg.maxWarm >= 1
    ensures Erase(Answered(cfg, s, name, now, fail)) == RefAnswered(cfg, Erase(s), name, now, fail)
    ensures Valid(Answered(cfg, s, name, now, fail).queue)
  {
    hide Push, Without, NoDup, Promote, Serve;
    var s1 := Emit(s, Looked, name, now);
    if !fail && name in s.table {
      EraseServe(cfg, s1, name, now);
      ServeFields(cfg, s1, name, now);
      ErasePromote(cfg, Serve(cfg, s1, name, now), name, now);
    }
  }

  ghost function RefStep(cfg: Config, s: State, op: Op): (r: State)
    requires Ok(cfg) && Linked(s) && Valid(s.queue)
    ensures Linked(r)
  {
    match op
    case Look(name, at, fail) => RefAnswered(cfg, RefAdvance(cfg, s, at), name, at, fail)
    case Tick(at) => RefAdvance(cfg, s, at)
    case Seed(name, lastUsed, warm) => Erase(Prime(cfg, s, name, lastUsed, warm))
    case Begin(at) => BeginCounting(s, at)
  }

  lemma StepRefines(cfg: Config, s: State, clock: Time, op: Op)
    requires Ok(cfg) && Inv(cfg, s, clock) && Legal(op, clock, s.counting)
    ensures op.Look? ==> Inv(cfg, Advance(cfg, s, op.at), op.at)
    ensures Erase(Step(cfg, s, op)) == RefStep(cfg, Erase(s), op)
  {
    hide Answered, Advance, RefAnswered, RefAdvance, Promote;
    match op
    case Look(name, at, fail) =>
      AdvanceInv(cfg, s, clock, at);
      AdvanceRefines(cfg, s, clock, at);
      EraseAnswered(cfg, Advance(cfg, s, at), name, at, fail);
    case Tick(at) =>
      AdvanceRefines(cfg, s, clock, at);
    case Seed(name, lastUsed, warm) =>
      if name !in s.table && warm && cfg.window > 0.0 {
        var s1 := SeedEntry(s, name, lastUsed);
        ErasePromote(cfg, s1, name, lastUsed);
      }
    case Begin(at) =>
  }

  /** `s` is reached by the reference machine from `r` through `ops`. */
  ghost predicate RefRuns(cfg: Config, r: State, ops: seq<Op>, s: State)
    requires Ok(cfg)
    decreases |ops|
  {
    if ops == [] then r == s
    else Linked(r) && Valid(r.queue) && RefRuns(cfg, RefStep(cfg, r, ops[0]), ops[1..], s)
  }

  /** Over every run, the table with a heap and the table without one answer, log and count the same. */
  lemma {:induction false} RunRefines(cfg: Config, s: State, clock: Time, ops: seq<Op>)
    requires Ok(cfg) && Inv(cfg, s, clock) && Timely(ops, clock, s.counting)
    ensures RefRuns(cfg, Erase(s), ops, Erase(Run(cfg, s, clock, ops)))
    decreases |ops|
  {
    hide Step, RefStep;
    if ops != [] {
      StepInv(cfg, s, clock, ops[0]);
      StepRefines(cfg, s, clock, ops[0]);
      RunRefines(cfg, Step(cfg, s, ops[0]), ClockAfter(ops[0], clock), ops[1..]);
    }
  }
}
