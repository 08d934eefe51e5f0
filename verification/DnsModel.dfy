/**
 * The resolver table of scripts/dns-replay.py as a pure transition function: the table of answers, the keep-warm
 * queue (a dictionary beside a heap with lazy deletion), the negative cache and the counters' source, a log.
 */
module DnsModel {
  import opened Names
  import opened OrderedDict
  import opened Heap

  /** Seconds a failed lookup is remembered. */
  const NEGATIVE_TTL: Time := 60.0

  /** Where `replay` puts a name that was in the table before the window: 2 * WARM seconds back. */
  const PRIME_BEFORE: Time := 7200.0

  datatype Rule = Current | NoIdle
  datatype PromoteAt = Now | Answer

  datatype Config = Config(
    rule: Rule, ttl: Time, k: Time, window: Time, maxWarm: nat, serveStale: Time, promoteAt: PromoteAt)

  /** What the table needs of its settings: `min` of an empty queue fails when `max_warm` is 0. */
  ghost predicate Ok(cfg: Config) {
    0.0 < cfg.k && cfg.maxWarm >= 1
  }

  /** Refreshes come before expiry, as they do when `k` is 3/4 of the TTL. */
  ghost predicate Early(cfg: Config) {
    Ok(cfg) && cfg.k <= cfg.ttl
  }

  /** The age at which a refresh ahead of expiry starts: 3/4 of the TTL. */
  function RefreshAfter(ttl: Time): Time {
    ttl - ttl / 4.0
  }

  datatype Entry = Entry(hasAddrs: bool, resolvedAt: Time, lastUsed: Time, warm: bool)

  datatype MissKind = Cold | Expired | WarmStale | Negative

  /** One decision of the table. `Cooled` is a queued name dropped because nobody used it for `window` seconds. */
  datatype What =
    | Looked
    | Hit
    | NegativeHit
    | Miss(kind: MissKind)
    | Ask(wasWarm: bool)
    | Stale(wasWarm: bool, age: Time)
    | Timer
    | Cooled
    | Evicted(due: Time)
    | Promoted(due: Time, len: nat)
    | CountFrom(len: nat)
    | Seeded

  datatype Event = Event(counted: bool, what: What, name: Name, at: Time)

  datatype State = State(
    table: map<Name, Entry>,
    queue: Dict,
    heap: seq<Pair>,
    negative: map<Name, Time>,
    counting: bool,
    warmT: Option<Time>,
    warmSecs: Time,
    log: seq<Event>)

  /** A new table. `Table` starts out counting; `replay` turns that off for the run-up. */
  function Start(counting: bool): State {
    State(map[], EMPTY, [], map[], counting, None, 0.0, [])
  }

  /** Every queued name has an entry in the table. */
  ghost predicate Linked(s: State) {
    forall n :: n in s.queue.due ==> n in s.table
  }

  function Emit(s: State, what: What, name: Name, at: Time): State {
    s.(log := s.log + [Event(s.counting, what, name, at)])
  }

  function Put(s: State, name: Name, e: Entry): State {
    s.(table := s.table[name := e])
  }

  /** Adds queue length times elapsed time, when both the clock runs and counting is on. */
  function TickWarm(s: State, now: Time): State {
    if s.warmT.Some? && s.counting && now > s.warmT.value then
      s.(warmSecs := s.warmSecs + Area(|s.queue.keys|, now - s.warmT.value), warmT := Some(now))
    else
      s.(warmT := Some(now))
  }

  function Schedule(s: State, name: Name, at: Time): State {
    s.(queue := Set(s.queue, name, at), heap := Push(s.heap, Pair(at, name)))
  }

  /** A live timer at `due`: the name goes back into the queue and is refreshed, unless its window has passed. */
  function Fire(cfg: Config, s: State, name: Name, due: Time): State
    requires name in s.table
  {
    var s1 := TickWarm(s, due);
    var s2 := s1.(queue := Del(s1.queue, name));
    var e := s2.table[name];
    if !e.warm || due - e.lastUsed >= cfg.window then
      Emit(Put(s2, name, e.(warm := false)), Cooled, name, due)
    else
      Emit(Put(Schedule(s2, name, due + cfg.k), name, e.(resolvedAt := due)), Timer, name, due)
  }

  /** One turn of the loop in `advance`: pop the heap; a pair the queue no longer agrees with is thrown away. */
  function PopDue(cfg: Config, s: State): (r: State)
    requires Linked(s) && s.heap != []
    ensures Linked(r)
  {
    var p := s.heap[0];
    var s0 := s.(heap := s.heap[1..]);
    if p.name !in s.queue.due || s.queue.due[p.name] != p.due then s0 else Fire(cfg, s0, p.name, p.due)
  }

  lemma PopDueDecreases(cfg: Config, s: State, now: Time)
    requires cfg.k > 0.0 && Linked(s) && s.heap != [] && s.heap[0].due <= now
    ensures TotalRounds(cfg.k, PopDue(cfg, s).heap, now) < TotalRounds(cfg.k, s.heap, now)
  {
    hide Push, Without, Set, Rounds;
    var p := s.heap[0];
    TotalRoundsPush(cfg.k, s.heap[1..], Pair(p.due + cfg.k, p.name), now);
    RoundsNext(cfg.k, p.due, now);
  }

  function Advance(cfg: Config, s: State, now: Time): (r: State)
    requires cfg.k > 0.0 && Linked(s)
    ensures Linked(r)
    decreases TotalRounds(cfg.k, s.heap, now)
  {
    if s.heap != [] && s.heap[0].due <= now then
      PopDueDecreases(cfg, s, now);
      Advance(cfg, PopDue(cfg, s), now)
    else TickWarm(s, now)
  }

  function LastUsed(table: map<Name, Entry>, n: Name): Time {
    if n in table then table[n].lastUsed else 0.0
  }

  /** `min(keys, key=last_used)`: the first key with the oldest last use. */
  function Victim(keys: seq<Name>, table: map<Name, Entry>): (v: Name)
    requires keys != []
    ensures v in keys
    ensures forall n :: n in keys ==> LastUsed(table, v) <= LastUsed(table, n)
  {
    if |keys| == 1 then keys[0]
    else
      var v := Victim(keys[..|keys| - 1], table);
      var last := keys[|keys| - 1];
      assert keys == keys[..|keys| - 1] + [last];
      if LastUsed(table, last) < LastUsed(table, v) then last else v
  }

  function Evict(s: State, now: Time): (r: State)
    requires Linked(s) && s.queue.keys != [] && forall n :: n in s.queue.keys ==> n in s.queue.due
    ensures Linked(r)
  {
    var v := Victim(s.queue.keys, s.table);
    var e := s.table[v];
    Emit(Put(s.(queue := Del(s.queue, v)), v, e.(warm := false)), Evicted(Get(s.queue, v)), v, now)
  }

  function FirstDue(cfg: Config, e: Entry, now: Time): Time {
    match cfg.promoteAt
    case Now => now + cfg.k
    case Answer => if e.resolvedAt + cfg.k > now then e.resolvedAt + cfg.k else now
  }

  function Promote(cfg: Config, s: State, name: Name, now: Time): (r: State)
    requires Linked(s) && Valid(s.queue) && name in s.table && cfg.maxWarm >= 1
    ensures Linked(r)
  {
    DelValid(s.queue, name);
    var s1 := s.(queue := Del(s.queue, name));
    var s2 := if |s1.queue.keys| >= cfg.maxWarm then Evict(s1, now) else s1;
    var at := FirstDue(cfg, s2.table[name], now);
    var s3 := Schedule(s2, name, at);
    Emit(Put(s3, name, s3.table[name].(warm := true)), Promoted(at, |s3.queue.keys|), name, now)
  }

  /** A name that was there before, with an answer as old as its last use. */
  function SeedEntry(s: State, name: Name, lastUsed: Time): State {
    Emit(Put(s, name, Entry(true, lastUsed, lastUsed, false)), Seeded, name, lastUsed)
  }

  function Prime(cfg: Config, s: State, name: Name, lastUsed: Time, warm: bool): (r: State)
    requires Linked(s) && Valid(s.queue) && cfg.maxWarm >= 1
    ensures Linked(r)
  {
    if name in s.table then s
    else
      var s1 := SeedEntry(s, name, lastUsed);
      if warm && cfg.window > 0.0 then Promote(cfg, s1, name, lastUsed) else s1
  }

  /** The two promotion rules, `promote_current` and `promote_no_idle`. */
  predicate Promotes(cfg: Config, e: Entry, idle: Time) {
    && !e.warm
    && cfg.window > 0.0
    && (cfg.rule == Current ==> idle < cfg.window)
    && e.hasAddrs
  }

  /** A failing request: remembered, or asked again and remembered for `NEGATIVE_TTL` more. */
  function LookupFailing(s: State, name: Name, now: Time): State {
    if (if name in s.negative then s.negative[name] else 0.0) > now then Emit(s, NegativeHit, name, now)
    else Emit(s, Miss(Negative), name, now).(negative := s.negative[name := now + NEGATIVE_TTL])
  }

  /** A request for a known name, up to promotion: a hit, an old answer served, or a miss. */
  function Serve(cfg: Config, s: State, name: Name, now: Time): State
    requires name in s.table
  {
    var e := s.table[name].(lastUsed := now);
    var hot := now - s.table[name].lastUsed < cfg.ttl;
    var age := now - e.resolvedAt;
    if e.hasAddrs && age < cfg.ttl then
      var s1 := Emit(Put(s, name, e), Hit, name, now);
      if hot && age >= cfg.k then Emit(Put(s1, name, e.(resolvedAt := now)), Ask(e.warm), name, now) else s1
    else if e.hasAddrs && age < cfg.serveStale then
      Emit(Put(s, name, e.(resolvedAt := now)), Stale(e.warm, age), name, now)
    else
      Emit(Put(s, name, e.(resolvedAt := now, hasAddrs := true)),
           Miss(if e.warm then WarmStale else if e.hasAddrs then Expired else Cold), name, now)
  }

  /** `lookup` after `advance`: everything that reads the heap has been done. */
  function Answered(cfg: Config, s: State, name: Name, now: Time, fail: bool): (r: State)
    requires Linked(s) && Valid(s.queue) && cfg.maxWarm >= 1
    ensures Linked(r)
  {
    var s1 := Emit(s, Looked, name, now);
    if fail then LookupFailing(s1, name, now)
    else if name !in s.table then
      Emit(Put(s1, name, Entry(true, now, now, false)), Miss(Cold), name, now)
    else
      var e := s.table[name];
      var s2 := Serve(cfg, s1, name, now);
      if Promotes(cfg, e, now - e.lastUsed) then Promote(cfg, s2, name, now) else s2
  }

  /** What `replay` does to start counting at `c0`. */
  function BeginCounting(s: State, c0: Time): State {
    Emit(s.(counting := true), CountFrom(|s.queue.keys|), [], c0).(warmT := Some(c0))
  }
}
