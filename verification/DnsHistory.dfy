/** What the log alone says of a name, and that the table says the same in every reachable state. */
module DnsHistory {
  import opened Names
  import opened OrderedDict
  import opened DnsModel
  import opened DnsIntegral

  /** Events that bring a name a new answer. */
  predicate Resolves(what: What) {
    what.Timer? || what.Ask? || what.Stale? || what.Seeded? || (what.Miss? && what.kind != Negative)
  }

  /** Events that are a use of a name. */
  predicate Uses(what: What) {
    what.Hit? || what.Stale? || what.Seeded? || (what.Miss? && what.kind != Negative)
  }

  /** Some event has resolved the name. */
  function KnownIn(log: seq<Event>, n: Name): bool {
    if log == [] then false
    else
      var e := log[|log| - 1];
      (e.name == n && Resolves(e.what)) || KnownIn(log[..|log| - 1], n)
  }

  /** When it was last resolved. */
  function ResolvedAt(log: seq<Event>, n: Name): Time {
    if log == [] then 0.0
    else
      var e := log[|log| - 1];
      if e.name == n && Resolves(e.what) then e.at else ResolvedAt(log[..|log| - 1], n)
  }

  /** When it was last used. */
  function UsedAt(log: seq<Event>, n: Name): Time {
    if log == [] then 0.0
    else
      var e := log[|log| - 1];
      if e.name == n && Uses(e.what) then e.at else UsedAt(log[..|log| - 1], n)
  }

  /** When its next timer is, if it is kept warm: a promotion sets the first, and each timer the next a period later. */
  function DueIn(k: Time, log: seq<Event>, n: Name): Option<Time> {
    if log == [] then None
    else
      var e := log[|log| - 1];
      var before := DueIn(k, log[..|log| - 1], n);
      if e.name != n then before
      else
        match e.what
        case Promoted(due, _) => Some(due)
        case Timer => Some(e.at + k)
        case Evicted(_) | Cooled => None
        case _ => before
  }

  /** How many events it took until its timer was last set: the later, the further back in the queue. */
  function SetIn(log: seq<Event>, n: Name): nat {
    if log == [] then 0
    else
      var e := log[|log| - 1];
      if e.name == n && (e.what.Promoted? || e.what.Timer?) then |log| else SetIn(log[..|log| - 1], n)
  }

  /** When it was last asked for in vain. */
  function AskedIn(log: seq<Event>, n: Name): Option<Time> {
    if log == [] then None
    else
      var e := log[|log| - 1];
      if e.name == n && e.what == Miss(Negative) then Some(e.at) else AskedIn(log[..|log| - 1], n)
  }

  lemma LogAppend(k: Time, log: seq<Event>, e: Event, n: Name)
    ensures var r := log + [e]; var mine := e.name == n;
      && (KnownIn(r, n) <==> (mine && Resolves(e.what)) || KnownIn(log, n))
      && ResolvedAt(r, n) == (if mine && Resolves(e.what) then e.at else ResolvedAt(log, n))
      && UsedAt(r, n) == (if mine && Uses(e.what) then e.at else UsedAt(log, n))
      && SetIn(r, n) == (if mine && (e.what.Promoted? || e.what.Timer?) then |log| + 1 else SetIn(log, n))
      && AskedIn(r, n) == (if mine && e.what == Miss(Negative) then Some(e.at) else AskedIn(log, n))
      && DueIn(k, r, n) ==
         if !mine then DueIn(k, log, n)
         else match e.what
           case Promoted(due, _) => Some(due)
           case Timer => Some(e.at + k)
           case Evicted(_) | Cooled => None
           case _ => DueIn(k, log, n)
  {
    assert (log + [e])[..|log|] == log;
  }

  lemma {:induction false} SetWithin(log: seq<Event>, n: Name)
    ensures SetIn(log, n) <= |log|
  {
    if log != [] {
      SetWithin(log[..|log| - 1], n);
    }
  }

  // ---- the table says the same

  /** What the table holds of a name is what the log says of it; a failure is remembered for 60 seconds. */
  ghost predicate Mirror(cfg: Config, s: State, n: Name) {
    && (n in s.table <==> KnownIn(s.log, n))
    && (n in s.table ==> s.table[n].resolvedAt == ResolvedAt(s.log, n) && s.table[n].lastUsed == UsedAt(s.log, n))
    && DueIn(cfg.k, s.log, n) == (if n in s.queue.due then Some(s.queue.due[n]) else None)
    && (n in s.negative <==> AskedIn(s.log, n).Some?)
    && (n in s.negative ==> s.negative[n] == AskedIn(s.log, n).value + 60.0)
  }

  /** The queue is in the order in which timers were set. */
  ghost predicate InTurn(s: State) {
    SetInOrder(s.log, s.queue.keys)
  }

  ghost predicate SetInOrder(log: seq<Event>, keys: seq<Name>) {
    forall i, j :: 0 <= i < j < |keys| ==> SetIn(log, keys[i]) < SetIn(log, keys[j])
  }

  ghost predicate Mirrors(cfg: Config, s: State) {
    (forall n :: Mirror(cfg, s, n)) && InTurn(s) && |s.queue.keys| == Queued(s.log)
  }

  /** What an event does to the entry of its name. */
  ghost predicate EntryAfter(s: State, r: State, e: Event) {
    var n := e.name;
    if Resolves(e.what) || Uses(e.what) then
      && n in r.table && (n in s.table || (Resolves(e.what) && Uses(e.what)))
      && r.table[n].resolvedAt == (if Resolves(e.what) then e.at else s.table[n].resolvedAt)
      && r.table[n].lastUsed == (if Uses(e.what) then e.at else s.table[n].lastUsed)
    else
      && (n in r.table <==> n in s.table)
      && (n in s.table ==>
            r.table[n].resolvedAt == s.table[n].resolvedAt && r.table[n].lastUsed == s.table[n].lastUsed)
  }

  /** What an event does to the queue. */
  ghost predicate QueueAfter(cfg: Config, s: State, r: State, e: Event) {
    match e.what
    case Promoted(due, _) => e.name !in s.queue.due && r.queue == Set(s.queue, e.name, due)
    case Timer => e.name in s.queue.due && r.queue == Set(Del(s.queue, e.name), e.name, e.at + cfg.k)
    case Evicted(_) | Cooled => e.name in s.queue.due && r.queue == Del(s.queue, e.name)
    case _ => r.queue == s.queue
  }

  /** One event: the log is one longer, and only what it is about has changed. */
  ghost predicate Follows(cfg: Config, s: State, r: State, e: Event) {
    && r.log == s.log + [e]
    && (forall n :: n != e.name ==> (n in r.table <==> n in s.table) && (n in s.table ==> r.table[n] == s.table[n]))
    && EntryAfter(s, r, e) && QueueAfter(cfg, s, r, e)
    && r.negative == if e.what == Miss(Negative) then s.negative[e.name := e.at + 60.0] else s.negative
  }

  lemma FollowsDues(cfg: Config, s: State, r: State, e: Event)
    requires Valid(s.queue) && Follows(cfg, s, r, e)
    ensures forall n :: n != e.name ==>
              (n in r.queue.due <==> n in s.queue.due) && (n in s.queue.due ==> r.queue.due[n] == s.queue.due[n])
    ensures match e.what
            case Promoted(due, _) => e.name in r.queue.due && r.queue.due[e.name] == due
            case Timer => e.name in r.queue.due && r.queue.due[e.name] == e.at + cfg.k
            case Evicted(_) | Cooled => e.name !in r.queue.due
            case _ => r.queue == s.queue
  {
    hide NoDup, Without;
    DelValid(s.queue, e.name);
  }

  lemma FollowsMirror(cfg: Config, s: State, r: State, e: Event, n: Name)
    requires Valid(s.queue) && Follows(cfg, s, r, e) && Mirror(cfg, s, n)
    ensures Mirror(cfg, r, n)
  {
    hide KnownIn, ResolvedAt, UsedAt, DueIn, AskedIn, SetIn, QueueAfter, Valid;
    LogAppend(cfg.k, s.log, e, n);
    FollowsDues(cfg, s, r, e);
  }

  /** Taking a key out keeps the others in their order. */
  lemma {:induction false} WithoutOrder(keys: seq<Name>, n: Name, log: seq<Event>)
    requires SetInOrder(log, keys)
    ensures SetInOrder(log, Without(keys, n))
    ensures forall m :: m in Without(keys, n) ==> m in keys
  {
    hide SetIn;
    if keys != [] {
      var rest := Without(keys[1..], n);
      assert forall i :: 0 <= i < |keys| - 1 ==> keys[1..][i] == keys[i + 1];
      WithoutOrder(keys[1..], n, log);
      if keys[0] != n {
        var all := Without(keys, n);
        forall i, j | 0 <= i < j < |all| ensures SetIn(log, all[i]) < SetIn(log, all[j]) {
          assert all[j] == rest[j - 1] && rest[j - 1] in keys[1..];
          var x :| 0 <= x < |keys| - 1 && keys[1..][x] == rest[j - 1];
          assert keys[x + 1] == all[j];
          if i > 0 {
            assert all[i] == rest[i - 1];
          }
        }
      }
    }
  }

  lemma FollowsSet(cfg: Config, s: State, r: State, e: Event, n: Name)
    requires r.log == s.log + [e]
    ensures SetIn(r.log, n) ==
            if e.name == n && (e.what.Promoted? || e.what.Timer?) then |s.log| + 1 else SetIn(s.log, n)
    ensures SetIn(s.log, n) <= |s.log|
  {
    LogAppend(cfg.k, s.log, e, n);
    SetWithin(s.log, n);
  }

  lemma FollowsInTurn(cfg: Config, s: State, r: State, e: Event)
    requires Valid(s.queue) && Follows(cfg, s, r, e) && InTurn(s)
    ensures InTurn(r)
  {
    hide SetIn, NoDup, EntryAfter, Without;
    var q := Del(s.queue, e.name);
    WithoutOrder(s.queue.keys, e.name, s.log);
    DelValid(s.queue, e.name);
    assert forall m :: m in q.keys ==> m != e.name;
    var keys := r.queue.keys;
    var kept := if e.what.Promoted? || e.what.Timer? || e.what.Evicted? || e.what.Cooled? then q.keys else s.queue.keys;
    assert SetInOrder(s.log, kept);
    assert keys == kept || keys == kept + [e.name];
    forall i, j | 0 <= i < j < |keys| ensures SetIn(r.log, keys[i]) < SetIn(r.log, keys[j]) {
      FollowsSet(cfg, s, r, e, keys[i]);
      FollowsSet(cfg, s, r, e, keys[j]);
      assert keys[i] == kept[i] && (j < |kept| ==> keys[j] == kept[j]);
      assert kept[i] in kept;
    }
  }

  lemma FollowsQueued(cfg: Config, s: State, r: State, e: Event)
    requires Valid(s.queue) && Follows(cfg, s, r, e) && |s.queue.keys| == Queued(s.log)
    ensures |r.queue.keys| == Queued(r.log)
  {
    hide NoDup, Without, EntryAfter, Queued;
    IntegralAppend(s.log, e);
    DelValid(s.queue, e.name);
    match e.what
    case Promoted(due, _) => SetNewValid(s.queue, e.name, due);
    case Timer => SetNewValid(Del(s.queue, e.name), e.name, e.at + cfg.k);
    case _ =>
  }

  lemma FollowsMirrors(cfg: Config, s: State, r: State, e: Event)
    requires Valid(s.queue) && Follows(cfg, s, r, e) && Mirrors(cfg, s)
    ensures Mirrors(cfg, r)
  {
    hide Follows, Mirror, InTurn, Valid;
    FollowsInTurn(cfg, s, r, e);
    FollowsQueued(cfg, s, r, e);
    forall n ensures Mirror(cfg, r, n) {
      FollowsMirror(cfg, s, r, e, n);
    }
  }

  /** The queue time, the heap and the marks of warm names are not in the log. */
  ghost predicate Alike(s: State, r: State) {
    && r.log == s.log && r.queue == s.queue && r.negative == s.negative && r.counting == s.counting
    && forall n :: (n in r.table <==> n in s.table)
                   && (n in s.table ==> r.table[n].resolvedAt == s.table[n].resolvedAt
                                        && r.table[n].lastUsed == s.table[n].lastUsed)
  }

  lemma AlikeMirrors(cfg: Config, s: State, r: State)
    requires Mirrors(cfg, s) && Alike(s, r)
    ensures Mirrors(cfg, r)
  {
    hide KnownIn, ResolvedAt, UsedAt, DueIn, AskedIn, SetIn;
    forall n ensures Mirror(cfg, r, n) {
      assert Mirror(cfg, s, n);
    }
  }
}
