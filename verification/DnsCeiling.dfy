/** Exactly which settings keep timer refreshes under the ceiling of the manual. */
module DnsCeiling {
  import opened Names
  import opened OrderedDict
  import opened Heap
  import opened DnsModel
  import opened DnsRun
  import opened DnsTally
  import opened DnsTimerBound
  import opened DnsNoWarm
  import opened DnsFrame
  import opened NegativeCache
  import opened DnsReplay

  /** Timer refreshes of the window number at most `maxWarm * ((taken - c0) / k + 1)`. */
  ghost predicate UnderCeiling(cfg: Config, w: Window)
    requires Ok(cfg) && WellTimed(w, 0.0)
  {
    (Tally(Replayed(cfg, w, 0.0).log).refreshWarm as real) <= (cfg.maxWarm as real) * ((w.taken - w.c0) / cfg.k + 1.0)
  }

  /** The settings that can break it: promotions in mid-period, and a window to keep names warm. */
  predicate Breaks(cfg: Config) {
    Midway(cfg) && cfg.window > 0.0
  }

  // ---- a run that breaks it: round after round, a whole queue of names with answers already aged

  /** How old the answers are at promotion: half of what lets the request be a hit with no refresh. */
  function Aged(cfg: Config): Time {
    (if cfg.k < cfg.ttl then cfg.k else cfg.ttl) / 2.0
  }

  /** How long before its timer a name is asked for once more, so that its window has not passed. */
  function Before(cfg: Config): Time {
    (if Aged(cfg) < cfg.window then Aged(cfg) else cfg.window) / 2.0
  }

  /** The names of a round are first asked for here. */
  function Base(cfg: Config, j: nat): Time {
    if j == 0 then 0.0 else Base(cfg, j - 1) + (cfg.k - Aged(cfg))
  }

  /** They are promoted here, as the names of the round before have their timers. */
  function Promo(cfg: Config, j: nat): Time {
    Base(cfg, j) + Aged(cfg)
  }

  function Touch(cfg: Config, j: nat): Time {
    Base(cfg, j) + cfg.k - Before(cfg)
  }

  lemma {:induction false} Times(cfg: Config, j: nat)
    requires Ok(cfg) && Breaks(cfg)
    ensures 0.0 <= Base(cfg, j) < Promo(cfg, j) <= Base(cfg, j + 1) < Touch(cfg, j) < Promo(cfg, j + 1)
    ensures Promo(cfg, j + 1) == Base(cfg, j) + cfg.k && Promo(cfg, j + 1) - Touch(cfg, j) < cfg.window
    ensures Promo(cfg, j) < Base(cfg, j) + cfg.ttl && Promo(cfg, j + 1) < Promo(cfg, j) + cfg.k
  {
    if j > 0 {
      Times(cfg, j - 1);
    }
  }

  /** The `i`-th name of round `j`. */
  function Member(j: nat, i: nat): Name {
    Filler(j) + seq(i + 1, x => 'p')
  }

  lemma MembersDiffer(j: nat, i: nat, j': nat, i': nat)
    ensures Member(j, i) == Member(j', i') ==> j == j' && i == i'
  {
    var a, b := Member(j, i), Member(j', i');
    assert |a| == j + 1 + i + 1 && |b| == j' + 1 + i' + 1;
    if j < j' {
      assert a[j + 1] == 'p' && b[j + 1] == 'o';
    } else if j' < j {
      assert b[j' + 1] == 'p' && a[j' + 1] == 'o';
    }
  }

  function Waiting(cfg: Config, j: nat): Entry {
    Entry(true, Base(cfg, j), Base(cfg, j), false)
  }

  /** The name is warm, was last used then, and has its timer then. */
  ghost predicate Keeps(s: State, n: Name, used: Time, due: Time) {
    n in s.table && s.table[n].lastUsed == used && n in s.queue.due && s.queue.due[n] == due
  }

  lemma SameKeeps(s: State, r: State, n: Name, used: Time, due: Time)
    requires Keeps(s, n, used, due) && Same(s, r, n)
    ensures Keeps(r, n, used, due)
  {
  }

  /** The names of a round from the `from`-th on have been asked for once; none of them is queued. */
  ghost predicate AllWait(cfg: Config, s: State, j: nat, from: nat, end: nat) {
    forall x: nat | from <= x < end :: Has(s, Member(j, x), Waiting(cfg, j), None)
  }

  /** The names of a round from the `from`-th on have not been asked for. */
  ghost predicate NoneKnown(s: State, j: nat, from: nat) {
    forall x: nat | from <= x :: Member(j, x) !in s.table
  }

  /** The names of a round from the `from`-th on are warm, were last used then, and have their timers then. */
  ghost predicate AllKeep(s: State, j: nat, from: nat, end: nat, used: Time, due: Time) {
    forall x: nat | from <= x < end :: Keeps(s, Member(j, x), used, due)
  }

  /** No name of a later round has been asked for. */
  ghost predicate Ahead(s: State, j: nat) {
    forall j': nat, i: nat | j <= j' :: Member(j', i) !in s.table
  }

  /** Names that are not in the table stay out of it, but for the one that is asked for. */
  lemma AheadStays(cfg: Config, s: State, clock: Time, at: Time, n: Name, j: nat)
    requires Ok(cfg) && Inv(cfg, s, clock) && clock <= at && Ahead(s, j)
    requires forall j': nat, i: nat | j <= j' :: Member(j', i) != n
    ensures Linked(s) && Inv(cfg, Advance(cfg, s, at), at)
    ensures Ahead(Answered(cfg, Advance(cfg, s, at), n, at, false), j)
  {
    hide QueueInv, HeapInv, DuesWithin, EntriesBy, Advance, Answered, Member;
    AdvanceInv(cfg, s, clock, at);
    InvLinked(cfg, s, clock);
    InvLinked(cfg, Advance(cfg, s, at), at);
    forall j': nat, i: nat | j <= j'
      ensures Member(j', i) !in Answered(cfg, Advance(cfg, s, at), n, at, false).table
    {
      Unknown(cfg, s, clock, Member(j', i));
      AdvanceLeaves(cfg, s, clock, at, Member(j', i));
      AnsweredLeaves(cfg, Advance(cfg, s, at), n, at, Member(j', i));
    }
  }

  lemma Unknown(cfg: Config, s: State, clock: Time, n: Name)
    requires Inv(cfg, s, clock) && n !in s.table
    ensures n !in s.queue.due
  {
  }

  // ---- timers that fire together

  /** Names used within their window, all due by `now`: each has its timer, and each is counted. */
  lemma {:induction false} AdvanceFiresAll(cfg: Config, s: State, clock: Time, now: Time, names: seq<Name>)
    requires Ok(cfg) && Inv(cfg, s, clock) && clock <= now && s.counting && NoDup(names)
    requires forall n :: n in names ==> Fires(cfg, s, n, now)
    ensures Tally(s.log).refreshWarm + |names| <= Tally(Advance(cfg, s, now).log).refreshWarm
    decreases TotalRounds(cfg.k, s.heap, now)
  {
    hide Push, Without, NoDup, PopDue, Tally;
    if names == [] {
      AdvanceLogs(cfg, s, now);
      TimersGrow(s.log, Advance(cfg, s, now).log);
      return;
    }
    assert names[0] in names;
    HeadIsLeast(s.queue.due, s.heap, names[0]);
    PopDueDecreases(cfg, s, now);
    PopLogs(cfg, s);
    var r := PopDue(cfg, s);
    var head := s.heap[0];
    forall n | n in names && (n != head.name || !Live(s)) ensures Fires(cfg, r, n, now) {
      PopLeaves(cfg, s, n);
    }
    if !Live(s) {
      PopStaleInv(cfg, s, clock);
      AdvanceFiresAll(cfg, r, clock, now, names);
    } else {
      PopLiveInv(cfg, s, clock);
      WithoutElements(names, head.name);
      if head.name in names {
        PopFires(cfg, s, head.name, s.table[head.name], head.due);
      }
      AdvanceFiresAll(cfg, r, head.due, now, Without(names, head.name));
    }
  }

  /** A queued name used within its window, due by `now` for the first time. */
  ghost predicate Fires(cfg: Config, s: State, n: Name, now: Time) {
    && n in s.table && n in s.queue.due
    && s.queue.due[n] <= now < s.queue.due[n] + cfg.k && s.queue.due[n] - s.table[n].lastUsed < cfg.window
  }

  // ---- arrivals one by one

  lemma LookArrival(cfg: Config, s0: State, c0: Time, arr: seq<Arrival>, s: State, clock: Time, n: Name, at: Time)
    returns (all: seq<Arrival>, r: State)
    requires Ok(cfg) && Inv(cfg, s0, c0) && Reaches(cfg, s0, c0, Looks(arr, {}), s, clock) && clock <= at
    ensures Linked(s) && Inv(cfg, Advance(cfg, s, at), at) && r == Answered(cfg, Advance(cfg, s, at), n, at, false)
    ensures Reaches(cfg, s0, c0, Looks(all, {}), r, at) && r.counting == s.counting
    ensures Advance(cfg, s, at).counting == s.counting
    ensures Tally(s.log).refreshWarm <= Tally(Advance(cfg, s, at).log).refreshWarm <= Tally(r.log).refreshWarm
  {
    hide Run, Inv, Answered, Advance, Timely, Tally;
    var mid;
    mid, r := LookNext(cfg, s0, c0, Looks(arr, {}), s, clock, n, at);
    all := arr + [Arrival(at, n)];
    assert Looks(all, {}) == Looks(arr, {}) + [Look(n, at, false)];
    TimersGrow(s.log, mid.log);
    TimersGrow(mid.log, r.log);
  }

  function Total(m: nat, j: nat): nat {
    if j == 0 then 0 else Total(m, j - 1) + m
  }

  // ---- promoting the names of a round

  /**
   * In round `j`, at the moment of promotion and after time has passed to it: the first `i` names are in, those from
   * `from` on are waiting, and of the queued names only the first `i` were used just now. Nothing is due.
   */
  ghost predicate Admitted(cfg: Config, s: State, j: nat, i: nat, from: nat) {
    && Inv(cfg, s, Promo(cfg, j)) && s.counting && Total(cfg.maxWarm, j) <= Tally(s.log).refreshWarm
    && (forall n :: n in s.queue.due ==> Promo(cfg, j) < s.queue.due[n])
    && AllKeep(s, j, 0, i, Promo(cfg, j), Promo(cfg, j + 1))
    && AllWait(cfg, s, j, from, cfg.maxWarm)
    && Ahead(s, j + 1)
    && (forall n :: n in s.queue.due && s.table[n].lastUsed == Promo(cfg, j) ==>
          exists x: nat :: x < i && n == Member(j, x))
  }

  /** Time standing still. */
  lemma AdmittedRests(cfg: Config, s: State, j: nat, i: nat, from: nat)
    requires Ok(cfg) && Admitted(cfg, s, j, i, from)
    ensures Linked(s) && Admitted(cfg, Advance(cfg, s, Promo(cfg, j)), j, i, from)
    ensures Advance(cfg, s, Promo(cfg, j)).table == s.table
    ensures Advance(cfg, s, Promo(cfg, j)).queue.due == s.queue.due
  {
    hide Inv, Advance, Tally, Promo, Member;
    var p := Promo(cfg, j);
    InvLinked(cfg, s, p);
    AdvanceInv(cfg, s, p, p);
    AdvanceQuiet(cfg, s, p, p);
    AdvanceCounting(cfg, s, p);
    AdvanceLogs(cfg, s, p);
    TimersGrow(s.log, Advance(cfg, s, p).log);
  }

  lemma {:induction false} MembersFit(keys: seq<Name>, j: nat, i: nat)
    requires NoDup(keys) && forall n :: n in keys ==> exists x: nat :: x < i && n == Member(j, x)
    ensures |keys| <= i
    decreases i
  {
    assert |keys| > 0 ==> keys[0] in keys;
    if i > 0 {
      WithoutElements(keys, Member(j, i - 1));
      MembersFit(Without(keys, Member(j, i - 1)), j, i - 1);
    }
  }

  /** While not all names of the round are in, one that was used before can make way. */
  lemma RoomFor(cfg: Config, s: State, j: nat, i: nat, from: nat)
    requires Ok(cfg) && Admitted(cfg, s, j, i, from) && i < cfg.maxWarm
    ensures |s.queue.keys| < cfg.maxWarm || exists o :: o in s.queue.due && s.table[o].lastUsed < Promo(cfg, j)
  {
    hide Promo, Member, NoDup;
    if forall o :: o in s.queue.due ==> s.table[o].lastUsed == Promo(cfg, j) {
      MembersFit(s.queue.keys, j, i);
    }
  }

  /** What a request for name `i` does to all the others. */
  lemma OthersAdmitted(cfg: Config, s: State, j: nat, i: nat, due: Time)
    requires Ok(cfg) && Admitted(cfg, s, j, i, i + 1) && i < cfg.maxWarm && Promo(cfg, j) < due
    requires Member(j, i) in s.table
    ensures var p := Promo(cfg, j); var n := Member(j, i); var r := Answered(cfg, s, n, p, false);
      && (n in r.queue.due && Keeps(r, n, p, due) && due == Promo(cfg, j + 1) ==> Admitted(cfg, r, j, i + 1, i + 1))
      && (n !in r.queue.due ==> Admitted(cfg, r, j, i, i + 1))
  {
    hide QueueInv, HeapInv, DuesWithin, EntriesBy, Answered, Tally, Promo, Member;
    var p := Promo(cfg, j);
    var n := Member(j, i);
    InvLinked(cfg, s, p);
    var r := Answered(cfg, s, n, p, false);
    AnsweredInv(cfg, s, n, p, false);
    AnsweredKeeps(cfg, s, n, p, false);
    AnsweredLogs(cfg, s, n, p, false);
    TimersGrow(s.log, r.log);
    RoomFor(cfg, s, j, i, i + 1);
    forall x: nat | x < i ensures Keeps(r, Member(j, x), p, Promo(cfg, j + 1)) {
      MembersDiffer(j, x, j, i);
      AnsweredRoom(cfg, s, n, p, Member(j, x));
    }
    forall x: nat | i + 1 <= x < cfg.maxWarm ensures Has(r, Member(j, x), Waiting(cfg, j), None) {
      MembersDiffer(j, x, j, i);
      AnsweredLeaves(cfg, s, n, p, Member(j, x));
    }
    forall j': nat, x: nat | j + 1 <= j' ensures Member(j', x) !in r.table {
      MembersDiffer(j', x, j, i);
      Unknown(cfg, s, p, Member(j', x));
      AnsweredLeaves(cfg, s, n, p, Member(j', x));
    }
    forall q | q in r.queue.due && q != n ensures q in s.queue.due && Same(s, r, q) {
      AnsweredOthers(cfg, s, n, p, q);
    }
  }

  /** The request for a name that waits, or one more at the same moment. */
  lemma AdmitLook(cfg: Config, s: State, j: nat, i: nat, e: Entry)
    requires Ok(cfg) && Breaks(cfg) && Admitted(cfg, s, j, i, i + 1) && i < cfg.maxWarm
    requires Has(s, Member(j, i), e, None) && !e.warm && e.hasAddrs && e.resolvedAt == Base(cfg, j)
    ensures var p := Promo(cfg, j); var r := Answered(cfg, s, Member(j, i), p, false);
      if Promotes(cfg, e, p - e.lastUsed) then Admitted(cfg, r, j, i + 1, i + 1)
      else Admitted(cfg, r, j, i, i + 1) && Has(r, Member(j, i), e.(lastUsed := p), None)
  {
    hide Inv, Answered, Admitted, Promo, Member;
    Times(cfg, j);
    assert Promo(cfg, j) < Base(cfg, j) + cfg.k by { Times(cfg, j); }
    assert Inv(cfg, s, Promo(cfg, j)) by { AdmittedInv(cfg, s, j, i, i + 1); }
    AnsweredHit(cfg, s, Member(j, i), Promo(cfg, j), e, None);
    OthersAdmitted(cfg, s, j, i, Promo(cfg, j + 1));
  }

  lemma AdmittedInv(cfg: Config, s: State, j: nat, i: nat, from: nat)
    requires Admitted(cfg, s, j, i, from)
    ensures Inv(cfg, s, Promo(cfg, j)) && Linked(s) && Valid(s.queue)
  {
  }

  /** A second request for a name that is in already. */
  lemma AdmittedAgain(cfg: Config, s: State, j: nat, i: nat)
    requires Ok(cfg) && Breaks(cfg) && Admitted(cfg, s, j, i + 1, i + 1) && i < cfg.maxWarm
    ensures Admitted(cfg, Answered(cfg, s, Member(j, i), Promo(cfg, j), false), j, i + 1, i + 1)
  {
    hide QueueInv, HeapInv, DuesWithin, EntriesBy, Answered, Tally, Promo, Member;
    var p := Promo(cfg, j);
    var n := Member(j, i);
    InvLinked(cfg, s, p);
    var r := Answered(cfg, s, n, p, false);
    AnsweredInv(cfg, s, n, p, false);
    AnsweredKeeps(cfg, s, n, p, false);
    AnsweredLogs(cfg, s, n, p, false);
    TimersGrow(s.log, r.log);
    AnsweredQueued(cfg, s, n, p);
    forall x: nat | x != i ensures Member(j, x) != n && Same(s, r, Member(j, x)) {
      MembersDiffer(j, x, j, i);
    }
    forall q | q in r.queue.due && q != n ensures Same(s, r, q) {
    }
    forall j': nat, x: nat | j + 1 <= j' ensures Member(j', x) !in r.table {
      MembersDiffer(j', x, j, i);
      assert Same(s, r, Member(j', x));
    }
  }

  /** Two requests for each name from the `i`-th on, after which all are in. */
  lemma {:induction false} AdmitAll(cfg: Config, s0: State, c0: Time, arr: seq<Arrival>, s: State, clock: Time,
                                    j: nat, i: nat)
    returns (all: seq<Arrival>, r: State)
    requires Ok(cfg) && Breaks(cfg) && Inv(cfg, s0, c0) && Reaches(cfg, s0, c0, Looks(arr, {}), s, clock)
    requires clock <= Promo(cfg, j) && i < cfg.maxWarm && Linked(s)
    requires Admitted(cfg, Advance(cfg, s, Promo(cfg, j)), j, i, i)
    ensures Reaches(cfg, s0, c0, Looks(all, {}), r, Promo(cfg, j))
    ensures Admitted(cfg, r, j, cfg.maxWarm, cfg.maxWarm)
    decreases cfg.maxWarm - i
  {
    hide Run, Inv, Answered, Advance, Timely, Tally, Promo, Member, Admitted;
    var p := Promo(cfg, j);
    var n := Member(j, i);
    var x := Advance(cfg, s, p);
    FirstWaits(cfg, x, j, i);
    all, r := LookArrival(cfg, s0, c0, arr, s, clock, n, p);
    var e := Waiting(cfg, j);
    AdmitLook(cfg, x, j, i, e);
    if Promotes(cfg, e, p - e.lastUsed) {
      AdmittedRests(cfg, r, j, i + 1, i + 1);
      AdmittedAgain(cfg, Advance(cfg, r, p), j, i);
    } else {
      AdmittedRests(cfg, r, j, i, i + 1);
      AdmitLook(cfg, Advance(cfg, r, p), j, i, e.(lastUsed := p));
    }
    all, r := LookArrival(cfg, s0, c0, all, r, p, n, p);
    if i + 1 < cfg.maxWarm {
      AdmittedRests(cfg, r, j, i + 1, i + 1);
      all, r := AdmitAll(cfg, s0, c0, all, r, p, j, i + 1);
    }
  }

  lemma FirstWaits(cfg: Config, s: State, j: nat, i: nat)
    requires Admitted(cfg, s, j, i, i) && i < cfg.maxWarm
    ensures Has(s, Member(j, i), Waiting(cfg, j), None) && Admitted(cfg, s, j, i, i + 1)
  {
    hide Inv, Tally, Promo, Member;
  }

  // ---- the first requests for the names of the next round

  /**
   * After round `j` has promoted: the names of the round are in, used at `used` if among the first `touched` and at
   * their promotion if not, and of the next round the first `i` have been asked for.
   */
  ghost predicate Between(cfg: Config, s: State, j: nat, i: nat, touched: nat) {
    && s.counting && Total(cfg.maxWarm, j) <= Tally(s.log).refreshWarm
    && AllKeep(s, j, 0, touched, Touch(cfg, j), Promo(cfg, j + 1))
    && AllKeep(s, j, touched, cfg.maxWarm, Promo(cfg, j), Promo(cfg, j + 1))
    && AllWait(cfg, s, j + 1, 0, i) && NoneKnown(s, j + 1, i) && Ahead(s, j + 2)
  }

  lemma AdmittedBetween(cfg: Config, s: State, j: nat)
    requires Admitted(cfg, s, j, cfg.maxWarm, cfg.maxWarm)
    ensures Between(cfg, s, j, 0, 0)
  {
    hide Inv, Tally, Promo, Touch, Member;
  }

  /** Time before the timers, and a request for another name that is not queued or a queued one, keep what waits. */
  lemma BetweenCold(cfg: Config, s: State, clock: Time, j: nat, i: nat)
    requires Ok(cfg) && Inv(cfg, s, clock) && clock <= Base(cfg, j + 1) < Promo(cfg, j + 1) && Between(cfg, s, j, i, 0)
    requires Linked(s) && Inv(cfg, Advance(cfg, s, Base(cfg, j + 1)), Base(cfg, j + 1))
    ensures var mid := Advance(cfg, s, Base(cfg, j + 1));
      var r := Answered(cfg, mid, Member(j + 1, i), Base(cfg, j + 1), false);
      r.counting && Tally(s.log).refreshWarm <= Tally(r.log).refreshWarm ==> Between(cfg, r, j, i + 1, 0)
  {
    hide QueueInv, HeapInv, DuesWithin, EntriesBy, Advance, Answered, Tally, Promo, Touch, Base, Member;
    var next := j + 1;
    var at := Base(cfg, next);
    var n := Member(next, i);
    var mid := Advance(cfg, s, at);
    Unknown(cfg, s, clock, n);
    AdvanceLeaves(cfg, s, clock, at, n);
    AnsweredCold(cfg, mid, n, at);
    forall x: nat | x < cfg.maxWarm
      ensures Keeps(mid, Member(j, x), Promo(cfg, j), Promo(cfg, next)) && Member(j, x) != n
    {
      AdvanceLeaves(cfg, s, clock, at, Member(j, x));
      MembersDiffer(j, x, next, i);
    }
    forall x: nat | x < i ensures Has(mid, Member(next, x), Waiting(cfg, next), None) && Member(next, x) != n {
      AdvanceLeaves(cfg, s, clock, at, Member(next, x));
      MembersDiffer(next, x, next, i);
    }
    forall x: nat | i < x ensures Member(next, x) !in mid.table && Member(next, x) != n {
      Unknown(cfg, s, clock, Member(next, x));
      AdvanceLeaves(cfg, s, clock, at, Member(next, x));
      MembersDiffer(next, x, next, i);
    }
    forall j': nat, x: nat | next < j' ensures Member(j', x) !in mid.table && Member(j', x) != n {
      Unknown(cfg, s, clock, Member(j', x));
      AdvanceLeaves(cfg, s, clock, at, Member(j', x));
      MembersDiffer(j', x, next, i);
    }
  }

  lemma {:induction false} ColdAll(cfg: Config, s0: State, c0: Time, arr: seq<Arrival>, s: State, clock: Time,
                                   j: nat, i: nat)
    returns (all: seq<Arrival>, r: State, now: Time)
    requires Ok(cfg) && Breaks(cfg) && Inv(cfg, s0, c0) && Reaches(cfg, s0, c0, Looks(arr, {}), s, clock)
    requires clock <= Base(cfg, j + 1) && Between(cfg, s, j, i, 0) && i <= cfg.maxWarm
    ensures now <= Base(cfg, j + 1) && Reaches(cfg, s0, c0, Looks(all, {}), r, now)
    ensures Between(cfg, r, j, cfg.maxWarm, 0)
    decreases cfg.maxWarm - i
  {
    hide Run, Inv, Answered, Advance, Timely, Tally, Promo, Touch, Base, Member;
    all, r, now := arr, s, clock;
    if i < cfg.maxWarm {
      Times(cfg, j);
      Times(cfg, j + 1);
      all, r := LookArrival(cfg, s0, c0, arr, s, clock, Member(j + 1, i), Base(cfg, j + 1));
      BetweenCold(cfg, s, clock, j, i);
      all, r, now := ColdAll(cfg, s0, c0, all, r, Base(cfg, j + 1), j, i + 1);
    }
  }

  // ---- one more request for each name, just before its timer

  lemma BetweenTouch(cfg: Config, s: State, clock: Time, j: nat, i: nat)
    requires Ok(cfg) && Inv(cfg, s, clock) && clock <= Touch(cfg, j) < Promo(cfg, j + 1) && i < cfg.maxWarm
    requires Between(cfg, s, j, cfg.maxWarm, i)
    requires Linked(s) && Inv(cfg, Advance(cfg, s, Touch(cfg, j)), Touch(cfg, j))
    ensures var mid := Advance(cfg, s, Touch(cfg, j));
      var r := Answered(cfg, mid, Member(j, i), Touch(cfg, j), false);
      r.counting && Tally(s.log).refreshWarm <= Tally(r.log).refreshWarm ==> Between(cfg, r, j, cfg.maxWarm, i + 1)
  {
    hide QueueInv, HeapInv, DuesWithin, EntriesBy, Advance, Answered, Tally, Promo, Touch, Base, Member;
    var at := Touch(cfg, j);
    var n := Member(j, i);
    var mid := Advance(cfg, s, at);
    var r := Answered(cfg, mid, n, at, false) by { InvLinked(cfg, mid, at); }
    AdvanceLeaves(cfg, s, clock, at, n);
    AnsweredQueued(cfg, mid, n, at);
    forall x: nat | x < cfg.maxWarm && x != i ensures Same(s, r, Member(j, x)) {
      AdvanceLeaves(cfg, s, clock, at, Member(j, x));
      MembersDiffer(j, x, j, i);
      SameSame(s, mid, r, Member(j, x));
    }
    forall j': nat, x: nat | j < j' && (Member(j', x) !in s.queue.due) ensures Same(s, r, Member(j', x)) {
      AdvanceLeaves(cfg, s, clock, at, Member(j', x));
      MembersDiffer(j', x, j, i);
      SameSame(s, mid, r, Member(j', x));
    }
    var next := j + 1;
    forall x: nat | x < cfg.maxWarm ensures Has(r, Member(next, x), Waiting(cfg, next), None) {
      assert Same(s, r, Member(next, x));
    }
    forall x: nat | cfg.maxWarm <= x ensures Member(next, x) !in r.table {
      Unknown(cfg, s, clock, Member(next, x));
      assert Same(s, r, Member(next, x));
    }
    forall j': nat, x: nat | next < j' ensures Member(j', x) !in r.table {
      Unknown(cfg, s, clock, Member(j', x));
      assert Same(s, r, Member(j', x));
    }
  }

  lemma SameSame(s: State, mid: State, r: State, n: Name)
    requires Same(s, mid, n) && Same(mid, r, n)
    ensures Same(s, r, n)
  {
  }

  lemma {:induction false} TouchAll(cfg: Config, s0: State, c0: Time, arr: seq<Arrival>, s: State, clock: Time,
                                    j: nat, i: nat)
    returns (all: seq<Arrival>, r: State, now: Time)
    requires Ok(cfg) && Breaks(cfg) && Inv(cfg, s0, c0) && Reaches(cfg, s0, c0, Looks(arr, {}), s, clock)
    requires clock <= Touch(cfg, j) && Between(cfg, s, j, cfg.maxWarm, i) && i <= cfg.maxWarm
    ensures now <= Touch(cfg, j) && Reaches(cfg, s0, c0, Looks(all, {}), r, now)
    ensures Between(cfg, r, j, cfg.maxWarm, cfg.maxWarm)
    decreases cfg.maxWarm - i
  {
    hide Run, Inv, Answered, Advance, Timely, Tally, Promo, Touch, Base, Member;
    all, r, now := arr, s, clock;
    if i < cfg.maxWarm {
      Times(cfg, j);
      all, r := LookArrival(cfg, s0, c0, arr, s, clock, Member(j, i), Touch(cfg, j));
      BetweenTouch(cfg, s, clock, j, i);
      all, r, now := TouchAll(cfg, s0, c0, all, r, Touch(cfg, j), j, i + 1);
    }
  }

  // ---- rounds

  /** Before round `j`: its names wait, and those of the round before have their timers at its beginning. */
  ghost predicate Begun(cfg: Config, s: State, j: nat) {
    && s.counting
    && AllWait(cfg, s, j, 0, cfg.maxWarm) && Ahead(s, j + 1)
    && (forall n :: n in s.queue.due ==> n in s.table && s.table[n].lastUsed < Promo(cfg, j))
    && Total(cfg.maxWarm, j) <= Tally(s.log).refreshWarm + cfg.maxWarm
    && (j > 0 ==> AllKeep(s, j - 1, 0, cfg.maxWarm, Touch(cfg, j - 1), Promo(cfg, j)))
  }

  function Members(j: nat, m: nat): seq<Name> {
    seq(m, x requires 0 <= x < m => Member(j, x))
  }

  lemma MembersNoDup(j: nat, m: nat)
    ensures NoDup(Members(j, m)) && |Members(j, m)| == m
  {
    hide Member;
    forall x, y | 0 <= x < y < m ensures Member(j, x) != Member(j, y) {
      MembersDiffer(j, x, j, y);
    }
  }

  /** Time passing to a round fires the timers of the one before. */
  lemma RoundFires(cfg: Config, s: State, clock: Time, j: nat)
    requires Ok(cfg) && Breaks(cfg) && Inv(cfg, s, clock) && clock <= Promo(cfg, j) && Begun(cfg, s, j)
    ensures Linked(s) && Total(cfg.maxWarm, j) <= Tally(Advance(cfg, s, Promo(cfg, j)).log).refreshWarm
  {
    hide Inv, Advance, Tally, Promo, Touch, Member;
    var p := Promo(cfg, j);
    InvLinked(cfg, s, clock);
    if j > 0 {
      MembersNoDup(j - 1, cfg.maxWarm);
      Times(cfg, j - 1);
      forall n | n in Members(j - 1, cfg.maxWarm) ensures Fires(cfg, s, n, p) {
        var x :| 0 <= x < cfg.maxWarm && n == Member(j - 1, x);
      }
      AdvanceFiresAll(cfg, s, clock, p, Members(j - 1, cfg.maxWarm));
    }
  }

  lemma RoundBegins(cfg: Config, s: State, clock: Time, j: nat)
    requires Ok(cfg) && Breaks(cfg) && Inv(cfg, s, clock) && clock <= Promo(cfg, j) && Begun(cfg, s, j)
    ensures Linked(s) && Admitted(cfg, Advance(cfg, s, Promo(cfg, j)), j, 0, 0)
  {
    hide QueueInv, HeapInv, DuesWithin, EntriesBy, Advance, Tally, Promo, Touch, Member;
    var p := Promo(cfg, j);
    RoundFires(cfg, s, clock, j);
    AdvanceInv(cfg, s, clock, p);
    AdvanceCounting(cfg, s, p);
    var r := Advance(cfg, s, p);
    forall x: nat | x < cfg.maxWarm ensures Has(r, Member(j, x), Waiting(cfg, j), None) {
      AdvanceLeaves(cfg, s, clock, p, Member(j, x));
    }
    forall j': nat, x: nat | j + 1 <= j' ensures Member(j', x) !in r.table {
      Unknown(cfg, s, clock, Member(j', x));
      AdvanceLeaves(cfg, s, clock, p, Member(j', x));
    }
    forall n | n in r.queue.due ensures n in r.table && r.table[n].lastUsed < p {
      AdvanceUsed(cfg, s, clock, p, n);
    }
  }

  lemma BetweenBegun(cfg: Config, s: State, clock: Time, j: nat)
    requires Ok(cfg) && Breaks(cfg) && Inv(cfg, s, clock) && clock <= Touch(cfg, j)
    requires Between(cfg, s, j, cfg.maxWarm, cfg.maxWarm)
    ensures Begun(cfg, s, j + 1)
  {
    hide HeapInv, Tally, Promo, Touch, Base, Member;
    Times(cfg, j);
  }

  /** One round, from before it to before the next. */
  lemma Round(cfg: Config, s0: State, c0: Time, arr: seq<Arrival>, s: State, clock: Time, j: nat)
    returns (all: seq<Arrival>, r: State, now: Time)
    requires Ok(cfg) && Breaks(cfg) && Inv(cfg, s0, c0) && Reaches(cfg, s0, c0, Looks(arr, {}), s, clock)
    requires clock <= Promo(cfg, j) && Begun(cfg, s, j)
    ensures now <= Promo(cfg, j + 1) && Reaches(cfg, s0, c0, Looks(all, {}), r, now) && Begun(cfg, r, j + 1)
  {
    hide Run, Inv, Advance, Timely, Promo, Touch, Base, Admitted, Between, Begun;
    Times(cfg, j);
    RoundBegins(cfg, s, clock, j);
    all, r := AdmitAll(cfg, s0, c0, arr, s, clock, j, 0);
    AdmittedBetween(cfg, r, j);
    all, r, now := ColdAll(cfg, s0, c0, all, r, Promo(cfg, j), j, 0);
    all, r, now := TouchAll(cfg, s0, c0, all, r, now, j, 0);
    BetweenBegun(cfg, r, now, j);
  }

  lemma {:induction false} Rounds(cfg: Config, s0: State, j: nat)
    returns (all: seq<Arrival>, r: State, now: Time)
    requires Ok(cfg) && Breaks(cfg) && Inv(cfg, s0, Promo(cfg, 0)) && Begun(cfg, s0, 0)
    ensures now <= Promo(cfg, j) && Reaches(cfg, s0, Promo(cfg, 0), Looks(all, {}), r, now) && Begun(cfg, r, j)
  {
    hide Run, Inv, Timely, Promo, Begun;
    if j == 0 {
      all, r, now := [], s0, Promo(cfg, 0);
      ReachesItself(cfg, s0, now);
      assert Looks([], {}) == [];
    } else {
      all, r, now := Rounds(cfg, s0, j - 1);
      all, r, now := Round(cfg, s0, Promo(cfg, 0), all, r, now, j - 1);
    }
  }

  // ---- the run-up, and the window

  function FirstUses(m: nat): seq<Arrival> {
    seq(m, x requires 0 <= x < m => Arrival(0.0, Member(0, x)))
  }

  function Crowd(cfg: Config, inside: seq<Arrival>, taken: Time): Window {
    Window(FirstUses(cfg.maxWarm), inside, Promo(cfg, 0), taken, [], false, {})
  }

  /** The first `i` names of the first round have been asked for once, and nothing is queued. */
  ghost predicate UsedOnce(cfg: Config, s: State, i: nat) {
    && s.queue.due == map[]
    && AllWait(cfg, s, 0, 0, i) && NoneKnown(s, 0, i) && Ahead(s, 1)
  }

  lemma UsedOnceMore(cfg: Config, s: State, i: nat)
    requires Ok(cfg) && Inv(cfg, s, 0.0) && UsedOnce(cfg, s, i)
    ensures Linked(s) && Inv(cfg, Advance(cfg, s, 0.0), 0.0)
    ensures UsedOnce(cfg, Answered(cfg, Advance(cfg, s, 0.0), Member(0, i), 0.0, false), i + 1)
  {
    hide HeapInv, DuesWithin, EntriesBy, Advance, Answered, Member;
    AdvanceInv(cfg, s, 0.0, 0.0);
    AdvanceQuiet(cfg, s, 0.0, 0.0);
    AnsweredCold(cfg, Advance(cfg, s, 0.0), Member(0, i), 0.0);
    forall j: nat, x: nat | j != 0 || x != i ensures Member(j, x) != Member(0, i) {
      MembersDiffer(j, x, 0, i);
    }
  }

  lemma {:induction false} FirstUsesRun(cfg: Config, i: nat) returns (s: State)
    requires Ok(cfg)
    ensures Inv(cfg, Start(false), 0.0)
    ensures Reaches(cfg, Start(false), 0.0, Looks(FirstUses(i), {}), s, 0.0) && UsedOnce(cfg, s, i)
  {
    hide Run, Inv, Answered, Advance, Timely, UsedOnce, Member;
    StartInv(cfg, 0.0, false);
    if i == 0 {
      s := Start(false);
      ReachesItself(cfg, s, 0.0);
      assert Looks(FirstUses(0), {}) == [];
      StartUsedOnce(cfg);
    } else {
      var before := FirstUsesRun(cfg, i - 1);
      UsedOnceMore(cfg, before, i - 1);
      var all;
      all, s := LookArrival(cfg, Start(false), 0.0, FirstUses(i - 1), before, 0.0, Member(0, i - 1), 0.0);
      var mid;
      mid, s := LookNext(cfg, Start(false), 0.0, Looks(FirstUses(i - 1), {}), before, 0.0, Member(0, i - 1), 0.0);
      assert Looks(FirstUses(i), {}) == Looks(FirstUses(i - 1), {}) + [Look(Member(0, i - 1), 0.0, false)];
    }
  }

  lemma StartUsedOnce(cfg: Config)
    ensures UsedOnce(cfg, Start(false), 0)
  {
  }

  /** The table at the start of the window, which does not depend on what comes in it. */
  lemma CrowdAtC0(cfg: Config, inside: seq<Arrival>, taken: Time)
    requires Ok(cfg) && Breaks(cfg) && WellTimed(Crowd(cfg, inside, taken), 0.0)
    ensures WellTimed(Crowd(cfg, [], Promo(cfg, 0)), 0.0)
    ensures AtC0(cfg, Crowd(cfg, inside, taken), 0.0) == AtC0(cfg, Crowd(cfg, [], Promo(cfg, 0)), 0.0)
  {
    hide Run, Promo, Inv;
    assert RunUp(Crowd(cfg, inside, taken)) == RunUp(Crowd(cfg, [], Promo(cfg, 0)));
  }

  lemma CrowdBegins(cfg: Config)
    requires Ok(cfg) && Breaks(cfg)
    ensures var w := Crowd(cfg, [], Promo(cfg, 0)); WellTimed(w, 0.0) && Begun(cfg, AtC0(cfg, w, 0.0), 0)
  {
    hide Run, Inv, Advance, Tally, Promo, Touch, Member, Timely;
    var w := Crowd(cfg, [], Promo(cfg, 0));
    Times(cfg, 0);
    var s := FirstUsesRun(cfg, cfg.maxWarm);
    var ops := Looks(w.warmup, {});
    ReachesNext(cfg, Start(false), 0.0, ops, s, 0.0, Tick(w.c0));
    assert RunUp(w) == ops + [Tick(w.c0)];
    AdvanceQuiet(cfg, s, 0.0, w.c0);
  }

  /** Arrivals that a run can take are in order. */
  lemma {:induction false} TimelyInOrder(arr: seq<Arrival>, clock: Time, counting: bool)
    requires Timely(Looks(arr, {}), clock, counting)
    ensures InOrder(arr) && clock <= EndClock(Looks(arr, {}), clock)
    ensures forall a :: a in arr ==> clock <= a.at <= EndClock(Looks(arr, {}), clock)
    decreases |arr|
  {
    if arr != [] {
      assert Looks(arr, {})[1..] == Looks(arr[1..], {});
      var rest := arr[1..];
      TimelyInOrder(rest, arr[0].at, counting);
      assert forall i :: 1 <= i < |arr| ==> arr[i] == rest[i - 1] && rest[i - 1] in rest;
    }
  }

  /** After any number of rounds every name of every round has had its timer. */
  lemma CrowdTimers(cfg: Config, rounds: nat) returns (w: Window)
    requires Ok(cfg) && Breaks(cfg)
    ensures WellTimed(w, 0.0) && w.c0 == Promo(cfg, 0) && w.taken == Promo(cfg, rounds)
    ensures Total(cfg.maxWarm, rounds) <= Tally(Replayed(cfg, w, 0.0).log).refreshWarm
  {
    hide Run, Inv, Advance, Tally, Promo, Timely, Begun, AtC0;
    var c0, taken := Promo(cfg, 0), Promo(cfg, rounds);
    CrowdBegins(cfg);
    var s0 := AtC0(cfg, Crowd(cfg, [], c0), 0.0);
    var arr, s, now := Rounds(cfg, s0, rounds);
    w := Crowd(cfg, arr, taken);
    TimelyInOrder(arr, c0, s0.counting);
    Times(cfg, 0);
    CrowdAtC0(cfg, arr, taken);
    RoundFires(cfg, s, now, rounds);
    ReachesNext(cfg, s0, c0, Looks(arr, {}), s, now, Tick(taken));
  }

  // ---- the exact condition

  lemma {:induction false} TotalIs(m: nat, j: nat)
    ensures (Total(m, j) as real) == (m as real) * (j as real)
  {
    if j > 0 {
      TotalIs(m, j - 1);
    }
  }

  lemma {:induction false} BaseIs(cfg: Config, step: Time, j: nat)
    requires step == cfg.k - Aged(cfg)
    ensures Base(cfg, j) == step * (j as real)
  {
    hide Aged;
    if j > 0 {
      BaseIs(cfg, step, j - 1);
      MulNext(step, j - 1);
    }
  }

  lemma Positive(x: real, k: real)
    requires k > 0.0 && x * k > 0.0
    ensures x > 0.0
  {
    DivUnique(x, k, x * k);
    RoundsNonNegative(x * k, k);
  }

  /** Enough rounds, each shorter than a period, bring more than the ceiling. */
  lemma TooMany(m: nat, j: nat, k: real, a: real, t: real)
    requires m >= 1 && 0.0 < k && (j as real) * a > k && t == (k - a) * (j as real)
    ensures (m as real) * (t / k + 1.0) < (m as real) * (j as real)
  {
    var n := j as real;
    var q := t / k;
    assert q * k == t == n * k - n * a;
    assert n * a > k;
    assert (n - 1.0 - q) * k == n * k - k - q * k == n * a - k;
    Positive(n - 1.0 - q, k);
    assert (m as real) * (n - 1.0 - q) > 0.0;
    assert (m as real) * (n - 1.0 - q) == (m as real) * n - (m as real) * (q + 1.0);
  }

  lemma AgedIs(cfg: Config)
    requires Ok(cfg) && Breaks(cfg)
    ensures 0.0 < Aged(cfg) < cfg.k
  {
  }

  lemma EnoughRounds(k: real, a: real) returns (j: nat)
    requires 0.0 < a && 0.0 < k
    ensures (j as real) * a > k
  {
    var q := k / a;
    assert q * a == k;
    assert q >= 0.0 by { RoundsNonNegative(k, a); }
    j := q.Floor + 1;
    assert (j as real) > q;
    assert ((j as real) - q) * a > 0.0;
  }

  /** Promotion by the answer breaks the ceiling, whatever the other settings, once there are a TTL and a window. */
  lemma CrowdBreaksCeiling(cfg: Config) returns (w: Window)
    requires Ok(cfg) && Breaks(cfg)
    ensures WellTimed(w, 0.0) && !UnderCeiling(cfg, w)
  {
    hide Tally, Replayed, Base, WellTimed, Aged, Total;
    var rounds := EnoughRounds(cfg.k, Aged(cfg)) by { AgedIs(cfg); }
    w := CrowdTimers(cfg, rounds);
    var step, t := cfg.k - Aged(cfg), w.taken - w.c0;
    BaseIs(cfg, step, 0);
    BaseIs(cfg, step, rounds);
    assert t == step * (rounds as real);
    TotalIs(cfg.maxWarm, rounds);
    TooMany(cfg.maxWarm, rounds, cfg.k, Aged(cfg), t);
    assert (cfg.maxWarm as real) * (t / cfg.k + 1.0) < (Total(cfg.maxWarm, rounds) as real);
    assert (Total(cfg.maxWarm, rounds) as real) <= (Tally(Replayed(cfg, w, 0.0).log).refreshWarm as real);
  }

  /**
   * Exactly when the ceiling holds of every window: names are promoted from the present, or there is no TTL for answers
   * to age in, or no name is kept warm. It does not depend on the rule, `k`, the number of names or the ages served.
   */
  lemma CeilingIff(cfg: Config)
    requires Ok(cfg)
    ensures (forall w: Window :: WellTimed(w, 0.0) ==> UnderCeiling(cfg, w)) <==>
            cfg.promoteAt == Now || cfg.ttl <= 0.0 || cfg.window <= 0.0
  {
    hide Tally, Replayed, WellTimed, UnderCeiling;
    if Breaks(cfg) {
      var w := CrowdBreaksCeiling(cfg);
    } else {
      forall w: Window | WellTimed(w, 0.0) ensures UnderCeiling(cfg, w) {
        StaysUnder(cfg, w);
      }
    }
  }

  lemma StaysUnder(cfg: Config, w: Window)
    requires Ok(cfg) && WellTimed(w, 0.0) && !Breaks(cfg)
    ensures UnderCeiling(cfg, w)
  {
    hide Tally, Replayed, Run;
    ReplayCeiling(cfg, w, 0.0);
    if Midway(cfg) {
      ReplayIsRun(cfg, w, 0.0);
      NothingKeptWarm(cfg, false, 0.0, RunUp(w) + ([Begin(w.c0)] + Measured(w)));
      assert (w.taken - w.c0) / cfg.k >= 0.0 by { RoundsNonNegative(w.taken - w.c0, cfg.k); }
    }
  }
}
