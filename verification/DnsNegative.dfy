/** The failing requests of the table, against the separate replay of the negative cache. */
module DnsNegative {
  import opened Names
  import opened OrderedDict
  import opened Heap
  import opened DnsModel
  import opened DnsRun
  import opened DnsTally
  import opened NegativeCache

  /** The failing requests of a run, in order. */
  function Failing(ops: seq<Op>): seq<Arrival> {
    if ops == [] then []
    else if ops[0].Look? && ops[0].fail then [Arrival(ops[0].at, ops[0].name)] + Failing(ops[1..])
    else Failing(ops[1..])
  }

  /** Both remember the same failures; the table keeps when each expires. */
  ghost predicate Remembers(negative: map<Name, Time>, last: map<Name, Time>) {
    && negative.Keys == last.Keys
    && forall n :: n in last ==> negative[n] == last[n] + NEGATIVE_TTL
  }

  ghost predicate Agree(s: State, m: Memory) {
    && Remembers(s.negative, m.last)
    && Failures(Tally(s.log)) == (m.hits, m.lookups)
  }

  lemma {:induction false} AdvanceNegative(cfg: Config, s: State, now: Time)
    requires cfg.k > 0.0 && Linked(s)
    ensures Advance(cfg, s, now).negative == s.negative
    decreases TotalRounds(cfg.k, s.heap, now)
  {
    hide Push, Without;
    if s.heap != [] && s.heap[0].due <= now {
      PopDueDecreases(cfg, s, now);
      AdvanceNegative(cfg, PopDue(cfg, s), now);
    }
  }

  lemma FailingAgrees(cfg: Config, s: State, m: Memory, name: Name, now: Time)
    requires Ok(cfg) && Inv(cfg, s, now) && s.counting && Agree(s, m) && 0.0 <= now
    ensures Agree(Answered(cfg, s, name, now, true), Decide(m, Arrival(now, name), NEGATIVE_TTL))
  {
    hide Tally, Inv;
    FailingTally(s, name, now);
  }

  lemma LookAgrees(cfg: Config, s: State, m: Memory, clock: Time, name: Name, at: Time, fail: bool)
    requires Ok(cfg) && Inv(cfg, s, clock) && s.counting && Agree(s, m) && 0.0 <= clock <= at
    ensures Inv(cfg, Advance(cfg, s, at), at)
    ensures Agree(Answered(cfg, Advance(cfg, s, at), name, at, fail),
                  if fail then Decide(m, Arrival(at, name), NEGATIVE_TTL) else m)
  {
    hide Answered, Advance, Tally, Failures;
    var s1 := Advance(cfg, s, at);
    AdvanceInv(cfg, s, clock, at);
    AdvanceOutcomes(cfg, s, at);
    AdvanceNegative(cfg, s, at);
    AdvanceCounting(cfg, s, at);
    if fail {
      FailingAgrees(cfg, s1, m, name, at);
    } else {
      AnsweredTally(cfg, s1, name, at, false);
      AnsweredKeeps(cfg, s1, name, at, false);
    }
  }

  lemma {:induction false} RunAgrees(cfg: Config, s: State, m: Memory, clock: Time, ops: seq<Op>)
    requires Ok(cfg) && Inv(cfg, s, clock) && Timely(ops, clock, s.counting)
    requires s.counting && Agree(s, m) && 0.0 <= clock
    ensures Agree(Run(cfg, s, clock, ops), Feed(m, Failing(ops), NEGATIVE_TTL))
    decreases |ops|
  {
    hide Agree, Decide, Answered, Advance;
    if ops != [] {
      StepInv(cfg, s, clock, ops[0]);
      var rest := Failing(ops[1..]);
      match ops[0] {
        case Look(name, at, fail) =>
          LookAgrees(cfg, s, m, clock, name, at, fail);
          if fail {
            assert ([Arrival(at, name)] + rest)[1..] == rest;
            RunAgrees(cfg, Step(cfg, s, ops[0]), Decide(m, Arrival(at, name), NEGATIVE_TTL), at, ops[1..]);
          } else {
            RunAgrees(cfg, Step(cfg, s, ops[0]), m, at, ops[1..]);
          }
        case Tick(at) =>
          TickAgrees(cfg, s, m, at);
          RunAgrees(cfg, Step(cfg, s, ops[0]), m, at, ops[1..]);
      }
    }
  }

  lemma TickAgrees(cfg: Config, s: State, m: Memory, at: Time)
    requires cfg.k > 0.0 && Linked(s) && Agree(s, m)
    ensures Agree(Advance(cfg, s, at), m)
  {
    hide Advance, Tally, Failures;
    AdvanceOutcomes(cfg, s, at);
    AdvanceNegative(cfg, s, at);
  }

  /**
   * Whatever successes come in between, the table splits its failing requests between memory and asking exactly as
   * the negative-cache replay at 60 seconds splits them on their own. (Times are seconds since the epoch: the table
   * takes 0 for a name it does not remember.)
   */
  lemma FailuresSplitAlike(cfg: Config, s: State, clock: Time, ops: seq<Op>)
    requires Ok(cfg) && Inv(cfg, s, clock) && Timely(ops, clock, true) && s.counting && 0.0 <= clock
    requires s.negative == map[] && Failures(Tally(s.log)) == (0, 0)
    ensures var r := Run(cfg, s, clock, ops); var m := Feed(BLANK, Failing(ops), NEGATIVE_TTL);
      && Tally(r.log).negativeHits == m.hits && Tally(r.log).negative == m.lookups
      && Remembers(r.negative, m.last)
  {
    hide Tally, Run, Inv;
    RunAgrees(cfg, s, BLANK, clock, ops);
  }
}
