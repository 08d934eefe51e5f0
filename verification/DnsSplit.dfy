/** How often the clock is looked at does not matter: `advance` to `b` and then to `c` is `advance` to `c`. */
module DnsSplit {
  import opened Names
  import opened OrderedDict
  import opened Heap
  import opened DnsModel
  import opened DnsRun

  lemma TickSplits(s: State, clock: Time, b: Time, c: Time)
    requires ClockInv(s.counting, s.warmT, clock) && (s.counting ==> s.warmT.Some?) && clock <= b <= c
    ensures TickWarm(TickWarm(s, b), c) == TickWarm(s, c)
  {
    hide Area;
    if s.counting {
      AreaAdd(|s.queue.keys|, b - clock, c - b);
      AreaNow(|s.queue.keys|, 0.0);
    }
  }

  lemma PopAfterTick(cfg: Config, s: State, clock: Time, b: Time)
    requires Ok(cfg) && Inv(cfg, s, clock) && clock <= b && s.heap != [] && b < s.heap[0].due
    requires s.counting ==> s.warmT.Some?
    ensures Live(s) ==> PopDue(cfg, TickWarm(s, b)) == PopDue(cfg, s)
    ensures !Live(s) ==> PopDue(cfg, TickWarm(s, b)) == TickWarm(PopDue(cfg, s), b)
  {
    hide Push, Without, NoDup, Sorted, TickWarm, Fire;
    TickFields(s, b);
    var p := s.heap[0];
    var s0 := s.(heap := s.heap[1..]);
    TickSplits(s0, clock, b, p.due);
    if Live(s) {
      TickHeap(s, b, s.heap[1..]);
      FireAfterTick(cfg, s0, clock, b, p.name, p.due);
    } else {
      TickHeap(s, b, s.heap[1..]);
    }
  }

  lemma TickHeap(s: State, b: Time, h: seq<Pair>)
    ensures TickWarm(s.(heap := h), b) == TickWarm(s, b).(heap := h)
  {
  }

  lemma FireAfterTick(cfg: Config, s: State, clock: Time, b: Time, name: Name, due: Time)
    requires name in s.table && ClockInv(s.counting, s.warmT, clock) && clock <= b <= due
    requires s.counting ==> s.warmT.Some?
    ensures Fire(cfg, TickWarm(s, b), name, due) == Fire(cfg, s, name, due)
  {
    hide Push, Without, TickWarm, Fire;
    TickFields(s, b);
    TickSplits(s, clock, b, due);
    FireFields(cfg, s, name, due);
    FireFields(cfg, TickWarm(s, b), name, due);
  }

  lemma PopMetered(cfg: Config, s: State)
    requires Linked(s) && s.heap != [] && (s.counting ==> s.warmT.Some?)
    ensures PopDue(cfg, s).counting ==> PopDue(cfg, s).warmT.Some?
  {
  }

  lemma TickFields(s: State, now: Time)
    ensures var r := TickWarm(s, now); r == s.(warmSecs := r.warmSecs, warmT := Some(now))
  {
  }

  /** An early look at the clock, with nothing due, is forgotten by the next `advance`. */
  lemma {:induction false} LateTick(cfg: Config, s: State, clock: Time, b: Time, c: Time)
    requires Ok(cfg) && Inv(cfg, s, clock) && clock <= b <= c && (s.counting ==> s.warmT.Some?)
    requires s.heap == [] || b < s.heap[0].due
    ensures Linked(TickWarm(s, b)) && Advance(cfg, TickWarm(s, b), c) == Advance(cfg, s, c)
    decreases TotalRounds(cfg.k, s.heap, c)
  {
    hide Push, Without, NoDup, PopDue, TickWarm;
    TickFields(s, b);
    if s.heap != [] && s.heap[0].due <= c {
      PopAfterTick(cfg, s, clock, b);
      PopDueDecreases(cfg, s, c);
      if !Live(s) {
        PopStaleInv(cfg, s, clock);
        StaleNext(cfg, s, b);
        PopMetered(cfg, s);
        LateTick(cfg, PopDue(cfg, s), clock, b, c);
      }
    } else {
      TickSplits(s, clock, b, c);
    }
  }

  lemma StaleNext(cfg: Config, s: State, b: Time)
    requires Linked(s) && Sorted(s.heap) && s.heap != [] && b < s.heap[0].due && !Live(s)
    ensures PopDue(cfg, s).heap == [] || b < PopDue(cfg, s).heap[0].due
  {
    if |s.heap| > 1 {
      assert PairLeq(s.heap[0], s.heap[1]);
    }
  }

  /**
   * `advance` composes: the table, the queue, the heap, the log and the counted queue time at `c` do not depend on
   * the moments in between at which time was advanced.
   */
  lemma {:induction false} AdvanceSplits(cfg: Config, s: State, clock: Time, b: Time, c: Time)
    requires Ok(cfg) && Inv(cfg, s, clock) && clock <= b <= c && (s.counting ==> s.warmT.Some?)
    ensures Advance(cfg, Advance(cfg, s, b), c) == Advance(cfg, s, c)
    decreases TotalRounds(cfg.k, s.heap, b)
  {
    hide Push, Without, NoDup, PopDue, TickWarm;
    if s.heap != [] && s.heap[0].due <= b {
      PopDueDecreases(cfg, s, b);
      PopMetered(cfg, s);
      if Live(s) {
        PopLiveInv(cfg, s, clock);
        AdvanceSplits(cfg, PopDue(cfg, s), s.heap[0].due, b, c);
      } else {
        PopStaleInv(cfg, s, clock);
        AdvanceSplits(cfg, PopDue(cfg, s), clock, b, c);
      }
    } else {
      LateTick(cfg, s, clock, b, c);
    }
  }

  /**
   * While counting, `warm_secs` grows by the length of the queue times the elapsed time over any stretch in which no
   * queued name is due. With `AdvanceSplits`, it is the integral of the queue's length over time.
   */
  lemma {:induction false} QuietStretch(cfg: Config, s: State, clock: Time, now: Time)
    requires Ok(cfg) && Inv(cfg, s, clock) && clock <= now && s.counting && s.warmT.Some?
    requires forall n :: n in s.queue.due ==> now < s.queue.due[n]
    ensures var r := Advance(cfg, s, now);
      && r.table == s.table && r.queue == s.queue && r.log == s.log
      && r.warmSecs == s.warmSecs + Area(|s.queue.keys|, now - clock)
    decreases TotalRounds(cfg.k, s.heap, now)
  {
    hide Push, Without, NoDup, Fire, Area;
    if s.heap != [] && s.heap[0].due <= now {
      PopDueDecreases(cfg, s, now);
      PopStaleInv(cfg, s, clock);
      QuietStretch(cfg, PopDue(cfg, s), clock, now);
    } else if now == clock {
      AreaNow(|s.queue.keys|, now - clock);
    }
  }
}
