/** Every counter is a number of events: what each one counts, and no other. */
module DnsCounts {
  import opened Names
  import opened DnsModel
  import opened DnsTally

  /** What can be counted, one for each counter. */
  datatype Counter =
    | Lookups | Hits | NegativeHits | Misses | ColdMisses | ExpiredMisses | WarmMisses | NegativeMisses
    | Refreshes | TimerRefreshes | AskedRefreshes | OldAnswers | OldAnswerRefreshes | OldWarmAnswers
    | Promotions | Evictions

  predicate Counts(k: Counter, what: What) {
    match k
    case Lookups => what == Looked
    case Hits => what == Hit
    case NegativeHits => what == NegativeHit
    case Misses => what.Miss?
    case ColdMisses => what == Miss(Cold)
    case ExpiredMisses => what == Miss(Expired)
    case WarmMisses => what == Miss(WarmStale)
    case NegativeMisses => what == Miss(Negative)
    case Refreshes => what.Ask? || what.Stale? || what.Timer?
    case TimerRefreshes => what == Timer
    case AskedRefreshes => what.Ask?
    case OldAnswers | OldAnswerRefreshes => what.Stale?
    case OldWarmAnswers => what.Stale? && what.wasWarm
    case Promotions => what.Promoted?
    case Evictions => what.Evicted?
  }

  function Field(c: Counters, k: Counter): nat {
    match k
    case Lookups => c.lookups
    case Hits => c.hits
    case NegativeHits => c.negativeHits
    case Misses => c.misses
    case ColdMisses => c.cold
    case ExpiredMisses => c.expired
    case WarmMisses => c.warmStale
    case NegativeMisses => c.negative
    case Refreshes => c.refreshes
    case TimerRefreshes => c.refreshWarm
    case AskedRefreshes => c.refreshAsk
    case OldAnswers => c.staleHits
    case OldAnswerRefreshes => c.refreshStale
    case OldWarmAnswers => c.staleHitsWarm
    case Promotions => c.promotes
    case Evictions => c.warmEvicted
  }

  /** The number of counted events. */
  function Number(log: seq<Event>, k: Counter): nat {
    if log == [] then 0
    else
      var e := log[|log| - 1];
      Number(log[..|log| - 1], k) + if e.counted && Counts(k, e.what) then 1 else 0
  }

  lemma CountOne(c: Counters, e: Event, k: Counter)
    ensures Field(Count(c, e), k) == Field(c, k) + if e.counted && Counts(k, e.what) then 1 else 0
  {
  }

  /** Each counter is the number of events counted under it. */
  lemma {:induction false} CounterIsNumber(log: seq<Event>, k: Counter)
    ensures Field(Tally(log), k) == Number(log, k)
  {
    hide Field, Counts, Count;
    if log == [] {
      assert Field(ZERO, k) == 0 by { NoneYet(k); }
    } else {
      CounterIsNumber(log[..|log| - 1], k);
      CountOne(Tally(log[..|log| - 1]), log[|log| - 1], k);
    }
  }

  lemma NoneYet(k: Counter)
    ensures Field(ZERO, k) == 0
  {
  }

  /** The ages of the old answers given, in order. */
  function Ages(log: seq<Event>): seq<Time> {
    if log == [] then []
    else
      var e := log[|log| - 1];
      Ages(log[..|log| - 1]) + if e.counted && e.what.Stale? then [e.what.age] else []
  }

  function Sum(ages: seq<Time>): Time {
    if ages == [] then 0.0 else Sum(ages[..|ages| - 1]) + ages[|ages| - 1]
  }

  lemma SumAppend(ages: seq<Time>, a: Time)
    ensures Sum(ages + [a]) == Sum(ages) + a
  {
    assert (ages + [a])[..|ages|] == ages;
  }

  lemma CountAge(c: Counters, e: Event)
    ensures var r := Count(c, e);
      if e.counted && e.what.Stale? then
        && r.staleHits == c.staleHits + 1 && r.staleAgeSum == c.staleAgeSum + e.what.age
        && r.staleAgeMax == if e.what.age > c.staleAgeMax then e.what.age else c.staleAgeMax
      else r.staleHits == c.staleHits && r.staleAgeSum == c.staleAgeSum && r.staleAgeMax == c.staleAgeMax
  {
  }

  /** The counters of ages: their sum, and the largest of them and 0. */
  lemma {:induction false} AgesAreCounted(log: seq<Event>)
    ensures var c := Tally(log); var ages := Ages(log);
      && |ages| == c.staleHits && c.staleAgeSum == Sum(ages)
      && 0.0 <= c.staleAgeMax && (forall a :: a in ages ==> a <= c.staleAgeMax)
      && (c.staleAgeMax == 0.0 || c.staleAgeMax in ages)
  {
    hide Count, Sum;
    if log == [] {
      assert Sum([]) == 0.0 by { NoSum(); }
    } else {
      var before := log[..|log| - 1];
      var e := log[|log| - 1];
      AgesAreCounted(before);
      CountAge(Tally(before), e);
      if e.counted && e.what.Stale? {
        SumAppend(Ages(before), e.what.age);
      } else {
        assert Ages(log) == Ages(before);
      }
    }
  }

  lemma NoSum()
    ensures Sum([]) == 0.0
  {
  }
}
