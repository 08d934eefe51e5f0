/**
 * scripts/dns-negative-replay.py: failures remembered for `secs` seconds. Every looked-up time opens a window of
 * that length; arrivals inside it are answered from memory.
 */
module NegativeCache {
  import opened Names
  import opened OrderedDict

  datatype Arrival = Arrival(at: Time, name: Name)

  datatype Memory = Memory(last: map<Name, Time>, lookups: nat, hits: nat, looked: map<Name, seq<Time>>)

  const BLANK := Memory(map[], 0, 0, map[])

  function LookedAt(looked: map<Name, seq<Time>>, n: Name): seq<Time> {
    if n in looked then looked[n] else []
  }

  function Decide(m: Memory, a: Arrival, secs: Time): Memory {
    if a.name in m.last && a.at - m.last[a.name] < secs then m.(hits := m.hits + 1)
    else
      Memory(m.last[a.name := a.at], m.lookups + 1, m.hits,
             m.looked[a.name := LookedAt(m.looked, a.name) + [a.at]])
  }

  function Feed(m: Memory, arr: seq<Arrival>, secs: Time): Memory
    decreases |arr|
  {
    if arr == [] then m else Feed(Decide(m, arr[0], secs), arr[1..], secs)
  }

  /** `replay`: the loop over the arrivals, with its dictionaries and counters. */
  method Replay(arr: seq<Arrival>, secs: Time) returns (lookups: nat, hits: nat, looked: map<Name, seq<Time>>)
    ensures var m := Feed(BLANK, arr, secs); lookups == m.lookups && hits == m.hits && looked == m.looked
    ensures lookups + hits == |arr|
  {
    var last: map<Name, Time> := map[];
    looked := map[];
    lookups, hits := 0, 0;
    for i := 0 to |arr|
      invariant Feed(Memory(last, lookups, hits, looked), arr[i..], secs) == Feed(BLANK, arr, secs)
      invariant lookups + hits == i
    {
      assert arr[i..][1..] == arr[i + 1..];
      var t, name := arr[i].at, arr[i].name;
      if name in last && t - last[name] < secs {
        hits := hits + 1;
        continue;
      }
      lookups := lookups + 1;
      last := last[name := t];
      looked := looked[name := LookedAt(looked, name) + [t]];
    }
  }

  /** `remembered`: some looked-up time `f` has `f <= t < f + secs`. */
  predicate Remembered(looked: seq<Time>, t: Time, secs: Time) {
    looked != [] && (looked[0] <= t < looked[0] + secs || Remembered(looked[1..], t, secs))
  }

  lemma {:induction false} RememberedMeans(looked: seq<Time>, t: Time, secs: Time)
    ensures Remembered(looked, t, secs) <==> exists f :: f in looked && f <= t < f + secs
  {
    if looked != [] {
      RememberedMeans(looked[1..], t, secs);
      assert looked == [looked[0]] + looked[1..];
      if Remembered(looked, t, secs) {
        if looked[0] <= t < looked[0] + secs {
          assert looked[0] in looked;
        } else {
          var f :| f in looked[1..] && f <= t < f + secs;
          assert f in looked;
        }
      }
      if f :| f in looked && f <= t < f + secs {
        if f != looked[0] {
          assert f in looked[1..];
        }
      }
    }
  }

  // ---- one name

  function TimesOf(arr: seq<Arrival>, n: Name): seq<Time> {
    if arr == [] then []
    else (if arr[0].name == n then [arr[0].at] else []) + TimesOf(arr[1..], n)
  }

  /** The times of one name that are looked up: the first, and each that is `secs` after the last one looked up. */
  function Greedy(g: seq<Time>, ts: seq<Time>, secs: Time): seq<Time>
    decreases |ts|
  {
    if ts == [] then g
    else if g != [] && ts[0] - g[|g| - 1] < secs then Greedy(g, ts[1..], secs)
    else Greedy(g + [ts[0]], ts[1..], secs)
  }

  ghost predicate Consistent(m: Memory) {
    && m.last.Keys == m.looked.Keys
    && forall n :: n in m.looked ==> m.looked[n] != [] && m.last[n] == m.looked[n][|m.looked[n]| - 1]
  }

  lemma DecideOne(m: Memory, a: Arrival, secs: Time, n: Name)
    requires Consistent(m)
    ensures Consistent(Decide(m, a, secs))
    ensures var g := LookedAt(m.looked, n);
      LookedAt(Decide(m, a, secs).looked, n) ==
      if a.name != n || (g != [] && a.at - g[|g| - 1] < secs) then g else g + [a.at]
  {
  }

  /** Names do not disturb each other: what is looked up for one is the greedy choice on its own arrivals. */
  lemma {:induction false} NamesAreIndependent(m: Memory, arr: seq<Arrival>, secs: Time, n: Name)
    requires Consistent(m)
    ensures LookedAt(Feed(m, arr, secs).looked, n) == Greedy(LookedAt(m.looked, n), TimesOf(arr, n), secs)
    ensures Consistent(Feed(m, arr, secs))
    decreases |arr|
  {
    hide Decide, Consistent, LookedAt;
    if arr != [] {
      var rest := TimesOf(arr[1..], n);
      DecideOne(m, arr[0], secs, n);
      NamesAreIndependent(Decide(m, arr[0], secs), arr[1..], secs, n);
      if arr[0].name == n {
        assert ([arr[0].at] + rest)[1..] == rest;
      } else {
        assert [] + rest == rest;
      }
    }
  }

  ghost predicate Ascending(ts: seq<Time>) {
    forall i, j :: 0 <= i < j < |ts| ==> ts[i] <= ts[j]
  }

  ghost predicate Gapped(ts: seq<Time>, secs: Time) {
    forall i, j :: 0 <= i < j < |ts| ==> ts[i] + secs <= ts[j]
  }

  /** Some window of `g` has `t` in it. */
  ghost predicate Covered(g: seq<Time>, t: Time, secs: Time) {
    exists i :: 0 <= i < |g| && g[i] <= t < g[i] + secs
  }

  /** The greedy choice, from a choice made so far of times up to now. */
  lemma {:induction false} GreedyProperties(g: seq<Time>, ts: seq<Time>, secs: Time)
    requires secs > 0.0 && Ascending(ts) && Gapped(g, secs) && Ascending(g)
    requires forall i :: 0 <= i < |ts| && g != [] ==> g[|g| - 1] <= ts[i]
    ensures var r := Greedy(g, ts, secs);
      && g <= r && Gapped(r, secs)
      && (forall f :: f in r ==> f in g || f in ts)
      && (forall t :: t in ts ==> Covered(r, t, secs))
    decreases |ts|
  {
    if ts != [] {
      var r := Greedy(g, ts, secs);
      var t := ts[0];
      if g != [] && t - g[|g| - 1] < secs {
        GreedyProperties(g, ts[1..], secs);
        assert g[|g| - 1] == r[|g| - 1];
      } else {
        GreedyProperties(g + [t], ts[1..], secs);
        assert r[|g|] == (g + [t])[|g|];
      }
      assert Covered(r, t, secs);
      assert ts == [t] + ts[1..];
    }
  }

  lemma LaterWindow(g: seq<Time>, secs: Time, i: nat, j: nat, t: Time)
    requires secs > 0.0 && Gapped(g, secs) && i < |g| && j < |g| && t < g[i] + secs && g[j] + secs <= t
    ensures j < i
  {
  }

  /** The greedy times stay ahead of any other choice with such gaps: its `j`-th time comes no later. */
  lemma {:induction false} GreedyStaysAhead(ts: seq<Time>, secs: Time, other: seq<Time>, j: nat)
    requires secs > 0.0 && Ascending(ts) && Gapped(other, secs) && forall t :: t in other ==> t in ts
    requires j < |other|
    ensures j < |Greedy([], ts, secs)| && Greedy([], ts, secs)[j] <= other[j]
  {
    var g := Greedy([], ts, secs);
    GreedyProperties([], ts, secs);
    assert other[j] in other;
    assert Covered(g, other[j], secs);
    var i :| 0 <= i < |g| && g[i] <= other[j] < g[i] + secs;
    if j > 0 {
      GreedyStaysAhead(ts, secs, other, j - 1);
      assert other[j - 1] + secs <= other[j];
      LaterWindow(g, secs, i, j - 1, other[j]);
    }
    if j < i {
      assert g[j] + secs <= g[i];
    }
  }

  /**
   * The rule is optimal: a name's looked-up times are arrivals at least `secs` apart, their windows cover every
   * arrival, and no choice of arrivals at least `secs` apart is larger.
   */
  lemma GreedyIsOptimal(ts: seq<Time>, secs: Time, other: seq<Time>)
    requires secs > 0.0 && Ascending(ts)
    ensures var g := Greedy([], ts, secs);
      && Gapped(g, secs) && (forall f :: f in g ==> f in ts)
      && (forall t :: t in ts ==> Remembered(g, t, secs))
      && (Gapped(other, secs) && (forall t :: t in other ==> t in ts) ==> |other| <= |g|)
  {
    var g := Greedy([], ts, secs);
    GreedyProperties([], ts, secs);
    forall t | t in ts ensures Remembered(g, t, secs) {
      assert Covered(g, t, secs);
      var i :| 0 <= i < |g| && g[i] <= t < g[i] + secs;
      assert g[i] in g;
      RememberedMeans(g, t, secs);
    }
    if Gapped(other, secs) && (forall t :: t in other ==> t in ts) && other != [] {
      GreedyStaysAhead(ts, secs, other, |other| - 1);
    }
  }

  lemma {:induction false} TimesOfMembers(arr: seq<Arrival>, n: Name)
    ensures forall t :: t in TimesOf(arr, n) <==> Arrival(t, n) in arr
  {
    if arr != [] {
      TimesOfMembers(arr[1..], n);
      assert arr == [arr[0]] + arr[1..];
    }
  }

  lemma {:induction false} TimesOfAscending(arr: seq<Arrival>, n: Name)
    requires forall i, j :: 0 <= i < j < |arr| ==> arr[i].at <= arr[j].at
    ensures Ascending(TimesOf(arr, n))
  {
    if arr != [] {
      var rest := TimesOf(arr[1..], n);
      TimesOfAscending(arr[1..], n);
      TimesOfMembers(arr[1..], n);
      forall i | 0 <= i < |rest| ensures arr[0].at <= rest[i] {
        assert rest[i] in rest;
        assert Arrival(rest[i], n) in arr[1..];
      }
    }
  }

  // ---- all names

  function LookedTotal(arr: seq<Arrival>, names: seq<Name>, secs: Time): nat {
    if names == [] then 0 else |Greedy([], TimesOf(arr, names[0]), secs)| + LookedTotal(arr, names[1..], secs)
  }

  function MemoryTotal(m: Memory, names: seq<Name>): nat {
    if names == [] then 0 else |LookedAt(m.looked, names[0])| + MemoryTotal(m, names[1..])
  }

  lemma {:induction false} DecideTotal(m: Memory, a: Arrival, secs: Time, names: seq<Name>)
    requires NoDup(names)
    ensures MemoryTotal(Decide(m, a, secs), names) ==
            MemoryTotal(m, names) + if a.name in names then Decide(m, a, secs).lookups - m.lookups else 0
  {
    if names != [] {
      DecideTotal(m, a, secs, names[1..]);
      assert names == [names[0]] + names[1..];
      assert names[0] !in names[1..];
    }
  }

  lemma {:induction false} LookupsByName(m: Memory, arr: seq<Arrival>, secs: Time, names: seq<Name>)
    requires NoDup(names) && (forall a :: a in arr ==> a.name in names) && m.lookups == MemoryTotal(m, names)
    ensures Feed(m, arr, secs).lookups == MemoryTotal(Feed(m, arr, secs), names)
    decreases |arr|
  {
    if arr != [] {
      DecideTotal(m, arr[0], secs, names);
      assert forall a :: a in arr[1..] ==> a in arr;
      LookupsByName(Decide(m, arr[0], secs), arr[1..], secs, names);
    }
  }

  lemma {:induction false} BlankTotal(names: seq<Name>)
    ensures MemoryTotal(BLANK, names) == 0
  {
    if names != [] {
      BlankTotal(names[1..]);
    }
  }

  lemma {:induction false} TotalsAgree(arr: seq<Arrival>, secs: Time, names: seq<Name>)
    ensures MemoryTotal(Feed(BLANK, arr, secs), names) == LookedTotal(arr, names, secs)
  {
    if names != [] {
      TotalsAgree(arr, secs, names[1..]);
      NamesAreIndependent(BLANK, arr, secs, names[0]);
    }
  }

  lemma {:induction false} TotalShrinks(arr: seq<Arrival>, names: seq<Name>, secs: Time, longer: Time)
    requires 0.0 < secs <= longer && forall i, j :: 0 <= i < j < |arr| ==> arr[i].at <= arr[j].at
    ensures LookedTotal(arr, names, longer) <= LookedTotal(arr, names, secs)
  {
    if names != [] {
      var ts := TimesOf(arr, names[0]);
      TotalShrinks(arr, names[1..], secs, longer);
      TimesOfAscending(arr, names[0]);
      GreedyIsOptimal(ts, longer, []);
      GreedyIsOptimal(ts, secs, Greedy([], ts, longer));
    }
  }

  /** Distinct names of a list, in order of first appearance from the back. */
  function NamesOf(arr: seq<Arrival>): seq<Name> {
    if arr == [] then []
    else if arr[0].name in NamesOf(arr[1..]) then NamesOf(arr[1..]) else [arr[0].name] + NamesOf(arr[1..])
  }

  lemma {:induction false} NamesOfAll(arr: seq<Arrival>)
    ensures NoDup(NamesOf(arr)) && forall a :: a in arr ==> a.name in NamesOf(arr)
  {
    if arr != [] {
      NamesOfAll(arr[1..]);
      assert arr == [arr[0]] + arr[1..];
    }
  }

  /** Remembering longer never asks more: for arrivals in time order, the number of lookups falls as `secs` grows. */
  lemma LongerMemoryAsksLess(arr: seq<Arrival>, secs: Time, longer: Time)
    requires 0.0 < secs <= longer && forall i, j :: 0 <= i < j < |arr| ==> arr[i].at <= arr[j].at
    ensures Feed(BLANK, arr, longer).lookups <= Feed(BLANK, arr, secs).lookups
  {
    var names := NamesOf(arr);
    NamesOfAll(arr);
    BlankTotal(names);
    LookupsByName(BLANK, arr, secs, names);
    LookupsByName(BLANK, arr, longer, names);
    TotalsAgree(arr, secs, names);
    TotalsAgree(arr, longer, names);
    TotalShrinks(arr, names, secs, longer);
  }

  /**
   * `remembered` on the result of `replay` says true for every arrival: for arrivals in time order the looked-up
   * windows of each name are disjoint, and every arrival of the name is in one.
   */
  lemma EveryArrivalIsRemembered(arr: seq<Arrival>, secs: Time, a: Arrival)
    requires secs > 0.0 && a in arr && forall i, j :: 0 <= i < j < |arr| ==> arr[i].at <= arr[j].at
    ensures var looked := LookedAt(Feed(BLANK, arr, secs).looked, a.name);
      Gapped(looked, secs) && Remembered(looked, a.at, secs)
  {
    TimesOfAscending(arr, a.name);
    TimesOfMembers(arr, a.name);
    NamesAreIndependent(BLANK, arr, secs, a.name);
    GreedyIsOptimal(TimesOf(arr, a.name), secs, []);
  }
}
