/** The contract of `heapq` on pairs `(due, name)`: the list is kept as its sorted content, so the head is the least. */
module Heap {
  import opened Names

  datatype Pair = Pair(due: Time, name: Name)

  predicate PairLeq(p: Pair, q: Pair) {
    p.due < q.due || (p.due == q.due && NameLeq(p.name, q.name))
  }

  ghost predicate Sorted(h: seq<Pair>) {
    forall i, j :: 0 <= i < j < |h| ==> PairLeq(h[i], h[j])
  }

  function Push(h: seq<Pair>, p: Pair): (r: seq<Pair>)
    ensures |r| == |h| + 1
    ensures forall q :: q in r <==> q in h || q == p
  {
    if h == [] || PairLeq(p, h[0]) then [p] + h else [h[0]] + Push(h[1..], p)
  }

  lemma PairLeqTransitive(p: Pair, q: Pair, r: Pair)
    requires PairLeq(p, q) && PairLeq(q, r)
    ensures PairLeq(p, r)
  {
    if p.due == q.due == r.due {
      NameLeqTransitive(p.name, q.name, r.name);
    }
  }

  lemma PairLeqTotal(p: Pair, q: Pair)
    ensures PairLeq(p, q) || PairLeq(q, p)
  {
    NameLeqTotal(p.name, q.name);
  }

  lemma PairLeqAntisymmetric(p: Pair, q: Pair)
    requires PairLeq(p, q) && PairLeq(q, p)
    ensures p == q
  {
    NameLeqAntisymmetric(p.name, q.name);
  }

  lemma SortedMember(h: seq<Pair>, p: Pair)
    requires Sorted(h) && p in h
    ensures PairLeq(h[0], p)
  {
    NameLeqTotal(p.name, p.name);
  }

  lemma {:induction false} PushSorted(h: seq<Pair>, p: Pair)
    requires Sorted(h)
    ensures Sorted(Push(h, p)) && multiset(Push(h, p)) == multiset(h) + multiset{p}
  {
    if h == [] {
    } else if PairLeq(p, h[0]) {
      forall j | 0 < j < |h| ensures PairLeq(p, h[j]) {
        PairLeqTransitive(p, h[0], h[j]);
      }
    } else {
      var rest := Push(h[1..], p);
      PushSorted(h[1..], p);
      PairLeqTotal(p, h[0]);
      forall q | q in rest ensures PairLeq(h[0], q) {
        if q != p {
          assert q in h[1..];
        }
      }
      assert forall j :: 0 <= j < |rest| ==> rest[j] in rest;
      assert h == [h[0]] + h[1..];
    }
  }

  /** How many times a pair due at `due` can come up by `now` when it comes back every `k`. */
  function Rounds(k: Time, due: Time, now: Time): nat
    requires k > 0.0
  {
    if due <= now then
      RoundsNonNegative(now - due, k);
      ((now - due) / k).Floor + 1
    else 0
  }

  lemma RoundsNonNegative(x: real, k: real)
    requires x >= 0.0 && k > 0.0
    ensures x / k >= 0.0
  {
  }

  function TotalRounds(k: Time, h: seq<Pair>, now: Time): nat
    requires k > 0.0
  {
    if h == [] then 0 else Rounds(k, h[0].due, now) + TotalRounds(k, h[1..], now)
  }

  lemma DivUnique(x: real, k: real, y: real)
    requires k > 0.0 && x * k == y
    ensures y / k == x
  {
  }

  lemma DivBelowOne(y: real, k: real)
    requires 0.0 <= y < k
    ensures y / k < 1.0
  {
  }

  lemma RoundsNext(k: Time, due: Time, now: Time)
    requires k > 0.0 && due <= now
    ensures Rounds(k, due + k, now) + 1 == Rounds(k, due, now)
  {
    var x := (now - due) / k;
    assert x * k == now - due;
    DivUnique(x - 1.0, k, now - (due + k));
    if due + k <= now {
      assert x >= 1.0;
    } else {
      DivBelowOne(now - due, k);
    }
  }

  lemma {:induction false} TotalRoundsPush(k: Time, h: seq<Pair>, p: Pair, now: Time)
    requires k > 0.0
    ensures TotalRounds(k, Push(h, p), now) == TotalRounds(k, h, now) + Rounds(k, p.due, now)
  {
    if h == [] || PairLeq(p, h[0]) {
      assert ([p] + h)[1..] == h;
    } else {
      TotalRoundsPush(k, h[1..], p, now);
      assert ([h[0]] + Push(h[1..], p))[1..] == Push(h[1..], p);
    }
  }
}
