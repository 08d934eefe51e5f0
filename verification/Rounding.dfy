/**
 * `row_of` and `group_by_domain` of scripts/proxydata.py: means read to one decimal, their differences and their
 * weighted groups, with the error that rounding can have brought in.
 */
module Rounding {
  import opened Names
  import opened OrderedDict

  /** What the proxy reports of a host: requests timed, their mean to one decimal, and the plain totals. */
  datatype Report = Report(timed: nat, avgMs: real, requests: int, bytes: int, errors: int)

  const NOTHING := Report(0, 0.0, 0, 0, 0)

  /** One host's row: the change between two reports. */
  datatype Row = Row(connect: bool, name: string, requests: int, timed: int, avg: Option<real>, err: Option<real>,
                     bytes: int, errors: int)

  /** The total a report stands for. */
  function Ms(r: Report): real {
    r.avgMs * (r.timed as real)
  }

  function Per(x: real, d: int): real
    requires d > 0
  {
    x / (d as real)
  }

  /** `row_of`: `b` against `a`, or one report against nothing. */
  function RowOf(connect: bool, name: string, a: Option<Report>, b: Option<Report>): Row {
    var cur := if b.None? then (if a.Some? then a.value else NOTHING) else b.value;
    var was := if b.None? || a.None? then NOTHING else a.value;
    var d := cur.timed - was.timed;
    Row(connect, name, cur.requests - was.requests, d,
        if d > 0 then Some(Per(Ms(cur) - Ms(was), d)) else None,
        if d > 0 then Some(Per(0.05 * ((cur.timed + was.timed) as real), d)) else None,
        cur.bytes - was.bytes, cur.errors - was.errors)
  }

  function Abs(x: real): real {
    if x < 0.0 then -x else x
  }

  /** A report of `ms` milliseconds in all whose mean is right to half of its last decimal. */
  ghost predicate Rounded(r: Report, ms: real) {
    if r.timed == 0 then ms == 0.0 else Abs(r.avgMs - ms / (r.timed as real)) <= 0.05
  }

  lemma Quotient(x: real, d: real)
    requires d > 0.0
    ensures x / d * d == x
  {
  }

  lemma ScaledBound(x: real, bound: real, d: real)
    requires d > 0.0
    ensures Abs(x) <= bound <==> Abs(x * d) <= bound * d
    ensures Abs(x * d) == Abs(x) * d
  {
    var a := Abs(x);
    assert Abs(x * d) == a * d;
    if a <= bound {
      assert (bound - a) * d >= 0.0;
    } else {
      assert (a - bound) * d > 0.0;
    }
  }

  /** The total a report stands for is off by at most 0.05 for each request timed. */
  lemma TotalError(r: Report, ms: real)
    requires Rounded(r, ms)
    ensures Abs(Ms(r) - ms) <= 0.05 * (r.timed as real)
  {
    var t := r.timed as real;
    if r.timed > 0 {
      var mean := ms / t;
      Quotient(ms, t);
      ScaledBound(r.avgMs - mean, 0.05, t);
      var total := r.avgMs * t;
      assert Ms(r) == total;
      assert (r.avgMs - mean) * t == total - ms;
    }
  }

  lemma Divided(x: real, y: real, e: real, d: real)
    requires d > 0.0 && Abs(x - y) <= e
    ensures Abs(x / d - y / d) <= e / d
  {
    Quotient(x, d);
    Quotient(y, d);
    Quotient(e, d);
    var u, v := x / d, y / d;
    assert (u - v) * d == x - y;
    ScaledBound(u - v, e / d, d);
  }

  /**
   * The bound survives the difference: with both means rounded, the mean of the interval that `row_of` gives is within
   * its `avg_err` of the true one, `curMs - wasMs` over the requests timed in between.
   */
  lemma DifferenceWithinError(connect: bool, name: string, was: Report, cur: Report, wasMs: real, curMs: real)
    requires Rounded(was, wasMs) && Rounded(cur, curMs) && cur.timed > was.timed
    ensures var r := RowOf(connect, name, Some(was), Some(cur));
      && r.avg.Some? && r.err.Some? && r.timed == cur.timed - was.timed
      && Abs(r.avg.value - Per(curMs - wasMs, r.timed)) <= r.err.value
  {
    hide Ms, Per, Abs;
    TotalError(was, wasMs);
    TotalError(cur, curMs);
    TotalsDiffer(Ms(cur), curMs, cur.timed, Ms(was), wasMs, was.timed);
  }

  lemma TotalsDiffer(x: real, a: real, m: nat, y: real, b: real, n: nat)
    requires Abs(x - a) <= 0.05 * (m as real) && Abs(y - b) <= 0.05 * (n as real) && m > n
    ensures Abs(Per(x - y, m - n) - Per(a - b, m - n)) <= Per(0.05 * ((m + n) as real), m - n)
  {
    var e := 0.05 * ((m + n) as real);
    Triangle(x, a, 0.05 * (m as real), y, b, 0.05 * (n as real));
    ErrorSum(m, n);
    Divided(x - y, a - b, e, (m - n) as real);
  }

  lemma Triangle(x: real, a: real, e: real, y: real, b: real, f: real)
    requires Abs(x - a) <= e && Abs(y - b) <= f
    ensures Abs((x - y) - (a - b)) <= e + f
  {
  }

  lemma ErrorSum(m: nat, n: nat)
    ensures 0.05 * ((m + n) as real) == 0.05 * (m as real) + 0.05 * (n as real)
  {
  }

  // ---- groups

  /** A row that takes part in a weighted mean. */
  predicate Weighs(r: Row) {
    r.timed > 0 && r.avg.Some? && r.err.Some?
  }

  function Weight(g: seq<Row>): real {
    if g == [] then 0.0 else Weight(g[1..]) + if Weighs(g[0]) then g[0].timed as real else 0.0
  }

  /** A mean times the requests it is of. */
  function Share(mean: real, r: Row): real {
    mean * (r.timed as real)
  }

  function SumAvg(g: seq<Row>): real {
    if g == [] then 0.0 else SumAvg(g[1..]) + if Weighs(g[0]) then Share(g[0].avg.value, g[0]) else 0.0
  }

  function SumErr(g: seq<Row>): real {
    if g == [] then 0.0 else SumErr(g[1..]) + if Weighs(g[0]) then Share(g[0].err.value, g[0]) else 0.0
  }

  /** The true total of the rows that weigh, `ms[i]` being row `i`'s. */
  function SumTrue(g: seq<Row>, ms: seq<real>): real
    requires |ms| == |g|
  {
    if g == [] then 0.0 else SumTrue(g[1..], ms[1..]) + if Weighs(g[0]) then ms[0] else 0.0
  }

  /** `folded` for the mean and for its error. */
  function FoldedAvg(g: seq<Row>): Option<real> {
    if Weight(g) > 0.0 then Some(SumAvg(g) / Weight(g)) else None
  }

  function FoldedErr(g: seq<Row>): Option<real> {
    if Weight(g) > 0.0 then Some(SumErr(g) / Weight(g)) else None
  }

  ghost predicate Within(r: Row, ms: real) {
    Weighs(r) ==> Abs(r.avg.value - ms / (r.timed as real)) <= r.err.value
  }

  lemma {:induction false} SumsWithin(g: seq<Row>, ms: seq<real>)
    requires |ms| == |g| && forall i :: 0 <= i < |g| ==> Within(g[i], ms[i])
    ensures Abs(SumAvg(g) - SumTrue(g, ms)) <= SumErr(g)
  {
    if g != [] {
      hide Abs;
      SumsWithin(g[1..], ms[1..]);
      if Weighs(g[0]) {
        WithinScaled(g[0], ms[0]);
        Plus(SumAvg(g[1..]), SumTrue(g[1..], ms[1..]), SumErr(g[1..]),
             Share(g[0].avg.value, g[0]), ms[0], Share(g[0].err.value, g[0]));
      }
    } else {
      assert Abs(0.0) == 0.0;
    }
  }

  lemma Plus(x: real, a: real, e: real, y: real, b: real, f: real)
    requires Abs(x - a) <= e && Abs(y - b) <= f
    ensures Abs((x + y) - (a + b)) <= e + f
  {
  }

  lemma WithinScaled(r: Row, ms: real)
    requires Weighs(r) && Within(r, ms)
    ensures Abs(Share(r.avg.value, r) - ms) <= Share(r.err.value, r)
  {
    var t := r.timed as real;
    var mean := ms / t;
    Quotient(ms, t);
    ScaledBound(r.avg.value - mean, r.err.value, t);
    var x := r.avg.value * t;
    assert (r.avg.value - mean) * t == x - ms;
  }

  /** The bound survives the grouping: the weighted mean is within the folded error of the group's true mean. */
  lemma GroupWithinError(g: seq<Row>, ms: seq<real>)
    requires |ms| == |g| && (forall i :: 0 <= i < |g| ==> Within(g[i], ms[i])) && Weight(g) > 0.0
    ensures FoldedAvg(g).Some? && FoldedErr(g).Some?
    ensures Abs(FoldedAvg(g).value - SumTrue(g, ms) / Weight(g)) <= FoldedErr(g).value
  {
    SumsWithin(g, ms);
    Divided(SumAvg(g), SumTrue(g, ms), SumErr(g), Weight(g));
  }

  // ---- what the numbers of a row and of a group are

  /**
   * A row has what came between two reports: added to the first it gives the second, in every total, and its mean and
   * error are per request timed in between.
   */
  lemma RowIsBetween(connect: bool, name: string, was: Report, cur: Report)
    ensures var r := RowOf(connect, name, Some(was), Some(cur));
      && r.connect == connect && r.name == name
      && was.requests + r.requests == cur.requests && was.bytes + r.bytes == cur.bytes
      && was.errors + r.errors == cur.errors && was.timed + r.timed == cur.timed
      && (r.avg.Some? <==> r.timed > 0) && (r.err.Some? <==> r.timed > 0)
      && (r.timed > 0 ==>
            && was.avgMs * (was.timed as real) + r.avg.value * (r.timed as real) == cur.avgMs * (cur.timed as real)
            && r.err.value * (r.timed as real) == 0.05 * (was.timed as real) + 0.05 * (cur.timed as real))
  {
    var r := RowOf(connect, name, Some(was), Some(cur));
    if r.timed > 0 {
      Quotient(Ms(cur) - Ms(was), r.timed as real);
      Quotient(0.05 * ((cur.timed + was.timed) as real), r.timed as real);
    }
  }

  /** A single report, in either place, is its own row: its totals, its mean, and half of the last decimal. */
  lemma RowOfOne(connect: bool, name: string, a: Report)
    ensures var r := RowOf(connect, name, Some(a), None);
      && r == RowOf(connect, name, None, Some(a))
      && r.requests == a.requests && r.bytes == a.bytes && r.errors == a.errors && r.timed == a.timed
      && if a.timed == 0 then r.avg == r.err == None else r.avg == Some(a.avgMs) && r.err == Some(0.05)
  {
    if a.timed > 0 {
      var t := a.timed as real;
      assert Ms(a) - Ms(NOTHING) == a.avgMs * t;
      TimesOver(a.avgMs, t);
      TimesOver(0.05, t);
      assert a.avgMs * t / t == a.avgMs;
      assert 0.05 * ((a.timed + NOTHING.timed) as real) / t == 0.05;
    }
  }

  /** The error of a row cannot be less: there are reports, each right to 0.05, whose row is off by just that much. */
  lemma ErrorIsSharp(connect: bool, name: string, m: nat, n: nat)
    returns (was: Report, cur: Report, wasMs: real, curMs: real)
    requires 0 < m < n
    ensures was.timed == m && cur.timed == n && Rounded(was, wasMs) && Rounded(cur, curMs)
    ensures var r := RowOf(connect, name, Some(was), Some(cur));
      r.avg.Some? && r.err.Some? && r.avg.value - Per(curMs - wasMs, n - m) == r.err.value
  {
    was, cur, wasMs, curMs := Report(m, 1.0, 0, 0, 0), Report(n, 1.0, 0, 0, 0), 1.05 * (m as real), 0.95 * (n as real);
    var x, y, d := m as real, n as real, (n - m) as real;
    TimesOver(1.05, x);
    TimesOver(0.95, y);
    assert Ms(cur) - Ms(was) == y - x;
    SubDiv(y - x, 0.95 * y - 1.05 * x, d);
    assert y - x - (0.95 * y - 1.05 * x) == 0.05 * (y + x);
  }

  lemma TimesOver(c: real, d: real)
    requires d > 0.0
    ensures c * d / d == c
  {
  }

  lemma SubDiv(p: real, q: real, d: real)
    requires d > 0.0
    ensures p / d - q / d == (p - q) / d
  {
  }

  lemma {:induction false} SumsAppend(g: seq<Row>, r: Row)
    ensures Weight(g + [r]) == Weight(g) + if Weighs(r) then r.timed as real else 0.0
    ensures SumAvg(g + [r]) == SumAvg(g) + if Weighs(r) then Share(r.avg.value, r) else 0.0
    ensures SumErr(g + [r]) == SumErr(g) + if Weighs(r) then Share(r.err.value, r) else 0.0
    ensures 0.0 <= Weight(g)
  {
    if g == [] {
      assert g + [r] == [r] && [r][1..] == [];
    } else {
      assert (g + [r])[1..] == g[1..] + [r];
      SumsAppend(g[1..], r);
    }
  }

  /** No rows have no mean; a row that was not timed changes nothing; another adds its share to mean and error. */
  lemma FoldAppend(g: seq<Row>, r: Row)
    ensures FoldedAvg([]) == None && FoldedErr([]) == None && Weight([]) == 0.0
    ensures !Weighs(r) ==>
              FoldedAvg(g + [r]) == FoldedAvg(g) && FoldedErr(g + [r]) == FoldedErr(g) && Weight(g + [r]) == Weight(g)
    ensures Weighs(r) ==>
              var w, t := Weight(g), r.timed as real;
              && Weight(g + [r]) == w + t && FoldedAvg(g + [r]).Some? && FoldedErr(g + [r]).Some?
              && FoldedAvg(g + [r]).value * (w + t) ==
                 (if FoldedAvg(g).Some? then FoldedAvg(g).value * w else 0.0) + r.avg.value * t
              && FoldedErr(g + [r]).value * (w + t) ==
                 (if FoldedErr(g).Some? then FoldedErr(g).value * w else 0.0) + r.err.value * t
  {
    hide Weight, SumAvg, SumErr;
    NothingWeighs();
    SumsAppend(g, r);
    if Weighs(r) {
      var w, t := Weight(g), r.timed as real;
      Quotient(SumAvg(g + [r]), w + t);
      Quotient(SumErr(g + [r]), w + t);
      if w > 0.0 {
        Quotient(SumAvg(g), w);
        Quotient(SumErr(g), w);
      } else {
        WeightlessSums(g);
      }
    }
  }

  lemma NothingWeighs()
    ensures Weight([]) == 0.0
  {
  }

  lemma {:induction false} WeightlessSums(g: seq<Row>)
    requires Weight(g) <= 0.0
    ensures SumAvg(g) == 0.0 && SumErr(g) == 0.0 && Weight(g) == 0.0
  {
    if g != [] {
      WeightNonNegative(g[1..]);
      WeightlessSums(g[1..]);
    }
  }

  lemma {:induction false} WeightNonNegative(g: seq<Row>)
    ensures 0.0 <= Weight(g)
  {
    if g != [] {
      WeightNonNegative(g[1..]);
    }
  }

  // ---- group_by_domain

  datatype Key = Key(connect: bool, domain: string)

  function KeyOf(etld1: string -> string, r: Row): Key {
    Key(r.connect, etld1(r.name))
  }

  /** The rows of one key, in order. */
  function Of(etld1: string -> string, rows: seq<Row>, k: Key): seq<Row> {
    if rows == [] then []
    else
      var last := rows[|rows| - 1];
      Of(etld1, rows[..|rows| - 1], k) + if KeyOf(etld1, last) == k then [last] else []
  }

  function Total(f: Row -> int, rows: seq<Row>): int {
    if rows == [] then 0 else Total(f, rows[..|rows| - 1]) + f(rows[|rows| - 1])
  }

  function TotalOver(f: Row -> int, etld1: string -> string, rows: seq<Row>, keys: seq<Key>): int {
    if keys == [] then 0 else Total(f, Of(etld1, rows, keys[0])) + TotalOver(f, etld1, rows, keys[1..])
  }

  lemma OfNothing(etld1: string -> string)
    ensures forall k :: Of(etld1, [], k) == []
  {
  }

  lemma OfOneMore(etld1: string -> string, rows: seq<Row>, r: Row)
    ensures forall k ::
              Of(etld1, rows + [r], k) == Of(etld1, rows, k) + if KeyOf(etld1, r) == k then [r] else []
  {
    assert (rows + [r])[..|rows|] == rows;
  }

  /** Every key that occurs has its rows in order, and `keys` are those keys, once each. */
  ghost predicate Grouped(etld1: string -> string, rows: seq<Row>, groups: map<Key, seq<Row>>, keys: seq<Key>) {
    && NoDup(keys) && (forall k :: k in keys <==> k in groups)
    && (forall k :: k in groups ==> groups[k] != [] && groups[k] == Of(etld1, rows, k))
    && (forall k :: k !in groups ==> Of(etld1, rows, k) == [])
  }

  lemma GroupedNext(etld1: string -> string, rows: seq<Row>, r: Row, groups: map<Key, seq<Row>>, keys: seq<Key>)
    requires Grouped(etld1, rows, groups, keys)
    ensures var k := KeyOf(etld1, r);
      Grouped(etld1, rows + [r], groups[k := (if k in groups then groups[k] else []) + [r]],
              if k in groups then keys else keys + [k])
  {
    hide Of, KeyOf;
    OfOneMore(etld1, rows, r);
  }

  lemma {:induction false} OfHas(etld1: string -> string, rows: seq<Row>, r: Row)
    requires r in rows
    ensures r in Of(etld1, rows, KeyOf(etld1, r))
  {
    if r != rows[|rows| - 1] {
      OfHas(etld1, rows[..|rows| - 1], r);
    }
  }

  /** The loop that fills the dictionary: every key that occurs, once, with its rows in order. */
  method Groups(etld1: string -> string, rows: seq<Row>) returns (groups: map<Key, seq<Row>>, keys: seq<Key>)
    ensures NoDup(keys) && (forall k :: k in keys <==> k in groups)
    ensures forall k :: k in groups ==> groups[k] != [] && groups[k] == Of(etld1, rows, k)
    ensures forall r :: r in rows ==> KeyOf(etld1, r) in groups
    ensures forall k :: k in groups ==>
              forall r :: r in groups[k] ==> r.connect == k.connect && etld1(r.name) == k.domain
  {
    hide Of, KeyOf;
    groups, keys := map[], [];
    OfNothing(etld1);
    assert rows[..0] == [];
    for i := 0 to |rows|
      invariant Grouped(etld1, rows[..i], groups, keys)
    {
      hide Grouped;
      assert rows[..i + 1] == rows[..i] + [rows[i]];
      GroupedNext(etld1, rows[..i], rows[i], groups, keys);
      var k := KeyOf(etld1, rows[i]);
      if k !in groups {
        groups := groups[k := []];
        keys := keys + [k];
      }
      groups := groups[k := groups[k] + [rows[i]]];
    }
    assert rows[..|rows|] == rows;
    forall r | r in rows ensures KeyOf(etld1, r) in groups {
      OfHas(etld1, rows, r);
    }
    forall k, r | k in groups && r in groups[k] ensures r.connect == k.connect && etld1(r.name) == k.domain {
      OfAlike(etld1, rows, k, r);
    }
  }

  /** CONNECT and forward are not mixed, nor are units. */
  lemma {:induction false} OfAlike(etld1: string -> string, rows: seq<Row>, k: Key, r: Row)
    requires r in Of(etld1, rows, k)
    ensures r.connect == k.connect && etld1(r.name) == k.domain
  {
    var last := |rows| - 1;
    if r in Of(etld1, rows[..last], k) {
      OfAlike(etld1, rows[..last], k, r);
    }
  }

  lemma {:induction false} TotalOverAppend(
    f: Row -> int, etld1: string -> string, rows: seq<Row>, r: Row, keys: seq<Key>)
    requires NoDup(keys)
    ensures TotalOver(f, etld1, rows + [r], keys) ==
            TotalOver(f, etld1, rows, keys) + if KeyOf(etld1, r) in keys then f(r) else 0
  {
    if keys != [] {
      TotalOverAppend(f, etld1, rows, r, keys[1..]);
      assert keys == [keys[0]] + keys[1..];
      assert keys[0] !in keys[1..];
      var own := Of(etld1, rows, keys[0]);
      assert (rows + [r])[..|rows|] == rows;
      assert (own + [r])[..|own|] == own;
      assert own + [] == own;
    }
  }

  lemma {:induction false} TotalOverNothing(f: Row -> int, etld1: string -> string, keys: seq<Key>)
    ensures TotalOver(f, etld1, [], keys) == 0
  {
    if keys != [] {
      TotalOverNothing(f, etld1, keys[1..]);
    }
  }

  /**
   * Grouping conserves what adds up: requests, timed requests, bytes, errors or any other whole number of the rows has
   * the same total over the groups as over the rows, whatever names share a unit.
   */
  lemma {:induction false} GroupsConserve(f: Row -> int, etld1: string -> string, rows: seq<Row>, keys: seq<Key>)
    requires NoDup(keys) && forall r :: r in rows ==> KeyOf(etld1, r) in keys
    ensures TotalOver(f, etld1, rows, keys) == Total(f, rows)
  {
    if rows == [] {
      TotalOverNothing(f, etld1, keys);
    } else {
      var n := |rows| - 1;
      assert rows == rows[..n] + [rows[n]];
      GroupsConserve(f, etld1, rows[..n], keys);
      TotalOverAppend(f, etld1, rows[..n], rows[n], keys);
    }
  }
}
