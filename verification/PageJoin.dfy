/**
 * scripts/collect_follow.py: pages of a list put back together. `profile_join` and the profile branch of `follow_join`
 * get pages newest first and drop repeated samples, the one keeping the older copy's place and the other the newer's.
 */
module PageJoin {
  import opened Names

  /** A row of a page; one without a key is never taken for one seen before. */
  datatype Sample = Sample(key: Option<Time>, data: string) {
    function t(): Time {
      if key.Some? then key.value else 0.0
    }

    predicate SeenIn(seen: set<Time>) {
      key.Some? && key.value in seen
    }

    function Key(): set<Time> {
      if key.Some? then {key.value} else {}
    }
  }

  /** Every sample has a key, and no two have the same. */
  ghost predicate Keyed(s: seq<Sample>) {
    && (forall i :: 0 <= i < |s| ==> s[i].key.Some?)
    && (forall i, j :: 0 <= i < j < |s| ==> s[i].key != s[j].key)
  }

  /** Every sample has a key, and the keys ascend. */
  ghost predicate StrictlyAscending(s: seq<Sample>) {
    && (forall i :: 0 <= i < |s| ==> s[i].key.Some?)
    && (forall i, j :: 0 <= i < j < |s| ==> s[i].t() < s[j].t())
  }

  /** The part of a page that has not been seen, taking each key once. */
  function Fresh(seen: set<Time>, page: seq<Sample>): seq<Sample>
    decreases |page|
  {
    if page == [] then []
    else if page[0].SeenIn(seen) then Fresh(seen, page[1..])
    else [page[0]] + Fresh(seen + page[0].Key(), page[1..])
  }

  function Keys(s: seq<Sample>): set<Time> {
    set x | x in s && x.key.Some? :: x.t()
  }

  /** `profile_join`, from page `i - 1` down to the newest: what is merged after `merged` with `seen` taken. */
  function Merge(seen: set<Time>, pages: seq<seq<Sample>>): seq<Sample>
    decreases |pages|
  {
    if pages == [] then []
    else
      var got := Fresh(seen, pages[|pages| - 1]);
      got + Merge(seen + Keys(pages[|pages| - 1]), pages[..|pages| - 1])
  }

  /** The pages after the first, each without what was seen before, the last page first. */
  function Prepend(seen: set<Time>, pages: seq<seq<Sample>>): seq<Sample>
    decreases |pages|
  {
    if pages == [] then []
    else Prepend(seen + Keys(pages[0]), pages[1..]) + Fresh(seen, pages[0])
  }

  /** One page, as the loops of both tools go through it: what is new is kept, and all its keys are then seen. */
  method TakeFresh(seen: set<Time>, page: seq<Sample>) returns (got: seq<Sample>, now: set<Time>)
    ensures got == Fresh(seen, page) && now == seen + Keys(page)
  {
    hide Fresh, Keys;
    got, now := [], seen;
    NoRows(seen);
    assert page[0..] == page && page[..0] == [];
    for i := 0 to |page|
      invariant got + Fresh(now, page[i..]) == Fresh(seen, page)
      invariant now == seen + Keys(page[..i])
    {
      var s := page[i];
      RowNext(now, page, i);
      if s.SeenIn(now) {
        continue;
      }
      now := now + s.Key();
      got := got + [s];
    }
    NoRows(now);
    assert page[..|page|] == page && page[|page|..] == [];
  }

  lemma NoRows(seen: set<Time>)
    ensures Fresh(seen, []) == [] && Keys([]) == {}
  {
  }

  /** What one row adds to what is kept and to what has been seen. */
  lemma RowNext(seen: set<Time>, page: seq<Sample>, i: nat)
    requires i < |page|
    ensures Keys(page[..i + 1]) == Keys(page[..i]) + page[i].Key()
    ensures page[i].SeenIn(seen) ==> seen + page[i].Key() == seen
    ensures Fresh(seen, page[i..]) == if page[i].SeenIn(seen) then Fresh(seen, page[i + 1..])
                                      else [page[i]] + Fresh(seen + page[i].Key(), page[i + 1..])
  {
    assert page[i..][1..] == page[i + 1..];
    assert page[..i + 1] == page[..i] + [page[i]];
  }

  /** `profile_join`: the pages from the oldest (the last fetched) on, dropping the second copy of a sample. */
  method ProfileJoin(pages: seq<seq<Sample>>) returns (merged: seq<Sample>)
    ensures merged == Merge({}, pages)
  {
    hide Fresh, Keys;
    merged := [];
    var seen: set<Time> := {};
    var i := |pages|;
    assert pages[..i] == pages;
    while i > 0
      invariant 0 <= i <= |pages|
      invariant merged + Merge(seen, pages[..i]) == Merge({}, pages)
    {
      i := i - 1;
      assert pages[..i + 1][..i] == pages[..i];
      var got;
      got, seen := TakeFresh(seen, pages[i]);
      merged := merged + got;
    }
  }

  /** The profile branch of `follow_join`: the newest page, and before it each later page without what was seen. */
  method FollowJoin(pages: seq<seq<Sample>>) returns (rows: seq<Sample>)
    requires pages != []
    ensures rows == Prepend(Keys(pages[0]), pages[1..]) + pages[0]
  {
    hide Fresh;
    var seen := Keys(pages[0]);
    var older := [];
    for i := 1 to |pages|
      invariant Prepend(seen, pages[i..]) + older == Prepend(Keys(pages[0]), pages[1..])
    {
      assert pages[i..][1..] == pages[i + 1..];
      var got;
      got, seen := TakeFresh(seen, pages[i]);
      older := got + older;
    }
    rows := older + pages[0];
  }

  // ---- pages cut from one list

  datatype Cut = Cut(lo: nat, hi: nat)

  /** Each page is a slice of `all`, and each later one reaches no less far back and begins no later. */
  ghost predicate CutFrom(all: seq<Sample>, cuts: seq<Cut>, pages: seq<seq<Sample>>) {
    && |cuts| == |pages|
    && (forall i :: 0 <= i < |cuts| ==>
          cuts[i].lo <= cuts[i].hi <= |all| && pages[i] == all[cuts[i].lo..cuts[i].hi])
    && (forall i, j :: 0 <= i < j < |cuts| ==> cuts[j].lo <= cuts[i].lo && cuts[j].hi <= cuts[i].hi)
  }

  /** One of the cuts from the `m`-th to before the `n`-th has the index `j` in it. */
  ghost predicate CoveredBy(cuts: seq<Cut>, m: nat, n: nat, j: nat) {
    exists i :: m <= i < n && i < |cuts| && cuts[i].lo <= j < cuts[i].hi
  }

  /** The samples from index `a` to before `b` that some page has, in order. */
  ghost function Covered(all: seq<Sample>, cuts: seq<Cut>, a: nat, b: nat): seq<Sample>
    requires b <= |all|
    decreases b - a
  {
    if a >= b then []
    else (if CoveredBy(cuts, 0, |cuts|, a) then [all[a]] else []) + Covered(all, cuts, a + 1, b)
  }

  lemma {:induction false} CoveredSplits(all: seq<Sample>, cuts: seq<Cut>, a: nat, b: nat, c: nat)
    requires a <= b <= c <= |all|
    ensures Covered(all, cuts, a, c) == Covered(all, cuts, a, b) + Covered(all, cuts, b, c)
    decreases b - a
  {
    hide CoveredBy;
    if a < b {
      CoveredSplits(all, cuts, a + 1, b, c);
    }
  }

  lemma {:induction false} CoveredNone(all: seq<Sample>, cuts: seq<Cut>, a: nat, b: nat)
    requires a <= b <= |all| && forall j :: a <= j < b ==> !CoveredBy(cuts, 0, |cuts|, j)
    ensures Covered(all, cuts, a, b) == []
    decreases b - a
  {
    hide CoveredBy;
    if a < b {
      CoveredNone(all, cuts, a + 1, b);
    }
  }

  lemma {:induction false} CoveredAll(all: seq<Sample>, cuts: seq<Cut>, a: nat, b: nat)
    requires a <= b <= |all| && forall j :: a <= j < b ==> CoveredBy(cuts, 0, |cuts|, j)
    ensures Covered(all, cuts, a, b) == all[a..b]
    decreases b - a
  {
    hide CoveredBy;
    if a < b {
      CoveredAll(all, cuts, a + 1, b);
    }
  }

  /** Of a stretch in which exactly the indices from `lo` to before `hi` are covered, those are what is left. */
  lemma CoveredSlice(all: seq<Sample>, cuts: seq<Cut>, a: nat, lo: nat, hi: nat, b: nat)
    requires a <= lo <= hi <= b <= |all|
    requires forall j :: a <= j < b ==> (CoveredBy(cuts, 0, |cuts|, j) <==> lo <= j < hi)
    ensures Covered(all, cuts, a, b) == all[lo..hi]
  {
    hide CoveredBy;
    CoveredSplits(all, cuts, a, lo, b);
    CoveredSplits(all, cuts, lo, hi, b);
    CoveredNone(all, cuts, a, lo);
    CoveredAll(all, cuts, lo, hi);
    CoveredNone(all, cuts, hi, b);
  }

  /** What has been seen are the keys of the pages from the `m`-th to before the `n`-th. */
  ghost predicate SeenFrom(all: seq<Sample>, cuts: seq<Cut>, m: nat, n: nat, seen: set<Time>) {
    forall j :: 0 <= j < |all| ==> (all[j].t() in seen <==> CoveredBy(cuts, m, n, j))
  }

  lemma SeenMore(all: seq<Sample>, cuts: seq<Cut>, pages: seq<seq<Sample>>, m: nat, n: nat, i: nat, seen: set<Time>)
    requires Keyed(all) && CutFrom(all, cuts, pages) && SeenFrom(all, cuts, m, n, seen)
    requires i < |cuts| && m <= n <= |cuts| && (i == n || i + 1 == m)
    ensures SeenFrom(all, cuts, if i == n then m else i, if i == n then n + 1 else n, seen + Keys(pages[i]))
  {
    SliceKeys(all, cuts[i].lo, cuts[i].hi);
  }

  /** A page whose first part has been seen and whose second has not leaves the second. */
  lemma {:induction false} FreshAfter(all: seq<Sample>, seen: set<Time>, lo: nat, mid: nat, hi: nat)
    requires Keyed(all) && lo <= mid <= hi <= |all|
    requires forall j :: lo <= j < mid ==> all[j].t() in seen
    requires forall j :: mid <= j < hi ==> all[j].t() !in seen
    ensures Fresh(seen, all[lo..hi]) == all[mid..hi]
    decreases hi - lo
  {
    if lo < hi {
      assert all[lo..hi][1..] == all[lo + 1..hi];
      if lo < mid {
        FreshAfter(all, seen, lo + 1, mid, hi);
      } else {
        FreshAfter(all, seen + all[lo].Key(), lo + 1, lo + 1, hi);
        assert all[lo..hi] == [all[lo]] + all[lo + 1..hi];
      }
    }
  }

  /** A page whose second part has been seen and whose first has not leaves the first. */
  lemma {:induction false} FreshBefore(all: seq<Sample>, seen: set<Time>, lo: nat, mid: nat, hi: nat)
    requires Keyed(all) && lo <= mid <= hi <= |all|
    requires forall j :: lo <= j < mid ==> all[j].t() !in seen
    requires forall j :: mid <= j < hi ==> all[j].t() in seen
    ensures Fresh(seen, all[lo..hi]) == all[lo..mid]
    decreases hi - lo
  {
    if lo < hi {
      assert all[lo..hi][1..] == all[lo + 1..hi];
      if lo < mid {
        FreshBefore(all, seen + all[lo].Key(), lo + 1, mid, hi);
        assert all[lo..mid] == [all[lo]] + all[lo + 1..mid];
      } else {
        FreshBefore(all, seen, lo + 1, lo + 1, hi);
      }
    }
  }

  lemma SliceKeys(all: seq<Sample>, a: nat, b: nat)
    requires Keyed(all) && a <= b <= |all|
    ensures forall j :: 0 <= j < |all| ==> (all[j].t() in Keys(all[a..b]) <==> a <= j < b)
  {
    forall j | 0 <= j < |all| ensures all[j].t() in Keys(all[a..b]) <==> a <= j < b {
      if a <= j < b {
        assert all[a..b][j - a] == all[j];
        assert all[j] in all[a..b];
      }
      if all[j].t() in Keys(all[a..b]) {
        var x :| x in all[a..b] && x.t() == all[j].t();
        var i :| 0 <= i < b - a && all[a..b][i] == x;
        assert all[a + i].t() == all[j].t();
      }
    }
  }

  function Larger(a: nat, b: nat): nat {
    if a > b then a else b
  }

  function Smaller(a: nat, b: nat): nat {
    if a < b then a else b
  }

  /** Where the pages older than the first `n` end: nothing from there on has been seen, and all before of the next. */
  function OlderEnd(cuts: seq<Cut>, n: nat): nat
    requires n <= |cuts|
  {
    if n < |cuts| then cuts[n].hi else 0
  }

  lemma MergeStep(all: seq<Sample>, cuts: seq<Cut>, pages: seq<seq<Sample>>, n: nat, seen: set<Time>)
    requires Keyed(all) && CutFrom(all, cuts, pages) && 0 < n <= |cuts|
    requires SeenFrom(all, cuts, n, |cuts|, seen)
    ensures OlderEnd(cuts, n) <= cuts[n - 1].hi <= |all|
    ensures Fresh(seen, pages[n - 1]) == Covered(all, cuts, OlderEnd(cuts, n), cuts[n - 1].hi)
  {
    var c := cuts[n - 1];
    var b := OlderEnd(cuts, n);
    var mid := Larger(c.lo, b);
    forall j | c.lo <= j < mid ensures CoveredBy(cuts, n, |cuts|, j) {
      assert cuts[n].lo <= j < cuts[n].hi;
    }
    FreshAfter(all, seen, c.lo, mid, c.hi);
    forall j | b <= j < c.hi ensures CoveredBy(cuts, 0, |cuts|, j) <==> mid <= j < c.hi {
      if mid <= j {
        assert c.lo <= j < c.hi;
      }
    }
    CoveredSlice(all, cuts, b, mid, c.hi, c.hi);
  }

  /** `profile_join`, over the newest `n` pages. */
  lemma {:induction false} MergeCovers(
    all: seq<Sample>, cuts: seq<Cut>, pages: seq<seq<Sample>>, n: nat, seen: set<Time>)
    requires Keyed(all) && CutFrom(all, cuts, pages) && n <= |cuts|
    requires SeenFrom(all, cuts, n, |cuts|, seen)
    ensures OlderEnd(cuts, n) <= |all| && Merge(seen, pages[..n]) == Covered(all, cuts, OlderEnd(cuts, n), |all|)
    decreases n
  {
    hide Keyed, SeenFrom, Keys, Fresh;
    if n == 0 {
      NoneAfter(all, cuts, pages);
    } else {
      assert pages[..n][..n - 1] == pages[..n - 1] && pages[..n][n - 1] == pages[n - 1];
      MergeStep(all, cuts, pages, n, seen);
      SeenMore(all, cuts, pages, n, |cuts|, n - 1, seen);
      MergeCovers(all, cuts, pages, n - 1, seen + Keys(pages[n - 1]));
      CoveredSplits(all, cuts, OlderEnd(cuts, n), cuts[n - 1].hi, |all|);
    }
  }

  /** No page has anything behind the end of the newest. */
  lemma NoneAfter(all: seq<Sample>, cuts: seq<Cut>, pages: seq<seq<Sample>>)
    requires CutFrom(all, cuts, pages)
    ensures OlderEnd(cuts, 0) <= |all| && Covered(all, cuts, OlderEnd(cuts, 0), |all|) == []
  {
    CoveredNone(all, cuts, OlderEnd(cuts, 0), |all|);
  }

  lemma PrependStep(all: seq<Sample>, cuts: seq<Cut>, pages: seq<seq<Sample>>, n: nat, seen: set<Time>)
    requires Keyed(all) && CutFrom(all, cuts, pages) && 0 < n < |cuts|
    requires SeenFrom(all, cuts, 0, n, seen)
    ensures cuts[n].lo <= cuts[n - 1].lo <= |all|
    ensures Fresh(seen, pages[n]) == Covered(all, cuts, cuts[n].lo, cuts[n - 1].lo)
  {
    var c := cuts[n];
    var a := cuts[n - 1].lo;
    var mid := Smaller(c.hi, a);
    forall j | mid <= j < c.hi ensures CoveredBy(cuts, 0, n, j) {
      assert cuts[n - 1].lo <= j < cuts[n - 1].hi;
    }
    FreshBefore(all, seen, c.lo, mid, c.hi);
    forall j | c.lo <= j < a ensures CoveredBy(cuts, 0, |cuts|, j) <==> c.lo <= j < mid {
      if j < mid {
        assert c.lo <= j < c.hi;
      }
    }
    CoveredSlice(all, cuts, c.lo, c.lo, mid, a);
  }

  /** The profile branch of `follow_join`, over the pages from the `n`-th on. */
  lemma {:induction false} PrependCovers(
    all: seq<Sample>, cuts: seq<Cut>, pages: seq<seq<Sample>>, n: nat, seen: set<Time>)
    requires Keyed(all) && CutFrom(all, cuts, pages) && 0 < n <= |cuts|
    requires SeenFrom(all, cuts, 0, n, seen)
    ensures cuts[n - 1].lo <= |all| && Prepend(seen, pages[n..]) == Covered(all, cuts, 0, cuts[n - 1].lo)
    decreases |cuts| - n
  {
    hide Keyed, SeenFrom, Keys, Fresh;
    if n == |cuts| {
      NoneBefore(all, cuts, pages);
    } else {
      assert pages[n..][1..] == pages[n + 1..] && pages[n..][0] == pages[n];
      PrependStep(all, cuts, pages, n, seen);
      SeenMore(all, cuts, pages, 0, n, n, seen);
      PrependCovers(all, cuts, pages, n + 1, seen + Keys(pages[n]));
      CoveredSplits(all, cuts, 0, cuts[n].lo, cuts[n - 1].lo);
    }
  }

  lemma NoneBefore(all: seq<Sample>, cuts: seq<Cut>, pages: seq<seq<Sample>>)
    requires CutFrom(all, cuts, pages) && cuts != []
    ensures var lo := cuts[|cuts| - 1].lo; lo <= |all| && Covered(all, cuts, 0, lo) == []
  {
    CoveredNone(all, cuts, 0, cuts[|cuts| - 1].lo);
  }

  lemma FirstPage(all: seq<Sample>, cuts: seq<Cut>, pages: seq<seq<Sample>>)
    requires Keyed(all) && CutFrom(all, cuts, pages) && cuts != []
    ensures SeenFrom(all, cuts, 0, 1, Keys(pages[0]))
    ensures cuts[0].lo <= |all| && Covered(all, cuts, cuts[0].lo, |all|) == pages[0]
  {
    var c := cuts[0];
    SliceKeys(all, c.lo, c.hi);
    forall j | c.lo <= j < |all| ensures CoveredBy(cuts, 0, |cuts|, j) <==> c.lo <= j < c.hi {
      if j < c.hi {
        assert c.lo <= j < c.hi;
      }
    }
    CoveredSlice(all, cuts, c.lo, c.lo, c.hi, |all|);
  }

  /**
   * Both joins return exactly the samples that some page has, in order and without repeats, for pages cut from one
   * list of samples with different keys, newest first, each reaching no less far back than the one before. They may
   * overlap (then one join drops the newer page's copies and the other the older's), touch, or leave gaps.
   */
  lemma JoinsCover(all: seq<Sample>, cuts: seq<Cut>, pages: seq<seq<Sample>>)
    requires Keyed(all) && CutFrom(all, cuts, pages) && pages != []
    ensures Merge({}, pages) == Covered(all, cuts, 0, |all|)
    ensures Prepend(Keys(pages[0]), pages[1..]) + pages[0] == Covered(all, cuts, 0, |all|)
  {
    hide CutFrom, Keyed, Merge, Prepend, Keys;
    var n := |pages|;
    assert n == |cuts| && cuts[0].lo <= |all| by { CutPages(all, cuts, pages); }
    assert pages[..n] == pages;
    MergeCovers(all, cuts, pages, n, {});
    PrependCovers(all, cuts, pages, 1, Keys(pages[0])) by { FirstPage(all, cuts, pages); }
    FirstPage(all, cuts, pages);
    CoveredSplits(all, cuts, 0, cuts[0].lo, |all|);
  }

  lemma CutPages(all: seq<Sample>, cuts: seq<Cut>, pages: seq<seq<Sample>>)
    requires CutFrom(all, cuts, pages) && pages != []
    ensures |cuts| == |pages| && cuts[0].lo <= |all|
  {
  }

  /** Each page touches or overlaps the one before. */
  ghost predicate NoGaps(cuts: seq<Cut>) {
    forall i :: 0 < i < |cuts| ==> cuts[i - 1].lo <= cuts[i].hi
  }

  lemma {:induction false} NoGapsCover(all: seq<Sample>, cuts: seq<Cut>, pages: seq<seq<Sample>>, n: nat, j: nat)
    requires CutFrom(all, cuts, pages) && NoGaps(cuts) && n < |cuts| && cuts[n].lo <= j < cuts[0].hi
    ensures CoveredBy(cuts, 0, |cuts|, j)
    decreases n
  {
    if n > 0 && j >= cuts[n].hi {
      NoGapsCover(all, cuts, pages, n - 1, j);
    } else {
      assert cuts[n].lo <= j < cuts[n].hi;
    }
  }

  /** Without gaps that is the whole slice from the oldest sample fetched to the newest. */
  lemma JoinsRebuild(all: seq<Sample>, cuts: seq<Cut>, pages: seq<seq<Sample>>)
    requires StrictlyAscending(all) && CutFrom(all, cuts, pages) && pages != [] && NoGaps(cuts)
    ensures var lo := cuts[|cuts| - 1].lo; var hi := cuts[0].hi;
      && lo <= hi <= |all| && StrictlyAscending(all[lo..hi])
      && Merge({}, pages) == all[lo..hi] == Prepend(Keys(pages[0]), pages[1..]) + pages[0]
  {
    hide CutFrom, CoveredBy, StrictlyAscending, Keyed, Merge, Prepend, Keys, Covered, NoGaps;
    CutPages(all, cuts, pages);
    var n: nat := |cuts| - 1;
    CutEnds(all, cuts, pages);
    SliceAscends(all, cuts[n].lo, cuts[0].hi);
    AscendingIsKeyed(all);
    JoinsCover(all, cuts, pages);
    forall j | 0 <= j < |all| ensures CoveredBy(cuts, 0, |cuts|, j) <==> cuts[n].lo <= j < cuts[0].hi {
      if cuts[n].lo <= j < cuts[0].hi {
        NoGapsCover(all, cuts, pages, n, j);
      }
    }
    CoveredSlice(all, cuts, 0, cuts[n].lo, cuts[0].hi, |all|);
  }

  /** Nothing is covered before the oldest page begins or after the newest ends. */
  lemma CutEnds(all: seq<Sample>, cuts: seq<Cut>, pages: seq<seq<Sample>>)
    requires CutFrom(all, cuts, pages) && cuts != []
    ensures var lo := cuts[|cuts| - 1].lo; var hi := cuts[0].hi;
      lo <= hi <= |all| && forall j: nat | CoveredBy(cuts, 0, |cuts|, j) :: lo <= j < hi
  {
  }

  lemma AscendingIsKeyed(all: seq<Sample>)
    requires StrictlyAscending(all)
    ensures Keyed(all)
  {
  }

  lemma SliceAscends(all: seq<Sample>, lo: nat, hi: nat)
    requires StrictlyAscending(all) && lo <= hi <= |all|
    ensures StrictlyAscending(all[lo..hi])
  {
    var s := all[lo..hi];
    assert forall i :: 0 <= i < |s| ==> s[i] == all[lo + i];
  }

  // ---- the other parts: pages by offset, in serving order

  /** `follow_join` for `recent`, `hosts` and `dns`: each page goes behind, without the keys seen before. */
  function Append(seen: set<Time>, pages: seq<seq<Sample>>): seq<Sample>
    decreases |pages|
  {
    if pages == [] then [] else Fresh(seen, pages[0]) + Append(seen + Keys(pages[0]), pages[1..])
  }

  method FollowJoinBehind(pages: seq<seq<Sample>>) returns (rows: seq<Sample>)
    requires pages != []
    ensures rows == pages[0] + Append(Keys(pages[0]), pages[1..])
  {
    rows := pages[0];
    var seen := Keys(pages[0]);
    for i := 1 to |pages|
      invariant rows + Append(seen, pages[i..]) == pages[0] + Append(Keys(pages[0]), pages[1..])
    {
      assert pages[i..][1..] == pages[i + 1..];
      var got;
      got, seen := TakeFresh(seen, pages[i]);
      rows := rows + got;
    }
  }

  /** The rows that have a key have different ones. */
  ghost predicate DistinctKeys(s: seq<Sample>) {
    forall i, j :: 0 <= i < j < |s| && s[i].key.Some? ==> s[i].key != s[j].key
  }

  function Concat(pages: seq<seq<Sample>>): seq<Sample> {
    if pages == [] then [] else pages[0] + Concat(pages[1..])
  }

  lemma {:induction false} FreshAll(seen: set<Time>, page: seq<Sample>)
    requires DistinctKeys(page) && forall x :: x in page ==> !x.SeenIn(seen)
    ensures Fresh(seen, page) == page
    decreases |page|
  {
    if page != [] {
      assert page == [page[0]] + page[1..];
      assert forall i :: 0 <= i < |page| - 1 ==> page[1..][i] == page[i + 1];
      forall x | x in page[1..] ensures !x.SeenIn(seen + page[0].Key()) {
        var i :| 0 <= i < |page| - 1 && page[1..][i] == x;
        assert page[i + 1] in page;
      }
      FreshAll(seen + page[0].Key(), page[1..]);
    }
  }

  lemma OtherKeys(page: seq<Sample>, rest: seq<Sample>, x: Sample)
    requires DistinctKeys(page + rest) && x in rest
    ensures !x.SeenIn(Keys(page))
  {
    var i :| 0 <= i < |rest| && rest[i] == x;
    forall j | 0 <= j < |page| && page[j].key.Some? ensures page[j].key != x.key {
      assert (page + rest)[j] == page[j] && (page + rest)[|page| + i] == x;
    }
  }

  /** Without drift the pages are the served list cut in order, and joining them behind each other gives it back. */
  lemma {:induction false} AppendRebuilds(seen: set<Time>, pages: seq<seq<Sample>>)
    requires DistinctKeys(Concat(pages)) && forall x :: x in Concat(pages) ==> !x.SeenIn(seen)
    ensures Append(seen, pages) == Concat(pages)
    decreases |pages|
  {
    if pages != [] {
      var page, rest := pages[0], Concat(pages[1..]);
      var all := page + rest;
      assert forall i :: 0 <= i < |page| ==> all[i] == page[i];
      assert forall i :: 0 <= i < |rest| ==> all[|page| + i] == rest[i];
      assert forall x :: x in page ==> x in all;
      FreshAll(seen, page);
      forall x | x in rest ensures !x.SeenIn(seen + Keys(page)) {
        assert x in all;
        OtherKeys(page, rest, x);
      }
      AppendRebuilds(seen + Keys(page), pages[1..]);
    }
  }

  lemma OffsetPagesRebuild(pages: seq<seq<Sample>>)
    requires pages != [] && DistinctKeys(Concat(pages))
    ensures pages[0] + Append(Keys(pages[0]), pages[1..]) == Concat(pages)
  {
    AppendRebuilds({}, pages);
    var page, rest := pages[0], Concat(pages[1..]);
    assert forall i :: 0 <= i < |page| ==> (page + rest)[i] == page[i];
    assert forall x :: x in page ==> x in page + rest;
    FreshAll({}, page);
    assert {} + Keys(page) == Keys(page);
  }
}
