/** Which rows the joins of scripts/collect_follow.py keep, for any pages: the first of each key, all without one. */
module PageKept {
  import opened Names
  import opened PageJoin

  /** Some row before the `n`-th has the key of that row. */
  ghost predicate HadBefore(rows: seq<Sample>, n: nat)
    requires n < |rows|
  {
    rows[n].key.Some? && exists j :: 0 <= j < n && rows[j].key == rows[n].key
  }

  /** Of the rows in the order fetched, the first `m` and every later one whose key no row before has. */
  ghost function Kept(rows: seq<Sample>, m: nat): seq<Sample> {
    if rows == [] then []
    else
      var last := |rows| - 1;
      Kept(rows[..last], m) + if last < m || !HadBefore(rows, last) then [rows[last]] else []
  }

  lemma KeptAppend(rows: seq<Sample>, x: Sample, m: nat)
    ensures Kept(rows + [x], m) == Kept(rows, m) + if |rows| < m || !x.SeenIn(Keys(rows)) then [x] else []
  {
    var all := rows + [x];
    assert all[..|rows|] == rows && all[|rows|] == x;
    if j :| 0 <= j < |rows| && all[j].key == x.key && x.key.Some? {
      assert rows[j] in rows && rows[j].key == x.key;
    }
    if x.SeenIn(Keys(rows)) {
      var y :| y in rows && y.key.Some? && y.t() == x.t();
      var j :| 0 <= j < |rows| && rows[j] == y;
      assert x.key == Some(x.t()) && y.key == Some(y.t());
      assert all[j].key == all[|rows|].key;
    }
  }

  lemma {:induction false} KeptAll(rows: seq<Sample>, m: nat)
    requires |rows| <= m
    ensures Kept(rows, m) == rows
  {
    if rows != [] {
      KeptAll(rows[..|rows| - 1], m);
    }
  }

  lemma KeysMore(rows: seq<Sample>, page: seq<Sample>)
    ensures Keys(rows + page) == Keys(rows) + Keys(page)
  {
  }

  /** One page more: what is new of it is kept. */
  lemma {:induction false} KeptPage(rows: seq<Sample>, page: seq<Sample>, m: nat)
    requires m <= |rows|
    ensures Kept(rows + page, m) == Kept(rows, m) + Fresh(Keys(rows), page)
    decreases |page|
  {
    hide Kept, Keys;
    if page == [] {
      assert rows + page == rows;
    } else {
      var x := page[0];
      KeptAppend(rows, x, m);
      KeysMore(rows, [x]);
      OneKey(x);
      assert (rows + [x]) + page[1..] == rows + page;
      KeptPage(rows + [x], page[1..], m);
      if x.SeenIn(Keys(rows)) {
        assert Keys(rows) + x.Key() == Keys(rows);
      }
    }
  }

  lemma OneKey(x: Sample)
    ensures Keys([x]) == x.Key()
  {
  }

  // ---- the parts behind

  lemma {:induction false} KeptBehind(rows: seq<Sample>, pages: seq<seq<Sample>>, m: nat)
    requires m <= |rows|
    ensures Kept(rows + Concat(pages), m) == Kept(rows, m) + Append(Keys(rows), pages)
    decreases |pages|
  {
    hide Kept, Keys, Fresh;
    if pages == [] {
      assert rows + Concat(pages) == rows;
    } else {
      KeptPage(rows, pages[0], m);
      KeysMore(rows, pages[0]);
      KeptBehind(rows + pages[0], pages[1..], m);
      assert rows + Concat(pages) == (rows + pages[0]) + Concat(pages[1..]);
    }
  }

  /** `follow_join` for the other parts: the first page, and of the later ones every row whose key no row before has. */
  lemma BehindKeeps(pages: seq<seq<Sample>>)
    requires pages != []
    ensures pages[0] + Append(Keys(pages[0]), pages[1..]) == Kept(Concat(pages), |pages[0]|)
  {
    hide Kept, Keys;
    KeptAll(pages[0], |pages[0]|);
    KeptBehind(pages[0], pages[1..], |pages[0]|);
  }

  function Reversed(pages: seq<seq<Sample>>): seq<seq<Sample>> {
    if pages == [] then [] else Reversed(pages[1..]) + [pages[0]]
  }

  lemma ReversedLast(pages: seq<seq<Sample>>)
    requires pages != []
    ensures Reversed(pages) != []
    ensures Reversed(pages)[|Reversed(pages)| - 1] == pages[0]
    ensures Reversed(pages)[..|Reversed(pages)| - 1] == Reversed(pages[1..])
  {
  }

  /** The merge from the last page on is the join behind of the pages in reverse. */
  lemma {:induction false} MergeIsAppend(seen: set<Time>, pages: seq<seq<Sample>>)
    ensures Merge(seen, Reversed(pages)) == Append(seen, pages)
    decreases |pages|
  {
    hide Fresh, Keys;
    if pages != [] {
      ReversedLast(pages);
      MergeIsAppend(seen + Keys(pages[0]), pages[1..]);
    }
  }

  lemma {:induction false} ReversedTwice(pages: seq<seq<Sample>>)
    ensures Reversed(Reversed(pages)) == pages
  {
    if pages != [] {
      ReversedAppend(Reversed(pages[1..]), pages[0]);
      ReversedTwice(pages[1..]);
      assert pages == [pages[0]] + pages[1..];
    }
  }

  lemma {:induction false} ReversedAppend(pages: seq<seq<Sample>>, page: seq<Sample>)
    ensures Reversed(pages + [page]) == [page] + Reversed(pages)
  {
    if pages == [] {
      assert pages + [page] == [page] && [page][1..] == [];
    } else {
      assert (pages + [page])[1..] == pages[1..] + [page];
      ReversedAppend(pages[1..], page);
    }
  }

  /** `profile_join`: of the rows from the oldest page on, every one whose key no row before has. */
  lemma MergeKeeps(pages: seq<seq<Sample>>)
    ensures Merge({}, pages) == Kept(Concat(Reversed(pages)), 0)
  {
    hide Kept, Keys, Merge, Append;
    ReversedTwice(pages);
    MergeIsAppend({}, Reversed(pages));
    KeptBehind([], Reversed(pages), 0);
    assert [] + Concat(Reversed(pages)) == Concat(Reversed(pages));
    assert Keys([]) == {} && Kept([], 0) == [] by { NothingKept(); }
  }

  lemma NothingKept()
    ensures Keys([]) == {} && Kept([], 0) == []
  {
  }

  // ---- the profile branch of `follow_join`

  /** What is kept of each later page. */
  function Parts(seen: set<Time>, pages: seq<seq<Sample>>): seq<seq<Sample>>
    decreases |pages|
  {
    if pages == [] then [] else [Fresh(seen, pages[0])] + Parts(seen + Keys(pages[0]), pages[1..])
  }

  lemma {:induction false} PartsAre(seen: set<Time>, pages: seq<seq<Sample>>)
    ensures Concat(Parts(seen, pages)) == Append(seen, pages)
    ensures Concat(Reversed(Parts(seen, pages))) == Prepend(seen, pages)
    decreases |pages|
  {
    hide Fresh, Keys;
    if pages != [] {
      var part, rest := Fresh(seen, pages[0]), Parts(seen + Keys(pages[0]), pages[1..]);
      PartsAre(seen + Keys(pages[0]), pages[1..]);
      assert Parts(seen, pages)[1..] == rest;
      ConcatAppend(Reversed(rest), part);
    }
  }

  lemma {:induction false} ConcatAppend(pages: seq<seq<Sample>>, page: seq<Sample>)
    ensures Concat(pages + [page]) == Concat(pages) + page
  {
    if pages == [] {
      assert pages + [page] == [page] && [page][1..] == [];
    } else {
      assert (pages + [page])[1..] == pages[1..] + [page];
      ConcatAppend(pages[1..], page);
    }
  }

  /** It keeps the same rows as the join behind, with the later pages' in front, the last page's first. */
  lemma FrontKeeps(pages: seq<seq<Sample>>) returns (parts: seq<seq<Sample>>)
    requires pages != []
    ensures |parts| == |pages| - 1 && pages[0] + Concat(parts) == Kept(Concat(pages), |pages[0]|)
    ensures forall i, x :: 0 <= i < |parts| && x in parts[i] ==> x in pages[i + 1]
    ensures Prepend(Keys(pages[0]), pages[1..]) + pages[0] == Concat(Reversed(parts)) + pages[0]
  {
    hide Kept, Keys;
    parts := Parts(Keys(pages[0]), pages[1..]);
    PartsAre(Keys(pages[0]), pages[1..]);
    PartsOfPages(Keys(pages[0]), pages[1..]);
    BehindKeeps(pages);
  }

  lemma {:induction false} PartsOfPages(seen: set<Time>, pages: seq<seq<Sample>>)
    ensures |Parts(seen, pages)| == |pages|
    ensures forall i, x :: 0 <= i < |pages| && x in Parts(seen, pages)[i] ==> x in pages[i]
    decreases |pages|
  {
    hide Fresh, Keys;
    if pages != [] {
      FreshOfPage(seen, pages[0]);
      PartsOfPages(seen + Keys(pages[0]), pages[1..]);
      assert forall i :: 0 < i < |pages| ==> pages[i] == pages[1..][i - 1];
    }
  }

  lemma {:induction false} FreshOfPage(seen: set<Time>, page: seq<Sample>)
    ensures forall x :: x in Fresh(seen, page) ==> x in page
    decreases |page|
  {
    if page != [] {
      FreshOfPage(seen, page[1..]);
      FreshOfPage(seen + page[0].Key(), page[1..]);
    }
  }

  // ---- what that means

  /** No key is lost, and keys are different in what is kept if they are in the first `m` rows. */
  lemma {:induction false} KeptKeys(rows: seq<Sample>, m: nat)
    ensures Keys(Kept(rows, m)) == Keys(rows)
    ensures DistinctKeys(if m <= |rows| then rows[..m] else rows) ==> DistinctKeys(Kept(rows, m))
  {
    hide Keys, HadBefore, DistinctKeys;
    if rows != [] {
      var last := |rows| - 1;
      var before, x := rows[..last], rows[last];
      assert rows == before + [x];
      KeptKeys(before, m);
      KeptAppend(before, x, m);
      KeysMore(before, [x]);
      KeysMore(Kept(before, m), [x]);
      OneKey(x);
      if last < m {
        KeptAll(rows, m);
        assert m == |rows| ==> rows[..m] == rows;
      } else {
        assert rows[..m] == before[..m];
        if !x.SeenIn(Keys(before)) {
          OneMoreKey(Kept(before, m), x);
        } else {
          assert Keys(before) + x.Key() == Keys(before);
          assert Kept(rows, m) == Kept(before, m);
        }
      }
    } else {
      assert DistinctKeys([]) by { NoneAlike(); }
    }
  }

  lemma NoneAlike()
    ensures DistinctKeys([])
  {
  }

  lemma OneMoreKey(rows: seq<Sample>, x: Sample)
    requires !x.SeenIn(Keys(rows))
    ensures DistinctKeys(rows) ==> DistinctKeys(rows + [x])
  {
    if DistinctKeys(rows) {
      var all := rows + [x];
      forall i, j | 0 <= i < j < |all| && all[i].key.Some? ensures all[i].key != all[j].key {
        assert all[i] == rows[i] && rows[i] in rows;
      }
    }
  }

  // ---- pages cut from one list, in its order

  lemma {:induction false} ReversedLength(pages: seq<seq<Sample>>)
    ensures |Reversed(pages)| == |pages|
    ensures forall i :: 0 <= i < |pages| ==> Reversed(pages)[i] == pages[|pages| - 1 - i]
  {
    if pages != [] {
      ReversedLength(pages[1..]);
    }
  }

  /** Each page is a slice of `all`, and each later one begins and ends no earlier. */
  ghost predicate CutForward(all: seq<Sample>, cuts: seq<Cut>, pages: seq<seq<Sample>>) {
    && |cuts| == |pages|
    && (forall i :: 0 <= i < |cuts| ==>
          cuts[i].lo <= cuts[i].hi <= |all| && pages[i] == all[cuts[i].lo..cuts[i].hi])
    && (forall i, j :: 0 <= i < j < |cuts| ==> cuts[i].lo <= cuts[j].lo && cuts[i].hi <= cuts[j].hi)
  }

  /**
   * For pages cut from one list in its order, which may overlap as when rows arrive between two fetches, the join
   * behind gives exactly the rows that some page has, in order and without repeats.
   */
  lemma BehindCovers(all: seq<Sample>, cuts: seq<Cut>, pages: seq<seq<Sample>>)
    requires Keyed(all) && CutForward(all, cuts, pages) && pages != []
    ensures pages[0] + Append(Keys(pages[0]), pages[1..]) == Covered(all, cuts, 0, |all|)
  {
    hide Keyed, CutForward, CutFrom, Merge, Append, Keys, Covered, Fresh;
    var back := seq(|cuts|, i requires 0 <= i < |cuts| => cuts[|cuts| - 1 - i]);
    CutBackward(all, cuts, back, pages);
    JoinsCover(all, back, Reversed(pages));
    MergeIsAppend({}, pages);
    FirstPageAlone(all, cuts, pages);
    SameCovered(all, cuts, back, 0, |all|);
  }

  lemma CutBackward(all: seq<Sample>, cuts: seq<Cut>, back: seq<Cut>, pages: seq<seq<Sample>>)
    requires CutForward(all, cuts, pages) && pages != []
    requires |back| == |cuts| && forall i :: 0 <= i < |cuts| ==> back[i] == cuts[|cuts| - 1 - i]
    ensures CutFrom(all, back, Reversed(pages)) && Reversed(pages) != []
  {
    ReversedLength(pages);
  }

  lemma FirstPageAlone(all: seq<Sample>, cuts: seq<Cut>, pages: seq<seq<Sample>>)
    requires Keyed(all) && CutForward(all, cuts, pages) && pages != []
    ensures Append({}, pages) == pages[0] + Append(Keys(pages[0]), pages[1..])
  {
    var page := pages[0];
    assert forall i :: 0 <= i < |page| ==> page[i] == all[cuts[0].lo + i];
    FreshAll({}, page);
    assert {} + Keys(page) == Keys(page);
  }

  lemma {:induction false} SameCovered(all: seq<Sample>, cuts: seq<Cut>, back: seq<Cut>, a: nat, b: nat)
    requires b <= |all| && |back| == |cuts| && forall i :: 0 <= i < |cuts| ==> back[i] == cuts[|cuts| - 1 - i]
    ensures Covered(all, cuts, a, b) == Covered(all, back, a, b)
    decreases b - a
  {
    hide CoveredBy;
    if a < b {
      SameCover(cuts, back, a);
      SameCovered(all, cuts, back, a + 1, b);
    }
  }

  lemma SameCover(cuts: seq<Cut>, back: seq<Cut>, j: nat)
    requires |back| == |cuts| && forall i :: 0 <= i < |cuts| ==> back[i] == cuts[|cuts| - 1 - i]
    ensures CoveredBy(cuts, 0, |cuts|, j) <==> CoveredBy(back, 0, |back|, j)
  {
    if i :| 0 <= i < |cuts| && cuts[i].lo <= j < cuts[i].hi {
      assert back[|cuts| - 1 - i] == cuts[i];
    }
    if i :| 0 <= i < |back| && back[i].lo <= j < back[i].hi {
      assert back[i] == cuts[|cuts| - 1 - i];
    }
  }
}
