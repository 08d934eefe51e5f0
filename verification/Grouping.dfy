/** The group numbers of scripts/anonymize-snapshot.py, as the hosts of an input decide them. */
module Grouping {
  import opened Names
  import opened Numbered

  /** The row that the table folds its overflow into, and the empty name, are left alone. */
  predicate KeptName(name: string) {
    name == "" || name == "other"
  }

  predicate RealHost(name: string) {
    !KeptName(name) && ReadHost(name).None?
  }

  /** The group number that a replaced host brings with it. */
  function Brought(name: string): Option<nat> {
    if !KeptName(name) && ReadHost(name).Some? then ReadHost(name).value.1 else None
  }

  ghost predicate Injective<X(!new), Y>(m: map<X, Y>) {
    forall x, y :: x in m && y in m && m[x] == m[y] ==> x == y
  }

  /** The numbers of the units, and every number that has been given or brought. */
  datatype Tables = Tables(numbers: map<string, nat>, taken: set<nat>)

  const BLANK := Tables(map[], {})

  /** The first number from `n` on that is not taken. */
  function Free(n: nat, taken: set<nat>): (r: nat)
    ensures n <= r && r !in taken && forall m :: n <= m < r ==> m in taken
    decreases set m | m in taken && m >= n
  {
    if n !in taken then n
    else
      assert (set m | m in taken && m >= n) == (set m | m in taken && m >= n + 1) + {n};
      Free(n + 1, taken)
  }

  /** What a host does to the numbers: a real one has its unit numbered, a replaced one notes the number it brings. */
  function Noted(etld1: string -> string, t: Tables, name: string): Tables {
    if RealHost(name) then
      if etld1(name) in t.numbers then t
      else
        var n := Free(|t.numbers| + 1, t.taken);
        Tables(t.numbers[etld1(name) := n], t.taken + {n})
    else
      match Brought(name)
      case None => t
      case Some(g) =>
        Tables(if etld1(name) in t.numbers then t.numbers else t.numbers[etld1(name) := g], t.taken + {g})
  }

  function AllNoted(etld1: string -> string, names: seq<string>): Tables {
    if names == [] then BLANK
    else Noted(etld1, AllNoted(etld1, names[..|names| - 1]), names[|names| - 1])
  }

  lemma AllNotedAppend(etld1: string -> string, names: seq<string>, name: string)
    ensures AllNoted(etld1, names + [name]) == Noted(etld1, AllNoted(etld1, names), name)
  {
    assert (names + [name])[..|names|] == names;
  }

  // ---- when units have distinct numbers in the tables

  /** A replaced host brings a number that another unit has, and its own unit has none yet. */
  ghost predicate Clashes(etld1: string -> string, numbers: map<string, nat>, name: string) {
    && Brought(name).Some? && etld1(name) !in numbers
    && exists u :: u in numbers && numbers[u] == Brought(name).value
  }

  ghost predicate AllTaken(t: Tables) {
    forall u :: u in t.numbers ==> t.numbers[u] in t.taken
  }

  lemma ClashBreaks(numbers: map<string, nat>, unit: string, g: nat)
    requires Injective(numbers) && unit !in numbers
    ensures Injective(numbers[unit := g]) <==> !exists u :: u in numbers && numbers[u] == g
  {
    if u :| u in numbers && numbers[u] == g {
      assert numbers[unit := g][u] == numbers[unit := g][unit];
    }
  }

  /** One host: the numbers grow, and stay distinct exactly when it does not clash. */
  lemma NotedDistinct(etld1: string -> string, t: Tables, name: string)
    requires AllTaken(t)
    ensures var r := Noted(etld1, t, name);
      && AllTaken(r) && t.taken <= r.taken
      && (forall u :: u in t.numbers ==> u in r.numbers && r.numbers[u] == t.numbers[u])
      && (Injective(r.numbers) <==> Injective(t.numbers) && !Clashes(etld1, t.numbers, name))
  {
    hide ReadHost;
    var r := Noted(etld1, t, name);
    if Injective(t.numbers) && r.numbers != t.numbers {
      ClashBreaks(t.numbers, etld1(name), r.numbers[etld1(name)]);
    }
    if x, y :| x in t.numbers && y in t.numbers && t.numbers[x] == t.numbers[y] && x != y {
      assert r.numbers[x] == r.numbers[y];
    }
  }

  /** No host clashes with the numbers of the hosts before it. */
  ghost predicate NoneClashes(etld1: string -> string, names: seq<string>) {
    forall i :: 0 <= i < |names| ==> !Clashes(etld1, AllNoted(etld1, names[..i]).numbers, names[i])
  }

  /** Exactly when different units end up with different numbers in the tables. */
  lemma {:induction false} DistinctIff(etld1: string -> string, names: seq<string>)
    ensures AllTaken(AllNoted(etld1, names))
    ensures Injective(AllNoted(etld1, names).numbers) <==> NoneClashes(etld1, names)
  {
    hide Noted, Clashes, Injective, NoneClashes;
    if names == [] {
      BlankDistinct(etld1);
    } else {
      var last := |names| - 1;
      DistinctIff(etld1, names[..last]);
      NotedDistinct(etld1, AllNoted(etld1, names[..last]), names[last]);
      NoneClashesNext(etld1, names);
    }
  }

  lemma NoneClashesNext(etld1: string -> string, names: seq<string>)
    requires names != []
    ensures var last := |names| - 1; var before := names[..last];
      NoneClashes(etld1, names) <==>
      NoneClashes(etld1, before) && !Clashes(etld1, AllNoted(etld1, before).numbers, names[last])
  {
    hide AllNoted, Clashes;
    var last := |names| - 1;
    var before := names[..last];
    assert forall i :: 0 <= i < last ==> before[..i] == names[..i] && before[i] == names[i];
  }

  lemma BlankDistinct(etld1: string -> string)
    ensures Injective(BLANK.numbers) && NoneClashes(etld1, [])
  {
  }

  /** Every host has been noted, so that noting one again changes nothing. */
  lemma {:induction false} NotedAgain(etld1: string -> string, names: seq<string>, name: string)
    requires name in names
    ensures Noted(etld1, AllNoted(etld1, names), name) == AllNoted(etld1, names)
  {
    hide Injective, Clashes, Noted, NoneClashes;
    var last := |names| - 1;
    var before := AllNoted(etld1, names[..last]);
    DistinctIff(etld1, names[..last]);
    NotedDistinct(etld1, before, names[last]);
    if name == names[last] {
      NotedTwice(etld1, before, name);
    } else {
      NotedAgain(etld1, names[..last], name);
      StillNoted(etld1, before, AllNoted(etld1, names), name);
    }
  }

  lemma NotedTwice(etld1: string -> string, t: Tables, name: string)
    ensures Noted(etld1, Noted(etld1, t, name), name) == Noted(etld1, t, name)
  {
    hide ReadHost;
  }

  lemma StillNoted(etld1: string -> string, t: Tables, r: Tables, name: string)
    requires Noted(etld1, t, name) == t && t.taken <= r.taken
    requires forall u :: u in t.numbers ==> u in r.numbers
    ensures Noted(etld1, r, name) == r
  {
    hide ReadHost;
  }

  // ---- when the groups that hosts come out with are those of their units

  /** The group that a host comes out with: a replaced one keeps its own, a real one gets its unit's. */
  function Carried(etld1: string -> string, numbers: map<string, nat>, name: string): Option<nat> {
    if RealHost(name) && etld1(name) in numbers then Some(numbers[etld1(name)]) else Brought(name)
  }

  /** Two hosts come out with one group exactly when they are of one unit. */
  ghost predicate Separates(etld1: string -> string, numbers: map<string, nat>, names: seq<string>) {
    forall a, b :: a in names && b in names
                   && Carried(etld1, numbers, a).Some? && Carried(etld1, numbers, b).Some? ==>
      (Carried(etld1, numbers, a) == Carried(etld1, numbers, b) <==> etld1(a) == etld1(b))
  }

  /** Of the units numbered so far, a replaced host brings the number of its own and of no other. */
  ghost predicate Fits(etld1: string -> string, numbers: map<string, nat>, name: string) {
    Brought(name).Some? ==>
      forall u :: u in numbers ==> (numbers[u] == Brought(name).value <==> u == etld1(name))
  }

  ghost predicate AllFit(etld1: string -> string, names: seq<string>) {
    forall i :: 0 <= i < |names| ==> Fits(etld1, AllNoted(etld1, names[..i]).numbers, names[i])
  }

  /** Numbers are distinct, and every host comes out with its unit's. */
  ghost predicate Agrees(etld1: string -> string, numbers: map<string, nat>, names: seq<string>) {
    && Injective(numbers)
    && forall name :: name in names && (RealHost(name) || Brought(name).Some?) ==>
         && etld1(name) in numbers
         && (Brought(name).Some? ==> numbers[etld1(name)] == Brought(name).value)
  }

  lemma NotedAgrees(etld1: string -> string, t: Tables, names: seq<string>, name: string)
    requires AllTaken(t) && Agrees(etld1, t.numbers, names) && Fits(etld1, t.numbers, name)
    ensures Agrees(etld1, Noted(etld1, t, name).numbers, names + [name])
  {
    hide ReadHost, Injective;
    NotedDistinct(etld1, t, name);
  }

  lemma NothingAgrees(etld1: string -> string)
    ensures Agrees(etld1, BLANK.numbers, [])
  {
  }

  lemma {:induction false} FittingAgrees(etld1: string -> string, names: seq<string>)
    requires AllFit(etld1, names)
    ensures Agrees(etld1, AllNoted(etld1, names).numbers, names)
  {
    hide Agrees, Fits, Noted, Injective;
    if names == [] {
      NothingAgrees(etld1);
    } else {
      var last := |names| - 1;
      var before := names[..last];
      assert forall i :: 0 <= i < last ==> before[..i] == names[..i] && before[i] == names[i];
      FittingAgrees(etld1, before);
      DistinctIff(etld1, before);
      NotedAgrees(etld1, AllNoted(etld1, before), before, names[last]);
      assert names == before + [names[last]];
    }
  }

  /** A number in the tables is carried by a host of the unit. */
  lemma {:induction false} NumberedBy(etld1: string -> string, names: seq<string>, u: string) returns (name: string)
    requires u in AllNoted(etld1, names).numbers
    ensures name in names && etld1(name) == u
    ensures Carried(etld1, AllNoted(etld1, names).numbers, name) == Some(AllNoted(etld1, names).numbers[u])
  {
    hide ReadHost, KeptName;
    var last := |names| - 1;
    var before := AllNoted(etld1, names[..last]);
    if u in before.numbers {
      name := NumberedBy(etld1, names[..last], u);
      DistinctIff(etld1, names[..last]);
      NotedDistinct(etld1, before, names[last]);
    } else {
      name := names[last];
    }
  }

  /** What was numbered after some hosts keeps its number after more. */
  lemma {:induction false} NumbersStay(etld1: string -> string, names: seq<string>, n: nat)
    requires n <= |names|
    ensures forall u :: u in AllNoted(etld1, names[..n]).numbers ==>
              && u in AllNoted(etld1, names).numbers
              && AllNoted(etld1, names).numbers[u] == AllNoted(etld1, names[..n]).numbers[u]
    decreases |names|
  {
    hide Noted, Injective, Clashes, NoneClashes;
    if n == |names| {
      assert names[..n] == names;
    } else {
      var last := |names| - 1;
      assert names[..last][..n] == names[..n];
      NumbersStay(etld1, names[..last], n);
      DistinctIff(etld1, names[..last]);
      NotedDistinct(etld1, AllNoted(etld1, names[..last]), names[last]);
    }
  }

  lemma SeparatingFits(etld1: string -> string, names: seq<string>, i: nat)
    requires i < |names| && Separates(etld1, AllNoted(etld1, names).numbers, names)
    ensures Fits(etld1, AllNoted(etld1, names[..i]).numbers, names[i])
  {
    hide ReadHost, KeptName, AllNoted;
    var m, all := AllNoted(etld1, names[..i]).numbers, AllNoted(etld1, names).numbers;
    NumbersStay(etld1, names, i);
    forall u | u in m && Brought(names[i]).Some?
      ensures m[u] == Brought(names[i]).value <==> u == etld1(names[i])
    {
      var name := NumberedBy(etld1, names[..i], u);
      assert name in names && names[i] in names;
      assert Carried(etld1, all, name) == Some(m[u]);
      assert Carried(etld1, all, names[i]) == Brought(names[i]);
    }
  }

  /**
   * Exactly when hosts come out with the groups of their units (one group if and only if one unit): each host that
   * came in replaced brings, of the numbers that units have by then, its own unit's and no other's.
   */
  lemma SeparatesIff(etld1: string -> string, names: seq<string>)
    ensures Separates(etld1, AllNoted(etld1, names).numbers, names) <==> AllFit(etld1, names)
  {
    hide AllNoted, Fits, RealHost, Brought;
    if AllFit(etld1, names) {
      FittingAgrees(etld1, names);
    }
    if Separates(etld1, AllNoted(etld1, names).numbers, names) {
      forall i | 0 <= i < |names| ensures Fits(etld1, AllNoted(etld1, names[..i]).numbers, names[i]) {
        SeparatingFits(etld1, names, i);
      }
    }
  }

  /** Without replaced hosts they always do, and the tables' numbers are distinct. */
  lemma RealAreSeparate(etld1: string -> string, names: seq<string>)
    requires forall name :: name in names ==> Brought(name).None?
    ensures Injective(AllNoted(etld1, names).numbers) && Separates(etld1, AllNoted(etld1, names).numbers, names)
  {
    hide Injective, Separates, AllNoted, Brought;
    DistinctIff(etld1, names);
    SeparatesIff(etld1, names);
  }

  /** The units of the real hosts. */
  ghost function Units(etld1: string -> string, names: seq<string>): set<string> {
    set name | name in names && RealHost(name) :: etld1(name)
  }

  lemma UnitsNext(etld1: string -> string, names: seq<string>, name: string)
    ensures Units(etld1, names + [name]) == Units(etld1, names) + if RealHost(name) then {etld1(name)} else {}
  {
    hide RealHost;
  }

  /** The units are numbered, and the numbers are those from 1 to the number of the units. */
  ghost predicate FilledUp(t: Tables, units: set<string>) {
    t.numbers.Keys == units && |t.numbers| == |units| && forall m :: m in t.taken <==> 1 <= m <= |units|
  }

  lemma NotedFillsUp(etld1: string -> string, t: Tables, units: set<string>, name: string)
    requires FilledUp(t, units) && Brought(name).None?
    ensures FilledUp(Noted(etld1, t, name), units + if RealHost(name) then {etld1(name)} else {})
    ensures RealHost(name) && etld1(name) !in units ==>
              var r := Noted(etld1, t, name); etld1(name) in r.numbers && r.numbers[etld1(name)] == |units| + 1
  {
    hide RealHost, Brought;
    if RealHost(name) {
      var unit := etld1(name);
      if unit in units {
        assert units + {unit} == units;
      } else {
        var n := |units| + 1;
        assert Free(n, t.taken) == n;
        assert (t.numbers[unit := n]).Keys == units + {unit};
        assert |t.numbers[unit := n]| == |units| + 1;
      }
    } else {
      assert units + {} == units;
    }
  }

  lemma {:induction false} RealFillUp(etld1: string -> string, names: seq<string>)
    requires forall name :: name in names ==> Brought(name).None?
    ensures FilledUp(AllNoted(etld1, names), Units(etld1, names))
  {
    hide Brought, RealHost, Units, Noted;
    if names == [] {
      NoUnits(etld1);
    } else {
      var last := |names| - 1;
      var before := names[..last];
      assert forall name :: name in before ==> name in names;
      RealFillUp(etld1, before);
      UnitsNext(etld1, before, names[last]);
      assert before + [names[last]] == names;
      NotedFillsUp(etld1, AllNoted(etld1, before), Units(etld1, before), names[last]);
    }
  }

  lemma NoUnits(etld1: string -> string)
    ensures Units(etld1, []) == {}
  {
  }

  /** Without replaced hosts: the units are numbered 1, 2, 3 and so on, in the order in which they appear. */
  lemma RealAreNumberedInOrder(etld1: string -> string, names: seq<string>, i: nat)
    requires forall name :: name in names ==> Brought(name).None?
    requires i < |names| && RealHost(names[i]) && etld1(names[i]) !in Units(etld1, names[..i])
    ensures etld1(names[i]) in AllNoted(etld1, names).numbers
            && AllNoted(etld1, names).numbers[etld1(names[i])] == |Units(etld1, names[..i])| + 1
  {
    hide RealHost, Brought, Units, Noted, FilledUp, AllNoted;
    var before := names[..i];
    assert forall name :: name in before ==> name in names;
    RealFillUp(etld1, before);
    NotedFillsUp(etld1, AllNoted(etld1, before), Units(etld1, before), names[i]);
    assert names[..i + 1] == before + [names[i]];
    AllNotedAppend(etld1, before, names[i]);
    NumbersStay(etld1, names, i + 1);
  }

  // ---- inputs whose replaced hosts come first

  ghost predicate ReplacedFirst(names: seq<string>) {
    forall i, j :: 0 <= i < j < |names| && RealHost(names[i]) ==> Brought(names[j]).None?
  }

  /** The replaced hosts bring one number exactly when they are of one unit. */
  ghost predicate BringTheirs(etld1: string -> string, names: seq<string>) {
    forall a, b :: a in names && b in names && Brought(a).Some? && Brought(b).Some? ==>
      (Brought(a) == Brought(b) <==> etld1(a) == etld1(b))
  }

  /** For an input whose replaced hosts all come before its real ones, it is enough to look at the replaced hosts. */
  lemma ReplacedFirstIff(etld1: string -> string, names: seq<string>)
    requires ReplacedFirst(names)
    ensures Separates(etld1, AllNoted(etld1, names).numbers, names) <==> BringTheirs(etld1, names)
  {
    hide ReadHost, KeptName, AllNoted;
    SeparatesIff(etld1, names);
    if Separates(etld1, AllNoted(etld1, names).numbers, names) {
      var m := AllNoted(etld1, names).numbers;
      forall a | a in names && Brought(a).Some? ensures Carried(etld1, m, a) == Brought(a) {
      }
    }
    if BringTheirs(etld1, names) {
      forall i | 0 <= i < |names| ensures Fits(etld1, AllNoted(etld1, names[..i]).numbers, names[i]) {
        TheirsFit(etld1, names, i);
      }
    }
  }

  lemma TheirsFit(etld1: string -> string, names: seq<string>, i: nat)
    requires i < |names| && ReplacedFirst(names) && BringTheirs(etld1, names)
    ensures Fits(etld1, AllNoted(etld1, names[..i]).numbers, names[i])
  {
    hide ReadHost, KeptName, AllNoted;
    var m := AllNoted(etld1, names[..i]).numbers;
    forall u | u in m && Brought(names[i]).Some?
      ensures m[u] == Brought(names[i]).value <==> u == etld1(names[i])
    {
      var name := NumberedBy(etld1, names[..i], u);
      var j :| 0 <= j < i && names[..i][j] == name;
      assert name == names[j] && names[j] in names && names[i] in names;
    }
  }

  // ---- inputs that come out mixed

  lemma HostIsReplaced(n: nat, group: nat)
    ensures Brought(HostText(n, group)) == Some(group) && !RealHost(HostText(n, group))
  {
    hide HostText;
    HostRoundTrip(n, group);
    assert ReadHost("").None? && ReadHost("other").None?;
  }

  /** A real host of a new unit, while the tables hold the numbers from 1 up to their size. */
  lemma NextReal(etld1: string -> string, names: seq<string>, name: string, m: map<string, nat>, taken: set<nat>)
    requires RealHost(name) && AllNoted(etld1, names) == Tables(m, taken) && etld1(name) !in m && |m| + 1 !in taken
    ensures AllNoted(etld1, names + [name]) == Tables(m[etld1(name) := |m| + 1], taken + {|m| + 1})
  {
    hide RealHost, AllNoted;
    AllNotedAppend(etld1, names, name);
  }

  lemma TheseAreReal()
    ensures RealHost("a.com") && RealHost("b.com") && RealHost("x.g0002.example")
    ensures Brought("a.com").None? && Brought("b.com").None? && Brought("x.g0002.example").None?
  {
  }

  lemma NothingNoted(etld1: string -> string)
    ensures AllNoted(etld1, []) == BLANK
  {
  }

  /** Two hosts that come out with one group, and are of different units. */
  lemma Mixed(etld1: string -> string, numbers: map<string, nat>, names: seq<string>, a: string, b: string)
    requires a in names && b in names && etld1(a) != etld1(b)
    requires Carried(etld1, numbers, a).Some? && Carried(etld1, numbers, a) == Carried(etld1, numbers, b)
    ensures !Separates(etld1, numbers, names)
  {
    hide RealHost, Brought, Carried;
  }

  /** A real host takes the number that a replaced one of another unit brings later; the other order is all right. */
  lemma RealFirstMixes(etld1: string -> string)
    requires etld1("a.com") != etld1(HostText(1, 1))
    ensures var names := ["a.com", HostText(1, 1)]; !Separates(etld1, AllNoted(etld1, names).numbers, names)
    ensures var names := [HostText(1, 1), "a.com"]; Separates(etld1, AllNoted(etld1, names).numbers, names)
  {
    hide HostText, Separates, AllNoted, RealHost, Brought, Noted;
    var a, host := "a.com", HostText(1, 1);
    HostIsReplaced(1, 1);
    TheseAreReal();
    NothingNoted(etld1);
    NextReal(etld1, [], a, map[], {});
    AllNotedAppend(etld1, [a], host);
    assert [] + [a] == [a] && [a] + [host] == [a, host];
    NotedBrought(etld1, Tables(map[etld1(a) := 1], {1}), host);
    Mixed(etld1, AllNoted(etld1, [a, host]).numbers, [a, host], a, host);
    ReplacedFirstIff(etld1, [host, a]);
  }

  lemma NotedBrought(etld1: string -> string, t: Tables, name: string)
    requires !RealHost(name) && Brought(name).Some?
    ensures var m := Noted(etld1, t, name).numbers;
      m == if etld1(name) in t.numbers then t.numbers else t.numbers[etld1(name) := Brought(name).value]
  {
  }

  lemma UnitsNumbered(etld1: string -> string, x: string, b: string, host: string)
    requires RealHost(x) && RealHost(b) && !RealHost(host) && Brought(host) == Some(2)
    requires etld1(x) == etld1(host) != etld1(b)
    ensures AllNoted(etld1, [x, b, host]).numbers == map[etld1(x) := 1, etld1(b) := 2]
  {
    hide AllNoted, RealHost, Brought, Noted;
    NothingNoted(etld1);
    NextReal(etld1, [], x, map[], {});
    var one := map[etld1(x) := 1];
    assert [] + [x] == [x] && |one| == 1;
    NextReal(etld1, [x], b, one, {1});
    assert [x] + [b] == [x, b] && one[etld1(b) := 2] == map[etld1(x) := 1, etld1(b) := 2];
    AllNotedAppend(etld1, [x, b], host);
    assert [x, b] + [host] == [x, b, host];
    NotedBrought(etld1, AllNoted(etld1, [x, b]), host);
  }

  /**
   * Distinct numbers in the tables are not enough: a replaced host whose unit a real host had numbered keeps the number
   * it brought, here that of another unit, so that one unit comes out with two groups and two units with one.
   */
  lemma NumberedUnitMixes(etld1: string -> string)
    requires etld1("x.g0002.example") == etld1(HostText(1, 2)) != etld1("b.com")
    ensures var x, b, host := "x.g0002.example", "b.com", HostText(1, 2);
      var m := AllNoted(etld1, [x, b, host]).numbers;
      && Injective(m) && !Separates(etld1, m, [x, b, host])
      && Carried(etld1, m, x) == Some(1) && Carried(etld1, m, b) == Carried(etld1, m, host) == Some(2)
  {
    hide HostText, Separates, AllNoted, RealHost, Brought;
    var x, b, host := "x.g0002.example", "b.com", HostText(1, 2);
    HostIsReplaced(1, 2);
    TheseAreReal();
    UnitsNumbered(etld1, x, b, host);
    Mixed(etld1, AllNoted(etld1, [x, b, host]).numbers, [x, b, host], b, host);
  }
}
