/** Names in string order, and Python's insertion-ordered dictionary from names to times. */
module Names {
  type Time = real
  type Name = string

  datatype Option<+T> = None | Some(value: T)

  /** `a <= b` in code-point lexicographic order, the order Python gives strings. */
  predicate NameLeq(a: Name, b: Name) {
    a == [] || (b != [] && (a[0] < b[0] || (a[0] == b[0] && NameLeq(a[1..], b[1..]))))
  }

  lemma {:induction false} NameLeqTotal(a: Name, b: Name)
    ensures NameLeq(a, b) || NameLeq(b, a)
  {
    if a != [] && b != [] {
      NameLeqTotal(a[1..], b[1..]);
    }
  }

  /** The order of Python's texts: one begins the other, or has the smaller letter where they first differ. */
  lemma {:induction false} NameLeqIff(a: Name, b: Name)
    ensures NameLeq(a, b) <==>
            a <= b || exists i :: 0 <= i < |a| && i < |b| && a[..i] == b[..i] && a[i] < b[i]
  {
    if a != [] && b != [] && a[0] == b[0] {
      NameLeqIff(a[1..], b[1..]);
      if i :| 0 <= i < |a| && i < |b| && a[..i] == b[..i] && a[i] < b[i] {
        assert i > 0 && a[1..][..i - 1] == a[..i][1..] && b[1..][..i - 1] == b[..i][1..];
        assert a[1..][i - 1] < b[1..][i - 1];
      }
      if i :| 0 <= i < |a| - 1 && i < |b| - 1 && a[1..][..i] == b[1..][..i] && a[1..][i] < b[1..][i] {
        assert a[..i + 1] == [a[0]] + a[1..][..i] && b[..i + 1] == [b[0]] + b[1..][..i];
        assert a[i + 1] < b[i + 1];
      }
    } else if a != [] && b != [] {
      assert a[0] < b[0] ==> a[..0] == b[..0] && a[0] < b[0];
      assert forall i :: 0 < i < |a| && i < |b| && a[..i] == b[..i] ==> a[..i][0] == b[..i][0];
    }
  }

  lemma {:induction false} NameLeqTransitive(a: Name, b: Name, c: Name)
    requires NameLeq(a, b) && NameLeq(b, c)
    ensures NameLeq(a, c)
  {
    if a != [] && a[0] == b[0] && b[0] == c[0] {
      NameLeqTransitive(a[1..], b[1..], c[1..]);
    }
  }

  lemma {:induction false} NameLeqAntisymmetric(a: Name, b: Name)
    requires NameLeq(a, b) && NameLeq(b, a)
    ensures a == b
  {
    if a != [] {
      NameLeqAntisymmetric(a[1..], b[1..]);
      assert a == [a[0]] + a[1..] && b == [b[0]] + b[1..];
    }
  }
}

module OrderedDict {
  import opened Names

  /** `due` is the mapping, `keys` its keys in the order Python iterates them. */
  datatype Dict = Dict(due: map<Name, Time>, keys: seq<Name>)

  const EMPTY := Dict(map[], [])

  ghost predicate NoDup<T(!new)>(keys: seq<T>) {
    forall i, j :: 0 <= i < j < |keys| ==> keys[i] != keys[j]
  }

  ghost predicate Valid(d: Dict) {
    && NoDup(d.keys)
    && (forall n :: n in d.keys <==> n in d.due)
  }

  function Get(d: Dict, n: Name): Time {
    if n in d.due then d.due[n] else 0.0
  }

  function Without(keys: seq<Name>, n: Name): seq<Name> {
    if keys == [] then [] else if keys[0] == n then keys[1..] else [keys[0]] + Without(keys[1..], n)
  }

  /** `d[n] = at`: an existing key keeps its place, a new one goes last. */
  function Set(d: Dict, n: Name, at: Time): Dict {
    Dict(d.due[n := at], if n in d.due then d.keys else d.keys + [n])
  }

  /** `d.pop(n, None)`. */
  function Del(d: Dict, n: Name): Dict {
    Dict(d.due - {n}, Without(d.keys, n))
  }

  lemma {:induction false} WithoutElements(keys: seq<Name>, n: Name)
    requires NoDup(keys)
    ensures NoDup(Without(keys, n))
    ensures forall m :: m in Without(keys, n) <==> m in keys && m != n
    ensures |Without(keys, n)| == |keys| - if n in keys then 1 else 0
    ensures n !in keys ==> Without(keys, n) == keys
  {
    if keys != [] {
      assert keys == [keys[0]] + keys[1..];
      var rest := Without(keys[1..], n);
      WithoutElements(keys[1..], n);
      assert keys[0] !in keys[1..];
      assert forall j :: 0 <= j < |rest| ==> rest[j] in rest;
    }
  }

  lemma DelValid(d: Dict, n: Name)
    requires Valid(d)
    ensures Valid(Del(d, n))
    ensures |Del(d, n).keys| == |d.keys| - if n in d.due then 1 else 0
    ensures n !in d.due ==> Del(d, n) == d
    ensures forall m :: m in Del(d, n).due <==> m in d.due && m != n
    ensures forall m :: m in Del(d, n).due ==> Del(d, n).due[m] == d.due[m]
  {
    WithoutElements(d.keys, n);
    if n !in d.due {
      assert d.due - {n} == d.due;
    }
  }

  lemma SetNewValid(d: Dict, n: Name, at: Time)
    requires Valid(d) && n !in d.due
    ensures Valid(Set(d, n, at)) && |Set(d, n, at).keys| == |d.keys| + 1
  {
    assert n !in d.keys;
    var r := Set(d, n, at);
    assert r.keys == d.keys + [n];
  }

  lemma RequeueDues(d: Dict, n: Name, at: Time)
    requires Valid(d)
    ensures Set(Del(d, n), n, at).due == d.due[n := at]
  {
    DelValid(d, n);
  }

  /** What the keys of a queue have earned by `now`: each has run `now - (due - k)` of its period `k`. */
  function Credit(keys: seq<Name>, due: map<Name, Time>, k: Time, now: Time): Time {
    if keys == [] then 0.0
    else Credit(keys[1..], due, k, now) + (now - ((if keys[0] in due then due[keys[0]] else 0.0) - k))
  }

  function QueueCredit(d: Dict, k: Time, now: Time): Time {
    Credit(d.keys, d.due, k, now)
  }

  lemma {:induction false} CreditFrame(keys: seq<Name>, due: map<Name, Time>, due': map<Name, Time>, k: Time, now: Time)
    requires forall n :: n in keys ==> n in due && n in due' && due[n] == due'[n]
    ensures Credit(keys, due, k, now) == Credit(keys, due', k, now)
  {
    if keys != [] {
      assert keys[0] in keys;
      CreditFrame(keys[1..], due, due', k, now);
    }
  }

  lemma {:induction false} CreditAppend(keys: seq<Name>, n: Name, due: map<Name, Time>, k: Time, now: Time)
    requires n in due
    ensures Credit(keys + [n], due, k, now) == Credit(keys, due, k, now) + (now - (due[n] - k))
  {
    if keys == [] {
      assert keys + [n] == [n] && [n][1..] == [];
    } else {
      assert (keys + [n])[1..] == keys[1..] + [n];
      CreditAppend(keys[1..], n, due, k, now);
    }
  }

  lemma {:induction false} CreditWithout(keys: seq<Name>, n: Name, due: map<Name, Time>, k: Time, now: Time)
    requires n in keys && n in due
    ensures Credit(Without(keys, n), due, k, now) == Credit(keys, due, k, now) - (now - (due[n] - k))
  {
    if keys[0] != n {
      CreditWithout(keys[1..], n, due, k, now);
      assert ([keys[0]] + Without(keys[1..], n))[1..] == Without(keys[1..], n);
    }
  }

  lemma CreditDel(d: Dict, n: Name, k: Time, now: Time)
    requires Valid(d) && n in d.due
    ensures QueueCredit(Del(d, n), k, now) == QueueCredit(d, k, now) - (now - (d.due[n] - k))
  {
    DelValid(d, n);
    CreditWithout(d.keys, n, d.due, k, now);
    CreditFrame(Without(d.keys, n), d.due, d.due - {n}, k, now);
  }

  lemma CreditSetNew(d: Dict, n: Name, at: Time, k: Time, now: Time)
    requires Valid(d) && n !in d.due
    ensures QueueCredit(Set(d, n, at), k, now) == QueueCredit(d, k, now) + (now - (at - k))
  {
    CreditAppend(d.keys, n, d.due[n := at], k, now);
    CreditFrame(d.keys, d.due, d.due[n := at], k, now);
  }

  /** `m` names queued for `t` seconds. */
  function Area(m: nat, t: Time): Time {
    (m as real) * t
  }

  lemma AreaAdd(m: nat, t: Time, u: Time)
    ensures Area(m, t) + Area(m, u) == Area(m, t + u)
  {
  }

  lemma AreaGrows(len: nat, max: nat, t: Time)
    requires len <= max && 0.0 <= t
    ensures 0.0 <= Area(len, t) <= Area(max, t)
  {
  }

  lemma AreaNow(m: nat, t: Time)
    requires t == 0.0 || m == 0
    ensures Area(m, t) == 0.0
  {
  }

  lemma AreaOneMore(m: nat, t: Time)
    ensures Area(m + 1, t) == Area(m, t) + t
  {
  }

  lemma {:induction false} CreditLater(keys: seq<Name>, due: map<Name, Time>, k: Time, t: Time, now: Time)
    ensures Credit(keys, due, k, now) == Credit(keys, due, k, t) + Area(|keys|, now - t)
  {
    hide Area;
    if keys == [] {
      AreaNow(0, now - t);
    } else {
      CreditLater(keys[1..], due, k, t, now);
      AreaOneMore(|keys[1..]|, now - t);
    }
  }

  lemma {:induction false} CreditBounds(keys: seq<Name>, due: map<Name, Time>, k: Time, now: Time)
    requires forall n :: n in keys ==> n in due && now <= due[n] <= now + k
    ensures 0.0 <= Credit(keys, due, k, now) <= Area(|keys|, k)
  {
    hide Area;
    if keys == [] {
      AreaNow(0, k);
    } else {
      assert keys[0] in keys;
      CreditBounds(keys[1..], due, k, now);
      AreaOneMore(|keys[1..]|, k);
    }
  }
}
