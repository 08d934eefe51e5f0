/**
 * scripts/anonymize-snapshot.py on the values of fields: hosts, addresses and agents get numbered replacements, in
 * order of appearance, that no replacement already in the input has. Names are taken in lower case.
 */
module Anonymizer {
  import opened Names
  import opened Numbered
  import opened Grouping

  /** Where an address was seen first, which decides the range of its replacement. */
  datatype Place = Client | Addr

  /** An address; `V6Made` are the numbered ones of the documentation range, `V6Doc` its others. */
  datatype Ip =
    | V4(a: nat, b: nat, c: nat, d: nat)
    | V6(text: string)
    | V6Doc(text: string)
    | V6Made(place: Place, n: nat)

  /** In one of the ranges for documentation and tests, so already replaced. */
  predicate Doc(ip: Ip) {
    match ip
    case V4(a, b, c, _) =>
      (a == 198 && b == 51 && c == 100) || (a == 203 && b == 0 && c == 113) || (a == 192 && b == 0 && c == 2)
      || (a == 198 && (b == 18 || b == 19))
    case V6(_) => false
    case V6Doc(_) => true
    case V6Made(_, _) => true
  }

  /** How many blocks of 254 addresses each place has. */
  function Blocks(place: Place): nat {
    if place == Client then 257 else 258
  }

  /** The `n`-th replacement for IPv4: one block after the other, without the addresses 0 and 255. */
  function MadeV4(place: Place, n: nat): Ip
    requires 1 <= n <= 254 * Blocks(place)
  {
    var block, last := (n - 1) / 254, (n - 1) % 254 + 1;
    match place
    case Client => if block == 0 then V4(198, 51, 100, last) else V4(198, 18, block - 1, last)
    case Addr =>
      if block == 0 then V4(203, 0, 113, last)
      else if block == 1 then V4(192, 0, 2, last)
      else V4(198, 19, block - 2, last)
  }

  /** Replacements are documentation addresses, and different numbers or places give different ones. */
  lemma MadeV4Injective(p: Place, n: nat, q: Place, m: nat)
    requires 1 <= n <= 254 * Blocks(p) && 1 <= m <= 254 * Blocks(q)
    ensures Doc(MadeV4(p, n)) && (MadeV4(p, n) == MadeV4(q, m) <==> p == q && n == m)
  {
    assert n - 1 == (n - 1) / 254 * 254 + (n - 1) % 254;
    assert m - 1 == (m - 1) / 254 * 254 + (m - 1) % 254;
  }

  /** A documentation address other than a network's or a broadcast. */
  ghost predicate Usable(ip: Ip) {
    ip.V4? && Doc(ip) && ip.c <= 255 && 1 <= ip.d <= 254
  }

  ghost predicate IsMade(ip: Ip, place: Place, n: nat) {
    1 <= n <= 254 * Blocks(place) && ip == MadeV4(place, n)
  }

  lemma Numbering(block: nat, last: nat)
    requires 1 <= last <= 254
    ensures var n := 254 * block + last; (n - 1) / 254 == block && (n - 1) % 254 + 1 == last
  {
    assert 254 * block + last - 1 == 254 * block + (last - 1);
  }

  /** Every usable documentation address is a replacement of one place, at one number. */
  lemma UsableIff(ip: Ip)
    requires ip.V4?
    ensures Usable(ip) <==> exists place, n: nat :: IsMade(ip, place, n)
  {
    if place, n: nat :| IsMade(ip, place, n) {
      MadeV4Injective(place, n, place, n);
      assert (n - 1) / 254 < Blocks(place);
    }
    if Usable(ip) {
      var place := if (ip.b == 51 && ip.c == 100) || ip.b == 18 then Client else Addr;
      var block :=
        if ip.a == 198 && ip.b == 51 then 0 else if ip.a == 203 then 0 else if ip.a == 192 then 1
        else if ip.b == 18 then ip.c + 1 else ip.c + 2;
      Numbering(block, ip.d);
      assert IsMade(ip, place, 254 * block + ip.d);
    }
  }

  /** Where the series begin and where they go on: RFC 5737's ranges first, then those of RFC 2544. */
  lemma SeriesBegin()
    ensures MadeV4(Client, 1) == V4(198, 51, 100, 1) && MadeV4(Client, 254) == V4(198, 51, 100, 254)
    ensures MadeV4(Client, 255) == V4(198, 18, 0, 1) && MadeV4(Client, 65278) == V4(198, 18, 255, 254)
    ensures MadeV4(Addr, 1) == V4(203, 0, 113, 1) && MadeV4(Addr, 255) == V4(192, 0, 2, 1)
    ensures MadeV4(Addr, 509) == V4(198, 19, 0, 1) && MadeV4(Addr, 65532) == V4(198, 19, 255, 254)
    ensures 254 * Blocks(Client) == 65278 && 254 * Blocks(Addr) == 65532
  {
  }

  predicate RealAgent(ua: string) {
    ua != "" && ReadAgent(ua).None?
  }

  function HostNumber(s: string): int {
    var r := ReadHost(s);
    if r.Some? then r.value.0 else -1
  }

  function AgentNumber(s: string): int {
    var r := ReadAgent(s);
    if r.Some? then r.value else -1
  }

  function MadeNumber(ip: Ip): int {
    if ip.V6Made? then ip.n else -1
  }

  /** Each real host has a text of its own, in use, numbered within the group of its unit. */
  ghost predicate HostsOk(
    etld1: string -> string, hosts: map<string, string>, groups: map<string, nat>, used: set<string>)
  {
    && Injective(hosts)
    && (forall h :: h in hosts ==>
          RealHost(h) && hosts[h] in used && etld1(h) in groups && ReadHost(hosts[h]).Some?
          && ReadHost(hosts[h]).value.1 == Some(groups[etld1(h)]))
  }

  ghost predicate AgentsOk(agents: map<string, string>, used: set<string>) {
    && Injective(agents)
    && (forall a :: a in agents ==> RealAgent(a) && agents[a] in used && ReadAgent(agents[a]).Some?)
  }

  ghost predicate IpsOk(ips: map<Ip, Ip>, usedIps: set<Ip>) {
    && Injective(ips)
    && (forall i :: i in ips ==> !Doc(i) && ips[i] in usedIps && Doc(ips[i]) && (ips[i].V4? <==> i.V4?))
  }

  lemma UnitIsNumbered(
    etld1: string -> string, hosts: map<string, string>, groups: map<string, nat>, used: set<string>, name: string)
    requires HostsOk(etld1, hosts, groups, used) && name in hosts
    ensures etld1(name) in groups
  {
  }

  lemma HostsGrow(etld1: string -> string, hosts: map<string, string>, groups: map<string, nat>, used: set<string>,
                  groups': map<string, nat>, used': set<string>)
    requires HostsOk(etld1, hosts, groups, used) && used <= used'
    requires forall u :: u in groups ==> u in groups' && groups'[u] == groups[u]
    ensures HostsOk(etld1, hosts, groups', used')
  {
  }

  lemma HostsAdd(etld1: string -> string, hosts: map<string, string>, groups: map<string, nat>, used: set<string>,
                 h: string, r: string)
    requires HostsOk(etld1, hosts, groups, used) && RealHost(h) && h !in hosts && etld1(h) in groups
    requires r !in used && ReadHost(r).Some? && ReadHost(r).value.1 == Some(groups[etld1(h)])
    ensures HostsOk(etld1, hosts[h := r], groups, used + {r})
  {
    hide ReadHost;
  }

  lemma AgentsGrow(agents: map<string, string>, used: set<string>, used': set<string>)
    requires AgentsOk(agents, used) && used <= used'
    ensures AgentsOk(agents, used')
  {
  }

  lemma AgentsAdd(agents: map<string, string>, used: set<string>, a: string, r: string)
    requires AgentsOk(agents, used) && RealAgent(a) && a !in agents && r !in used && ReadAgent(r).Some?
    ensures AgentsOk(agents[a := r], used + {r})
  {
    hide ReadAgent;
  }

  lemma IpsGrow(ips: map<Ip, Ip>, usedIps: set<Ip>, usedIps': set<Ip>)
    requires IpsOk(ips, usedIps) && usedIps <= usedIps'
    ensures IpsOk(ips, usedIps')
  {
    hide Doc;
  }

  lemma IpsAdd(ips: map<Ip, Ip>, usedIps: set<Ip>, i: Ip, r: Ip)
    requires IpsOk(ips, usedIps) && !Doc(i) && i !in ips && r !in usedIps && Doc(r) && (r.V4? <==> i.V4?)
    ensures IpsOk(ips[i := r], usedIps + {r})
  {
  }

  /** The text of the first number from `n` on, in this group, that is not in use. */
  ghost predicate IsFreeHost(r: string, group: nat, n: nat, used: set<string>) {
    && r !in used
    && exists k :: n <= k && r == HostText(k, group) && forall m :: n <= m < k ==> HostText(m, group) in used
  }

  ghost predicate IsFreeAgent(r: string, n: nat, used: set<string>) {
    r !in used && exists k :: n <= k && r == AgentText(k) && forall m :: n <= m < k ==> AgentText(m) in used
  }

  /** The first free address from the `n`-th on of the place and the family. */
  ghost predicate IsFreeIp(r: Ip, v6: bool, place: Place, n: nat, used: set<Ip>)
    requires n >= 1
  {
    && r !in used
    && if v6 then exists k :: n <= k && r == V6Made(place, k) && forall m :: n <= m < k ==> V6Made(place, m) in used
       else exists k :: n <= k <= 254 * Blocks(place) && r == MadeV4(place, k)
                        && forall m :: n <= m < k ==> MadeV4(place, m) in used
  }

  lemma FreeHostReads(r: string, group: nat, n: nat, used: set<string>)
    requires IsFreeHost(r, group, n, used)
    ensures r !in used && ReadHost(r).Some? && ReadHost(r).value.1 == Some(group)
  {
    hide ReadHost, HostText;
    var k :| n <= k && r == HostText(k, group) && forall m :: n <= m < k ==> HostText(m, group) in used;
    HostRoundTrip(k, group);
  }

  lemma FreeAgentReads(r: string, n: nat, used: set<string>)
    requires IsFreeAgent(r, n, used)
    ensures r !in used && ReadAgent(r).Some?
  {
    hide ReadAgent, AgentText;
    var k :| n <= k && r == AgentText(k) && forall m :: n <= m < k ==> AgentText(m) in used;
    AgentRoundTrip(k);
  }

  lemma FreeIpIsMade(r: Ip, v6: bool, place: Place, n: nat, used: set<Ip>)
    requires n >= 1 && IsFreeIp(r, v6, place, n, used)
    ensures r !in used && Doc(r) && (r.V4? <==> !v6)
  {
    if !v6 {
      var k :| n <= k <= 254 * Blocks(place) && r == MadeV4(place, k)
               && forall m :: n <= m < k ==> MadeV4(place, m) in used;
      MadeV4Injective(place, k, place, k);
    }
  }

  lemma HostIsAdded(etld1: string -> string, hosts: map<string, string>, groups: map<string, nat>,
                    groups': map<string, nat>, agents: map<string, string>, used: set<string>,
                    h: string, r: string, n: nat)
    requires HostsOk(etld1, hosts, groups, used) && AgentsOk(agents, used) && RealHost(h) && h !in hosts
    requires forall u :: u in groups ==> u in groups' && groups'[u] == groups[u]
    requires etld1(h) in groups' && IsFreeHost(r, groups'[etld1(h)], n, used)
    ensures HostsOk(etld1, hosts[h := r], groups', used + {r}) && AgentsOk(agents, used + {r})
  {
    hide ReadHost, HostsOk, AgentsOk, IsFreeHost;
    FreeHostReads(r, groups'[etld1(h)], n, used);
    HostsGrow(etld1, hosts, groups, used, groups', used);
    HostsAdd(etld1, hosts, groups', used, h, r);
    AgentsGrow(agents, used, used + {r});
  }

  /** How many addresses of a place and a family have been asked for. */
  function Count(next: map<(Place, bool), nat>, key: (Place, bool)): nat {
    if key in next then next[key] else 0
  }

  class Anonymizer {
    const etld1: string -> string
    var hosts: map<string, string>
    var groups: map<string, nat>
    var usedGroups: set<nat>
    var ips: map<Ip, Ip>
    var agents: map<string, string>
    var used: set<string>
    var usedIps: set<Ip>
    var next: map<(Place, bool), nat>

    function GroupTables(): Tables
      reads this
    {
      Tables(groups, usedGroups)
    }

    ghost predicate Valid()
      reads this
    {
      && HostsOk(etld1, hosts, groups, used) && AllTaken(GroupTables())
      && AgentsOk(agents, used) && IpsOk(ips, usedIps)
    }

    constructor (etld1: string -> string)
      ensures Valid() && this.etld1 == etld1 && hosts == map[] && groups == map[] && ips == map[] && agents == map[]
      ensures used == {} && usedIps == {} && usedGroups == {}
    {
      this.etld1 := etld1;
      hosts, groups, usedGroups, ips, agents, used, usedIps, next := map[], map[], {}, map[], map[], {}, {}, map[];
    }

    /** The first number from `n` on whose text is free. The texts in use are finitely many, so there is one. */
    method TakeHost(group: nat, n: nat) returns (got: string)
      modifies this`used
      ensures IsFreeHost(got, group, n, old(used)) && used == old(used) + {got}
    {
      hide ReadHost, HostText;
      var i := n;
      while HostText(i, group) in used
        invariant used == old(used) && n <= i && forall m :: n <= m < i ==> HostText(m, group) in used
        decreases set s | s in used && HostNumber(s) >= i
      {
        HostRoundTrip(i, group);
        ghost var text := HostText(i, group);
        ghost var before := set s | s in used && HostNumber(s) >= i;
        assert text in before;
        i := i + 1;
        assert text !in set s | s in used && HostNumber(s) >= i;
      }
      got := HostText(i, group);
      used := used + {got};
    }

    /** The first number from `n` on whose text is free. */
    method TakeAgent(n: nat) returns (got: string)
      modifies this`used
      ensures IsFreeAgent(got, n, old(used)) && used == old(used) + {got}
    {
      hide ReadAgent, AgentText;
      var i := n;
      while AgentText(i) in used
        invariant used == old(used) && n <= i && forall m :: n <= m < i ==> AgentText(m) in used
        decreases set s | s in used && AgentNumber(s) >= i
      {
        AgentRoundTrip(i);
        ghost var text := AgentText(i);
        ghost var before := set s | s in used && AgentNumber(s) >= i;
        assert text in before;
        i := i + 1;
        assert text !in set s | s in used && AgentNumber(s) >= i;
      }
      got := AgentText(i);
      used := used + {got};
    }

    /** An address for the `n`-th of its place and family, or the next free one. None when the IPv4 ranges run out. */
    method TakeIp(v6: bool, place: Place, n: nat) returns (got: Option<Ip>)
      requires n >= 1
      modifies this`usedIps
      ensures got.Some? ==> IsFreeIp(got.value, v6, place, n, old(usedIps)) && usedIps == old(usedIps) + {got.value}
      ensures got.None? ==> usedIps == old(usedIps) && !v6
                            && forall m :: n <= m <= 254 * Blocks(place) ==> MadeV4(place, m) in usedIps
    {
      var i := n;
      if v6 {
        while V6Made(place, i) in usedIps
          invariant n <= i && usedIps == old(usedIps)
          invariant forall m :: n <= m < i ==> V6Made(place, m) in usedIps
          decreases set x | x in usedIps && MadeNumber(x) >= i
        {
          ghost var ip := V6Made(place, i);
          ghost var before := set x | x in usedIps && MadeNumber(x) >= i;
          assert ip in before;
          i := i + 1;
          assert ip !in set x | x in usedIps && MadeNumber(x) >= i;
        }
        usedIps := usedIps + {V6Made(place, i)};
        return Some(V6Made(place, i));
      }
      while i <= 254 * Blocks(place)
        invariant n <= i && usedIps == old(usedIps)
        invariant forall m :: n <= m < i && m <= 254 * Blocks(place) ==> MadeV4(place, m) in usedIps
      {
        if MadeV4(place, i) !in usedIps {
          usedIps := usedIps + {MadeV4(place, i)};
          return Some(MadeV4(place, i));
        }
        i := i + 1;
      }
      return None;
    }

    /** The number of a unit: the same each time, and for a new one the first that has not been taken. */
    method Group(name: string) returns (got: nat)
      requires AllTaken(GroupTables()) && RealHost(name)
      modifies this`groups, this`usedGroups
      ensures GroupTables() == Noted(etld1, old(GroupTables()), name)
      ensures AllTaken(GroupTables()) && etld1(name) in groups && got == groups[etld1(name)]
      ensures etld1(name) !in old(groups) ==>
                && |old(groups)| + 1 <= got && got !in old(usedGroups) && groups == old(groups)[etld1(name) := got]
                && forall m :: |old(groups)| + 1 <= m < got ==> m in old(usedGroups)
    {
      var unit := etld1(name);
      if unit in groups {
        got := groups[unit];
        return;
      }
      got := |groups| + 1;
      while got in usedGroups
        invariant |groups| + 1 <= got && forall m :: |groups| + 1 <= m < got ==> m in usedGroups
        decreases set g | g in usedGroups && g >= got
      {
        ghost var taken := got;
        ghost var before := set g | g in usedGroups && g >= got;
        assert taken in before;
        got := got + 1;
        assert taken !in set g | g in usedGroups && g >= got;
      }
      assert got == Free(|groups| + 1, usedGroups);
      groups := groups[unit := got];
      usedGroups := usedGroups + {got};
    }

    /** `host`: one bare host name. */
    method Host(name: string) returns (r: string)
      requires Valid()
      modifies this`hosts, this`groups, this`usedGroups, this`used
      ensures Valid() && old(used) <= used
      ensures !RealHost(name) ==> r == name && hosts == old(hosts)
      ensures RealHost(name) ==>
                && name in hosts && r == hosts[name] && hosts == old(hosts)[name := r]
                && (name in old(hosts) ==> hosts == old(hosts) && used == old(used))
                && (name !in old(hosts) ==>
                      && etld1(name) in groups && used == old(used) + {r}
                      && IsFreeHost(r, groups[etld1(name)], |old(hosts)| + 1, old(used)))
      ensures GroupTables() == Noted(etld1, old(GroupTables()), name)
    {
      hide ReadHost, HostText, HostsOk, AgentsOk, IpsOk, IsFreeHost;
      NotedDistinct(etld1, GroupTables(), name);
      r := name;
      if KeptName(name) {
        return;
      }
      var anon := ReadHost(name);
      if anon.Some? {
        used := used + {name};
        AgentsGrow(agents, old(used), used);
        if anon.value.1.Some? {
          if etld1(name) !in groups {
            groups := groups[etld1(name) := anon.value.1.value];
          }
          usedGroups := usedGroups + {anon.value.1.value};
        }
        HostsGrow(etld1, hosts, old(groups), old(used), groups, used);
        return;
      }
      if name in hosts {
        r := hosts[name];
        assert hosts[name := r] == hosts;
        UnitIsNumbered(etld1, hosts, groups, used, name);
        return;
      }
      r := NewHost(name);
    }

    /** A real host that is new: the number of its unit, and a text of its own. */
    method NewHost(name: string) returns (r: string)
      requires Valid() && RealHost(name) && name !in hosts
      modifies this`hosts, this`groups, this`usedGroups, this`used
      ensures Valid() && GroupTables() == Noted(etld1, old(GroupTables()), name)
      ensures hosts == old(hosts)[name := r] && used == old(used) + {r} && etld1(name) in groups
      ensures IsFreeHost(r, groups[etld1(name)], |old(hosts)| + 1, old(used))
    {
      hide ReadHost, HostsOk, AgentsOk, IpsOk, IsFreeHost, Injective;
      ghost var before := GroupTables();
      NotedDistinct(etld1, before, name);
      var g := Group(name);
      r := TakeHost(g, |hosts| + 1);
      HostIsAdded(etld1, hosts, before.numbers, groups, agents, old(used), name, r, |hosts| + 1);
      hosts := hosts[name := r];
    }

    /** `agent`: one `User-Agent`. */
    method Agent(ua: string) returns (r: string)
      requires Valid()
      modifies this`agents, this`used
      ensures Valid() && old(used) <= used
      ensures !RealAgent(ua) ==> r == ua && agents == old(agents)
      ensures RealAgent(ua) ==>
                && ua in agents && r == agents[ua] && agents == old(agents)[ua := r]
                && (ua in old(agents) ==> agents == old(agents) && used == old(used))
                && (ua !in old(agents) ==>
                      IsFreeAgent(r, |old(agents)| + 1, old(used)) && used == old(used) + {r})
    {
      hide ReadHost, ReadAgent, AgentText, HostsOk, AgentsOk, IpsOk, IsFreeAgent;
      r := ua;
      if !RealAgent(ua) {
        used := used + {ua};
        AgentsGrow(agents, old(used), used);
        HostsGrow(etld1, hosts, groups, old(used), groups, used);
        return;
      }
      if ua in agents {
        r := agents[ua];
        assert agents[ua := r] == agents;
        return;
      }
      r := TakeAgent(|agents| + 1);
      FreeAgentReads(r, |agents| + 1, old(used));
      AgentsAdd(agents, old(used), ua, r);
      HostsGrow(etld1, hosts, groups, old(used), groups, used);
      agents := agents[ua := r];
    }

    /** `ip`: one address. None when the replacements run out. */
    method Address(ip: Ip, place: Place) returns (r: Option<Ip>)
      requires Valid()
      modifies this`ips, this`usedIps, this`next
      ensures Valid() && old(usedIps) <= usedIps
      ensures Doc(ip) ==> r == Some(ip) && ips == old(ips)
      ensures !Doc(ip) && r.Some? ==>
                && ip in ips && r.value == ips[ip] && ips == old(ips)[ip := r.value]
                && (ip in old(ips) ==> ips == old(ips) && usedIps == old(usedIps))
                && (ip !in old(ips) ==> usedIps == old(usedIps) + {r.value})
      ensures !Doc(ip) && ip !in old(ips) ==>
                && next == old(next)[(place, !ip.V4?) := Count(old(next), (place, !ip.V4?)) + 1]
                && (r.Some? ==> IsFreeIp(r.value, !ip.V4?, place, Count(next, (place, !ip.V4?)), old(usedIps)))
      ensures r.None? ==>
                && ip !in ips && ips == old(ips) && usedIps == old(usedIps) && ip.V4?
                && forall m :: Count(next, (place, false)) <= m <= 254 * Blocks(place) ==> MadeV4(place, m) in usedIps
      ensures Doc(ip) || ip in old(ips) ==> next == old(next)
    {
      hide HostsOk, AgentsOk, MadeV4, Doc, IpsOk, IsFreeIp;
      if Doc(ip) {
        usedIps := usedIps + {ip};
        IpsGrow(ips, old(usedIps), usedIps);
        return Some(ip);
      }
      if ip in ips {
        assert ips[ip := ips[ip]] == ips;
        return Some(ips[ip]);
      }
      var key := (place, !ip.V4?);
      var n := Count(next, key) + 1;
      next := next[key := n];
      r := TakeIp(!ip.V4?, place, n);
      if r.Some? {
        FreeIpIsMade(r.value, !ip.V4?, place, n, old(usedIps));
        IpsAdd(ips, old(usedIps), ip, r.value);
        ips := ips[ip := r.value];
      }
    }
  }

  // ---- run

  datatype Field = HostField(name: string) | AgentField(ua: string) | IpField(ip: Ip, place: Place)

  /** Values that are left as they are, in whatever state. */
  predicate Settled(f: Field) {
    match f
    case HostField(name) => !RealHost(name)
    case AgentField(ua) => !RealAgent(ua)
    case IpField(ip, _) => Doc(ip)
  }

  /** What a field holds, wherever it is. */
  function Content(f: Field): Field {
    match f
    case IpField(ip, _) => IpField(ip, Client)
    case _ => f
  }

  /** A host for a host, an agent for an agent, and an address of the same family for an address, in the same place. */
  predicate SameKind(f: Field, x: Field) {
    match f
    case HostField(_) => x.HostField?
    case AgentField(_) => x.AgentField?
    case IpField(ip, place) => x.IpField? && x.place == place && (x.ip.V4? <==> ip.V4?)
  }

  /** What the tables of a finished run make of a field. */
  function Image(hosts: map<string, string>, agents: map<string, string>, ips: map<Ip, Ip>, f: Field): Field {
    match f
    case HostField(name) => HostField(if name in hosts then hosts[name] else name)
    case AgentField(ua) => AgentField(if ua in agents then agents[ua] else ua)
    case IpField(ip, place) => IpField(if ip in ips then ips[ip] else ip, place)
  }

  ghost predicate Known(hosts: map<string, string>, agents: map<string, string>, ips: map<Ip, Ip>, f: Field) {
    match f
    case HostField(name) => name in hosts <==> RealHost(name)
    case AgentField(ua) => ua in agents <==> RealAgent(ua)
    case IpField(ip, _) => ip in ips <==> !Doc(ip)
  }

  /** No replacement is one of the values the input had already. */
  ghost predicate Apart(hosts: map<string, string>, agents: map<string, string>, ips: map<Ip, Ip>, fields: seq<Field>) {
    && (forall h :: h in hosts ==> HostField(hosts[h]) !in fields)
    && (forall a :: a in agents ==> AgentField(agents[a]) !in fields)
    && (forall i, p :: i in ips ==> IpField(ips[i], p) !in fields)
  }

  /** The values of the input that are replacements already have been put in use. */
  ghost predicate Held(used: set<string>, usedIps: set<Ip>, fields: seq<Field>) {
    forall f :: f in fields && Settled(f) ==>
      match f
      case HostField(name) => KeptName(name) || name in used
      case AgentField(ua) => ua == "" || ua in used
      case IpField(ip, _) => ip in usedIps
  }

  /** Different contents have different images, and images are settled. */
  lemma ImagesAreApart(etld1: string -> string, hosts: map<string, string>, groups: map<string, nat>, used: set<string>,
                       agents: map<string, string>, ips: map<Ip, Ip>, usedIps: set<Ip>, fields: seq<Field>,
                       f: Field, g: Field)
    requires HostsOk(etld1, hosts, groups, used) && AgentsOk(agents, used) && IpsOk(ips, usedIps)
    requires Apart(hosts, agents, ips, fields) && f in fields && g in fields
    requires Known(hosts, agents, ips, f) && Known(hosts, agents, ips, g)
    ensures Settled(Image(hosts, agents, ips, f)) && (Settled(f) ==> Image(hosts, agents, ips, f) == f)
    ensures Content(Image(hosts, agents, ips, f)) == Content(Image(hosts, agents, ips, g)) <==> Content(f) == Content(g)
  {
    hide ReadHost, ReadAgent;
    ImageSettled(etld1, hosts, groups, used, agents, ips, usedIps, f);
    match f
    case HostField(name) =>
    case AgentField(ua) =>
    case IpField(ip, p) =>
      if g.IpField? && ip in ips && g.ip !in ips {
        assert IpField(ips[ip], g.place) !in fields;
      }
      if g.IpField? && ip !in ips && g.ip in ips {
        assert IpField(ips[g.ip], p) !in fields;
      }
  }

  lemma ImageSettled(etld1: string -> string, hosts: map<string, string>, groups: map<string, nat>, used: set<string>,
                     agents: map<string, string>, ips: map<Ip, Ip>, usedIps: set<Ip>, f: Field)
    requires HostsOk(etld1, hosts, groups, used) && AgentsOk(agents, used) && IpsOk(ips, usedIps)
    requires Known(hosts, agents, ips, f)
    ensures Settled(Image(hosts, agents, ips, f)) && (Settled(f) ==> Image(hosts, agents, ips, f) == f)
    ensures SameKind(f, Image(hosts, agents, ips, f))
  {
    hide ReadHost, ReadAgent;
  }

  /** `_reserve`: a value that is a replacement already is put in use. */
  method Reserve(t: Anonymizer, f: Field)
    requires t.Valid() && t.hosts == map[] && t.agents == map[] && t.ips == map[]
    modifies t`used, t`usedIps
    ensures t.Valid() && old(t.used) <= t.used && old(t.usedIps) <= t.usedIps && Held(t.used, t.usedIps, [f])
  {
    hide ReadHost, ReadAgent;
    match f {
      case HostField(name) =>
        if ReadHost(name).Some? {
          t.used := t.used + {name};
        }
      case AgentField(ua) =>
        if ReadAgent(ua).Some? {
          t.used := t.used + {ua};
        }
      case IpField(ip, _) =>
        if Doc(ip) {
          t.usedIps := t.usedIps + {ip};
        }
    }
  }

  /** The tables go on from `hosts`, `agents`, `ips` to those of `t`. */
  ghost predicate Extends<X, Y>(m: map<X, Y>, m': map<X, Y>) {
    forall x | x in m :: x in m' && m'[x] == m[x]
  }

  lemma KeptIsUnread(name: string)
    requires ReadHost(name).Some?
    ensures !KeptName(name)
  {
  }

  lemma ReadAgentIsNotEmpty(ua: string)
    requires ReadAgent(ua).Some?
    ensures ua != ""
  {
  }

  lemma ApartAddHost(hosts: map<string, string>, agents: map<string, string>, ips: map<Ip, Ip>, fields: seq<Field>,
                     used: set<string>, usedIps: set<Ip>, h: string, r: string)
    requires Apart(hosts, agents, ips, fields) && Held(used, usedIps, fields) && r !in used && ReadHost(r).Some?
    ensures Apart(hosts[h := r], agents, ips, fields)
  {
    hide ReadHost;
    KeptIsUnread(r);
    assert HostField(r) !in fields;
  }

  lemma ApartAddAgent(hosts: map<string, string>, agents: map<string, string>, ips: map<Ip, Ip>, fields: seq<Field>,
                      used: set<string>, usedIps: set<Ip>, a: string, r: string)
    requires Apart(hosts, agents, ips, fields) && Held(used, usedIps, fields) && r !in used && ReadAgent(r).Some?
    ensures Apart(hosts, agents[a := r], ips, fields)
  {
    hide ReadAgent;
    ReadAgentIsNotEmpty(r);
    assert AgentField(r) !in fields;
  }

  lemma ApartAddIp(hosts: map<string, string>, agents: map<string, string>, ips: map<Ip, Ip>, fields: seq<Field>,
                   used: set<string>, usedIps: set<Ip>, i: Ip, r: Ip)
    requires Apart(hosts, agents, ips, fields) && Held(used, usedIps, fields) && r !in usedIps && Doc(r)
    ensures Apart(hosts, agents, ips[i := r], fields)
  {
    hide Doc;
    forall p ensures IpField(r, p) !in fields {
      assert Settled(IpField(r, p));
    }
  }

  lemma HeldGrows(used: set<string>, usedIps: set<Ip>, used': set<string>, usedIps': set<Ip>, fields: seq<Field>)
    requires Held(used, usedIps, fields) && used <= used' && usedIps <= usedIps'
    ensures Held(used', usedIps', fields)
  {
    hide ReadHost, ReadAgent, Doc;
  }

  /** What a finished call for one field leaves behind. */
  twostate predicate Grown(t: Anonymizer)
    reads t
  {
    && Extends(old(t.hosts), t.hosts) && Extends(old(t.agents), t.agents) && Extends(old(t.ips), t.ips)
    && old(t.used) <= t.used && old(t.usedIps) <= t.usedIps
  }

  /** The values of the input that are held stay so, and no replacement is one of them. */
  ghost predicate Clear(t: Anonymizer, fields: seq<Field>)
    reads t
  {
    Held(t.used, t.usedIps, fields) && Apart(t.hosts, t.agents, t.ips, fields)
  }

  method HostValue(t: Anonymizer, name: string, ghost fields: seq<Field>) returns (r: string)
    requires t.Valid() && Clear(t, fields)
    modifies t`hosts, t`groups, t`usedGroups, t`used
    ensures t.Valid() && Clear(t, fields) && Grown(t)
    ensures Known(t.hosts, t.agents, t.ips, HostField(name))
    ensures HostField(r) == Image(t.hosts, t.agents, t.ips, HostField(name))
    ensures name in old(t.hosts) || !RealHost(name) ==> t.hosts == old(t.hosts)
    ensures t.GroupTables() == Noted(t.etld1, old(t.GroupTables()), name)
  {
    hide ReadHost, AgentsOk, IpsOk, Injective, Noted;
    r := t.Host(name);
    HeldGrows(old(t.used), t.usedIps, t.used, t.usedIps, fields);
    if RealHost(name) && name !in old(t.hosts) {
      ApartAddHost(old(t.hosts), t.agents, t.ips, fields, old(t.used), t.usedIps, name, r);
    }
  }

  method AgentValue(t: Anonymizer, ua: string, ghost fields: seq<Field>) returns (r: string)
    requires t.Valid() && Clear(t, fields)
    modifies t`agents, t`used
    ensures t.Valid() && Clear(t, fields) && Grown(t)
    ensures Known(t.hosts, t.agents, t.ips, AgentField(ua))
    ensures AgentField(r) == Image(t.hosts, t.agents, t.ips, AgentField(ua))
    ensures ua in old(t.agents) || !RealAgent(ua) ==> t.agents == old(t.agents)
  {
    hide ReadAgent, HostsOk, IpsOk;
    r := t.Agent(ua);
    HeldGrows(old(t.used), t.usedIps, t.used, t.usedIps, fields);
    if RealAgent(ua) && ua !in old(t.agents) {
      ApartAddAgent(t.hosts, old(t.agents), t.ips, fields, old(t.used), t.usedIps, ua, r);
    }
  }

  method IpValue(t: Anonymizer, ip: Ip, place: Place, ghost fields: seq<Field>) returns (r: Option<Ip>)
    requires t.Valid() && Clear(t, fields)
    modifies t`ips, t`usedIps, t`next
    ensures t.Valid() && Clear(t, fields) && Grown(t)
    ensures r.Some? ==> Known(t.hosts, t.agents, t.ips, IpField(ip, place))
                        && IpField(r.value, place) == Image(t.hosts, t.agents, t.ips, IpField(ip, place))
    ensures ip in old(t.ips) || Doc(ip) ==> r.Some? && t.ips == old(t.ips)
  {
    hide Doc, HostsOk, AgentsOk;
    r := t.Address(ip, place);
    HeldGrows(t.used, old(t.usedIps), t.used, t.usedIps, fields);
    if !Doc(ip) && r.Some? && ip !in old(t.ips) {
      ApartAddIp(t.hosts, t.agents, old(t.ips), fields, t.used, old(t.usedIps), ip, r.value);
    }
  }

  /** `_value` on a field: its replacement, the same each time. None when addresses run out. */
  method Value(t: Anonymizer, f: Field, ghost fields: seq<Field>) returns (r: Option<Field>)
    requires t.Valid() && Clear(t, fields)
    modifies t
    ensures t.Valid() && Clear(t, fields) && Grown(t)
    ensures r.Some? ==> Known(t.hosts, t.agents, t.ips, f) && r.value == Image(t.hosts, t.agents, t.ips, f)
    ensures Settled(f) ==> r.Some?
    ensures old(Known(t.hosts, t.agents, t.ips, f)) ==>
              r.Some? && t.hosts == old(t.hosts) && t.agents == old(t.agents) && t.ips == old(t.ips)
    ensures t.GroupTables() ==
            if f.HostField? then Noted(t.etld1, old(t.GroupTables()), f.name) else old(t.GroupTables())
  {
    hide ReadHost, ReadAgent, Doc, HostsOk, AgentsOk, IpsOk, Injective, Held, Apart, Noted;
    match f {
      case HostField(name) =>
        var n := HostValue(t, name, fields);
        r := Some(HostField(n));
      case AgentField(ua) =>
        var n := AgentValue(t, ua, fields);
        r := Some(AgentField(n));
      case IpField(ip, place) =>
        var n := IpValue(t, ip, place, fields);
        r := if n.Some? then Some(IpField(n.value, place)) else None;
    }
  }

  lemma HeldMore(used: set<string>, usedIps: set<Ip>, fields: seq<Field>, f: Field)
    requires Held(used, usedIps, fields) && Held(used, usedIps, [f])
    ensures Held(used, usedIps, fields + [f])
  {
    hide ReadHost, ReadAgent, Doc;
    assert f in [f];
  }

  method ReserveAll(t: Anonymizer, fields: seq<Field>)
    requires t.Valid() && t.hosts == map[] && t.agents == map[] && t.ips == map[]
    modifies t`used, t`usedIps
    ensures t.Valid() && Clear(t, fields)
  {
    hide ReadHost, ReadAgent, Doc, Anonymizer.Valid;
    assert Held(t.used, t.usedIps, fields[..0]);
    for i := 0 to |fields|
      invariant t.Valid() && Held(t.used, t.usedIps, fields[..i])
    {
      ghost var used, usedIps := t.used, t.usedIps;
      Reserve(t, fields[i]);
      HeldGrows(used, usedIps, t.used, t.usedIps, fields[..i]);
      HeldMore(t.used, t.usedIps, fields[..i], fields[i]);
      assert fields[..i + 1] == fields[..i] + [fields[i]];
    }
    assert fields[..|fields|] == fields;
  }

  lemma KnownGrows(hosts: map<string, string>, agents: map<string, string>, ips: map<Ip, Ip>,
                   hosts': map<string, string>, agents': map<string, string>, ips': map<Ip, Ip>, f: Field)
    requires Known(hosts, agents, ips, f) && Extends(hosts, hosts') && Extends(agents, agents') && Extends(ips, ips')
    requires (forall h :: h in hosts' ==> RealHost(h)) && (forall a :: a in agents' ==> RealAgent(a))
    requires forall i :: i in ips' ==> !Doc(i)
    ensures Known(hosts', agents', ips', f)
  {
    hide ReadHost, ReadAgent, Doc;
  }

  /** The hosts of an input, in order of appearance. */
  function HostsOf(fields: seq<Field>): seq<string> {
    if fields == [] then []
    else
      var last := fields[|fields| - 1];
      HostsOf(fields[..|fields| - 1]) + if last.HostField? then [last.name] else []
  }

  lemma HostsOfNext(fields: seq<Field>, i: nat)
    requires i < |fields|
    ensures HostsOf(fields[..i + 1]) == HostsOf(fields[..i]) + if fields[i].HostField? then [fields[i].name] else []
  {
    assert fields[..i + 1][..i] == fields[..i];
  }

  lemma {:induction false} HostsOfHas(fields: seq<Field>, f: Field)
    requires f in fields && f.HostField?
    ensures f.name in HostsOf(fields)
  {
    var last := |fields| - 1;
    if f != fields[last] {
      HostsOfHas(fields[..last], f);
    }
  }

  lemma NothingNoted(etld1: string -> string, fields: seq<Field>)
    ensures AllNoted(etld1, HostsOf(fields[..0])) == BLANK
  {
  }

  lemma NotedNext(etld1: string -> string, fields: seq<Field>, i: nat)
    requires i < |fields|
    ensures var t := AllNoted(etld1, HostsOf(fields[..i]));
      AllNoted(etld1, HostsOf(fields[..i + 1])) == if fields[i].HostField? then Noted(etld1, t, fields[i].name) else t
  {
    hide Noted, AllNoted;
    HostsOfNext(fields, i);
    if fields[i].HostField? {
      AllNotedAppend(etld1, HostsOf(fields[..i]), fields[i].name);
    } else {
      assert HostsOf(fields[..i + 1]) == HostsOf(fields[..i]);
    }
  }

  /** The second pass of `run`: the fields are given their replacements, all of them unless addresses run out. */
  method Learn(t: Anonymizer, fields: seq<Field>) returns (ok: bool, ghost n: nat)
    requires t.Valid() && Clear(t, fields) && t.GroupTables() == BLANK
    modifies t
    ensures t.Valid() && Clear(t, fields)
    ensures n <= |fields| && (ok ==> n == |fields|)
    ensures t.GroupTables() == AllNoted(t.etld1, HostsOf(fields[..n]))
    ensures ok ==> forall f :: f in fields ==> Known(t.hosts, t.agents, t.ips, f)
    ensures (forall f :: f in fields ==> Settled(f)) ==> ok
  {
    hide ReadHost, ReadAgent, Doc, Anonymizer.Valid, Clear, Known, Image, Settled, Noted, AllNoted, HostsOf, RealHost;
    NothingNoted(t.etld1, fields);
    for i := 0 to |fields|
      invariant t.Valid() && Clear(t, fields)
      invariant t.GroupTables() == AllNoted(t.etld1, HostsOf(fields[..i]))
      invariant forall j :: 0 <= j < i ==> Known(t.hosts, t.agents, t.ips, fields[j])
    {
      ghost var hosts, agents, ips := t.hosts, t.agents, t.ips;
      assert fields[i] in fields;
      NotedNext(t.etld1, fields, i);
      var r := Value(t, fields[i], fields);
      if r.None? {
        return false, i + 1;
      }
      ReplacedAreReal(t);
      forall j | 0 <= j < i ensures Known(t.hosts, t.agents, t.ips, fields[j]) {
        KnownGrows(hosts, agents, ips, t.hosts, t.agents, t.ips, fields[j]);
      }
    }
    assert fields[..|fields|] == fields;
    return true, |fields|;
  }

  lemma ReplacedAreReal(t: Anonymizer)
    requires t.Valid()
    ensures (forall h :: h in t.hosts ==> RealHost(h)) && (forall a :: a in t.agents ==> RealAgent(a))
    ensures forall i :: i in t.ips ==> !Doc(i)
  {
    hide ReadHost, ReadAgent, Doc;
  }

  /**
   * `run` over the fields of an input: hold what is replaced already, number what is not, rewrite. What comes out is
   * settled (a second run changes nothing), what was settled is unchanged, and two fields hold the same afterwards
   * exactly when they did before. Hosts come out with one group if and only if they are of one unit, exactly when every
   * host that came in replaced brings, of the numbers that units have by then, its own unit's and no other's. None when
   * the IPv4 ranges run out.
   */
  method Run(t: Anonymizer, fields: seq<Field>) returns (r: Option<seq<Field>>)
    requires t.Valid() && t.hosts == map[] && t.agents == map[] && t.ips == map[] && t.GroupTables() == BLANK
    modifies t
    ensures t.Valid()
    ensures r.Some? ==> |r.value| == |fields|
    ensures r.Some? ==> forall i :: 0 <= i < |fields| ==>
              && Settled(r.value[i]) && (Settled(fields[i]) ==> r.value[i] == fields[i])
              && SameKind(fields[i], r.value[i])
    ensures r.Some? ==> forall i, j :: 0 <= i < |fields| && 0 <= j < |fields| ==>
              (Content(r.value[i]) == Content(r.value[j]) <==> Content(fields[i]) == Content(fields[j]))
    ensures r.Some? ==> forall i :: 0 <= i < |fields| && fields[i].HostField? && RealHost(fields[i].name) ==>
              InGroup(t, fields[i].name, r.value[i])
    ensures r.Some? ==> t.GroupTables() == AllNoted(t.etld1, HostsOf(fields))
    ensures r.Some? ==> (KeepsGroups(t.etld1, fields, r.value) <==> AllFit(t.etld1, HostsOf(fields)))
    ensures r.Some? ==> (Injective(t.groups) <==> NoneClashes(t.etld1, HostsOf(fields)))
    ensures NoneClashes(t.etld1, HostsOf(fields)) ==> Injective(t.groups)
    ensures (forall f :: f in fields ==> Settled(f)) ==> r.Some?
  {
    hide ReadHost, ReadAgent, Doc, Anonymizer.Valid, Clear, Known, Image, Settled, Content, Noted, Injective, Clashes;
    hide GroupOf, Carried, KeepsGroups, Separates, AllFit, SameKind;
    ReserveAll(t, fields);
    var ok;
    ghost var n;
    ok, n := Learn(t, fields);
    DistinctSoFar(t.etld1, fields, n);
    if !ok {
      return None;
    }
    assert fields[..n] == fields;
    var out := [];
    for i := 0 to |fields|
      invariant t.Valid() && Clear(t, fields)
      invariant forall f :: f in fields ==> Known(t.hosts, t.agents, t.ips, f)
      invariant |out| == i && forall j :: 0 <= j < i ==> out[j] == Image(t.hosts, t.agents, t.ips, fields[j])
      invariant t.GroupTables() == AllNoted(t.etld1, HostsOf(fields))
    {
      assert fields[i] in fields;
      if fields[i].HostField? {
        HostsOfHas(fields, fields[i]);
        NotedAgain(t.etld1, HostsOf(fields), fields[i].name);
      }
      var v := Value(t, fields[i], fields);
      out := out + [v.value];
    }
    forall i, j | 0 <= i < |fields| && 0 <= j < |fields|
      ensures Settled(out[i]) && (Settled(fields[i]) ==> out[i] == fields[i]) && SameKind(fields[i], out[i])
      ensures Content(out[i]) == Content(out[j]) <==> Content(fields[i]) == Content(fields[j])
    {
      RunImages(t, fields, fields[i], fields[j]);
    }
    forall i | 0 <= i < |fields| && fields[i].HostField? && RealHost(fields[i].name)
      ensures InGroup(t, fields[i].name, out[i])
    {
      assert fields[i] in fields;
      ImageInGroup(t, fields[i].name);
    }
    forall i | 0 <= i < |fields| && fields[i].HostField?
      ensures GroupOf(out[i]) == Carried(t.etld1, t.groups, fields[i].name)
    {
      assert fields[i] in fields;
      ImageCarries(t, fields[i].name);
    }
    KeptIffSeparate(t.etld1, t.groups, fields, out);
    SeparatesIff(t.etld1, HostsOf(fields));
    return Some(out);
  }

  /** The group that a field has in it. */
  function GroupOf(f: Field): Option<nat> {
    if f.HostField? then Brought(f.name) else None
  }

  /** Hosts come out with one group if and only if they came in of one unit. */
  ghost predicate KeepsGroups(etld1: string -> string, fields: seq<Field>, out: seq<Field>)
    requires |out| == |fields|
  {
    forall i, j :: 0 <= i < |fields| && 0 <= j < |fields| && fields[i].HostField? && fields[j].HostField?
                   && GroupOf(out[i]).Some? && GroupOf(out[j]).Some? ==>
      (GroupOf(out[i]) == GroupOf(out[j]) <==> etld1(fields[i].name) == etld1(fields[j].name))
  }

  lemma ImageCarries(t: Anonymizer, name: string)
    requires t.Valid() && Known(t.hosts, t.agents, t.ips, HostField(name))
    ensures GroupOf(Image(t.hosts, t.agents, t.ips, HostField(name))) == Carried(t.etld1, t.groups, name)
  {
    hide ReadHost;
    if RealHost(name) {
      KeptIsUnread(t.hosts[name]);
    }
  }

  lemma {:induction false} HostsOfFrom(fields: seq<Field>, name: string) returns (i: nat)
    requires name in HostsOf(fields)
    ensures i < |fields| && fields[i] == HostField(name)
  {
    var last := |fields| - 1;
    if fields[last] == HostField(name) {
      i := last;
    } else {
      i := HostsOfFrom(fields[..last], name);
    }
  }

  lemma KeptIffSeparate(etld1: string -> string, numbers: map<string, nat>, fields: seq<Field>, out: seq<Field>)
    requires |out| == |fields|
    requires forall i :: 0 <= i < |fields| && fields[i].HostField? ==>
               GroupOf(out[i]) == Carried(etld1, numbers, fields[i].name)
    ensures KeepsGroups(etld1, fields, out) <==> Separates(etld1, numbers, HostsOf(fields))
  {
    hide GroupOf, Carried, HostsOf;
    var names := HostsOf(fields);
    if KeepsGroups(etld1, fields, out) {
      forall a, b | a in names && b in names
                    && Carried(etld1, numbers, a).Some? && Carried(etld1, numbers, b).Some?
        ensures Carried(etld1, numbers, a) == Carried(etld1, numbers, b) <==> etld1(a) == etld1(b)
      {
        var i := HostsOfFrom(fields, a);
        var j := HostsOfFrom(fields, b);
      }
    }
    forall i | 0 <= i < |fields| && fields[i].HostField? ensures fields[i].name in names {
      HostsOfHas(fields, fields[i]);
    }
  }

  lemma {:induction false} HostsOfPrefix(fields: seq<Field>, n: nat)
    requires n <= |fields|
    ensures HostsOf(fields[..n]) <= HostsOf(fields)
    decreases |fields| - n
  {
    if n < |fields| {
      HostsOfNext(fields, n);
      HostsOfPrefix(fields, n + 1);
    } else {
      assert fields[..n] == fields;
    }
  }

  /** After any number of fields: numbers are distinct exactly when none has clashed so far. */
  lemma DistinctSoFar(etld1: string -> string, fields: seq<Field>, n: nat)
    requires n <= |fields|
    ensures var names := HostsOf(fields[..n]);
      && (Injective(AllNoted(etld1, names).numbers) <==> NoneClashes(etld1, names))
      && (NoneClashes(etld1, HostsOf(fields)) ==> NoneClashes(etld1, names))
  {
    hide Injective, AllNoted, Clashes;
    var names, all := HostsOf(fields[..n]), HostsOf(fields);
    DistinctIff(etld1, names);
    HostsOfPrefix(fields, n);
    assert forall i :: 0 <= i < |names| ==> names[..i] == all[..i] && names[i] == all[i];
  }

  /** The replacement of a host carries the group of its unit. */
  ghost predicate InGroup(t: Anonymizer, name: string, f: Field)
    reads t
  {
    && f.HostField? && t.etld1(name) in t.groups && ReadHost(f.name).Some?
    && ReadHost(f.name).value.1 == Some(t.groups[t.etld1(name)])
  }

  lemma ImageInGroup(t: Anonymizer, name: string)
    requires t.Valid() && RealHost(name) && Known(t.hosts, t.agents, t.ips, HostField(name))
    ensures InGroup(t, name, Image(t.hosts, t.agents, t.ips, HostField(name)))
  {
    hide ReadHost;
  }

  lemma RunImages(t: Anonymizer, fields: seq<Field>, f: Field, g: Field)
    requires t.Valid() && Clear(t, fields) && f in fields && g in fields
    requires Known(t.hosts, t.agents, t.ips, f) && Known(t.hosts, t.agents, t.ips, g)
    ensures var x := Image(t.hosts, t.agents, t.ips, f); var y := Image(t.hosts, t.agents, t.ips, g);
      && Settled(x) && (Settled(f) ==> x == f) && (Content(x) == Content(y) <==> Content(f) == Content(g))
      && SameKind(f, x)
  {
    ImageSettled(t.etld1, t.hosts, t.groups, t.used, t.agents, t.ips, t.usedIps, f);
    hide HostsOk, SameKind, AgentsOk, IpsOk, Settled, Content, Image, Known, Apart;
    ImagesAreApart(t.etld1, t.hosts, t.groups, t.used, t.agents, t.ips, t.usedIps, fields, f, g);
  }

  /** Run twice, each time on new tables: the second run gives back what the first gave. */
  method RunTwice(etld1: string -> string, fields: seq<Field>)
    returns (once: Option<seq<Field>>, twice: Option<seq<Field>>)
    ensures once.Some? ==> twice == once
  {
    hide ReadHost, ReadAgent, Doc, Anonymizer.Valid, Settled, Content;
    hide KeepsGroups, AllFit, NoneClashes, Injective, InGroup, AllNoted, SameKind;
    var t := new Anonymizer(etld1);
    once := Run(t, fields);
    twice := None;
    if once.Some? {
      var u := new Anonymizer(etld1);
      assert forall i :: 0 <= i < |once.value| ==> Settled(once.value[i]);
      assert forall f :: f in once.value ==> Settled(f);
      twice := Run(u, once.value);
      assert twice.value == once.value;
    }
  }
}
