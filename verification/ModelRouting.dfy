/**
 * platform/okf/generate_stack_config.py, model_routing: the corp routing policy reordered by the agents'
 * preferred model roles, with their forbidden roles as exclusions.
 */
module ModelRouting {
  import opened Util

  /** One row of the model catalog. */
  datatype Model = Model(name: string, role: Option<string>, isLocal: bool, eligibleFor: set<string>)

  /** One `preferences:` entry; `other` stands for every key the generator does not read. */
  datatype Entry = Entry(agent: string, task: string, prefer: Option<seq<string>>, preferred: Option<seq<string>>,
                         fallback: Option<seq<string>>, strict: bool, exclude: Option<seq<string>>,
                         other: map<string, string>)

  /** One (caller, task) pair with the roles it prefers and the union of the roles it forbids. */
  datatype Caller = Caller(name: string, task: string, roles: seq<string>, forbidden: set<string>)

  type Key = (string, string)

  function KeyOf(e: Entry): Key { (e.agent, e.task) }

  function OrEmpty(o: Option<seq<string>>): seq<string> { match o case None => [] case Some(s) => s }

  /** The ordered names of an entry (ADR-0419). */
  function PreferenceNames(e: Entry): seq<string> {
    if e.preferred.Some? || e.fallback.Some? then OrEmpty(e.preferred) + OrEmpty(e.fallback) else OrEmpty(e.prefer)
  }

  /** name -> role; a later row of the same name wins, a row without a role gives none, one without a name counts
      for nothing. */
  function RoleOf(catalog: seq<Model>): (r: map<string, string>)
    ensures "" !in r
  {
    if catalog == [] then map[]
    else
      var m, before := catalog[|catalog| - 1], RoleOf(catalog[..|catalog| - 1]);
      if m.name == "" then before
      else match m.role case None => before - {m.name} case Some(r) => before[m.name := r]
  }

  /** The names that are not empty. */
  function NonEmpty(names: seq<string>): seq<string> {
    if names == [] then [] else (if names[0] == "" then [] else [names[0]]) + NonEmpty(names[1..])
  }

  function WithRole(roleOf: map<string, string>, names: seq<string>, r: string): seq<string> {
    if names == [] then []
    else
      (if names[0] in roleOf && roleOf[names[0]] == r then [names[0]] else []) + WithRole(roleOf, names[1..], r)
  }

  function Front(roleOf: map<string, string>, roles: seq<string>, names: seq<string>): seq<string> {
    if roles == [] then [] else WithRole(roleOf, names, roles[0]) + Front(roleOf, roles[1..], names)
  }

  function Without(names: seq<string>, gone: seq<string>): seq<string> {
    if names == [] then []
    else (if names[0] in gone then [] else [names[0]]) + Without(names[1..], gone)
  }

  /** Preferred roles first, in role order; the others follow in corp order. */
  function Order(roleOf: map<string, string>, roles: seq<string>, names: seq<string>): seq<string> {
    var front := Front(roleOf, roles, names);
    front + Without(names, front)
  }

  function Excluded(catalog: seq<Model>, forbidden: set<string>): seq<string> {
    if catalog == [] then []
    else
      (if catalog[0].role.Some? && catalog[0].role.value in forbidden then [catalog[0].name] else [])
      + Excluded(catalog[1..], forbidden)
  }

  function NamesWithRole(catalog: seq<Model>, r: string): seq<string> {
    if catalog == [] then []
    else (if catalog[0].role == Some(r) then [catalog[0].name] else []) + NamesWithRole(catalog[1..], r)
  }

  function FromRoles(catalog: seq<Model>, roles: seq<string>): seq<string> {
    if roles == [] then [] else NamesWithRole(catalog, roles[0]) + FromRoles(catalog, roles[1..])
  }

  function WithExclude(e: Entry, exclude: seq<string>): Entry {
    if exclude == [] then e else e.(exclude := Some(exclude))
  }

  /** A corp entry as one caller's roles leave it. */
  function Adjust(e: Entry, c: Caller, catalog: seq<Model>): Entry {
    var names := PreferenceNames(e);
    var order := Order(RoleOf(catalog), c.roles, names);
    WithExclude(if order == names then e else e.(prefer := Some(order), preferred := None, fallback := None),
                Excluded(catalog, c.forbidden))
  }

  /** The entry of a caller the corp policy does not mention. */
  function Fresh(c: Caller, catalog: seq<Model>): Entry {
    var prefer := FromRoles(catalog, c.roles);
    WithExclude(Entry(c.name, c.task, if prefer == [] then None else Some(prefer), None, None, false, None, map[]),
                Excluded(catalog, c.forbidden))
  }

  /** The entry a key selects: the last one that carries it. */
  function IndexOf(entries: seq<Entry>, k: Key): (r: Option<nat>)
    ensures r.Some? ==> r.value < |entries| && KeyOf(entries[r.value]) == k
    ensures r.None? ==> forall i | 0 <= i < |entries| :: KeyOf(entries[i]) != k
  {
    if entries == [] then None
    else
      var n := |entries| - 1;
      if KeyOf(entries[n]) == k then Some(n) else IndexOf(entries[..n], k)
  }

  // ---------------------------------------------------------------- the loop and what it computes

  datatype Routing = Routing(entries: seq<Entry>, added: seq<Entry>)

  /** Callers handled in order, from the last one back. */
  function Route(corp: seq<Entry>, catalog: seq<Model>, callers: seq<Caller>): (r: Routing)
    ensures |r.entries| == |corp| && forall i | 0 <= i < |corp| :: KeyOf(r.entries[i]) == KeyOf(corp[i])
  {
    if callers == [] then Routing(corp, [])
    else
      var c, before := callers[|callers| - 1], Route(corp, catalog, callers[..|callers| - 1]);
      match IndexOf(corp, (c.name, c.task))
      case Some(i) => before.(entries := before.entries[i := Adjust(before.entries[i], c, catalog)])
      case None =>
        if c.roles == [] && Excluded(catalog, c.forbidden) == [] then before
        else before.(added := before.added + [Fresh(c, catalog)])
  }

  function Policy(corp: seq<Entry>, catalog: seq<Model>, callers: seq<Caller>): seq<Entry> {
    var r := Route(corp, catalog, callers);
    r.entries + r.added
  }

  method Generate(corp: seq<Entry>, catalog: seq<Model>, callers: seq<Caller>) returns (preferences: seq<Entry>)
    ensures preferences == Policy(corp, catalog, callers)
  {
    var roleOf := RoleOf(catalog);
    var index := BuildIndex(corp);
    var entries, added := corp, [];
    for k := 0 to |callers|
      invariant Route(corp, catalog, callers[..k]) == Routing(entries, added)
    {
      var c := callers[k];
      assert callers[..k + 1][..k] == callers[..k];
      var exclude := Excluded(catalog, c.forbidden);
      if (c.name, c.task) in index {
        var i := index[(c.name, c.task)];
        var entry := entries[i];
        var names := PreferenceNames(entry);
        var front := Front(roleOf, c.roles, names);
        var order := front + Without(names, front);
        if order != names {
          entry := entry.(prefer := Some(order), preferred := None, fallback := None);
        }
        if exclude != [] {
          entry := entry.(exclude := Some(exclude));
        }
        entries := entries[i := entry];
      } else if c.roles != [] || exclude != [] {
        var entry := Entry(c.name, c.task, None, None, None, false, None, map[]);
        var prefer := FromRoles(catalog, c.roles);
        if prefer != [] {
          entry := entry.(prefer := Some(prefer));
        }
        if exclude != [] {
          entry := entry.(exclude := Some(exclude));
        }
        added := added + [entry];
      }
    }
    assert callers[..|callers|] == callers;
    preferences := entries + added;
  }

  method BuildIndex(corp: seq<Entry>) returns (index: map<Key, nat>)
    ensures forall k :: k in index <==> IndexOf(corp, k).Some?
    ensures forall k | k in index :: IndexOf(corp, k) == Some(index[k])
  {
    index := map[];
    for n := 0 to |corp|
      invariant forall k :: k in index <==> IndexOf(corp[..n], k).Some?
      invariant forall k | k in index :: IndexOf(corp[..n], k) == Some(index[k])
    {
      assert corp[..n + 1][..n] == corp[..n];
      index := index[KeyOf(corp[n]) := n];
    }
    assert corp[..|corp|] == corp;
  }

  // ---------------------------------------------------------------- the reorder

  /** The position of a name's role among the preferred ones; names of other roles come last. */
  function Rank(roleOf: map<string, string>, roles: seq<string>, name: string): (k: nat)
    ensures k <= |roles|
    ensures k < |roles| <==> name in roleOf && roleOf[name] in roles
    ensures k < |roles| ==> roles[k] == roleOf[name]
  {
    if roles == [] then 0
    else if name in roleOf && roleOf[name] == roles[0] then 0
    else 1 + Rank(roleOf, roles[1..], name)
  }

  function OfRank(roleOf: map<string, string>, roles: seq<string>, k: nat, names: seq<string>): seq<string> {
    if names == [] then []
    else (if Rank(roleOf, roles, names[0]) == k then [names[0]] else []) + OfRank(roleOf, roles, k, names[1..])
  }

  function Occurrences(roles: seq<string>, r: string): nat {
    if roles == [] then 0 else (if roles[0] == r then 1 else 0) + Occurrences(roles[1..], r)
  }

  /** No role that one of the names has is listed twice. */
  ghost predicate Harmless(roleOf: map<string, string>, roles: seq<string>, names: seq<string>) {
    forall n | n in names && n in roleOf :: Occurrences(roles, roleOf[n]) <= 1
  }

  lemma {:induction false} OccursIff(roles: seq<string>, r: string)
    ensures Occurrences(roles, r) > 0 <==> r in roles
  {
    if roles != [] { OccursIff(roles[1..], r); }
  }

  /** A role that is listed once gives its names one rank. */
  lemma {:induction false} OneRank(roleOf: map<string, string>, roles: seq<string>, n: string, k: nat)
    requires k < |roles| && n in roleOf && roles[k] == roleOf[n] && Occurrences(roles, roleOf[n]) <= 1
    ensures Rank(roleOf, roles, n) == k
  {
    OccursIff(roles[1..], roleOf[n]);
    if k > 0 {
      assert roles[1..][k - 1] == roles[k];
      OneRank(roleOf, roles[1..], n, k - 1);
    }
  }

  lemma {:induction false} WithRoleMembers(roleOf: map<string, string>, names: seq<string>, r: string, n: string)
    ensures n in WithRole(roleOf, names, r) <==> n in names && n in roleOf && roleOf[n] == r
  {
    if names != [] { WithRoleMembers(roleOf, names[1..], r, n); }
  }

  lemma {:induction false} FrontMembers(roleOf: map<string, string>, roles: seq<string>, names: seq<string>, n: string)
    ensures n in Front(roleOf, roles, names) <==> n in names && n in roleOf && roleOf[n] in roles
  {
    if roles != [] {
      WithRoleMembers(roleOf, names, roles[0], n);
      FrontMembers(roleOf, roles[1..], names, n);
    }
  }

  lemma {:induction false} WithoutMembers(names: seq<string>, gone: seq<string>, n: string)
    ensures n in Without(names, gone) <==> n in names && n !in gone
  {
    if names != [] { WithoutMembers(names[1..], gone, n); }
  }

  /** No name is added or lost, whatever the roles. */
  lemma OrderKeepsNames(roleOf: map<string, string>, roles: seq<string>, names: seq<string>, n: string)
    ensures n in Order(roleOf, roles, names) <==> n in names
  {
    var front := Front(roleOf, roles, names);
    FrontMembers(roleOf, roles, names, n);
    WithoutMembers(names, front, n);
  }

  lemma {:induction false} OfRankConcat(roleOf: map<string, string>, roles: seq<string>, k: nat, a: seq<string>,
                                        b: seq<string>)
    ensures OfRank(roleOf, roles, k, a + b) == OfRank(roleOf, roles, k, a) + OfRank(roleOf, roles, k, b)
  {
    if a == [] {
      assert a + b == b;
    } else {
      assert (a + b)[1..] == a[1..] + b;
      OfRankConcat(roleOf, roles, k, a[1..], b);
    }
  }

  lemma {:induction false} OfRankNone(roleOf: map<string, string>, roles: seq<string>, k: nat, names: seq<string>)
    requires forall n | n in names :: Rank(roleOf, roles, n) != k
    ensures OfRank(roleOf, roles, k, names) == []
  {
    if names != [] { OfRankNone(roleOf, roles, k, names[1..]); }
  }

  lemma {:induction false} OfRankAll(roleOf: map<string, string>, roles: seq<string>, k: nat, names: seq<string>)
    requires forall n | n in names :: Rank(roleOf, roles, n) == k
    ensures OfRank(roleOf, roles, k, names) == names
  {
    if names != [] { OfRankAll(roleOf, roles, k, names[1..]); }
  }

  lemma {:induction false} OfRankIsWithRole(roleOf: map<string, string>, roles: seq<string>, k: nat, names: seq<string>)
    requires k < |roles| && Harmless(roleOf, roles, names)
    ensures OfRank(roleOf, roles, k, names) == WithRole(roleOf, names, roles[k])
  {
    if names != [] {
      if names[0] in roleOf && roleOf[names[0]] == roles[k] { OneRank(roleOf, roles, names[0], k); }
      OfRankIsWithRole(roleOf, roles, k, names[1..]);
    }
  }

  lemma {:induction false} OfRankIsWithout(roleOf: map<string, string>, roles: seq<string>, names: seq<string>,
                                           gone: seq<string>)
    requires forall n | n in names :: n in gone <==> n in roleOf && roleOf[n] in roles
    ensures OfRank(roleOf, roles, |roles|, names) == Without(names, gone)
  {
    if names != [] { OfRankIsWithout(roleOf, roles, names[1..], gone); }
  }

  lemma GroupRank(roleOf: map<string, string>, roles: seq<string>, from: nat, names: seq<string>)
    requires from < |roles| && Harmless(roleOf, roles, names)
    ensures forall n | n in WithRole(roleOf, names, roles[from]) :: Rank(roleOf, roles, n) == from
  {
    forall n | n in WithRole(roleOf, names, roles[from]) ensures Rank(roleOf, roles, n) == from {
      WithRoleMembers(roleOf, names, roles[from], n);
      OneRank(roleOf, roles, n, from);
    }
  }

  lemma GroupOfRank(roleOf: map<string, string>, roles: seq<string>, from: nat, k: nat, names: seq<string>)
    requires from < |roles| && Harmless(roleOf, roles, names)
    ensures OfRank(roleOf, roles, k, WithRole(roleOf, names, roles[from]))
         == if k == from then WithRole(roleOf, names, roles[from]) else []
  {
    var group := WithRole(roleOf, names, roles[from]);
    GroupRank(roleOf, roles, from, names);
    if k == from { OfRankAll(roleOf, roles, k, group); } else { OfRankNone(roleOf, roles, k, group); }
  }

  lemma FrontUnfolds(roleOf: map<string, string>, roles: seq<string>, from: nat, names: seq<string>)
    requires from < |roles|
    ensures Front(roleOf, roles[from..], names)
         == WithRole(roleOf, names, roles[from]) + Front(roleOf, roles[from + 1..], names)
  {
    assert roles[from..][1..] == roles[from + 1..];
  }

  function GroupFrom(roleOf: map<string, string>, roles: seq<string>, from: nat, k: nat,
                     names: seq<string>): seq<string>
    requires k < |roles|
  {
    if k < from then [] else WithRole(roleOf, names, roles[k])
  }

  lemma GroupFromStep(roleOf: map<string, string>, roles: seq<string>, from: nat, k: nat, names: seq<string>)
    requires from < |roles| && k < |roles|
    ensures GroupFrom(roleOf, roles, from, k, names)
         == (if k == from then WithRole(roleOf, names, roles[from]) else [])
             + GroupFrom(roleOf, roles, from + 1, k, names)
  {
  }

  /** The names from role `from` on, group by group. */
  lemma {:induction false} FrontOfRank(roleOf: map<string, string>, roles: seq<string>, from: nat, k: nat,
                                       names: seq<string>)
    requires from <= |roles| && k < |roles| && Harmless(roleOf, roles, names)
    ensures OfRank(roleOf, roles, k, Front(roleOf, roles[from..], names)) == GroupFrom(roleOf, roles, from, k, names)
    decreases |roles| - from
  {
    if from < |roles| {
      FrontUnfolds(roleOf, roles, from, names);
      OfRankConcat(roleOf, roles, k, WithRole(roleOf, names, roles[from]), Front(roleOf, roles[from + 1..], names));
      GroupOfRank(roleOf, roles, from, k, names);
      FrontOfRank(roleOf, roles, from + 1, k, names);
      GroupFromStep(roleOf, roles, from, k, names);
    }
  }

  /** Inside every rank the corp order is kept, so nothing is lost, added or repeated, when no role held by a
      name is listed twice. */
  lemma OrderIsStable(roleOf: map<string, string>, roles: seq<string>, names: seq<string>, k: nat)
    requires Harmless(roleOf, roles, names)
    ensures OfRank(roleOf, roles, k, Order(roleOf, roles, names)) == OfRank(roleOf, roles, k, names)
  {
    var front := Front(roleOf, roles, names);
    var rest := Without(names, front);
    OfRankConcat(roleOf, roles, k, front, rest);
    forall n ensures n in front <==> n in names && n in roleOf && roleOf[n] in roles {
      FrontMembers(roleOf, roles, names, n);
    }
    forall n | n in rest ensures Rank(roleOf, roles, n) == |roles| { WithoutMembers(names, front, n); }
    assert roles[0..] == roles;
    if k < |roles| {
      FrontOfRank(roleOf, roles, 0, k, names);
      OfRankIsWithRole(roleOf, roles, k, names);
      OfRankNone(roleOf, roles, k, rest);
    } else {
      OfRankNone(roleOf, roles, k, front);
      if k == |roles| {
        OfRankAll(roleOf, roles, k, rest);
        OfRankIsWithout(roleOf, roles, names, front);
      } else {
        OfRankNone(roleOf, roles, k, rest);
        OfRankNone(roleOf, roles, k, names);
      }
    }
  }

  ghost predicate SortedByRank(roleOf: map<string, string>, roles: seq<string>, names: seq<string>) {
    forall i, j | 0 <= i < j < |names| :: Rank(roleOf, roles, names[i]) <= Rank(roleOf, roles, names[j])
  }

  lemma {:induction false} FrontSorted(roleOf: map<string, string>, roles: seq<string>, from: nat, names: seq<string>)
    requires from <= |roles| && Harmless(roleOf, roles, names)
    ensures var f := Front(roleOf, roles[from..], names);
            SortedByRank(roleOf, roles, f) && forall n | n in f :: from <= Rank(roleOf, roles, n) < |roles|
    decreases |roles| - from
  {
    if from < |roles| {
      var group := WithRole(roleOf, names, roles[from]);
      GroupRank(roleOf, roles, from, names);
      assert roles[from..][1..] == roles[from + 1..];
      FrontSorted(roleOf, roles, from + 1, names);
      var tail := Front(roleOf, roles[from + 1..], names);
      var f := group + tail;
      forall i, j | 0 <= i < j < |f| ensures Rank(roleOf, roles, f[i]) <= Rank(roleOf, roles, f[j]) {
        if i < |group| {
          assert f[i] in group;
          assert if j < |group| then f[j] in group else f[j] in tail;
        }
      }
    }
  }

  /** On the same condition the new order is sorted by rank. */
  lemma OrderIsSorted(roleOf: map<string, string>, roles: seq<string>, names: seq<string>)
    requires Harmless(roleOf, roles, names)
    ensures SortedByRank(roleOf, roles, Order(roleOf, roles, names))
  {
    var front := Front(roleOf, roles, names);
    var rest := Without(names, front);
    var order := front + rest;
    assert roles[0..] == roles;
    FrontSorted(roleOf, roles, 0, names);
    forall n | n in rest ensures Rank(roleOf, roles, n) == |roles| {
      WithoutMembers(names, front, n);
      FrontMembers(roleOf, roles, names, n);
    }
    forall i, j | 0 <= i < j < |order| ensures Rank(roleOf, roles, order[i]) <= Rank(roleOf, roles, order[j]) {
      if j >= |front| { assert order[j] in rest; }
    }
  }

  // ---------------------------------------------------------------- repeated roles

  function Copies(roleOf: map<string, string>, roles: seq<string>, n: string): nat {
    if n in roleOf then Occurrences(roles, roleOf[n]) else 0
  }

  lemma {:induction false} WithRoleCount(roleOf: map<string, string>, names: seq<string>, r: string, n: string)
    ensures multiset(WithRole(roleOf, names, r))[n] == if n in roleOf && roleOf[n] == r then multiset(names)[n] else 0
  {
    if names != [] {
      WithRoleCount(roleOf, names[1..], r, n);
      assert names == [names[0]] + names[1..];
    }
  }

  lemma OneMore(k: nat, m: nat)
    ensures (1 + k) * m == m + k * m
  {
  }

  lemma Multiples(k: nat, m: nat)
    ensures k == 0 ==> k * m == 0
    ensures k == 1 ==> k * m == m
    ensures k > 1 && m > 0 ==> k * m > m
  {
    if k > 1 && m > 0 { OneMore(k - 1, m); }
  }

  lemma {:induction false} FrontCount(roleOf: map<string, string>, roles: seq<string>, names: seq<string>, n: string)
    ensures multiset(Front(roleOf, roles, names))[n] == Copies(roleOf, roles, n) * multiset(names)[n]
  {
    if roles != [] {
      var group, tail := WithRole(roleOf, names, roles[0]), Front(roleOf, roles[1..], names);
      WithRoleCount(roleOf, names, roles[0], n);
      FrontCount(roleOf, roles[1..], names, n);
      assert multiset(group + tail)[n] == multiset(group)[n] + multiset(tail)[n];
      OneMore(Copies(roleOf, roles[1..], n), multiset(names)[n]);
    }
  }

  lemma {:induction false} WithoutCount(names: seq<string>, gone: seq<string>, n: string)
    ensures multiset(Without(names, gone))[n] == if n in gone then 0 else multiset(names)[n]
  {
    if names != [] {
      WithoutCount(names[1..], gone, n);
      assert names == [names[0]] + names[1..];
    }
  }

  lemma OrderCount(roleOf: map<string, string>, roles: seq<string>, names: seq<string>, n: string)
    ensures Copies(roleOf, roles, n) <= 1 ==> multiset(Order(roleOf, roles, names))[n] == multiset(names)[n]
    ensures Copies(roleOf, roles, n) > 1 && n in names ==> multiset(Order(roleOf, roles, names))[n] > multiset(names)[n]
  {
    var front := Front(roleOf, roles, names);
    var rest := Without(names, front);
    FrontCount(roleOf, roles, names, n);
    Multiples(Copies(roleOf, roles, n), multiset(names)[n]);
    WithoutCount(names, front, n);
    assert multiset(front + rest)[n] == multiset(front)[n] + multiset(rest)[n];
  }

  /** The new order is a permutation exactly when no role held by a name is repeated. */
  lemma OrderIsPermutationIff(roleOf: map<string, string>, roles: seq<string>, names: seq<string>)
    ensures multiset(Order(roleOf, roles, names)) == multiset(names) <==> Harmless(roleOf, roles, names)
  {
    var order := Order(roleOf, roles, names);
    if Harmless(roleOf, roles, names) {
      forall n ensures multiset(order)[n] == multiset(names)[n] {
        OrderCount(roleOf, roles, names, n);
        OrderKeepsNames(roleOf, roles, names, n);
        if n !in names { assert n !in order; }
      }
      assert multiset(order) == multiset(names);
    } else {
      var n :| n in names && n in roleOf && Occurrences(roles, roleOf[n]) > 1;
      OrderCount(roleOf, roles, names, n);
    }
  }

  lemma {:induction false} OfRankCount(roleOf: map<string, string>, roles: seq<string>, k: nat, names: seq<string>,
                                       n: string)
    ensures multiset(OfRank(roleOf, roles, k, names))[n]
         == if Rank(roleOf, roles, n) == k then multiset(names)[n] else 0
  {
    if names != [] {
      OfRankCount(roleOf, roles, k, names[1..], n);
      assert names == [names[0]] + names[1..];
    }
  }

  /** Every rank keeps its names in corp order exactly when no role held by a name is listed twice. */
  lemma OrderKeepsRanksIff(roleOf: map<string, string>, roles: seq<string>, names: seq<string>)
    ensures (forall k: nat :: OfRank(roleOf, roles, k, Order(roleOf, roles, names)) == OfRank(roleOf, roles, k, names))
       <==> Harmless(roleOf, roles, names)
  {
    var order := Order(roleOf, roles, names);
    if Harmless(roleOf, roles, names) {
      forall k: nat ensures OfRank(roleOf, roles, k, order) == OfRank(roleOf, roles, k, names) {
        OrderIsStable(roleOf, roles, names, k);
      }
    } else {
      var n :| n in names && n in roleOf && Occurrences(roles, roleOf[n]) > 1;
      var k := Rank(roleOf, roles, n);
      OrderCount(roleOf, roles, names, n);
      OfRankCount(roleOf, roles, k, order, n);
      OfRankCount(roleOf, roles, k, names, n);
      assert OfRank(roleOf, roles, k, order) != OfRank(roleOf, roles, k, names);
    }
  }

  lemma {:induction false} WithRoleConcat(roleOf: map<string, string>, a: seq<string>, b: seq<string>, r: string)
    ensures WithRole(roleOf, a + b, r) == WithRole(roleOf, a, r) + WithRole(roleOf, b, r)
  {
    if a == [] {
      assert a + b == b;
    } else {
      assert (a + b)[1..] == a[1..] + b;
      WithRoleConcat(roleOf, a[1..], b, r);
    }
  }

  lemma {:induction false} WithRoleNone(roleOf: map<string, string>, names: seq<string>, r: string)
    requires forall n | n in names :: !(n in roleOf && roleOf[n] == r)
    ensures WithRole(roleOf, names, r) == []
  {
    if names != [] { WithRoleNone(roleOf, names[1..], r); }
  }

  lemma {:induction false} WithRoleTwice(roleOf: map<string, string>, names: seq<string>, r: string)
    ensures WithRole(roleOf, WithRole(roleOf, names, r), r) == WithRole(roleOf, names, r)
  {
    if names != [] {
      var first := if names[0] in roleOf && roleOf[names[0]] == r then [names[0]] else [];
      WithRoleTwice(roleOf, names[1..], r);
      WithRoleConcat(roleOf, first, WithRole(roleOf, names[1..], r), r);
    }
  }

  lemma {:induction false} WithRoleOfFront(roleOf: map<string, string>, roles: seq<string>, names: seq<string>,
                                           r: string)
    requires WithRole(roleOf, names, r) == [] || Occurrences(roles, r) <= 1
    ensures WithRole(roleOf, Front(roleOf, roles, names), r)
         == if Occurrences(roles, r) == 1 then WithRole(roleOf, names, r) else []
  {
    if roles != [] {
      var group := WithRole(roleOf, names, roles[0]);
      WithRoleConcat(roleOf, group, Front(roleOf, roles[1..], names), r);
      WithRoleOfFront(roleOf, roles[1..], names, r);
      if roles[0] == r {
        WithRoleTwice(roleOf, names, r);
      } else {
        forall n | n in group ensures !(n in roleOf && roleOf[n] == r) { WithRoleMembers(roleOf, names, roles[0], n); }
        WithRoleNone(roleOf, group, r);
      }
    }
  }

  lemma {:induction false} SameGroupsSameFront(roleOf: map<string, string>, roles: seq<string>, a: seq<string>,
                                               b: seq<string>)
    requires forall r | r in roles :: WithRole(roleOf, a, r) == WithRole(roleOf, b, r)
    ensures Front(roleOf, roles, a) == Front(roleOf, roles, b)
  {
    if roles != [] {
      assert roles[0] in roles;
      SameGroupsSameFront(roleOf, roles[1..], a, b);
    }
  }

  lemma {:induction false} WithoutAll(a: seq<string>, gone: seq<string>)
    requires forall n | n in a :: n in gone
    ensures Without(a, gone) == []
  {
    if a != [] { WithoutAll(a[1..], gone); }
  }

  lemma {:induction false} WithoutNone(a: seq<string>, gone: seq<string>)
    requires forall n | n in a :: n !in gone
    ensures Without(a, gone) == a
  {
    if a != [] { WithoutNone(a[1..], gone); }
  }

  lemma {:induction false} WithoutConcat(a: seq<string>, b: seq<string>, gone: seq<string>)
    ensures Without(a + b, gone) == Without(a, gone) + Without(b, gone)
  {
    if a == [] {
      assert a + b == b;
    } else {
      assert (a + b)[1..] == a[1..] + b;
      WithoutConcat(a[1..], b, gone);
    }
  }

  lemma OrderKeepsGroups(roleOf: map<string, string>, roles: seq<string>, names: seq<string>, r: string)
    requires Harmless(roleOf, roles, names) && r in roles
    ensures WithRole(roleOf, Order(roleOf, roles, names), r) == WithRole(roleOf, names, r)
  {
    var front := Front(roleOf, roles, names);
    var rest := Without(names, front);
    WithRoleConcat(roleOf, front, rest, r);
    var group := WithRole(roleOf, names, r);
    if group != [] { WithRoleMembers(roleOf, names, r, group[0]); }
    WithRoleOfFront(roleOf, roles, names, r);
    OccursIff(roles, r);
    forall n | n in rest ensures !(n in roleOf && roleOf[n] == r) {
      WithoutMembers(names, front, n);
      FrontMembers(roleOf, roles, names, n);
    }
    WithRoleNone(roleOf, rest, r);
  }

  lemma OrderTwice(roleOf: map<string, string>, roles: seq<string>, names: seq<string>)
    requires Harmless(roleOf, roles, names)
    ensures Order(roleOf, roles, Order(roleOf, roles, names)) == Order(roleOf, roles, names)
  {
    var front := Front(roleOf, roles, names);
    var rest := Without(names, front);
    forall r | r in roles ensures WithRole(roleOf, front + rest, r) == WithRole(roleOf, names, r) {
      OrderKeepsGroups(roleOf, roles, names, r);
    }
    SameGroupsSameFront(roleOf, roles, front + rest, names);
    WithoutAgain(names, front);
  }

  lemma WithoutAgain(names: seq<string>, front: seq<string>)
    ensures Without(front + Without(names, front), front) == Without(names, front)
  {
    var rest := Without(names, front);
    WithoutConcat(front, rest, front);
    WithoutAll(front, front);
    forall n | n in rest ensures n !in front { WithoutMembers(names, front, n); }
    WithoutNone(rest, front);
  }

  /** Reordering an order again changes nothing, exactly when no role held by a name is repeated. */
  lemma OrderIsStableIff(roleOf: map<string, string>, roles: seq<string>, names: seq<string>)
    ensures Order(roleOf, roles, Order(roleOf, roles, names)) == Order(roleOf, roles, names)
       <==> Harmless(roleOf, roles, names)
  {
    if Harmless(roleOf, roles, names) {
      OrderTwice(roleOf, roles, names);
    } else {
      var n :| n in names && n in roleOf && Occurrences(roles, roleOf[n]) > 1;
      OrderKeepsNames(roleOf, roles, names, n);
      OrderCount(roleOf, roles, Order(roleOf, roles, names), n);
    }
  }
}
