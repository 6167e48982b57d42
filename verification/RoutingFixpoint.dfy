/**
 * platform/okf/generate_stack_config.py, model_routing: which entry every caller ends up with, and when
 * feeding the generated policy back as the corp policy reproduces it.
 */
module RoutingFixpoint {
  import opened Util
  import opened ModelRouting

  function CallerKey(c: Caller): Key { (c.name, c.task) }

  /** Agents, their tasks and the experience clients have distinct names (ADR-0592). */
  ghost predicate DistinctCallers(callers: seq<Caller>) {
    forall i, j | 0 <= i < j < |callers| :: CallerKey(callers[i]) != CallerKey(callers[j])
  }

  ghost predicate DistinctNames(catalog: seq<Model>) {
    forall i, j | 0 <= i < j < |catalog| :: catalog[i].name != catalog[j].name
  }

  predicate Needed(c: Caller, catalog: seq<Model>) { c.roles != [] || Excluded(catalog, c.forbidden) != [] }

  ghost predicate Selects(corp: seq<Entry>, c: Caller, i: nat) { IndexOf(corp, CallerKey(c)) == Some(i) }

  /** A corp entry no caller's key selects is unchanged. */
  lemma {:induction false} RouteUntouched(corp: seq<Entry>, catalog: seq<Model>, callers: seq<Caller>, i: nat)
    requires i < |corp| && forall k | 0 <= k < |callers| :: !Selects(corp, callers[k], i)
    ensures Route(corp, catalog, callers).entries[i] == corp[i]
  {
    if callers != [] {
      var n := |callers| - 1;
      forall k | 0 <= k < n ensures !Selects(corp, callers[..n][k], i) { assert callers[..n][k] == callers[k]; }
      RouteUntouched(corp, catalog, callers[..n], i);
      assert !Selects(corp, callers[n], i);
    }
  }

  lemma OthersDiffer(callers: seq<Caller>, k: nat)
    requires DistinctCallers(callers) && k < |callers|
    ensures forall m | 0 <= m < |callers| && m != k :: CallerKey(callers[m]) != CallerKey(callers[k])
  {
  }

  /** A corp entry is adjusted once, by the caller whose key selects it. */
  lemma {:induction false} RouteSelected(corp: seq<Entry>, catalog: seq<Model>, callers: seq<Caller>, i: nat, k: nat)
    requires DistinctCallers(callers) && i < |corp| && k < |callers| && Selects(corp, callers[k], i)
    ensures Route(corp, catalog, callers).entries[i] == Adjust(corp[i], callers[k], catalog)
  {
    var n := |callers| - 1;
    OthersDiffer(callers, k);
    if k == n {
      RouteUntouched(corp, catalog, callers[..n], i);
    } else {
      RouteSelected(corp, catalog, callers[..n], i, k);
    }
  }

  /** The added entries are exactly those of the callers without a corp entry that declare something. */
  lemma AddedExactly(corp: seq<Entry>, catalog: seq<Model>, callers: seq<Caller>, e: Entry)
    ensures e in Route(corp, catalog, callers).added <==>
            exists k :: 0 <= k < |callers| && Adds(corp, catalog, callers[k], e)
  {
    if e in Route(corp, catalog, callers).added {
      var k := AddedBy(corp, catalog, callers, e);
    }
    if k :| 0 <= k < |callers| && Adds(corp, catalog, callers[k], e) { AddedHas(corp, catalog, callers, k, e); }
  }

  lemma {:induction false} AddedBy(corp: seq<Entry>, catalog: seq<Model>, callers: seq<Caller>, e: Entry)
    returns (k: nat)
    requires e in Route(corp, catalog, callers).added
    ensures k < |callers| && Adds(corp, catalog, callers[k], e)
  {
    k := |callers| - 1;
    AddedSnoc(corp, catalog, callers, e);
    if !Adds(corp, catalog, callers[k], e) { k := AddedBy(corp, catalog, callers[..k], e); }
  }

  lemma {:induction false} AddedHas(corp: seq<Entry>, catalog: seq<Model>, callers: seq<Caller>, k: nat, e: Entry)
    requires k < |callers| && Adds(corp, catalog, callers[k], e)
    ensures e in Route(corp, catalog, callers).added
  {
    AddedSnoc(corp, catalog, callers, e);
    if k < |callers| - 1 { AddedHas(corp, catalog, callers[..|callers| - 1], k, e); }
  }

  lemma AddedSnoc(corp: seq<Entry>, catalog: seq<Model>, callers: seq<Caller>, e: Entry)
    requires callers != []
    ensures var n := |callers| - 1;
            e in Route(corp, catalog, callers).added <==>
            e in Route(corp, catalog, callers[..n]).added || Adds(corp, catalog, callers[n], e)
  {
  }

  ghost predicate Adds(corp: seq<Entry>, catalog: seq<Model>, c: Caller, e: Entry) {
    IndexOf(corp, CallerKey(c)) == None && Needed(c, catalog) && e == Fresh(c, catalog)
  }

  lemma {:induction false} IndexOfConcat(a: seq<Entry>, b: seq<Entry>, k: Key)
    ensures IndexOf(a + b, k) == match IndexOf(b, k) { case Some(j) => Some(|a| + j) case None => IndexOf(a, k) }
  {
    if b == [] {
      assert a + b == a;
    } else {
      var n := |b| - 1;
      assert (a + b)[|a + b| - 1] == b[n] && (a + b)[..|a + b| - 1] == a + b[..n];
      IndexOfConcat(a, b[..n], k);
    }
  }

  lemma {:induction false} IndexOfSameKeys(a: seq<Entry>, b: seq<Entry>, k: Key)
    requires |a| == |b| && forall i | 0 <= i < |a| :: KeyOf(a[i]) == KeyOf(b[i])
    ensures IndexOf(a, k) == IndexOf(b, k)
  {
    if a != [] { IndexOfSameKeys(a[..|a| - 1], b[..|b| - 1], k); }
  }

  /** The entry of the generated policy that a caller's key selects. */
  lemma FinalEntry(corp: seq<Entry>, catalog: seq<Model>, callers: seq<Caller>, k: nat)
    requires DistinctCallers(callers) && k < |callers|
    ensures var c, out := callers[k], Policy(corp, catalog, callers);
            match IndexOf(out, CallerKey(c))
            case None => IndexOf(corp, CallerKey(c)) == None && !Needed(c, catalog)
            case Some(i) =>
              match IndexOf(corp, CallerKey(c))
              case Some(j) => i == j && out[i] == Adjust(corp[j], c, catalog)
              case None => Needed(c, catalog) && out[i] == Fresh(c, catalog)
  {
    var c, r := callers[k], Route(corp, catalog, callers);
    var key := CallerKey(c);
    IndexOfConcat(r.entries, r.added, key);
    IndexOfSameKeys(r.entries, corp, key);
    AddedIndex(corp, catalog, callers, k);
    if IndexOf(corp, key).Some? { RouteSelected(corp, catalog, callers, IndexOf(corp, key).value, k); }
  }

  lemma AddedIndex(corp: seq<Entry>, catalog: seq<Model>, callers: seq<Caller>, k: nat)
    requires DistinctCallers(callers) && k < |callers|
    ensures var c, added := callers[k], Route(corp, catalog, callers).added;
            match IndexOf(added, CallerKey(c))
            case Some(j) => Adds(corp, catalog, c, added[j])
            case None => !Adds(corp, catalog, c, Fresh(c, catalog))
  {
    var c, added := callers[k], Route(corp, catalog, callers).added;
    var found := IndexOf(added, CallerKey(c));
    if found.Some? {
      var e := added[found.value];
      AddedExactly(corp, catalog, callers, e);
      var m :| 0 <= m < |callers| && Adds(corp, catalog, callers[m], e);
      assert CallerKey(callers[m]) == CallerKey(callers[k]);
      assert m == k;
    } else if Adds(corp, catalog, callers[k], Fresh(c, catalog)) {
      AddedExactly(corp, catalog, callers, Fresh(c, catalog));
      assert false;
    }
  }

  // ---------------------------------------------------------------- running one caller's step again

  /** The names a caller's roles are applied to. */
  function NamesFor(corp: seq<Entry>, catalog: seq<Model>, c: Caller): seq<string> {
    match IndexOf(corp, CallerKey(c)) case Some(i) => PreferenceNames(corp[i]) case None => FromRoles(catalog, c.roles)
  }

  lemma AdjustNames(e: Entry, c: Caller, catalog: seq<Model>)
    ensures PreferenceNames(Adjust(e, c, catalog)) == Order(RoleOf(catalog), c.roles, PreferenceNames(e))
    ensures Adjust(e, c, catalog).strict == e.strict && Adjust(e, c, catalog).other == e.other
    ensures KeyOf(Adjust(e, c, catalog)) == KeyOf(e)
  {
  }

  lemma AdjustAgain(e: Entry, c: Caller, catalog: seq<Model>)
    ensures Adjust(Adjust(e, c, catalog), c, catalog) == Adjust(e, c, catalog)
       <==> Harmless(RoleOf(catalog), c.roles, PreferenceNames(e))
  {
    var once := Adjust(e, c, catalog);
    AdjustNames(e, c, catalog);
    AdjustNames(once, c, catalog);
    OrderIsStableIff(RoleOf(catalog), c.roles, PreferenceNames(e));
  }

  lemma {:induction false} RoleOfRow(catalog: seq<Model>, i: nat)
    requires DistinctNames(catalog) && i < |catalog| && catalog[i].name != ""
    ensures catalog[i].role
         == if catalog[i].name in RoleOf(catalog) then Some(RoleOf(catalog)[catalog[i].name]) else None
  {
    var n := |catalog| - 1;
    if i < n { RoleOfRow(catalog[..n], i); }
  }

  lemma {:induction false} NamesWithRoleRows(catalog: seq<Model>, r: string, n: string)
    requires n in NamesWithRole(catalog, r)
    ensures exists i :: 0 <= i < |catalog| && catalog[i].name == n && catalog[i].role == Some(r)
  {
    if catalog[0].role == Some(r) && catalog[0].name == n {
    } else {
      NamesWithRoleRows(catalog[1..], r, n);
      var i :| 0 <= i < |catalog[1..]| && catalog[1..][i].name == n && catalog[1..][i].role == Some(r);
      assert catalog[i + 1].name == n;
    }
  }

  lemma NamesHaveRole(catalog: seq<Model>, r: string, n: string)
    requires DistinctNames(catalog) && n in NamesWithRole(catalog, r) && n != ""
    ensures n in RoleOf(catalog) && RoleOf(catalog)[n] == r
  {
    NamesWithRoleRows(catalog, r, n);
    var i :| 0 <= i < |catalog| && catalog[i].name == n && catalog[i].role == Some(r);
    RoleOfRow(catalog, i);
  }

  lemma {:induction false} WithRoleNamed(roleOf: map<string, string>, names: seq<string>, r: string)
    requires "" !in roleOf && forall n | n in names && n != "" :: n in roleOf && roleOf[n] == r
    ensures WithRole(roleOf, names, r) == NonEmpty(names)
  {
    if names != [] { WithRoleNamed(roleOf, names[1..], r); }
  }

  lemma {:induction false} WithRoleOfFromRoles(catalog: seq<Model>, roles: seq<string>, r: string)
    requires DistinctNames(catalog) && (NonEmpty(NamesWithRole(catalog, r)) == [] || Occurrences(roles, r) <= 1)
    ensures WithRole(RoleOf(catalog), FromRoles(catalog, roles), r)
         == if Occurrences(roles, r) == 1 then NonEmpty(NamesWithRole(catalog, r)) else []
  {
    if roles != [] {
      var roleOf, group := RoleOf(catalog), NamesWithRole(catalog, roles[0]);
      WithRoleConcat(roleOf, group, FromRoles(catalog, roles[1..]), r);
      WithRoleOfFromRoles(catalog, roles[1..], r);
      forall n | n in group && n != "" ensures n in roleOf && roleOf[n] == roles[0] {
        NamesHaveRole(catalog, roles[0], n);
      }
      if roles[0] == r { WithRoleNamed(roleOf, group, r); } else { WithRoleNone(roleOf, group, r); }
    }
  }

  lemma {:induction false} FrontFromGroups(catalog: seq<Model>, roles: seq<string>, names: seq<string>)
    requires forall r | r in roles :: WithRole(RoleOf(catalog), names, r) == NonEmpty(NamesWithRole(catalog, r))
    ensures Front(RoleOf(catalog), roles, names) == NonEmpty(FromRoles(catalog, roles))
  {
    if roles != [] {
      assert roles[0] in roles;
      NonEmptyConcat(NamesWithRole(catalog, roles[0]), FromRoles(catalog, roles[1..]));
      FrontFromGroups(catalog, roles[1..], names);
    }
  }

  lemma {:induction false} FromRolesMembers(catalog: seq<Model>, roles: seq<string>, r: string, n: string)
    requires r in roles && n in NamesWithRole(catalog, r)
    ensures n in FromRoles(catalog, roles)
  {
    if roles[0] != r { FromRolesMembers(catalog, roles[1..], r, n); }
  }

  lemma {:induction false} NonEmptyConcat(a: seq<string>, b: seq<string>)
    ensures NonEmpty(a + b) == NonEmpty(a) + NonEmpty(b)
  {
    if a == [] {
      assert a + b == b;
    } else {
      assert (a + b)[1..] == a[1..] + b;
      NonEmptyConcat(a[1..], b);
    }
  }

  lemma {:induction false} NonEmptyMembers(names: seq<string>, n: string)
    ensures n in NonEmpty(names) <==> n in names && n != ""
  {
    if names != [] { NonEmptyMembers(names[1..], n); }
  }

  /** Empty names stand behind all others. */
  predicate BlanksLast(names: seq<string>) { NonEmpty(names) <= names }

  /** What stays behind the named ones is blank. */
  lemma BlanksBehind(names: seq<string>)
    ensures NonEmpty(names) + Without(names, NonEmpty(names)) == names <==> BlanksLast(names)
  {
    var named := NonEmpty(names);
    if BlanksLast(names) {
      var rest := names[|named|..];
      assert named + rest == names;
      forall n | n in named ensures n != "" { NonEmptyMembers(names, n); }
      NonEmptyConcat(named, rest);
      NonEmptyAll(named);
      BlanksStay(named, rest);
    }
  }

  lemma BlanksStay(named: seq<string>, rest: seq<string>)
    requires "" !in named && NonEmpty(rest) == []
    ensures Without(named + rest, named) == rest
  {
    forall n | n in rest ensures n !in named { NonEmptyMembers(rest, n); }
    WithoutConcat(named, rest, named);
    WithoutAll(named, named);
    WithoutNone(rest, named);
  }

  lemma {:induction false} NonEmptyAll(names: seq<string>)
    requires "" !in names
    ensures NonEmpty(names) == names
  {
    if names != [] { NonEmptyAll(names[1..]); }
  }

  /** A list built from the roles is already in role order, unless a role with named models is repeated or a model
      without a name stands before one with a name. */
  lemma FromRolesOrdered(catalog: seq<Model>, roles: seq<string>)
    requires DistinctNames(catalog)
    ensures var names := FromRoles(catalog, roles);
            Order(RoleOf(catalog), roles, names) == names
            <==> Harmless(RoleOf(catalog), roles, names) && BlanksLast(names)
  {
    var roleOf, names := RoleOf(catalog), FromRoles(catalog, roles);
    if Harmless(roleOf, roles, names) {
      forall r | r in roles ensures WithRole(roleOf, names, r) == NonEmpty(NamesWithRole(catalog, r)) {
        OccursIff(roles, r);
        var group := NonEmpty(NamesWithRole(catalog, r));
        if group != [] {
          NonEmptyMembers(NamesWithRole(catalog, r), group[0]);
          NamesHaveRole(catalog, r, group[0]);
          FromRolesMembers(catalog, roles, r, group[0]);
        }
        WithRoleOfFromRoles(catalog, roles, r);
      }
      FrontFromGroups(catalog, roles, names);
      BlanksBehind(names);
    } else {
      var n :| n in names && n in roleOf && Occurrences(roles, roleOf[n]) > 1;
      OrderCount(roleOf, roles, names, n);
    }
  }

  lemma FreshAgain(c: Caller, catalog: seq<Model>)
    requires DistinctNames(catalog)
    ensures Adjust(Fresh(c, catalog), c, catalog) == Fresh(c, catalog)
       <==> Harmless(RoleOf(catalog), c.roles, FromRoles(catalog, c.roles))
            && BlanksLast(FromRoles(catalog, c.roles))
  {
    AdjustNames(Fresh(c, catalog), c, catalog);
    FromRolesOrdered(catalog, c.roles);
  }

  // ---------------------------------------------------------------- the fixpoint

  ghost predicate StepFixed(corp: seq<Entry>, catalog: seq<Model>, c: Caller) {
    match IndexOf(corp, CallerKey(c))
    case None => !Needed(c, catalog)
    case Some(i) => Adjust(corp[i], c, catalog) == corp[i]
  }

  lemma {:induction false} RouteFixed(corp: seq<Entry>, catalog: seq<Model>, callers: seq<Caller>)
    requires forall k | 0 <= k < |callers| :: StepFixed(corp, catalog, callers[k])
    ensures Route(corp, catalog, callers) == Routing(corp, [])
  {
    if callers != [] {
      RouteFixed(corp, catalog, callers[..|callers| - 1]);
      assert StepFixed(corp, catalog, callers[|callers| - 1]);
    }
  }

  /** No role that one of the caller's names has is listed twice; and where the list is built from the roles, no
      model without a name stands before one with a name. */
  ghost predicate Settled(corp: seq<Entry>, catalog: seq<Model>, c: Caller) {
    Harmless(RoleOf(catalog), c.roles, NamesFor(corp, catalog, c))
    && (IndexOf(corp, CallerKey(c)).None? ==> BlanksLast(FromRoles(catalog, c.roles)))
  }

  /** Feeding the generated policy back reproduces it exactly, if and only if every caller is settled. */
  lemma GeneratorFixpoint(corp: seq<Entry>, catalog: seq<Model>, callers: seq<Caller>)
    requires DistinctNames(catalog) && DistinctCallers(callers)
    ensures Policy(Policy(corp, catalog, callers), catalog, callers) == Policy(corp, catalog, callers)
       <==> forall k | 0 <= k < |callers| :: Settled(corp, catalog, callers[k])
  {
    var out := Policy(corp, catalog, callers);
    forall k | 0 <= k < |callers|
      ensures StepFixed(out, catalog, callers[k]) <==> Settled(corp, catalog, callers[k])
    {
      StepFixedIff(corp, catalog, callers, k);
    }
    if forall k | 0 <= k < |callers| :: StepFixed(out, catalog, callers[k]) {
      RouteFixed(out, catalog, callers);
      assert out + [] == out;
    } else {
      var k :| 0 <= k < |callers| && !StepFixed(out, catalog, callers[k]);
      FinalEntry(corp, catalog, callers, k);
      var i := IndexOf(out, CallerKey(callers[k])).value;
      RouteSelected(out, catalog, callers, i, k);
      assert Policy(out, catalog, callers)[i] == Adjust(out[i], callers[k], catalog);
    }
  }

  lemma StepFixedIff(corp: seq<Entry>, catalog: seq<Model>, callers: seq<Caller>, k: nat)
    requires DistinctNames(catalog) && DistinctCallers(callers) && k < |callers|
    ensures StepFixed(Policy(corp, catalog, callers), catalog, callers[k]) <==> Settled(corp, catalog, callers[k])
  {
    var c, out := callers[k], Policy(corp, catalog, callers);
    FinalEntry(corp, catalog, callers, k);
    match IndexOf(corp, CallerKey(c))
    case Some(j) => AdjustAgain(corp[j], c, catalog);
    case None =>
      if Needed(c, catalog) {
        FreshAgain(c, catalog);
      } else {
        assert FromRoles(catalog, c.roles) == [];
      }
  }
}
