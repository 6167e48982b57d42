/**
 * The generated routing policy as the ai-gateway reads it (app/model_routing_policy.py), and when it agrees
 * with the model subscriptions.
 */
module RoutingAgreement {
  import opened Util
  import opened ModelRouting
  import opened RoutingFixpoint
  import opened MaasSubscriptions

  // ---------------------------------------------------------------- what the gateway keeps

  /** What the gateway keeps for one (agent, task): an exclusion list and an ordered, possibly strict, list. */
  datatype Gate = Gate(exclude: seq<string>, names: seq<string>, strict: bool)

  const NOTHING := Gate([], [], false)

  /** The names the gateway reads from an entry (ADR-0419): as the generator's, without the empty ones. */
  function GatewayNames(e: Entry): seq<string> {
    if e.preferred.Some? || e.fallback.Some? then NonEmpty(OrEmpty(e.preferred)) + NonEmpty(OrEmpty(e.fallback))
    else NonEmpty(OrEmpty(e.prefer))
  }

  lemma GatewayNamesAre(e: Entry)
    ensures GatewayNames(e) == NonEmpty(PreferenceNames(e))
  {
    NonEmptyConcat(OrEmpty(e.preferred), OrEmpty(e.fallback));
  }

  /** Malformed entries are skipped, and an entry without names sets neither the list nor `strict`. */
  function GateOf(entries: seq<Entry>, k: Key): Gate {
    if entries == [] then NOTHING
    else Loaded(entries[|entries| - 1], k, GateOf(entries[..|entries| - 1], k))
  }

  function Loaded(e: Entry, k: Key, g: Gate): Gate {
    var names, exclude := GatewayNames(e), NonEmpty(OrEmpty(e.exclude));
    if e.agent == "" || e.task == "" || (names == [] && exclude == []) || KeyOf(e) != k then g
    else
      var g1 := if exclude == [] then g else g.(exclude := exclude);
      if names == [] then g1 else g1.(names := names, strict := e.strict)
  }

  /** Model `n` is left open: not excluded, and listed when the preference is strict and not empty. */
  predicate Open(g: Gate, n: string) { n !in g.exclude && (g.strict && g.names != [] ==> n in g.names) }

  /** The last entry of a key that names models: the one whose list and `strict` the gateway keeps. */
  function LastNamed(corp: seq<Entry>, k: Key): Option<Entry> {
    if corp == [] then None
    else
      var e := corp[|corp| - 1];
      if KeyOf(e) == k && GatewayNames(e) != [] then Some(e) else LastNamed(corp[..|corp| - 1], k)
  }

  /** A strict list of the gateway admits `n`, or there is none. */
  predicate Admits(named: Option<Entry>, n: string) {
    named.Some? && named.value.strict ==> n in GatewayNames(named.value)
  }

  lemma {:induction false} GateNames(corp: seq<Entry>, k: Key)
    requires k.0 != "" && k.1 != ""
    ensures GateOf(corp, k).names == match LastNamed(corp, k) case None => [] case Some(e) => GatewayNames(e)
    ensures GateOf(corp, k).strict == match LastNamed(corp, k) case None => false case Some(e) => e.strict
    ensures LastNamed(corp, k).Some? ==> GatewayNames(LastNamed(corp, k).value) != []
  {
    if corp != [] { GateNames(corp[..|corp| - 1], k); }
  }

  /** Entries behind the last one of a key do not matter to it. */
  lemma {:induction false} GateAt(entries: seq<Entry>, k: Key, j: nat)
    requires IndexOf(entries, k) == Some(j)
    ensures GateOf(entries, k) == Loaded(entries[j], k, GateOf(entries[..j], k))
  {
    var n := |entries| - 1;
    if j < n {
      GateAt(entries[..n], k, j);
      assert entries[..n][..j] == entries[..j];
    }
  }

  lemma {:induction false} GateNone(entries: seq<Entry>, k: Key)
    requires IndexOf(entries, k) == None
    ensures GateOf(entries, k) == NOTHING
  {
    if entries != [] { GateNone(entries[..|entries| - 1], k); }
  }

  /** Only the entries of the key matter. */
  lemma {:induction false} GateSame(a: seq<Entry>, b: seq<Entry>, k: Key)
    requires |a| == |b| && forall i | 0 <= i < |a| :: KeyOf(a[i]) == KeyOf(b[i]) && (KeyOf(a[i]) == k ==> a[i] == b[i])
    ensures GateOf(a, k) == GateOf(b, k)
  {
    if a != [] { GateSame(a[..|a| - 1], b[..|b| - 1], k); }
  }

  lemma {:induction false} GateOfOne(entries: seq<Entry>, k: Key, e: Entry)
    requires forall i | 0 <= i < |entries| && KeyOf(entries[i]) == k :: entries[i] == e
    ensures GateOf(entries, k) == if IndexOf(entries, k).Some? then Loaded(e, k, NOTHING) else NOTHING
  {
    if entries != [] { GateOfOne(entries[..|entries| - 1], k, e); }
  }

  // ---------------------------------------------------------------- what it keeps of the generated policy

  /** Of the entries of one key only the last is edited, by the one caller of that key. */
  lemma EarlierUntouched(corp: seq<Entry>, catalog: seq<Model>, callers: seq<Caller>, j: nat, i: nat)
    requires j < |corp| && i < j && IndexOf(corp, KeyOf(corp[j])) == Some(j) && KeyOf(corp[i]) == KeyOf(corp[j])
    ensures Route(corp, catalog, callers).entries[i] == corp[i]
  {
    assert forall m | 0 <= m < |callers| :: IndexOf(corp, CallerKey(callers[m])) != Some(i);
    RouteUntouched(corp, catalog, callers, i);
  }

  lemma EditedGate(corp: seq<Entry>, catalog: seq<Model>, callers: seq<Caller>, k: nat, j: nat)
    requires DistinctCallers(callers) && k < |callers| && IndexOf(corp, CallerKey(callers[k])) == Some(j)
    ensures GateOf(Policy(corp, catalog, callers), CallerKey(callers[k]))
         == Loaded(Adjust(corp[j], callers[k], catalog), CallerKey(callers[k]),
                   GateOf(corp[..j], CallerKey(callers[k])))
  {
    var out, key := Policy(corp, catalog, callers), CallerKey(callers[k]);
    FinalEntry(corp, catalog, callers, k);
    GateAt(out, key, j);
    forall i | 0 <= i < j
      ensures KeyOf(out[..j][i]) == KeyOf(corp[..j][i])
      ensures KeyOf(out[..j][i]) == key ==> out[..j][i] == corp[..j][i]
    {
      if KeyOf(corp[i]) == key { EarlierUntouched(corp, catalog, callers, j, i); }
    }
    GateSame(out[..j], corp[..j], key);
  }

  /** Without a corp entry of its key, a caller's key is carried only by the entry added for it. */
  lemma AddedOnce(corp: seq<Entry>, catalog: seq<Model>, callers: seq<Caller>, k: nat, i: nat)
    requires DistinctCallers(callers) && k < |callers| && IndexOf(corp, CallerKey(callers[k])) == None
    requires i < |Policy(corp, catalog, callers)| && KeyOf(Policy(corp, catalog, callers)[i]) == CallerKey(callers[k])
    ensures Policy(corp, catalog, callers)[i] == Fresh(callers[k], catalog)
  {
    var r := Route(corp, catalog, callers);
    assert i >= |corp|;
    var e := r.added[i - |corp|];
    AddedExactly(corp, catalog, callers, e);
    var m :| 0 <= m < |callers| && Adds(corp, catalog, callers[m], e);
    assert CallerKey(callers[m]) == CallerKey(callers[k]);
    assert m == k;
  }

  lemma AddedGate(corp: seq<Entry>, catalog: seq<Model>, callers: seq<Caller>, k: nat)
    requires DistinctCallers(callers) && k < |callers| && IndexOf(corp, CallerKey(callers[k])) == None
    ensures GateOf(Policy(corp, catalog, callers), CallerKey(callers[k]))
         == if Needed(callers[k], catalog) then Loaded(Fresh(callers[k], catalog), CallerKey(callers[k]), NOTHING)
             else NOTHING
  {
    var c, out := callers[k], Policy(corp, catalog, callers);
    forall i | 0 <= i < |out| && KeyOf(out[i]) == CallerKey(c) ensures out[i] == Fresh(c, catalog) {
      AddedOnce(corp, catalog, callers, k, i);
    }
    GateOfOne(out, CallerKey(c), Fresh(c, catalog));
    FinalEntry(corp, catalog, callers, k);
  }

  /** What the gateway reads for a caller from the generated policy, for any corp policy. */
  lemma CallerGate(corp: seq<Entry>, catalog: seq<Model>, callers: seq<Caller>, k: nat)
    requires DistinctCallers(callers) && k < |callers|
    ensures var c := callers[k]; var key := CallerKey(c);
            GateOf(Policy(corp, catalog, callers), key)
            == match IndexOf(corp, key)
               case Some(j) => Loaded(Adjust(corp[j], c, catalog), key, GateOf(corp[..j], key))
               case None => if Needed(c, catalog) then Loaded(Fresh(c, catalog), key, NOTHING) else NOTHING
  {
    match IndexOf(corp, CallerKey(callers[k]))
    case Some(j) => EditedGate(corp, catalog, callers, k, j);
    case None => AddedGate(corp, catalog, callers, k);
  }

  /** What the caller's forbidden roles exclude, as the gateway reads it. */
  function OwnExclude(catalog: seq<Model>, c: Caller): seq<string> { NonEmpty(Excluded(catalog, c.forbidden)) }

  /** The corp's exclusions for a caller that excludes no named model. If it excludes a model without a name, its
      entry has lost those it had, and only the earlier entries of the key count. */
  function CorpExclude(corp: seq<Entry>, catalog: seq<Model>, c: Caller): seq<string> {
    if Excluded(catalog, c.forbidden) == [] then GateOf(corp, CallerKey(c)).exclude
    else match IndexOf(corp, CallerKey(c)) case Some(j) => GateOf(corp[..j], CallerKey(c)).exclude case None => []
  }

  /** The caller's own exclusions replace those of the corp policy; without any, the corp's stand. */
  function ExcludeFor(corp: seq<Entry>, catalog: seq<Model>, c: Caller): seq<string> {
    if OwnExclude(catalog, c) != [] then OwnExclude(catalog, c) else CorpExclude(corp, catalog, c)
  }

  /** An adjusted entry names the same models, in whatever order. */
  lemma AdjustedNames(e: Entry, c: Caller, catalog: seq<Model>, n: string)
    ensures n in GatewayNames(Adjust(e, c, catalog)) <==> n in GatewayNames(e)
    ensures GatewayNames(Adjust(e, c, catalog)) == [] <==> GatewayNames(e) == []
  {
    var a, b := GatewayNames(Adjust(e, c, catalog)), GatewayNames(e);
    forall m ensures m in a <==> m in b {
      AdjustNames(e, c, catalog);
      OrderKeepsNames(RoleOf(catalog), c.roles, PreferenceNames(e), m);
      GatewayNamesAre(e);
      GatewayNamesAre(Adjust(e, c, catalog));
      NonEmptyMembers(PreferenceNames(e), m);
      NonEmptyMembers(PreferenceNames(Adjust(e, c, catalog)), m);
    }
    assert a != [] ==> a[0] in b;
    assert b != [] ==> b[0] in a;
  }

  lemma EditedOpens(corp: seq<Entry>, catalog: seq<Model>, c: Caller, j: nat, n: string)
    requires c.name != "" && c.task != "" && IndexOf(corp, CallerKey(c)) == Some(j)
    ensures Open(Loaded(Adjust(corp[j], c, catalog), CallerKey(c), GateOf(corp[..j], CallerKey(c))), n)
       <==> n !in ExcludeFor(corp, catalog, c) && Admits(LastNamed(corp, CallerKey(c)), n)
  {
    var e, key := corp[j], CallerKey(c);
    AdjustNames(e, c, catalog);
    AdjustedNames(e, c, catalog, n);
    GateAt(corp, key, j);
    GateNames(corp, key);
    GateNames(corp[..j], key);
    assert OrEmpty(Adjust(e, c, catalog).exclude)
        == if Excluded(catalog, c.forbidden) != [] then Excluded(catalog, c.forbidden) else OrEmpty(e.exclude);
  }

  lemma FreshOpens(corp: seq<Entry>, catalog: seq<Model>, c: Caller, n: string)
    requires c.name != "" && c.task != "" && IndexOf(corp, CallerKey(c)) == None
    ensures Open(if Needed(c, catalog) then Loaded(Fresh(c, catalog), CallerKey(c), NOTHING) else NOTHING, n)
       <==> n !in ExcludeFor(corp, catalog, c) && Admits(LastNamed(corp, CallerKey(c)), n)
  {
    GateNone(corp, CallerKey(c));
    GateNames(corp, CallerKey(c));
  }

  /** Which models the gateway leaves open to a caller, told from the corp policy and the caller alone. */
  lemma OpenExactly(corp: seq<Entry>, catalog: seq<Model>, callers: seq<Caller>, k: nat, n: string)
    requires DistinctCallers(callers) && k < |callers| && callers[k].name != "" && callers[k].task != ""
    ensures Open(GateOf(Policy(corp, catalog, callers), CallerKey(callers[k])), n)
       <==> n !in ExcludeFor(corp, catalog, callers[k]) && Admits(LastNamed(corp, CallerKey(callers[k])), n)
  {
    CallerGate(corp, catalog, callers, k);
    match IndexOf(corp, CallerKey(callers[k]))
    case Some(j) => EditedOpens(corp, catalog, callers[k], j, n);
    case None => FreshOpens(corp, catalog, callers[k], n);
  }

  // ---------------------------------------------------------------- agreement

  function CallerOf(a: Agent, t: Task): Caller {
    Caller(a.name, t.name, if t.preferred != [] then t.preferred else a.preferred, a.forbidden + t.forbidden)
  }

  lemma {:induction false} ExcludedExactly(catalog: seq<Model>, forbidden: set<string>, n: string)
    ensures n in Excluded(catalog, forbidden)
       <==> exists i :: 0 <= i < |catalog| && catalog[i].name == n && RoleForbidden(catalog[i], forbidden)
  {
    if catalog != [] {
      var rest := catalog[1..];
      ExcludedExactly(rest, forbidden, n);
      if i :| 0 <= i < |rest| && rest[i].name == n && RoleForbidden(rest[i], forbidden) {
        assert catalog[i + 1] == rest[i];
      }
      if i :| 0 <= i < |catalog| && catalog[i].name == n && RoleForbidden(catalog[i], forbidden) {
        assert i > 0 ==> rest[i - 1] == catalog[i];
      }
    }
  }

  /** A row both derivations take into account: local, published, and eligible at the agent's levels. */
  predicate Eligible(r: Release, a: Agent, m: Model) {
    m.isLocal && m.name in r.published && m.eligibleFor * Levels(a.classification) != {}
  }

  /** A row of a forbidden role that no exclusion can name: the gateway drops empty names. */
  predicate Escapes(m: Model, c: Caller) { m.name == "" && RoleForbidden(m, c.forbidden) }

  /** With distinct names a row is excluded by its caller exactly when its role is forbidden and it has a name. */
  lemma OwnExcludeExactly(catalog: seq<Model>, c: Caller, j: nat)
    requires j < |catalog|
    ensures RoleForbidden(catalog[j], c.forbidden) && !Escapes(catalog[j], c) ==>
              catalog[j].name in OwnExclude(catalog, c)
    ensures DistinctNames(catalog) && catalog[j].name in OwnExclude(catalog, c) ==>
              RoleForbidden(catalog[j], c.forbidden)
  {
    ExcludedExactly(catalog, c.forbidden, catalog[j].name);
    NonEmptyMembers(Excluded(catalog, c.forbidden), catalog[j].name);
  }

  /** The last strict entry of the key lists `n`, or there is none. */
  predicate Lists(corp: seq<Entry>, k: Key, n: string) {
    LastStrict(corp, k).Some? ==> n in ListedNames(LastStrict(corp, k).value)
  }

  /** For any corp policy: an eligible row that the gateway leaves open to a task is reached by the
      subscriptions exactly when the key's last strict entry, if there is one, lists it (and the row is not a
      forbidden one without a name). */
  lemma OpenIsReached(r: Release, callers: seq<Caller>, a: Agent, t: Task, j: nat, k: nat)
    requires DistinctCallers(callers) && k < |callers| && callers[k] == CallerOf(a, t)
    requires j < |r.catalog| && a.name != "" && t.name != "" && Eligible(r, a, r.catalog[j])
    requires Open(GateOf(Policy(r.corp, r.catalog, callers), (a.name, t.name)), r.catalog[j].name)
    ensures TaskReaches(r, a, t, r.catalog[j])
       <==> Lists(r.corp, (a.name, t.name), r.catalog[j].name) && !Escapes(r.catalog[j], callers[k])
  {
    var c, m := callers[k], r.catalog[j];
    OpenExactly(r.corp, r.catalog, callers, k, m.name);
    OwnExcludeExactly(r.catalog, c, j);
  }

  /** Conversely a row the subscriptions reach is left open exactly when the exclusions that apply to the
      caller do not name it and the last entry with names, if it is strict, lists it. */
  lemma ReachedIsOpen(r: Release, callers: seq<Caller>, a: Agent, t: Task, j: nat, k: nat)
    requires DistinctCallers(callers) && k < |callers| && callers[k] == CallerOf(a, t)
    requires j < |r.catalog| && a.name != "" && t.name != "" && DistinctNames(r.catalog)
    requires TaskReaches(r, a, t, r.catalog[j])
    ensures Open(GateOf(Policy(r.corp, r.catalog, callers), (a.name, t.name)), r.catalog[j].name)
       <==> (OwnExclude(r.catalog, callers[k]) == [] ==>
               r.catalog[j].name !in CorpExclude(r.corp, r.catalog, callers[k]))
            && Admits(LastNamed(r.corp, (a.name, t.name)), r.catalog[j].name)
  {
    var c, m := callers[k], r.catalog[j];
    OpenExactly(r.corp, r.catalog, callers, k, m.name);
    OwnExcludeExactly(r.catalog, c, j);
  }

  /** The corp entries of a key agree with themselves: no entry is strict, or the list the gateway keeps is
      strict and every name of it is listed by the last strict entry. */
  predicate Agreeing(corp: seq<Entry>, k: Key) {
    LastStrict(corp, k).None?
    || (LastNamed(corp, k).Some? && LastNamed(corp, k).value.strict
        && forall n | n in GatewayNames(LastNamed(corp, k).value) :: n in ListedNames(LastStrict(corp, k).value))
  }

  /** Then the two derivations agree on every release: open means reached, but for forbidden rows without a name. */
  lemma AgreeingOpensReach(r: Release, callers: seq<Caller>, a: Agent, t: Task, j: nat, k: nat)
    requires DistinctCallers(callers) && k < |callers| && callers[k] == CallerOf(a, t)
    requires j < |r.catalog| && a.name != "" && t.name != "" && Eligible(r, a, r.catalog[j])
    requires Open(GateOf(Policy(r.corp, r.catalog, callers), (a.name, t.name)), r.catalog[j].name)
    requires Agreeing(r.corp, (a.name, t.name))
    ensures TaskReaches(r, a, t, r.catalog[j]) <==> !Escapes(r.catalog[j], callers[k])
  {
    OpenIsReached(r, callers, a, t, j, k);
    OpenExactly(r.corp, r.catalog, callers, k, r.catalog[j].name);
  }

  /** One entry per key is not needed for that: the last strict entry may also be the last one with names. */
  lemma LastOfBothAgrees(corp: seq<Entry>, k: Key)
    requires LastStrict(corp, k).Some? && LastNamed(corp, k) == LastStrict(corp, k)
    ensures Agreeing(corp, k)
  {
    var e := LastNamed(corp, k).value;
    GatewayNamesAre(e);
    forall n | n in GatewayNames(e) ensures n in ListedNames(e) { NonEmptyMembers(PreferenceNames(e), n); }
  }

  /** A name the gateway admits and the last strict entry does not list. */
  lemma SplitName(corp: seq<Entry>, k: Key) returns (n: string)
    requires !Agreeing(corp, k)
    ensures Admits(LastNamed(corp, k), n) && !Lists(corp, k, n) && n != ""
  {
    if LastNamed(corp, k).Some? && LastNamed(corp, k).value.strict {
      var e := LastNamed(corp, k).value;
      n :| n in GatewayNames(e) && n !in ListedNames(LastStrict(corp, k).value);
      GatewayNamesAre(e);
      NonEmptyMembers(PreferenceNames(e), n);
    } else {
      n := LongerThan(ListedNames(LastStrict(corp, k).value));
    }
  }

  function SplitCatalog(n: string, other: string): seq<Model> {
    [Model(n, None, true, {"C1"}), Model(other, Some("banned"), true, {"C1"})]
  }

  lemma SplitExclude(n: string, other: string, c: Caller)
    requires other != "" && c.forbidden == {} + {"banned"}
    ensures OwnExclude(SplitCatalog(n, other), c) == [other]
  {
    var catalog := SplitCatalog(n, other);
    assert Excluded(catalog[1..][1..], c.forbidden) == [];
    assert Excluded(catalog[1..], c.forbidden) == [other];
    assert Excluded(catalog, c.forbidden) == [other];
    assert NonEmpty([other][1..]) == [];
  }

  /** And only then: whenever the corp entries of a key do not agree, there is a release with that corp policy
      and a model that is open to the key's task and that no subscription reaches. */
  lemma DisagreeingSplits(corp: seq<Entry>, name: string, task: string) returns (r: Release, callers: seq<Caller>)
    requires !Agreeing(corp, (name, task)) && name != "" && task != ""
    ensures r.corp == corp && |r.view| == 1 && |r.view[0].tasks| == 1 && |r.catalog| == 2 && |callers| == 1
    ensures DistinctNames(r.catalog)
    ensures var a, m := r.view[0], r.catalog[0]; var t := a.tasks[0];
            a.name == name && t.name == task && MaasSubscriptions.Served(a) && callers[0] == CallerOf(a, t)
            && Eligible(r, a, m)
            && Open(GateOf(Policy(r.corp, r.catalog, callers), (name, task)), m.name) && !TaskReaches(r, a, t, m)
  {
    var n := SplitName(corp, (name, task));
    var other := LongerThan([n]);
    assert other != n by { assert n in [n]; }
    var t := Task(task, [], {"banned"});
    var a := Agent(name, "active", Some("C1"), [], [], {}, [t]);
    r := Release([a], corp, SplitCatalog(n, other), map[n := "small"]);
    callers := [CallerOf(a, t)];
    assert "C1" in r.catalog[0].eligibleFor * Levels(a.classification);
    SplitExclude(n, other, callers[0]);
    OpenExactly(corp, r.catalog, callers, 0, n);
    OpenIsReached(r, callers, a, t, 0, 0);
  }

  /** So what the generated routing leaves open to a served agent, and the last strict entry lists, has a
      subscription naming the agent and all its groups. */
  lemma OpenModelsAreSubscribed(r: Release, callers: seq<Caller>, out: map<string, Subscription>,
                                n: nat, i: nat, j: nat, k: nat)
    requires Exact(r, out, |r.view|)
    requires DistinctCallers(callers) && n < |r.view| && Served(r.view[n])
    requires i < |r.view[n].tasks| && k < |callers| && callers[k] == CallerOf(r.view[n], r.view[n].tasks[i])
    requires j < |r.catalog| && r.view[n].name != "" && r.view[n].tasks[i].name != ""
    requires Eligible(r, r.view[n], r.catalog[j])
    requires Open(GateOf(Policy(r.corp, r.catalog, callers), CallerKey(callers[k])), r.catalog[j].name)
    requires Lists(r.corp, CallerKey(callers[k]), r.catalog[j].name) && !Escapes(r.catalog[j], callers[k])
    ensures var model := r.published[r.catalog[j].name];
            model in out && r.view[n].name in out[model].agents && Slashed(r.view[n].groups) <= out[model].groups
  {
    var a, model := r.view[n], r.published[r.catalog[j].name];
    OpenIsReached(r, callers, a, a.tasks[i], j, k);
    assert ReachesBy(r, a, model, i, j);
    assert n in Subscribers(r, model, |r.view|);
  }

  // ---------------------------------------------------------------- two corp policies that do not agree

  /** A strict entry that names no model, by an empty list or by empty names only: the gateway ignores it, the
      subscriptions narrow by it. Alone it disagrees, and so it does behind loose entries of its key. */
  lemma BlankStrictDisagrees(before: seq<Entry>, e: Entry)
    requires e.strict && GatewayNames(e) == []
    requires forall i | 0 <= i < |before| && KeyOf(before[i]) == KeyOf(e) :: !before[i].strict
    ensures !Agreeing(before + [e], KeyOf(e))
  {
    assert (before + [e])[..|before|] == before;
    assert LastStrict(before + [e], KeyOf(e)) == Some(e);
    LooseBefore(before, KeyOf(e));
  }

  lemma {:induction false} LooseBefore(corp: seq<Entry>, k: Key)
    requires forall i | 0 <= i < |corp| && KeyOf(corp[i]) == k :: !corp[i].strict
    ensures LastNamed(corp, k).Some? ==> !LastNamed(corp, k).value.strict
  {
    if corp != [] { LooseBefore(corp[..|corp| - 1], k); }
  }

  /** Two entries for one key, neither of them empty: a strict one and then one that is not. The gateway keeps
      the second, the subscriptions the first. */
  lemma RepeatedKeyDisagrees(name: string, task: string)
    ensures var strict := Entry(name, task, Some(["x"]), None, None, true, None, map[]);
            var loose := Entry(name, task, Some(["y"]), None, None, false, None, map[]);
            !Agreeing([strict, loose], (name, task)) && Agreeing([loose, strict], (name, task))
  {
    var key := (name, task);
    var strict := Entry(name, task, Some(["x"]), None, None, true, None, map[]);
    var loose := Entry(name, task, Some(["y"]), None, None, false, None, map[]);
    assert [strict, loose][..1] == [strict] && [loose, strict][..1] == [loose];
    assert [strict][..0] == [] && [loose][..0] == [];
    assert LastStrict([strict], key) == Some(strict) == LastStrict([strict, loose], key);
    assert LastNamed([strict, loose], key) == Some(loose);
    assert LastNamed([loose, strict], key) == Some(strict) == LastStrict([loose, strict], key);
  }
}
