/**
 * platform/okf/generate_stack_config.py, maas_agent_subscriptions: the published models every served agent
 * can reach.
 */
module MaasSubscriptions {
  import opened Util
  import opened ModelRouting

  datatype Task = Task(name: string, preferred: seq<string>, forbidden: set<string>)

  datatype Agent = Agent(name: string, status: string, classification: Option<string>, groups: seq<string>,
                         preferred: seq<string>, forbidden: set<string>, tasks: seq<Task>)

  datatype Subscription = Subscription(agents: set<string>, groups: set<string>)

  /** What both derivations read from the release, and the published name of each local provider. */
  datatype Release = Release(view: seq<Agent>, corp: seq<Entry>, catalog: seq<Model>, published: map<string, string>)

  predicate Served(a: Agent) { a.status == "active" || a.status == "deprecated" }

  function Levels(classification: Option<string>): set<string> {
    match classification
    case Some(c) => if c == "C1" then {"C1"} else if c == "C2" then {"C1", "C2"} else {"C1", "C2", "C3"}
    case None => {"C1", "C2", "C3"}
  }

  /** The names a strict entry lists here: all three keys, whichever shape the entry uses. */
  function ListedNames(e: Entry): seq<string> { OrEmpty(e.prefer) + OrEmpty(e.preferred) + OrEmpty(e.fallback) }

  /** The last strict entry of a key. */
  function LastStrict(corp: seq<Entry>, k: Key): (r: Option<Entry>)
    ensures r.Some? ==> r.value.strict && KeyOf(r.value) == k
  {
    if corp == [] then None
    else
      var e := corp[|corp| - 1];
      if e.strict && KeyOf(e) == k then Some(e) else LastStrict(corp[..|corp| - 1], k)
  }

  /** The names the subscriptions narrow a task to, if they narrow it. */
  function StrictList(corp: seq<Entry>, k: Key): Option<seq<string>> {
    match LastStrict(corp, k) case None => None case Some(e) => Some(ListedNames(e))
  }

  predicate RoleForbidden(m: Model, forbidden: set<string>) { m.role.Some? && m.role.value in forbidden }

  /** Catalog row `m` is one the task can be routed to, as the subscriptions see it. */
  predicate TaskReaches(r: Release, a: Agent, t: Task, m: Model) {
    m.isLocal && m.name in r.published
    && m.eligibleFor * Levels(a.classification) != {}
    && !RoleForbidden(m, a.forbidden + t.forbidden)
    && (var listed := StrictList(r.corp, (a.name, t.name)); listed.Some? ==> m.name in listed.value)
  }

  /** Some task of the agent reaches some row published as `model`. */
  ghost predicate Reaches(r: Release, a: Agent, model: string) {
    exists i, j :: 0 <= i < |a.tasks| && 0 <= j < |r.catalog| && ReachesBy(r, a, model, i, j)
  }

  predicate ReachesBy(r: Release, a: Agent, model: string, i: nat, j: nat)
    requires i < |a.tasks| && j < |r.catalog|
  {
    TaskReaches(r, a, a.tasks[i], r.catalog[j]) && r.published[r.catalog[j].name] == model
  }

  ghost predicate Subscribes(r: Release, model: string, k: nat)
    requires k < |r.view|
  {
    Served(r.view[k]) && Reaches(r, r.view[k], model)
  }

  // ---------------------------------------------------------------- the loops

  method Reach(r: Release, a: Agent) returns (reach: set<string>)
    ensures forall model :: model in reach <==> Reaches(r, a, model)
  {
    reach := {};
    for i := 0 to |a.tasks|
      invariant forall model :: model in reach <==>
                  exists p, q :: 0 <= p < i && 0 <= q < |r.catalog| && ReachesBy(r, a, model, p, q)
    {
      ghost var before := reach;
      var t := a.tasks[i];
      var forbidden := a.forbidden + t.forbidden;
      var listed := StrictList(r.corp, (a.name, t.name));
      for j := 0 to |r.catalog|
        invariant forall model :: model in reach <==>
                    model in before || exists q :: 0 <= q < j && ReachesBy(r, a, model, i, q)
      {
        var m := r.catalog[j];
        if !m.isLocal || m.name !in r.published {
          continue;
        }
        if m.eligibleFor * Levels(a.classification) == {} || RoleForbidden(m, forbidden) {
          continue;
        }
        if listed.Some? && m.name !in listed.value {
          continue;
        }
        assert ReachesBy(r, a, r.published[m.name], i, j);
        reach := reach + {r.published[m.name]};
      }
    }
  }

  function Slashed(groups: seq<string>): set<string> { set g | g in groups :: "/" + g }

  /** The first `n` agents of the view that are served and reach `model`. */
  ghost function Subscribers(r: Release, model: string, n: nat): set<nat>
    requires n <= |r.view|
  {
    set k: nat | k < n && Subscribes(r, model, k)
  }

  ghost function NamesOf(r: Release, ks: set<nat>): set<string> { set k | k in ks && k < |r.view| :: r.view[k].name }

  ghost function GroupsOf(r: Release, ks: set<nat>): set<string> {
    set k, g | k in ks && k < |r.view| && g in Slashed(r.view[k].groups) :: g
  }

  /** `out` holds exactly the models some of the first `n` agents subscribe to, each with exactly the names and
      exactly the groups of those agents. */
  ghost predicate Exact(r: Release, out: map<string, Subscription>, n: nat)
    requires n <= |r.view|
  {
    forall model :: ExactFor(r, out, model, Subscribers(r, model, n))
  }

  ghost predicate ExactFor(r: Release, out: map<string, Subscription>, model: string, ks: set<nat>) {
    if ks == {} then model !in out
    else model in out && out[model] == Subscription(NamesOf(r, ks), GroupsOf(r, ks))
  }

  method MaasAgentSubscriptions(r: Release) returns (out: map<string, Subscription>)
    ensures Exact(r, out, |r.view|)
  {
    out := map[];
    for n := 0 to |r.view|
      invariant Exact(r, out, n)
    {
      var a := r.view[n];
      ghost var before := out;
      if !Served(a) {
        NoneAdded(before, a.name, Slashed(a.groups));
        StepIsExact(r, before, n, {});
        continue;
      }
      var reach := Reach(r, a);
      out := AddAgent(out, a.name, Slashed(a.groups), reach);
      StepIsExact(r, before, n, reach);
    }
  }

  function EntryFor(out: map<string, Subscription>, model: string): Subscription {
    if model in out then out[model] else Subscription({}, {})
  }

  function Extended(out: map<string, Subscription>, name: string, groups: set<string>, model: string): Subscription {
    Subscription(EntryFor(out, model).agents + {name}, EntryFor(out, model).groups + groups)
  }

  function Added(out: map<string, Subscription>, name: string, groups: set<string>, reach: set<string>)
    : map<string, Subscription>
  {
    map model | model in out.Keys + reach :: if model in reach then Extended(out, name, groups, model) else out[model]
  }

  /** One agent appended to the entry of every model it reaches. */
  method AddAgent(start: map<string, Subscription>, name: string, groups: set<string>, reach: set<string>)
    returns (out: map<string, Subscription>)
    ensures out == Added(start, name, groups, reach)
  {
    out := start;
    var todo := reach;
    while todo != {}
      invariant todo <= reach
      invariant forall m :: m in out <==> m in start || (m in reach && m !in todo)
      invariant forall m | m in out ::
                  out[m] == if m in reach && m !in todo then Extended(start, name, groups, m) else start[m]
      decreases todo
    {
      var model :| model in todo;
      assert EntryFor(out, model) == EntryFor(start, model);
      todo := todo - {model};
      out := out[model := Extended(out, name, groups, model)];
    }
  }

  lemma NoneAdded(out: map<string, Subscription>, name: string, groups: set<string>)
    ensures Added(out, name, groups, {}) == out
  {
    assert out.Keys + {} == out.Keys;
  }

  /** One more subscriber adds its name and its groups. */
  lemma OneMore(r: Release, ks: set<nat>, n: nat)
    requires n < |r.view|
    ensures NamesOf(r, ks + {n}) == NamesOf(r, ks) + {r.view[n].name}
    ensures GroupsOf(r, ks + {n}) == GroupsOf(r, ks) + Slashed(r.view[n].groups)
  {
    forall g ensures g in GroupsOf(r, ks + {n}) <==> g in GroupsOf(r, ks) || g in Slashed(r.view[n].groups) {
      if g in GroupsOf(r, ks) || g in Slashed(r.view[n].groups) { assert n in ks + {n} && ks <= ks + {n}; }
    }
  }

  lemma SubscribersStep(r: Release, model: string, n: nat)
    requires n < |r.view|
    ensures Subscribers(r, model, n + 1) == Subscribers(r, model, n) + (if Subscribes(r, model, n) then {n} else {})
  {
  }

  lemma StepFor(r: Release, before: map<string, Subscription>, n: nat, reach: set<string>, model: string, ks: set<nat>)
    requires n < |r.view| && ExactFor(r, before, model, ks)
    ensures ExactFor(r, Added(before, r.view[n].name, Slashed(r.view[n].groups), reach), model,
                     ks + (if model in reach then {n} else {}))
  {
    OneMore(r, ks, n);
    assert NamesOf(r, {}) == {} && GroupsOf(r, {}) == {};
    if model in reach { assert n in ks + {n}; } else { assert ks + {} == ks; }
  }

  lemma StepIsExact(r: Release, before: map<string, Subscription>, n: nat, reach: set<string>)
    requires n < |r.view| && Exact(r, before, n)
    requires forall model :: model in reach <==> Subscribes(r, model, n)
    ensures Exact(r, Added(before, r.view[n].name, Slashed(r.view[n].groups), reach), n + 1)
  {
    var out, next := Added(before, r.view[n].name, Slashed(r.view[n].groups), reach), n + 1;
    forall model ensures ExactFor(r, out, model, Subscribers(r, model, next)) {
      StepFor(r, before, n, reach, model, Subscribers(r, model, n));
      SubscribersStep(r, model, n);
    }
  }
}
