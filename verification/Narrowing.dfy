/**
 * platform/supply-chain/okf_narrowing.py: an agent bundle may only narrow what the corp policies allow.
 */
module Narrowing {
  import opened Util

  // Files are maps from their names to their parsed frontmatter; a finding keeps what it is about and leaves
  // the wording out.

  /** A YAML value under a key: the key may be absent, null, or hold a value. */
  datatype Field<T> = Absent | Null | Given(value: T)

  // ---------------------------------------------------------------- the corp policies

  datatype CatalogModel = CatalogModel(role: string, eligibleFor: seq<string>)

  datatype Corp = Corp(roles: map<string, set<string>>, modes: seq<string>, minMode: map<string, string>,
                       categories: set<string>, maxTokens: Option<int>, maxConcurrent: Option<int>,
                       maxSteps: Option<int>, maxDepth: Option<int>, quotaClasses: set<string>)

  // ---------------------------------------------------------------- what a release declares

  datatype Models = Models(preferred: seq<string>, forbidden: seq<string>)

  /** `delegation` is None when that section is absent or empty; its depth may be unset. */
  datatype Limits = Limits(maxTokens: Field<int>, maxConcurrent: Field<int>, maxSteps: Field<int>,
                           delegation: Option<Option<int>>, quotaClass: Field<string>)

  datatype Skill = Skill(isSkill: bool, tools: seq<string>, knowledge: seq<string>)

  /** A task file; the last two fields are its top-level aliases of two limits. */
  datatype Task = Task(models: Models, limits: Limits, tools: seq<string>, knowledge: seq<string>,
                       skills: seq<string>, maxTokens: Field<int>, quotaClass: Field<string>)

  datatype Target = Target(agent: Option<string>, task: Option<string>)

  /** A mode or a classification of "" is unset. `delegation` is None when absent or empty. */
  datatype Bundle = Bundle(version: string, name: Option<string>, classification: string, models: Models,
                           limits: Limits, delegation: Option<seq<Target>>, mode: string,
                           categories: seq<string>, tasks: seq<string>,
                           taskFiles: map<string, Task>, skillFiles: map<string, Skill>)

  /** `order` lists the agent directories as the source visits them. */
  datatype Release = Release(order: seq<string>, agents: map<string, Bundle>, corpSkills: map<string, Skill>)

  // ---------------------------------------------------------------- findings

  datatype Place = AgentFile(agent: string) | TaskFile(owner: string, task: string)

  datatype Dim = MaxTokens | MaxConcurrent | MaxSteps | MaxDepth

  datatype Finding =
    | UnknownRole(place: Place, role: string)
    | Ineligible(place: Place, role: string)
    | PreferredAndForbidden(place: Place, role: string)
    | OverCeiling(place: Place, dim: Dim)
    | UnknownQuotaClass(place: Place, class_: string)
    | SelfTarget(place: Place)
    | MissingAgent(place: Place, agent: string)
    | MissingTask(place: Place, agent: string, task: string)
    | WeakMode(place: Place)
    | UnknownCategory(place: Place, category: string)
    | MissingSkill(place: Place, ref: string)
    | NotASkill(place: Place, ref: string)
    | NeedsTool(place: Place, ref: string, tool: string)
    | NeedsKnowledge(place: Place, ref: string, domain: string)
    | DelegationTooEarly(place: Place)

  type Findings = seq<Finding>

  /** The findings of two checks in turn; an exception of the first hides the second. */
  function Then(a: Result<Findings>, b: Result<Findings>): Result<Findings> {
    if a.Err? then a else if b.Err? then b else Ok(a.value + b.value)
  }

  lemma ThenAssoc(out: Findings, a: Result<Findings>, b: Result<Findings>)
    ensures Then(Ok(out), Then(a, b)) == Then(Then(Ok(out), a), b)
  {
    if a.Ok? && b.Ok? { Assoc(out, a.value, b.value); }
  }

  lemma ThenNothing(a: Result<Findings>)
    ensures Then(a, Ok([])) == a && Then(Ok([]), a) == a
  {
    if a.Ok? { assert a.value + [] == a.value && [] + a.value == a.value; }
  }

  // ---------------------------------------------------------------- Python's sorted(set)

  predicate Ascending(s: seq<string>) { forall i, j :: 0 <= i < j < |s| ==> Less(s[i], s[j]) }

  function Insert(x: string, s: seq<string>): seq<string> {
    if s == [] || Less(x, s[0]) then [x] + s
    else if x == s[0] then s
    else [s[0]] + Insert(x, s[1..])
  }

  /** The members of `s` that are in `keep`, each once, in ascending order. */
  function SortedIn(s: seq<string>, keep: set<string>): seq<string> {
    if s == [] then []
    else if s[0] in keep then Insert(s[0], SortedIn(s[1..], keep))
    else SortedIn(s[1..], keep)
  }

  function Members(s: seq<string>): set<string> { set i | 0 <= i < |s| :: s[i] }

  lemma {:induction false} InsertKeepsAscending(x: string, s: seq<string>)
    requires Ascending(s)
    ensures Ascending(Insert(x, s)) && forall y :: y in Insert(x, s) <==> y == x || y in s
  {
    if s != [] {
      var rest := s[1..];
      assert s == [s[0]] + rest;
      LessIsTotal(x, s[0]);
      if Less(x, s[0]) {
        forall j | 0 <= j < |s| ensures Less(x, s[j]) {
          if j > 0 { LessIsTransitive(x, s[0], s[j]); }
        }
      } else if x != s[0] {
        InsertKeepsAscending(x, rest);
        var tail := Insert(x, rest);
        forall j | 0 <= j < |tail| ensures Less(s[0], tail[j]) {
          assert tail[j] in tail;
          if tail[j] != x {
            var k :| 0 <= k < |rest| && rest[k] == tail[j];
            assert s[k + 1] == rest[k];
          }
        }
      }
    }
  }

  lemma {:induction false} SortedInIsSorted(s: seq<string>, keep: set<string>)
    ensures Ascending(SortedIn(s, keep))
    ensures forall y :: y in SortedIn(s, keep) <==> y in s && y in keep
  {
    if s != [] {
      SortedInIsSorted(s[1..], keep);
      assert forall y :: y in s <==> y == s[0] || y in s[1..];
      if s[0] in keep { InsertKeepsAscending(s[0], SortedIn(s[1..], keep)); }
    }
  }

  // ---------------------------------------------------------------- model roles

  predicate Eligible(role: string, classification: string, corp: Corp) {
    role in corp.roles ==> classification == "" || classification in corp.roles[role]
  }

  function UnknownAt(place: Place, role: string, corp: Corp): Findings {
    if role in corp.roles then [] else [UnknownRole(place, role)]
  }

  function IneligibleAt(place: Place, role: string, classification: string, corp: Corp): Findings {
    if Eligible(role, classification, corp) then [] else [Ineligible(place, role)]
  }

  function UnknownRoles(place: Place, roles: seq<string>, corp: Corp): Findings {
    if roles == [] then []
    else UnknownAt(place, roles[0], corp) + UnknownRoles(place, roles[1..], corp)
  }

  function IneligibleRoles(place: Place, roles: seq<string>, classification: string, corp: Corp): Findings {
    if roles == [] then []
    else IneligibleAt(place, roles[0], classification, corp) + IneligibleRoles(place, roles[1..], classification, corp)
  }

  function Conflicts(place: Place, roles: seq<string>): Findings {
    if roles == [] then [] else [PreferredAndForbidden(place, roles[0])] + Conflicts(place, roles[1..])
  }

  function ModelFindings(place: Place, m: Models, classification: string, corp: Corp): Findings {
    UnknownRoles(place, m.preferred + m.forbidden, corp)
    + IneligibleRoles(place, m.preferred, classification, corp)
    + Conflicts(place, SortedIn(m.preferred, Members(m.forbidden)))
  }

  method CheckKnown(place: Place, roles: seq<string>, corp: Corp) returns (out: Findings)
    ensures out == UnknownRoles(place, roles, corp)
  {
    out := [];
    for i := 0 to |roles|
      invariant out + UnknownRoles(place, roles[i..], corp) == UnknownRoles(place, roles, corp)
    {
      assert roles[i..][1..] == roles[i + 1..];
      Assoc(out, UnknownAt(place, roles[i], corp), UnknownRoles(place, roles[i + 1..], corp));
      out := out + UnknownAt(place, roles[i], corp);
    }
  }

  method CheckEligible(place: Place, roles: seq<string>, classification: string, corp: Corp) returns (out: Findings)
    ensures out == IneligibleRoles(place, roles, classification, corp)
  {
    out := [];
    for i := 0 to |roles|
      invariant out + IneligibleRoles(place, roles[i..], classification, corp)
             == IneligibleRoles(place, roles, classification, corp)
    {
      assert roles[i..][1..] == roles[i + 1..];
      Assoc(out, IneligibleAt(place, roles[i], classification, corp),
            IneligibleRoles(place, roles[i + 1..], classification, corp));
      out := out + IneligibleAt(place, roles[i], classification, corp);
    }
  }

  method CheckModels(place: Place, m: Models, classification: string, corp: Corp) returns (out: Findings)
    ensures out == ModelFindings(place, m, classification, corp)
  {
    var unknown := CheckKnown(place, m.preferred + m.forbidden, corp);
    var ineligible := CheckEligible(place, m.preferred, classification, corp);
    var both := SortedIn(m.preferred, Members(m.forbidden));
    var conflicts: Findings := [];
    for i := 0 to |both|
      invariant conflicts + Conflicts(place, both[i..]) == Conflicts(place, both)
    {
      assert both[i..][1..] == both[i + 1..];
      conflicts := conflicts + [PreferredAndForbidden(place, both[i])];
    }
    return unknown + ineligible + conflicts;
  }

  // ---------------------------------------------------------------- limits

  /** Python's `value or 0`. */
  function Amount(f: Field<int>): int { if f.Given? then f.value else 0 }

  /** The finding's text indexes the key, so an absent key over a negative ceiling raises KeyError. */
  function CeilingFindings(place: Place, dim: Dim, f: Field<int>, ceiling: Option<int>): Result<Findings> {
    if ceiling.None? || Amount(f) <= ceiling.value then Ok([])
    else if f.Absent? then Err("KeyError")
    else Ok([OverCeiling(place, dim)])
  }

  function DepthFindings(place: Place, delegation: Option<Option<int>>, ceiling: Option<int>): Findings {
    if ceiling.Some? && delegation.Some? && delegation.value.Some? && delegation.value.value > ceiling.value
    then [OverCeiling(place, MaxDepth)] else []
  }

  function QuotaFindings(place: Place, qc: Field<string>, corp: Corp): Findings {
    if qc.Given? && qc.value !in corp.quotaClasses then [UnknownQuotaClass(place, qc.value)] else []
  }

  function LimitFindings(place: Place, l: Limits, corp: Corp): Result<Findings> {
    Then(CeilingFindings(place, MaxTokens, l.maxTokens, corp.maxTokens),
    Then(CeilingFindings(place, MaxConcurrent, l.maxConcurrent, corp.maxConcurrent),
    Then(CeilingFindings(place, MaxSteps, l.maxSteps, corp.maxSteps),
         Ok(DepthFindings(place, l.delegation, corp.maxDepth) + QuotaFindings(place, l.quotaClass, corp)))))
  }

  method CheckLimits(place: Place, l: Limits, corp: Corp) returns (r: Result<Findings>)
    ensures r == LimitFindings(place, l, corp)
  {
    var tokens := CeilingFindings(place, MaxTokens, l.maxTokens, corp.maxTokens);
    if tokens.Err? { return tokens; }
    var concurrent := CeilingFindings(place, MaxConcurrent, l.maxConcurrent, corp.maxConcurrent);
    if concurrent.Err? { return concurrent; }
    var steps := CeilingFindings(place, MaxSteps, l.maxSteps, corp.maxSteps);
    if steps.Err? { return steps; }
    var rest := DepthFindings(place, l.delegation, corp.maxDepth) + QuotaFindings(place, l.quotaClass, corp);
    return Ok(tokens.value + (concurrent.value + (steps.value + rest)));
  }

  /** A task's limits, completed by its top-level aliases where the section lacks the key. */
  function TaskLimits(t: Task): Limits {
    t.limits.(maxTokens := if t.limits.maxTokens.Absent? then t.maxTokens else t.limits.maxTokens,
              quotaClass := if t.limits.quotaClass.Absent? then t.quotaClass else t.limits.quotaClass)
  }

  // ---------------------------------------------------------------- delegation

  /** Python's str() of a name that may be None. */
  function Shown(o: Option<string>): string { if o.Some? then o.value else "None" }

  function OwnName(dir: string, b: Bundle): string { if b.name.Some? then b.name.value else dir }

  function TargetFindings(dir: string, t: Target, b: Bundle, rel: Release): Findings {
    var agent := Shown(t.agent);
    if t.agent == Some(OwnName(dir, b)) then [SelfTarget(AgentFile(dir))]
    else if agent !in rel.agents then [MissingAgent(AgentFile(dir), agent)]
    else if Shown(t.task) !in rel.agents[agent].taskFiles then [MissingTask(AgentFile(dir), agent, Shown(t.task))]
    else []
  }

  function Targets(b: Bundle): seq<Target> { if b.delegation.Some? then b.delegation.value else [] }

  function DelegationFindings(dir: string, ts: seq<Target>, b: Bundle, rel: Release): Findings {
    if ts == [] then [] else TargetFindings(dir, ts[0], b, rel) + DelegationFindings(dir, ts[1..], b, rel)
  }

  method CheckDelegation(dir: string, b: Bundle, rel: Release) returns (out: Findings)
    ensures out == DelegationFindings(dir, Targets(b), b, rel)
  {
    out := [];
    var name := OwnName(dir, b);
    var ts := Targets(b);
    for i := 0 to |ts|
      invariant out + DelegationFindings(dir, ts[i..], b, rel) == DelegationFindings(dir, ts, b, rel)
    {
      ghost var was := out;
      assert ts[i..][1..] == ts[i + 1..];
      if ts[i].agent == Some(name) {
        out := out + [SelfTarget(AgentFile(dir))];
      } else if Shown(ts[i].agent) !in rel.agents {
        out := out + [MissingAgent(AgentFile(dir), Shown(ts[i].agent))];
      } else if Shown(ts[i].task) !in rel.agents[Shown(ts[i].agent)].taskFiles {
        out := out + [MissingTask(AgentFile(dir), Shown(ts[i].agent), Shown(ts[i].task))];
      }
      assert out == was + TargetFindings(dir, ts[i], b, rel);
      Assoc(was, TargetFindings(dir, ts[i], b, rel), DelegationFindings(dir, ts[i + 1..], b, rel));
    }
  }

  // ---------------------------------------------------------------- skills

  const CORP_PREFIX := "corp/"

  function FindSkill(ref: string, b: Bundle, rel: Release): Option<Skill> {
    if CORP_PREFIX <= ref then
      var key := ref[|CORP_PREFIX|..];
      if key in rel.corpSkills then Some(rel.corpSkills[key]) else None
    else if ref in b.skillFiles then Some(b.skillFiles[ref]) else None
  }

  function ToolNeeds(place: Place, ref: string, tools: seq<string>): Findings {
    if tools == [] then [] else [NeedsTool(place, ref, tools[0])] + ToolNeeds(place, ref, tools[1..])
  }

  function KnowledgeNeeds(place: Place, ref: string, domains: seq<string>): Findings {
    if domains == [] then [] else [NeedsKnowledge(place, ref, domains[0])] + KnowledgeNeeds(place, ref, domains[1..])
  }

  function Missing(needed: seq<string>, allowed: seq<string>): seq<string> {
    SortedIn(needed, Members(needed) - Members(allowed))
  }

  function SkillFindings(place: Place, ref: string, t: Task, found: Option<Skill>): Findings {
    if found.None? then [MissingSkill(place, ref)]
    else if !found.value.isSkill then [NotASkill(place, ref)]
    else ToolNeeds(place, ref, Missing(found.value.tools, t.tools))
         + KnowledgeNeeds(place, ref, Missing(found.value.knowledge, t.knowledge))
  }

  function SkillsFindings(place: Place, refs: seq<string>, t: Task, b: Bundle, rel: Release): Findings {
    if refs == [] then []
    else SkillFindings(place, refs[0], t, FindSkill(refs[0], b, rel)) + SkillsFindings(place, refs[1..], t, b, rel)
  }

  method CheckSkill(place: Place, ref: string, t: Task, found: Option<Skill>) returns (out: Findings)
    ensures out == SkillFindings(place, ref, t, found)
  {
    if found.None? { return [MissingSkill(place, ref)]; }
    if !found.value.isSkill { return [NotASkill(place, ref)]; }
    out := [];
    var tools := Missing(found.value.tools, t.tools);
    for i := 0 to |tools|
      invariant out + ToolNeeds(place, ref, tools[i..]) == ToolNeeds(place, ref, tools)
    {
      assert tools[i..][1..] == tools[i + 1..];
      out := out + [NeedsTool(place, ref, tools[i])];
    }
    assert tools[|tools|..] == [] && out == ToolNeeds(place, ref, tools);
    ghost var first := out;
    var domains := Missing(found.value.knowledge, t.knowledge);
    for i := 0 to |domains|
      invariant out + KnowledgeNeeds(place, ref, domains[i..]) == first + KnowledgeNeeds(place, ref, domains)
    {
      assert domains[i..][1..] == domains[i + 1..];
      out := out + [NeedsKnowledge(place, ref, domains[i])];
    }
    assert domains[|domains|..] == [] && out == first + KnowledgeNeeds(place, ref, domains);
  }

  method CheckSkills(place: Place, t: Task, b: Bundle, rel: Release) returns (out: Findings)
    ensures out == SkillsFindings(place, t.skills, t, b, rel)
  {
    out := [];
    for i := 0 to |t.skills|
      invariant out + SkillsFindings(place, t.skills[i..], t, b, rel) == SkillsFindings(place, t.skills, t, b, rel)
    {
      var found := FindSkill(t.skills[i], b, rel);
      var more := CheckSkill(place, t.skills[i], t, found);
      assert t.skills[i..][1..] == t.skills[i + 1..];
      Assoc(out, more, SkillsFindings(place, t.skills[i + 1..], t, b, rel));
      out := out + more;
    }
  }

  // ---------------------------------------------------------------- tasks

  function TaskFindings(place: Place, t: Task, b: Bundle, corp: Corp, rel: Release): Result<Findings> {
    Then(Ok(ModelFindings(place, t.models, b.classification, corp)),
    Then(LimitFindings(place, TaskLimits(t), corp), Ok(SkillsFindings(place, t.skills, t, b, rel))))
  }

  /** A listed task without a file is passed over. */
  function OneTask(dir: string, name: string, b: Bundle, corp: Corp, rel: Release): Result<Findings> {
    if name in b.taskFiles then TaskFindings(TaskFile(dir, name), b.taskFiles[name], b, corp, rel) else Ok([])
  }

  function TasksFindings(dir: string, names: seq<string>, b: Bundle, corp: Corp, rel: Release): Result<Findings> {
    if names == [] then Ok([])
    else Then(OneTask(dir, names[0], b, corp, rel), TasksFindings(dir, names[1..], b, corp, rel))
  }

  method CheckTask(place: Place, t: Task, b: Bundle, corp: Corp, rel: Release) returns (r: Result<Findings>)
    ensures r == TaskFindings(place, t, b, corp, rel)
  {
    var out := CheckModels(place, t.models, b.classification, corp);
    var limits := CheckLimits(place, TaskLimits(t), corp);
    if limits.Err? { return limits; }
    var skills := CheckSkills(place, t, b, rel);
    Assoc(out, limits.value, skills);
    return Ok(out + limits.value + skills);
  }

  method CheckTasks(dir: string, b: Bundle, corp: Corp, rel: Release) returns (r: Result<Findings>)
    ensures r == TasksFindings(dir, b.tasks, b, corp, rel)
  {
    var out: Findings := [];
    ghost var whole := TasksFindings(dir, b.tasks, b, corp, rel);
    ThenNothing(whole);
    for i := 0 to |b.tasks|
      invariant Then(Ok(out), TasksFindings(dir, b.tasks[i..], b, corp, rel)) == whole
    {
      var name := b.tasks[i];
      ghost var rest := TasksFindings(dir, b.tasks[i + 1..], b, corp, rel);
      assert b.tasks[i..][1..] == b.tasks[i + 1..];
      ThenAssoc(out, OneTask(dir, name, b, corp, rel), rest);
      if name !in b.taskFiles {
        ThenNothing(Ok(out));
        continue;
      }
      var one := CheckTask(TaskFile(dir, name), b.taskFiles[name], b, corp, rel);
      if one.Err? { return one; }
      out := out + one.value;
    }
    ThenNothing(Ok(out));
    return Ok(out);
  }

  // ---------------------------------------------------------------- guardrails

  function IndexIn(x: string, s: seq<string>): Option<nat> {
    if s == [] then None
    else if s[0] == x then Some(0)
    else var k := IndexIn(x, s[1..]); if k.Some? then Some(k.value + 1) else None
  }

  function Floor(classification: string, corp: Corp): string {
    if classification in corp.minMode then corp.minMode[classification] else ""
  }

  /** A mode or a floor outside the corp's list of modes raises ValueError. */
  function ModeFindings(place: Place, mode: string, floor: string, modes: seq<string>): Result<Findings> {
    if mode == "" || floor == "" then Ok([])
    else
      var m, f := IndexIn(mode, modes), IndexIn(floor, modes);
      if m.None? || f.None? then Err("ValueError")
      else if m.value < f.value then Ok([WeakMode(place)])
      else Ok([])
  }

  function CategoryFindings(place: Place, cats: seq<string>, corp: Corp): Findings {
    if cats == [] then []
    else (if cats[0] in corp.categories then [] else [UnknownCategory(place, cats[0])])
         + CategoryFindings(place, cats[1..], corp)
  }

  method CheckGuardrails(place: Place, b: Bundle, corp: Corp) returns (r: Result<Findings>)
    ensures r == Then(ModeFindings(place, b.mode, Floor(b.classification, corp), corp.modes),
                      Ok(CategoryFindings(place, b.categories, corp)))
  {
    var out: Findings := [];
    var floor := Floor(b.classification, corp);
    if b.mode != "" && floor != "" {
      var m := IndexIn(b.mode, corp.modes);
      if m.None? { return Err("ValueError"); }
      var f := IndexIn(floor, corp.modes);
      if f.None? { return Err("ValueError"); }
      if m.value < f.value { out := [WeakMode(place)]; }
    }
    ghost var first := out;
    for i := 0 to |b.categories|
      invariant out + CategoryFindings(place, b.categories[i..], corp)
             == first + CategoryFindings(place, b.categories, corp)
    {
      assert b.categories[i..][1..] == b.categories[i + 1..];
      if b.categories[i] !in corp.categories {
        out := out + [UnknownCategory(place, b.categories[i])];
      }
    }
    assert b.categories[|b.categories|..] == [] && out == first + CategoryFindings(place, b.categories, corp);
    return Ok(out);
  }

  // ---------------------------------------------------------------- bundles and releases

  const V3 := "v0.3"

  function BundleFindings(dir: string, b: Bundle, corp: Corp, rel: Release): Result<Findings> {
    var place := AgentFile(dir);
    if b.version != V3 then
      Ok(if b.delegation.Some? || b.limits.delegation.Some? then [DelegationTooEarly(place)] else [])
    else
      Then(Ok(ModelFindings(place, b.models, b.classification, corp)),
      Then(LimitFindings(place, b.limits, corp),
      Then(Ok(DelegationFindings(dir, Targets(b), b, rel)),
      Then(Then(ModeFindings(place, b.mode, Floor(b.classification, corp), corp.modes),
                Ok(CategoryFindings(place, b.categories, corp))),
           TasksFindings(dir, b.tasks, b, corp, rel)))))
  }

  method CheckBundle(dir: string, b: Bundle, corp: Corp, rel: Release) returns (r: Result<Findings>)
    ensures r == BundleFindings(dir, b, corp, rel)
  {
    var place := AgentFile(dir);
    if b.version != V3 {
      if b.delegation.Some? || b.limits.delegation.Some? { return Ok([DelegationTooEarly(place)]); }
      return Ok([]);
    }
    var models := CheckModels(place, b.models, b.classification, corp);
    var limits := CheckLimits(place, b.limits, corp);
    if limits.Err? { return limits; }
    var delegation := CheckDelegation(dir, b, rel);
    var guard := CheckGuardrails(place, b, corp);
    if guard.Err? { return guard; }
    var tasks := CheckTasks(dir, b, corp, rel);
    if tasks.Err? { return tasks; }
    var findings := models + (limits.value + (delegation + (guard.value + tasks.value)));
    return Ok(findings);
  }

  function ReleaseFindings(dirs: seq<string>, corp: Corp, rel: Release): Result<Findings>
    requires forall i | 0 <= i < |dirs| :: dirs[i] in rel.agents
  {
    if dirs == [] then Ok([])
    else Then(BundleFindings(dirs[0], rel.agents[dirs[0]], corp, rel), ReleaseFindings(dirs[1..], corp, rel))
  }

  /** The visiting order lists exactly the agents of the release. */
  ghost predicate WellFormed(rel: Release) {
    (forall i | 0 <= i < |rel.order| :: rel.order[i] in rel.agents)
    && forall dir | dir in rel.agents :: dir in rel.order
  }

  method CheckRelease(rel: Release, corp: Corp) returns (r: Result<Findings>)
    requires WellFormed(rel)
    ensures r == ReleaseFindings(rel.order, corp, rel)
  {
    var out: Findings := [];
    ghost var whole := ReleaseFindings(rel.order, corp, rel);
    ThenNothing(whole);
    for i := 0 to |rel.order|
      invariant Then(Ok(out), ReleaseFindings(rel.order[i..], corp, rel)) == whole
    {
      var dir := rel.order[i];
      assert rel.order[i..][1..] == rel.order[i + 1..];
      ThenAssoc(out, BundleFindings(dir, rel.agents[dir], corp, rel), ReleaseFindings(rel.order[i + 1..], corp, rel));
      var one := CheckBundle(dir, rel.agents[dir], corp, rel);
      if one.Err? { return one; }
      out := out + one.value;
    }
    ThenNothing(Ok(out));
    return Ok(out);
  }
}
