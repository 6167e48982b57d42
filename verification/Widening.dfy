/**
 * platform/supply-chain/okf_narrowing.py: what wider corp policies do to the findings of a release.
 */
module Widening {
  import opened Util
  import opened Narrowing
  import opened NarrowingLaws

  // ---------------------------------------------------------------- widening the policies

  predicate Raised(narrow: Option<int>, wide: Option<int>) {
    wide.Some? ==> narrow.Some? && narrow.value <= wide.value
  }

  predicate FloorLowered(narrow: string, wide: string, modes: seq<string>) {
    wide == "" || wide == narrow || (narrow != "" && NotWeaker(narrow, wide, modes))
  }

  /** `wide` allows at least what `narrow` allows; both grade modes by the same list. */
  ghost predicate Wider(narrow: Corp, wide: Corp) {
    (forall role | role in narrow.roles :: role in wide.roles && narrow.roles[role] <= wide.roles[role])
    && wide.modes == narrow.modes
    && (forall c :: FloorLowered(Floor(c, narrow), Floor(c, wide), wide.modes))
    && narrow.categories <= wide.categories && narrow.quotaClasses <= wide.quotaClasses
    && Raised(narrow.maxTokens, wide.maxTokens) && Raised(narrow.maxConcurrent, wide.maxConcurrent)
    && Raised(narrow.maxSteps, wide.maxSteps) && Raised(narrow.maxDepth, wide.maxDepth)
  }

  /** An eligibility finding about a role the narrower corp did not know at all. */
  predicate NewlyGraded(f: Finding, before: Findings, narrow: Corp) {
    f.Ineligible? && f.role !in narrow.roles && UnknownRole(f.place, f.role) in before
  }

  /** Checking again under a wider corp: no exception, no more findings, and each an old one or one about a
      role that was reported as unknown before. */
  ghost predicate Eases(a: Result<Findings>, b: Result<Findings>, narrow: Corp) {
    a.Ok? ==> b.Ok? && |b.value| <= |a.value|
              && (forall f | f in b.value :: f in a.value || NewlyGraded(f, a.value, narrow))
              && (forall f | f in a.value :: f.Ineligible? ==> f.role in narrow.roles)
  }

  lemma EasesThen(a: Result<Findings>, b: Result<Findings>, c: Result<Findings>, d: Result<Findings>, narrow: Corp)
    requires Eases(a, b, narrow) && Eases(c, d, narrow)
    ensures Eases(Then(a, c), Then(b, d), narrow)
  {
    if a.Ok? && c.Ok? {
      var before := a.value + c.value;
      forall f | f in b.value + d.value
        ensures f in before || NewlyGraded(f, before, narrow)
      {
        if f in b.value { assert f in a.value || NewlyGraded(f, a.value, narrow); }
        else { assert f in c.value || NewlyGraded(f, c.value, narrow); }
      }
    }
  }

  lemma {:induction false} UnknownSplits(place: Place, a: seq<string>, b: seq<string>, corp: Corp)
    ensures UnknownRoles(place, a + b, corp) == UnknownRoles(place, a, corp) + UnknownRoles(place, b, corp)
  {
    if a == [] {
      assert a + b == b;
    } else {
      assert (a + b)[1..] == a[1..] + b;
      UnknownSplits(place, a[1..], b, corp);
      Assoc(UnknownAt(place, a[0], corp), UnknownRoles(place, a[1..], corp), UnknownRoles(place, b, corp));
    }
  }

  lemma {:induction false} UnknownEases(place: Place, roles: seq<string>, narrow: Corp, wide: Corp)
    requires Wider(narrow, wide)
    ensures Eases(Ok(UnknownRoles(place, roles, narrow)), Ok(UnknownRoles(place, roles, wide)), narrow)
  {
    if roles != [] {
      UnknownEases(place, roles[1..], narrow, wide);
      EasesThen(Ok(UnknownAt(place, roles[0], narrow)), Ok(UnknownAt(place, roles[0], wide)),
                Ok(UnknownRoles(place, roles[1..], narrow)), Ok(UnknownRoles(place, roles[1..], wide)), narrow);
    }
  }

  /** The two findings a preferred role can have, together. */
  function PreferredAt(place: Place, role: string, classification: string, corp: Corp): Findings {
    UnknownAt(place, role, corp) + IneligibleAt(place, role, classification, corp)
  }

  lemma PreferredAtEases(place: Place, role: string, classification: string, narrow: Corp, wide: Corp)
    requires Wider(narrow, wide)
    ensures Eases(Ok(PreferredAt(place, role, classification, narrow)),
                  Ok(PreferredAt(place, role, classification, wide)), narrow)
  {
    if role !in narrow.roles {
      assert PreferredAt(place, role, classification, narrow) == [UnknownRole(place, role)];
    } else {
      assert role in wide.roles && narrow.roles[role] <= wide.roles[role];
    }
  }

  /** The findings of the preferred roles, as the source lists them: all unknown roles first. */
  function Preferred(place: Place, roles: seq<string>, classification: string, corp: Corp): Findings {
    UnknownRoles(place, roles, corp) + IneligibleRoles(place, roles, classification, corp)
  }

  predicate SameUpToOrder(a: Findings, b: Findings) { multiset(a) == multiset(b) }

  lemma EasesUpToOrder(a: Findings, a2: Findings, b: Findings, b2: Findings, narrow: Corp)
    requires Eases(Ok(a), Ok(b), narrow) && SameUpToOrder(a, a2) && SameUpToOrder(b, b2)
    ensures Eases(Ok(a2), Ok(b2), narrow)
  {
    assert |a| == |multiset(a)| == |a2| && |b| == |multiset(b)| == |b2|;
    assert forall f :: f in a <==> f in multiset(a);
    assert forall f :: f in a2 <==> f in multiset(a2);
    assert forall f :: f in b <==> f in multiset(b);
    assert forall f :: f in b2 <==> f in multiset(b2);
  }

  lemma PreferredUnfolds(place: Place, roles: seq<string>, classification: string, corp: Corp)
    requires roles != []
    ensures SameUpToOrder(PreferredAt(place, roles[0], classification, corp)
                          + Preferred(place, roles[1..], classification, corp),
                          Preferred(place, roles, classification, corp))
  {
  }

  lemma {:induction false} PreferredEases(place: Place, roles: seq<string>, classification: string, narrow: Corp,
                                          wide: Corp)
    requires Wider(narrow, wide)
    ensures Eases(Ok(Preferred(place, roles, classification, narrow)),
                  Ok(Preferred(place, roles, classification, wide)), narrow)
  {
    if roles != [] {
      var n0, w0 := PreferredAt(place, roles[0], classification, narrow),
          PreferredAt(place, roles[0], classification, wide);
      var n1, w1 := Preferred(place, roles[1..], classification, narrow),
          Preferred(place, roles[1..], classification, wide);
      PreferredAtEases(place, roles[0], classification, narrow, wide);
      PreferredEases(place, roles[1..], classification, narrow, wide);
      EasesThen(Ok(n0), Ok(w0), Ok(n1), Ok(w1), narrow);
      PreferredUnfolds(place, roles, classification, narrow);
      PreferredUnfolds(place, roles, classification, wide);
      EasesUpToOrder(n0 + n1, Preferred(place, roles, classification, narrow),
                     w0 + w1, Preferred(place, roles, classification, wide), narrow);
    }
  }

  lemma {:induction false} ConflictsAreConflicts(place: Place, roles: seq<string>)
    ensures forall f | f in Conflicts(place, roles) :: f.PreferredAndForbidden?
  {
    if roles != [] { ConflictsAreConflicts(place, roles[1..]); }
  }

  /** The findings of a models section, grouped by where the role is listed. */
  function Grouped(place: Place, m: Models, classification: string, corp: Corp): Findings {
    Preferred(place, m.preferred, classification, corp)
    + (UnknownRoles(place, m.forbidden, corp) + Conflicts(place, SortedIn(m.preferred, Members(m.forbidden))))
  }

  lemma ModelsAreGrouped(place: Place, m: Models, classification: string, corp: Corp)
    ensures SameUpToOrder(Grouped(place, m, classification, corp), ModelFindings(place, m, classification, corp))
  {
    UnknownSplits(place, m.preferred, m.forbidden, corp);
  }

  lemma ModelsEase(place: Place, m: Models, classification: string, narrow: Corp, wide: Corp)
    requires Wider(narrow, wide)
    ensures Eases(Ok(ModelFindings(place, m, classification, narrow)),
                  Ok(ModelFindings(place, m, classification, wide)), narrow)
  {
    GroupedEases(place, m, classification, narrow, wide);
    ModelsAreGrouped(place, m, classification, narrow);
    ModelsAreGrouped(place, m, classification, wide);
    EasesUpToOrder(Grouped(place, m, classification, narrow), ModelFindings(place, m, classification, narrow),
                   Grouped(place, m, classification, wide), ModelFindings(place, m, classification, wide), narrow);
  }

  lemma GroupedEases(place: Place, m: Models, classification: string, narrow: Corp, wide: Corp)
    requires Wider(narrow, wide)
    ensures Eases(Ok(Grouped(place, m, classification, narrow)), Ok(Grouped(place, m, classification, wide)), narrow)
  {
    var conflicts := Conflicts(place, SortedIn(m.preferred, Members(m.forbidden)));
    ConflictsAreConflicts(place, SortedIn(m.preferred, Members(m.forbidden)));
    SameEases(conflicts, narrow);
    PreferredEases(place, m.preferred, classification, narrow, wide);
    UnknownEases(place, m.forbidden, narrow, wide);
    var n, w := UnknownRoles(place, m.forbidden, narrow), UnknownRoles(place, m.forbidden, wide);
    EasesThen(Ok(n), Ok(w), Ok(conflicts), Ok(conflicts), narrow);
    EasesThen(Ok(Preferred(place, m.preferred, classification, narrow)),
              Ok(Preferred(place, m.preferred, classification, wide)), Ok(n + conflicts), Ok(w + conflicts), narrow);
  }

  lemma LimitsEase(place: Place, l: Limits, narrow: Corp, wide: Corp)
    requires Wider(narrow, wide)
    ensures Eases(LimitFindings(place, l, narrow), LimitFindings(place, l, wide), narrow)
  {
    var n1, w1 := CeilingFindings(place, MaxTokens, l.maxTokens, narrow.maxTokens),
                  CeilingFindings(place, MaxTokens, l.maxTokens, wide.maxTokens);
    var n2, w2 := CeilingFindings(place, MaxConcurrent, l.maxConcurrent, narrow.maxConcurrent),
                  CeilingFindings(place, MaxConcurrent, l.maxConcurrent, wide.maxConcurrent);
    var n3, w3 := CeilingFindings(place, MaxSteps, l.maxSteps, narrow.maxSteps),
                  CeilingFindings(place, MaxSteps, l.maxSteps, wide.maxSteps);
    var n4, w4 := DepthFindings(place, l.delegation, narrow.maxDepth),
        DepthFindings(place, l.delegation, wide.maxDepth);
    var n5, w5 := QuotaFindings(place, l.quotaClass, narrow), QuotaFindings(place, l.quotaClass, wide);
    EasesThen(Ok(n4), Ok(w4), Ok(n5), Ok(w5), narrow);
    EasesThen(n3, w3, Ok(n4 + n5), Ok(w4 + w5), narrow);
    EasesThen(n2, w2, Then(n3, Ok(n4 + n5)), Then(w3, Ok(w4 + w5)), narrow);
    EasesThen(n1, w1, Then(n2, Then(n3, Ok(n4 + n5))), Then(w2, Then(w3, Ok(w4 + w5))), narrow);
  }

  lemma {:induction false} CategoriesEase(place: Place, cats: seq<string>, narrow: Corp, wide: Corp)
    requires Wider(narrow, wide)
    ensures Eases(Ok(CategoryFindings(place, cats, narrow)), Ok(CategoryFindings(place, cats, wide)), narrow)
  {
    if cats != [] {
      CategoriesEase(place, cats[1..], narrow, wide);
      var n := if cats[0] in narrow.categories then [] else [UnknownCategory(place, cats[0])];
      var w := if cats[0] in wide.categories then [] else [UnknownCategory(place, cats[0])];
      EasesThen(Ok(n), Ok(w), Ok(CategoryFindings(place, cats[1..], narrow)),
                Ok(CategoryFindings(place, cats[1..], wide)), narrow);
    }
  }

  lemma GuardEases(place: Place, b: Bundle, narrow: Corp, wide: Corp)
    requires Wider(narrow, wide)
    ensures Eases(GuardFindings(place, b, narrow), GuardFindings(place, b, wide), narrow)
  {
    assert FloorLowered(Floor(b.classification, narrow), Floor(b.classification, wide), wide.modes);
    CategoriesEase(place, b.categories, narrow, wide);
    EasesThen(ModeFindings(place, b.mode, Floor(b.classification, narrow), narrow.modes),
              ModeFindings(place, b.mode, Floor(b.classification, wide), wide.modes),
              Ok(CategoryFindings(place, b.categories, narrow)), Ok(CategoryFindings(place, b.categories, wide)),
              narrow);
  }

  /** A check that does not look at the corp policies. */
  lemma SameEases(fs: Findings, narrow: Corp)
    requires forall f | f in fs :: !f.Ineligible?
    ensures Eases(Ok(fs), Ok(fs), narrow)
  {
  }

  lemma {:induction false} NeedsAreNeeds(place: Place, ref: string, names: seq<string>)
    ensures forall f | f in ToolNeeds(place, ref, names) :: f.NeedsTool?
    ensures forall f | f in KnowledgeNeeds(place, ref, names) :: f.NeedsKnowledge?
  {
    if names != [] { NeedsAreNeeds(place, ref, names[1..]); }
  }

  lemma SkillNotGraded(place: Place, ref: string, t: Task, found: Option<Skill>)
    ensures forall f | f in SkillFindings(place, ref, t, found) :: !f.Ineligible?
  {
    if found.Some? && found.value.isSkill {
      NeedsAreNeeds(place, ref, Missing(found.value.tools, t.tools));
      NeedsAreNeeds(place, ref, Missing(found.value.knowledge, t.knowledge));
    }
  }

  lemma {:induction false} SkillsNotGraded(place: Place, refs: seq<string>, t: Task, b: Bundle, rel: Release)
    ensures forall f | f in SkillsFindings(place, refs, t, b, rel) :: !f.Ineligible?
  {
    if refs != [] {
      SkillNotGraded(place, refs[0], t, FindSkill(refs[0], b, rel));
      SkillsNotGraded(place, refs[1..], t, b, rel);
    }
  }

  lemma {:induction false} DelegationNotGraded(dir: string, ts: seq<Target>, b: Bundle, rel: Release)
    ensures forall f | f in DelegationFindings(dir, ts, b, rel) :: !f.Ineligible?
  {
    if ts != [] { DelegationNotGraded(dir, ts[1..], b, rel); }
  }

  lemma TaskEases(place: Place, t: Task, b: Bundle, narrow: Corp, wide: Corp, rel: Release)
    requires Wider(narrow, wide)
    ensures Eases(TaskFindings(place, t, b, narrow, rel), TaskFindings(place, t, b, wide, rel), narrow)
  {
    var skills := SkillsFindings(place, t.skills, t, b, rel);
    var l := TaskLimits(t);
    ModelsEase(place, t.models, b.classification, narrow, wide);
    LimitsEase(place, l, narrow, wide);
    SkillsNotGraded(place, t.skills, t, b, rel);
    SameEases(skills, narrow);
    EasesThen(LimitFindings(place, l, narrow), LimitFindings(place, l, wide), Ok(skills), Ok(skills), narrow);
    EasesThen(Ok(ModelFindings(place, t.models, b.classification, narrow)),
              Ok(ModelFindings(place, t.models, b.classification, wide)),
              Then(LimitFindings(place, l, narrow), Ok(skills)), Then(LimitFindings(place, l, wide), Ok(skills)),
              narrow);
  }

  lemma {:induction false} TasksEase(dir: string, names: seq<string>, b: Bundle, narrow: Corp, wide: Corp, rel: Release)
    requires Wider(narrow, wide)
    ensures Eases(TasksFindings(dir, names, b, narrow, rel), TasksFindings(dir, names, b, wide, rel), narrow)
  {
    if names != [] {
      TasksEase(dir, names[1..], b, narrow, wide, rel);
      if names[0] in b.taskFiles {
        TaskEases(TaskFile(dir, names[0]), b.taskFiles[names[0]], b, narrow, wide, rel);
      }
      EasesThen(OneTask(dir, names[0], b, narrow, rel), OneTask(dir, names[0], b, wide, rel),
                TasksFindings(dir, names[1..], b, narrow, rel), TasksFindings(dir, names[1..], b, wide, rel), narrow);
    }
  }

  lemma BundleEases(dir: string, b: Bundle, narrow: Corp, wide: Corp, rel: Release)
    requires Wider(narrow, wide)
    ensures Eases(BundleFindings(dir, b, narrow, rel), BundleFindings(dir, b, wide, rel), narrow)
  {
    if b.version == V3 {
      var place := AgentFile(dir);
      var delegation := DelegationFindings(dir, Targets(b), b, rel);
      ModelsEase(place, b.models, b.classification, narrow, wide);
      LimitsEase(place, b.limits, narrow, wide);
      DelegationNotGraded(dir, Targets(b), b, rel);
      SameEases(delegation, narrow);
      GuardEases(place, b, narrow, wide);
      TasksEase(dir, b.tasks, b, narrow, wide, rel);
      var n5, w5 := TasksFindings(dir, b.tasks, b, narrow, rel), TasksFindings(dir, b.tasks, b, wide, rel);
      var n4, w4 := Then(GuardFindings(place, b, narrow), n5), Then(GuardFindings(place, b, wide), w5);
      EasesThen(GuardFindings(place, b, narrow), GuardFindings(place, b, wide), n5, w5, narrow);
      EasesThen(Ok(delegation), Ok(delegation), n4, w4, narrow);
      var n3, w3 := Then(Ok(delegation), n4), Then(Ok(delegation), w4);
      EasesThen(LimitFindings(place, b.limits, narrow), LimitFindings(place, b.limits, wide), n3, w3, narrow);
      EasesThen(Ok(ModelFindings(place, b.models, b.classification, narrow)),
                Ok(ModelFindings(place, b.models, b.classification, wide)),
                Then(LimitFindings(place, b.limits, narrow), n3), Then(LimitFindings(place, b.limits, wide), w3),
                    narrow);
    }
  }

  /** Widening the corp policies never raises, never lengthens the findings, and adds none but an eligibility
      finding about a role that was unknown, and reported as such, before. */
  lemma {:induction false} WideningEases(dirs: seq<string>, narrow: Corp, wide: Corp, rel: Release)
    requires Wider(narrow, wide) && forall i | 0 <= i < |dirs| :: dirs[i] in rel.agents
    ensures Eases(ReleaseFindings(dirs, narrow, rel), ReleaseFindings(dirs, wide, rel), narrow)
  {
    if dirs != [] {
      BundleEases(dirs[0], rel.agents[dirs[0]], narrow, wide, rel);
      WideningEases(dirs[1..], narrow, wide, rel);
      EasesThen(BundleFindings(dirs[0], rel.agents[dirs[0]], narrow, rel),
                BundleFindings(dirs[0], rel.agents[dirs[0]], wide, rel),
                ReleaseFindings(dirs[1..], narrow, rel), ReleaseFindings(dirs[1..], wide, rel), narrow);
    }
  }

  // ---------------------------------------------------------------- which findings are eligibility findings

  predicate NoneGraded(fs: Findings) { forall f | f in fs :: !f.Ineligible? }

  lemma {:induction false} IneligibleExactly(place: Place, roles: seq<string>, c: string, corp: Corp, p: Place,
                                             role: string)
    ensures Ineligible(p, role) in IneligibleRoles(place, roles, c, corp)
       <==> p == place && role in roles && !Eligible(role, c, corp)
  {
    if roles != [] { IneligibleExactly(place, roles[1..], c, corp, p, role); }
  }

  lemma {:induction false} UnknownNotGraded(place: Place, roles: seq<string>, corp: Corp)
    ensures NoneGraded(UnknownRoles(place, roles, corp))
  {
    if roles != [] { UnknownNotGraded(place, roles[1..], corp); }
  }

  /** The findings of a models section grade exactly its preferred roles. */
  lemma ModelsGradeExactly(place: Place, m: Models, c: string, corp: Corp, p: Place, role: string)
    ensures Ineligible(p, role) in ModelFindings(place, m, c, corp)
       <==> p == place && role in m.preferred && !Eligible(role, c, corp)
  {
    IneligibleExactly(place, m.preferred, c, corp, p, role);
    UnknownNotGraded(place, m.preferred + m.forbidden, corp);
    ConflictsAreConflicts(place, SortedIn(m.preferred, Members(m.forbidden)));
  }

  predicate NotGraded(r: Result<Findings>) { r.Ok? ==> NoneGraded(r.value) }

  lemma LimitsNotGraded(place: Place, l: Limits, corp: Corp)
    ensures NotGraded(LimitFindings(place, l, corp))
  {
    var rest := Ok(DepthFindings(place, l.delegation, corp.maxDepth) + QuotaFindings(place, l.quotaClass, corp));
    var steps := Then(CeilingFindings(place, MaxSteps, l.maxSteps, corp.maxSteps), rest);
    assert NotGraded(rest);
    ThenNotGraded(CeilingFindings(place, MaxSteps, l.maxSteps, corp.maxSteps), rest);
    ThenNotGraded(CeilingFindings(place, MaxConcurrent, l.maxConcurrent, corp.maxConcurrent), steps);
  }

  lemma ThenNotGraded(a: Result<Findings>, b: Result<Findings>)
    requires NotGraded(a) && NotGraded(b)
    ensures NotGraded(Then(a, b))
  {
  }

  lemma {:induction false} CategoriesNotGraded(place: Place, cats: seq<string>, corp: Corp)
    ensures NoneGraded(CategoryFindings(place, cats, corp))
  {
    if cats != [] { CategoriesNotGraded(place, cats[1..], corp); }
  }

  lemma TaskGradesExactly(place: Place, t: Task, b: Bundle, corp: Corp, rel: Release, p: Place, role: string)
    requires TaskFindings(place, t, b, corp, rel).Ok?
    ensures Ineligible(p, role) in TaskFindings(place, t, b, corp, rel).value
       <==> p == place && role in t.models.preferred && !Eligible(role, b.classification, corp)
  {
    ModelsGradeExactly(place, t.models, b.classification, corp, p, role);
    LimitsNotGraded(place, TaskLimits(t), corp);
    SkillsNotGraded(place, t.skills, t, b, rel);
  }

  /** `names` lists a task with a file in which the role is preferred; `p` is that file. */
  predicate TaskPrefers(dir: string, names: seq<string>, b: Bundle, p: Place, role: string) {
    p.TaskFile? && p.owner == dir && p.task in names && p.task in b.taskFiles
    && role in b.taskFiles[p.task].models.preferred
  }

  lemma {:induction false} TasksGradeExactly(dir: string, names: seq<string>, b: Bundle, corp: Corp, rel: Release,
                                             p: Place, role: string)
    requires TasksFindings(dir, names, b, corp, rel).Ok?
    ensures Ineligible(p, role) in TasksFindings(dir, names, b, corp, rel).value
       <==> TaskPrefers(dir, names, b, p, role) && !Eligible(role, b.classification, corp)
  {
    if names != [] {
      TasksGradeExactly(dir, names[1..], b, corp, rel, p, role);
      assert p.TaskFile? ==> (p.task in names <==> p.task == names[0] || p.task in names[1..]);
      if names[0] in b.taskFiles {
        TaskGradesExactly(TaskFile(dir, names[0]), b.taskFiles[names[0]], b, corp, rel, p, role);
      }
    }
  }

  /** The files of a v0.3 bundle in which a role is preferred: its card and its listed tasks. */
  predicate BundlePrefers(dir: string, b: Bundle, p: Place, role: string) {
    b.version == V3
    && ((p == AgentFile(dir) && role in b.models.preferred) || TaskPrefers(dir, b.tasks, b, p, role))
  }

  lemma BundleGradesExactly(dir: string, b: Bundle, corp: Corp, rel: Release, p: Place, role: string)
    requires BundleFindings(dir, b, corp, rel).Ok?
    ensures Ineligible(p, role) in BundleFindings(dir, b, corp, rel).value
       <==> BundlePrefers(dir, b, p, role) && !Eligible(role, b.classification, corp)
  {
    if b.version == V3 {
      var place := AgentFile(dir);
      ModelsGradeExactly(place, b.models, b.classification, corp, p, role);
      LimitsNotGraded(place, b.limits, corp);
      DelegationNotGraded(dir, Targets(b), b, rel);
      CategoriesNotGraded(place, b.categories, corp);
      TasksGradeExactly(dir, b.tasks, b, corp, rel, p, role);
      InParts(ModelFindings(place, b.models, b.classification, corp), LimitFindings(place, b.limits, corp),
              DelegationFindings(dir, Targets(b), b, rel), GuardFindings(place, b, corp),
              TasksFindings(dir, b.tasks, b, corp, rel), Ineligible(p, role));
    }
  }

  /** Of five checks in turn, only the first and the last can hold an eligibility finding. */
  lemma InParts(models: Findings, limits: Result<Findings>, delegation: Findings, guard: Result<Findings>,
                tasks: Result<Findings>, f: Finding)
    requires NotGraded(limits) && NoneGraded(delegation) && NotGraded(guard) && f.Ineligible?
    requires Then(Ok(models), Then(limits, Then(Ok(delegation), Then(guard, tasks)))).Ok?
    ensures tasks.Ok?
    ensures f in Then(Ok(models), Then(limits, Then(Ok(delegation), Then(guard, tasks)))).value
       <==> f in models || f in tasks.value
  {
  }

  function OwnerOf(p: Place): string { match p case AgentFile(a) => a case TaskFile(o, _) => o }

  /** The release prefers the role in that file. */
  predicate Prefers(rel: Release, p: Place, role: string) {
    OwnerOf(p) in rel.agents && BundlePrefers(OwnerOf(p), rel.agents[OwnerOf(p)], p, role)
  }

  /** Some model of the role, if the corp knows the role at all, serves the classification of the file's agent. */
  predicate Served(rel: Release, p: Place, role: string, corp: Corp)
    requires OwnerOf(p) in rel.agents
  {
    Eligible(role, rel.agents[OwnerOf(p)].classification, corp)
  }

  lemma {:induction false} BundlesGradeExactly(dirs: seq<string>, corp: Corp, rel: Release, p: Place, role: string)
    requires forall i | 0 <= i < |dirs| :: dirs[i] in rel.agents
    requires ReleaseFindings(dirs, corp, rel).Ok?
    ensures Ineligible(p, role) in ReleaseFindings(dirs, corp, rel).value
       <==> OwnerOf(p) in dirs && Prefers(rel, p, role) && !Served(rel, p, role, corp)
  {
    if dirs != [] {
      BundlesGradeExactly(dirs[1..], corp, rel, p, role);
      BundleGradesExactly(dirs[0], rel.agents[dirs[0]], corp, rel, p, role);
      assert OwnerOf(p) in dirs <==> OwnerOf(p) == dirs[0] || OwnerOf(p) in dirs[1..];
    }
  }

  /** A file prefers a role the narrower corp does not know, and that the wider one does not serve at the
      agent's classification. */
  predicate Regrades(rel: Release, narrow: Corp, wide: Corp, p: Place, role: string) {
    Prefers(rel, p, role) && role !in narrow.roles && !Served(rel, p, role, wide)
  }

  /** Which findings a widening creates, told from the release and the two corps alone. */
  lemma NewFindingsExactly(narrow: Corp, wide: Corp, rel: Release, f: Finding)
    requires WellFormed(rel) && Wider(narrow, wide) && ReleaseFindings(rel.order, narrow, rel).Ok?
    ensures ReleaseFindings(rel.order, wide, rel).Ok?
    ensures var before, after := ReleaseFindings(rel.order, narrow, rel).value,
            ReleaseFindings(rel.order, wide, rel).value;
            |after| <= |before|
            && (f in after && f !in before <==> f.Ineligible? && Regrades(rel, narrow, wide, f.place, f.role))
  {
    WideningEases(rel.order, narrow, wide, rel);
    if f.Ineligible? { BundlesGradeExactly(rel.order, wide, rel, f.place, f.role); }
  }

  /** Widening creates no finding exactly when no file is regraded; an admitted release stays admitted anyway. */
  lemma WideningCreatesNothingIff(narrow: Corp, wide: Corp, rel: Release)
    requires WellFormed(rel) && Wider(narrow, wide) && ReleaseFindings(rel.order, narrow, rel).Ok?
    ensures ReleaseFindings(rel.order, wide, rel).Ok?
    ensures (forall f | f in ReleaseFindings(rel.order, wide, rel).value ::
             f in ReleaseFindings(rel.order, narrow, rel).value)
       <==> forall p, role :: !Regrades(rel, narrow, wide, p, role)
    ensures ReleaseFindings(rel.order, narrow, rel) == Ok([]) ==> ReleaseFindings(rel.order, wide, rel) == Ok([])
  {
    WideningEases(rel.order, narrow, wide, rel);
    var before, after := ReleaseFindings(rel.order, narrow, rel).value, ReleaseFindings(rel.order, wide, rel).value;
    forall f ensures f in after && f !in before <==> f.Ineligible? && Regrades(rel, narrow, wide, f.place, f.role) {
      NewFindingsExactly(narrow, wide, rel, f);
    }
    if forall f | f in after :: f in before {
      forall p, role ensures !Regrades(rel, narrow, wide, p, role) {
        assert Ineligible(p, role).Ineligible? && !(Ineligible(p, role) in after && Ineligible(p, role) !in before);
      }
    }
  }

  lemma OneRole(place: Place, role: string, c: string, corp: Corp)
    ensures ModelFindings(place, Models([role], []), c, corp) == PreferredAt(place, role, c, corp)
  {
    var roles, unknown, ineligible := [role], UnknownAt(place, role, corp), IneligibleAt(place, role, c, corp);
    assert roles + [] == roles && roles[1..] == [];
    assert UnknownRoles(place, roles, corp) == unknown + [] == unknown;
    assert IneligibleRoles(place, roles, c, corp) == ineligible + [] == ineligible;
    assert SortedIn(roles, Members([])) == [];
  }

  /** One role is added that no model of the bundle's classification serves: the finding changes its kind. */
  lemma WideningCanRegrade() returns (narrow: Corp, wide: Corp, rel: Release)
    ensures WellFormed(rel) && Wider(narrow, wide)
    ensures ReleaseFindings(rel.order, narrow, rel) == Ok([UnknownRole(AgentFile("a"), "coder")])
    ensures ReleaseFindings(rel.order, wide, rel) == Ok([Ineligible(AgentFile("a"), "coder")])
  {
    narrow := Corp(map[], [], map[], {}, None, None, None, None, {});
    wide := narrow.(roles := map["coder" := {}]);
    var m := Models(["coder"], []);
    var none := Limits(Absent, Absent, Absent, None, Absent);
    var b := Bundle(V3, None, "C2", m, none, None, "", [], [], map[], map[]);
    rel := Release(["a"], map["a" := b], map[]);
    var place := AgentFile("a");
    OneRole(place, "coder", "C2", narrow);
    OneRole(place, "coder", "C2", wide);
    assert LimitFindings(place, none, narrow) == Ok([]) && LimitFindings(place, none, wide) == Ok([]);
    assert DelegationFindings("a", Targets(b), b, rel) == [];
    assert GuardFindings(place, b, narrow) == Ok([]) && GuardFindings(place, b, wide) == Ok([]);
    assert TasksFindings("a", [], b, narrow, rel) == Ok([]) && TasksFindings("a", [], b, wide, rel) == Ok([]);
    assert Then(Ok([]), Ok([])) == Ok([]);
    ThenNothing(Ok(PreferredAt(place, "coder", "C2", narrow)));
    ThenNothing(Ok(PreferredAt(place, "coder", "C2", wide)));
    assert b.tasks == [] && b.version == V3 && b.limits == none && b.models == m && b.classification == "C2";
    assert ModelFindings(place, m, "C2", narrow) == PreferredAt(place, "coder", "C2", narrow);
    assert ModelFindings(place, m, "C2", wide) == PreferredAt(place, "coder", "C2", wide);
    assert PreferredAt(place, "coder", "C2", narrow) == [UnknownRole(place, "coder")];
    assert PreferredAt(place, "coder", "C2", wide) == [Ineligible(place, "coder")];
    assert BundleFindings("a", b, narrow, rel) == Ok([UnknownRole(place, "coder")]);
    assert BundleFindings("a", b, wide, rel) == Ok([Ineligible(place, "coder")]);
    assert rel.order[1..] == [] && rel.order[0] == "a";
  }

  // ---------------------------------------------------------------- the catalog

  /** The role table of a catalog. */
  function RolesOf(catalog: seq<CatalogModel>): map<string, set<string>> {
    if catalog == [] then map[]
    else
      var m := catalog[|catalog| - 1];
      var roles := RolesOf(catalog[..|catalog| - 1]);
      roles[m.role := (if m.role in roles then roles[m.role] else {}) + Members(m.eligibleFor)]
  }

  method BuildRoles(catalog: seq<CatalogModel>) returns (roles: map<string, set<string>>)
    ensures roles == RolesOf(catalog)
  {
    roles := map[];
    for i := 0 to |catalog|
      invariant roles == RolesOf(catalog[..i])
    {
      assert catalog[..i + 1][..i] == catalog[..i];
      var m := catalog[i];
      if m.role !in roles { roles := roles[m.role := {}]; }
      roles := roles[m.role := roles[m.role] + Members(m.eligibleFor)];
    }
    assert catalog[..|catalog|] == catalog;
  }

  predicate Serves(catalog: seq<CatalogModel>, role: string, c: string) {
    exists i :: 0 <= i < |catalog| && catalog[i].role == role && c in catalog[i].eligibleFor
  }

  predicate HasRole(catalog: seq<CatalogModel>, role: string) {
    exists i :: 0 <= i < |catalog| && catalog[i].role == role
  }

  /** A role is known iff some model has it, and eligible for what any model of that role is eligible for. */
  lemma {:induction false} RolesMeaning(catalog: seq<CatalogModel>, role: string, c: string)
    ensures role in RolesOf(catalog) <==> HasRole(catalog, role)
    ensures role in RolesOf(catalog) ==> (c in RolesOf(catalog)[role] <==> Serves(catalog, role, c))
  {
    if catalog != [] {
      var n := |catalog| - 1;
      var rest := catalog[..n];
      RolesMeaning(rest, role, c);
      assert HasRole(catalog, role) <==> HasRole(rest, role) || catalog[n].role == role by {
        if HasRole(rest, role) {
          var i :| 0 <= i < |rest| && rest[i].role == role;
          assert catalog[i].role == role;
        }
      }
      assert Serves(catalog, role, c)
        <==> Serves(rest, role, c) || (catalog[n].role == role && c in catalog[n].eligibleFor) by {
        if Serves(rest, role, c) {
          var i :| 0 <= i < |rest| && rest[i].role == role && c in rest[i].eligibleFor;
          assert catalog[i].role == role;
        }
      }
      if !HasRole(rest, role) { assert !Serves(rest, role, c); }
    }
  }

  /** A catalog that keeps the models of another, in any order and among any others, admits what it admits. */
  lemma MoreModelsStayAdmitted(catalog: seq<CatalogModel>, bigger: seq<CatalogModel>, corp: Corp, rel: Release)
    requires WellFormed(rel) && forall i | 0 <= i < |catalog| :: catalog[i] in bigger
    requires ReleaseFindings(rel.order, corp.(roles := RolesOf(catalog)), rel) == Ok([])
    ensures ReleaseFindings(rel.order, corp.(roles := RolesOf(bigger)), rel) == Ok([])
  {
    var narrow, wide := corp.(roles := RolesOf(catalog)), corp.(roles := RolesOf(bigger));
    forall role | role in narrow.roles
      ensures role in wide.roles && narrow.roles[role] <= wide.roles[role]
    {
      RolesMeaning(catalog, role, "");
      var i :| 0 <= i < |catalog| && catalog[i].role == role;
      var k :| 0 <= k < |bigger| && bigger[k] == catalog[i];
      RolesMeaning(bigger, role, "");
      forall c | c in narrow.roles[role] ensures c in wide.roles[role] {
        RolesMeaning(catalog, role, c);
        var i :| 0 <= i < |catalog| && catalog[i].role == role && c in catalog[i].eligibleFor;
        var k :| 0 <= k < |bigger| && bigger[k] == catalog[i];
        RolesMeaning(bigger, role, c);
      }
    }
    assert forall c :: Floor(c, narrow) == Floor(c, wide);
    WideningEases(rel.order, narrow, wide, rel);
  }
}
