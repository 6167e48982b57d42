/**
 * platform/supply-chain/okf_narrowing.py: an empty list of findings means that the whole release is within
 * the corp policies.
 */
module NarrowingLaws {
  import opened Util
  import opened Narrowing

  // ---------------------------------------------------------------- within the policies

  predicate RolesWithin(m: Models, classification: string, corp: Corp) {
    (forall i | 0 <= i < |m.preferred| ::
       m.preferred[i] in corp.roles && (classification == "" || classification in corp.roles[m.preferred[i]]))
    && (forall i | 0 <= i < |m.forbidden| :: m.forbidden[i] in corp.roles)
    && Members(m.preferred) !! Members(m.forbidden)
  }

  predicate Under(amount: int, ceiling: Option<int>) { ceiling.Some? ==> amount <= ceiling.value }

  predicate LimitsWithin(l: Limits, corp: Corp) {
    Under(Amount(l.maxTokens), corp.maxTokens)
    && Under(Amount(l.maxConcurrent), corp.maxConcurrent)
    && Under(Amount(l.maxSteps), corp.maxSteps)
    && (l.delegation.Some? && l.delegation.value.Some? ==> Under(l.delegation.value.value, corp.maxDepth))
    && (l.quotaClass.Given? ==> l.quotaClass.value in corp.quotaClasses)
  }

  predicate TargetWithin(dir: string, t: Target, b: Bundle, rel: Release) {
    t.agent != Some(OwnName(dir, b)) && Shown(t.agent) in rel.agents
    && Shown(t.task) in rel.agents[Shown(t.agent)].taskFiles
  }

  predicate DelegationWithin(dir: string, ts: seq<Target>, b: Bundle, rel: Release) {
    forall i | 0 <= i < |ts| :: TargetWithin(dir, ts[i], b, rel)
  }

  predicate SkillWithin(t: Task, found: Option<Skill>) {
    found.Some? && found.value.isSkill
    && Members(found.value.tools) <= Members(t.tools) && Members(found.value.knowledge) <= Members(t.knowledge)
  }

  predicate SkillsWithin(refs: seq<string>, t: Task, b: Bundle, rel: Release) {
    forall i | 0 <= i < |refs| :: SkillWithin(t, FindSkill(refs[i], b, rel))
  }

  predicate TaskWithin(t: Task, b: Bundle, corp: Corp, rel: Release) {
    RolesWithin(t.models, b.classification, corp) && LimitsWithin(TaskLimits(t), corp)
    && SkillsWithin(t.skills, t, b, rel)
  }

  /** Both names are modes of the corp list and the first is not listed before the second. */
  predicate NotWeaker(mode: string, floor: string, modes: seq<string>) {
    var m, f := IndexIn(mode, modes), IndexIn(floor, modes);
    m.Some? && f.Some? && f.value <= m.value
  }

  predicate GuardrailsWithin(b: Bundle, corp: Corp) {
    (b.mode != "" && Floor(b.classification, corp) != ""
     ==> NotWeaker(b.mode, Floor(b.classification, corp), corp.modes))
    && forall i | 0 <= i < |b.categories| :: b.categories[i] in corp.categories
  }

  predicate TasksWithin(names: seq<string>, b: Bundle, corp: Corp, rel: Release) {
    forall i | 0 <= i < |names| && names[i] in b.taskFiles :: TaskWithin(b.taskFiles[names[i]], b, corp, rel)
  }

  predicate BundleWithin(dir: string, b: Bundle, corp: Corp, rel: Release) {
    if b.version != V3 then b.delegation.None? && b.limits.delegation.None?
    else
      RolesWithin(b.models, b.classification, corp) && LimitsWithin(b.limits, corp)
      && DelegationWithin(dir, Targets(b), b, rel) && GuardrailsWithin(b, corp)
      && TasksWithin(b.tasks, b, corp, rel)
  }

  predicate ReleaseWithin(corp: Corp, rel: Release) {
    forall dir | dir in rel.agents :: BundleWithin(dir, rel.agents[dir], corp, rel)
  }

  // ---------------------------------------------------------------- no findings means within

  predicate Clean(r: Result<Findings>) { r.Ok? && r.value == [] }

  lemma CleanThen(a: Result<Findings>, b: Result<Findings>)
    ensures Clean(Then(a, b)) <==> Clean(a) && Clean(b)
  {
  }

  lemma {:induction false} KnownIff(place: Place, roles: seq<string>, corp: Corp)
    ensures UnknownRoles(place, roles, corp) == [] <==> forall i | 0 <= i < |roles| :: roles[i] in corp.roles
  {
    if roles != [] {
      var rest := roles[1..];
      KnownIff(place, rest, corp);
      assert (forall i | 0 <= i < |roles| :: roles[i] in corp.roles)
        <==> roles[0] in corp.roles && forall i | 0 <= i < |rest| :: rest[i] in corp.roles by {
        assert forall i | 1 <= i < |roles| :: roles[i] == rest[i - 1];
      }
    }
  }

  lemma {:induction false} EligibleIff(place: Place, roles: seq<string>, classification: string, corp: Corp)
    ensures IneligibleRoles(place, roles, classification, corp) == []
       <==> forall i | 0 <= i < |roles| :: Eligible(roles[i], classification, corp)
  {
    if roles != [] {
      var rest := roles[1..];
      EligibleIff(place, rest, classification, corp);
      assert (forall i | 0 <= i < |roles| :: Eligible(roles[i], classification, corp))
        <==> Eligible(roles[0], classification, corp)
             && forall i | 0 <= i < |rest| :: Eligible(rest[i], classification, corp) by {
        assert forall i | 1 <= i < |roles| :: roles[i] == rest[i - 1];
      }
    }
  }

  lemma ModelsCleanIff(place: Place, m: Models, classification: string, corp: Corp)
    ensures ModelFindings(place, m, classification, corp) == [] <==> RolesWithin(m, classification, corp)
  {
    var all := m.preferred + m.forbidden;
    var both := SortedIn(m.preferred, Members(m.forbidden));
    KnownIff(place, all, corp);
    EligibleIff(place, m.preferred, classification, corp);
    SortedInIsSorted(m.preferred, Members(m.forbidden));
    assert (forall i | 0 <= i < |all| :: all[i] in corp.roles)
      <==> (forall i | 0 <= i < |m.preferred| :: m.preferred[i] in corp.roles)
           && (forall i | 0 <= i < |m.forbidden| :: m.forbidden[i] in corp.roles) by {
      assert forall i | 0 <= i < |m.preferred| :: all[i] == m.preferred[i];
      assert forall i | 0 <= i < |m.forbidden| :: all[i + |m.preferred|] == m.forbidden[i];
    }
    NoneCommon(m.preferred, m.forbidden, both);
  }

  lemma NoneCommon(a: seq<string>, b: seq<string>, both: seq<string>)
    requires forall y :: y in both <==> y in a && y in Members(b)
    ensures both == [] <==> Members(a) !! Members(b)
  {
    assert forall y :: y in a <==> y in Members(a);
    if both != [] { assert both[0] in both; }
  }

  lemma {:induction false} DelegationCleanIff(dir: string, ts: seq<Target>, b: Bundle, rel: Release)
    ensures DelegationFindings(dir, ts, b, rel) == [] <==> DelegationWithin(dir, ts, b, rel)
  {
    if ts != [] {
      var rest := ts[1..];
      DelegationCleanIff(dir, rest, b, rel);
      assert DelegationWithin(dir, ts, b, rel)
        <==> TargetWithin(dir, ts[0], b, rel) && DelegationWithin(dir, rest, b, rel) by {
        assert forall i | 1 <= i < |ts| :: ts[i] == rest[i - 1];
      }
    }
  }

  lemma NothingMissing(needed: seq<string>, allowed: seq<string>)
    ensures Missing(needed, allowed) == [] <==> Members(needed) <= Members(allowed)
  {
    SortedInIsSorted(needed, Members(needed) - Members(allowed));
    var missing := Missing(needed, allowed);
    assert forall y :: y in needed <==> y in Members(needed);
    if missing != [] { assert missing[0] in missing; }
  }

  lemma SkillCleanIff(place: Place, ref: string, t: Task, found: Option<Skill>)
    ensures SkillFindings(place, ref, t, found) == [] <==> SkillWithin(t, found)
  {
    if found.Some? && found.value.isSkill {
      NothingMissing(found.value.tools, t.tools);
      NothingMissing(found.value.knowledge, t.knowledge);
    }
  }

  lemma {:induction false} SkillsCleanIff(place: Place, refs: seq<string>, t: Task, b: Bundle, rel: Release)
    ensures SkillsFindings(place, refs, t, b, rel) == [] <==> SkillsWithin(refs, t, b, rel)
  {
    if refs != [] {
      var rest := refs[1..];
      SkillCleanIff(place, refs[0], t, FindSkill(refs[0], b, rel));
      SkillsCleanIff(place, rest, t, b, rel);
      assert SkillsWithin(refs, t, b, rel)
        <==> SkillWithin(t, FindSkill(refs[0], b, rel)) && SkillsWithin(rest, t, b, rel) by {
        assert forall i | 1 <= i < |refs| :: refs[i] == rest[i - 1];
      }
    }
  }

  lemma LimitsCleanIff(place: Place, l: Limits, corp: Corp)
    ensures Clean(LimitFindings(place, l, corp)) <==> LimitsWithin(l, corp)
  {
    var tokens := CeilingFindings(place, MaxTokens, l.maxTokens, corp.maxTokens);
    var concurrent := CeilingFindings(place, MaxConcurrent, l.maxConcurrent, corp.maxConcurrent);
    var steps := CeilingFindings(place, MaxSteps, l.maxSteps, corp.maxSteps);
    var rest := Ok(DepthFindings(place, l.delegation, corp.maxDepth) + QuotaFindings(place, l.quotaClass, corp));
    CleanThen(steps, rest);
    CleanThen(concurrent, Then(steps, rest));
    CleanThen(tokens, Then(concurrent, Then(steps, rest)));
  }

  lemma TaskCleanIff(place: Place, t: Task, b: Bundle, corp: Corp, rel: Release)
    ensures Clean(TaskFindings(place, t, b, corp, rel)) <==> TaskWithin(t, b, corp, rel)
  {
    ModelsCleanIff(place, t.models, b.classification, corp);
    LimitsCleanIff(place, TaskLimits(t), corp);
    SkillsCleanIff(place, t.skills, t, b, rel);
  }

  lemma {:induction false} TasksCleanIff(dir: string, names: seq<string>, b: Bundle, corp: Corp, rel: Release)
    ensures Clean(TasksFindings(dir, names, b, corp, rel)) <==> TasksWithin(names, b, corp, rel)
  {
    if names != [] {
      var rest := names[1..];
      TasksCleanIff(dir, rest, b, corp, rel);
      CleanThen(OneTask(dir, names[0], b, corp, rel), TasksFindings(dir, rest, b, corp, rel));
      if names[0] in b.taskFiles {
        TaskCleanIff(TaskFile(dir, names[0]), b.taskFiles[names[0]], b, corp, rel);
      }
      assert TasksWithin(names, b, corp, rel)
        <==> (names[0] in b.taskFiles ==> TaskWithin(b.taskFiles[names[0]], b, corp, rel))
             && TasksWithin(rest, b, corp, rel) by {
        assert forall i | 1 <= i < |names| :: names[i] == rest[i - 1];
      }
    }
  }

  lemma {:induction false} CategoriesCleanIff(place: Place, cats: seq<string>, corp: Corp)
    ensures CategoryFindings(place, cats, corp) == [] <==> forall i | 0 <= i < |cats| :: cats[i] in corp.categories
  {
    if cats != [] {
      var rest := cats[1..];
      CategoriesCleanIff(place, rest, corp);
      assert (forall i | 0 <= i < |cats| :: cats[i] in corp.categories)
        <==> cats[0] in corp.categories && forall i | 0 <= i < |rest| :: rest[i] in corp.categories by {
        assert forall i | 1 <= i < |cats| :: cats[i] == rest[i - 1];
      }
    }
  }

  function GuardFindings(place: Place, b: Bundle, corp: Corp): Result<Findings> {
    Then(ModeFindings(place, b.mode, Floor(b.classification, corp), corp.modes),
         Ok(CategoryFindings(place, b.categories, corp)))
  }

  lemma GuardCleanIff(place: Place, b: Bundle, corp: Corp)
    ensures Clean(GuardFindings(place, b, corp)) <==> GuardrailsWithin(b, corp)
  {
    CategoriesCleanIff(place, b.categories, corp);
  }

  lemma BundleCleanIff(dir: string, b: Bundle, corp: Corp, rel: Release)
    ensures Clean(BundleFindings(dir, b, corp, rel)) <==> BundleWithin(dir, b, corp, rel)
  {
    if b.version == V3 {
      var place := AgentFile(dir);
      var models := Ok(ModelFindings(place, b.models, b.classification, corp));
      var limits := LimitFindings(place, b.limits, corp);
      var delegation := Ok(DelegationFindings(dir, Targets(b), b, rel));
      var guard := GuardFindings(place, b, corp);
      var tasks := TasksFindings(dir, b.tasks, b, corp, rel);
      ModelsCleanIff(place, b.models, b.classification, corp);
      LimitsCleanIff(place, b.limits, corp);
      DelegationCleanIff(dir, Targets(b), b, rel);
      GuardCleanIff(place, b, corp);
      TasksCleanIff(dir, b.tasks, b, corp, rel);
      CleanThen(guard, tasks);
      CleanThen(delegation, Then(guard, tasks));
      CleanThen(limits, Then(delegation, Then(guard, tasks)));
      CleanThen(models, Then(limits, Then(delegation, Then(guard, tasks))));
    }
  }

  lemma {:induction false} BundlesCleanIff(dirs: seq<string>, corp: Corp, rel: Release)
    requires forall i | 0 <= i < |dirs| :: dirs[i] in rel.agents
    ensures Clean(ReleaseFindings(dirs, corp, rel))
       <==> forall i | 0 <= i < |dirs| :: BundleWithin(dirs[i], rel.agents[dirs[i]], corp, rel)
  {
    if dirs != [] {
      var rest := dirs[1..];
      BundleCleanIff(dirs[0], rel.agents[dirs[0]], corp, rel);
      BundlesCleanIff(rest, corp, rel);
      CleanThen(BundleFindings(dirs[0], rel.agents[dirs[0]], corp, rel), ReleaseFindings(rest, corp, rel));
      assert (forall i | 0 <= i < |dirs| :: BundleWithin(dirs[i], rel.agents[dirs[i]], corp, rel))
        <==> BundleWithin(dirs[0], rel.agents[dirs[0]], corp, rel)
             && forall i | 0 <= i < |rest| :: BundleWithin(rest[i], rel.agents[rest[i]], corp, rel) by {
        assert forall i | 1 <= i < |dirs| :: dirs[i] == rest[i - 1];
      }
    }
  }

  /** A release passes exactly when every bundle of it is within the corp policies and its own tasks. */
  lemma PassesIffWithin(corp: Corp, rel: Release)
    requires WellFormed(rel)
    ensures ReleaseFindings(rel.order, corp, rel) == Ok([]) <==> ReleaseWithin(corp, rel)
  {
    BundlesCleanIff(rel.order, corp, rel);
    assert (forall i | 0 <= i < |rel.order| :: BundleWithin(rel.order[i], rel.agents[rel.order[i]], corp, rel))
      ==> ReleaseWithin(corp, rel) by {
      forall dir | dir in rel.agents
        ensures exists i :: 0 <= i < |rel.order| && rel.order[i] == dir
      {
        assert dir in rel.order;
      }
    }
  }
}
