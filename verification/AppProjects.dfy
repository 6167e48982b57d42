/**
 * platform/gitops/check_app_projects.py: the AppProject checks over rendered Applications, and what holds of
 * the repository when together they record no failure. Glob patterns use `*` and `?`.
 */
module AppProjects {
  const PLATFORM := "zuno-platform"
  const APPS := "zuno-apps"
  const BOOTSTRAP := "zuno-bootstrap"
  const LEGACY := "zuno"
  const GITOPS_NS := "openshift-gitops"
  const FORBIDDEN_GROUPS := ["operators.coreos.com", "argoproj.io"]

  /** An API group and a kind; the source joins them with a slash. */
  datatype GroupKind = GroupKind(group: string, kind: string)

  const LIVE_ONLY_KINDS := {GroupKind("project.openshift.io", "Project")}

  datatype Project = Project(clusterWhitelist: seq<GroupKind>, destinations: seq<string>,
                             namespaceWhitelist: seq<GroupKind>, namespaceBlacklist: seq<GroupKind>)

  /** A rendered object; `namespace` is empty when its metadata sets none. */
  datatype Doc = Doc(gk: GroupKind, name: string, namespace: string)

  datatype App = App(name: string, project: string, destination: string, createNamespace: bool, docs: seq<Doc>)

  type Projects = map<string, Project>

  // ---------------------------------------------------------------- glob patterns

  function Glob(s: string, p: string): bool
    decreases |s| + |p|
  {
    if p == "" then s == ""
    else if p[0] == '*' then Glob(s, p[1..]) || (s != "" && Glob(s[1..], p))
    else s != "" && (p[0] == '?' || p[0] == s[0]) && Glob(s[1..], p[1..])
  }

  predicate Literal(p: string) { '*' !in p && '?' !in p }

  lemma {:induction false} LiteralGlob(s: string, p: string)
    requires Literal(p)
    ensures Glob(s, p) <==> s == p
    decreases |p|
  {
    if p != "" {
      assert p[0] in p && p == [p[0]] + p[1..];
      if s != "" {
        assert s == [s[0]] + s[1..];
        LiteralGlob(s[1..], p[1..]);
      }
    }
  }

  predicate Listed(gk: GroupKind, entries: seq<GroupKind>) {
    exists i :: 0 <= i < |entries| && Glob(gk.group, entries[i].group) && Glob(gk.kind, entries[i].kind)
  }

  predicate NamespaceAllowed(ns: string, project: Project) {
    exists i :: 0 <= i < |project.destinations| && Glob(ns, project.destinations[i])
  }

  function ObjectNamespace(doc: Doc, destination: string): string {
    if doc.namespace != "" then doc.namespace else destination
  }

  // ---------------------------------------------------------------- what each check demands

  predicate NoWildcard(e: GroupKind) { e.group != "*" && e.kind != "*" }

  predicate ProjectOk(name: string, p: Project) {
    name == LEGACY
    || ((forall i | 0 <= i < |p.clusterWhitelist| :: NoWildcard(p.clusterWhitelist[i]))
        && (name != BOOTSTRAP ==> forall i | 0 <= i < |p.destinations| :: !Glob(GITOPS_NS, p.destinations[i])))
  }

  predicate BootstrapOk(p: Project) {
    p.clusterWhitelist == [] && p.namespaceWhitelist == [GroupKind("argoproj.io", "Application")]
    && p.destinations == [GITOPS_NS]
  }

  predicate AppsProjectOk(p: Project) {
    p.clusterWhitelist == []
    && forall i | 0 <= i < |FORBIDDEN_GROUPS| ::
          Listed(GroupKind(FORBIDDEN_GROUPS[i], "Anything"), p.namespaceBlacklist)
  }

  ghost predicate ProjectsOk(projects: Projects) {
    PLATFORM in projects && APPS in projects && BOOTSTRAP in projects
    && (forall name | name in projects :: ProjectOk(name, projects[name]))
    && BootstrapOk(projects[BOOTSTRAP]) && AppsProjectOk(projects[APPS])
  }

  predicate DocOk(app: App, doc: Doc, project: Project, clusterScoped: set<GroupKind>) {
    if doc.gk in clusterScoped then app.project != APPS && Listed(doc.gk, project.clusterWhitelist)
    else
      (app.project == APPS ==> doc.gk.group !in FORBIDDEN_GROUPS)
      && (project.namespaceWhitelist != [] ==> Listed(doc.gk, project.namespaceWhitelist))
      && !Listed(doc.gk, project.namespaceBlacklist)
      && NamespaceAllowed(ObjectNamespace(doc, app.destination), project)
  }

  predicate AppOk(app: App, projects: Projects, clusterScoped: set<GroupKind>) {
    (app.project == PLATFORM || app.project == APPS)
    && app.project in projects
    && (app.project == APPS ==> !app.createNamespace)
    && NamespaceAllowed(app.destination, projects[app.project])
    && forall i | 0 <= i < |app.docs| :: DocOk(app, app.docs[i], projects[app.project], clusterScoped)
  }

  predicate Uses(app: App, projects: Projects, clusterScoped: set<GroupKind>, name: string, gk: GroupKind) {
    app.project == name && name in projects && gk in clusterScoped
    && exists i :: 0 <= i < |app.docs| && app.docs[i].gk == gk
  }

  predicate EntryUsed(e: GroupKind, used: map<string, set<GroupKind>>) {
    InUsed(used, PLATFORM, e) || e in LIVE_ONLY_KINDS
  }

  predicate WhitelistUsed(projects: Projects, used: map<string, set<GroupKind>>) {
    PLATFORM in projects ==>
      forall i | 0 <= i < |projects[PLATFORM].clusterWhitelist| ::
            EntryUsed(projects[PLATFORM].clusterWhitelist[i], used)
  }

  predicate InUsed(used: map<string, set<GroupKind>>, name: string, gk: GroupKind) { name in used && gk in used[name] }

  /** The cluster-scoped kinds the Applications of one project render. */
  ghost predicate Rendered(rendered: seq<App>, projects: Projects, clusterScoped: set<GroupKind>, name: string,
                           gk: GroupKind) {
    exists i :: 0 <= i < |rendered| && Uses(rendered[i], projects, clusterScoped, name, gk)
  }

  /** `used` maps every project to exactly those kinds. */
  ghost predicate UsedExactly(rendered: seq<App>, projects: Projects, clusterScoped: set<GroupKind>,
                              used: map<string, set<GroupKind>>) {
    forall name, gk :: InUsed(used, name, gk) <==> Rendered(rendered, projects, clusterScoped, name, gk)
  }

  // ---------------------------------------------------------------- the checks

  class Findings {
    var failures: seq<string>
    var passes: nat

    constructor ()
      ensures failures == [] && passes == 0
    {
      failures, passes := [], 0;
    }

    predicate Clean()
      reads this
    {
      failures == []
    }

    method Check(condition: bool, message: string)
      modifies this
      ensures passes == old(passes) + (if condition then 1 else 0)
      ensures failures == if condition || message in old(failures) then old(failures) else old(failures) + [message]
      ensures Clean() <==> old(Clean()) && condition
    {
      if condition {
        passes := passes + 1;
      } else if message !in failures {
        failures := failures + [message];
      }
    }

    method CheckProjects(projects: Projects)
      modifies this
      ensures Clean() <==> old(Clean()) && ProjectsOk(projects)
    {
      Check(PLATFORM in projects, PLATFORM + " is missing");
      Check(APPS in projects, APPS + " is missing");
      Check(BOOTSTRAP in projects, BOOTSTRAP + " is missing");
      CheckEveryProject(projects);
      if BOOTSTRAP in projects {
        CheckBootstrap(projects[BOOTSTRAP]);
      }
      if APPS in projects {
        CheckAppsProject(projects[APPS]);
      }
    }

    method CheckEveryProject(projects: Projects)
      modifies this
      ensures Clean() <==> old(Clean()) && forall name | name in projects :: ProjectOk(name, projects[name])
    {
      var todo := projects.Keys;
      while todo != {}
        invariant todo <= projects.Keys
        invariant Clean() <==> old(Clean())
                               && forall name | name in projects && name !in todo :: ProjectOk(name, projects[name])
        decreases todo
      {
        var name :| name in todo;
        todo := todo - {name};
        CheckProject(name, projects[name]);
      }
    }

    method CheckBootstrap(p: Project)
      modifies this
      ensures Clean() <==> old(Clean()) && BootstrapOk(p)
    {
      Check(p.clusterWhitelist == [], "clusterResourceWhitelist must be empty");
      Check(p.namespaceWhitelist == [GroupKind("argoproj.io", "Application")], "only Applications");
      Check(p.destinations == [GITOPS_NS], "the only destination must be " + GITOPS_NS);
    }

    method CheckAppsProject(p: Project)
      modifies this
      ensures Clean() <==> old(Clean()) && AppsProjectOk(p)
    {
      Check(p.clusterWhitelist == [], "clusterResourceWhitelist must be empty");
      label refused:
      for i := 0 to |FORBIDDEN_GROUPS|
        invariant Clean() <==> old@refused(Clean()) && forall k | 0 <= k < i ::
                    Listed(GroupKind(FORBIDDEN_GROUPS[k], "Anything"), p.namespaceBlacklist)
      {
        Check(Listed(GroupKind(FORBIDDEN_GROUPS[i], "Anything"), p.namespaceBlacklist),
              "must refuse " + FORBIDDEN_GROUPS[i]);
      }
    }

    method CheckProject(name: string, p: Project)
      modifies this
      ensures Clean() <==> old(Clean()) && ProjectOk(name, p)
    {
      if name == LEGACY {
        return;
      }
      for i := 0 to |p.clusterWhitelist|
        invariant Clean() <==> old(Clean()) && forall k | 0 <= k < i :: NoWildcard(p.clusterWhitelist[k])
      {
        Check(NoWildcard(p.clusterWhitelist[i]), name + ": wildcard");
      }
      if name == BOOTSTRAP {
        return;
      }
      label destinations:
      for i := 0 to |p.destinations|
        invariant Clean() <==> old@destinations(Clean()) && forall k | 0 <= k < i :: !Glob(GITOPS_NS, p.destinations[k])
      {
        Check(!Glob(GITOPS_NS, p.destinations[i]), name + ": destination admits " + GITOPS_NS);
      }
    }

    method CheckApps(rendered: seq<App>, projects: Projects, clusterScoped: set<GroupKind>)
      returns (used: map<string, set<GroupKind>>)
      modifies this
      ensures Clean() <==> old(Clean()) && forall i | 0 <= i < |rendered| :: AppOk(rendered[i], projects, clusterScoped)
      ensures UsedExactly(rendered, projects, clusterScoped, used)
    {
      used := map[];
      for n := 0 to |rendered|
        invariant Clean() <==> old(Clean()) && forall i | 0 <= i < n :: AppOk(rendered[i], projects, clusterScoped)
        invariant UsedExactly(rendered[..n], projects, clusterScoped, used)
      {
        var app := rendered[n];
        var kinds := CheckOne(app, projects, clusterScoped);
        UsedStep(rendered, projects, clusterScoped, n, used);
        if app.project in projects {
          used := used[app.project := (if app.project in used then used[app.project] else {}) + kinds];
        }
      }
      assert rendered[..|rendered|] == rendered;
    }

    method CheckOne(app: App, projects: Projects, clusterScoped: set<GroupKind>) returns (kinds: set<GroupKind>)
      modifies this
      ensures Clean() <==> old(Clean()) && AppOk(app, projects, clusterScoped)
      ensures kinds == if app.project in projects then ClusterKinds(app.docs, clusterScoped) else {}
    {
      Check(app.project == PLATFORM || app.project == APPS, app.name + ": project is not allowed");
      if app.project !in projects {
        Check(false, app.name + ": project has no manifest");
        return {};
      }
      kinds := CheckApp(app, projects[app.project], clusterScoped);
    }

    /** One Application's checks; returns the cluster-scoped kinds it renders. */
    method CheckApp(app: App, project: Project, clusterScoped: set<GroupKind>) returns (kinds: set<GroupKind>)
      modifies this
      ensures Clean() <==> old(Clean())
                           && (app.project == APPS ==> !app.createNamespace)
                               && NamespaceAllowed(app.destination, project)
                           && forall i | 0 <= i < |app.docs| :: DocOk(app, app.docs[i], project, clusterScoped)
      ensures kinds == ClusterKinds(app.docs, clusterScoped)
    {
      Check(app.project != APPS || !app.createNamespace, app.name + ": uses CreateNamespace=true");
      Check(NamespaceAllowed(app.destination, project), app.name + ": destination not in project");
      kinds := CheckDocs(app, project, clusterScoped);
    }

    method CheckDocs(app: App, project: Project, clusterScoped: set<GroupKind>) returns (kinds: set<GroupKind>)
      modifies this
      ensures Clean()
              <==> old(Clean()) && forall i | 0 <= i < |app.docs| :: DocOk(app, app.docs[i], project, clusterScoped)
      ensures kinds == ClusterKinds(app.docs, clusterScoped)
    {
      kinds := {};
      for i := 0 to |app.docs|
        invariant Clean() <==> old(Clean()) && forall k | 0 <= k < i :: DocOk(app, app.docs[k], project, clusterScoped)
        invariant kinds == ClusterKinds(app.docs[..i], clusterScoped)
      {
        assert app.docs[..i + 1] == app.docs[..i] + [app.docs[i]];
        if app.docs[i].gk in clusterScoped {
          kinds := kinds + {app.docs[i].gk};
        }
        CheckDoc(app, app.docs[i], project, clusterScoped);
      }
      assert app.docs[..|app.docs|] == app.docs;
    }

    method CheckDoc(app: App, doc: Doc, project: Project, clusterScoped: set<GroupKind>)
      modifies this
      ensures Clean() <==> old(Clean()) && DocOk(app, doc, project, clusterScoped)
    {
      if doc.gk in clusterScoped {
        Check(app.project != APPS, app.name + ": renders cluster-scoped " + doc.gk.kind);
        Check(Listed(doc.gk, project.clusterWhitelist), app.name + ": not in clusterResourceWhitelist");
        return;
      }
      if app.project == APPS {
        Check(doc.gk.group !in FORBIDDEN_GROUPS, app.name + ": renders an OLM/ArgoCD kind");
      }
      if project.namespaceWhitelist != [] {
        Check(Listed(doc.gk, project.namespaceWhitelist), app.name + ": not in namespaceResourceWhitelist");
      }
      Check(!Listed(doc.gk, project.namespaceBlacklist), app.name + ": refused by namespaceResourceBlacklist");
      Check(NamespaceAllowed(ObjectNamespace(doc, app.destination), project), app.name + ": lands elsewhere");
    }

    method CheckUnusedWhitelist(projects: Projects, used: map<string, set<GroupKind>>)
      modifies this
      ensures Clean() <==> old(Clean()) && WhitelistUsed(projects, used)
    {
      var entries := if PLATFORM in projects then projects[PLATFORM].clusterWhitelist else [];
      for i := 0 to |entries|
        invariant Clean() <==> old(Clean()) && forall k | 0 <= k < i :: EntryUsed(entries[k], used)
      {
        Check(EntryUsed(entries[i], used), "whitelist entry is rendered by no Application");
      }
    }
  }

  function ClusterKinds(docs: seq<Doc>, clusterScoped: set<GroupKind>): set<GroupKind> {
    set i | 0 <= i < |docs| && docs[i].gk in clusterScoped :: docs[i].gk
  }

  lemma UsesKinds(app: App, projects: Projects, clusterScoped: set<GroupKind>, name: string, gk: GroupKind)
    ensures Uses(app, projects, clusterScoped, name, gk)
       <==> app.project == name && name in projects && gk in ClusterKinds(app.docs, clusterScoped)
  {
  }

  lemma RenderedStep(rendered: seq<App>, projects: Projects, clusterScoped: set<GroupKind>, n: nat, name: string,
                     gk: GroupKind)
    requires n < |rendered|
    ensures Rendered(rendered[..n + 1], projects, clusterScoped, name, gk)
       <==> Rendered(rendered[..n], projects, clusterScoped, name, gk)
            || Uses(rendered[n], projects, clusterScoped, name, gk)
  {
    var a, b := rendered[..n], rendered[..n + 1];
    assert b[n] == rendered[n];
    if i :| 0 <= i < |a| && Uses(a[i], projects, clusterScoped, name, gk) { assert b[i] == a[i]; }
    if i :| 0 <= i < |b| && Uses(b[i], projects, clusterScoped, name, gk) { assert i < n ==> a[i] == b[i]; }
  }

  function WithKinds(app: App, projects: Projects, clusterScoped: set<GroupKind>, used: map<string, set<GroupKind>>)
    : map<string, set<GroupKind>>
  {
    if app.project !in projects then used
    else used[app.project := (if app.project in used then used[app.project] else {})
                             + ClusterKinds(app.docs, clusterScoped)]
  }

  lemma UsedStep(rendered: seq<App>, projects: Projects, clusterScoped: set<GroupKind>, n: nat,
                 used: map<string, set<GroupKind>>)
    requires n < |rendered| && UsedExactly(rendered[..n], projects, clusterScoped, used)
    ensures UsedExactly(rendered[..n + 1], projects, clusterScoped,
                        WithKinds(rendered[n], projects, clusterScoped, used))
  {
    var next := WithKinds(rendered[n], projects, clusterScoped, used);
    forall name, gk
      ensures InUsed(next, name, gk) <==> Rendered(rendered[..n + 1], projects, clusterScoped, name, gk)
    {
      RenderedStep(rendered, projects, clusterScoped, n, name, gk);
      UsesKinds(rendered[n], projects, clusterScoped, name, gk);
      assert InUsed(used, name, gk) <==> Rendered(rendered[..n], projects, clusterScoped, name, gk);
    }
  }

  // ---------------------------------------------------------------- what a clean run means

  ghost predicate AllClean(rendered: seq<App>, projects: Projects, clusterScoped: set<GroupKind>,
                           used: map<string, set<GroupKind>>) {
    ProjectsOk(projects)
    && (forall i | 0 <= i < |rendered| :: AppOk(rendered[i], projects, clusterScoped))
    && UsedExactly(rendered, projects, clusterScoped, used)
    && WhitelistUsed(projects, used)
  }

  /** The three checks, run one after the other. */
  method CheckAll(rendered: seq<App>, projects: Projects, clusterScoped: set<GroupKind>, findings: Findings)
    returns (used: map<string, set<GroupKind>>)
    requires findings.Clean()
    modifies findings
    ensures UsedExactly(rendered, projects, clusterScoped, used)
    ensures findings.Clean() <==> AllClean(rendered, projects, clusterScoped, used)
  {
    findings.CheckProjects(projects);
    used := findings.CheckApps(rendered, projects, clusterScoped);
    findings.CheckUnusedWhitelist(projects, used);
  }

  /** No Application writes a namespaced object into openshift-gitops, by its own namespace or by its
      destination. */
  lemma NothingWritesArgo(rendered: seq<App>, projects: Projects, clusterScoped: set<GroupKind>,
                          used: map<string, set<GroupKind>>, i: nat)
    requires AllClean(rendered, projects, clusterScoped, used) && i < |rendered|
    ensures rendered[i].destination != GITOPS_NS
    ensures forall d | d in rendered[i].docs && d.gk !in clusterScoped ::
              ObjectNamespace(d, rendered[i].destination) != GITOPS_NS
  {
    var app := rendered[i];
    assert AppOk(app, projects, clusterScoped);
    var project := projects[app.project];
    assert ProjectOk(app.project, project);
    assert app.project != LEGACY && app.project != BOOTSTRAP;
    assert !NamespaceAllowed(GITOPS_NS, project);
    forall d | d in app.docs && d.gk !in clusterScoped ensures ObjectNamespace(d, app.destination) != GITOPS_NS {
      assert DocOk(app, d, project, clusterScoped);
    }
  }

  /** A zuno-apps Application renders no cluster-scoped, OLM or ArgoCD kind, and creates no namespace. */
  lemma AppsRenderWorkloadsOnly(rendered: seq<App>, projects: Projects, clusterScoped: set<GroupKind>,
                                used: map<string, set<GroupKind>>, i: nat)
    requires AllClean(rendered, projects, clusterScoped, used) && i < |rendered| && rendered[i].project == APPS
    ensures forall d | d in rendered[i].docs :: d.gk !in clusterScoped && d.gk.group !in FORBIDDEN_GROUPS
    ensures !rendered[i].createNamespace
  {
    assert AppOk(rendered[i], projects, clusterScoped);
    forall d | d in rendered[i].docs ensures d.gk !in clusterScoped && d.gk.group !in FORBIDDEN_GROUPS {
      assert DocOk(rendered[i], d, projects[APPS], clusterScoped);
    }
  }

  /** zuno-platform's whitelist is exactly what its Applications render, up to the kinds only tracked live,
      when no rendered kind carries a glob character. */
  lemma WhitelistIsExact(rendered: seq<App>, projects: Projects, clusterScoped: set<GroupKind>,
                         used: map<string, set<GroupKind>>, gk: GroupKind)
    requires AllClean(rendered, projects, clusterScoped, used)
    requires forall k | k in clusterScoped :: Literal(k.group) && Literal(k.kind)
    ensures Rendered(rendered, projects, clusterScoped, PLATFORM, gk) ==> gk in projects[PLATFORM].clusterWhitelist
    ensures gk in projects[PLATFORM].clusterWhitelist ==>
              Rendered(rendered, projects, clusterScoped, PLATFORM, gk) || gk in LIVE_ONLY_KINDS
  {
    var entries := projects[PLATFORM].clusterWhitelist;
    if Rendered(rendered, projects, clusterScoped, PLATFORM, gk) {
      var i :| 0 <= i < |rendered| && Uses(rendered[i], projects, clusterScoped, PLATFORM, gk);
      assert AppOk(rendered[i], projects, clusterScoped);
      var j :| 0 <= j < |rendered[i].docs| && rendered[i].docs[j].gk == gk;
      assert DocOk(rendered[i], rendered[i].docs[j], projects[PLATFORM], clusterScoped);
      var k :| 0 <= k < |entries| && Glob(gk.group, entries[k].group) && Glob(gk.kind, entries[k].kind);
      EntryIsLiteral(rendered, projects, clusterScoped, used, k);
      LiteralGlob(gk.group, entries[k].group);
      LiteralGlob(gk.kind, entries[k].kind);
    }
    if gk in entries {
      var k :| 0 <= k < |entries| && entries[k] == gk;
      assert EntryUsed(entries[k], used);
    }
  }

  /** A whitelist entry that is used is a rendered kind, so its text is literal. */
  lemma EntryIsLiteral(rendered: seq<App>, projects: Projects, clusterScoped: set<GroupKind>,
                       used: map<string, set<GroupKind>>, k: nat)
    requires AllClean(rendered, projects, clusterScoped, used)
    requires forall gk | gk in clusterScoped :: Literal(gk.group) && Literal(gk.kind)
    requires k < |projects[PLATFORM].clusterWhitelist|
    ensures Literal(projects[PLATFORM].clusterWhitelist[k].group)
            && Literal(projects[PLATFORM].clusterWhitelist[k].kind)
  {
    var e := projects[PLATFORM].clusterWhitelist[k];
    assert EntryUsed(e, used);
    UsedIsScoped(rendered, projects, clusterScoped, used, e);
    LiveOnlyIsLiteral(e);
  }

  lemma UsedIsScoped(rendered: seq<App>, projects: Projects, clusterScoped: set<GroupKind>,
                     used: map<string, set<GroupKind>>, e: GroupKind)
    requires UsedExactly(rendered, projects, clusterScoped, used) && (InUsed(used, PLATFORM, e) || e in LIVE_ONLY_KINDS)
    ensures e in clusterScoped || e in LIVE_ONLY_KINDS
  {
    if e !in LIVE_ONLY_KINDS { assert Rendered(rendered, projects, clusterScoped, PLATFORM, e); }
  }

  lemma LiveOnlyIsLiteral(e: GroupKind)
    ensures e in LIVE_ONLY_KINDS ==> Literal(e.group) && Literal(e.kind)
  {
  }
}
