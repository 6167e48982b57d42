# Models of the platform's generators and checkers

Most of the repository deploys things; a few of its programs decide things. This project models those
programs in Dafny and proves what they are relied on for. Each module names the source file it models in its
first comment. Code that computes a value is a function, code that fills lists and dictionaries step by step is
a method with a loop, and an object whose methods update its fields is a class; every such method is proved
against a function or a predicate, and the lemmas are about that function or predicate.

* **Quota predicates** (`Cel`, `CelText`, `CelEval`, `Quota`, `QuotaGuard`, `QuotaMeaning`, `QuotaScalars`,
  `QuotaTemplate`, `QuotaLimits`, `QuotaConverse`). The generator prints CEL texts into a Helm template. `Cel` holds
  the expression grammar of the CEL Language Definition (section "Syntax") for the operators the generator and its
  neighbours use, `CelText` the lexer and the printed layout, `CelEval` a strict evaluation in which an error in any
  evaluated operand is an error and only `?:` is lazy, which is how the generator's comments describe the runtime.
  Meaning is always taken from the text: written with Python's `repr` or Helm's `quote`, read as a YAML scalar, lexed,
  parsed, evaluated. The template's `{{- if }}` and `{{- end }}` lines are interpreted too.
* **Drift** (`Drift`, `DriftPaths`). The desired-as-subset comparison of two JSON trees, the repair it implies, and
  the paths as they are printed.
* **Routing and subscriptions** (`ModelRouting`, `RoutingFixpoint`, `MaasSubscriptions`, `RoutingAgreement`,
  `Candidates`). One release drives two computations, the routing policy and the model subscriptions; the gateway's own
  reading of the policy and its choice of candidates are modelled as well, so that "open to a task" means what the
  gateway does.
* **Release cache** (`ReleaseCache`, `ReleaseCall`). The extraction protocol as a machine whose steps are single
  file system operations of any number of processes, with a crash possible between any two; and one whole call as
  a method on a cache object.
* **Operator updates** (`Versions`, `UpdateAudit`, `KnownGood`). Version keys, the newer-channel list, and the
  gate against a recorded set.
* **Checkers** (`AppProjects`, `Locks`, `LockRoundTrip`, `Narrowing`, `NarrowingLaws`, `Widening`). What a clean run
  of each one means.
* **Rewriter and gates** (`Pins`, `Regression`, `ToolScorer`). The digest pins, the evaluation regression gate
  and the tool-calling scorer, over exact numbers.

Some expected properties are false of the code. Each is stated with the exact condition under which it holds, and with
a concrete input where it fails or as an equivalence:

* A class predicate means what it should only when the class name can stand between single quotes: the generator does
  not escape it. It arrives through the template only when the name also holds no double quote (Python's `repr` then
  writes a scalar that is not one in YAML) and opens no Helm action, and its keys only when they are plain YAML keys
  (`QuotaConverse.ClassMeaningIffPlain`, `QuotaConverse.WritableIff`). For the gateway's username the condition is the
  first one alone (`QuotaConverse.GatewayMeaningIffPlain`).
* The reorder of a routing entry is a permutation, and the generator a fixpoint, only when no caller lists twice a
  role that one of its names has (`ModelRouting.OrderIsPermutationIff`, `RoutingFixpoint.GeneratorFixpoint`; for the
  latter no list built from the roles may have a model without a name before one with a name).
* The gateway's preference is a pure permutation of the candidates, as its comment says, only when no preferred name is
  carried by two of them (`Candidates.PreferencePermutesIff`).
* A model the gateway leaves open to a task is subscribed exactly when the task's last strict corp entry, if there is
  one, lists it (`RoutingAgreement.OpenIsReached`). The gateway keeps another entry, the last one that names models,
  so the two disagree on some release unless that entry is strict and all its names are listed by the last strict one
  (`RoutingAgreement.AgreeingOpensReach`, `RoutingAgreement.DisagreeingSplits`). The gateway drops empty names from
  every list it reads and the generator keeps them; names are read on each side as that side reads them. Two kinds of
  corp policies that fail: a strict entry that names nothing or only empty names, alone or behind loose ones
  (`RoutingAgreement.BlankStrictDisagrees`), and a strict entry followed by a loose one for the same agent and task
  (`RoutingAgreement.RepeatedKeyDisagrees`). For the same reason no exclusion reaches a catalog row without a name.
* Two overlapping extractions of one digest can strip the marker from a directory that was already returned
  (`ReleaseCache.OverlapBreaksSafety`), or leave it marked and incomplete for every later call
  (`ReleaseCache.OverlapLeavesIncomplete`).
* Two drift lines can carry one path: a key with a dot or an index in it prints like the path it spells. With plain
  keys all printed paths differ (`DriftPaths.PrintedPathsDiffer`, `DriftPaths.DottedKeyCollides`,
  `DriftPaths.IndexedKeyCollides`).
* A snapshot of the operators passes its own gate only when YAML reads its unquoted names back as texts, and no operator
  runs twice in a namespace at two versions (`KnownGood.SnapshotIsCleanIff`).
* Widening the corp policies creates a finding exactly when some v0.3 card or listed task prefers a role that the
  narrower corp does not know and the wider one does not serve at the agent's classification: the finding then changes
  from "unknown" to "not eligible". The number of findings never grows and an admitted release stays admitted
  (`Widening.NewFindingsExactly`, `Widening.WideningCreatesNothingIff`, `Widening.WideningCanRegrade`).
* A clean lock need not be pinned line by line: an indented requirement counts as a part of the entry before it
  (`Locks.ClassifyExactly`, `LockRoundTrip.IndentedLineEscapes`).

## Model

| member | source | states |
|---|---|---|
| `Cel.ParseIsInverseOfToks` | platform/okf/generate_quota_enforcement.py:200-209 | the grammar in which `?:` binds looser than the double bar is unambiguous: a token list parses to a tree iff the tree obeys the precedence levels and prints as that list |
| `CelText.TextRoundTrip` | platform/okf/generate_quota_enforcement.py:200-214 | the printed text of every expression that obeys the levels is lexed and parsed back to that expression |
| `CelText.QuotedReadsBackIffPlain` | platform/okf/generate_quota_enforcement.py:211-214 | a name put between single quotes is scanned back as itself iff it holds no quote, backslash or newline, whatever quote-free text follows |
| `Quota.ClassPredicateReadsBackIffPlain` | platform/okf/generate_quota_enforcement.py:210-214 | the printed class predicate reads back as the intended expression iff the class name can stand between single quotes |
| `Quota.ClassForm` | platform/okf/generate_quota_enforcement.py:200-209 | a class predicate is a primary expression of the grammar, which is what its outer parentheses are for |
| `QuotaMeaning.ClassPredicateMeaning` | platform/okf/generate_quota_enforcement.py:173-214 | on every request the text evaluates without error to whether the request selects the class; an absent header selects standard |
| `QuotaMeaning.PresenceMeaning` | platform/okf/generate_quota_enforcement.py:138-147 | the presence test never errs, and the counter evaluates to the header's value iff the header is there |
| `QuotaMeaning.DisjunctionGuardErrs` | platform/okf/generate_quota_enforcement.py:179-190 | the guard with a negated presence and a double bar, which the generator avoids, errs on exactly the requests without the header |
| `QuotaMeaning.ConcatenationReadsBack` | platform/okf/generate_quota_enforcement.py:200-214 | any non-empty list of terms joined by double bars is read back as exactly the disjunction of those terms |
| `QuotaMeaning.ClassConcatenationMeaning` | platform/okf/generate_quota_enforcement.py:200-214 | any number of joined class predicates evaluate without error, on every request, to whether the selected class is among them |
| `QuotaMeaning.BareJoinIsMangled` | platform/okf/generate_quota_enforcement.py:200-209 | two conditionals joined without parentheses parse as the first with everything after its colon as last operand |
| `QuotaMeaning.BareJoinLosesTheSecondClass` | platform/okf/generate_quota_enforcement.py:200-209 | so unparenthesized predicates of two classes, joined, are false on every request that names the second class |
| `QuotaMeaning.JoinKeepsTheSecondClass` | platform/okf/generate_quota_enforcement.py:200-214 | the parenthesized join is true on that request |
| `QuotaGuard.GatewayIdentityPredicate` | platform/okf/generate_quota_enforcement.py:319-337 | the loop fails iff the property does not start with `auth.identity.` and go on, and otherwise its text is the printed nested guard over the dotted path |
| `QuotaGuard.GuardMeaning` | platform/okf/generate_quota_enforcement.py:319-337 | for every path and identity the guard errs iff a present value on the way is not a map, and otherwise is true iff the path leads to the username |
| `QuotaGuard.GuardTextMeaning` | platform/okf/generate_quota_enforcement.py:323-326 | the same of the guard's text, read and evaluated |
| `QuotaGuard.BareComparisonErrs` | platform/okf/generate_quota_enforcement.py:323-326 | the bare comparison errs for exactly the identities that lack the path |
| `QuotaScalars.ReprArrivesIff` | platform/okf/generate_quota_enforcement.py:416-417 | a text with a single quote in it, written as Python's `repr`, is read back by YAML as itself iff it has no double quote and opens no Helm action, and is no scalar otherwise |
| `QuotaScalars.QuoteArrives` | platform/okf/generate_quota_enforcement.py:415 | a text written by Helm's `quote` is always read back as itself |
| `QuotaScalars.KeyReadsIff` | platform/okf/generate_quota_enforcement.py:408 | a key line is read back as its key iff the key begins like a plain scalar, holds no character, colon or comment that would end it, does not end in a blank and has at most 1024 characters |
| `QuotaLimits.ClassArrivesIff` | platform/okf/generate_quota_enforcement.py:416 | the class predicate arrives through template and YAML iff the class name has no double quote and opens no action |
| `QuotaConverse.ClassMeaningIffPlain` | platform/okf/generate_quota_enforcement.py:210-214 | the class predicate selects its class on every request iff the name can stand between single quotes; for any other name some request errs or is told wrongly |
| `QuotaConverse.WritableIff` | platform/okf/generate_quota_enforcement.py:407-418 | the emitted predicate selects the class on every request and its keys arrive iff the name is writable: plain, no double quote, no action, safe keys |
| `QuotaConverse.GatewayMeaningIffPlain` | platform/okf/generate_quota_enforcement.py:319-337 | the gateway predicate tells the gateway's own calls on every request with an identity map iff the username can stand between single quotes |
| `QuotaTemplate.AppendClass` | platform/okf/generate_quota_enforcement.py:394-420 | one class's turn of the loop appends its guarded limits, dimension by dimension |
| `QuotaLimits.RenderTrlp` | platform/okf/generate_quota_enforcement.py:340-423 | the nested loops emit exactly the specified template, with every predicate, counter and key as it is written |
| `QuotaTemplate.TemplateRenders` | platform/okf/generate_quota_enforcement.py:340-423 | guards are balanced; rendering gives nothing when disabled, is refused when a required value is missing, and otherwise gives the declared limits whose guards are on |
| `QuotaTemplate.RenderedExactly` | platform/okf/generate_quota_enforcement.py:393-421 | a limit is rendered iff its class declares a budget for its dimension and its switches are on |
| `QuotaLimits.GatewayMeaning` | platform/okf/generate_quota_enforcement.py:149-163 | the gateway predicate evaluates, on every request with an identity map, to whether the user id is the gateway's username |
| `QuotaLimits.EntryMeaning` | platform/okf/generate_quota_enforcement.py:407-418 | for a writable class every text of a limit arrives and evaluates; the limit is active iff the call is the gateway's, selects its class and carries its header; a reached counter is the header's value |
| `QuotaLimits.LimitsInForce` | platform/okf/generate_quota_enforcement.py:340-423 | for every policy of writable classes, both switches, a username that can stand between single quotes and every request with an identity map: nothing rendered errs, and the limits in force are exactly the declared, switched-on ones of the one selected class whose header is on a gateway call |
| `QuotaLimits.KeysAreDistinct` | platform/okf/generate_quota_enforcement.py:408 | two limits never share a key of the limits map |
| `Drift.WalkIsExact` | platform/gitops/argocd_drift.py:134-158 | the walk reports nothing iff desired is recursively contained in live |
| `Drift.ContainedReflexive` | platform/gitops/argocd_drift.py:134-158 | every tree is contained in itself |
| `Drift.ContainedTransitive` | platform/gitops/argocd_drift.py:134-158 | containment is transitive |
| `Drift.ReportsAreTruthful` | platform/gitops/argocd_drift.py:134-158 | every reported path resolves in desired to the reported value, and the live side reported is what live has there |
| `Drift.ReportsAreAntichain` | platform/gitops/argocd_drift.py:134-158 | no reported path is a prefix of another |
| `DriftPaths.WalkPrints` | platform/gitops/argocd_drift.py:134-158 | the walk that builds the text of the path on the way down yields the reports, each with its path printed |
| `DriftPaths.PrintedReadsBack` | platform/gitops/argocd_drift.py:142-154 | two paths whose keys are not empty and hold no dot or opening bracket are printed alike only when they are equal |
| `DriftPaths.PrintedPathsDiffer` | platform/gitops/argocd_drift.py:134-158 | when every key of desired is of that kind, no two lines of a report carry one printed path |
| `DriftPaths.DottedKeyCollides` | platform/gitops/argocd_drift.py:142-142 | for any `a` and `b`, a key `a.b` beside an object `a` with a key `b` is reported twice under one path |
| `DriftPaths.IndexedKeyCollides` | platform/gitops/argocd_drift.py:154-154 | so is a key `a[0]` beside an array `a` |
| `Drift.WalkIgnoresUndeclared` | platform/gitops/argocd_drift.py:134-141 | keys of live that desired does not declare, at any depth, never change the report |
| `Drift.RepairedIsMerge` | platform/gitops/argocd_drift.py:134-158 | overwriting live at the reported positions one by one equals the independent merge of desired into live |
| `Drift.RepairedElsewhere` | platform/gitops/argocd_drift.py:134-158 | such overwriting changes no position that is not above, at or below a reported one |
| `Drift.RepairTheorem` | platform/gitops/argocd_drift.py:134-158 | after the repair the walk reports nothing, and every position apart from the reported ones is as before |
| `ModelRouting.Generate` | platform/okf/generate_stack_config.py:244-284 | the loop that edits and adds entries produces exactly the specified policy |
| `ModelRouting.BuildIndex` | platform/okf/generate_stack_config.py:250-250 | the index maps a key to the last corp entry that carries it, and holds no other key |
| `ModelRouting.OrderKeepsNames` | platform/okf/generate_stack_config.py:267-273 | the reorder adds and loses no name, whatever the roles |
| `ModelRouting.OrderIsStable` | platform/okf/generate_stack_config.py:267-273 | inside every rank the names stand in corp order, when no role held by a name is listed twice |
| `ModelRouting.OrderKeepsRanksIff` | platform/okf/generate_stack_config.py:267-273 | every rank keeps its names in corp order iff no role held by a name is listed twice |
| `ModelRouting.OrderIsSorted` | platform/okf/generate_stack_config.py:267-273 | on the same condition the new order is sorted by the rank of the preferred role |
| `ModelRouting.OrderIsPermutationIff` | platform/okf/generate_stack_config.py:267-273 | the new order is a permutation iff no role held by a name is listed twice |
| `ModelRouting.OrderIsStableIff` | platform/okf/generate_stack_config.py:267-273 | reordering again changes nothing iff no role held by a name is listed twice |
| `RoutingFixpoint.RouteUntouched` | platform/okf/generate_stack_config.py:244-284 | corp entries no caller selects keep their position and their value |
| `RoutingFixpoint.RouteSelected` | platform/okf/generate_stack_config.py:264-283 | an entry a caller's key selects is adjusted once, by that caller alone |
| `RoutingFixpoint.AddedExactly` | platform/okf/generate_stack_config.py:274-283 | the added entries are exactly those of callers without a corp entry that declare roles or an exclusion |
| `RoutingFixpoint.FinalEntry` | platform/okf/generate_stack_config.py:244-284 | which entry of the generated policy a caller's key selects, and what it holds |
| `RoutingFixpoint.AdjustNames` | platform/okf/generate_stack_config.py:231-235 | an adjusted entry reads back as the reordered names, with `strict`, its key and its other fields untouched |
| `RoutingFixpoint.GeneratorFixpoint` | platform/okf/generate_stack_config.py:244-284 | feeding the generated policy back as the corp policy reproduces it exactly, iff no caller lists twice a role that one of its names has and no list built from roles puts a row without a name before one with a name |
| `MaasSubscriptions.Reach` | platform/okf/generate_stack_config.py:204-223 | the nested loops collect exactly the published models some task of the agent reaches |
| `MaasSubscriptions.MaasAgentSubscriptions` | platform/okf/generate_stack_config.py:193-228 | a model has a subscription iff some served agent reaches it, with exactly the names and exactly the groups of those agents |
| `RoutingAgreement.CallerGate` | components/ai-gateway/app/model_routing_policy.py:129-195 | for any corp policy, what the gateway loads for a caller: its own edited last entry over the earlier ones of the key, or its added entry, or nothing |
| `RoutingAgreement.OpenExactly` | components/ai-gateway/app/model_routing_policy.py:129-195 | for any corp policy, a model is open to a caller iff the exclusions that apply do not name it and the last entry with non-empty names, if it is strict, lists it |
| `RoutingAgreement.OpenIsReached` | platform/okf/generate_stack_config.py:193-284 | for any corp policy, a local published eligible model the gateway leaves open to a task is reached by the subscriptions iff the key's last strict entry, if there is one, lists it, and it is not a forbidden row without a name |
| `RoutingAgreement.ReachedIsOpen` | platform/okf/generate_stack_config.py:193-284 | for any corp policy, a model the subscriptions reach for a task is open to it iff the corp's own exclusions, where they apply, do not name it and the last entry with non-empty names, if it is strict, lists it |
| `RoutingAgreement.AgreeingOpensReach` | platform/okf/generate_stack_config.py:193-284 | when the key's entries agree, every open eligible model is reached, on every release, but for a forbidden row without a name |
| `RoutingAgreement.DisagreeingSplits` | platform/okf/generate_stack_config.py:193-284 | when they do not agree, some release with that corp policy has a named model that is open to the task and that the task does not reach |
| `RoutingAgreement.OpenModelsAreSubscribed` | platform/okf/generate_stack_config.py:193-228 | so an open model of a served agent that the last strict entry lists has a subscription naming the agent and all its groups |
| `RoutingAgreement.BlankStrictDisagrees` | components/ai-gateway/app/model_routing_policy.py:80-91 | a strict entry whose names are all empty, or missing, does not agree, alone or behind entries of its key that are not strict |
| `RoutingAgreement.RepeatedKeyDisagrees` | platform/okf/generate_stack_config.py:198-200 | a strict entry followed by a loose one for the same key do not agree; in the other order they do |
| `RoutingAgreement.LastOfBothAgrees` | platform/okf/generate_stack_config.py:198-200 | entries agree when the last strict one is also the last one with non-empty names |
| `Candidates.ApplyPreference` | components/ai-gateway/app/routing.py:172-218 | the loop over the preference keeps each known name once; strict gives the preferred candidates alone or a refusal |
| `Candidates.CandidatesFor` | components/ai-gateway/app/routing.py:133-170 | the candidates, or which of the four refusals applies |
| `Candidates.CandidateIffOpen` | components/ai-gateway/app/routing.py:133-218 | for a known classification and a provider table, a name is among the candidates iff an eligible provider carries it and the loaded policy leaves it open; a refusal leaves none |
| `Candidates.PreferencePermutesIff` | components/ai-gateway/app/routing.py:110-116 | a preference that is not strict permutes the candidates iff no name it lists is carried by two of them |
| `Candidates.PreferenceOrder` | components/ai-gateway/app/routing.py:172-218 | candidates of preferred names come first, in the order of the preference, and the others keep their order |
| `ReleaseCache.StepKeepsInv` | platform/okf/release_cache.py:60-103 | every step of every process, and every crash, keeps the invariant and every marked directory |
| `ReleaseCache.RunKeepsInv` | platform/okf/release_cache.py:60-103 | the same over whole runs, and every returned path is a marked directory |
| `ReleaseCache.CrashSafety` | platform/okf/release_cache.py:75-103 | from an empty cache, cut anywhere: a marked target is the full content of its digest, `current` is absent or points at one, and marked directories stay |
| `ReleaseCache.Recovers` | platform/okf/release_cache.py:86-103 | from any reachable state a call for a digest nobody is extracting can go through to a complete directory and link |
| `ReleaseCache.OverlapBreaksSafety` | platform/okf/release_cache.py:86-96 | a run with two overlapping extractions of one digest, after which a returned directory has no marker |
| `ReleaseCache.OverlapLeavesIncomplete` | platform/okf/release_cache.py:86-96 | a run with two overlapping extractions and a crash, after which the directory is marked and lacks a file, nobody extracts it, and a later call takes it |
| `ReleaseCall.Cache.ReleaseDir` | platform/okf/release_cache.py:75-103 | what a call that runs to its end returns and leaves: success iff marked before or extracted now, no staging left, nothing changed on failure, and which temporary link is left |
| `ReleaseCall.Cache.RefreshCurrent` | platform/okf/release_cache.py:60-72 | `current` ends at the target, or stays as it was when the file system refuses; its temporary link stays behind iff the replace is what fails |
| `ReleaseCall.Cache.RemoveTarget` | platform/okf/release_cache.py:94-95 | the file-by-file removal ends with exactly that directory gone |
| `Versions.KeyOrder` | platform/olm/audit_operator_updates.py:71-81 | the tagged keys are totally ordered under tuple comparison |
| `Versions.NoneIsLeast` | platform/olm/audit_operator_updates.py:71-81 | a missing version sorts before every version |
| `Versions.ReleaseLadder` | platform/olm/audit_operator_updates.py:64-81 | for one core, pre-releases sort before the release and build suffixes after it |
| `Versions.PrereleaseBeforeBuild` | platform/olm/audit_operator_updates.py:64-81 | hence a pre-release sorts before a build of the same core |
| `UpdateAudit.AuditOne` | platform/olm/audit_operator_updates.py:117-157 | the row's findings, head and newer channels are the specified ones, also for a package the catalog does not serve |
| `UpdateAudit.Dedup` | platform/olm/audit_operator_updates.py:146-152 | the loop keeps the first entry of every version, in order |
| `UpdateAudit.NewerChannelsOrdered` | platform/olm/audit_operator_updates.py:143-152 | the list is descending and holds each version once |
| `UpdateAudit.NewerChannelsComplete` | platform/olm/audit_operator_updates.py:143-152 | a version is listed iff it is above the floor and the head of some channel |
| `UpdateAudit.NewerChannelsAreHeads` | platform/olm/audit_operator_updates.py:143-152 | every listed pair is a channel with its head, flagged as a pre-release iff it is one |
| `UpdateAudit.UpdateFixpoint` | platform/olm/audit_operator_updates.py:134-157 | moving a subscription to the first listed channel and head leaves no finding |
| `KnownGood.CompareKnownGood` | platform/olm/audit_operator_updates.py:193-212 | the first loop reports row by row, in order; the second reports every recorded operator that is not installed exactly once, sorted by the printed key |
| `KnownGood.FindingsExactly` | platform/olm/audit_operator_updates.py:193-212 | those are exactly the unrecorded, differing and missing operators |
| `KnownGood.PassMeansHeld` | platform/olm/audit_operator_updates.py:193-212 | the gate passes iff recorded and installed operators are the same and every pre-GA one runs the recorded version |
| `KnownGood.SnapshotIsCleanIff` | platform/olm/audit_operator_updates.py:193-225 | rows compare clean with their own snapshot iff YAML reads all their unquoted names back as texts and no operator appears twice in one namespace at two versions |
| `AppProjects.LiteralGlob` | platform/gitops/check_app_projects.py:256-263 | a pattern without glob characters matches exactly itself |
| `AppProjects.Findings.Check` | platform/gitops/check_app_projects.py:136-145 | a condition adds one pass, or its message once to the failures |
| `AppProjects.Findings.CheckProjects` | platform/gitops/check_app_projects.py:270-298 | the findings stay clean iff every demand on the projects holds |
| `AppProjects.Findings.CheckApps` | platform/gitops/check_app_projects.py:301-344 | the findings stay clean iff every Application is within its project, and `used` holds exactly the cluster-scoped kinds each project's Applications render |
| `AppProjects.Findings.CheckUnusedWhitelist` | platform/gitops/check_app_projects.py:347-352 | the findings stay clean iff every platform whitelist entry is used or only tracked live |
| `AppProjects.CheckAll` | platform/gitops/check_app_projects.py:392-395 | the three checks in turn leave the findings clean iff all three demands hold |
| `AppProjects.NothingWritesArgo` | platform/gitops/check_app_projects.py:301-344 | after a clean run no Application has openshift-gitops as its destination or writes a namespaced object into it |
| `AppProjects.AppsRenderWorkloadsOnly` | platform/gitops/check_app_projects.py:301-344 | after a clean run no zuno-apps Application renders a cluster-scoped, OLM or ArgoCD kind, or creates a namespace |
| `AppProjects.WhitelistIsExact` | platform/gitops/check_app_projects.py:301-352 | after a clean run, with literal kinds, zuno-platform's whitelist is what its Applications render, up to the kinds only tracked live |
| `Locks.ParseLockLoop` | platform/python/check_python_locks.py:72-101 | the two loops compute the specified pins and problems |
| `Locks.NormalizeIdempotent` | platform/python/check_python_locks.py:68-69 | normalizing a name twice changes nothing |
| `Locks.CleanMeansPinnedAndHashed` | platform/python/check_python_locks.py:72-101 | no problem iff no line is an option and every entry is pinned and carries a sha256 hash |
| `Locks.ClassifyExactly` | platform/python/check_python_locks.py:78-90 | what a raw line is, told from how it begins: it opens an entry iff it begins with no blank, `#` or `-` |
| `Locks.HeadsAreEntries` | platform/python/check_python_locks.py:77-90 | every line that begins like a requirement opens an entry of its own |
| `LockRoundTrip.NotesAreIgnored` | platform/python/check_python_locks.py:78-80 | blank lines, comment lines and trailing comments, wherever they stand, do not change what is read |
| `LockRoundTrip.LockRoundTrip` | platform/python/check_python_locks.py:72-101 | any lines that are, without their comments, the pins with optional extras and hashes of some libraries are parsed to exactly those pins without a problem |
| `LockRoundTrip.AnnotatedRoundTrip` | platform/python/check_python_locks.py:72-101 | so is a whole file in pip-compile's layout: a header, and annotation lines behind every library |
| `LockRoundTrip.IndentedLineEscapes` | platform/python/check_python_locks.py:81-84 | behind a clean lock a line that continues an entry changes nothing that is read or reported |
| `LockRoundTrip.IndentedRequirement` | platform/python/check_python_locks.py:81-84 | a line of two blanks and a requirement is such a line |
| `LockRoundTrip.PinsAreExact` | platform/python/check_python_locks.py:100 | with distinct normalized names, the pins are exactly the entries |
| `Locks.RecordComponent` | platform/python/check_python_locks.py:177-181 | one component adds exactly its own pins, under its own name |
| `Locks.CheckOneVersion` | platform/python/check_python_locks.py:177-188 | the loops report exactly the libraries locked at two versions without an allowance covering all their components |
| `Locks.OneVersion` | platform/python/check_python_locks.py:182-188 | when a library is not reported, any two components lock it at one version or are both excused |
| `Pins.Rewrite` | platform/supply-chain/pin_unifai_images.py:59-71 | it succeeds iff all five components have a line, with the specified text |
| `Pins.RewriteMarked` | platform/supply-chain/pin_unifai_images.py:62-71 | the loop over `done` replaces exactly the first line of each component |
| `Pins.OnlyFirstMatchesChange` | platform/supply-chain/pin_unifai_images.py:59-71 | lines that are not the first of a component are unchanged; those that are hold the new pin |
| `Pins.NewLineMatches` | platform/supply-chain/pin_unifai_images.py:64-67 | a rewritten line is a line of the same component with the same indentation |
| `Pins.RewriteTwice` | platform/supply-chain/pin_unifai_images.py:59-71 | a second rewrite decides alone, and so rewriting is idempotent |
| `Pins.ReleaseTagOf` | platform/supply-chain/pin_unifai_images.py:42 | three numbers and a suffix are a release tag iff the suffix is a version suffix |
| `Pins.ClusterFile.Pin` | platform/supply-chain/pin_unifai_images.py:74-97 | success iff the tag is allowed and every guard passes; the file is unchanged on every refusal and on a dry run, and otherwise is the rewritten text |
| `Regression.FindWaiverLoop` | evaluations/peft_regression.py:101-105 | the loop returns the first waiver of the task and metric |
| `Regression.CompareTask` | evaluations/peft_regression.py:129-157 | the inner loop records exactly the counting metrics, each with both values, its verdict and whether a waiver made it |
| `Regression.Compare` | evaluations/peft_regression.py:108-166 | the verdict is the specification over every base task and numeric metric, per task and overall, with an exact record of every metric |
| `Regression.GatesCompose` | evaluations/peft_regression.py:108-166 | two passing comparisons without waivers give a passing one at the sum of the allowances |
| `Regression.SumIsTight` | evaluations/peft_regression.py:108-166 | no smaller allowance would do in general |
| `Regression.AppendedWaiverKeepsPass` | evaluations/peft_regression.py:101-166 | appending a waiver or raising the allowance never turns PASS into FAIL |
| `Regression.RaisedWaiverKeepsPass` | evaluations/peft_regression.py:101-166 | raising one waiver's bound never turns PASS into FAIL |
| `Regression.PrependedWaiverCanFail` | evaluations/peft_regression.py:101-105 | putting a waiver first can, because the first match hides the others |
| `ToolScorer.MentionsLoop` | evaluations/tool_calling_conformance.py:51-64 | the loop lists exactly the offered tools the folded content mentions |
| `ToolScorer.ScoresArePossible` | evaluations/tool_calling_conformance.py:83-150 | a probe scores only outcomes of its own side, or a hallucination |
| `ToolScorer.ScoreCorpus` | evaluations/tool_calling_conformance.py:153-244 | the loops count every outcome; the verdict is the specification, and each failure is listed iff its threshold is violated |
| `ToolScorer.Conservation` | evaluations/tool_calling_conformance.py:185-196 | outcomes partition the probes, side by side and in total |
| `ToolScorer.DenominatorsIgnoreOutcomes` | evaluations/tool_calling_conformance.py:189-196 | per-side denominators depend on the probes only |
| `ToolScorer.RatesAreProportions` | evaluations/tool_calling_conformance.py:198-202 | every rate lies between 0 and 1, and the call and narration rates together at most 1 |
| `ToolScorer.ImprovementKeepsPass` | evaluations/tool_calling_conformance.py:153-244 | replacing any probe's outcome by the best one of its side never turns PASS into FAIL |
| `ToolScorer.AlwaysCallingFails` | evaluations/tool_calling_conformance.py:153-244 | a model that calls a tool on every turn fails, unless the ceilings would excuse every no-tool probe |
| `Narrowing.CheckModels` | platform/supply-chain/okf_narrowing.py:53-66 | the loops list exactly the unknown, ineligible and contradictory roles, in order |
| `Narrowing.CheckLimits` | platform/supply-chain/okf_narrowing.py:69-87 | the limit findings in order, or the exception of a missing key over a negative ceiling |
| `Narrowing.CheckDelegation` | platform/supply-chain/okf_narrowing.py:90-102 | the loop lists exactly the targets that are the agent itself, missing agents or missing tasks |
| `Narrowing.CheckBundle` | platform/supply-chain/okf_narrowing.py:111-166 | one bundle's findings in order, or the first exception |
| `Narrowing.CheckRelease` | platform/supply-chain/okf_narrowing.py:169-174 | the release's findings are the bundles' in turn |
| `Narrowing.SortedInIsSorted` | platform/supply-chain/okf_narrowing.py:64-64 | the sorted set lists exactly the kept members, strictly ascending |
| `NarrowingLaws.PassesIffWithin` | platform/supply-chain/okf_narrowing.py:111-174 | a release has no findings iff every v0.3 bundle's roles, limits, delegation, guardrails, tasks and skills are within the corp policies and its tasks, and older bundles declare no delegation |
| `Widening.WideningEases` | platform/supply-chain/okf_narrowing.py:33-174 | under wider corp policies the check never raises where it did not, and finds no more |
| `Widening.NewFindingsExactly` | platform/supply-chain/okf_narrowing.py:57-63 | a finding is new under wider policies iff it is an eligibility finding about a v0.3 card or listed task that prefers a role the narrower corp does not know and the wider one does not serve there; and findings never grow in number |
| `Widening.WideningCreatesNothingIff` | platform/supply-chain/okf_narrowing.py:33-174 | widening creates no finding iff no card or listed task prefers such a role; an admitted release stays admitted |
| `Widening.BundlesGradeExactly` | platform/supply-chain/okf_narrowing.py:53-66 | the eligibility findings of a release are exactly the preferred roles, of cards and listed tasks, that the corp knows and does not serve there |
| `Widening.WideningCanRegrade` | platform/supply-chain/okf_narrowing.py:57-63 | a release on which widening the roles does create such a finding |
| `Widening.BuildRoles` | platform/supply-chain/okf_narrowing.py:38-40 | the loop builds the catalog's role table |
| `Widening.RolesMeaning` | platform/supply-chain/okf_narrowing.py:38-40 | a role is known iff a model has it, and eligible for what any model of the role is |
| `Widening.MoreModelsStayAdmitted` | platform/supply-chain/okf_narrowing.py:33-66 | a catalog that keeps the models of another, in any order, admits what it admits |

## Left out

- Files, YAML, JSON and frontmatter: every model starts from the parsed values; absent, null and given keys are kept apart where the code tells them apart.
- CEL beyond the fragment: numbers, arithmetic, lists, raw and byte literals; texts that use them are refused by the lexer or the parser.
- The template's text: one limit's ten lines are one entry with its key, counter and predicates as written, the fixed lines are one line, and budget and window are printed as given.
- Candidates.CandidatesFor: providers are rows with a name, a kind and levels, the classification is in capitals already; the log lines and the texts of the refusals are left out.
- Python's `repr` and Go's quoting of characters beyond ASCII: they are taken to stand for themselves; YAML's other escapes and multi-line scalars are not modelled.
- The ServiceAccount username is inserted into the predicate directly; Helm's `printf` is not modelled beyond that.
- What a Helm action inside a class name would do: such a text counts as not arriving.
- QuotaLimits.RenderTrlp: classes come as a list in rendering order, sorting them by name is not modelled.
- `_render_rlp`, the budgets, fail modes, quota windows and the identity lint of the quota generator: they repeat the same loop or are one-branch checks.
- Kuadrant's and Limitador's counting, and Helm beyond `if` and `end`.
- The drift report's text beyond its paths: the value rendering, the `metadata.` noise filter and the Application lookup; NaN among JSON numbers.
- ModelRouting.Generate: callers and their sorted order are given; catalog rows that lack the `name` key and reading the agents' and clients' files are not modelled.
- MaasSubscriptions.MaasAgentSubscriptions: agent and group lists are sets, their sorted printing is left out, and `published` is given as a map.
- `guardrails_modes`, `classification_floors` and the other generated files: one comprehension each.
- The cache's environment override, `conformance_dir` and `read_index`; signature verification and download are one step that fails or yields the full content.
- ReleaseCache.CrashSafety: extractions of one digest do not overlap, because otherwise it is false (ReleaseCache.OverlapBreaksSafety).
- `version_of`: versions are given as text; pending InstallPlans, pins and message wording of the audit are left out.
- KnownGood.SnapshotIsCleanIff: which names YAML takes for a number or a boolean (`123`, `on`) is given as a map, and version texts hold no quote or backslash.
- AppProjects.Findings.CheckProjects: whether a check fails is stated, not which messages are recorded; so also CheckApps and CheckUnusedWhitelist.
- Glob patterns with bracket classes, `check_root_app`, rendering with Helm and the project overlays of the AppProject check.
- Locks.ParseLockLoop: a lock is a list of lines; of the non-ASCII white space only two characters count.
- The other lock checks: direct requirements, constraints, interpreter versions, orphans and uv headers.
- Locks.CheckOneVersion: the owners of a version are a set, without the order of the listing.
- Pins.NewLineMatches: labels are on one line. The tag pattern lets one final newline through; each pinned line is then followed by an empty line, one more with every rewrite.
- Pins.RewriteTwice: the same.
- Pins.ClusterFile.Pin: the registry's, the verifier's, the webhook's and the parser's answers are parameters; digits of a tag are ASCII.
- Narrowing.CheckRelease: the order of the agents is given, a finding keeps what it is about but not its wording (so the ceiling it quotes is not compared), and references that climb out of their directory are not modelled.
- The corp's default list of modes and the reading of its five policy files: the corp is given by its fields.
- ToolScorer.ScoreCorpus: a call's arguments are given as the keys of the parsed object, or as unusable; sample ids are left out.
- Rounding in the reports of the regression gate and the scorer: rates, deltas and thresholds are exact, and scalars that are not numbers are one value.
- Regression.Compare: a task only the candidate has is listed, its metrics are not.
- Every probe, transport, browser and signing step of the repository: nothing in them is decided here.
