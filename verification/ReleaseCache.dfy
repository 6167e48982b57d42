/**
 * platform/okf/release_cache.py: the extraction protocol as a machine. One action is one file system
 * operation of one process, and any number of processes interleave.
 */
module ReleaseCache {
  import opened Util

  type Digest = string
  type Pid = nat
  type Tree = map<string, string>

  /** A directory of the cache: its files and whether it holds `.verified`. */
  datatype Dir = Dir(files: Tree, marked: bool)

  /** Where a call of release_dir stands; `s` names its staging directory. */
  datatype Phase =
    | Start
    | Missed
    | Extracting(s: nat)
    | Extracted(s: nat)
    | Stamped(s: nat)
    | Opened(s: nat)
    | Clearing(s: nat)
    | Cleared(s: nat)
    | Failing(s: nat)
    | Raised
    | Linking
    | LinkStale
    | LinkFree
    | LinkMade
    | Returned

  datatype Process = Process(digest: Digest, phase: Phase)

  /** `current` and the `.current-<pid>` links hold the name of a digest directory. */
  datatype State = State(targets: map<Digest, Dir>, staging: map<nat, Dir>, current: Option<Digest>,
                         links: map<Pid, Digest>, procs: map<Pid, Process>)

  /** A process may crash before any of its actions; a run is a list of actions. */
  datatype Action =
    | Call(p: Pid, d: Digest)
    | Crash(p: Pid)
    | Look(p: Pid)
    | MakeStaging(p: Pid, s: nat)
    | ExtractFile(p: Pid, path: string)
    | ExtractDone(p: Pid)
    | WriteMarker(p: Pid)
    | Chmod(p: Pid)
    | TestTarget(p: Pid)
    | RemoveFile(p: Pid, path: string)
    | RemoveMarker(p: Pid)
    | RemoveDir(p: Pid)
    | ReplaceTarget(p: Pid)
    | Fail(p: Pid)
    | CleanFile(p: Pid, path: string)
    | CleanMarker(p: Pid)
    | CleanDone(p: Pid, removed: bool)
    | TestLink(p: Pid)
    | Unlink(p: Pid)
    | Symlink(p: Pid)
    | SwapLink(p: Pid)
    | LinkError(p: Pid)

  function HasMarker(st: State, d: Digest): bool { d in st.targets && st.targets[d].marked }

  /** Between the miss and the end of the extraction. */
  predicate InExtraction(ph: Phase) {
    ph.Missed? || ph.Extracting? || ph.Extracted? || ph.Stamped? || ph.Opened? || ph.Clearing? || ph.Cleared?
        || ph.Failing?
  }

  /** After the marker was seen or put in place. */
  predicate HasTarget(ph: Phase) { ph.Linking? || ph.LinkStale? || ph.LinkFree? || ph.LinkMade? || ph.Returned? }

  predicate BeingExtracted(st: State, d: Digest) {
    exists p :: p in st.procs && st.procs[p].digest == d && InExtraction(st.procs[p].phase)
  }

  function At(st: State, p: Pid, ph: Phase): State
    requires p in st.procs
  {
    st.(procs := st.procs[p := st.procs[p].(phase := ph)])
  }

  /** The state after one action, or None when the action is not possible. `release` is what a successful
      extract of each digest produces; with `exclusive`, no two processes extract one digest at once. */
  function Do(release: map<Digest, Tree>, exclusive: bool, st: State, a: Action): Option<State> {
    if a.Call? then
      if a.p in st.procs then None else Some(st.(procs := st.procs[a.p := Process(a.d, Start)]))
    else if a.p !in st.procs then None
    else
      var p := a.p;
      var d, ph := st.procs[p].digest, st.procs[p].phase;
      match a
      case Crash(_) => Some(st.(procs := st.procs - {p}))
      case Look(_) =>
        if !ph.Start? then None
        else if HasMarker(st, d) then Some(At(st, p, Linking))
        else if exclusive && BeingExtracted(st, d) then None
        else Some(At(st, p, Missed))
      case MakeStaging(_, s) =>
        if !ph.Missed? || s in st.staging then None
        else Some(At(st.(staging := st.staging[s := Dir(map[], false)]), p, Extracting(s)))
      case ExtractFile(_, path) =>
        if !ph.Extracting? || ph.s !in st.staging || d !in release || path !in release[d] then None
        else
          var dir := st.staging[ph.s];
          Some(st.(staging := st.staging[ph.s := dir.(files := dir.files[path := release[d][path]])]))
      case ExtractDone(_) =>
        if !ph.Extracting? || ph.s !in st.staging || d !in release || st.staging[ph.s].files != release[d] then None
        else Some(At(st, p, Extracted(ph.s)))
      case WriteMarker(_) =>
        if !ph.Extracted? || ph.s !in st.staging then None
        else Some(At(st.(staging := st.staging[ph.s := st.staging[ph.s].(marked := true)]), p, Stamped(ph.s)))
      case Chmod(_) => if !ph.Stamped? then None else Some(At(st, p, Opened(ph.s)))
      case TestTarget(_) =>
        if !ph.Opened? then None
        else Some(At(st, p, if d in st.targets then Clearing(ph.s) else Cleared(ph.s)))
      case RemoveFile(_, path) =>
        if !ph.Clearing? || d !in st.targets then None
        else Some(st.(targets := st.targets[d := st.targets[d].(files := st.targets[d].files - {path})]))
      case RemoveMarker(_) =>
        if !ph.Clearing? || d !in st.targets then None
        else Some(st.(targets := st.targets[d := st.targets[d].(marked := false)]))
      case RemoveDir(_) =>
        if !ph.Clearing? || d !in st.targets || st.targets[d] != Dir(map[], false) then None
        else Some(At(st.(targets := st.targets - {d}), p, Cleared(ph.s)))
      case ReplaceTarget(_) =>
        if !ph.Cleared? || d in st.targets || ph.s !in st.staging then None
        else Some(At(st.(targets := st.targets[d := st.staging[ph.s]], staging := st.staging - {ph.s}), p, Linking))
      case Fail(_) =>
        if ph.Missed? then Some(At(st, p, Raised))
        else if InExtraction(ph) && !ph.Failing? then Some(At(st, p, Failing(ph.s)))
        else None
      case CleanFile(_, path) =>
        if !ph.Failing? || ph.s !in st.staging then None
        else Some(st.(staging := st.staging[ph.s := st.staging[ph.s].(files := st.staging[ph.s].files - {path})]))
      case CleanMarker(_) =>
        if !ph.Failing? || ph.s !in st.staging then None
        else Some(st.(staging := st.staging[ph.s := st.staging[ph.s].(marked := false)]))
      case CleanDone(_, removed) =>
        if !ph.Failing? then None
        else Some(At(if removed then st.(staging := st.staging - {ph.s}) else st, p, Raised))
      case TestLink(_) =>
        if !ph.Linking? then None else Some(At(st, p, if st.current == Some(d) then Returned else LinkStale))
      case Unlink(_) => if !ph.LinkStale? then None else Some(At(st.(links := st.links - {p}), p, LinkFree))
      case Symlink(_) =>
        if !ph.LinkFree? || p in st.links then None
        else Some(At(st.(links := st.links[p := d]), p, LinkMade))
      case SwapLink(_) =>
        if !ph.LinkMade? || p !in st.links then None
        else Some(At(st.(current := Some(st.links[p]), links := st.links - {p}), p, Returned))
      case LinkError(_) =>
        if HasTarget(ph) && !ph.Returned? then Some(At(st, p, Returned)) else None
  }

  function Run(release: map<Digest, Tree>, exclusive: bool, st: State, acts: seq<Action>): Option<State>
    decreases |acts|
  {
    if acts == [] then Some(st)
    else match Do(release, exclusive, st, acts[0])
      case None => None
      case Some(next) => Run(release, exclusive, next, acts[1..])
  }

  const EMPTY := State(map[], map[], None, map[], map[])

  // ---------------------------------------------------------------- what every step keeps

  /** A marked target is complete, and `current` points at a marked target. */
  ghost predicate Safe(release: map<Digest, Tree>, st: State) {
    (forall d | d in st.targets && st.targets[d].marked :: d in release && st.targets[d].files == release[d])
    && (st.current.Some? ==> HasMarker(st, st.current.value))
  }

  /** What holds of one process wherever it stands. */
  ghost predicate ProcessOk(release: map<Digest, Tree>, st: State, p: Pid)
    requires p in st.procs
  {
    var d, ph := st.procs[p].digest, st.procs[p].phase;
    (InExtraction(ph) ==> !HasMarker(st, d))
    && (InExtraction(ph) && !ph.Missed? ==> ph.s in st.staging)
    && (ph.Extracted? || ph.Stamped? || ph.Opened? || ph.Clearing? || ph.Cleared? ==>
          d in release && ph.s in st.staging && st.staging[ph.s].files == release[d])
    && (ph.Stamped? || ph.Opened? || ph.Clearing? || ph.Cleared? ==> st.staging[ph.s].marked)
    && (ph.Clearing? ==> d in st.targets)
    && (ph.Cleared? ==> d !in st.targets)
    && (HasTarget(ph) ==> HasMarker(st, d))
    && (ph.LinkMade? ==> p in st.links && st.links[p] == d)
  }

  predicate Staged(ph: Phase, s: nat) { InExtraction(ph) && !ph.Missed? && ph.s == s }

  /** Two processes do not extract one digest, and do not share a staging directory. */
  predicate PairApart(st: State, p: Pid, q: Pid)
    requires p in st.procs && q in st.procs
  {
    var pp, qq := st.procs[p], st.procs[q];
    InExtraction(pp.phase) && InExtraction(qq.phase) ==>
      pp.digest != qq.digest && (!pp.phase.Missed? && !qq.phase.Missed? ==> pp.phase.s != qq.phase.s)
  }

  ghost predicate Apart(st: State) {
    forall p, q | p in st.procs && q in st.procs && p != q :: PairApart(st, p, q)
  }

  ghost predicate Inv(release: map<Digest, Tree>, st: State) {
    Safe(release, st) && Apart(st) && forall p | p in st.procs :: ProcessOk(release, st, p)
  }

  /** Every marked directory is still there, unchanged. */
  ghost predicate KeepsMarked(st: State, next: State) {
    forall d | HasMarker(st, d) :: d in next.targets && next.targets[d] == st.targets[d]
  }

  /** What the actor's own action relies on. */
  ghost predicate ActorOk(release: map<Digest, Tree>, st: State, p: Pid) {
    p in st.procs ==> ProcessOk(release, st, p)
  }

  lemma StepKeepsSafe(release: map<Digest, Tree>, st: State, a: Action)
    requires Safe(release, st) && ActorOk(release, st, a.p) && Do(release, true, st, a).Some?
    ensures Safe(release, Do(release, true, st, a).value) && KeepsMarked(st, Do(release, true, st, a).value)
  {
    if Early(a) { EarlyLeavesTargets(release, st, a); }
    else if LinkStep(a) { LinkKeepsSafe(release, st, a); }
    else { LateKeepsSafe(release, st, a); }
  }

  lemma EarlyLeavesTargets(release: map<Digest, Tree>, st: State, a: Action)
    requires Early(a) && Do(release, true, st, a).Some?
    ensures var next := Do(release, true, st, a).value; next.targets == st.targets && next.current == st.current
  {
  }

  lemma LinkKeepsSafe(release: map<Digest, Tree>, st: State, a: Action)
    requires LinkStep(a) && Safe(release, st) && ActorOk(release, st, a.p) && Do(release, true, st, a).Some?
    ensures Safe(release, Do(release, true, st, a).value) && KeepsMarked(st, Do(release, true, st, a).value)
  {
  }

  lemma LateKeepsSafe(release: map<Digest, Tree>, st: State, a: Action)
    requires !Early(a) && !LinkStep(a) && Safe(release, st) && ActorOk(release, st, a.p)
             && Do(release, true, st, a).Some?
    ensures Safe(release, Do(release, true, st, a).value) && KeepsMarked(st, Do(release, true, st, a).value)
  {
  }

  lemma StepKeepsApart(release: map<Digest, Tree>, st: State, a: Action)
    requires Inv(release, st) && Do(release, true, st, a).Some?
    ensures Apart(Do(release, true, st, a).value)
  {
    var next := Do(release, true, st, a).value;
    StepTouches(release, st, a);
    if a.p in next.procs {
      forall q | q in next.procs && q != a.p ensures PairApart(next, a.p, q) {
        assert ProcessOk(release, st, q);
        assert a.p in st.procs ==> PairApart(st, a.p, q);
        StepKeepsPairApart(release, st, a, q);
      }
    }
    ApartExcept(st, next, a.p);
  }

  lemma ApartExcept(st: State, next: State, p: Pid)
    requires Apart(st)
    requires forall q | q in next.procs && q != p :: q in st.procs && next.procs[q] == st.procs[q]
    requires p in next.procs ==> forall q | q in next.procs && q != p :: PairApart(next, p, q)
    ensures Apart(next)
  {
    forall a, b | a in next.procs && b in next.procs && a != b ensures PairApart(next, a, b) {
      if a != p && b != p { assert PairApart(st, a, b); }
      else if a == p { assert PairApart(next, p, b); }
      else { assert PairApart(next, p, a); }
    }
  }

  lemma StepKeepsPairApart(release: map<Digest, Tree>, st: State, a: Action, q: Pid)
    requires Do(release, true, st, a).Some? && q in st.procs && q != a.p && ProcessOk(release, st, q)
    requires a.p in st.procs ==> PairApart(st, a.p, q)
    ensures var next := Do(release, true, st, a).value; a.p in next.procs && q in next.procs ==> PairApart(next, a.p, q)
  {
    var next := Do(release, true, st, a).value;
    PhaseStep(release, st, a);
    if a.p in next.procs {
      assert next.procs == st.procs[a.p := next.procs[a.p]];
      if a.Look? && next.procs[a.p].phase.Missed? && InExtraction(st.procs[q].phase) {
        NotBeingExtracted(release, st, a, q);
      }
    }
  }

  /** How an action changes its process: it enters an extraction by a look that found none going on, takes a staging
      directory nobody has, or keeps the one it has. */
  ghost predicate PhaseStepped(st: State, next: State, a: Action) {
    if a.p !in next.procs then next.procs == st.procs - {a.p}
    else
      next.procs == st.procs[a.p := next.procs[a.p]]
      && (InExtraction(next.procs[a.p].phase) ==>
            a.p in st.procs && next.procs[a.p].digest == st.procs[a.p].digest
            && (if a.Look? then next.procs[a.p].phase.Missed?
                else if a.MakeStaging? then next.procs[a.p].phase == Extracting(a.s) && a.s !in st.staging
                                            && st.procs[a.p].phase.Missed?
                else InExtraction(st.procs[a.p].phase) && !next.procs[a.p].phase.Missed?
                     && !st.procs[a.p].phase.Missed? && next.procs[a.p].phase.s == st.procs[a.p].phase.s))
  }

  lemma PhaseStep(release: map<Digest, Tree>, st: State, a: Action)
    requires Do(release, true, st, a).Some?
    ensures PhaseStepped(st, Do(release, true, st, a).value, a)
  {
    if Early(a) { EarlyPhaseStep(release, st, a); } else { LatePhaseStep(release, st, a); }
  }

  lemma EarlyPhaseStep(release: map<Digest, Tree>, st: State, a: Action)
    requires Early(a) && Do(release, true, st, a).Some?
    ensures PhaseStepped(st, Do(release, true, st, a).value, a)
  {
  }

  lemma LatePhaseStep(release: map<Digest, Tree>, st: State, a: Action)
    requires !Early(a) && Do(release, true, st, a).Some?
    ensures PhaseStepped(st, Do(release, true, st, a).value, a)
  {
  }

  lemma NotBeingExtracted(release: map<Digest, Tree>, st: State, a: Action, q: Pid)
    requires a.Look? && Do(release, true, st, a).Some? && q in st.procs && InExtraction(st.procs[q].phase)
    requires a.p in st.procs && Do(release, true, st, a).value.procs[a.p].phase.Missed?
    ensures st.procs[q].digest != st.procs[a.p].digest
  {
  }

  lemma StepKeepsActor(release: map<Digest, Tree>, st: State, a: Action)
    requires ActorOk(release, st, a.p) && Do(release, true, st, a).Some?
    ensures ActorOk(release, Do(release, true, st, a).value, a.p)
  {
    if Early(a) { EarlyKeepsActor(release, st, a); }
    else if LinkStep(a) { LinkKeepsActor(release, st, a); }
    else { LateKeepsActor(release, st, a); }
  }

  /** Up to the sealed staging directory. */
  predicate Early(a: Action) {
    a.Call? || a.Crash? || a.Look? || a.MakeStaging? || a.ExtractFile? || a.ExtractDone? || a.WriteMarker? || a.Chmod?
  }

  /** The link of a returned directory. */
  predicate LinkStep(a: Action) { a.TestLink? || a.Unlink? || a.Symlink? || a.SwapLink? || a.LinkError? }

  lemma EarlyKeepsActor(release: map<Digest, Tree>, st: State, a: Action)
    requires Early(a) && ActorOk(release, st, a.p) && Do(release, true, st, a).Some?
    ensures ActorOk(release, Do(release, true, st, a).value, a.p)
  {
  }

  lemma LinkKeepsActor(release: map<Digest, Tree>, st: State, a: Action)
    requires LinkStep(a) && ActorOk(release, st, a.p) && Do(release, true, st, a).Some?
    ensures ActorOk(release, Do(release, true, st, a).value, a.p)
  {
  }

  lemma LateKeepsActor(release: map<Digest, Tree>, st: State, a: Action)
    requires !Early(a) && !LinkStep(a) && ActorOk(release, st, a.p) && Do(release, true, st, a).Some?
    ensures ActorOk(release, Do(release, true, st, a).value, a.p)
  {
  }

  /** What an action of process `p` can touch: its own entry, its own link, the target of the digest it extracts, and
      its own staging directory. */
  ghost predicate Touches(st: State, next: State, p: Pid) {
    (forall q | q != p :: (q in next.procs <==> q in st.procs) && (q in st.procs ==> next.procs[q] == st.procs[q]))
    && (forall q | q != p :: (q in next.links <==> q in st.links) && (q in st.links ==> next.links[q] == st.links[q]))
    && (forall d | d !in Worked(st, p) ::
          (d in next.targets <==> d in st.targets) && (d in st.targets ==> next.targets[d] == st.targets[d]))
    && (forall s | s in st.staging && !OwnStaging(st, p, s) :: s in next.staging && next.staging[s] == st.staging[s])
  }

  function Worked(st: State, p: Pid): set<Digest> {
    if p in st.procs && InExtraction(st.procs[p].phase) then {st.procs[p].digest} else {}
  }

  predicate OwnStaging(st: State, p: Pid, s: nat) { p in st.procs && Staged(st.procs[p].phase, s) }

  lemma StepTouches(release: map<Digest, Tree>, st: State, a: Action)
    requires Do(release, true, st, a).Some?
    ensures Touches(st, Do(release, true, st, a).value, a.p)
  {
    if Early(a) { EarlyTouches(release, st, a); }
    else if LinkStep(a) { LinkTouches(release, st, a); }
    else if a.Fail? { FailTouches(release, st, a); }
    else if AbortStep(a) { CleanTouches(release, st, a); }
    else { SwapTouches(release, st, a); }
  }

  /** A failure and the clean-up after it. */
  predicate AbortStep(a: Action) { a.Fail? || a.CleanFile? || a.CleanMarker? || a.CleanDone? }

  lemma FailTouches(release: map<Digest, Tree>, st: State, a: Action)
    requires a.Fail? && Do(release, true, st, a).Some?
    ensures Touches(st, Do(release, true, st, a).value, a.p)
  {
  }

  lemma CleanTouches(release: map<Digest, Tree>, st: State, a: Action)
    requires AbortStep(a) && !a.Fail? && Do(release, true, st, a).Some?
    ensures Touches(st, Do(release, true, st, a).value, a.p)
  {
  }

  lemma LinkTouches(release: map<Digest, Tree>, st: State, a: Action)
    requires LinkStep(a) && Do(release, true, st, a).Some?
    ensures Touches(st, Do(release, true, st, a).value, a.p)
  {
  }

  lemma EarlyTouches(release: map<Digest, Tree>, st: State, a: Action)
    requires Early(a) && Do(release, true, st, a).Some?
    ensures Touches(st, Do(release, true, st, a).value, a.p)
  {
  }

  lemma SwapTouches(release: map<Digest, Tree>, st: State, a: Action)
    requires !Early(a) && !LinkStep(a) && !AbortStep(a) && Do(release, true, st, a).Some?
    ensures Touches(st, Do(release, true, st, a).value, a.p)
  {
  }

  /** Another process's action leaves alone what an extraction relies on. */
  lemma StepFrame(st: State, next: State, actor: Pid, p: Pid)
    requires Touches(st, next, actor) && Apart(st) && p != actor && p in st.procs
    ensures var d, ph := st.procs[p].digest, st.procs[p].phase;
            p in next.procs && next.procs[p] == st.procs[p]
            && (InExtraction(ph) ==> (d in next.targets <==> d in st.targets)
                                     && (d in st.targets ==> next.targets[d] == st.targets[d]))
            && (p in next.links <==> p in st.links) && (p in st.links ==> next.links[p] == st.links[p])
  {
    if actor in st.procs { assert PairApart(st, actor, p); }
  }

  lemma StagingFrame(release: map<Digest, Tree>, st: State, next: State, actor: Pid, p: Pid, s: nat)
    requires Touches(st, next, actor) && Apart(st) && p != actor && p in st.procs && ProcessOk(release, st, p)
    requires Staged(st.procs[p].phase, s)
    ensures s in st.staging && s in next.staging && next.staging[s] == st.staging[s]
  {
    if actor in st.procs { assert PairApart(st, actor, p); }
  }

  lemma StepKeepsOther(release: map<Digest, Tree>, st: State, a: Action, p: Pid)
    requires Inv(release, st) && Do(release, true, st, a).Some?
    requires p != a.p && p in st.procs
    ensures var next := Do(release, true, st, a).value; p in next.procs && ProcessOk(release, next, p)
  {
    assert ActorOk(release, st, a.p);
    StepTouches(release, st, a);
    StepKeepsSafe(release, st, a);
    OtherStaysOk(release, st, Do(release, true, st, a).value, a.p, p);
  }

  lemma OtherStaysOk(release: map<Digest, Tree>, st: State, next: State, actor: Pid, p: Pid)
    requires Inv(release, st) && Touches(st, next, actor) && KeepsMarked(st, next) && p != actor && p in st.procs
    ensures p in next.procs && ProcessOk(release, next, p)
  {
    assert ProcessOk(release, st, p);
    StepFrame(st, next, actor, p);
    var ph := st.procs[p].phase;
    if InExtraction(ph) && !ph.Missed? { StagingFrame(release, st, next, actor, p, ph.s); }
  }

  lemma StepKeepsInv(release: map<Digest, Tree>, st: State, a: Action)
    requires Inv(release, st) && Do(release, true, st, a).Some?
    ensures Inv(release, Do(release, true, st, a).value) && KeepsMarked(st, Do(release, true, st, a).value)
  {
    var next := Do(release, true, st, a).value;
    assert ActorOk(release, st, a.p);
    StepKeepsSafe(release, st, a);
    StepKeepsApart(release, st, a);
    StepKeepsActor(release, st, a);
    forall p | p in next.procs ensures ProcessOk(release, next, p) {
      if p != a.p { StepKeepsOther(release, st, a, p); }
    }
  }

  // ---------------------------------------------------------------- whole runs

  /** Crash safety over whole runs: whatever the processes do and wherever they crash, from an empty cache
      every state is safe, every returned path is a marked directory, and marked directories stay. */
  lemma {:induction false} RunKeepsInv(release: map<Digest, Tree>, st: State, acts: seq<Action>)
    requires Inv(release, st) && Run(release, true, st, acts).Some?
    ensures var last := Run(release, true, st, acts).value;
            Inv(release, last) && KeepsMarked(st, last)
            && forall p | p in last.procs && last.procs[p].phase.Returned? :: HasMarker(last, last.procs[p].digest)
    decreases |acts|
  {
    if acts == [] {
      forall p | p in st.procs && st.procs[p].phase.Returned? ensures HasMarker(st, st.procs[p].digest) {
        assert ProcessOk(release, st, p);
      }
    } else {
      StepKeepsInv(release, st, acts[0]);
      RunKeepsInv(release, Do(release, true, st, acts[0]).value, acts[1..]);
    }
  }

  lemma CrashSafety(release: map<Digest, Tree>, acts: seq<Action>, cut: nat)
    requires Run(release, true, EMPTY, acts).Some? && cut <= |acts|
    ensures Run(release, true, EMPTY, acts[..cut]).Some?
    ensures var mid, last := Run(release, true, EMPTY, acts[..cut]).value, Run(release, true, EMPTY, acts).value;
            Safe(release, mid) && Safe(release, last) && KeepsMarked(mid, last)
  {
    assert acts == acts[..cut] + acts[cut..];
    RunConcat(release, true, EMPTY, acts[..cut], acts[cut..]);
    RunKeepsInv(release, EMPTY, acts[..cut]);
    RunKeepsInv(release, Run(release, true, EMPTY, acts[..cut]).value, acts[cut..]);
  }

  lemma {:induction false} RunConcat(release: map<Digest, Tree>, exclusive: bool, st: State, a: seq<Action>,
                                     b: seq<Action>)
    ensures Run(release, exclusive, st, a + b)
         == match Run(release, exclusive, st, a) case None => None case Some(mid) => Run(release, exclusive, mid, b)
    decreases |a|
  {
    if a == [] {
      assert a + b == b;
    } else {
      assert (a + b)[0] == a[0] && (a + b)[1..] == a[1..] + b;
      match Do(release, exclusive, st, a[0])
      case None =>
      case Some(next) => RunConcat(release, exclusive, next, a[1..], b);
    }
  }

  // ---------------------------------------------------------------- recovery

  /** `acts` leads from `st` to `last`. */
  ghost predicate Leads(release: map<Digest, Tree>, x: bool, st: State, acts: seq<Action>, last: State) {
    Run(release, x, st, acts) == Some(last)
  }

  lemma AndThen(release: map<Digest, Tree>, x: bool, st: State, a: seq<Action>, mid: State, b: seq<Action>, last: State)
    requires Leads(release, x, st, a, mid) && Leads(release, x, mid, b, last)
    ensures Leads(release, x, st, a + b, last)
  {
    RunConcat(release, x, st, a, b);
  }

  lemma ExtractOne(release: map<Digest, Tree>, x: bool, st: State, p: Pid, f: string) returns (next: State)
    requires p in st.procs && st.procs[p].phase.Extracting? && st.procs[p].phase.s in st.staging
    requires st.procs[p].digest in release && f in release[st.procs[p].digest]
    ensures var d, s := st.procs[p].digest, st.procs[p].phase.s;
            next == st.(staging := st.staging[s := st.staging[s].(files := st.staging[s].files[f := release[d][f]])])
    ensures Leads(release, x, st, [ExtractFile(p, f)], next)
  {
    next := Do(release, x, st, ExtractFile(p, f)).value;
  }

  /** Extraction writes the missing files one by one. */
  lemma FillStaging(release: map<Digest, Tree>, x: bool, st: State, p: Pid, todo: set<string>)
    returns (acts: seq<Action>, last: State)
    requires p in st.procs && st.procs[p].phase.Extracting? && st.procs[p].phase.s in st.staging
    requires var d, s := st.procs[p].digest, st.procs[p].phase.s;
             d in release && todo <= release[d].Keys && release[d].Keys - todo == st.staging[s].files.Keys
             && forall f | f in st.staging[s].files :: st.staging[s].files[f] == release[d][f]
    ensures Leads(release, x, st, acts, last)
    ensures var d, s := st.procs[p].digest, st.procs[p].phase.s;
            last == st.(staging := st.staging[s := st.staging[s].(files := release[d])])
    decreases |todo|
  {
    var d, s := st.procs[p].digest, st.procs[p].phase.s;
    if todo == {} {
      acts, last := [], st;
      NothingLeft(release[d], st.staging, s);
    } else {
      var f :| f in todo;
      var next := ExtractOne(release, x, st, p, f);
      assert release[d].Keys - (todo - {f}) == next.staging[s].files.Keys;
      var more, end := FillStaging(release, x, next, p, todo - {f});
      AndThen(release, x, st, [ExtractFile(p, f)], next, more, end);
      acts, last := [ExtractFile(p, f)] + more, end;
    }
  }

  lemma NothingLeft(tree: Tree, staging: map<nat, Dir>, s: nat)
    requires s in staging && tree.Keys == staging[s].files.Keys
    requires forall f | f in staging[s].files :: staging[s].files[f] == tree[f]
    ensures staging[s := staging[s].(files := tree)] == staging
  {
    assert staging[s].files == tree;
  }

  lemma RemoveOne(release: map<Digest, Tree>, x: bool, st: State, p: Pid, f: string) returns (next: State)
    requires p in st.procs && st.procs[p].phase.Clearing? && st.procs[p].digest in st.targets
    ensures var d := st.procs[p].digest;
            next == st.(targets := next.targets) && d in next.targets && next.targets - {d} == st.targets - {d}
            && next.targets[d].files.Keys == st.targets[d].files.Keys - {f}
            && next.targets[d].marked == st.targets[d].marked
    ensures Leads(release, x, st, [RemoveFile(p, f)], next)
  {
    next := Do(release, x, st, RemoveFile(p, f)).value;
  }

  lemma RemoveEmpty(release: map<Digest, Tree>, x: bool, st: State, p: Pid) returns (next: State)
    requires p in st.procs && st.procs[p].phase.Clearing? && st.procs[p].digest in st.targets
    requires !st.targets[st.procs[p].digest].marked && st.targets[st.procs[p].digest].files.Keys == {}
    ensures next == At(st.(targets := st.targets - {st.procs[p].digest}), p, Cleared(st.procs[p].phase.s))
    ensures Leads(release, x, st, [RemoveDir(p)], next)
  {
    assert st.targets[st.procs[p].digest].files == map[];
    next := Do(release, x, st, RemoveDir(p)).value;
  }

  /** rmtree of an incomplete target removes its files, then the directory. */
  lemma ClearTarget(release: map<Digest, Tree>, x: bool, st: State, p: Pid, todo: set<string>)
    returns (acts: seq<Action>, last: State)
    requires p in st.procs && st.procs[p].phase.Clearing? && st.procs[p].digest in st.targets
    requires !st.targets[st.procs[p].digest].marked && todo == st.targets[st.procs[p].digest].files.Keys
    ensures Leads(release, x, st, acts, last)
    ensures last == At(st.(targets := st.targets - {st.procs[p].digest}), p, Cleared(st.procs[p].phase.s))
    decreases |todo|
  {
    var d := st.procs[p].digest;
    if todo == {} {
      acts := [RemoveDir(p)];
      last := RemoveEmpty(release, x, st, p);
    } else {
      var f :| f in todo;
      var next := RemoveOne(release, x, st, p, f);
      var more, end := ClearTarget(release, x, next, p, todo - {f});
      AndThen(release, x, st, [RemoveFile(p, f)], next, more, end);
      acts, last := [RemoveFile(p, f)] + more, end;
    }
  }

  /** From any state a run can reach, after any crashes, a call for a digest nobody is extracting can go
      through to its end, and then its directory is complete and `current` points at it. */
  lemma Recovers(release: map<Digest, Tree>, st: State, p: Pid, d: Digest) returns (acts: seq<Action>, last: State)
    requires Inv(release, st) && p !in st.procs && d in release && !BeingExtracted(st, d)
    ensures Leads(release, true, st, acts, last) && Inv(release, last)
    ensures p in last.procs && last.procs[p] == Process(d, Returned)
    ensures last.targets == st.targets[d := Dir(release[d], true)] && last.current == Some(d)
  {
    var called := Do(release, true, st, Call(p, d)).value;
    var a1, linking;
    if HasMarker(st, d) {
      linking := Do(release, true, called, Look(p)).value;
      a1 := [Look(p)];
      assert st.targets[d] == Dir(release[d], true);
      assert st.targets == st.targets[d := Dir(release[d], true)];
    } else {
      assert !BeingExtracted(called, d);
      a1, linking := Extracts(release, called, p);
    }
    AndThen(release, true, st, [Call(p, d)], called, a1, linking);
    var a2;
    a2, last := Links(release, true, linking, p);
    AndThen(release, true, st, [Call(p, d)] + a1, linking, a2, last);
    acts := [Call(p, d)] + a1 + a2;
    RunKeepsInv(release, st, acts);
  }

  lemma Opens(release: map<Digest, Tree>, st: State, p: Pid, s: nat) returns (last: State)
    requires p in st.procs && st.procs[p].phase.Start? && s !in st.staging
    requires !HasMarker(st, st.procs[p].digest) && !BeingExtracted(st, st.procs[p].digest)
    ensures Leads(release, true, st, [Look(p)] + [MakeStaging(p, s)], last)
    ensures last == At(st.(staging := st.staging[s := Dir(map[], false)]), p, Extracting(s))
  {
    var s1 := Do(release, true, st, Look(p)).value;
    last := Do(release, true, s1, MakeStaging(p, s)).value;
    AndThen(release, true, st, [Look(p)], s1, [MakeStaging(p, s)], last);
  }

  lemma Extracts(release: map<Digest, Tree>, st: State, p: Pid) returns (acts: seq<Action>, last: State)
    requires p in st.procs && st.procs[p].phase.Start? && st.procs[p].digest in release
    requires !HasMarker(st, st.procs[p].digest) && !BeingExtracted(st, st.procs[p].digest)
    ensures Leads(release, true, st, acts, last)
    ensures var d := st.procs[p].digest;
            p in last.procs && last.procs[p] == Process(d, Linking) && last.current == st.current
            && last.targets == st.targets[d := Dir(release[d], true)] && last.links == st.links
  {
    var d := st.procs[p].digest;
    var s := FreshName(st.staging.Keys);
    var s2 := Opens(release, st, p, s);
    var fill, s3 := FillStaging(release, true, s2, p, release[d].Keys);
    AndThen(release, true, st, [Look(p)] + [MakeStaging(p, s)], s2, fill, s3);
    acts := [Look(p)] + [MakeStaging(p, s)] + fill;
    var seal, s4 := Seals(release, true, s3, p);
    AndThen(release, true, st, acts, s3, seal, s4);
    acts := acts + seal;
    var s5 := s4;
    if d in st.targets {
      var clear;
      clear, s5 := ClearTarget(release, true, s4, p, s4.targets[d].files.Keys);
      AndThen(release, true, st, acts, s4, clear, s5);
      acts := acts + clear;
    }
    last := Do(release, true, s5, ReplaceTarget(p)).value;
    AndThen(release, true, st, acts, s5, [ReplaceTarget(p)], last);
    acts := acts + [ReplaceTarget(p)];
    assert last.targets == st.targets[d := Dir(release[d], true)];
  }

  lemma Stamps(release: map<Digest, Tree>, x: bool, st: State, p: Pid) returns (last: State)
    requires p in st.procs && st.procs[p].phase.Extracting? && st.procs[p].phase.s in st.staging
    requires st.procs[p].digest in release && st.staging[st.procs[p].phase.s].files == release[st.procs[p].digest]
    ensures Leads(release, x, st, [ExtractDone(p)] + [WriteMarker(p)], last)
    ensures var d, s := st.procs[p].digest, st.procs[p].phase.s;
            last == At(st.(staging := st.staging[s := Dir(release[d], true)]), p, Stamped(s))
  {
    var s1 := Do(release, x, st, ExtractDone(p)).value;
    last := Do(release, x, s1, WriteMarker(p)).value;
    AndThen(release, x, st, [ExtractDone(p)], s1, [WriteMarker(p)], last);
  }

  /** Marker, permissions, and the look at what the target holds. */
  lemma Seals(release: map<Digest, Tree>, x: bool, st: State, p: Pid) returns (acts: seq<Action>, last: State)
    requires p in st.procs && st.procs[p].phase.Extracting? && st.procs[p].phase.s in st.staging
    requires st.procs[p].digest in release && st.staging[st.procs[p].phase.s].files == release[st.procs[p].digest]
    ensures Leads(release, x, st, acts, last)
    ensures var d, s := st.procs[p].digest, st.procs[p].phase.s;
            last == At(st.(staging := st.staging[s := Dir(release[d], true)]), p, if d in st.targets then Clearing(s)
                       else Cleared(s))
  {
    var s2 := Stamps(release, x, st, p);
    var s3 := Do(release, x, s2, Chmod(p)).value;
    AndThen(release, x, st, [ExtractDone(p)] + [WriteMarker(p)], s2, [Chmod(p)], s3);
    last := Do(release, x, s3, TestTarget(p)).value;
    acts := [ExtractDone(p)] + [WriteMarker(p)] + [Chmod(p)];
    AndThen(release, x, st, acts, s3, [TestTarget(p)], last);
    acts := acts + [TestTarget(p)];
  }

  lemma Links(release: map<Digest, Tree>, x: bool, st: State, p: Pid) returns (acts: seq<Action>, last: State)
    requires p in st.procs && st.procs[p].phase.Linking?
    ensures Leads(release, x, st, acts, last)
    ensures p in last.procs && last.procs[p] == st.procs[p].(phase := Returned)
    ensures last.targets == st.targets && last.current == Some(st.procs[p].digest)
  {
    var s1 := Do(release, x, st, TestLink(p)).value;
    if st.current == Some(st.procs[p].digest) {
      acts, last := [TestLink(p)], s1;
    } else {
      var more;
      more, last := Relinks(release, x, s1, p);
      AndThen(release, x, st, [TestLink(p)], s1, more, last);
      acts := [TestLink(p)] + more;
    }
  }

  lemma Relinks(release: map<Digest, Tree>, x: bool, st: State, p: Pid) returns (acts: seq<Action>, last: State)
    requires p in st.procs && st.procs[p].phase.LinkStale?
    ensures Leads(release, x, st, acts, last)
    ensures p in last.procs && last.procs[p] == st.procs[p].(phase := Returned)
    ensures last.targets == st.targets && last.current == Some(st.procs[p].digest)
  {
    var s2 := MakesLink(release, x, st, p);
    last := Do(release, x, s2, SwapLink(p)).value;
    acts := [Unlink(p)] + [Symlink(p)];
    AndThen(release, x, st, acts, s2, [SwapLink(p)], last);
    acts := acts + [SwapLink(p)];
  }

  lemma MakesLink(release: map<Digest, Tree>, x: bool, st: State, p: Pid) returns (last: State)
    requires p in st.procs && st.procs[p].phase.LinkStale?
    ensures Leads(release, x, st, [Unlink(p)] + [Symlink(p)], last)
    ensures last == At(st.(links := last.links), p, LinkMade) && p in last.links && last.links[p] == st.procs[p].digest
  {
    var s1 := Do(release, x, st, Unlink(p)).value;
    last := Do(release, x, s1, Symlink(p)).value;
    AndThen(release, x, st, [Unlink(p)], s1, [Symlink(p)], last);
  }

  lemma FreshName(used: set<nat>) returns (s: nat)
    ensures s !in used
  {
    s := 0;
    var seen: set<nat> := {};
    while s in used
      invariant seen <= used && forall n | n in seen :: n < s
      decreases used - seen
    {
      seen := seen + {s};
      s := s + 1;
    }
  }

  // ---------------------------------------------------------------- why extractions must not overlap

  lemma Snoc(release: map<Digest, Tree>, st: State, acts: seq<Action>, mid: State, a: Action, last: State)
    requires Leads(release, false, st, acts, mid) && Do(release, false, mid, a) == Some(last)
    ensures Leads(release, false, st, acts + [a], last)
  {
    AndThen(release, false, st, acts, mid, [a], last);
  }

  /** Process `p` up to its empty staging directory, with nothing keeping it from overlapping another. */
  lemma Begins(release: map<Digest, Tree>, st: State, acts: seq<Action>, mid: State, p: Pid, d: Digest, s: nat)
    returns (more: seq<Action>, last: State)
    requires Leads(release, false, st, acts, mid) && p !in mid.procs && !HasMarker(mid, d) && s !in mid.staging
    ensures Leads(release, false, st, more, last)
    ensures last
            == mid.(procs := mid.procs[p := Process(d, Extracting(s))], staging := mid.staging[s := Dir(map[], false)])
  {
    var s1 := Do(release, false, mid, Call(p, d)).value;
    Snoc(release, st, acts, mid, Call(p, d), s1);
    var s2 := Do(release, false, s1, Look(p)).value;
    Snoc(release, st, acts + [Call(p, d)], s1, Look(p), s2);
    last := Do(release, false, s2, MakeStaging(p, s)).value;
    more := acts + [Call(p, d)] + [Look(p)];
    Snoc(release, st, more, s2, MakeStaging(p, s), last);
    more := more + [MakeStaging(p, s)];
    assert last.procs == mid.procs[p := Process(d, Extracting(s))];
  }

  /** With two extractions of one digest at once, one process can strip the marker from the directory the
      other has already returned. */
  lemma OverlapBreaksSafety(release: map<Digest, Tree>, d: Digest) returns (acts: seq<Action>, last: State)
    requires d in release
    ensures Leads(release, false, EMPTY, acts, last)
    ensures 1 in last.procs && last.procs[1] == Process(d, Returned) && !HasMarker(last, d)
  {
    var st;
    acts, st := SecondClears(release, d);
    last := StripsMarker(release, st);
    Snoc(release, EMPTY, acts, st, RemoveMarker(2), last);
    acts := acts + [RemoveMarker(2)];
  }

  /** Worse, if the second process removes a file first and then crashes, the directory stays marked and
      incomplete, and a later call takes it. */
  lemma OverlapLeavesIncomplete(release: map<Digest, Tree>, d: Digest, f: string)
    returns (acts: seq<Action>, last: State)
    requires d in release && f in release[d]
    ensures Leads(release, false, EMPTY, acts, last) && !Safe(release, last)
    ensures HasMarker(last, d) && last.targets[d].files == release[d] - {f} && !BeingExtracted(last, d)
    ensures 3 in last.procs && last.procs[3].digest == d && HasTarget(last.procs[3].phase)
  {
    var st;
    acts, st := SecondClears(release, d);
    last := RemovesFirst(release, st, f);
    Snoc(release, EMPTY, acts, st, RemoveFile(2, f), last);
    acts, last := LaterCall(release, acts + [RemoveFile(2, f)], last, d);
  }

  lemma LaterCall(release: map<Digest, Tree>, acts: seq<Action>, st: State, d: Digest)
    returns (more: seq<Action>, last: State)
    requires Leads(release, false, EMPTY, acts, st) && HasMarker(st, d)
    requires st.procs.Keys == {1, 2} && st.procs[1].phase.Returned?
    ensures Leads(release, false, EMPTY, more, last) && last.targets == st.targets && !BeingExtracted(last, d)
    ensures 3 in last.procs && last.procs[3] == Process(d, Linking)
  {
    var s1 := Do(release, false, st, Crash(2)).value;
    Snoc(release, EMPTY, acts, st, Crash(2), s1);
    var s2 := Do(release, false, s1, Call(3, d)).value;
    Snoc(release, EMPTY, acts + [Crash(2)], s1, Call(3, d), s2);
    last := Do(release, false, s2, Look(3)).value;
    more := acts + [Crash(2)] + [Call(3, d)];
    Snoc(release, EMPTY, more, s2, Look(3), last);
    more := more + [Look(3)];
  }

  /** Process 1 has returned the directory, process 2 is about to clear it away. */
  lemma SecondClears(release: map<Digest, Tree>, d: Digest) returns (acts: seq<Action>, last: State)
    requires d in release
    ensures Leads(release, false, EMPTY, acts, last) && last.procs.Keys == {1, 2}
    ensures last.procs[1] == Process(d, Returned) && last.procs[2] == Process(d, Clearing(2))
    ensures d in last.targets && last.targets[d] == Dir(release[d], true)
  {
    var st1, st2;
    acts, st1 := Begins(release, EMPTY, [], EMPTY, 1, d, 1);
    acts, st2 := Begins(release, EMPTY, acts, st1, 2, d, 2);
    var st5;
    acts, st5 := FirstReturns(release, acts, st2, d);
    var fill, st6 := FillStaging(release, false, st5, 2, release[d].Keys);
    AndThen(release, false, EMPTY, acts, st5, fill, st6);
    var seal;
    seal, last := Seals(release, false, st6, 2);
    AndThen(release, false, EMPTY, acts + fill, st6, seal, last);
    acts := acts + fill + seal;
  }

  lemma FirstReturns(release: map<Digest, Tree>, acts: seq<Action>, st: State, d: Digest)
    returns (more: seq<Action>, last: State)
    requires Leads(release, false, EMPTY, acts, st) && d in release && st.targets == map[] && st.procs.Keys == {1, 2}
    requires 1 in st.procs && st.procs[1] == Process(d, Extracting(1)) && 1 in st.staging
             && st.staging[1] == Dir(map[], false)
    requires 2 in st.procs && st.procs[2] == Process(d, Extracting(2)) && 2 in st.staging
             && st.staging[2] == Dir(map[], false)
    ensures Leads(release, false, EMPTY, more, last)
    ensures last.procs.Keys == {1, 2} && d in last.targets && last.targets[d] == Dir(release[d], true)
    ensures 1 in last.procs && last.procs[1] == Process(d, Returned)
    ensures 2 in last.procs && last.procs[2] == Process(d, Extracting(2)) && 2 in last.staging
            && last.staging[2] == Dir(map[], false)
  {
    var fill, s1 := FillStaging(release, false, st, 1, release[d].Keys);
    AndThen(release, false, EMPTY, acts, st, fill, s1);
    var seal, s2 := Seals(release, false, s1, 1);
    AndThen(release, false, EMPTY, acts + fill, s1, seal, s2);
    var s3 := SwapsIn(release, s2);
    Snoc(release, EMPTY, acts + fill + seal, s2, ReplaceTarget(1), s3);
    last := GivesUpLink(release, s3);
    more := acts + fill + seal + [ReplaceTarget(1)];
    Snoc(release, EMPTY, more, s3, LinkError(1), last);
    more := more + [LinkError(1)];
  }

  lemma StripsMarker(release: map<Digest, Tree>, st: State) returns (next: State)
    requires 2 in st.procs && st.procs[2].phase.Clearing? && st.procs[2].digest in st.targets
    ensures Do(release, false, st, RemoveMarker(2)) == Some(next)
    ensures var d := st.procs[2].digest;
            next == st.(targets := st.targets[d := st.targets[d].(marked := false)])
  {
    next := Do(release, false, st, RemoveMarker(2)).value;
  }

  lemma RemovesFirst(release: map<Digest, Tree>, st: State, f: string) returns (next: State)
    requires 2 in st.procs && st.procs[2].phase.Clearing? && st.procs[2].digest in st.targets
    ensures Do(release, false, st, RemoveFile(2, f)) == Some(next)
    ensures var d := st.procs[2].digest;
            next == st.(targets := st.targets[d := st.targets[d].(files := st.targets[d].files - {f})])
  {
    next := Do(release, false, st, RemoveFile(2, f)).value;
  }

  lemma SwapsIn(release: map<Digest, Tree>, st: State) returns (next: State)
    requires 1 in st.procs && st.procs[1].phase.Cleared? && st.procs[1].digest !in st.targets
    requires st.procs[1].phase.s in st.staging
    ensures Do(release, false, st, ReplaceTarget(1)) == Some(next)
    ensures var d, s := st.procs[1].digest, st.procs[1].phase.s;
            next == At(st.(targets := st.targets[d := st.staging[s]], staging := st.staging - {s}), 1, Linking)
  {
    next := Do(release, false, st, ReplaceTarget(1)).value;
  }

  lemma GivesUpLink(release: map<Digest, Tree>, st: State) returns (next: State)
    requires 1 in st.procs && st.procs[1].phase.Linking?
    ensures Do(release, false, st, LinkError(1)) == Some(next) && next == At(st, 1, Returned)
  {
    next := Do(release, false, st, LinkError(1)).value;
  }
}
