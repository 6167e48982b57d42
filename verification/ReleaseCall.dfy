/**
 * platform/okf/release_cache.py: one call of release_dir that runs to its end, statement by statement, on a
 * cache nobody else is writing to; ReleaseCache covers the rest.
 */
module ReleaseCall {
  import opened Util
  import opened ReleaseCache

  /** Where the file system refuses while the link is replaced, if it does. */
  datatype Fault = NoFault | AtRead | AtUnlink | AtSymlink | AtReplace

  /** The link is not replaced. The old temporary link is removed only when there is one. */
  predicate Strikes(fault: Fault, leftover: bool) { !fault.NoFault? && (fault.AtUnlink? ==> leftover) }

  /** The temporary links behind a replacement by `pid`: its own is gone, was never touched, or leads to the target. */
  function LinksAfter(links: map<Pid, Digest>, pid: Pid, target: Digest, fault: Fault): map<Pid, Digest> {
    match fault
    case AtRead => links
    case AtUnlink => if pid in links then links else links - {pid}
    case AtReplace => links[pid := target]
    case _ => links - {pid}
  }

  class Cache {
    var targets: map<Digest, Dir>
    var staging: map<nat, Dir>
    var current: Option<Digest>
    var links: map<Pid, Digest>

    constructor ()
      ensures targets == map[] && staging == map[] && current == None && links == map[]
    {
      targets, staging, current, links := map[], map[], None, map[];
    }

    predicate Marked(d: Digest)
      reads this
    {
      d in targets && targets[d].marked
    }

    /** `locked` is the digest the reference pins, if it pins one; `content` is what the extraction produces,
        or None when admission refuses it; `fault` is where an OSError comes while the link is replaced. */
    method ReleaseDir(pid: Pid, locked: Option<Digest>, content: Option<Tree>, fault: Fault)
      returns (r: Result<Digest>)
      modifies this
      ensures staging == old(staging)
      ensures locked.None? ==> r.Err?
      ensures locked.Some? ==> (r.Ok? <==> old(Marked(locked.value)) || content.Some?)
      ensures r.Err? ==> targets == old(targets) && current == old(current) && links == old(links)
      ensures r.Ok? ==> locked == Some(r.value) && Marked(r.value)
      ensures r.Ok? && old(Marked(r.value)) ==> targets == old(targets)
      ensures r.Ok? && !old(Marked(r.value)) ==> targets == old(targets)[r.value := Dir(content.value, true)]
      ensures r.Ok? ==> current == if Strikes(fault, pid in old(links)) then old(current) else Some(r.value)
      ensures r.Ok? ==> links == if old(current) == Some(r.value) then old(links)
                                 else LinksAfter(old(links), pid, r.value, fault)
    {
      if locked.None? {
        return Err("platform/okf/agents.lock pins no release");
      }
      var target := locked.value;
      if !Marked(target) {
        var s := MakeStaging();
        var extracted := Extract(s, content);
        if !extracted {
          RemoveStaging(s);
          assert staging == old(staging);
          return Err("cannot extract " + target);
        }
        staging := staging[s := staging[s].(marked := true)];
        if target in targets {
          RemoveTarget(target);
        }
        targets := targets[target := staging[s]];
        staging := staging - {s};
        assert staging == old(staging);
      }
      RefreshCurrent(pid, target, fault);
      return Ok(target);
    }

    /** mkdtemp: a new empty directory. */
    method MakeStaging() returns (s: nat)
      modifies this`staging
      ensures s !in old(staging) && staging == old(staging)[s := Dir(map[], false)]
    {
      ghost var free := FreshName(staging.Keys);
      s := 0;
      while s in staging
        invariant s <= free
        decreases free - s
      {
        s := s + 1;
      }
      staging := staging[s := Dir(map[], false)];
    }

    /** Writes the files one by one; nothing is written when admission refuses the release. */
    method Extract(s: nat, content: Option<Tree>) returns (ok: bool)
      requires s in staging && staging[s] == Dir(map[], false)
      modifies this`staging
      ensures ok <==> content.Some?
      ensures ok ==> staging == old(staging)[s := Dir(content.value, false)]
      ensures !ok ==> staging == old(staging)
    {
      if content.None? {
        return false;
      }
      var todo := content.value.Keys;
      while todo != {}
        invariant todo <= content.value.Keys
        invariant s in staging && staging[s].files.Keys == content.value.Keys - todo && !staging[s].marked
        invariant forall f | f in staging[s].files :: staging[s].files[f] == content.value[f]
        invariant staging == old(staging)[s := staging[s]]
        decreases todo
      {
        var f :| f in todo;
        todo := todo - {f};
        staging := staging[s := staging[s].(files := staging[s].files[f := content.value[f]])];
      }
      assert staging[s].files == content.value;
      return true;
    }

    /** rmtree of an incomplete target, file by file. */
    method RemoveTarget(d: Digest)
      requires d in targets
      modifies this`targets
      ensures targets == old(targets) - {d}
    {
      while targets[d].files != map[]
        invariant d in targets && targets - {d} == old(targets) - {d}
        decreases targets[d].files.Keys
      {
        var f :| f in targets[d].files;
        targets := targets[d := targets[d].(files := targets[d].files - {f})];
      }
      targets := targets - {d};
    }

    method RemoveStaging(s: nat)
      requires s in staging
      modifies this`staging
      ensures staging == old(staging) - {s}
    {
      staging := staging - {s};
    }

    /** `current` through a temporary link, replaced in one step; an OSError leaves it as it was, and the temporary
        link behind if it comes last. */
    method RefreshCurrent(pid: Pid, target: Digest, fault: Fault)
      modifies this`current, this`links
      ensures current == if Strikes(fault, pid in old(links)) then old(current) else Some(target)
      ensures links == if old(current) == Some(target) then old(links) else LinksAfter(old(links), pid, target, fault)
    {
      if fault.AtRead? || current == Some(target) {
        return;
      }
      if pid in links {
        if fault.AtUnlink? {
          return;
        }
        links := links - {pid};
      }
      if fault.AtSymlink? {
        return;
      }
      links := links[pid := target];
      if fault.AtReplace? {
        return;
      }
      current := Some(links[pid]);
      links := links - {pid};
    }
  }
}
