/**
 * platform/gitops/argocd_drift.py: the desired-as-subset comparison of two JSON trees (_walk), and that overwriting
 * the reported positions repairs the live tree.
 */
module Drift {
  import opened Util

  // ---------------------------------------------------------------- JSON

  datatype Scalar = Null | Flag(b: bool) | Number(r: real) | Str(s: string)

  /** A JSON object keeps its members in file order. */
  datatype Json = Leaf(s: Scalar) | Object(members: Members) | Array(items: Items)
  datatype Members = NoMembers | Member(key: string, value: Json, more: Members)
  datatype Items = NoItems | Item(head: Json, tail: Items)

  /** Python compares booleans as the numbers 0 and 1. */
  function Canonical(s: Scalar): Scalar {
    match s
    case Flag(b) => Number(if b then 1.0 else 0.0)
    case _ => s
  }

  predicate SameScalar(a: Scalar, b: Scalar) { Canonical(a) == Canonical(b) }

  predicate HasKey(ms: Members, k: string) {
    match ms case NoMembers => false case Member(key, _, more) => key == k || HasKey(more, k)
  }

  function Get(ms: Members, k: string): Json
    requires HasKey(ms, k)
    ensures Get(ms, k) < ms
  {
    if ms.key == k then ms.value else Get(ms.more, k)
  }

  function Length(xs: Items): nat {
    match xs case NoItems => 0 case Item(_, tail) => 1 + Length(tail)
  }

  function At(xs: Items, i: nat): Json
    requires i < Length(xs)
  {
    if i == 0 then xs.head else At(xs.tail, i - 1)
  }

  /** No object repeats a key, as in any parsed JSON document. */
  predicate Proper(j: Json) {
    match j
    case Leaf(_) => true
    case Object(ms) => ProperMembers(ms)
    case Array(xs) => ProperItems(xs)
  }

  predicate ProperMembers(ms: Members) {
    match ms
    case NoMembers => true
    case Member(k, v, more) => Proper(v) && !HasKey(more, k) && ProperMembers(more)
  }

  predicate ProperItems(xs: Items) {
    match xs case NoItems => true case Item(x, tail) => Proper(x) && ProperItems(tail)
  }

  // ---------------------------------------------------------------- the walk

  datatype Step = Key(k: string) | Index(i: nat)

  type Path = seq<Step>

  /** What a report line shows on each side: a subtree, nothing, or only a length. */
  datatype Shown = Subtree(j: Json) | Absent | Count(n: nat)

  datatype Report = Report(path: Path, desired: Shown, live: Shown)

  function Under(s: Step, rs: seq<Report>): (r: seq<Report>)
    ensures |r| == |rs|
    ensures forall i :: 0 <= i < |rs| ==> r[i] == Report([s] + rs[i].path, rs[i].desired, rs[i].live)
  {
    if rs == [] then [] else [Report([s] + rs[0].path, rs[0].desired, rs[0].live)] + Under(s, rs[1..])
  }

  /** `desired != live` on values that are not both objects or both arrays. */
  predicate Differ(desired: Json, live: Json) {
    !(desired.Leaf? && live.Leaf? && SameScalar(desired.s, live.s))
  }

  function Walk(desired: Json, live: Json): seq<Report> {
    if desired.Object? && live.Object? then WalkMembers(desired.members, live.members)
    else if desired.Array? && live.Array? then
      if Length(desired.items) != Length(live.items) then
        [Report([], Count(Length(desired.items)), Count(Length(live.items)))]
      else WalkItems(desired.items, live.items, 0)
    else if Differ(desired, live) then [Report([], Subtree(desired), Subtree(live))]
    else []
  }

  function WalkMembers(desired: Members, live: Members): seq<Report> {
    match desired
    case NoMembers => []
    case Member(k, d, more) =>
      (if HasKey(live, k) then Under(Key(k), Walk(d, Get(live, k))) else [Report([Key(k)], Subtree(d), Absent)])
      + WalkMembers(more, live)
  }

  function WalkItems(desired: Items, live: Items, i: nat): seq<Report>
    requires Length(desired) == Length(live)
  {
    match desired
    case NoItems => []
    case Item(d, more) => Under(Index(i), Walk(d, live.head)) + WalkItems(more, live.tail, i + 1)
  }

  // ---------------------------------------------------------------- containment

  /** Everything `desired` declares is in `live`; live objects may hold more. */
  ghost predicate Contained(desired: Json, live: Json)
    decreases desired
  {
    match desired
    case Leaf(s) => live.Leaf? && SameScalar(s, live.s)
    case Object(ms) =>
      live.Object? && forall k | HasKey(ms, k) :: HasKey(live.members, k) && Contained(Get(ms, k), Get(live.members, k))
    case Array(xs) =>
      live.Array? && Length(xs) == Length(live.items) && AllContained(xs, live.items)
  }

  ghost predicate AllContained(desired: Items, live: Items)
    requires Length(desired) == Length(live)
    decreases desired
  {
    desired.NoItems? || (Contained(desired.head, live.head) && AllContained(desired.tail, live.tail))
  }

  /** The diff is exact: it reports nothing exactly when desired is contained in live. */
  lemma {:induction false} WalkIsExact(desired: Json, live: Json)
    requires Proper(desired)
    ensures Walk(desired, live) == [] <==> Contained(desired, live)
  {
    if desired.Object? && live.Object? {
      MembersExact(desired.members, live.members);
      assert Contained(desired, live) <==> Covered(desired.members, live.members);
    } else if desired.Array? && live.Array? && Length(desired.items) == Length(live.items) {
      ItemsExact(desired.items, live.items, 0);
    }
  }

  ghost predicate Covered(ms: Members, live: Members) {
    forall k | HasKey(ms, k) :: HasKey(live, k) && Contained(Get(ms, k), Get(live, k))
  }

  lemma {:induction false} MembersExact(ms: Members, live: Members)
    requires ProperMembers(ms)
    ensures WalkMembers(ms, live) == []
       <==> Covered(ms, live)
  {
    if ms.Member? {
      MembersExact(ms.more, live);
      if HasKey(live, ms.key) { WalkIsExact(ms.value, Get(live, ms.key)); }
      assert HasKey(ms, ms.key) && Get(ms, ms.key) == ms.value;
      forall k ensures HasKey(ms, k) <==> k == ms.key || HasKey(ms.more, k) {}
      forall k | HasKey(ms.more, k) ensures Get(ms, k) == Get(ms.more, k) {}
      var first := if HasKey(live, ms.key) then Under(Key(ms.key), Walk(ms.value, Get(live, ms.key)))
                   else [Report([Key(ms.key)], Subtree(ms.value), Absent)];
      assert WalkMembers(ms, live) == first + WalkMembers(ms.more, live);
      assert first == [] <==> HasKey(live, ms.key) && Contained(ms.value, Get(live, ms.key));
      if Covered(ms, live) {
        assert Covered(ms.more, live);
      }
      if Covered(ms.more, live) && first == [] {
        forall k | HasKey(ms, k) ensures HasKey(live, k) && Contained(Get(ms, k), Get(live, k)) {
          assert k == ms.key || HasKey(ms.more, k);
        }
        assert Covered(ms, live);
      }
    }
  }

  lemma {:induction false} ItemsExact(xs: Items, live: Items, i: nat)
    requires ProperItems(xs) && Length(xs) == Length(live)
    ensures WalkItems(xs, live, i) == [] <==> AllContained(xs, live)
  {
    if xs.Item? {
      WalkIsExact(xs.head, live.head);
      ItemsExact(xs.tail, live.tail, i + 1);
    }
  }

  lemma {:induction false} ContainedReflexive(j: Json)
    ensures Contained(j, j)
  {
    match j
    case Leaf(_) =>
    case Object(ms) =>
      forall k | HasKey(ms, k) ensures Contained(Get(ms, k), Get(ms, k)) { ContainedReflexive(Get(ms, k)); }
    case Array(xs) => AllContainedReflexive(xs);
  }

  lemma {:induction false} AllContainedReflexive(xs: Items)
    ensures AllContained(xs, xs)
  {
    if xs.Item? {
      ContainedReflexive(xs.head);
      AllContainedReflexive(xs.tail);
    }
  }

  lemma {:induction false} ContainedTransitive(a: Json, b: Json, c: Json)
    requires Contained(a, b) && Contained(b, c)
    ensures Contained(a, c)
  {
    match a
    case Leaf(_) =>
    case Object(ms) =>
      forall k | HasKey(ms, k) ensures HasKey(c.members, k) && Contained(Get(ms, k), Get(c.members, k)) {
        ContainedTransitive(Get(ms, k), Get(b.members, k), Get(c.members, k));
      }
    case Array(xs) => AllContainedTransitive(xs, b.items, c.items);
  }

  lemma {:induction false} AllContainedTransitive(a: Items, b: Items, c: Items)
    requires Length(a) == Length(b) == Length(c) && AllContained(a, b) && AllContained(b, c)
    ensures AllContained(a, c)
  {
    if a.Item? {
      ContainedTransitive(a.head, b.head, c.head);
      AllContainedTransitive(a.tail, b.tail, c.tail);
    }
  }

  // ---------------------------------------------------------------- the reported paths

  function Resolve(j: Json, p: Path): Option<Json>
    decreases |p|
  {
    if p == [] then Some(j)
    else match p[0]
      case Key(k) => if j.Object? && HasKey(j.members, k) then Resolve(Get(j.members, k), p[1..]) else None
      case Index(i) => if j.Array? && i < Length(j.items) then Resolve(At(j.items, i), p[1..]) else None
  }

  /** A report is truthful: its path leads to the desired value it shows, and in live to a value that
      differs in kind, scalar or length, or to nothing. */
  ghost predicate Truthful(r: Report, desired: Json, live: Json) {
    match (Resolve(desired, r.path), Resolve(live, r.path))
    case (None, _) => false
    case (Some(d), None) => r.desired == Subtree(d) && r.live == Absent && r.path != [] && r.path[|r.path| - 1].Key?
    case (Some(d), Some(l)) =>
      if d.Array? && l.Array? then
        r.desired == Count(Length(d.items)) && r.live == Count(Length(l.items)) && Length(d.items) != Length(l.items)
      else
        r.desired == Subtree(d) && r.live == Subtree(l) && !(d.Object? && l.Object?) && Differ(d, l)
  }

  lemma {:induction false} ReportsAreTruthful(desired: Json, live: Json, i: nat)
    requires Proper(desired) && i < |Walk(desired, live)|
    ensures Truthful(Walk(desired, live)[i], desired, live)
  {
    if desired.Object? && live.Object? {
      MemberReports(desired.members, live.members, i);
      var r := WalkMembers(desired.members, live.members)[i];
      var k := r.path[0].k;
      assert Resolve(desired, r.path) == Resolve(Get(desired.members, k), r.path[1..]);
    } else if desired.Array? && live.Array? && Length(desired.items) == Length(live.items) {
      ItemReports(desired.items, live.items, 0, i);
    }
  }

  /** Every report of an object starts with one of its keys and is truthful below it. */
  lemma {:induction false} MemberReports(ms: Members, live: Members, i: nat)
    requires ProperMembers(ms) && i < |WalkMembers(ms, live)|
    ensures var r := WalkMembers(ms, live)[i];
            r.path != [] && r.path[0].Key? && HasKey(ms, r.path[0].k)
            && var k := r.path[0].k;
               if HasKey(live, k) then Truthful(Report(r.path[1..], r.desired, r.live), Get(ms, k), Get(live, k))
               else r == Report([Key(k)], Subtree(Get(ms, k)), Absent)
  {
    var first := if HasKey(live, ms.key) then Under(Key(ms.key), Walk(ms.value, Get(live, ms.key)))
                 else [Report([Key(ms.key)], Subtree(ms.value), Absent)];
    if i < |first| {
      if HasKey(live, ms.key) {
        ReportsAreTruthful(ms.value, Get(live, ms.key), i);
        var sub := Walk(ms.value, Get(live, ms.key))[i];
        assert ([Key(ms.key)] + sub.path)[1..] == sub.path;
      }
    } else {
      MemberReports(ms.more, live, i - |first|);
    }
  }

  lemma {:induction false} ItemReports(xs: Items, live: Items, base: nat, i: nat)
    requires ProperItems(xs) && Length(xs) == Length(live) && i < |WalkItems(xs, live, base)|
    ensures var r := WalkItems(xs, live, base)[i];
            r.path != [] && r.path[0].Index? && base <= r.path[0].i < base + Length(xs)
            && var n := r.path[0].i - base;
               Truthful(Report(r.path[1..], r.desired, r.live), At(xs, n), At(live, n))
  {
    var first := Under(Index(base), Walk(xs.head, live.head));
    if i < |first| {
      ReportsAreTruthful(xs.head, live.head, i);
      var sub := Walk(xs.head, live.head)[i];
      assert ([Index(base)] + sub.path)[1..] == sub.path;
    } else {
      ItemReports(xs.tail, live.tail, base + 1, i - |first|);
    }
  }

  ghost predicate Antichain(rs: seq<Report>) {
    forall i, j | 0 <= i < |rs| && 0 <= j < |rs| && i != j :: !(rs[i].path <= rs[j].path)
  }

  /** No reported path is a prefix of another, so no position is reported twice. */
  lemma {:induction false} ReportsAreAntichain(desired: Json, live: Json)
    requires Proper(desired)
    ensures Antichain(Walk(desired, live))
  {
    if desired.Object? && live.Object? {
      MembersAntichain(desired.members, live.members);
    } else if desired.Array? && live.Array? && Length(desired.items) == Length(live.items) {
      ItemsAntichain(desired.items, live.items, 0);
    }
  }

  lemma StepPrefix(s: Step, p: Path, q: Path)
    ensures [s] + p <= [s] + q <==> p <= q
  {
    if [s] + p <= [s] + q { assert p == ([s] + p)[1..] && q == ([s] + q)[1..]; }
  }

  lemma UnderAntichain(s: Step, rs: seq<Report>)
    requires Antichain(rs)
    ensures Antichain(Under(s, rs))
  {
    var us := Under(s, rs);
    forall i, j | 0 <= i < |us| && 0 <= j < |us| && i != j ensures !(us[i].path <= us[j].path) {
      assert !(rs[i].path <= rs[j].path);
      StepPrefix(s, rs[i].path, rs[j].path);
    }
  }

  lemma JoinAntichain(a: seq<Report>, b: seq<Report>)
    requires Antichain(a) && Antichain(b)
    requires forall i, j | 0 <= i < |a| && 0 <= j < |b| ::
               a[i].path != [] && b[j].path != [] && a[i].path[0] != b[j].path[0]
    ensures Antichain(a + b)
  {
  }

  lemma {:induction false} MembersAntichain(ms: Members, live: Members)
    requires ProperMembers(ms)
    ensures Antichain(WalkMembers(ms, live))
  {
    if ms.Member? {
      MembersAntichain(ms.more, live);
      var rest := WalkMembers(ms.more, live);
      forall j | 0 <= j < |rest| ensures rest[j].path != [] && rest[j].path[0] != Key(ms.key) {
        MemberReports(ms.more, live, j);
      }
      if HasKey(live, ms.key) {
        ReportsAreAntichain(ms.value, Get(live, ms.key));
        UnderAntichain(Key(ms.key), Walk(ms.value, Get(live, ms.key)));
      }
      var first := if HasKey(live, ms.key) then Under(Key(ms.key), Walk(ms.value, Get(live, ms.key)))
                   else [Report([Key(ms.key)], Subtree(ms.value), Absent)];
      forall i | 0 <= i < |first| ensures first[i].path != [] && first[i].path[0] == Key(ms.key) {}
      JoinAntichain(first, rest);
    }
  }

  lemma {:induction false} ItemsAntichain(xs: Items, live: Items, base: nat)
    requires ProperItems(xs) && Length(xs) == Length(live)
    ensures Antichain(WalkItems(xs, live, base))
  {
    if xs.Item? {
      ItemsAntichain(xs.tail, live.tail, base + 1);
      var rest := WalkItems(xs.tail, live.tail, base + 1);
      forall j | 0 <= j < |rest| ensures rest[j].path != [] && rest[j].path[0] != Index(base) {
        ItemReports(xs.tail, live.tail, base + 1, j);
      }
      ReportsAreAntichain(xs.head, live.head);
      UnderAntichain(Index(base), Walk(xs.head, live.head));
    }
  }

  // ---------------------------------------------------------------- undeclared live keys

  /** Live without the keys git does not declare, at every depth the walk visits. */
  function Prune(desired: Json, live: Json): Json
    decreases live
  {
    if desired.Object? && live.Object? then Object(PruneMembers(desired.members, live.members))
    else if desired.Array? && live.Array? && Length(desired.items) == Length(live.items) then
      Array(PruneItems(desired.items, live.items))
    else live
  }

  function PruneMembers(ms: Members, live: Members): Members
    decreases live
  {
    match live
    case NoMembers => NoMembers
    case Member(k, v, more) =>
      if HasKey(ms, k) then Member(k, Prune(Get(ms, k), v), PruneMembers(ms, more)) else PruneMembers(ms, more)
  }

  function PruneItems(xs: Items, live: Items): (r: Items)
    requires Length(xs) == Length(live)
    ensures Length(r) == Length(live)
    decreases live
  {
    match live
    case NoItems => NoItems
    case Item(v, tail) => Item(Prune(xs.head, v), PruneItems(xs.tail, tail))
  }

  lemma {:induction false} PruneKeeps(ms: Members, live: Members, k: string)
    requires HasKey(ms, k)
    ensures HasKey(PruneMembers(ms, live), k) <==> HasKey(live, k)
    ensures HasKey(live, k) ==> Get(PruneMembers(ms, live), k) == Prune(Get(ms, k), Get(live, k))
  {
    if live.Member? { PruneKeeps(ms, live.more, k); }
  }

  /** Keys of live that git does not declare never change the report. */
  lemma {:induction false} WalkIgnoresUndeclared(desired: Json, live: Json)
    requires Proper(desired)
    ensures Walk(desired, Prune(desired, live)) == Walk(desired, live)
    decreases desired
  {
    if desired.Object? && live.Object? {
      forall k | HasKey(desired.members, k) ensures HasKey(desired.members, k) {
        PruneKeeps(desired.members, live.members, k);
      }
      MembersIgnore(desired.members, desired.members, live.members);
    } else if desired.Array? && live.Array? && Length(desired.items) == Length(live.items) {
      ItemsIgnore(desired.items, live.items, 0);
    }
  }

  lemma {:induction false} MembersIgnore(part: Members, ms: Members, live: Members)
    requires ProperMembers(part)
    requires forall k | HasKey(part, k) :: HasKey(ms, k) && Get(ms, k) == Get(part, k)
    ensures WalkMembers(part, PruneMembers(ms, live)) == WalkMembers(part, live)
    decreases part
  {
    if part.Member? {
      var k := part.key;
      assert HasKey(part, k) && Get(part, k) == part.value;
      PruneKeeps(ms, live, k);
      if HasKey(live, k) { WalkIgnoresUndeclared(part.value, Get(live, k)); }
      forall j | HasKey(part.more, j) ensures HasKey(ms, j) && Get(ms, j) == Get(part.more, j) {
        assert HasKey(part, j) && Get(part, j) == Get(part.more, j);
      }
      MembersIgnore(part.more, ms, live);
    }
  }

  lemma {:induction false} ItemsIgnore(xs: Items, live: Items, i: nat)
    requires ProperItems(xs) && Length(xs) == Length(live)
    ensures WalkItems(xs, PruneItems(xs, live), i) == WalkItems(xs, live, i)
    decreases xs
  {
    if xs.Item? {
      WalkIgnoresUndeclared(xs.head, live.head);
      ItemsIgnore(xs.tail, live.tail, i + 1);
    }
  }

  // ---------------------------------------------------------------- repair

  /** Overwrites one position; a key its object lacks is added at the end. */
  function Set(j: Json, p: Path, v: Json): Json
    decreases |p|
  {
    if p == [] then v
    else match p[0]
      case Key(k) =>
        if !j.Object? then j
        else if HasKey(j.members, k) then Object(Replace(j.members, k, Set(Get(j.members, k), p[1..], v)))
        else if |p| == 1 then Object(Append(j.members, k, v))
        else j
      case Index(i) =>
        if j.Array? && i < Length(j.items) then Array(ReplaceAt(j.items, i, Set(At(j.items, i), p[1..], v))) else j
  }

  function Replace(ms: Members, k: string, v: Json): Members
    requires HasKey(ms, k)
  {
    if ms.key == k then Member(k, v, ms.more) else Member(ms.key, ms.value, Replace(ms.more, k, v))
  }

  function Append(ms: Members, k: string, v: Json): Members {
    match ms case NoMembers => Member(k, v, NoMembers) case Member(a, b, more) => Member(a, b, Append(more, k, v))
  }

  function ReplaceAt(xs: Items, i: nat, v: Json): (r: Items)
    requires i < Length(xs)
    ensures Length(r) == Length(xs)
  {
    if i == 0 then Item(v, xs.tail) else Item(xs.head, ReplaceAt(xs.tail, i - 1, v))
  }

  lemma {:induction false} ReplaceGets(ms: Members, k: string, v: Json, q: string)
    requires HasKey(ms, k)
    ensures HasKey(Replace(ms, k, v), q) <==> HasKey(ms, q)
    ensures HasKey(ms, q) ==> Get(Replace(ms, k, v), q) == if q == k then v else Get(ms, q)
  {
    if ms.key != k { ReplaceGets(ms.more, k, v, q); }
  }

  lemma {:induction false} AppendGets(ms: Members, k: string, v: Json, q: string)
    requires !HasKey(ms, k)
    ensures HasKey(Append(ms, k, v), q) <==> q == k || HasKey(ms, q)
    ensures HasKey(Append(ms, k, v), q) ==> Get(Append(ms, k, v), q) == if q == k then v else Get(ms, q)
  {
    if ms.Member? { AppendGets(ms.more, k, v, q); }
  }

  lemma {:induction false} ReplaceAtGets(xs: Items, i: nat, v: Json, j: nat)
    requires i < Length(xs) && j < Length(xs)
    ensures At(ReplaceAt(xs, i, v), j) == if j == i then v else At(xs, j)
  {
    if i > 0 && j > 0 { ReplaceAtGets(xs.tail, i - 1, v, j - 1); }
  }

  /** Live overwritten, report by report, with the desired subtree at each reported path. */
  function Repaired(live: Json, rs: seq<Report>, desired: Json): Json
    requires forall i | 0 <= i < |rs| :: Resolve(desired, rs[i].path).Some?
    decreases |rs|
  {
    if rs == [] then live
    else Repaired(Set(live, rs[0].path, Resolve(desired, rs[0].path).value), rs[1..], desired)
  }

  /** What the repair amounts to, tree by tree. */
  function Merge(desired: Json, live: Json): Json
    decreases desired
  {
    if desired.Object? && live.Object? then Object(MergeMembers(desired.members, live.members))
    else if desired.Array? && live.Array? then
      if Length(desired.items) != Length(live.items) then desired else Array(MergeItems(desired.items, live.items, 0))
    else if Differ(desired, live) then desired
    else live
  }

  function MergeMembers(ms: Members, live: Members): Members
    decreases ms
  {
    match ms
    case NoMembers => live
    case Member(k, d, more) =>
      MergeMembers(more, if HasKey(live, k) then Replace(live, k, Merge(d, Get(live, k))) else Append(live, k, d))
  }

  function MergeItems(xs: Items, live: Items, i: nat): (r: Items)
    requires i + Length(xs) == Length(live)
    ensures Length(r) == Length(live)
    decreases xs
  {
    match xs
    case NoItems => live
    case Item(d, more) => MergeItems(more, ReplaceAt(live, i, Merge(d, At(live, i))), i + 1)
  }

  lemma {:induction false} MergeMembersGets(ms: Members, live: Members, k: string)
    requires ProperMembers(ms)
    ensures HasKey(MergeMembers(ms, live), k) <==> HasKey(ms, k) || HasKey(live, k)
    ensures HasKey(ms, k) ==>
              Get(MergeMembers(ms, live), k) == if HasKey(live, k) then Merge(Get(ms, k), Get(live, k)) else Get(ms, k)
    ensures !HasKey(ms, k) && HasKey(live, k) ==> Get(MergeMembers(ms, live), k) == Get(live, k)
    decreases ms
  {
    if ms.Member? {
      if HasKey(live, ms.key) {
        ReplaceGets(live, ms.key, Merge(ms.value, Get(live, ms.key)), k);
        MergeMembersGets(ms.more, Replace(live, ms.key, Merge(ms.value, Get(live, ms.key))), k);
      } else {
        AppendGets(live, ms.key, ms.value, k);
        MergeMembersGets(ms.more, Append(live, ms.key, ms.value), k);
      }
    }
  }

  lemma {:induction false} MergeItemsGets(xs: Items, live: Items, base: nat, j: nat)
    requires base + Length(xs) == Length(live) && j < Length(live)
    ensures At(MergeItems(xs, live, base), j) == if j < base then At(live, j) else Merge(At(xs, j - base), At(live, j))
    decreases xs
  {
    if xs.Item? {
      var v := Merge(xs.head, At(live, base));
      ReplaceAtGets(live, base, v, j);
      MergeItemsGets(xs.tail, ReplaceAt(live, base, v), base + 1, j);
    }
  }

  lemma {:induction false} MergeContains(desired: Json, live: Json)
    requires Proper(desired)
    ensures Contained(desired, Merge(desired, live))
  {
    if desired.Object? && live.Object? {
      var ms := desired.members;
      forall k | HasKey(ms, k)
        ensures HasKey(MergeMembers(ms, live.members), k)
                && Contained(Get(ms, k), Get(MergeMembers(ms, live.members), k))
      {
        MergeMembersGets(ms, live.members, k);
        ProperGet(ms, k);
        if HasKey(live.members, k) {
          MergeContains(Get(ms, k), Get(live.members, k));
        } else {
          ContainedReflexive(Get(ms, k));
        }
      }
    } else if desired.Array? && live.Array? && Length(desired.items) == Length(live.items) {
      var xs, ys := desired.items, live.items;
      MergeItemsContain(xs, MergeItems(xs, ys, 0), xs, ys, 0);
    } else {
      ContainedReflexive(desired);
    }
  }

  lemma {:induction false} ProperGet(ms: Members, k: string)
    requires ProperMembers(ms) && HasKey(ms, k)
    ensures Proper(Get(ms, k))
  {
    if ms.key != k { ProperGet(ms.more, k); }
  }

  lemma {:induction false} MergeItemsContain(part: Items, out: Items, xs: Items, live: Items, base: nat)
    requires ProperItems(part) && Length(part) == Length(out) && base + Length(part) == Length(xs) == Length(live)
    requires forall j | 0 <= j < Length(part) :: At(part, j) == At(xs, base + j)
    requires forall j | 0 <= j < Length(out) :: At(out, j) == At(MergeItems(xs, live, 0), base + j)
    ensures AllContained(part, out)
    decreases part
  {
    if part.Item? {
      assert At(part, 0) == part.head && At(out, 0) == out.head;
      MergeItemsGets(xs, live, 0, base);
      MergeContains(part.head, At(live, base));
      forall j | 0 <= j < Length(part.tail)
        ensures At(part.tail, j) == At(xs, base + 1 + j) && At(out.tail, j) == At(MergeItems(xs, live, 0), base + 1 + j)
      {
        assert At(part, j + 1) == At(part.tail, j) && At(out, j + 1) == At(out.tail, j);
      }
      MergeItemsContain(part.tail, out.tail, xs, live, base + 1);
    }
  }

  ghost predicate Resolvable(rs: seq<Report>, desired: Json) {
    forall i | 0 <= i < |rs| :: Resolve(desired, rs[i].path).Some?
  }

  lemma WalkResolvable(desired: Json, live: Json)
    requires Proper(desired)
    ensures Resolvable(Walk(desired, live), desired)
  {
    forall i | 0 <= i < |Walk(desired, live)| ensures Resolve(desired, Walk(desired, live)[i].path).Some? {
      ReportsAreTruthful(desired, live, i);
    }
  }

  lemma {:induction false} RepairedConcat(live: Json, a: seq<Report>, b: seq<Report>, desired: Json)
    requires Resolvable(a, desired) && Resolvable(b, desired) && Resolvable(a + b, desired)
    ensures Repaired(live, a + b, desired) == Repaired(Repaired(live, a, desired), b, desired)
    decreases |a|
  {
    if a == [] {
      assert a + b == b;
    } else {
      var first := Set(live, a[0].path, Resolve(desired, a[0].path).value);
      assert (a + b)[1..] == a[1..] + b;
      forall i | 0 <= i < |a[1..] + b| ensures Resolve(desired, (a[1..] + b)[i].path).Some? {
        assert (a[1..] + b)[i] == (a + b)[i + 1];
      }
      RepairedConcat(first, a[1..], b, desired);
    }
  }

  /** Repairs below one key stay below that key. */
  lemma {:induction false} RepairUnderKey(live: Members, k: string, rs: seq<Report>, desired: Members)
    requires HasKey(live, k) && HasKey(desired, k) && Resolvable(rs, Get(desired, k))
    ensures Resolvable(Under(Key(k), rs), Object(desired))
    ensures Repaired(Object(live), Under(Key(k), rs), Object(desired))
         == Object(Replace(live, k, Repaired(Get(live, k), rs, Get(desired, k))))
    decreases |rs|
  {
    var us := Under(Key(k), rs);
    forall i | 0 <= i < |us| ensures Resolve(Object(desired), us[i].path) == Resolve(Get(desired, k), rs[i].path) {
      assert us[i].path[1..] == rs[i].path;
    }
    if rs == [] {
      ReplaceSame(live, k);
    } else {
      var v := Resolve(Get(desired, k), rs[0].path).value;
      var sub := Set(Get(live, k), rs[0].path, v);
      assert us[0].path[1..] == rs[0].path;
      assert Set(Object(live), us[0].path, v) == Object(Replace(live, k, sub));
      ReplaceGets(live, k, sub, k);
      assert us[1..] == Under(Key(k), rs[1..]);
      RepairUnderKey(Replace(live, k, sub), k, rs[1..], desired);
      ReplaceTwice(live, k, sub, Repaired(sub, rs[1..], Get(desired, k)));
    }
  }

  lemma {:induction false} ReplaceSame(ms: Members, k: string)
    requires HasKey(ms, k)
    ensures Replace(ms, k, Get(ms, k)) == ms
  {
    if ms.key != k { ReplaceSame(ms.more, k); }
  }

  lemma {:induction false} ReplaceTwice(ms: Members, k: string, v: Json, w: Json)
    requires HasKey(ms, k)
    ensures HasKey(Replace(ms, k, v), k) && Replace(Replace(ms, k, v), k, w) == Replace(ms, k, w)
  {
    if ms.key != k { ReplaceTwice(ms.more, k, v, w); }
  }

  lemma {:induction false} RepairUnderIndex(live: Items, n: nat, rs: seq<Report>, desired: Items)
    requires n < Length(live) && n < Length(desired) && Resolvable(rs, At(desired, n))
    ensures Resolvable(Under(Index(n), rs), Array(desired))
    ensures Repaired(Array(live), Under(Index(n), rs), Array(desired))
         == Array(ReplaceAt(live, n, Repaired(At(live, n), rs, At(desired, n))))
    decreases |rs|
  {
    var us := Under(Index(n), rs);
    forall i | 0 <= i < |us| ensures Resolve(Array(desired), us[i].path) == Resolve(At(desired, n), rs[i].path) {
      assert us[i].path[1..] == rs[i].path;
    }
    if rs == [] {
      ReplaceAtSame(live, n);
    } else {
      var v := Resolve(At(desired, n), rs[0].path).value;
      var sub := Set(At(live, n), rs[0].path, v);
      assert us[0].path[1..] == rs[0].path;
      assert Set(Array(live), us[0].path, v) == Array(ReplaceAt(live, n, sub));
      ReplaceAtGets(live, n, sub, n);
      assert us[1..] == Under(Index(n), rs[1..]);
      RepairUnderIndex(ReplaceAt(live, n, sub), n, rs[1..], desired);
      ReplaceAtTwice(live, n, sub, Repaired(sub, rs[1..], At(desired, n)));
    }
  }

  lemma {:induction false} ReplaceAtSame(xs: Items, i: nat)
    requires i < Length(xs)
    ensures ReplaceAt(xs, i, At(xs, i)) == xs
  {
    if i > 0 { ReplaceAtSame(xs.tail, i - 1); }
  }

  lemma {:induction false} ReplaceAtTwice(xs: Items, i: nat, v: Json, w: Json)
    requires i < Length(xs)
    ensures ReplaceAt(ReplaceAt(xs, i, v), i, w) == ReplaceAt(xs, i, w)
  {
    if i > 0 { ReplaceAtTwice(xs.tail, i - 1, v, w); }
  }

  /** Overwriting the reported positions one by one amounts to merging desired into live. */
  lemma {:induction false} RepairedIsMerge(desired: Json, live: Json)
    requires Proper(desired)
    ensures Resolvable(Walk(desired, live), desired)
    ensures Repaired(live, Walk(desired, live), desired) == Merge(desired, live)
    decreases desired, 0
  {
    WalkResolvable(desired, live);
    var rs := Walk(desired, live);
    if desired.Object? && live.Object? {
      RepairMembers(desired.members, desired.members, live.members, live.members);
    } else if desired.Array? && live.Array? && Length(desired.items) == Length(live.items) {
      RepairItems(desired.items, desired.items, live.items, live.items, 0);
    } else if rs != [] {
      assert Set(live, [], desired) == desired;
      assert Repaired(desired, [], desired) == desired;
    }
  }

  lemma {:induction false} RepairMembers(part: Members, ms: Members, live: Members, cur: Members)
    requires ProperMembers(part)
    requires forall k | HasKey(part, k) :: HasKey(ms, k) && Get(ms, k) == Get(part, k)
    requires forall k | HasKey(part, k) :: HasKey(cur, k) == HasKey(live, k)
    requires forall k | HasKey(part, k) && HasKey(live, k) :: Get(cur, k) == Get(live, k)
    ensures Resolvable(WalkMembers(part, live), Object(ms))
    ensures Repaired(Object(cur), WalkMembers(part, live), Object(ms)) == Object(MergeMembers(part, cur))
    decreases part
  {
    if part.Member? {
      var k, d := part.key, part.value;
      assert HasKey(part, k) && Get(part, k) == d;
      var next := if HasKey(cur, k) then Replace(cur, k, Merge(d, Get(cur, k))) else Append(cur, k, d);
      forall q | HasKey(part.more, q)
        ensures HasKey(ms, q) && Get(ms, q) == Get(part.more, q)
        ensures HasKey(next, q) == HasKey(live, q) && (HasKey(live, q) ==> Get(next, q) == Get(live, q))
      {
        assert q != k && HasKey(part, q) && Get(part, q) == Get(part.more, q);
        if HasKey(cur, k) { ReplaceGets(cur, k, Merge(d, Get(cur, k)), q); } else { AppendGets(cur, k, d, q); }
      }
      RepairMembers(part.more, ms, live, next);
      var first := if HasKey(live, k) then Under(Key(k), Walk(d, Get(live, k)))
                   else [Report([Key(k)], Subtree(d), Absent)];
      FirstMember(ms, live, cur, k, d);
      RepairedConcat(Object(cur), first, WalkMembers(part.more, live), Object(ms)) by {
        ConcatResolvable(first, WalkMembers(part.more, live), Object(ms));
      }
    }
  }

  lemma ConcatResolvable(a: seq<Report>, b: seq<Report>, desired: Json)
    requires Resolvable(a, desired) && Resolvable(b, desired)
    ensures Resolvable(a + b, desired)
  {
  }

  lemma {:induction false} FirstMember(ms: Members, live: Members, cur: Members, k: string, d: Json)
    requires HasKey(ms, k) && Get(ms, k) == d && Proper(d)
    requires HasKey(cur, k) == HasKey(live, k) && (HasKey(live, k) ==> Get(cur, k) == Get(live, k))
    ensures var first := if HasKey(live, k) then Under(Key(k), Walk(d, Get(live, k)))
                         else [Report([Key(k)], Subtree(d), Absent)];
            Resolvable(first, Object(ms))
            && Repaired(Object(cur), first, Object(ms))
            == Object(if HasKey(cur, k) then Replace(cur, k, Merge(d, Get(cur, k))) else Append(cur, k, d))
    decreases d, 1
  {
    if HasKey(live, k) {
      RepairedIsMerge(d, Get(live, k));
      RepairUnderKey(cur, k, Walk(d, Get(live, k)), ms);
    } else {
      var p := [Key(k)];
      assert p[1..] == [] && Resolve(Object(ms), p) == Some(d);
      assert Set(Object(cur), p, d) == Object(Append(cur, k, d));
    }
  }

  lemma {:induction false} RepairItems(part: Items, xs: Items, live: Items, cur: Items, base: nat)
    requires ProperItems(part) && base + Length(part) == Length(xs) == Length(cur) == Length(live)
    requires forall j | 0 <= j < Length(part) :: At(part, j) == At(xs, base + j)
    requires forall j | base <= j < Length(cur) :: At(cur, j) == At(live, j)
    ensures Resolvable(WalkItems(part, Drop(live, base), base), Array(xs))
    ensures Repaired(Array(cur), WalkItems(part, Drop(live, base), base), Array(xs))
            == Array(MergeItems(part, cur, base))
    decreases part
  {
    if part.Item? {
      assert At(part, 0) == part.head;
      DropAt(live, base, 0);
      var v := Merge(part.head, At(cur, base));
      var next := ReplaceAt(cur, base, v);
      forall j | 0 <= j < Length(part.tail) ensures At(part.tail, j) == At(xs, base + 1 + j) {
        assert At(part, j + 1) == At(part.tail, j);
      }
      forall j | base + 1 <= j < Length(cur) ensures At(next, j) == At(live, j) { ReplaceAtGets(cur, base, v, j); }
      RepairItems(part.tail, xs, live, next, base + 1);
      DropTail(live, base);
      RepairedIsMerge(part.head, At(live, base));
      var sub := Walk(part.head, At(live, base));
      RepairUnderIndex(cur, base, sub, xs);
      var rest := WalkItems(part.tail, Drop(live, base + 1), base + 1);
      ConcatResolvable(Under(Index(base), sub), rest, Array(xs));
      RepairedConcat(Array(cur), Under(Index(base), sub), rest, Array(xs));
    }
  }

  function Drop(xs: Items, n: nat): (r: Items)
    requires n <= Length(xs)
    ensures Length(r) == Length(xs) - n
  {
    if n == 0 then xs else Drop(xs.tail, n - 1)
  }

  lemma {:induction false} DropAt(xs: Items, n: nat, j: nat)
    requires n + j < Length(xs)
    ensures At(Drop(xs, n), j) == At(xs, n + j)
  {
    if n > 0 { DropAt(xs.tail, n - 1, j); }
  }

  lemma {:induction false} DropTail(xs: Items, n: nat)
    requires n < Length(xs)
    ensures Drop(xs, n).tail == Drop(xs, n + 1) && Drop(xs, n).head == At(xs, n)
  {
    if n > 0 { DropTail(xs.tail, n - 1); }
  }

  /** A position at, above or below which nothing is reported. */
  ghost predicate Apart(q: Path, rs: seq<Report>) {
    forall i | 0 <= i < |rs| :: !(rs[i].path <= q) && !(q <= rs[i].path)
  }

  lemma {:induction false} SetElsewhere(j: Json, p: Path, v: Json, q: Path)
    requires !(p <= q) && !(q <= p)
    ensures Resolve(Set(j, p, v), q) == Resolve(j, q)
    decreases |p|
  {
    assert p != [] && q != [];
    if p[0] == q[0] {
      assert p == [p[0]] + p[1..] && q == [q[0]] + q[1..];
      assert !(p[1..] <= q[1..]) && !(q[1..] <= p[1..]);
    }
    match p[0]
    case Key(k) =>
      if j.Object? && q[0].Key? {
        if HasKey(j.members, k) {
          var sub := Set(Get(j.members, k), p[1..], v);
          ReplaceGets(j.members, k, sub, q[0].k);
          if q[0].k == k { SetElsewhere(Get(j.members, k), p[1..], v, q[1..]); }
        } else if |p| == 1 {
          AppendGets(j.members, k, v, q[0].k);
        }
      }
    case Index(i) =>
      if j.Array? && i < Length(j.items) && q[0].Index? && q[0].i < Length(j.items) {
        var sub := Set(At(j.items, i), p[1..], v);
        ReplaceAtGets(j.items, i, sub, q[0].i);
        if q[0].i == i { SetElsewhere(At(j.items, i), p[1..], v, q[1..]); }
      }
  }

  lemma {:induction false} RepairedElsewhere(live: Json, rs: seq<Report>, desired: Json, q: Path)
    requires Resolvable(rs, desired) && Apart(q, rs)
    ensures Resolve(Repaired(live, rs, desired), q) == Resolve(live, q)
    decreases |rs|
  {
    if rs != [] {
      var v := Resolve(desired, rs[0].path).value;
      SetElsewhere(live, rs[0].path, v, q);
      RepairedElsewhere(Set(live, rs[0].path, v), rs[1..], desired, q);
    }
  }

  /** Repair: overwriting live at every reported path with the desired subtree there leaves nothing to
      report, and changes no position apart from the reported ones. */
  lemma RepairTheorem(desired: Json, live: Json)
    requires Proper(desired)
    ensures Resolvable(Walk(desired, live), desired)
    ensures var fixed := Repaired(live, Walk(desired, live), desired);
            Walk(desired, fixed) == []
            && forall q | Apart(q, Walk(desired, live)) :: Resolve(fixed, q) == Resolve(live, q)
  {
    RepairedIsMerge(desired, live);
    MergeContains(desired, live);
    WalkIsExact(desired, Merge(desired, live));
    forall q | Apart(q, Walk(desired, live))
      ensures Resolve(Repaired(live, Walk(desired, live), desired), q) == Resolve(live, q)
    {
      RepairedElsewhere(live, Walk(desired, live), desired, q);
    }
  }
}
