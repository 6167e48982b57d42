/**
 * components/ai-gateway/app/routing.py, candidates_for and _apply_preference: the providers a request may use, and
 * how they relate to what the routing policy leaves open.
 */
module Candidates {
  import opened Util
  import opened RoutingAgreement

  /** One row of the provider table. */
  datatype Provider = Provider(name: string, kind: string, eligibleFor: set<string>)

  datatype Candidate = Candidate(name: string, kind: string)

  /** The candidates in the order they are tried, or why there are none. */
  datatype Routed = Candidates(list: seq<Candidate>) | UnknownClassification | NoneEligible | AllExcluded
                  | NoStrictSurvivor
  {
    function Names(): seq<string> { if Candidates? then NamesOf(list) else [] }
  }

  function NamesOf(list: seq<Candidate>): seq<string> {
    if list == [] then [] else [list[0].name] + NamesOf(list[1..])
  }

  function Known(providers: seq<Provider>): set<string> { set p | p in providers :: p.name }

  predicate EligibleProvider(p: Provider, classification: string, localOnly: bool) {
    classification in p.eligibleFor && (localOnly ==> p.kind == "local")
  }

  function EligibleOnes(providers: seq<Provider>, classification: string, localOnly: bool): seq<Candidate> {
    if providers == [] then []
    else
      (if EligibleProvider(providers[0], classification, localOnly)
       then [Candidate(providers[0].name, providers[0].kind)] else [])
      + EligibleOnes(providers[1..], classification, localOnly)
  }

  /** The candidates whose name is not in `names`. */
  function Unlisted(list: seq<Candidate>, names: seq<string>): seq<Candidate> {
    if list == [] then [] else (if list[0].name in names then [] else [list[0]]) + Unlisted(list[1..], names)
  }

  /** Known names, each where it first stands. */
  function Deduped(prefer: seq<string>, known: set<string>): seq<string> {
    if prefer == [] then []
    else
      var before, n := Deduped(prefer[..|prefer| - 1], known), prefer[|prefer| - 1];
      if n in before || n !in known then before else before + [n]
  }

  /** The candidate a name selects: the last one that carries it. */
  function ByName(list: seq<Candidate>, n: string): (r: Option<Candidate>)
    ensures r.Some? ==> r.value in list && r.value.name == n
    ensures r.None? ==> forall c | c in list :: c.name != n
  {
    if list == [] then None
    else
      var last := list[|list| - 1];
      if last.name == n then Some(last) else ByName(list[..|list| - 1], n)
  }

  function Preferred(list: seq<Candidate>, names: seq<string>): seq<Candidate> {
    if names == [] then []
    else (match ByName(list, names[0]) case Some(c) => [c] case None => []) + Preferred(list, names[1..])
  }

  function Applied(list: seq<Candidate>, names: seq<string>, strict: bool): Routed {
    if !strict then Candidates(Preferred(list, names) + Unlisted(list, names))
    else if Preferred(list, names) == [] then NoStrictSurvivor
    else Candidates(Preferred(list, names))
  }

  method ApplyPreference(providers: seq<Provider>, list: seq<Candidate>, prefer: seq<string>, strict: bool)
    returns (r: Routed)
    ensures r == Applied(list, Deduped(prefer, Known(providers)), strict)
  {
    var known, deduped := Known(providers), [];
    for k := 0 to |prefer|
      invariant deduped == Deduped(prefer[..k], known)
    {
      assert prefer[..k + 1][..k] == prefer[..k];
      if prefer[k] in deduped || prefer[k] !in known {
        continue;
      }
      deduped := deduped + [prefer[k]];
    }
    assert prefer[..|prefer|] == prefer;
    var preferred := Preferred(list, deduped);
    if strict {
      return if preferred == [] then NoStrictSurvivor else Candidates(preferred);
    }
    r := Candidates(preferred + Unlisted(list, deduped));
  }

  const CLASSIFICATIONS := {"C1", "C2", "C3"}

  /** What remains of the eligible candidates, or the reason why nothing does. */
  function Remaining(providers: seq<Provider>, classification: string, localOnly: bool, exclude: seq<string>): Routed {
    var eligible := EligibleOnes(providers, classification, localOnly);
    if eligible == [] then NoneEligible
    else if exclude != [] && Unlisted(eligible, exclude) == [] then AllExcluded
    else Candidates(Unlisted(eligible, exclude))
  }

  function Routing(providers: seq<Provider>, classification: string, localOnly: bool, g: Gate): Routed {
    if classification !in CLASSIFICATIONS then UnknownClassification
    else if providers == [] then Candidates([Candidate("local", "local")])
    else
      match Remaining(providers, classification, localOnly, g.exclude)
      case Candidates(list) =>
        if g.names == [] then Candidates(list) else Applied(list, Deduped(g.names, Known(providers)), g.strict)
      case failure => failure
  }

  /** `classification` is upper-case; an empty list of names or exclusions is one that is not given. */
  method CandidatesFor(providers: seq<Provider>, classification: string, localOnly: bool, prefer: seq<string>,
                       strict: bool, exclude: seq<string>) returns (r: Routed)
    ensures r == Routing(providers, classification, localOnly, Gate(exclude, prefer, strict))
  {
    if classification !in CLASSIFICATIONS {
      return UnknownClassification;
    }
    if providers == [] {
      return Candidates([Candidate("local", "local")]);
    }
    var candidates := EligibleOnes(providers, classification, localOnly);
    if candidates == [] {
      return NoneEligible;
    }
    if exclude != [] {
      candidates := Unlisted(candidates, exclude);
      if candidates == [] {
        return AllExcluded;
      }
    }
    assert exclude == [] ==> candidates == Unlisted(candidates, []) by { UnlistedNone(candidates, []); }
    if prefer != [] {
      r := ApplyPreference(providers, candidates, prefer, strict);
    } else {
      r := Candidates(candidates);
    }
  }

  // ---------------------------------------------------------------- candidates and what is open

  lemma {:induction false} UnlistedNone(list: seq<Candidate>, names: seq<string>)
    requires forall c | c in list :: c.name !in names
    ensures Unlisted(list, names) == list
  {
    if list != [] { UnlistedNone(list[1..], names); }
  }

  lemma {:induction false} NamesOfExactly(list: seq<Candidate>, n: string)
    ensures n in NamesOf(list) <==> exists c :: c in list && c.name == n
  {
    if list != [] {
      NamesOfExactly(list[1..], n);
      assert list == [list[0]] + list[1..];
    }
  }

  lemma {:induction false} UnlistedExactly(list: seq<Candidate>, names: seq<string>, c: Candidate)
    ensures c in Unlisted(list, names) <==> c in list && c.name !in names
  {
    if list != [] { UnlistedExactly(list[1..], names, c); }
  }

  lemma {:induction false} DedupedExactly(prefer: seq<string>, known: set<string>, n: string)
    ensures n in Deduped(prefer, known) <==> n in prefer && n in known
  {
    if prefer != [] { DedupedExactly(prefer[..|prefer| - 1], known, n); }
  }

  lemma {:induction false} PreferredExactly(list: seq<Candidate>, names: seq<string>, c: Candidate)
    ensures c in Preferred(list, names) <==> c.name in names && ByName(list, c.name) == Some(c)
  {
    if names != [] { PreferredExactly(list, names[1..], c); }
  }

  lemma {:induction false} EligibleExactly(providers: seq<Provider>, classification: string, localOnly: bool,
                                           c: Candidate)
    ensures c in EligibleOnes(providers, classification, localOnly)
       <==> exists p :: p in providers && EligibleProvider(p, classification, localOnly)
                        && c == Candidate(p.name, p.kind)
  {
    if providers != [] {
      EligibleExactly(providers[1..], classification, localOnly, c);
      assert providers == [providers[0]] + providers[1..];
    }
  }

  /** A preference keeps the names of the candidates, or those it lists if it is strict. */
  lemma AppliedNames(list: seq<Candidate>, names: seq<string>, strict: bool, n: string)
    ensures n in Applied(list, names, strict).Names() <==> n in NamesOf(list) && (strict ==> n in names)
  {
    var preferred, rest := Preferred(list, names), Unlisted(list, names);
    var out := if strict then preferred else preferred + rest;
    assert Applied(list, names, strict).Names() == NamesOf(out);
    NamesOfExactly(out, n);
    NamesOfExactly(list, n);
    forall c ensures c in preferred <==> c.name in names && ByName(list, c.name) == Some(c) {
      PreferredExactly(list, names, c);
    }
    forall c ensures c in rest <==> c in list && c.name !in names { UnlistedExactly(list, names, c); }
    if ByName(list, n).Some? && n in names { assert ByName(list, n).value in preferred; }
  }

  lemma RemainingNames(providers: seq<Provider>, classification: string, localOnly: bool, exclude: seq<string>,
                       n: string)
    ensures n in Remaining(providers, classification, localOnly, exclude).Names()
       <==> n in NamesOf(EligibleOnes(providers, classification, localOnly)) && n !in exclude
  {
    var eligible := EligibleOnes(providers, classification, localOnly);
    NamesOfExactly(eligible, n);
    NamesOfExactly(Unlisted(eligible, exclude), n);
    forall c ensures c in Unlisted(eligible, exclude) <==> c in eligible && c.name !in exclude {
      UnlistedExactly(eligible, exclude, c);
    }
  }

  lemma EligibleIsKnown(providers: seq<Provider>, classification: string, localOnly: bool, n: string)
    ensures n in NamesOf(EligibleOnes(providers, classification, localOnly))
       <==> exists p :: p in providers && p.name == n && EligibleProvider(p, classification, localOnly)
  {
    var eligible := EligibleOnes(providers, classification, localOnly);
    NamesOfExactly(eligible, n);
    if c :| c in eligible && c.name == n { EligibleExactly(providers, classification, localOnly, c); }
    if p :| p in providers && p.name == n && EligibleProvider(p, classification, localOnly) {
      EligibleExactly(providers, classification, localOnly, Candidate(p.name, p.kind));
    }
  }

  /** A name is among the candidates exactly when an eligible provider carries it and the policy leaves it open. A
      refused request has no candidates. */
  lemma CandidateIffOpen(providers: seq<Provider>, classification: string, localOnly: bool, g: Gate, n: string)
    requires classification in CLASSIFICATIONS && providers != []
    ensures n in Routing(providers, classification, localOnly, g).Names()
       <==> Open(g, n)
            && exists p :: p in providers && p.name == n && EligibleProvider(p, classification, localOnly)
  {
    RemainingNames(providers, classification, localOnly, g.exclude, n);
    EligibleIsKnown(providers, classification, localOnly, n);
    match Remaining(providers, classification, localOnly, g.exclude)
    case Candidates(list) =>
      if g.names != [] {
        AppliedNames(list, Deduped(g.names, Known(providers)), g.strict, n);
        DedupedExactly(g.names, Known(providers), n);
      }
    case _ =>
  }

  // ---------------------------------------------------------------- the preference as a permutation

  /** No preferred name is carried by two candidates. */
  ghost predicate OneEach(list: seq<Candidate>, prefer: seq<string>) {
    forall i, j | 0 <= i < j < |list| && list[i].name == list[j].name :: list[i].name !in prefer
  }

  lemma {:induction false} UnlistedCount(list: seq<Candidate>, names: seq<string>, c: Candidate)
    ensures multiset(Unlisted(list, names))[c] == if c.name in names then 0 else multiset(list)[c]
  {
    if list != [] {
      UnlistedCount(list[1..], names, c);
      assert list == [list[0]] + list[1..];
    }
  }

  lemma {:induction false} DedupedNoRepeats(prefer: seq<string>, known: set<string>)
    ensures Distinct(Deduped(prefer, known))
  {
    if prefer != [] { DedupedNoRepeats(prefer[..|prefer| - 1], known); }
  }

  lemma {:induction false} PreferredCount(list: seq<Candidate>, names: seq<string>, c: Candidate)
    requires Distinct(names)
    ensures multiset(Preferred(list, names))[c] == if c.name in names && ByName(list, c.name) == Some(c) then 1 else 0
  {
    if names != [] {
      PreferredCount(list, names[1..], c);
      assert names == [names[0]] + names[1..];
    }
  }

  lemma {:induction false} ByNameCount(list: seq<Candidate>, c: Candidate)
    requires c in list && forall i, j | 0 <= i < j < |list| && list[i].name == list[j].name :: list[i].name != c.name
    ensures ByName(list, c.name) == Some(c) && multiset(list)[c] == 1
  {
    var n := |list| - 1;
    assert list == list[..n] + [list[n]];
    if c in list[..n] {
      var i :| 0 <= i < n && list[i] == c;
      ByNameCount(list[..n], c);
    } else {
      assert c !in multiset(list[..n]);
    }
  }

  /** How often a candidate is among the reordered ones. */
  function Copies(list: seq<Candidate>, prefer: seq<string>, c: Candidate): nat {
    if c.name !in prefer then multiset(list)[c] else if ByName(list, c.name) == Some(c) then 1 else 0
  }

  lemma ReorderedCount(list: seq<Candidate>, prefer: seq<string>, known: set<string>, c: Candidate)
    requires forall d | d in list :: d.name in known
    ensures multiset(Applied(list, Deduped(prefer, known), false).list)[c] == Copies(list, prefer, c)
  {
    var names := Deduped(prefer, known);
    DedupedNoRepeats(prefer, known);
    DedupedExactly(prefer, known, c.name);
    PreferredCount(list, names, c);
    UnlistedCount(list, names, c);
  }

  lemma OneEachCopies(list: seq<Candidate>, prefer: seq<string>, c: Candidate)
    requires OneEach(list, prefer)
    ensures Copies(list, prefer, c) == multiset(list)[c]
  {
    if c.name in prefer && c in list { ByNameCount(list, c); }
  }

  lemma TwoLoseOne(list: seq<Candidate>, prefer: seq<string>, i: nat, j: nat)
    requires i < j < |list| && list[i].name == list[j].name && list[i].name in prefer
    ensures exists c :: Copies(list, prefer, c) != multiset(list)[c]
  {
    assert list[i] in list && list[j] in list;
    if list[i] == list[j] {
      CountsTwice(list, i, j);
      assert Copies(list, prefer, list[i]) != multiset(list)[list[i]];
    } else {
      var lost := if ByName(list, list[i].name) == Some(list[i]) then list[j] else list[i];
      assert Copies(list, prefer, lost) != multiset(list)[lost];
    }
  }

  /** A preference that is not strict permutes the candidates exactly when no name it lists is carried by two of
      them: all but the last of those are lost. */
  lemma PreferencePermutesIff(list: seq<Candidate>, prefer: seq<string>, known: set<string>)
    requires forall c | c in list :: c.name in known
    ensures multiset(Applied(list, Deduped(prefer, known), false).list) == multiset(list) <==> OneEach(list, prefer)
  {
    var out := Applied(list, Deduped(prefer, known), false).list;
    forall c ensures multiset(out)[c] == Copies(list, prefer, c) { ReorderedCount(list, prefer, known, c); }
    if OneEach(list, prefer) {
      forall c ensures multiset(out)[c] == multiset(list)[c] { OneEachCopies(list, prefer, c); }
    } else {
      var i, j :| 0 <= i < j < |list| && list[i].name == list[j].name && list[i].name in prefer;
      TwoLoseOne(list, prefer, i, j);
    }
  }

  lemma CountsTwice(list: seq<Candidate>, i: nat, j: nat)
    requires i < j < |list| && list[i] == list[j]
    ensures multiset(list)[list[i]] > 1
  {
    assert list == list[..j] + list[j..];
    assert list[i] in list[..j] && list[j] in list[j..];
  }

  // ---------------------------------------------------------------- the order of the candidates

  /** Where a name first stands; names not listed come last. */
  function First(prefer: seq<string>, n: string): (k: nat)
    ensures k <= |prefer| && (k < |prefer| <==> n in prefer)
  {
    if prefer == [] then 0
    else
      var last := |prefer| - 1;
      var k := First(prefer[..last], n);
      if k < last || prefer[last] == n then k else k + 1
  }

  lemma {:induction false} FirstIsFirst(prefer: seq<string>, n: string, i: nat)
    requires i < |prefer| && prefer[i] == n
    ensures First(prefer, n) <= i && prefer[First(prefer, n)] == n
  {
    var last := |prefer| - 1;
    if n in prefer[..last] {
      var k := First(prefer[..last], n);
      var m :| 0 <= m < last && prefer[..last][m] == n;
      FirstIsFirst(prefer[..last], n, m);
      if i < last { FirstIsFirst(prefer[..last], n, i); }
    } else {
      assert i == last;
    }
  }

  ghost predicate Ascending(prefer: seq<string>, names: seq<string>) {
    forall i, j | 0 <= i < j < |names| :: First(prefer, names[i]) <= First(prefer, names[j])
  }

  lemma {:induction false} DedupedAscending(prefer: seq<string>, known: set<string>)
    ensures Ascending(prefer, Deduped(prefer, known)) && forall n | n in Deduped(prefer, known) :: n in prefer
  {
    if prefer != [] {
      var last := |prefer| - 1;
      var before := Deduped(prefer[..last], known);
      DedupedAscending(prefer[..last], known);
      DedupedExactly(prefer[..last], known, prefer[last]);
      assert forall n | n in before :: First(prefer, n) == First(prefer[..last], n) < last;
    }
  }

  lemma {:induction false} PreferredAscending(prefer: seq<string>, list: seq<Candidate>, names: seq<string>)
    requires Ascending(prefer, names)
    ensures Ascending(prefer, NamesOf(Preferred(list, names)))
    ensures forall n | n in NamesOf(Preferred(list, names)) :: n in names
  {
    if names != [] {
      var tail := Preferred(list, names[1..]);
      PreferredAscending(prefer, list, names[1..]);
      assert names == [names[0]] + names[1..];
      match ByName(list, names[0])
      case Some(c) =>
        assert ([c] + tail)[1..] == tail;
        forall n | n in NamesOf(tail) ensures First(prefer, names[0]) <= First(prefer, n) {
          var k :| 0 <= k < |names[1..]| && names[1..][k] == n;
          assert names[k + 1] == n;
        }
        assert NamesOf([c] + tail) == [names[0]] + NamesOf(tail);
      case None =>
        assert [] + tail == tail;
    }
  }

  /** Candidates of preferred names come first, in the order of the preference; the others follow as they stood. */
  lemma PreferenceOrder(list: seq<Candidate>, prefer: seq<string>, known: set<string>)
    requires forall c | c in list :: c.name in known
    ensures var out := Applied(list, Deduped(prefer, known), false).list;
            Ascending(prefer, NamesOf(out)) && Unlisted(out, prefer) == Unlisted(list, prefer)
  {
    var names := Deduped(prefer, known);
    var preferred, rest := Preferred(list, names), Unlisted(list, names);
    DedupedAscending(prefer, known);
    PreferredAscending(prefer, list, names);
    NamesOfConcat(preferred, rest);
    forall n ensures n in names <==> n in prefer && n in known { DedupedExactly(prefer, known, n); }
    forall c ensures c in rest <==> c in list && c.name !in names { UnlistedExactly(list, names, c); }
    forall n | n in NamesOf(rest) ensures First(prefer, n) == |prefer| { NamesOfExactly(rest, n); }
    forall n | n in NamesOf(preferred) ensures First(prefer, n) < |prefer| {}
    UnlistedSame(list, names, prefer);
    UnlistedConcat(preferred, rest, prefer);
    forall c | c in preferred ensures c.name in prefer { PreferredExactly(list, names, c); }
    UnlistedAll(preferred, prefer);
    UnlistedNone(rest, prefer);
  }

  lemma {:induction false} NamesOfConcat(a: seq<Candidate>, b: seq<Candidate>)
    ensures NamesOf(a + b) == NamesOf(a) + NamesOf(b)
  {
    if a == [] {
      assert a + b == b;
    } else {
      assert (a + b)[1..] == a[1..] + b;
      NamesOfConcat(a[1..], b);
    }
  }

  lemma {:induction false} UnlistedConcat(a: seq<Candidate>, b: seq<Candidate>, names: seq<string>)
    ensures Unlisted(a + b, names) == Unlisted(a, names) + Unlisted(b, names)
  {
    if a == [] {
      assert a + b == b;
    } else {
      assert (a + b)[1..] == a[1..] + b;
      UnlistedConcat(a[1..], b, names);
    }
  }

  lemma {:induction false} UnlistedAll(list: seq<Candidate>, names: seq<string>)
    requires forall c | c in list :: c.name in names
    ensures Unlisted(list, names) == []
  {
    if list != [] { UnlistedAll(list[1..], names); }
  }

  lemma {:induction false} UnlistedSame(list: seq<Candidate>, a: seq<string>, b: seq<string>)
    requires forall c | c in list :: c.name in a <==> c.name in b
    ensures Unlisted(list, a) == Unlisted(list, b)
  {
    if list != [] { UnlistedSame(list[1..], a, b); }
  }
}
