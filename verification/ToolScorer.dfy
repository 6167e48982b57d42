/**
 * evaluations/tool_calling_conformance.py: the classification of one probe (score_probe) and the verdict on a
 * corpus (score_corpus), with exact rates.
 */
module ToolScorer {
  import opened Util

  /** A tool call; `arguments` are the keys of its argument object, None when it is not a JSON object. */
  datatype Call = Call(name: string, arguments: Option<set<string>>)

  datatype Probe = Probe(expects: bool, expectedTool: string, required: seq<string>, offered: seq<string>,
                         calls: seq<Call>, content: string)

  datatype Outcome = Correct | WrongTool | BadArgs | Narrated | Missed | FalseFire | Abstained | Hallucinated

  predicate Kept(c: char) { 'a' <= c <= 'z' || '0' <= c <= '9' }

  function Fold(name: string): string {
    if name == "" then "" else (if Kept(Lower(name[0])) then [Lower(name[0])] else "") + Fold(name[1..])
  }

  function Mentions(content: string, tools: seq<string>): seq<string> {
    if tools == [] then []
    else
      (if |Fold(tools[0])| >= 6 && Contains(Fold(content), Fold(tools[0])) then [tools[0]] else [])
      + Mentions(content, tools[1..])
  }

  method MentionsLoop(content: string, tools: seq<string>) returns (hits: seq<string>)
    ensures Fold(content) != "" ==> hits == Mentions(content, tools)
    ensures Fold(content) == "" ==> hits == [] == Mentions(content, tools)
  {
    hits := [];
    if Fold(content) == "" {
      NoContentNoMention(content, tools);
      return;
    }
    for i := 0 to |tools|
      invariant hits + Mentions(content, tools[i..]) == Mentions(content, tools)
    {
      assert tools[i..][0] == tools[i] && tools[i..][1..] == tools[i + 1..];
      if |Fold(tools[i])| >= 6 && Contains(Fold(content), Fold(tools[i])) {
        hits := hits + [tools[i]];
      }
    }
  }

  lemma {:induction false} NoContentNoMention(content: string, tools: seq<string>)
    requires Fold(content) == ""
    ensures Mentions(content, tools) == []
  {
    if tools != [] { NoContentNoMention(content, tools[1..]); }
  }

  predicate ArgumentsOk(c: Call, required: seq<string>) {
    c.arguments.Some? && forall i | 0 <= i < |required| :: required[i] in c.arguments.value
  }

  predicate Offered(p: Probe, name: string) { exists i :: 0 <= i < |p.offered| && Fold(p.offered[i]) == Fold(name) }

  function ScoreProbe(p: Probe): Outcome {
    if p.calls != [] && p.offered != [] && !Offered(p, p.calls[0].name) then Hallucinated
    else if !p.expects then (if p.calls != [] then FalseFire else Abstained)
    else if p.calls == [] then (if Mentions(p.content, p.offered) != [] then Narrated else Missed)
    else if Fold(p.calls[0].name) != Fold(p.expectedTool) then WrongTool
    else if !ArgumentsOk(p.calls[0], p.required) then BadArgs
    else Correct
  }

  // ---------------------------------------------------------------- a corpus

  /** One scored probe: the side it is on and what came of it. */
  datatype Scored = Scored(positive: bool, outcome: Outcome)

  function Scores(ps: seq<Probe>): seq<Scored> {
    seq(|ps|, i requires 0 <= i < |ps| => Scored(ps[i].expects, ScoreProbe(ps[i])))
  }

  /** The outcomes a side can have. */
  predicate Possible(s: Scored) {
    match s.outcome
    case Hallucinated => true
    case FalseFire => !s.positive
    case Abstained => !s.positive
    case _ => s.positive
  }

  ghost predicate AllPossible(ss: seq<Scored>) { forall i | 0 <= i < |ss| :: Possible(ss[i]) }

  lemma ScoresArePossible(ps: seq<Probe>)
    ensures AllPossible(Scores(ps))
  {
  }

  function Count(ss: seq<Scored>, o: Outcome): nat {
    if ss == [] then 0 else Count(ss[..|ss| - 1], o) + (if ss[|ss| - 1].outcome == o then 1 else 0)
  }

  function Side(ss: seq<Scored>, positive: bool): nat {
    if ss == [] then 0 else Side(ss[..|ss| - 1], positive) + (if ss[|ss| - 1].positive == positive then 1 else 0)
  }

  datatype Thresholds = Thresholds(minCall: real, maxFalseFire: real, maxNarration: real, maxHallucination: real,
                                   minProbes: nat)

  function Rate(part: nat, whole: nat): real { if whole == 0 then 0.0 else part as real / whole as real }

  function CallRate(ss: seq<Scored>): real { Rate(Count(ss, Correct), Side(ss, true)) }
  function NarrationRate(ss: seq<Scored>): real { Rate(Count(ss, Narrated), Side(ss, true)) }
  function FalseFireRate(ss: seq<Scored>): real { Rate(Count(ss, FalseFire), Side(ss, false)) }
  function HallucinationRate(ss: seq<Scored>): real { Rate(Count(ss, Hallucinated), |ss|) }

  predicate Passes(ss: seq<Scored>, t: Thresholds) {
    ss != []
    && Side(ss, true) >= t.minProbes && Side(ss, false) >= t.minProbes
    && (Side(ss, true) > 0 ==> CallRate(ss) >= t.minCall && NarrationRate(ss) <= t.maxNarration)
    && (Side(ss, false) > 0 ==> FalseFireRate(ss) <= t.maxFalseFire)
    && HallucinationRate(ss) <= t.maxHallucination
  }

  datatype Failure = ThinPositive | ThinNegative | LowCalls | FalseFires | Narration | Hallucination

  /** The numbers the gate compares. */
  datatype Report = Report(positive: nat, negative: nat, calls: real, narration: real, fires: real, invented: real)

  function ReportOf(ss: seq<Scored>): Report {
    Report(Side(ss, true), Side(ss, false), CallRate(ss), NarrationRate(ss), FalseFireRate(ss), HallucinationRate(ss))
  }

  predicate Violated(r: Report, t: Thresholds, f: Failure) {
    match f
    case ThinPositive => r.positive < t.minProbes
    case ThinNegative => r.negative < t.minProbes
    case LowCalls => r.positive > 0 && r.calls < t.minCall
    case FalseFires => r.negative > 0 && r.fires > t.maxFalseFire
    case Narration => r.positive > 0 && r.narration > t.maxNarration
    case Hallucination => r.invented > t.maxHallucination
  }

  method Failures(r: Report, t: Thresholds) returns (failures: seq<Failure>)
    ensures forall f: Failure :: f in failures <==> Violated(r, t, f)
  {
    failures := [];
    if r.positive < t.minProbes { failures := failures + [ThinPositive]; }
    if r.negative < t.minProbes { failures := failures + [ThinNegative]; }
    if r.positive > 0 && r.calls < t.minCall { failures := failures + [LowCalls]; }
    if r.negative > 0 && r.fires > t.maxFalseFire { failures := failures + [FalseFires]; }
    if r.positive > 0 && r.narration > t.maxNarration { failures := failures + [Narration]; }
    if r.invented > t.maxHallucination { failures := failures + [Hallucination]; }
  }

  /** The gate's declarative form: it passes exactly when nothing is violated. */
  lemma PassesIffNoFailure(ss: seq<Scored>, t: Thresholds)
    requires ss != []
    ensures Passes(ss, t) <==> forall f: Failure :: !Violated(ReportOf(ss), t, f)
  {
    var r := ReportOf(ss);
    if forall f: Failure :: !Violated(r, t, f) {
      assert !Violated(r, t, ThinPositive) && !Violated(r, t, ThinNegative) && !Violated(r, t, LowCalls)
          && !Violated(r, t, FalseFires) && !Violated(r, t, Narration) && !Violated(r, t, Hallucination);
    }
  }

  method ScoreCorpus(ps: seq<Probe>, t: Thresholds)
    returns (passed: bool, failures: seq<Failure>, counts: map<Outcome, nat>)
    ensures passed <==> Passes(Scores(ps), t)
    ensures ps != [] ==> (passed <==> failures == [])
    ensures forall f: Failure :: f in failures <==> ps != [] && Violated(ReportOf(Scores(ps)), t, f)
    ensures forall o: Outcome :: (if o in counts then counts[o] else 0) == Count(Scores(ps), o)
  {
    counts, failures := map[], [];
    var scored := Scores(ps);
    if scored == [] {
      return false, [], map[];
    }
    var positive, negative := 0, 0;
    for i := 0 to |scored|
      invariant forall o: Outcome :: (if o in counts then counts[o] else 0) == Count(scored[..i], o)
      invariant positive == Side(scored[..i], true) && negative == Side(scored[..i], false)
    {
      assert scored[..i + 1][..i] == scored[..i];
      var o := scored[i].outcome;
      counts := counts[o := (if o in counts then counts[o] else 0) + 1];
      if scored[i].positive { positive := positive + 1; } else { negative := negative + 1; }
    }
    assert scored[..|scored|] == scored;
    var calls := Rate(if Correct in counts then counts[Correct] else 0, positive);
    var narration := Rate(if Narrated in counts then counts[Narrated] else 0, positive);
    var fires := Rate(if FalseFire in counts then counts[FalseFire] else 0, negative);
    var invented := Rate(if Hallucinated in counts then counts[Hallucinated] else 0, |scored|);
    var report := Report(positive, negative, calls, narration, fires, invented);
    assert report == ReportOf(scored);
    failures := Failures(report, t);
    passed := failures == [];
    PassesIffNoFailure(scored, t);
    if failures != [] { assert Violated(report, t, failures[0]); }
  }

  // ---------------------------------------------------------------- conservation

  /** Outcomes of the positive side, and of the negative side, that are no hallucination. */
  function Answered(ss: seq<Scored>): nat {
    Count(ss, Correct) + Count(ss, WrongTool) + Count(ss, BadArgs) + Count(ss, Narrated) + Count(ss, Missed)
  }

  function Declined(ss: seq<Scored>): nat { Count(ss, FalseFire) + Count(ss, Abstained) }

  /** Every probe has exactly one outcome, and each side's outcomes add up to its probes. */
  lemma Conservation(ss: seq<Scored>)
    requires AllPossible(ss)
    ensures Side(ss, true) + Side(ss, false) == |ss|
    ensures Answered(ss) <= Side(ss, true) && Declined(ss) <= Side(ss, false)
    ensures Answered(ss) + Declined(ss) + Count(ss, Hallucinated) == |ss|
  {
    SidesAdd(ss);
    AnsweredFits(ss);
    OutcomesAdd(ss);
    DeclinedFits(ss);
  }

  lemma {:induction false} SidesAdd(ss: seq<Scored>)
    ensures Side(ss, true) + Side(ss, false) == |ss|
  {
    if ss != [] { SidesAdd(ss[..|ss| - 1]); }
  }

  lemma {:induction false} AnsweredFits(ss: seq<Scored>)
    requires AllPossible(ss)
    ensures Answered(ss) <= Side(ss, true)
  {
    if ss != [] {
      assert Possible(ss[|ss| - 1]);
      AnsweredFits(ss[..|ss| - 1]);
    }
  }

  lemma {:induction false} DeclinedFits(ss: seq<Scored>)
    requires AllPossible(ss)
    ensures Declined(ss) <= Side(ss, false)
  {
    if ss != [] {
      assert Possible(ss[|ss| - 1]);
      DeclinedFits(ss[..|ss| - 1]);
    }
  }

  lemma {:induction false} OutcomesAdd(ss: seq<Scored>)
    ensures Answered(ss) + Declined(ss) + Count(ss, Hallucinated) == |ss|
  {
    if ss != [] { OutcomesAdd(ss[..|ss| - 1]); }
  }

  /** The denominators are the probes', whatever the model did. */
  lemma {:induction false} DenominatorsIgnoreOutcomes(a: seq<Scored>, b: seq<Scored>, positive: bool)
    requires |a| == |b| && forall i | 0 <= i < |a| :: a[i].positive == b[i].positive
    ensures Side(a, positive) == Side(b, positive)
  {
    if a != [] { DenominatorsIgnoreOutcomes(a[..|a| - 1], b[..|b| - 1], positive); }
  }

  lemma RateInUnit(part: nat, whole: nat)
    requires part <= whole
    ensures 0.0 <= Rate(part, whole) <= 1.0
  {
    if whole > 0 {
      assert part as real <= whole as real;
    }
  }

  lemma RatesAreProportions(ss: seq<Scored>)
    requires AllPossible(ss)
    ensures 0.0 <= CallRate(ss) <= 1.0 && 0.0 <= FalseFireRate(ss) <= 1.0 && 0.0 <= HallucinationRate(ss) <= 1.0
    ensures 0.0 <= NarrationRate(ss) <= 1.0 && CallRate(ss) + NarrationRate(ss) <= 1.0
  {
    Conservation(ss);
    RateInUnit(Count(ss, Correct), Side(ss, true));
    RateInUnit(Count(ss, Narrated), Side(ss, true));
    RateInUnit(Count(ss, FalseFire), Side(ss, false));
    RateInUnit(Count(ss, Hallucinated), |ss|);
    RateInUnit(Count(ss, Correct) + Count(ss, Narrated), Side(ss, true));
    if Side(ss, true) > 0 {
      RatesAdd(Count(ss, Correct), Count(ss, Narrated), Side(ss, true));
    }
  }

  lemma RatesAdd(a: nat, b: nat, whole: nat)
    requires whole > 0
    ensures Rate(a, whole) + Rate(b, whole) == Rate(a + b, whole)
  {
  }

  // ---------------------------------------------------------------- improvement

  /** The best outcome of a side. */
  function Best(s: Scored): Scored { s.(outcome := if s.positive then Correct else Abstained) }

  lemma {:induction false} CountAfter(ss: seq<Scored>, i: nat, s: Scored, o: Outcome)
    requires i < |ss|
    ensures Count(ss[i := s], o)
         == Count(ss, o) - (if ss[i].outcome == o then 1 else 0) + (if s.outcome == o then 1 else 0)
  {
    var n := |ss| - 1;
    if i < n {
      CountAfter(ss[..n], i, s, o);
      assert ss[i := s][..n] == ss[..n][i := s];
    } else {
      assert ss[i := s][..n] == ss[..n];
    }
  }

  lemma RateGrows(a: nat, b: nat, whole: nat)
    requires a <= b
    ensures Rate(a, whole) <= Rate(b, whole)
  {
    if whole > 0 { assert a as real <= b as real; }
  }

  /** Improving any one probe never turns PASS into FAIL. */
  lemma ImprovementKeepsPass(ss: seq<Scored>, i: nat, t: Thresholds)
    requires AllPossible(ss) && i < |ss| && Passes(ss, t)
    ensures Passes(ss[i := Best(ss[i])], t)
  {
    var better := ss[i := Best(ss[i])];
    assert Possible(ss[i]);
    DenominatorsIgnoreOutcomes(ss, better, true);
    DenominatorsIgnoreOutcomes(ss, better, false);
    CountAfter(ss, i, Best(ss[i]), Correct);
    CountAfter(ss, i, Best(ss[i]), Narrated);
    CountAfter(ss, i, Best(ss[i]), FalseFire);
    CountAfter(ss, i, Best(ss[i]), Hallucinated);
    RateGrows(Count(ss, Correct), Count(better, Correct), Side(ss, true));
    RateGrows(Count(better, Narrated), Count(ss, Narrated), Side(ss, true));
    RateGrows(Count(better, FalseFire), Count(ss, FalseFire), Side(ss, false));
    RateGrows(Count(better, Hallucinated), Count(ss, Hallucinated), |ss|);
  }

  /** How many calls on no-tool probes the two ceilings excuse together. */
  function Excusable(n: nat, total: nat, t: Thresholds): real {
    t.maxFalseFire * n as real + t.maxHallucination * total as real
  }

  lemma CeilingsBound(f: nat, n: nat, h: nat, total: nat, t: Thresholds)
    requires n > 0 && total > 0 && Rate(f, n) <= t.maxFalseFire && Rate(h, total) <= t.maxHallucination
    ensures (f + h) as real <= Excusable(n, total, t)
  {
  }

  /** A model that calls a tool on every turn fails, unless the ceilings alone would excuse every no-tool
      probe. */
  lemma AlwaysCallingFails(ps: seq<Probe>, t: Thresholds)
    requires forall i | 0 <= i < |ps| :: ps[i].calls != []
    requires var n := Side(Scores(ps), false); n > 0 && Excusable(n, |ps|, t) < n as real
    ensures !Passes(Scores(ps), t)
  {
    var ss := Scores(ps);
    var f, h, n := Count(ss, FalseFire), Count(ss, Hallucinated), Side(ss, false);
    ScoresArePossible(ps);
    NegativesFire(ss);
    assert n <= f + h;
    if Rate(f, n) <= t.maxFalseFire && Rate(h, |ss|) <= t.maxHallucination {
      CeilingsBound(f, n, h, |ss|, t);
      assert false;
    }
  }

  lemma {:induction false} NegativesFire(ss: seq<Scored>)
    requires AllPossible(ss) && forall i | 0 <= i < |ss| :: ss[i].outcome != Abstained
    ensures Side(ss, false) <= Count(ss, FalseFire) + Count(ss, Hallucinated)
  {
    if ss != [] {
      assert Possible(ss[|ss| - 1]);
      NegativesFire(ss[..|ss| - 1]);
    }
  }
}
