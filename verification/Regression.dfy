/**
 * evaluations/peft_regression.py: the task-by-task regression gate (compare, _find_waiver) over exact
 * numbers.
 */
module Regression {
  import opened Util

  /** A metric value; anything that is not a number is Other. */
  datatype Metric = Number(v: real) | Other

  type Metrics = map<string, Metric>
  type Results = map<string, Metrics>

  /** An accepted regression; a reason of "" makes it invalid. */
  datatype Waiver = Waiver(task: string, metric: string, maxRegression: real, reason: string)

  predicate IsStderr(name: string) { Contains(name, "stderr") }

  function FindWaiver(waivers: seq<Waiver>, task: string, metric: string): Option<Waiver> {
    if waivers == [] then None
    else if waivers[0].task == task && waivers[0].metric == metric then Some(waivers[0])
    else FindWaiver(waivers[1..], task, metric)
  }

  method FindWaiverLoop(waivers: seq<Waiver>, task: string, metric: string) returns (w: Option<Waiver>)
    ensures w == FindWaiver(waivers, task, metric)
  {
    for i := 0 to |waivers|
      invariant FindWaiver(waivers[i..], task, metric) == FindWaiver(waivers, task, metric)
    {
      assert waivers[i..][0] == waivers[i] && waivers[i..][1..] == waivers[i + 1..];
      if waivers[i].task == task && waivers[i].metric == metric {
        return Some(waivers[i]);
      }
    }
    return None;
  }

  // ---------------------------------------------------------------- the specification

  /** The metrics a verdict depends on. */
  predicate Counts(ms: Metrics, name: string) { name in ms && ms[name].Number? && !IsStderr(name) }

  predicate Excused(waivers: seq<Waiver>, task: string, metric: string, delta: real) {
    var w := FindWaiver(waivers, task, metric);
    w.Some? && w.value.reason != "" && delta >= -w.value.maxRegression
  }

  predicate MetricOk(task: string, name: string, base: real, candidate: Metrics, maxRegression: real,
                     waivers: seq<Waiver>) {
    name in candidate && candidate[name].Number?
    && (var delta := candidate[name].v - base; delta >= -maxRegression || Excused(waivers, task, name, delta))
  }

  ghost predicate TaskOk(task: string, base: Metrics, candidate: Metrics, maxRegression: real, waivers: seq<Waiver>) {
    forall name | Counts(base, name) :: MetricOk(task, name, base[name].v, candidate, maxRegression, waivers)
  }

  /** For every base task and every numeric metric of it that is not a standard error. */
  ghost predicate Passes(base: Results, candidate: Results, maxRegression: real, waivers: seq<Waiver>) {
    forall task | task in base :: task in candidate && TaskOk(task, base[task], candidate[task], maxRegression, waivers)
  }

  // ---------------------------------------------------------------- the loops

  datatype Entry = Entry(base: real, candidate: Option<real>, ok: bool, waived: bool)

  datatype Verdict = Missing | Compared(ok: bool, metrics: map<string, Entry>) | CandidateOnly

  /** The record of one metric: both values, the verdict, and whether a waiver made it. */
  predicate EntryExact(e: Entry, task: string, name: string, base: real, candidate: Metrics, maxRegression: real,
                       waivers: seq<Waiver>) {
    e.base == base
    && e.ok == MetricOk(task, name, base, candidate, maxRegression, waivers)
    && (if name in candidate && candidate[name].Number? then
          e.candidate == Some(candidate[name].v)
          && (e.waived <==> candidate[name].v - base < -maxRegression
                            && Excused(waivers, task, name, candidate[name].v - base))
        else e.candidate == None && !e.waived)
  }

  /** One exact record for every metric that counts, and no other. */
  ghost predicate MetricsExact(metrics: map<string, Entry>, task: string, base: Metrics, candidate: Metrics,
                               maxRegression: real, waivers: seq<Waiver>) {
    (forall name :: name in metrics <==> Counts(base, name))
    && forall name | name in metrics ::
         EntryExact(metrics[name], task, name, base[name].v, candidate, maxRegression, waivers)
  }

  method CompareTask(task: string, base: Metrics, candidate: Metrics, maxRegression: real, waivers: seq<Waiver>)
    returns (ok: bool, metrics: map<string, Entry>)
    ensures ok <==> TaskOk(task, base, candidate, maxRegression, waivers)
    ensures MetricsExact(metrics, task, base, candidate, maxRegression, waivers)
  {
    ok, metrics := true, map[];
    var todo := base.Keys;
    while todo != {}
      invariant todo <= base.Keys
      invariant forall name :: name in metrics <==> Counts(base, name) && name !in todo
      invariant forall name | name in metrics ::
                  EntryExact(metrics[name], task, name, base[name].v, candidate, maxRegression, waivers)
      invariant ok <==> forall name | name in metrics :: metrics[name].ok
      decreases todo
    {
      var name :| name in todo;
      todo := todo - {name};
      if IsStderr(name) || !base[name].Number? {
        continue;
      }
      var b := base[name].v;
      if name !in candidate || !candidate[name].Number? {
        metrics := metrics[name := Entry(b, None, false, false)];
        ok := false;
        continue;
      }
      var delta := candidate[name].v - b;
      var good := delta >= -maxRegression;
      var waived := false;
      if !good {
        var w := FindWaiverLoop(waivers, task, name);
        if w.Some? && w.value.reason != "" && delta >= -w.value.maxRegression {
          good, waived := true, true;
        }
      }
      metrics := metrics[name := Entry(b, Some(candidate[name].v), good, waived)];
      ok := ok && good;
    }
  }

  /** The record of one task of the base. */
  ghost predicate VerdictExact(v: Verdict, t: string, base: Metrics, candidate: Results, maxRegression: real,
                               waivers: seq<Waiver>) {
    if t !in candidate then v == Missing
    else
      v.Compared? && (v.ok <==> TaskOk(t, base, candidate[t], maxRegression, waivers))
      && MetricsExact(v.metrics, t, base, candidate[t], maxRegression, waivers)
  }

  predicate VerdictPasses(v: Verdict) { v.Compared? && v.ok }

  method CompareOne(t: string, base: Metrics, candidate: Results, maxRegression: real, waivers: seq<Waiver>)
    returns (v: Verdict)
    ensures VerdictExact(v, t, base, candidate, maxRegression, waivers)
  {
    if t !in candidate {
      return Missing;
    }
    var ok, metrics := CompareTask(t, base, candidate[t], maxRegression, waivers);
    v := Compared(ok, metrics);
  }

  method Compare(base: Results, candidate: Results, maxRegression: real, waivers: seq<Waiver>)
    returns (overall: bool, tasks: map<string, Verdict>)
    ensures overall <==> Passes(base, candidate, maxRegression, waivers)
    ensures tasks.Keys == base.Keys + candidate.Keys
    ensures forall t | t in base :: VerdictExact(tasks[t], t, base[t], candidate, maxRegression, waivers)
    ensures forall t | t in candidate && t !in base :: tasks[t].CandidateOnly?
  {
    overall, tasks := true, map[];
    var todo := base.Keys;
    while todo != {}
      invariant todo <= base.Keys && tasks.Keys == base.Keys - todo
      invariant forall t | t in tasks :: VerdictExact(tasks[t], t, base[t], candidate, maxRegression, waivers)
      invariant overall <==> forall t | t in tasks :: VerdictPasses(tasks[t])
      decreases todo
    {
      var t :| t in todo;
      todo := todo - {t};
      var v := CompareOne(t, base[t], candidate, maxRegression, waivers);
      tasks := tasks[t := v];
      overall := overall && VerdictPasses(v);
    }
    PassesIffVerdicts(base, candidate, maxRegression, waivers, tasks);
    tasks := tasks + map t | t in candidate.Keys - base.Keys :: CandidateOnly;
  }

  lemma PassesIffVerdicts(base: Results, candidate: Results, maxRegression: real, waivers: seq<Waiver>,
                          tasks: map<string, Verdict>)
    requires tasks.Keys == base.Keys
    requires forall t | t in tasks :: VerdictExact(tasks[t], t, base[t], candidate, maxRegression, waivers)
    ensures Passes(base, candidate, maxRegression, waivers) <==> forall t | t in tasks :: VerdictPasses(tasks[t])
  {
    forall t | t in base
      ensures VerdictPasses(tasks[t])
         <==> t in candidate && TaskOk(t, base[t], candidate[t], maxRegression, waivers)
    {
      assert VerdictExact(tasks[t], t, base[t], candidate, maxRegression, waivers);
    }
  }

  // ---------------------------------------------------------------- what the gate means

  /** Two passing steps make a passing chain, at the sum of their allowances. */
  lemma GatesCompose(a: Results, b: Results, c: Results, m1: real, m2: real)
    requires Passes(a, b, m1, []) && Passes(b, c, m2, [])
    ensures Passes(a, c, m1 + m2, [])
  {
    forall task | task in a ensures task in c && TaskOk(task, a[task], c[task], m1 + m2, []) {
      assert task in b && TaskOk(task, a[task], b[task], m1, []) && TaskOk(task, b[task], c[task], m2, []);
      forall name | Counts(a[task], name) ensures MetricOk(task, name, a[task][name].v, c[task], m1 + m2, []) {
        assert MetricOk(task, name, a[task][name].v, b[task], m1, []);
        assert Counts(b[task], name);
        assert MetricOk(task, name, b[task][name].v, c[task], m2, []);
      }
    }
  }

  /** The sum is needed: some chains pass at no smaller allowance. */
  lemma SumIsTight(m1: real, m2: real, m: real)
    requires 0.0 <= m1 && 0.0 <= m2 && m < m1 + m2
    ensures exists a, b, c :: Passes(a, b, m1, []) && Passes(b, c, m2, []) && !Passes(a, c, m, [])
  {
    var a: Results := map["t" := map["acc" := Number(0.0)]];
    var b: Results := map["t" := map["acc" := Number(-m1)]];
    var c: Results := map["t" := map["acc" := Number(-m1 - m2)]];
    assert !IsStderr("acc");
    assert Passes(a, b, m1, []);
    assert Passes(b, c, m2, []);
    assert Counts(a["t"], "acc") && !MetricOk("t", "acc", 0.0, c["t"], m, []);
    assert !TaskOk("t", a["t"], c["t"], m, []);
  }

  lemma {:induction false} FindWaiverAppend(waivers: seq<Waiver>, w: Waiver, task: string, metric: string)
    ensures FindWaiver(waivers, task, metric).Some? ==>
              FindWaiver(waivers + [w], task, metric) == FindWaiver(waivers, task, metric)
  {
    if waivers != [] {
      assert (waivers + [w])[1..] == waivers[1..] + [w];
      FindWaiverAppend(waivers[1..], w, task, metric);
    }
  }

  /** Appending a waiver, or raising the allowance, never turns PASS into FAIL. */
  lemma AppendedWaiverKeepsPass(base: Results, candidate: Results, m: real, m': real, waivers: seq<Waiver>, w: Waiver)
    requires Passes(base, candidate, m, waivers) && m <= m'
    ensures Passes(base, candidate, m', waivers + [w])
  {
    forall task, metric, delta: real | Excused(waivers, task, metric, delta)
      ensures Excused(waivers + [w], task, metric, delta)
    {
      FindWaiverAppend(waivers, w, task, metric);
    }
  }

  lemma {:induction false} FindWaiverRaised(waivers: seq<Waiver>, i: nat, to: real, task: string, metric: string)
    requires i < |waivers| && to >= waivers[i].maxRegression
    ensures var a, b := FindWaiver(waivers, task, metric),
            FindWaiver(waivers[i := waivers[i].(maxRegression := to)], task, metric);
            a.Some? ==> b.Some? && b.value.reason == a.value.reason && b.value.maxRegression >= a.value.maxRegression
  {
    var raised := waivers[i := waivers[i].(maxRegression := to)];
    if i > 0 {
      assert raised[1..] == waivers[1..][i - 1 := waivers[1..][i - 1].(maxRegression := to)];
      FindWaiverRaised(waivers[1..], i - 1, to, task, metric);
    } else {
      assert raised[1..] == waivers[1..];
    }
  }

  /** Nor does raising the bound of one waiver. */
  lemma RaisedWaiverKeepsPass(base: Results, candidate: Results, m: real, waivers: seq<Waiver>, i: nat, to: real)
    requires Passes(base, candidate, m, waivers) && i < |waivers| && to >= waivers[i].maxRegression
    ensures Passes(base, candidate, m, waivers[i := waivers[i].(maxRegression := to)])
  {
    var raised := waivers[i := waivers[i].(maxRegression := to)];
    forall task, metric, delta: real | Excused(waivers, task, metric, delta)
      ensures Excused(raised, task, metric, delta)
    {
      FindWaiverRaised(waivers, i, to, task, metric);
    }
  }

  /** Putting a waiver first can: it hides the ones behind it. */
  lemma PrependedWaiverCanFail() returns (base: Results, candidate: Results, w: Waiver, waivers: seq<Waiver>)
    ensures Passes(base, candidate, 0.0, waivers) && !Passes(base, candidate, 0.0, [w] + waivers)
  {
    base := map["t" := map["acc" := Number(1.0)]];
    candidate := map["t" := map["acc" := Number(0.0)]];
    w, waivers := Waiver("t", "acc", 1.0, ""), [Waiver("t", "acc", 1.0, "known")];
    assert FindWaiver([w] + waivers, "t", "acc") == Some(w);
    assert FindWaiver(waivers, "t", "acc") == Some(waivers[0]);
    assert !IsStderr("acc");
    assert Counts(base["t"], "acc") && !MetricOk("t", "acc", 1.0, candidate["t"], 0.0, [w] + waivers);
    assert !TaskOk("t", base["t"], candidate["t"], 0.0, [w] + waivers);
  }
}
