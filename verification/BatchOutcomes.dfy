/** What the results of a batch say: each operation's own outcome, its packet or the error its worker raised. */
module BatchOutcomes {
  import opened Prelude
  import opened Sequences
  import opened BatchProtocol
  import opened BatchProgress

  /** A worker that does not die ends as its operation's outcome says: with that packet, or with that error. */
  ghost predicate EndsAs(s: System, a: Action, outcome: Operation -> Result<Value, string>)
    requires Enabled(s, a)
  {
    a.Work? && !a.crashed ==> a.outcome == outcome(s.jobs[a.j].operation)
  }

  predicate Tells(r: BatchResult, outcome: Operation -> Result<Value, string>) {
    r.outcome == outcome(r.operation)
  }

  ghost predicate JobTells(job: Job, outcome: Operation -> Result<Value, string>) {
    (job.status.Released? || job.status.Completed?) && !job.status.crashed ==> job.status.result == BatchResult(job.operation, outcome(job.operation))
  }

  ghost predicate AllTell(results: seq<BatchResult>, outcome: Operation -> Result<Value, string>) {
    forall r :: r in results ==> Tells(r, outcome)
  }

  /** Every result there is, published, about to be yielded or yielded, tells its operation's outcome. */
  ghost predicate Truthful(s: System, outcome: Operation -> Result<Value, string>) {
    && (forall j :: 0 <= j < |s.jobs| ==> JobTells(s.jobs[j], outcome))
    && (forall g :: 0 <= g < |s.generators| ==>
          AllTell(s.generators[g].yielded, outcome) && AllTell(PendingResults(s.generators[g]), outcome))
  }

  lemma JobsTell(s: System, a: Action, outcome: Operation -> Result<Value, string>, j: nat)
    requires Truthful(s, outcome) && Enabled(s, a) && EndsAs(s, a, outcome) && j < |NextJobs(s, a)|
    ensures JobTells(NextJobs(s, a)[j], outcome)
  {
    if j < |s.jobs| {
      assert JobTells(s.jobs[j], outcome);
    }
  }

  lemma ResultsTell(jobs: seq<Job>, ids: seq<nat>, outcome: Operation -> Result<Value, string>)
    requires forall j :: 0 <= j < |jobs| ==> JobTells(jobs[j], outcome)
    requires forall j :: j in ids ==> j < |jobs| && jobs[j].status.Completed? && !jobs[j].status.crashed
    ensures AllTell(ResultsOf(jobs, ids), outcome)
  {
    forall r | r in ResultsOf(jobs, ids) ensures Tells(r, outcome) {
      var i :| 0 <= i < |ids| && ResultsOf(jobs, ids)[i] == r;
      assert ids[i] in ids && JobTells(jobs[ids[i]], outcome);
    }
  }

  lemma GeneratorTells(s: System, a: Action, outcome: Operation -> Result<Value, string>)
    requires Truthful(s, outcome) && Enabled(s, a) && !IsWorker(a)
    ensures AllTell(NextGenerator(s, a).yielded, outcome) && AllTell(PendingResults(NextGenerator(s, a)), outcome)
  {
    var gen := s.generators[a.g];
    assert AllTell(gen.yielded, outcome) && AllTell(PendingResults(gen), outcome);
    if a.Collect? {
      ResultsTell(s.jobs, a.completed, outcome);
      hide Tells;
    } else if a.Yield? {
      assert gen.phase.results[0] in gen.phase.results;
      hide Tells;
    } else {
      hide Tells, NextActive, NextJobs;
    }
  }

  lemma TruthfulNext(s: System, a: Action, outcome: Operation -> Result<Value, string>)
    requires Truthful(s, outcome) && Enabled(s, a) && EndsAs(s, a, outcome)
    ensures Truthful(Next(s, a), outcome)
  {
    forall j | 0 <= j < |NextJobs(s, a)| ensures JobTells(NextJobs(s, a)[j], outcome) {
      JobsTell(s, a, outcome, j);
    }
    if !IsWorker(a) {
      GeneratorTells(s, a, outcome);
    }
    hide NextJobs, NextActive, NextGenerator, JobTells, AllTell;
  }

  /** In every reachable state of any number of concurrent batches every result tells the outcome of its own operation. */
  lemma {:induction false} ResultsAreTruthful(states: seq<System>, actions: seq<Action>, i: nat, outcome: Operation -> Result<Value, string>)
    requires Run(states, actions) && i < |states|
    requires forall k :: 0 <= k < i ==> EndsAs(states[k], actions[k], outcome)
    ensures Truthful(states[i], outcome)
  {
    if i > 0 {
      ResultsAreTruthful(states, actions, i - 1, outcome);
      TruthfulNext(states[i - 1], actions[i - 1], outcome);
    }
  }

  /** The outcome of each operation of a list. */
  function Outcomes(ops: seq<Operation>, outcome: Operation -> Result<Value, string>): (results: seq<BatchResult>)
    ensures |results| == |ops| && forall i :: 0 <= i < |ops| ==> results[i].operation == ops[i] && results[i].outcome == outcome(ops[i])
  {
    seq(|ops|, i requires 0 <= i < |ops| => BatchResult(ops[i], outcome(ops[i])))
  }

  lemma TruthfulResults(results: seq<BatchResult>, outcome: Operation -> Result<Value, string>)
    requires AllTell(results, outcome)
    ensures results == Outcomes(Answered(results), outcome)
  {
    forall i | 0 <= i < |results| ensures results[i] == Outcomes(Answered(results), outcome)[i] {
      assert results[i] in results;
    }
  }

  lemma WithoutOne(ops: seq<Operation>, i: nat)
    requires i < |ops|
    ensures multiset(ops[..i] + ops[i + 1..]) == multiset(ops) - multiset{ops[i]}
    ensures ops[..i] + [ops[i]] + ops[i + 1..] == ops
  {
    assert ops == ops[..i] + ([ops[i]] + ops[i + 1..]);
  }

  lemma {:induction false} OutcomesOfSame(a: seq<Operation>, b: seq<Operation>, outcome: Operation -> Result<Value, string>)
    requires multiset(a) == multiset(b)
    ensures multiset(Outcomes(a, outcome)) == multiset(Outcomes(b, outcome))
  {
    hide Outcomes;
    if a == [] {
      assert |b| == |multiset(b)| == 0;
    } else {
      assert a[0] in multiset(b);
      var i :| 0 <= i < |b| && b[i] == a[0];
      WithoutOne(a, 0);
      WithoutOne(b, i);
      assert a[..0] + a[1..] == a[1..];
      var rest := b[..i] + b[i + 1..];
      assert multiset(a[1..]) == multiset(rest);
      OutcomesOfSame(a[1..], rest, outcome);
      OutcomesParts(a[..0], a[0], a[1..], outcome);
      OutcomesParts(b[..i], b[i], b[i + 1..], outcome);
    }
  }

  lemma OutcomesParts(before: seq<Operation>, op: Operation, after: seq<Operation>, outcome: Operation -> Result<Value, string>)
    ensures multiset(Outcomes(before + [op] + after, outcome)) ==
            multiset{BatchResult(op, outcome(op))} + multiset(Outcomes(before + after, outcome))
  {
    assert Outcomes(before + [op] + after, outcome) ==
           Outcomes(before, outcome) + [BatchResult(op, outcome(op))] + Outcomes(after, outcome);
    assert Outcomes(before + after, outcome) == Outcomes(before, outcome) + Outcomes(after, outcome);
  }

  /** A batch consumed to its end has yielded exactly its operations with their outcomes, each as often as it was given: no
      failure is reported as a success, no error reaches another operation. */
  lemma ExactlyTheOutcomes(states: seq<System>, actions: seq<Action>, i: nat, g: nat, outcome: Operation -> Result<Value, string>)
    requires Run(states, actions) && i < |states| && g < |states[i].generators| && states[i].generators[g].phase.Finished?
    requires forall k :: 0 <= k < i ==> EndsAs(states[k], actions[k], outcome)
    ensures var gen := states[i].generators[g];
            multiset(gen.yielded) == multiset(Outcomes(gen.input, outcome))
  {
    hide Run;
    ExactlyOnce(states, actions, i, g);
    ResultsAreTruthful(states, actions, i, outcome);
    var gen := states[i].generators[g];
    hide Answered, Outcomes;
    TruthfulResults(gen.yielded, outcome);
    OutcomesOfSame(Answered(gen.yielded), gen.input, outcome);
  }
}
