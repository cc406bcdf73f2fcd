/** The batch executor as a protocol: any number of `execute` generators share one capacity pool and one worker pool.
    A generator scans its queue, taking a permit before each submit and deferring what finds its source saturated; a
    worker releases its permit before its result appears; an abandoned generator hands back the permits of jobs it can
    still cancel. */
module BatchProtocol {
  import opened Prelude
  import opened Sequences
  import opened CapacityPool

  datatype Operation = Operation(id: int, source: string, limit: Option<int>)

  function Source(op: Operation): string {
    SourceKey(op.source)
  }

  /** A result carries the operation's packet, or the text of the exception it raised. */
  datatype BatchResult = BatchResult(operation: Operation, outcome: Result<Value, string>)

  /** A future and its worker. Between Released and Completed the permit is back but the result not yet visible.
      `crashed` marks a worker that died of something other than an ordinary exception. */
  datatype Status =
    | Pending
    | Running
    | Released(result: BatchResult, crashed: bool)
    | Completed(result: BatchResult, crashed: bool)
    | Cancelled

  datatype Job = Job(operation: Operation, owner: nat, status: Status)

  datatype Phase =
    | Scanning
    | Submitting
    | Waiting
    | Spinning
    | Yielding(results: seq<BatchResult>)
    | Finished
    | Closing(rest: seq<nat>)
    | Releasing(rest: seq<nat>)
    | Closed

  /** `hand` is an operation whose permit the generator itself holds. */
  datatype Generator = Generator(
    input: seq<Operation>,
    queued: seq<Operation>,
    deferred: seq<Operation>,
    hand: Option<Operation>,
    jobs: seq<nat>,
    yielded: seq<BatchResult>,
    phase: Phase)

  datatype System = System(active: Active, jobs: seq<Job>, generators: seq<Generator>)

  datatype Action =
    | ScanTake(g: nat)
    | ScanRaises(g: nat)
    | Submit(g: nat)
    | SubmitFails(g: nat)
    | ScanDone(g: nat)
    | WakeUp(g: nat)
    | Collect(g: nat, completed: seq<nat>)
    | CollectRaises(g: nat, popped: seq<nat>)
    | Yield(g: nat)
    | Abandon(g: nat)
    | Cancel(g: nat)
    | CancelRelease(g: nat)
    | CloseEnd(g: nat)
    | Start(j: nat)
    | Work(j: nat, outcome: Result<Value, string>, crashed: bool)
    | Publish(j: nat)

  predicate IsWorker(a: Action) {
    a.Start? || a.Work? || a.Publish?
  }

  predicate CanTake(active: Active, op: Operation) {
    Count(active, Source(op)) < NormalizedConcurrency(op.limit)
  }

  predicate Done(s: System, ids: seq<nat>) {
    forall j :: j in ids ==> j < |s.jobs| && s.jobs[j].status.Completed?
  }

  ghost predicate Enabled(s: System, a: Action) {
    if IsWorker(a) then
      && a.j < |s.jobs|
      && (a.Start? ==> s.jobs[a.j].status.Pending?)
      && (a.Work? ==> s.jobs[a.j].status.Running?)
      && (a.Publish? ==> s.jobs[a.j].status.Released?)
    else
      && a.g < |s.generators|
      && var gen := s.generators[a.g];
      match a
      case ScanTake(_) => gen.phase.Scanning? && gen.queued != []
      case ScanRaises(_) => gen.phase.Scanning? && gen.queued != []
      case Submit(_) => gen.phase.Submitting? && gen.hand.Some?
      case SubmitFails(_) => gen.phase.Submitting? && gen.hand.Some?
      case ScanDone(_) => gen.phase.Scanning? && gen.queued == []
      case WakeUp(_) => gen.phase.Spinning?
      case Collect(_, completed) =>
        gen.phase.Waiting? && completed != [] && NoDup(completed) && Done(s, completed)
        && (forall j :: j in completed ==> j in gen.jobs && !s.jobs[j].status.crashed)
      case CollectRaises(_, popped) =>
        gen.phase.Waiting? && popped != [] && NoDup(popped) && Done(s, popped) && (forall j :: j in popped ==> j in gen.jobs)
      case Yield(_) => gen.phase.Yielding? && gen.phase.results != []
      case Abandon(_) => gen.phase.Scanning? || gen.phase.Waiting? || gen.phase.Spinning? || gen.phase.Yielding?
      case Cancel(_) => gen.phase.Closing? && gen.phase.rest != [] && gen.phase.rest[0] < |s.jobs|
      case CancelRelease(_) => gen.phase.Releasing? && gen.hand.Some?
      case CloseEnd(_) => gen.phase.Closing? && gen.phase.rest == []
  }

  function WithoutAll(ids: seq<nat>, gone: seq<nat>): seq<nat>
    decreases |gone|
  {
    if gone == [] then ids else WithoutAll(Without(ids, gone[0]), gone[1..])
  }

  function ResultsOf(jobs: seq<Job>, ids: seq<nat>): seq<BatchResult>
    requires forall j :: j in ids ==> j < |jobs| && jobs[j].status.Completed?
  {
    seq(|ids|, i requires 0 <= i < |ids| => assert ids[i] in ids; jobs[ids[i]].status.result)
  }

  /** The loop condition is tested again after a scan or after the last pending result. */
  function AfterScan(gen: Generator): Generator {
    gen.(queued := gen.deferred, deferred := [],
         phase := if gen.jobs != [] then Waiting else if gen.deferred != [] then Spinning else Finished)
  }

  /** The generator's part of a step: its new record. */
  function NextGenerator(s: System, a: Action): Generator
    requires !IsWorker(a) && Enabled(s, a)
  {
    var gen := s.generators[a.g];
    match a
    case ScanTake(_) =>
      var op := gen.queued[0];
      if CanTake(s.active, op) then gen.(queued := gen.queued[1..], hand := Some(op), phase := Submitting)
      else gen.(queued := gen.queued[1..], deferred := gen.deferred + [op])
    case ScanRaises(_) => gen.(queued := gen.queued[1..], phase := Closing(gen.jobs))
    case Submit(_) => gen.(hand := None, jobs := gen.jobs + [|s.jobs|], phase := Scanning)
    case SubmitFails(_) => gen.(hand := None, phase := Closing(gen.jobs))
    case ScanDone(_) => AfterScan(gen)
    case WakeUp(_) => gen.(phase := Scanning)
    case Collect(_, completed) =>
      gen.(jobs := WithoutAll(gen.jobs, completed), phase := Yielding(ResultsOf(s.jobs, completed)))
    case CollectRaises(_, popped) =>
      gen.(jobs := WithoutAll(gen.jobs, popped), phase := Closing(WithoutAll(gen.jobs, popped)))
    case Yield(_) =>
      var rest := gen.phase.results[1..];
      gen.(yielded := gen.yielded + [gen.phase.results[0]], phase := if rest == [] then Scanning else Yielding(rest))
    case Abandon(_) => gen.(phase := Closing(gen.jobs))
    case Cancel(_) =>
      var j := gen.phase.rest[0];
      if s.jobs[j].status.Pending? || s.jobs[j].status.Cancelled? then
        gen.(hand := Some(s.jobs[j].operation), phase := Releasing(gen.phase.rest[1..]))
      else gen.(phase := Closing(gen.phase.rest[1..]))
    case CancelRelease(_) => gen.(hand := None, phase := Closing(gen.phase.rest))
    case CloseEnd(_) => gen.(phase := Closed)
    case _ => gen
  }

  function NextJobs(s: System, a: Action): seq<Job>
    requires Enabled(s, a)
  {
    match a
    case Submit(g) => s.jobs + [Job(s.generators[g].hand.value, g, Pending)]
    case Cancel(g) =>
      var j := s.generators[g].phase.rest[0];
      if s.jobs[j].status.Pending? then s.jobs[j := s.jobs[j].(status := Cancelled)] else s.jobs
    case Start(j) => s.jobs[j := s.jobs[j].(status := Running)]
    case Work(j, outcome, crashed) =>
      s.jobs[j := s.jobs[j].(status := Released(BatchResult(s.jobs[j].operation, outcome), crashed))]
    case Publish(j) => s.jobs[j := s.jobs[j].(status := Completed(s.jobs[j].status.result, s.jobs[j].status.crashed))]
    case _ => s.jobs
  }

  function NextActive(s: System, a: Action): Active
    requires Enabled(s, a)
  {
    match a
    case ScanTake(g) =>
      var op := s.generators[g].queued[0];
      if CanTake(s.active, op) then Acquired(s.active, Source(op)) else s.active
    case SubmitFails(g) => CapacityPool.Released(s.active, Source(s.generators[g].hand.value))
    case CancelRelease(g) => CapacityPool.Released(s.active, Source(s.generators[g].hand.value))
    case Work(j, _, _) => CapacityPool.Released(s.active, Source(s.jobs[j].operation))
    case _ => s.active
  }

  function Next(s: System, a: Action): System
    requires Enabled(s, a)
  {
    System(NextActive(s, a), NextJobs(s, a),
           if IsWorker(a) then s.generators else s.generators[a.g := NextGenerator(s, a)])
  }

  ghost predicate Initial(s: System) {
    && s.active == map[] && s.jobs == []
    && forall g :: 0 <= g < |s.generators| ==>
         var gen := s.generators[g]; gen == Generator(gen.input, gen.input, [], None, [], [], Scanning)
  }

  ghost predicate Run(states: seq<System>, actions: seq<Action>) {
    && |states| == |actions| + 1 && Initial(states[0])
    && forall i :: 0 <= i < |actions| ==> Enabled(states[i], actions[i]) && states[i + 1] == Next(states[i], actions[i])
  }

  // ----- permits ------------------------------------------------------------------------------------------

  predicate Holds(job: Job) {
    job.status.Pending? || job.status.Running?
  }

  function JobPermits(jobs: seq<Job>, source: string): nat {
    if jobs == [] then 0
    else JobPermits(jobs[..|jobs| - 1], source) +
         if Holds(jobs[|jobs| - 1]) && Source(jobs[|jobs| - 1].operation) == source then 1 else 0
  }

  function HandPermits(generators: seq<Generator>, source: string): nat {
    if generators == [] then 0
    else
      var last := generators[|generators| - 1];
      HandPermits(generators[..|generators| - 1], source) +
      if last.hand.Some? && Source(last.hand.value) == source then 1 else 0
  }

  /** The pool's count of a source is the number of permits out: jobs that have not released theirs, and permits in a
      generator's hand. */
  ghost predicate Conserved(s: System) {
    Normal(s.active) && forall source :: Count(s.active, source) == JobPermits(s.jobs, source) + HandPermits(s.generators, source)
  }

  function JobUnit(job: Job, source: string): int {
    if Holds(job) && Source(job.operation) == source then 1 else 0
  }

  function HandUnit(gen: Generator, source: string): nat {
    if gen.hand.Some? && Source(gen.hand.value) == source then 1 else 0
  }

  lemma {:induction false} JobPermitsUpdate(jobs: seq<Job>, j: nat, job: Job, source: string)
    requires j < |jobs|
    ensures JobPermits(jobs, source) >= JobUnit(jobs[j], source)
    ensures JobPermits(jobs[j := job], source) == JobPermits(jobs, source) - JobUnit(jobs[j], source) + JobUnit(job, source)
  {
    var n := |jobs| - 1;
    var after := jobs[j := job];
    if j == n {
      assert after[..n] == jobs[..n];
    } else {
      assert after[..n] == jobs[..n][j := job];
      JobPermitsUpdate(jobs[..n], j, job, source);
    }
  }

  lemma JobPermitsAppend(jobs: seq<Job>, job: Job, source: string)
    ensures JobPermits(jobs + [job], source) == JobPermits(jobs, source) + JobUnit(job, source)
  {
    assert (jobs + [job])[..|jobs|] == jobs;
  }

  lemma {:induction false} HandPermitsUpdate(generators: seq<Generator>, g: nat, gen: Generator, source: string)
    requires g < |generators|
    ensures HandPermits(generators, source) >= HandUnit(generators[g], source)
    ensures HandPermits(generators[g := gen], source) ==
            HandPermits(generators, source) - HandUnit(generators[g], source) + HandUnit(gen, source)
  {
    var n := |generators| - 1;
    var after := generators[g := gen];
    if g == n {
      assert after[..n] == generators[..n];
    } else {
      assert after[..n] == generators[..n][g := gen];
      HandPermitsUpdate(generators[..n], g, gen, source);
    }
  }

  lemma ConservedNext(s: System, a: Action)
    requires Conserved(s) && Ownership(s) && Enabled(s, a)
    ensures Conserved(Next(s, a))
  {
    var t := Next(s, a);
    forall source ensures Count(t.active, source) == JobPermits(t.jobs, source) + HandPermits(t.generators, source) {
      PermitsNext(s, a, source);
    }
    ActiveNormal(s, a);
  }

  lemma ActiveNormal(s: System, a: Action)
    requires Normal(s.active) && Enabled(s, a)
    ensures Normal(NextActive(s, a))
  {
    match a
    case ScanTake(g) => ReleaseUndoesAcquire(s.active, Source(s.generators[g].queued[0]), "");
    case SubmitFails(g) => ReleaseUndoesAcquire(s.active, Source(s.generators[g].hand.value), "");
    case CancelRelease(g) => ReleaseUndoesAcquire(s.active, Source(s.generators[g].hand.value), "");
    case Work(j, _, _) => ReleaseUndoesAcquire(s.active, Source(s.jobs[j].operation), "");
    case _ =>
  }

  lemma PermitsNext(s: System, a: Action, source: string)
    requires Conserved(s) && Ownership(s) && Enabled(s, a)
    ensures Count(NextActive(s, a), source) == JobPermits(Next(s, a).jobs, source) + HandPermits(Next(s, a).generators, source)
  {
    if IsWorker(a) {
      WorkerPermits(s, a, source);
    } else {
      assert GeneratorOk(s, s.generators[a.g], a.g);
      assert Count(s.active, source) == JobPermits(s.jobs, source) + HandPermits(s.generators, source);
      HandPermitsUpdate(s.generators, a.g, NextGenerator(s, a), source);
      GeneratorPermits(s, a, source);
      JobsPermits(s, a, source);
    }
  }

  lemma WorkerPermits(s: System, a: Action, source: string)
    requires Conserved(s) && Enabled(s, a) && IsWorker(a)
    ensures Count(NextActive(s, a), source) == JobPermits(NextJobs(s, a), source) + HandPermits(s.generators, source)
  {
    hide JobPermits, HandPermits;
    var job := s.jobs[a.j];
    JobPermitsUpdate(s.jobs, a.j, NextJobs(s, a)[a.j], source);
    JobPermitsUpdate(s.jobs, a.j, job, Source(job.operation));
    if a.Work? {
      ReleaseUndoesAcquire(s.active, Source(job.operation), source);
    }
  }

  /** What a generator's step adds to or takes from the pool is what it adds to or takes from its own hand and jobs. */
  lemma GeneratorPermits(s: System, a: Action, source: string)
    requires Conserved(s) && Enabled(s, a) && !IsWorker(a) && GeneratorOk(s, s.generators[a.g], a.g)
    ensures Count(NextActive(s, a), source) - Count(s.active, source) ==
            HandUnit(NextGenerator(s, a), source) - HandUnit(s.generators[a.g], source) + JobShift(s, a, source)
  {
    var gen := s.generators[a.g];
    if a.SubmitFails? || a.CancelRelease? {
      HandPermitsUpdate(s.generators, a.g, gen, Source(gen.hand.value));
      assert Count(s.active, Source(gen.hand.value)) > 0;
      ReleaseUndoesAcquire(s.active, Source(gen.hand.value), source);
    }
  }

  function JobShift(s: System, a: Action, source: string): int
    requires Enabled(s, a) && !IsWorker(a)
  {
    var gen := s.generators[a.g];
    if a.Submit? then JobUnit(Job(gen.hand.value, a.g, Pending), source)
    else if a.Cancel? && s.jobs[gen.phase.rest[0]].status.Pending? then -JobUnit(s.jobs[gen.phase.rest[0]], source)
    else 0
  }

  lemma JobsPermits(s: System, a: Action, source: string)
    requires Enabled(s, a) && !IsWorker(a)
    ensures JobPermits(NextJobs(s, a), source) == JobPermits(s.jobs, source) + JobShift(s, a, source)
  {
    var gen := s.generators[a.g];
    if a.Submit? {
      JobPermitsAppend(s.jobs, Job(gen.hand.value, a.g, Pending), source);
    } else if a.Cancel? && s.jobs[gen.phase.rest[0]].status.Pending? {
      JobPermitsUpdate(s.jobs, gen.phase.rest[0], NextJobs(s, a)[gen.phase.rest[0]], source);
    }
  }

  // ----- who owns what ----------------------------------------------------------------------------------------

  ghost predicate JobsOwned(s: System, gen: Generator, g: nat) {
    NoDup(gen.jobs) && forall j :: j in gen.jobs ==> j < |s.jobs| && s.jobs[j].owner == g
  }

  ghost predicate PhaseOk(s: System, gen: Generator) {
    if gen.phase.Closing? || gen.phase.Releasing? then CloseOk(s, gen, gen.phase.rest)
    else if gen.phase.Closed? then forall j :: j in gen.jobs && j < |s.jobs| ==> !s.jobs[j].status.Pending?
    else
      && (forall j :: j in gen.jobs && j < |s.jobs| ==> !s.jobs[j].status.Cancelled?)
      && (!gen.phase.Scanning? && !gen.phase.Submitting? ==> gen.deferred == [])
      && (gen.phase.Waiting? ==> gen.jobs != [])
      && (gen.phase.Yielding? ==> gen.phase.results != [])
      && (gen.phase.Finished? ==> gen.queued == [] && gen.jobs == [])
  }

  /** While closing, whatever can still be cancelled is still to be visited, and nothing is cancelled twice. */
  ghost predicate CloseOk(s: System, gen: Generator, rest: seq<nat>) {
    && NoDup(rest)
    && (forall j :: j in rest ==> j in gen.jobs)
    && (forall j :: j in gen.jobs && j < |s.jobs| ==>
          (s.jobs[j].status.Pending? ==> j in rest) && (j in rest ==> !s.jobs[j].status.Cancelled?))
  }

  ghost predicate GeneratorOk(s: System, gen: Generator, g: nat) {
    && JobsOwned(s, gen, g) && PhaseOk(s, gen)
    && (gen.hand.Some? <==> gen.phase.Submitting? || gen.phase.Releasing?)
  }

  ghost predicate JobOk(s: System, job: Job, j: nat) {
    job.owner < |s.generators| && (job.status.Completed? || j in s.generators[job.owner].jobs)
  }

  ghost predicate Ownership(s: System) {
    && (forall g :: 0 <= g < |s.generators| ==> GeneratorOk(s, s.generators[g], g))
    && (forall j :: 0 <= j < |s.jobs| ==> JobOk(s, s.jobs[j], j))
  }

  lemma {:induction false} WithoutAllContains(ids: seq<nat>, gone: seq<nat>, j: nat)
    ensures j in WithoutAll(ids, gone) <==> j in ids && j !in gone
    decreases |gone|
  {
    if gone != [] {
      WithoutAllContains(Without(ids, gone[0]), gone[1..], j);
      assert j in gone <==> j == gone[0] || j in gone[1..];
    }
  }

  lemma {:induction false} WithoutAllNoDup(ids: seq<nat>, gone: seq<nat>)
    requires NoDup(ids)
    ensures NoDup(WithoutAll(ids, gone))
    decreases |gone|
  {
    if gone != [] {
      WithoutNoDup(ids, gone[0]);
      WithoutAllNoDup(Without(ids, gone[0]), gone[1..]);
    }
  }

  lemma OwnershipNext(s: System, a: Action)
    requires Ownership(s) && Enabled(s, a)
    ensures Ownership(Next(s, a))
  {
    var t := Next(s, a);
    forall g | 0 <= g < |t.generators| ensures GeneratorOk(t, t.generators[g], g) {
      assert GeneratorOk(s, s.generators[g], g);
      if IsWorker(a) {
        WorkerKeepsGenerator(s, a, g);
      } else if g != a.g {
        OthersKeepGenerator(s, a, g);
      } else {
        ActorKeepsGenerator(s, a);
      }
    }
    forall j | 0 <= j < |t.jobs| ensures JobOk(t, t.jobs[j], j) {
      JobKept(s, a, j);
    }
  }

  lemma WorkerKeepsGenerator(s: System, a: Action, g: nat)
    requires Ownership(s) && Enabled(s, a) && IsWorker(a) && g < |s.generators|
    ensures GeneratorOk(Next(s, a), s.generators[g], g)
  {
    assert GeneratorOk(s, s.generators[g], g);
  }

  lemma OthersKeepGenerator(s: System, a: Action, g: nat)
    requires Ownership(s) && Enabled(s, a) && !IsWorker(a) && g < |s.generators| && g != a.g
    ensures GeneratorOk(Next(s, a), s.generators[g], g)
  {
    assert GeneratorOk(s, s.generators[g], g);
    assert GeneratorOk(s, s.generators[a.g], a.g);
  }

  lemma ActorKeepsGenerator(s: System, a: Action)
    requires Ownership(s) && Enabled(s, a) && !IsWorker(a)
    ensures GeneratorOk(Next(s, a), NextGenerator(s, a), a.g)
  {
    assert GeneratorOk(s, s.generators[a.g], a.g);
    if a.Collect? || a.CollectRaises? {
      CollectorKept(s, a);
    } else if a.Submit? {
      SubmitterKept(s, a);
    } else if a.Cancel? || a.CancelRelease? || a.CloseEnd? {
      CloserKept(s, a);
    } else {
      ScannerKept(s, a);
    }
  }

  lemma CollectorKept(s: System, a: Action)
    requires Enabled(s, a) && (a.Collect? || a.CollectRaises?) && GeneratorOk(s, s.generators[a.g], a.g)
    ensures GeneratorOk(Next(s, a), NextGenerator(s, a), a.g)
  {
    var gen := s.generators[a.g];
    var gone := if a.Collect? then a.completed else a.popped;
    WithoutAllNoDup(gen.jobs, gone);
    forall j { WithoutAllContains(gen.jobs, gone, j); }
  }

  lemma SubmitterKept(s: System, a: Action)
    requires Enabled(s, a) && a.Submit? && GeneratorOk(s, s.generators[a.g], a.g)
    ensures GeneratorOk(Next(s, a), NextGenerator(s, a), a.g)
  {
    var gen := s.generators[a.g];
    assert |s.jobs| !in gen.jobs;
    NoDupAppend(gen.jobs, |s.jobs|);
  }

  lemma CloserKept(s: System, a: Action)
    requires Enabled(s, a) && (a.Cancel? || a.CancelRelease? || a.CloseEnd?) && GeneratorOk(s, s.generators[a.g], a.g)
    ensures GeneratorOk(Next(s, a), NextGenerator(s, a), a.g)
  {
  }

  lemma ScannerKept(s: System, a: Action)
    requires Enabled(s, a) && !IsWorker(a) && GeneratorOk(s, s.generators[a.g], a.g)
    requires !a.Collect? && !a.CollectRaises? && !a.Submit? && !a.Cancel? && !a.CancelRelease? && !a.CloseEnd?
    ensures GeneratorOk(Next(s, a), NextGenerator(s, a), a.g)
  {
  }

  lemma JobKept(s: System, a: Action, j: nat)
    requires Ownership(s) && Enabled(s, a) && j < |NextJobs(s, a)|
    ensures JobOk(Next(s, a), NextJobs(s, a)[j], j)
  {
    if j < |s.jobs| {
      assert JobOk(s, s.jobs[j], j);
      if a.Collect? || a.CollectRaises? {
        var gone := if a.Collect? then a.completed else a.popped;
        WithoutAllContains(s.generators[a.g].jobs, gone, j);
      }
    }
  }

  lemma {:induction false} NoPermits(s: System, source: string)
    requires Initial(s)
    ensures JobPermits(s.jobs, source) + HandPermits(s.generators, source) == 0
  {
    NoHands(s.generators, source);
  }

  lemma {:induction false} NoHands(generators: seq<Generator>, source: string)
    requires forall g :: 0 <= g < |generators| ==> generators[g].hand.None?
    ensures HandPermits(generators, source) == 0
  {
    if generators != [] {
      NoHands(generators[..|generators| - 1], source);
    }
  }

  lemma {:induction false} NoHolders(jobs: seq<Job>, source: string)
    requires forall j :: 0 <= j < |jobs| ==> !Holds(jobs[j])
    ensures JobPermits(jobs, source) == 0
  {
    if jobs != [] {
      NoHolders(jobs[..|jobs| - 1], source);
    }
  }

  /** Permit conservation: in every reachable state of any number of concurrent batches, a source's active count is
      exactly the number of permits held for it. Each acquire is matched by one release: the worker's, the failed
      submit's, or the cancelling generator's. */
  lemma {:induction false} PermitConservation(states: seq<System>, actions: seq<Action>, i: nat)
    requires Run(states, actions) && i < |states|
    ensures Conserved(states[i]) && Ownership(states[i])
  {
    if i == 0 {
      forall source { NoPermits(states[0], source); }
    } else {
      PermitConservation(states, actions, i - 1);
      ConservedNext(states[i - 1], actions[i - 1]);
      OwnershipNext(states[i - 1], actions[i - 1]);
    }
  }

  /** Nothing leaks: once every batch is finished or closed, abandoned or not, and no worker is running, the pool is
      empty. */
  lemma AbandonedBatchesLeakNothing(states: seq<System>, actions: seq<Action>, i: nat)
    requires Run(states, actions) && i < |states|
    requires forall g :: 0 <= g < |states[i].generators| ==>
      states[i].generators[g].phase.Finished? || states[i].generators[g].phase.Closed?
    requires forall j :: 0 <= j < |states[i].jobs| ==> !states[i].jobs[j].status.Running?
    ensures states[i].active == map[]
  {
    PermitConservation(states, actions, i);
    var s := states[i];
    forall g | 0 <= g < |s.generators| ensures s.generators[g].hand.None? {
      assert GeneratorOk(s, s.generators[g], g);
    }
    forall j | 0 <= j < |s.jobs| ensures !Holds(s.jobs[j]) {
      assert JobOk(s, s.jobs[j], j);
      assert GeneratorOk(s, s.generators[s.jobs[j].owner], s.jobs[j].owner);
    }
    forall source ensures source !in s.active {
      NoHands(s.generators, source);
      NoHolders(s.jobs, source);
      assert Count(s.active, source) == 0;
    }
  }

  /** No acquire pushes a source above the limit it asked for, and releases only lower the count. */
  lemma CapacityStep(s: System, a: Action, source: string, limit: nat)
    requires Enabled(s, a) && Normal(s.active) && Count(s.active, source) <= limit
    requires a.ScanTake? && Source(s.generators[a.g].queued[0]) == source ==>
      NormalizedConcurrency(s.generators[a.g].queued[0].limit) <= limit
    ensures Count(NextActive(s, a), source) <= limit
  {
    match a
    case SubmitFails(g) => ReleaseUndoesAcquire(s.active, Source(s.generators[g].hand.value), source);
    case CancelRelease(g) => ReleaseUndoesAcquire(s.active, Source(s.generators[g].hand.value), source);
    case Work(j, _, _) => ReleaseUndoesAcquire(s.active, Source(s.jobs[j].operation), source);
    case _ =>
  }

  /** Every provider stays within its capacity: if all operations of a source taken so far ask for at most `limit`, its active
      count, and so the number of permits out, never exceeds it; the clamp bounds it by 16 whatever they ask. */
  lemma {:induction false} CapacityNeverExceeded(states: seq<System>, actions: seq<Action>, i: nat, source: string, limit: nat)
    requires Run(states, actions) && i < |states|
    requires limit >= MAX_CONCURRENCY || forall k :: 0 <= k < i && actions[k].ScanTake? ==>
      var op := states[k].generators[actions[k].g].queued[0];
      Source(op) == source ==> NormalizedConcurrency(op.limit) <= limit
    ensures Count(states[i].active, source) <= limit
    ensures JobPermits(states[i].jobs, source) + HandPermits(states[i].generators, source) <= limit
  {
    hide Ownership, NextActive, NextJobs, NextGenerator, JobPermits, HandPermits;
    PermitConservation(states, actions, i);
    if i > 0 {
      CapacityNeverExceeded(states, actions, i - 1, source, limit);
      PermitConservation(states, actions, i - 1);
      CapacityStep(states[i - 1], actions[i - 1], source, limit);
    }
  }
}
