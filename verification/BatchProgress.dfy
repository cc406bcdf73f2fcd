/** What a fully consumed batch delivers, and why a batch that has the pool to itself gets there. */
module BatchProgress {
  import opened Prelude
  import opened Sequences
  import opened CapacityPool
  import opened BatchProtocol

  // ----- exactly once ---------------------------------------------------------------------------------------

  ghost predicate InRange(jobs: seq<Job>, ids: seq<nat>) {
    forall i :: 0 <= i < |ids| ==> ids[i] < |jobs|
  }

  ghost function OperationsOf(jobs: seq<Job>, ids: seq<nat>): seq<Operation>
    requires InRange(jobs, ids)
  {
    seq(|ids|, i requires 0 <= i < |ids| => jobs[ids[i]].operation)
  }

  lemma OwnedInRange(s: System, gen: Generator, g: nat)
    requires JobsOwned(s, gen, g)
    ensures InRange(s.jobs, gen.jobs)
  {
    forall i | 0 <= i < |gen.jobs| ensures gen.jobs[i] < |s.jobs| {
      assert gen.jobs[i] in gen.jobs;
    }
  }

  function Answered(results: seq<BatchResult>): seq<Operation> {
    seq(|results|, i requires 0 <= i < |results| => results[i].operation)
  }

  function Hand(gen: Generator): multiset<Operation> {
    if gen.hand.Some? then multiset{gen.hand.value} else multiset{}
  }

  function PendingResults(gen: Generator): seq<BatchResult> {
    if gen.phase.Yielding? then gen.phase.results else []
  }

  predicate Aborted(gen: Generator) {
    gen.phase.Closing? || gen.phase.Releasing? || gen.phase.Closed?
  }

  ghost function Bag(queued: seq<Operation>, deferred: seq<Operation>, hand: multiset<Operation>,
                     jobs: seq<Operation>, pending: seq<Operation>, yielded: seq<Operation>): multiset<Operation>
  {
    multiset(queued) + multiset(deferred) + hand + multiset(jobs) + multiset(pending) + multiset(yielded)
  }

  ghost function Everywhere(s: System, gen: Generator): multiset<Operation>
    requires InRange(s.jobs, gen.jobs)
  {
    Bag(gen.queued, gen.deferred, Hand(gen), OperationsOf(s.jobs, gen.jobs), Answered(PendingResults(gen)), Answered(gen.yielded))
  }

  /** Every input operation of a batch that was not given up is in exactly one place, as often as it was given. */
  ghost predicate Accounted(s: System, gen: Generator)
    requires InRange(s.jobs, gen.jobs)
  {
    Aborted(gen) || multiset(gen.input) == Everywhere(s, gen)
  }

  predicate ResultOk(job: Job) {
    && (job.status.Released? ==> job.status.result.operation == job.operation)
    && (job.status.Completed? ==> job.status.result.operation == job.operation)
  }

  ghost predicate Delivered(s: System) {
    && Ownership(s)
    && (forall j :: 0 <= j < |s.jobs| ==> ResultOk(s.jobs[j]))
    && (forall g :: 0 <= g < |s.generators| ==> InRange(s.jobs, s.generators[g].jobs) && Accounted(s, s.generators[g]))
  }

  lemma {:induction false} OperationsWithout(jobs: seq<Job>, ids: seq<nat>, j: nat)
    requires NoDup(ids) && j in ids && InRange(jobs, ids)
    ensures InRange(jobs, Without(ids, j)) && j < |jobs|
    ensures multiset(OperationsOf(jobs, ids)) == multiset(OperationsOf(jobs, Without(ids, j))) + multiset{jobs[j].operation}
  {
    var rest := ids[1..];
    assert OperationsOf(jobs, ids) == [jobs[ids[0]].operation] + OperationsOf(jobs, rest);
    if ids[0] == j {
      assert j !in rest;
      WithoutAbsent(rest, j);
    } else {
      OperationsWithout(jobs, rest, j);
      assert OperationsOf(jobs, [ids[0]] + Without(rest, j)) == [jobs[ids[0]].operation] + OperationsOf(jobs, Without(rest, j));
    }
  }

  lemma OperationsCons(jobs: seq<Job>, ids: seq<nat>)
    requires ids != [] && InRange(jobs, ids)
    ensures InRange(jobs, ids[1..])
    ensures multiset(OperationsOf(jobs, ids)) == multiset{jobs[ids[0]].operation} + multiset(OperationsOf(jobs, ids[1..]))
  {
    assert OperationsOf(jobs, ids) == [jobs[ids[0]].operation] + OperationsOf(jobs, ids[1..]);
  }

  lemma {:induction false} OperationsWithoutAll(jobs: seq<Job>, ids: seq<nat>, gone: seq<nat>)
    requires NoDup(ids) && NoDup(gone) && InRange(jobs, ids)
    requires forall k :: k in gone ==> k in ids
    ensures InRange(jobs, WithoutAll(ids, gone)) && InRange(jobs, gone)
    ensures multiset(OperationsOf(jobs, ids)) ==
            multiset(OperationsOf(jobs, WithoutAll(ids, gone))) + multiset(OperationsOf(jobs, gone))
    decreases |gone|
  {
    if gone == [] {
      assert OperationsOf(jobs, gone) == [];
    } else {
      OperationsWithout(jobs, ids, gone[0]);
      WithoutNoDup(ids, gone[0]);
      assert forall k :: k in gone[1..] ==> k in gone;
      OperationsWithoutAll(jobs, Without(ids, gone[0]), gone[1..]);
      assert InRange(jobs, gone) by {
        assert gone == [gone[0]] + gone[1..];
      }
      hide OperationsOf, Without;
      OperationsCons(jobs, gone);
    }
  }

  lemma JobsKeepOperations(s: System, a: Action, ids: seq<nat>)
    requires Enabled(s, a) && InRange(s.jobs, ids)
    ensures InRange(NextJobs(s, a), ids) && OperationsOf(NextJobs(s, a), ids) == OperationsOf(s.jobs, ids)
  {
  }

  lemma ResultsNext(s: System, a: Action, j: nat)
    requires Enabled(s, a) && j < |NextJobs(s, a)| && forall k :: 0 <= k < |s.jobs| ==> ResultOk(s.jobs[k])
    ensures ResultOk(NextJobs(s, a)[j])
  {
  }

  lemma DeliveredNext(s: System, a: Action)
    requires Delivered(s) && Enabled(s, a)
    ensures Delivered(Next(s, a))
  {
    var t := Next(s, a);
    OwnershipNext(s, a);
    forall j | 0 <= j < |t.jobs| ensures ResultOk(t.jobs[j]) {
      ResultsNext(s, a, j);
    }
    forall g | 0 <= g < |t.generators| ensures InRange(t.jobs, t.generators[g].jobs) && Accounted(t, t.generators[g]) {
      assert GeneratorOk(t, t.generators[g], g);
      OwnedInRange(t, t.generators[g], g);
      JobsKeepOperations(s, a, s.generators[g].jobs);
      if !IsWorker(a) && g == a.g {
        ActorAccounted(s, a);
      }
    }
  }

  lemma ActorAccounted(s: System, a: Action)
    requires Delivered(s) && Enabled(s, a) && !IsWorker(a) && InRange(NextJobs(s, a), NextGenerator(s, a).jobs)
    ensures Accounted(Next(s, a), NextGenerator(s, a))
  {
    assert GeneratorOk(s, s.generators[a.g], a.g) && Accounted(s, s.generators[a.g]);
    if a.Collect? {
      CollectAccounted(s, a);
    }
    hide Delivered, JobsOwned, CloseOk, NextActive, Bag, OperationsOf, Answered;
    if a.Collect? {
    } else if a.ScanTake? || a.ScanDone? {
      ScanAccounted(s, a);
    } else if a.Submit? {
      SubmitAccounted(s, a);
    } else if a.Yield? {
      YieldAccounted(s, a);
    } else if a.WakeUp? {
      hide GeneratorOk;
    } else {
      hide Everywhere;
    }
  }

  lemma BagTake(queued: seq<Operation>, deferred: seq<Operation>, jobs: seq<Operation>, pending: seq<Operation>, yielded: seq<Operation>)
    requires queued != []
    ensures Bag(queued, deferred, multiset{}, jobs, pending, yielded) ==
            Bag(queued[1..], deferred, multiset{queued[0]}, jobs, pending, yielded)
    ensures Bag(queued, deferred, multiset{}, jobs, pending, yielded) ==
            Bag(queued[1..], deferred + [queued[0]], multiset{}, jobs, pending, yielded)
  {
    assert queued == [queued[0]] + queued[1..];
  }

  lemma BagRescan(deferred: seq<Operation>, hand: multiset<Operation>, jobs: seq<Operation>, pending: seq<Operation>, yielded: seq<Operation>)
    ensures Bag([], deferred, hand, jobs, pending, yielded) == Bag(deferred, [], hand, jobs, pending, yielded)
  {
  }

  lemma BagSubmit(queued: seq<Operation>, deferred: seq<Operation>, op: Operation, jobs: seq<Operation>, pending: seq<Operation>, yielded: seq<Operation>)
    ensures Bag(queued, deferred, multiset{op}, jobs, pending, yielded) ==
            Bag(queued, deferred, multiset{}, jobs + [op], pending, yielded)
  {
  }

  lemma BagMove(queued: seq<Operation>, deferred: seq<Operation>, hand: multiset<Operation>, jobs: seq<Operation>,
                left: seq<Operation>, pending: seq<Operation>, yielded: seq<Operation>)
    requires multiset(jobs) == multiset(left) + multiset(pending)
    ensures Bag(queued, deferred, hand, jobs, [], yielded) == Bag(queued, deferred, hand, left, pending, yielded)
  {
  }

  lemma BagYield(queued: seq<Operation>, deferred: seq<Operation>, hand: multiset<Operation>, jobs: seq<Operation>,
                 op: Operation, rest: seq<Operation>, yielded: seq<Operation>)
    ensures Bag(queued, deferred, hand, jobs, [op] + rest, yielded) == Bag(queued, deferred, hand, jobs, rest, yielded + [op])
  {
  }

  lemma ScanAccounted(s: System, a: Action)
    requires Enabled(s, a) && (a.ScanTake? || a.ScanDone?) && GeneratorOk(s, s.generators[a.g], a.g)
    requires InRange(s.jobs, s.generators[a.g].jobs) && Accounted(s, s.generators[a.g])
    ensures Accounted(Next(s, a), NextGenerator(s, a))
  {
    hide Bag, OperationsOf, Answered;
    var gen := s.generators[a.g];
    var jobs := OperationsOf(s.jobs, gen.jobs);
    if a.ScanTake? {
      BagTake(gen.queued, gen.deferred, jobs, Answered(PendingResults(gen)), Answered(gen.yielded));
    } else {
      BagRescan(gen.deferred, Hand(gen), jobs, Answered(PendingResults(gen)), Answered(gen.yielded));
    }
  }

  lemma SubmitAccounted(s: System, a: Action)
    requires Enabled(s, a) && a.Submit? && InRange(s.jobs, s.generators[a.g].jobs) && Accounted(s, s.generators[a.g])
    requires InRange(NextJobs(s, a), NextGenerator(s, a).jobs)
    ensures Accounted(Next(s, a), NextGenerator(s, a))
  {
    hide Bag, Answered;
    var gen := s.generators[a.g];
    var jobs := OperationsOf(s.jobs, gen.jobs);
    assert OperationsOf(NextJobs(s, a), gen.jobs + [|s.jobs|]) == jobs + [gen.hand.value];
    BagSubmit(gen.queued, gen.deferred, gen.hand.value, jobs, Answered(PendingResults(gen)), Answered(gen.yielded));
  }

  lemma YieldAccounted(s: System, a: Action)
    requires Enabled(s, a) && a.Yield? && InRange(s.jobs, s.generators[a.g].jobs) && Accounted(s, s.generators[a.g])
    ensures Accounted(Next(s, a), NextGenerator(s, a))
  {
    hide Bag, OperationsOf;
    var gen := s.generators[a.g];
    var (r, rest) := (gen.phase.results[0], gen.phase.results[1..]);
    assert Answered(gen.phase.results) == [r.operation] + Answered(rest);
    assert Answered(gen.yielded + [r]) == Answered(gen.yielded) + [r.operation];
    BagYield(gen.queued, gen.deferred, Hand(gen), OperationsOf(s.jobs, gen.jobs), r.operation, Answered(rest), Answered(gen.yielded));
    assert Answered([]) == [];
  }

  lemma ResultsAnswer(jobs: seq<Job>, ids: seq<nat>)
    requires InRange(jobs, ids) && forall j :: j in ids ==> j < |jobs| && jobs[j].status.Completed? && ResultOk(jobs[j])
    ensures Answered(ResultsOf(jobs, ids)) == OperationsOf(jobs, ids)
  {
    forall i | 0 <= i < |ids| ensures ResultsOf(jobs, ids)[i].operation == jobs[ids[i]].operation {
      assert ids[i] in ids;
    }
  }

  lemma CollectAccounted(s: System, a: Action)
    requires Delivered(s) && Enabled(s, a) && a.Collect? && InRange(NextJobs(s, a), NextGenerator(s, a).jobs)
    ensures Accounted(Next(s, a), NextGenerator(s, a))
  {
    hide Bag, Answered, OperationsOf;
    var gen := s.generators[a.g];
    assert GeneratorOk(s, gen, a.g) && Accounted(s, gen);
    OperationsWithoutAll(s.jobs, gen.jobs, a.completed);
    ResultsAnswer(s.jobs, a.completed);
    BagMove(gen.queued, gen.deferred, Hand(gen), OperationsOf(s.jobs, gen.jobs),
            OperationsOf(s.jobs, WithoutAll(gen.jobs, a.completed)), OperationsOf(s.jobs, a.completed), Answered(gen.yielded));
    AnsweredNone();
  }

  lemma AnsweredNone()
    ensures Answered([]) == []
  {
  }

  lemma {:induction false} EveryOperationAccounted(states: seq<System>, actions: seq<Action>, i: nat)
    requires Run(states, actions) && i < |states|
    ensures Delivered(states[i])
  {
    if i == 0 {
      forall g | 0 <= g < |states[0].generators| ensures Accounted(states[0], states[0].generators[g]) {
        assert OperationsOf(states[0].jobs, states[0].generators[g].jobs) == [];
      }
    } else {
      EveryOperationAccounted(states, actions, i - 1);
      DeliveredNext(states[i - 1], actions[i - 1]);
    }
  }

  /** Exactly once: a batch consumed to its end has yielded one result per input operation, in every run of any number
      of concurrent batches, whether the operations succeeded or failed. */
  lemma ExactlyOnce(states: seq<System>, actions: seq<Action>, i: nat, g: nat)
    requires Run(states, actions) && i < |states| && g < |states[i].generators| && states[i].generators[g].phase.Finished?
    ensures multiset(Answered(states[i].generators[g].yielded)) == multiset(states[i].generators[g].input)
  {
    EveryOperationAccounted(states, actions, i);
    var gen := states[i].generators[g];
    assert GeneratorOk(states[i], gen, g) && Accounted(states[i], gen);
    assert OperationsOf(states[i].jobs, gen.jobs) == [];
    AnsweredNone();
  }

  // ----- a batch that has the pool to itself ---------------------------------------------------------------------

  /** No failure of the submit, the worker or the caller interferes. */
  predicate Orderly(a: Action) {
    !a.ScanRaises? && !a.SubmitFails? && !a.CollectRaises? && !a.Abandon? && (a.Work? ==> !a.crashed)
  }

  ghost predicate Lone(s: System) {
    && |s.generators| == 1 && Conserved(s) && Ownership(s)
    && var gen := s.generators[0];
       && !Aborted(gen) && !gen.phase.Spinning?
       && (gen.jobs == [] ==> gen.deferred == [])
       && (forall j :: 0 <= j < |s.jobs| ==> (s.jobs[j].status.Released? || s.jobs[j].status.Completed?) ==> !s.jobs[j].status.crashed)
  }

  /** With no job in its dictionary the lone batch holds no permit, so its next operation is admitted at once. */
  lemma LoneScanSubmits(s: System)
    requires Lone(s) && s.generators[0].phase.Scanning? && s.generators[0].jobs == [] && s.generators[0].queued != []
    ensures CanTake(s.active, s.generators[0].queued[0])
  {
    var gen := s.generators[0];
    assert GeneratorOk(s, gen, 0);
    forall j | 0 <= j < |s.jobs| ensures !Holds(s.jobs[j]) {
      assert JobOk(s, s.jobs[j], j);
    }
    NoHands(s.generators, Source(gen.queued[0]));
    NoHolders(s.jobs, Source(gen.queued[0]));
  }

  lemma LoneNext(s: System, a: Action)
    requires Lone(s) && Enabled(s, a) && Orderly(a)
    ensures Lone(Next(s, a))
  {
    ConservedNext(s, a);
    OwnershipNext(s, a);
    var gen := s.generators[0];
    assert GeneratorOk(s, gen, 0);
    if a.ScanTake? && gen.jobs == [] {
      LoneScanSubmits(s);
    }
  }

  /** In an orderly run a single batch stays alone in every state: it never spins, and never stalls on its own permits. */
  lemma {:induction false} LoneRun(states: seq<System>, actions: seq<Action>, i: nat)
    requires Run(states, actions) && |states[0].generators| == 1 && i < |states|
    requires forall k :: 0 <= k < |actions| ==> Orderly(actions[k])
    ensures Lone(states[i])
  {
    if i == 0 {
      PermitConservation(states, actions, 0);
    } else {
      LoneRun(states, actions, i - 1);
      LoneNext(states[i - 1], actions[i - 1]);
    }
  }

  function StatusRank(job: Job): nat {
    match job.status
    case Pending => 3
    case Running => 2
    case Released(_, _) => 1
    case _ => 0
  }

  function WorkLeft(jobs: seq<Job>): nat {
    if jobs == [] then 0 else WorkLeft(jobs[..|jobs| - 1]) + StatusRank(jobs[|jobs| - 1])
  }

  lemma {:induction false} WorkLeftUpdate(jobs: seq<Job>, j: nat, job: Job)
    requires j < |jobs|
    ensures WorkLeft(jobs[j := job]) == WorkLeft(jobs) - StatusRank(jobs[j]) + StatusRank(job)
  {
    var n := |jobs| - 1;
    if j == n {
      assert jobs[j := job][..n] == jobs[..n];
    } else {
      assert jobs[j := job][..n] == jobs[..n][j := job];
      WorkLeftUpdate(jobs[..n], j, job);
    }
  }

  /** The steps still spent on collecting and scanning anew, with n operations to collect: at worst each collection takes one
      result only, and everything else is scanned again. */
  function Rescans(n: nat): nat {
    if n == 0 then 0 else Rescans(n - 1) + n + 1
  }

  function Uncollected(gen: Generator): nat {
    |gen.queued| + |gen.deferred| + (if gen.hand.Some? then 1 else 0) + |gen.jobs|
  }

  /** How many steps a lone batch can still take: the rest of a scan and the rescans; a submit, three steps of a worker and a
      yield for each operation, as far as they are not done. */
  function StepsLeft(s: System): nat
    requires |s.generators| == 1
  {
    var gen := s.generators[0];
    Rescans(Uncollected(gen)) + (if gen.phase.Waiting? || gen.phase.Finished? then 0 else |gen.queued| + 1)
    + 4 * (|gen.queued| + |gen.deferred| + if gen.hand.Some? then 1 else 0) + WorkLeft(s.jobs)
    + Uncollected(gen) + (if gen.phase.Yielding? then |gen.phase.results| else 0)
  }

  lemma {:induction false} RescansGrow(m: nat, n: nat)
    requires m < n
    ensures Rescans(m) + n + 1 <= Rescans(n)
  {
    if m < n - 1 {
      RescansGrow(m, n - 1);
    }
  }

  lemma {:induction false} RescansAre(n: nat)
    ensures 2 * Rescans(n) == n * (n + 3)
  {
    if n > 0 {
      RescansAre(n - 1);
    }
  }

  lemma BoundIs(n: nat)
    ensures 2 * (Rescans(n) + 6 * n + 1) == n * (n + 15) + 2
  {
    RescansAre(n);
  }

  lemma {:induction false} WithoutAllLength(ids: seq<nat>, gone: seq<nat>)
    requires NoDup(gone) && forall j :: j in gone ==> j in ids
    ensures |WithoutAll(ids, gone)| + |gone| <= |ids|
    decreases |gone|
  {
    if gone != [] {
      WithoutAllLength(Without(ids, gone[0]), gone[1..]);
    }
  }

  lemma WorkerDescends(s: System, a: Action)
    requires |s.generators| == 1 && Enabled(s, a) && IsWorker(a)
    ensures StepsLeft(Next(s, a)) < StepsLeft(s)
  {
    hide NextActive, Rescans, WorkLeft, Uncollected;
    WorkLeftUpdate(s.jobs, a.j, NextJobs(s, a)[a.j]);
    assert NextJobs(s, a) == s.jobs[a.j := NextJobs(s, a)[a.j]];
  }

  /** Termination: every step of a lone batch leaves fewer steps. */
  lemma LoneBatchDescends(s: System, a: Action)
    requires Lone(s) && Enabled(s, a) && Orderly(a)
    ensures |Next(s, a).generators| == 1 && StepsLeft(Next(s, a)) < StepsLeft(s)
  {
    assert GeneratorOk(s, s.generators[0], 0);
    hide Conserved, Ownership, StepsLeft, NextActive, NextJobs, NextGenerator, GeneratorOk, Enabled;
    if IsWorker(a) {
      WorkerDescends(s, a);
    } else {
      GeneratorDescends(s, a);
    }
  }

  lemma GeneratorDescends(s: System, a: Action)
    requires |s.generators| == 1 && GeneratorOk(s, s.generators[0], 0) && Enabled(s, a) && Orderly(a) && !IsWorker(a)
    requires !Aborted(s.generators[0]) && !s.generators[0].phase.Spinning?
    requires s.generators[0].jobs == [] ==> s.generators[0].deferred == []
    ensures StepsLeft(Next(s, a)) < StepsLeft(s)
  {
    hide NextActive, CloseOk, JobsOwned, Rescans;
    var gen := s.generators[0];
    if a.Collect? {
      WithoutAllLength(gen.jobs, a.completed);
      RescansGrow(Uncollected(NextGenerator(s, a)), Uncollected(gen));
    } else if a.Submit? {
      assert NextJobs(s, a)[..|s.jobs|] == s.jobs;
    }
  }

  /** A lone batch of n operations is over after at most n(n + 15)/2 + 1 steps, its workers' included, whatever the capacities:
      with `LoneBatchCanMove` and `ExactlyOnce` it delivers every result within them. */
  lemma LoneBatchIsBounded(states: seq<System>, actions: seq<Action>)
    requires Run(states, actions) && |states[0].generators| == 1
    requires forall k :: 0 <= k < |actions| ==> Orderly(actions[k])
    ensures var n := |states[0].generators[0].input|; 2 * |actions| <= n * (n + 15) + 2
  {
    assert |states| == |actions| + 1;
    hide *;
    LoneStepsLeft(states, actions, |actions|);
    BoundIs(|states[0].generators[0].input|);
  }

  lemma {:induction false} LoneStepsLeft(states: seq<System>, actions: seq<Action>, i: nat)
    requires Run(states, actions) && |states[0].generators| == 1 && i < |states|
    requires forall k :: 0 <= k < |actions| ==> Orderly(actions[k])
    ensures var n := |states[0].generators[0].input|;
            |states[i].generators| == 1 && i + StepsLeft(states[i]) <= Rescans(n) + 6 * n + 1
  {
    if i > 0 {
      hide Next, Enabled, StepsLeft, Initial, Orderly, Lone;
      LoneStepsLeft(states, actions, i - 1);
      LoneRun(states, actions, i - 1);
      LoneBatchDescends(states[i - 1], actions[i - 1]);
    }
  }

  /** Progress: until a lone batch is finished, some orderly step is possible. With descent and `ExactlyOnce`, it always
      delivers every result. */
  lemma LoneBatchCanMove(s: System) returns (a: Action)
    requires Lone(s) && !s.generators[0].phase.Finished?
    ensures Enabled(s, a) && Orderly(a)
  {
    var gen := s.generators[0];
    assert GeneratorOk(s, gen, 0);
    if gen.phase.Scanning? {
      a := if gen.queued != [] then ScanTake(0) else ScanDone(0);
    } else if gen.phase.Submitting? {
      a := Submit(0);
    } else if gen.phase.Yielding? {
      a := Yield(0);
    } else {
      var j := gen.jobs[0];
      assert j in gen.jobs;
      match s.jobs[j].status
      case Pending => a := Start(j);
      case Running => a := Work(j, Ok(Null), false);
      case Released(_, _) => a := Publish(j);
      case Completed(_, _) => a := Collect(0, [j]);
    }
  }

  // ----- one scan of the queue, alone ---------------------------------------------------------------------------------

  function Submissions(ops: seq<Operation>, source: string): nat {
    if ops == [] then 0
    else Submissions(ops[..|ops| - 1], source) + if Source(ops[|ops| - 1]) == source then 1 else 0
  }

  /** Two lists that together are a queue, each in the order of the queue. */
  predicate Interleaved(queue: seq<Operation>, a: seq<Operation>, b: seq<Operation>) {
    if queue == [] then a == [] && b == []
    else
      var n, last := |queue| - 1, queue[|queue| - 1];
      || (a != [] && a[|a| - 1] == last && Interleaved(queue[..n], a[..|a| - 1], b))
      || (b != [] && b[|b| - 1] == last && Interleaved(queue[..n], a, b[..|b| - 1]))
  }

  /** Nothing is lost or made up. */
  lemma {:induction false} InterleavedMultiset(queue: seq<Operation>, a: seq<Operation>, b: seq<Operation>)
    requires Interleaved(queue, a, b)
    ensures multiset(a) + multiset(b) == multiset(queue)
  {
    if queue != [] {
      var n, last := |queue| - 1, queue[|queue| - 1];
      assert queue == queue[..n] + [last];
      if a != [] && a[|a| - 1] == last && Interleaved(queue[..n], a[..|a| - 1], b) {
        InterleavedMultiset(queue[..n], a[..|a| - 1], b);
        assert a == a[..|a| - 1] + [last];
      } else {
        InterleavedMultiset(queue[..n], a, b[..|b| - 1]);
        assert b == b[..|b| - 1] + [last];
      }
    }
  }

  lemma InterleavedAppend(queue: seq<Operation>, a: seq<Operation>, b: seq<Operation>, op: Operation)
    requires Interleaved(queue, a, b)
    ensures Interleaved(queue + [op], a + [op], b) && Interleaved(queue + [op], a, b + [op])
  {
    assert (queue + [op])[..|queue|] == queue && (a + [op])[..|a|] == a && (b + [op])[..|b|] == b;
  }

  /** The pool after the submissions, and what was scanned of the queue split between them and the deferred, in order. */
  ghost predicate Split(before: Active, after: Active, queued: seq<Operation>, submitted: seq<Operation>,
                        deferred: seq<Operation>, rest: seq<Operation>)
  {
    && |rest| <= |queued| && rest == queued[|queued| - |rest|..]
    && Interleaved(queued[..|queued| - |rest|], submitted, deferred)
    && (forall source :: Count(after, source) == Count(before, source) + Submissions(submitted, source))
    && (forall k :: 0 <= k < |deferred| ==> !CanTake(after, deferred[k]))
  }

  lemma Scanned(queued: seq<Operation>, rest: seq<Operation>)
    requires rest != [] && |rest| <= |queued| && rest == queued[|queued| - |rest|..]
    ensures rest[1..] == queued[|queued| - |rest| + 1..]
    ensures queued[..|queued| - |rest| + 1] == queued[..|queued| - |rest|] + [rest[0]]
  {
  }

  lemma SubmissionsAppend(submitted: seq<Operation>, op: Operation, source: string)
    ensures Submissions(submitted + [op], source) == Submissions(submitted, source) + if Source(op) == source then 1 else 0
  {
    assert (submitted + [op])[..|submitted|] == submitted;
  }

  lemma SaturatedStays(active: Active, source: string, op: Operation)
    requires !CanTake(active, op)
    ensures !CanTake(Acquired(active, source), op)
  {
    hide NormalizedConcurrency;
  }

  lemma SplitSubmits(before: Active, after: Active, queued: seq<Operation>, submitted: seq<Operation>,
                     deferred: seq<Operation>, rest: seq<Operation>)
    requires rest != [] && Split(before, after, queued, submitted, deferred, rest)
    ensures Split(before, Acquired(after, Source(rest[0])), queued, submitted + [rest[0]], deferred, rest[1..])
  {
    hide Submissions, CanTake, Interleaved;
    var op := rest[0];
    Scanned(queued, rest);
    InterleavedAppend(queued[..|queued| - |rest|], submitted, deferred, op);
    forall source ensures Count(Acquired(after, Source(op)), source) == Count(before, source) + Submissions(submitted + [op], source) {
      SubmissionsAppend(submitted, op, source);
    }
    hide Acquired;
    forall k | 0 <= k < |deferred| ensures !CanTake(Acquired(after, Source(op)), deferred[k]) {
      SaturatedStays(after, Source(op), deferred[k]);
    }
  }

  lemma SplitDefers(before: Active, after: Active, queued: seq<Operation>, submitted: seq<Operation>,
                    deferred: seq<Operation>, rest: seq<Operation>)
    requires rest != [] && Split(before, after, queued, submitted, deferred, rest) && !CanTake(after, rest[0])
    ensures Split(before, after, queued, submitted, deferred + [rest[0]], rest[1..])
  {
    hide CanTake, Interleaved, Submissions;
    Scanned(queued, rest);
    InterleavedAppend(queued[..|queued| - |rest|], submitted, deferred, rest[0]);
  }

  /** The scan loop over the queue between two waits, with no release in between: it splits the queue into what was
      submitted under a permit and what is deferred; every deferred source is saturated; and with no permit out it
      submits at least the first operation. Both parts keep the order of the queue. */
  method Scan(pool: SourceCapacityPool, queued: seq<Operation>) returns (submitted: seq<Operation>, deferred: seq<Operation>)
    modifies pool
    ensures Split(old(pool.active), pool.active, queued, submitted, deferred, [])
    ensures Interleaved(queued, submitted, deferred)
    ensures queued != [] && old(pool.active) == map[] ==> submitted != [] && submitted[0] == queued[0]
  {
    hide Split;
    submitted, deferred := [], [];
    var rest := queued;
    assert Split(pool.active, pool.active, queued, [], [], queued) by {
      SplitStart(pool.active, queued);
    }
    while rest != []
      invariant Split(old(pool.active), pool.active, queued, submitted, deferred, rest)
      invariant submitted == [] && deferred == [] ==> rest == queued && pool.active == old(pool.active)
      invariant submitted == [] && deferred != [] ==> old(pool.active) != map[]
      invariant submitted != [] && old(pool.active) == map[] ==> queued != [] && submitted[0] == queued[0]
      decreases |rest|
    {
      var op := rest[0];
      if CanTake(pool.active, op) {
        SplitSubmits(old(pool.active), pool.active, queued, submitted, deferred, rest);
      } else {
        SplitDefers(old(pool.active), pool.active, queued, submitted, deferred, rest);
      }
      rest := rest[1..];
      var granted := pool.TryAcquire(op.source, op.limit);
      if granted {
        submitted := submitted + [op];
      } else {
        deferred := deferred + [op];
      }
    }
    SplitEnd(old(pool.active), pool.active, queued, submitted, deferred);
  }

  lemma SplitEnd(before: Active, after: Active, queued: seq<Operation>, submitted: seq<Operation>, deferred: seq<Operation>)
    requires Split(before, after, queued, submitted, deferred, [])
    ensures Interleaved(queued, submitted, deferred)
  {
    hide Interleaved;
    assert queued[..|queued|] == queued;
  }

  lemma SplitStart(active: Active, queued: seq<Operation>)
    ensures Split(active, active, queued, [], [], queued)
  {
  }

  /** A batch that has nothing to wait for but a permit looks for one again when the pool changes, and takes it if there is one. */
  lemma WokenBatchRescans(s: System, g: nat)
    requires g < |s.generators| && s.generators[g].phase.Spinning? && s.generators[g].queued != []
    ensures Enabled(s, WakeUp(g)) && Enabled(Next(s, WakeUp(g)), ScanTake(g))
    ensures var op, before, after := s.generators[g].queued[0], s.generators[g], Next(Next(s, WakeUp(g)), ScanTake(g)).generators[g];
            && after.queued == before.queued[1..] && after.jobs == before.jobs && after.yielded == before.yielded
            && if Count(s.active, Source(op)) < NormalizedConcurrency(op.limit) then
                 after.hand == Some(op) && after.phase.Submitting? && after.deferred == before.deferred
               else
                 after.hand == before.hand && after.phase.Scanning? && after.deferred == before.deferred + [op]
  {
  }
}
