/** Snapshot and shard loads as calls of the single-flight protocol: what they give under any interleaving of any number of
    threads, lookups by loaders in progress included. */
module ConcurrentLoads {
  import opened Prelude
  import opened Sequences
  import opened SnapshotStore
  import opened SnapshotInvariants
  import opened SingleFlight
  import opened ShardIdentity
  import opened ShardPlanning
  import opened ShardLoading
  import GridMapping
  import Fallback = ResolutionFallback

  // ----- shards ---------------------------------------------------------------------------------------------------------

  datatype ShardAsk = ShardAsk(q: Request, resolution: real, window: Window)

  function AskedShard(ask: ShardAsk): Identity {
    ShardKeyIdentity(ask.q, ask.resolution, ShardId(ask.window))
  }

  function ShardAskAnswer(src: ShardSource, ask: ShardAsk): Result<Payload<ShardSnapshot>, string> {
    PayloadAnswer(ShardAnswer(src, ask.q, ask.resolution, ask.window))
  }

  /** The steps of a call for a shard: it enters with the shard's identity, and its loader ends as the source's answer for the
      window says. Any other call that loads has an exact loader; nothing else is asked of it. */
  ghost predicate ShardStep(s: System<ShardSnapshot>, a: Action<ShardSnapshot>, ns: Namespace, policy: Policy, src: ShardSource,
                            asks: map<nat, ShardAsk>, answers: Slot -> Result<Payload<ShardSnapshot>, string>)
    requires Enabled(s, a)
  {
    match a
    case Enter(c, n, p, identity, _) => c in asks ==> n == ns && p == policy && identity == AskedShard(asks[c])
    case LoaderReturns(c, loaded, _) =>
      if c in asks then Ok(loaded.payload) == ShardAskAnswer(src, asks[c]) && loaded.identity == AskedShard(asks[c])
      else Exact(s, a, answers)
    case LoaderRaises(c, error) =>
      if c in asks then ShardAskAnswer(src, asks[c]) == Err(error) else Exact(s, a, answers)
    case _ => true
  }

  /** A run in which some calls, those in `asks`, load shards of one source. */
  ghost predicate ShardRun(states: seq<System<ShardSnapshot>>, actions: seq<Action<ShardSnapshot>>, ns: Namespace, policy: Policy,
                           src: ShardSource, dataset: string, asks: map<nat, ShardAsk>,
                           others: Slot -> Result<Payload<ShardSnapshot>, string>)
  {
    && Run(states, actions) && policy.enabled && ShardRolesSuffice(policy)
    && (forall c :: c in asks ==> asks[c].q.dataset == dataset)
    && forall j :: 0 <= j < |actions| ==>
         ShardStep(states[j], actions[j], ns, policy, src, asks, ShardAnswers(src, ns, dataset, others))
  }

  lemma ShardCallSlot(states: seq<System<ShardSnapshot>>, actions: seq<Action<ShardSnapshot>>, ns: Namespace, policy: Policy,
      src: ShardSource, dataset: string, asks: map<nat, ShardAsk>, others: Slot -> Result<Payload<ShardSnapshot>, string>, i: nat, c: nat)
    requires ShardRun(states, actions, ns, policy, src, dataset, asks, others)
    requires i < |states| && c in asks && c < |states[i].calls|
    ensures PolicyKey(policy, AskedShard(asks[c])).Ok?
    ensures AskedFor(states[i].calls[c], (ns, PolicyKey(policy, AskedShard(asks[c])).value), policy)
    ensures ShardAnswers(src, ns, dataset, others)((ns, PolicyKey(policy, AskedShard(asks[c])).value)) == ShardAskAnswer(src, asks[c])
  {
    hide ShardId, ShardAnswer, ShardAnswers, ShardKeyIdentity, AskedFor, PolicyKey, ShardRolesSuffice;
    ShardKey(src, ns, others, policy, asks[c].q, asks[c].resolution, asks[c].window);
    forall j | 0 <= j < |actions| && actions[j].Enter? && actions[j].call == c
      ensures actions[j].ns == ns && actions[j].policy == policy && actions[j].identity == AskedShard(asks[c])
    {
      assert ShardStep(states[j], actions[j], ns, policy, src, asks, ShardAnswers(src, ns, dataset, others));
    }
    assert Asks(actions, c, ns, policy, AskedShard(asks[c]));
    hide *;
    CallKeepsItsSlot(states, actions, i, c, ns, policy, AskedShard(asks[c]));
  }

  /** A shard's loader is exact, and so honest: what it returns is the source's payload for the key that was requested. */
  lemma ShardLoaderIsExact(states: seq<System<ShardSnapshot>>, actions: seq<Action<ShardSnapshot>>, ns: Namespace, policy: Policy,
      src: ShardSource, dataset: string, asks: map<nat, ShardAsk>, others: Slot -> Result<Payload<ShardSnapshot>, string>, j: nat)
    requires ShardRun(states, actions, ns, policy, src, dataset, asks, others) && j < |actions|
    ensures Exact(states[j], actions[j], ShardAnswers(src, ns, dataset, others))
  {
    hide ShardAnswers, ShardAskAnswer, AskedShard, PolicyKey, ShardRolesSuffice;
    var a := actions[j];
    if (a.LoaderReturns? || a.LoaderRaises?) && a.call in asks {
      ShardCallSlot(states, actions, ns, policy, src, dataset, asks, others, j, a.call);
    }
  }

  /** Whatever else goes on, a finished call for a shard has returned or raised the source's answer for its window, whether it
      found it in the cache, loaded it or waited for another call's load. */
  lemma ShardCallsAnswer(states: seq<System<ShardSnapshot>>, actions: seq<Action<ShardSnapshot>>, ns: Namespace, policy: Policy,
      src: ShardSource, dataset: string, asks: map<nat, ShardAsk>, others: Slot -> Result<Payload<ShardSnapshot>, string>, i: nat, c: nat)
    requires ShardRun(states, actions, ns, policy, src, dataset, asks, others)
    requires i < |states| && c in asks && c < |states[i].calls| && states[i].calls[c].Done?
    ensures states[i].calls[c].outcome == OutcomeOf(ShardAskAnswer(src, asks[c]))
  {
    var answers := ShardAnswers(src, ns, dataset, others);
    hide ShardAnswers, ShardAskAnswer, AskedShard, PolicyKey, ShardRolesSuffice, ShardStep, Enabled, Initial;
    forall j | 0 <= j < i ensures Exact(states[j], actions[j], answers) {
      ShardLoaderIsExact(states, actions, ns, policy, src, dataset, asks, others, j);
    }
    OutcomesAreAnswers(states, actions, i, answers);
    ShardCallSlot(states, actions, ns, policy, src, dataset, asks, others, i, c);
    hide Exact;
  }

  /** The calls of one sharded read, call `calls(k)` for shard k, have all ended. */
  ghost predicate AllEnded(s: System<ShardSnapshot>, q: Request, resolution: real, plan: QueryPlan, asks: map<nat, ShardAsk>, calls: nat -> nat) {
    forall k: nat :: k < |plan.shards| ==>
      && calls(k) in asks && asks[calls(k)] == ShardAsk(q, resolution, WindowOf(plan.shards[k]))
      && calls(k) < |s.calls| && s.calls[calls(k)].Done?
  }

  /** A sharded read among other threads: its calls have the answers of their windows, so if none raised, their snapshots are
      what the assembler is to be given, and `Outcome` is what it makes of them. */
  lemma ConcurrentShardsAnswer(states: seq<System<ShardSnapshot>>, actions: seq<Action<ShardSnapshot>>, ns: Namespace, policy: Policy,
      src: ShardSource, q: Request, resolution: real, plan: QueryPlan, asks: map<nat, ShardAsk>, calls: nat -> nat,
      others: Slot -> Result<Payload<ShardSnapshot>, string>, i: nat, snapshots: seq<ShardSnapshot>)
    requires ShardRun(states, actions, ns, policy, src, q.dataset, asks, others)
    requires i < |states| && AllEnded(states[i], q, resolution, plan, asks, calls) && |snapshots| == |plan.shards|
    ensures (forall k :: 0 <= k < |plan.shards| ==> states[i].calls[calls(k)].outcome == Returned(PayloadOf(snapshots[k]))) <==>
            ShardLoading.Ordered(src, q, resolution, plan, snapshots)
    ensures (exists k :: 0 <= k < |plan.shards| && states[i].calls[calls(k)].outcome.Raised?) <==>
            !AllAnswer(src, q, resolution, plan)
    ensures forall k, error :: 0 <= k < |plan.shards| && states[i].calls[calls(k)].outcome == Raised(error) ==>
              AnswerAt(src, q, resolution, plan, k) == Err(error)
  {
    hide ShardAnswer, ShardRun;
    forall k | 0 <= k < |plan.shards|
      ensures states[i].calls[calls(k)].outcome == OutcomeOf(PayloadAnswer(AnswerAt(src, q, resolution, plan, k)))
    {
      ShardCallsAnswer(states, actions, ns, policy, src, q.dataset, asks, others, i, calls(k));
    }
  }

  // ----- the whole request ----------------------------------------------------------------------------------------------

  /** Where a sharded read among other threads has got to: these of its calls have ended, in this order, with these outcomes;
      all of them have, or the last one raised. */
  ghost predicate Ended(s: System<ShardSnapshot>, q: Request, resolution: real, plan: QueryPlan, asks: map<nat, ShardAsk>,
                        calls: nat -> nat, order: seq<nat>, outcomes: seq<SingleFlight.Outcome<ShardSnapshot>>)
  {
    && |order| == |outcomes|
    && (forall j :: 0 <= j < |order| ==>
          var k := order[j];
          && k < |plan.shards| && calls(k) in asks && asks[calls(k)] == ShardAsk(q, resolution, WindowOf(plan.shards[k]))
          && calls(k) < |s.calls| && s.calls[calls(k)].Done? && s.calls[calls(k)].outcome == outcomes[j])
    && (Completes(order, |plan.shards|) || (outcomes != [] && outcomes[|outcomes| - 1].Raised?))
  }

  lemma EndedAnswers(states: seq<System<ShardSnapshot>>, actions: seq<Action<ShardSnapshot>>, ns: Namespace, policy: Policy,
      src: ShardSource, q: Request, resolution: real, plan: QueryPlan, asks: map<nat, ShardAsk>, calls: nat -> nat,
      others: Slot -> Result<Payload<ShardSnapshot>, string>, i: nat, order: seq<nat>, outcomes: seq<SingleFlight.Outcome<ShardSnapshot>>)
    requires ShardRun(states, actions, ns, policy, src, q.dataset, asks, others)
    requires i < |states| && Ended(states[i], q, resolution, plan, asks, calls, order, outcomes)
    ensures forall j :: 0 <= j < |order| ==>
              order[j] < |plan.shards| && outcomes[j] == OutcomeOf(PayloadAnswer(AnswerAt(src, q, resolution, plan, order[j])))
  {
    hide ShardAnswer, ShardRun;
    forall j | 0 <= j < |order|
      ensures order[j] < |plan.shards| && outcomes[j] == OutcomeOf(PayloadAnswer(AnswerAt(src, q, resolution, plan, order[j])))
    {
      ShardCallsAnswer(states, actions, ns, policy, src, q.dataset, asks, others, i, calls(order[j]));
    }
  }

  /** A sharded read among any other threads: its calls are collected as they complete, the first that raised ends it, and the
      assembler gets the others in plan order. The result is the stitched answer of the source, or a failing window's error,
      whatever interleaving led to the outcomes. */
  method ConcurrentRead(src: ShardSource, q: Request, viewport: Option<Bounds>, resolution: real, plan: QueryPlan, order: seq<nat>,
                        outcomes: seq<SingleFlight.Outcome<ShardSnapshot>>,
                        ghost states: seq<System<ShardSnapshot>>, ghost actions: seq<Action<ShardSnapshot>>, ghost ns: Namespace,
                        ghost policy: Policy, ghost asks: map<nat, ShardAsk>, ghost calls: nat -> nat,
                        ghost others: Slot -> Result<Payload<ShardSnapshot>, string>, ghost i: nat)
    returns (r: Result<ShardedSnapshot, string>)
    requires PlanFor(src, q, viewport, resolution) == Ok(plan) && NoDup(GridMapping.Fields(src.mapping))
    requires ShardRun(states, actions, ns, policy, src, q.dataset, asks, others)
    requires i < |states| && Ended(states[i], q, resolution, plan, asks, calls, order, outcomes)
    ensures |plan.shards| > 0
    ensures AllAnswer(src, q, resolution, plan) ==> r == ShardLoading.Outcome(src, q, resolution, plan)
    ensures !AllAnswer(src, q, resolution, plan) ==>
              exists k :: 0 <= k < |plan.shards| && AnswerAt(src, q, resolution, plan, k).Err?
                          && r == Err(AnswerAt(src, q, resolution, plan, k).error)
  {
    hide PlanFor, PlanOfRequest, ShardLoading.Outcome, ShardAnswer, ShardRun, NoDup, GridMapping.Fields;
    EndedAnswers(states, actions, ns, policy, src, q, resolution, plan, asks, calls, others, i, order, outcomes);
    PlanIsOfRequest(src, q, viewport, resolution, plan);
    var results: map<nat, ShardSnapshot> := map[];
    var j := 0;
    while j < |order|
      invariant 0 <= j <= |order|
      invariant forall k :: k in results <==> k in order[..j]
      invariant forall k :: k in results ==> k < |plan.shards| && AnswerAt(src, q, resolution, plan, k) == Ok(results[k])
      invariant forall m :: 0 <= m < j ==> outcomes[m].Returned?
    {
      match outcomes[j] {
        case Raised(error) =>
          assert AnswerAt(src, q, resolution, plan, order[j]) == Err(error);
          return Err(error);
        case Returned(payload) =>
          assert AnswerAt(src, q, resolution, plan, order[j]) == Ok(payload.body);
          results := results[order[j] := payload.body];
      }
      assert order[..j + 1] == order[..j] + [order[j]];
      j := j + 1;
    }
    assert order[..|order|] == order;
    assert forall k :: 0 <= k < |plan.shards| ==> k in results;
    var snapshots := seq(|plan.shards|, k requires 0 <= k < |plan.shards| && k in results => results[k]);
    r := Assemble(src, q, resolution, plan, snapshots);
  }

  // ----- snapshots ------------------------------------------------------------------------------------------------------

  datatype SnapshotAsk = SnapshotAsk(q: Request, first: nat)

  function AskedSnapshot<F>(src: Fallback.Source<F>, ask: SnapshotAsk): Identity
    requires ask.first < |src.available|
  {
    Fallback.SnapshotIdentity(ask.q, src.available[ask.first])
  }

  function SnapshotAskAnswer<F>(src: Fallback.Source<F>, ask: SnapshotAsk): Result<Payload<Fallback.Snapshot<F>>, string>
    requires ask.first < |src.available|
  {
    Fallback.Answer(src, ask.q, src.available[ask.first..])
  }

  /** A lookup of this identity, in this state of the cache, finds the payload. */
  ghost predicate Finds<T>(store: Store<T>, ns: Namespace, policy: Policy, identity: Identity, now: real, payload: Payload<T>) {
    && PolicyKey(policy, identity).Ok?
    && var found := Resolve(store, ns, policy, PolicyKey(policy, identity).value, now).1;
       found.Some? && found.value.payload == payload
  }

  /** Each candidate that was found was found by a lookup in some state up to this one. */
  ghost predicate LookedUp<F>(states: seq<System<Fallback.Snapshot<F>>>, j: nat, ns: Namespace, policy: Policy, src: Fallback.Source<F>,
                              q: Request, found: map<nat, Payload<Fallback.Snapshot<F>>>)
    requires j < |states|
  {
    forall m :: m in found ==>
      && m < |src.available|
      && exists t, now :: 0 <= t <= j
           && Finds(states[t].store, ns, policy, Fallback.SnapshotIdentity(q, src.available[m]), now, found[m])
  }

  /** The loader of a call for a snapshot ends as the loop over its candidates does, with what its lookups found so far. */
  ghost predicate LoaderEnds<F(!new)>(states: seq<System<Fallback.Snapshot<F>>>, j: nat, ns: Namespace, policy: Policy, src: Fallback.Source<F>,
                                ask: SnapshotAsk, r: Result<Loaded<Fallback.Snapshot<F>>, string>)
    requires j < |states| && ask.first < |src.available|
  {
    exists found :: LookedUp(states, j, ns, policy, src, ask.q, found) && r == Fallback.LoadWith(src, ask.q, ask.first, found)
  }

  ghost predicate SnapshotStep<F(!new)>(states: seq<System<Fallback.Snapshot<F>>>, j: nat, a: Action<Fallback.Snapshot<F>>, ns: Namespace,
                                  policy: Policy, src: Fallback.Source<F>, asks: map<nat, SnapshotAsk>,
                                  answers: Slot -> Result<Payload<Fallback.Snapshot<F>>, string>)
    requires j < |states| && Enabled(states[j], a) && forall c :: c in asks ==> asks[c].first < |src.available|
  {
    match a
    case Enter(c, n, p, identity, _) => c in asks ==> n == ns && p == policy && identity == AskedSnapshot(src, asks[c])
    case LoaderReturns(c, loaded, _) =>
      if c in asks then LoaderEnds(states, j, ns, policy, src, asks[c], Ok(loaded)) else Exact(states[j], a, answers)
    case LoaderRaises(c, error) =>
      if c in asks then LoaderEnds(states, j, ns, policy, src, asks[c], Err(error)) else Exact(states[j], a, answers)
    case _ => true
  }

  /** A run in which some calls, those in `asks`, load snapshots of one source. */
  ghost predicate SnapshotRun<F(!new)>(states: seq<System<Fallback.Snapshot<F>>>, actions: seq<Action<Fallback.Snapshot<F>>>, ns: Namespace,
                                 policy: Policy, src: Fallback.Source<F>, dataset: string, asks: map<nat, SnapshotAsk>,
                                 others: Slot -> Result<Payload<Fallback.Snapshot<F>>, string>)
  {
    && Run(states, actions) && policy.enabled && Fallback.RolesSuffice(policy) && Fallback.Ascending(src.available)
    && (forall c :: c in asks ==> asks[c].q.dataset == dataset && asks[c].first < |src.available|)
    && forall j :: 0 <= j < |actions| ==>
         SnapshotStep(states, j, actions[j], ns, policy, src, asks, Fallback.SnapshotAnswers(src, ns, dataset, others))
  }

  lemma SnapshotCallSlot<F(!new)>(states: seq<System<Fallback.Snapshot<F>>>, actions: seq<Action<Fallback.Snapshot<F>>>, ns: Namespace,
      policy: Policy, src: Fallback.Source<F>, dataset: string, asks: map<nat, SnapshotAsk>,
      others: Slot -> Result<Payload<Fallback.Snapshot<F>>, string>, i: nat, c: nat)
    requires SnapshotRun(states, actions, ns, policy, src, dataset, asks, others)
    requires i < |states| && c in asks && c < |states[i].calls|
    ensures PolicyKey(policy, AskedSnapshot(src, asks[c])).Ok?
    ensures AskedFor(states[i].calls[c], (ns, PolicyKey(policy, AskedSnapshot(src, asks[c])).value), policy)
    ensures Fallback.SnapshotAnswers(src, ns, dataset, others)((ns, PolicyKey(policy, AskedSnapshot(src, asks[c])).value)) ==
            SnapshotAskAnswer(src, asks[c])
  {
    hide Fallback.SnapshotAnswers, Fallback.SnapshotIdentity, Fallback.Answer, AskedFor, PolicyKey, Fallback.RolesSuffice,
         Fallback.Ascending;
    Fallback.SnapshotKey(src, ns, others, policy, asks[c].q, asks[c].first);
    forall j | 0 <= j < |actions| && actions[j].Enter? && actions[j].call == c
      ensures actions[j].ns == ns && actions[j].policy == policy && actions[j].identity == AskedSnapshot(src, asks[c])
    {
      assert SnapshotStep(states, j, actions[j], ns, policy, src, asks, Fallback.SnapshotAnswers(src, ns, dataset, others));
    }
    assert Asks(actions, c, ns, policy, AskedSnapshot(src, asks[c]));
    hide *;
    CallKeepsItsSlot(states, actions, i, c, ns, policy, AskedSnapshot(src, asks[c]));
  }

  /** While all loaders so far were exact, what a loader's lookups find is the reference answer of the resolution looked up. */
  lemma LookupsFindAnswers<F(!new)>(states: seq<System<Fallback.Snapshot<F>>>, actions: seq<Action<Fallback.Snapshot<F>>>, ns: Namespace,
      policy: Policy, src: Fallback.Source<F>, q: Request, others: Slot -> Result<Payload<Fallback.Snapshot<F>>, string>, j: nat,
      found: map<nat, Payload<Fallback.Snapshot<F>>>)
    requires Run(states, actions) && policy.enabled && Fallback.RolesSuffice(policy) && Fallback.Ascending(src.available)
    requires j < |states| && LookedUp(states, j, ns, policy, src, q, found)
    requires forall t :: 0 <= t < j ==> Exact(states[t], actions[t], Fallback.SnapshotAnswers(src, ns, q.dataset, others))
    ensures Fallback.FoundAnswers(src, q, found)
  {
    var answers := Fallback.SnapshotAnswers(src, ns, q.dataset, others);
    hide Fallback.SnapshotAnswers, Fallback.SnapshotIdentity, Fallback.Answer, PolicyKey, Fallback.RolesSuffice, Fallback.Ascending,
         Resolve, Exact, Honest, Enabled, Initial;
    forall t | 0 <= t < j ensures Honest(states[t], actions[t], Payloads(answers)) {
      ExactIsHonest(states[t], actions[t], answers);
    }
    forall m | m in found ensures Fallback.Answer(src, q, src.available[m..]) == Ok(found[m]) {
      var t, now :| 0 <= t <= j && Finds(states[t].store, ns, policy, Fallback.SnapshotIdentity(q, src.available[m]), now, found[m]);
      Fallback.SnapshotKey(src, ns, others, policy, q, m);
      CacheTransparency(states, actions, t, Payloads(answers));
    }
  }

  /** The loader of a snapshot is exact: what is returned is the reference answer for the requested resolution, and so is the
      answer for the resolution it comes from. */
  lemma SnapshotLoaderIsExact<F(!new)>(states: seq<System<Fallback.Snapshot<F>>>, actions: seq<Action<Fallback.Snapshot<F>>>, ns: Namespace,
      policy: Policy, src: Fallback.Source<F>, dataset: string, asks: map<nat, SnapshotAsk>,
      others: Slot -> Result<Payload<Fallback.Snapshot<F>>, string>, j: nat)
    requires SnapshotRun(states, actions, ns, policy, src, dataset, asks, others) && j < |actions|
    requires forall t :: 0 <= t < j ==> Exact(states[t], actions[t], Fallback.SnapshotAnswers(src, ns, dataset, others))
    ensures Exact(states[j], actions[j], Fallback.SnapshotAnswers(src, ns, dataset, others))
  {
    hide Fallback.SnapshotAnswers, Fallback.SnapshotIdentity, Fallback.Answer, Fallback.LoadWith, PolicyKey, Fallback.RolesSuffice,
         Fallback.Ascending, LookedUp, Fallback.FoundAnswers;
    var a := actions[j];
    if (a.LoaderReturns? || a.LoaderRaises?) && a.call in asks {
      var ask := asks[a.call];
      var r: Result<Loaded<Fallback.Snapshot<F>>, string> := if a.LoaderReturns? then Ok(a.loaded) else Err(a.error);
      assert LoaderEnds(states, j, ns, policy, src, ask, r);
      var found :| LookedUp(states, j, ns, policy, src, ask.q, found) && r == Fallback.LoadWith(src, ask.q, ask.first, found);
      LookupsFindAnswers(states, actions, ns, policy, src, ask.q, others, j, found);
      var at := Fallback.LoadWithIsAnswer(src, ask.q, ask.first, found);
      Fallback.SnapshotKey(src, ns, others, policy, ask.q, at);
      SnapshotCallSlot(states, actions, ns, policy, src, dataset, asks, others, j, a.call);
    }
  }

  lemma {:induction false} SnapshotLoadersAreExact<F(!new)>(states: seq<System<Fallback.Snapshot<F>>>,
      actions: seq<Action<Fallback.Snapshot<F>>>, ns: Namespace, policy: Policy, src: Fallback.Source<F>, dataset: string,
      asks: map<nat, SnapshotAsk>, others: Slot -> Result<Payload<Fallback.Snapshot<F>>, string>, i: nat)
    requires SnapshotRun(states, actions, ns, policy, src, dataset, asks, others) && i < |states|
    ensures forall j :: 0 <= j < i ==> Exact(states[j], actions[j], Fallback.SnapshotAnswers(src, ns, dataset, others))
  {
    if i > 0 {
      SnapshotLoadersAreExact(states, actions, ns, policy, src, dataset, asks, others, i - 1);
      SnapshotLoaderIsExact(states, actions, ns, policy, src, dataset, asks, others, i - 1);
      hide Exact, Fallback.SnapshotAnswers, SnapshotStep;
    }
  }

  /** Whatever else goes on, a finished call for a snapshot has returned or raised the reference answer for the resolution it
      asked for, even if its loader took a coarser candidate from the cache that another call had just put there. */
  lemma SnapshotCallsAnswer<F(!new)>(states: seq<System<Fallback.Snapshot<F>>>, actions: seq<Action<Fallback.Snapshot<F>>>, ns: Namespace,
      policy: Policy, src: Fallback.Source<F>, dataset: string, asks: map<nat, SnapshotAsk>,
      others: Slot -> Result<Payload<Fallback.Snapshot<F>>, string>, i: nat, c: nat)
    requires SnapshotRun(states, actions, ns, policy, src, dataset, asks, others)
    requires i < |states| && c in asks && c < |states[i].calls| && states[i].calls[c].Done?
    ensures states[i].calls[c].outcome == OutcomeOf(SnapshotAskAnswer(src, asks[c]))
  {
    var answers := Fallback.SnapshotAnswers(src, ns, dataset, others);
    hide Fallback.SnapshotAnswers, SnapshotAskAnswer, AskedSnapshot, PolicyKey, SnapshotStep, Exact, Enabled, Initial;
    SnapshotLoadersAreExact(states, actions, ns, policy, src, dataset, asks, others, i);
    OutcomesAreAnswers(states, actions, i, answers);
    SnapshotCallSlot(states, actions, ns, policy, src, dataset, asks, others, i, c);
  }
}
