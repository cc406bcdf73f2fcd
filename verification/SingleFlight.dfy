/** `get_or_load` as a protocol between threads. Every locked section is one step; between its locked sections a
    call runs its loader or sleeps on another call's event, while lookups, commits, reconfiguration and clearing by
    others go on. Calls are numbered; any number of them run at once. */
module SingleFlight {
  import opened Prelude
  import opened SnapshotStore
  import opened SnapshotInvariants

  datatype Outcome<T> = Returned(payload: Payload<T>) | Raised(error: string)

  datatype Load<T> = Load(slot: Slot, owner: nat, event: bool, result: Option<Payload<T>>, error: Option<string>)

  datatype Call<T> =
    | Idle
    | Loading(slot: Slot, policy: Policy, id: nat)
    | Finishing(slot: Slot, id: nat, outcome: Outcome<T>)
    | Waiting(slot: Slot, id: nat)
    | Done(request: Option<Slot>, via: Option<nat>, outcome: Outcome<T>)

  datatype System<T> = System(store: Store<T>, inflight: map<Slot, nat>, loads: seq<Load<T>>, calls: seq<Call<T>>)

  datatype Action<T> =
    | Enter(call: nat, ns: Namespace, policy: Policy, identity: Identity, now: real)
    | LoaderReturns(call: nat, loaded: Loaded<T>, now: real)
    | LoaderRaises(call: nat, error: string)
    | Leave(call: nat)
    | Wake(call: nat)
    | Lookup(ns: Namespace, policy: Policy, identity: Identity, now: real)
    | Reconfigure(budget: Option<nat>)
    | ClearCache(which: Option<Namespace>)

  const NO_RESULT := "snapshot cache load completed without a result"

  /** What a waiter makes of a load once its event is set: error first, then result, then the complaint. */
  function WaiterOutcome<T>(load: Load<T>): Outcome<T> {
    if load.error.Some? then Raised(load.error.value)
    else if load.result.Some? then Returned(load.result.value)
    else Raised(NO_RESULT)
  }

  predicate Enabled<T>(s: System<T>, a: Action<T>) {
    match a
    case Enter(c, _, policy, _, _) => c < |s.calls| && s.calls[c].Idle? && policy.enabled && policy.maxEntries >= 1
    case LoaderReturns(c, _, _) => c < |s.calls| && s.calls[c].Loading? && s.calls[c].id < |s.loads|
    case LoaderRaises(c, _) => c < |s.calls| && s.calls[c].Loading? && s.calls[c].id < |s.loads|
    case Leave(c) => c < |s.calls| && s.calls[c].Finishing? && s.calls[c].id < |s.loads|
    case Wake(c) => c < |s.calls| && s.calls[c].Waiting? && s.calls[c].id < |s.loads| && s.loads[s.calls[c].id].event
    case Lookup(_, policy, identity, _) => policy.enabled && PolicyKey(policy, identity).Ok?
    case Reconfigure(budget) => budget.Some? ==> budget.value >= 1
    case ClearCache(_) => true
  }

  /** First locked section: a hit answers at once; otherwise the call joins the load in flight or starts one. */
  function Entered<T>(s: System<T>, c: nat, ns: Namespace, policy: Policy, identity: Identity, now: real): System<T>
    requires c < |s.calls|
  {
    var key := PolicyKey(policy, identity);
    if key.Err? then s.(calls := s.calls[c := Done(None, None, Raised(key.error))])
    else
      var slot := (ns, key.value);
      var (store, found) := Resolve(s.store, ns, policy, key.value, now);
      if found.Some? then
        s.(store := store, calls := s.calls[c := Done(Some(slot), None, Returned(found.value.payload))])
      else if slot in s.inflight then
        s.(store := store, calls := s.calls[c := Waiting(slot, s.inflight[slot])])
      else
        System(store, s.inflight[slot := |s.loads|], s.loads + [Load(slot, c, false, None, None)],
               s.calls[c := Loading(slot, policy, |s.loads|)])
  }

  function Failed<T>(s: System<T>, c: nat, error: string): System<T>
    requires c < |s.calls| && s.calls[c].Loading? && s.calls[c].id < |s.loads|
  {
    var call := s.calls[c];
    s.(loads := s.loads[call.id := s.loads[call.id].(error := Some(error))],
       calls := s.calls[c := Finishing(call.slot, call.id, Raised(error))])
  }

  /** Second locked section: the load is remembered and becomes the result; an actual identity without its declared
      roles raises instead. */
  function Committed<T>(s: System<T>, c: nat, loaded: Loaded<T>, now: real): System<T>
    requires c < |s.calls| && s.calls[c].Loading? && s.calls[c].id < |s.loads|
  {
    var call := s.calls[c];
    var actual := PolicyKey(call.policy, loaded.identity);
    if actual.Err? then Failed(s, c, actual.error)
    else
      s.(store := Commit(s.store, call.slot.0, call.policy, call.slot.1, actual.value, loaded, now),
         loads := s.loads[call.id := s.loads[call.id].(result := Some(loaded.payload))],
         calls := s.calls[c := Finishing(call.slot, call.id, Returned(loaded.payload))])
  }

  function Next<T>(s: System<T>, a: Action<T>): System<T>
    requires Enabled(s, a)
  {
    match a
    case Enter(c, ns, policy, identity, now) => Entered(s, c, ns, policy, identity, now)
    case LoaderReturns(c, loaded, now) => Committed(s, c, loaded, now)
    case LoaderRaises(c, error) => Failed(s, c, error)
    case Leave(c) =>
      var call := s.calls[c];
      s.(inflight := s.inflight - {call.slot},
         loads := s.loads[call.id := s.loads[call.id].(event := true)],
         calls := s.calls[c := Done(Some(call.slot), Some(call.id), call.outcome)])
    case Wake(c) =>
      var call := s.calls[c];
      s.(calls := s.calls[c := Done(Some(call.slot), Some(call.id), WaiterOutcome(s.loads[call.id]))])
    case Lookup(ns, policy, identity, now) =>
      s.(store := Resolve(s.store, ns, policy, PolicyKey(policy, identity).value, now).0)
    case Reconfigure(budget) => s.(store := Configure(s.store, budget))
    case ClearCache(ns) => s.(store := Clear(s.store, ns))
  }

  // ----- the invariant --------------------------------------------------------------------------------------

  predicate Owns<T>(call: Call<T>, slot: Slot, id: nat) {
    (call.Loading? || call.Finishing?) && call.slot == slot && call.id == id
  }

  ghost predicate CallOk<T>(s: System<T>, call: Call<T>, c: nat) {
    match call
    case Idle => true
    case Loading(slot, policy, id) =>
      slot in s.inflight && s.inflight[slot] == id && id < |s.loads| && policy.maxEntries >= 1
      && s.loads[id] == Load(slot, c, false, None, None)
    case Finishing(slot, id, outcome) =>
      slot in s.inflight && s.inflight[slot] == id && id < |s.loads|
      && s.loads[id].slot == slot && s.loads[id].owner == c && !s.loads[id].event
      && (s.loads[id].result.Some? || s.loads[id].error.Some?) && WaiterOutcome(s.loads[id]) == outcome
    case Waiting(slot, id) =>
      id < |s.loads| && s.loads[id].slot == slot
    case Done(request, via, outcome) =>
      via.Some? ==> request.Some? && via.value < |s.loads| && s.loads[via.value].slot == request.value
                    && s.loads[via.value].event && WaiterOutcome(s.loads[via.value]) == outcome
  }

  ghost predicate LoadOk<T>(s: System<T>, load: Load<T>, id: nat) {
    if load.event then load.result.Some? <==> load.error.None?
    else load.slot in s.inflight && s.inflight[load.slot] == id
  }

  ghost predicate SlotOk<T>(s: System<T>, slot: Slot, id: nat) {
    && id < |s.loads| && s.loads[id].slot == slot && !s.loads[id].event
    && s.loads[id].owner < |s.calls| && Owns(s.calls[s.loads[id].owner], slot, id)
    && (s.loads[id].result.None? || s.loads[id].error.None?)
  }

  ghost predicate Protocol<T>(s: System<T>) {
    && (forall c :: 0 <= c < |s.calls| ==> CallOk(s, s.calls[c], c))
    && (forall id :: 0 <= id < |s.loads| ==> LoadOk(s, s.loads[id], id))
    && (forall slot :: slot in s.inflight ==> SlotOk(s, slot, s.inflight[slot]))
  }

  ghost predicate Initial<T>(s: System<T>) {
    s.store == EmptyStore() && s.inflight == map[] && s.loads == [] && forall c :: 0 <= c < |s.calls| ==> s.calls[c].Idle?
  }

  lemma ProtocolNext<T(!new)>(s: System<T>, a: Action<T>)
    requires Protocol(s) && Enabled(s, a)
    ensures Protocol(Next(s, a))
  {
    var t := Next(s, a);
    match a
    case Enter(c, ns, policy, identity, now) =>
      EnterProtocol(s, c, ns, policy, identity, now);
    case LoaderReturns(c, loaded, now) =>
      SettleProtocol(s, t, c);
    case LoaderRaises(c, error) =>
      SettleProtocol(s, t, c);
    case Leave(c) =>
      LeaveProtocol(s, c);
    case Wake(c) =>
    case Lookup(_, _, _, _) =>
    case Reconfigure(_) =>
    case ClearCache(_) =>
  }

  lemma EnterProtocol<T(!new)>(s: System<T>, c: nat, ns: Namespace, policy: Policy, identity: Identity, now: real)
    requires Protocol(s) && c < |s.calls| && s.calls[c].Idle? && policy.maxEntries >= 1
    ensures Protocol(Entered(s, c, ns, policy, identity, now))
  {
    var t := Entered(s, c, ns, policy, identity, now);
    if |t.loads| == |s.loads| {
      JoinProtocol(s, t, c);
    } else {
      StartProtocol(s, t, c, (ns, PolicyKey(policy, identity).value), policy);
    }
  }

  lemma JoinProtocol<T(!new)>(s: System<T>, t: System<T>, c: nat)
    requires Protocol(s) && c < |s.calls| && s.calls[c].Idle?
    requires t.loads == s.loads && t.inflight == s.inflight && |t.calls| == |s.calls| && t.calls == s.calls[c := t.calls[c]]
    requires || (t.calls[c].Done? && t.calls[c].via.None?)
             || (t.calls[c].Waiting? && t.calls[c].slot in s.inflight && t.calls[c].id == s.inflight[t.calls[c].slot])
    ensures Protocol(t)
  {
    forall i | 0 <= i < |t.calls| ensures CallOk(t, t.calls[i], i) {
      assert CallOk(s, s.calls[i], i);
      if t.calls[c].Waiting? {
        assert SlotOk(s, t.calls[c].slot, t.calls[c].id);
      }
    }
    forall id | 0 <= id < |t.loads| ensures LoadOk(t, t.loads[id], id) {
      assert LoadOk(s, s.loads[id], id);
    }
    forall slot | slot in t.inflight ensures SlotOk(t, slot, t.inflight[slot]) {
      assert SlotOk(s, slot, s.inflight[slot]);
    }
  }

  lemma StartProtocol<T(!new)>(s: System<T>, t: System<T>, c: nat, slot: Slot, policy: Policy)
    requires Protocol(s) && c < |s.calls| && s.calls[c].Idle? && slot !in s.inflight && policy.maxEntries >= 1
    requires t.loads == s.loads + [Load(slot, c, false, None, None)] && t.inflight == s.inflight[slot := |s.loads|]
    requires t.calls == s.calls[c := Loading(slot, policy, |s.loads|)]
    ensures Protocol(t)
  {
    forall i | 0 <= i < |t.calls| ensures CallOk(t, t.calls[i], i) {
      assert CallOk(s, s.calls[i], i);
    }
    forall id | 0 <= id < |t.loads| ensures LoadOk(t, t.loads[id], id) {
      if id < |s.loads| {
        assert LoadOk(s, s.loads[id], id);
      }
    }
    forall other | other in t.inflight ensures SlotOk(t, other, t.inflight[other]) {
      if other != slot {
        assert SlotOk(s, other, s.inflight[other]);
      }
    }
  }

  lemma SettleProtocol<T(!new)>(s: System<T>, t: System<T>, c: nat)
    requires Protocol(s) && c < |s.calls| && s.calls[c].Loading? && s.calls[c].id < |s.loads|
    requires var id := s.calls[c].id;
      && t.inflight == s.inflight && |t.loads| == |s.loads| && t.loads == s.loads[id := t.loads[id]]
      && t.calls == s.calls[c := Finishing(s.calls[c].slot, id, WaiterOutcome(t.loads[id]))]
      && (t.loads[id] == s.loads[id].(result := t.loads[id].result) || t.loads[id] == s.loads[id].(error := t.loads[id].error))
      && (t.loads[id].result.Some? || t.loads[id].error.Some?)
    ensures Protocol(t)
  {
    assert CallOk(s, s.calls[c], c);
    forall i | 0 <= i < |t.calls| ensures CallOk(t, t.calls[i], i) {
      assert CallOk(s, s.calls[i], i);
    }
    forall id | 0 <= id < |t.loads| ensures LoadOk(t, t.loads[id], id) {
      assert LoadOk(s, s.loads[id], id);
    }
    forall slot | slot in t.inflight ensures SlotOk(t, slot, t.inflight[slot]) {
      assert SlotOk(s, slot, s.inflight[slot]);
    }
  }

  lemma LeaveProtocol<T(!new)>(s: System<T>, c: nat)
    requires Protocol(s) && Enabled(s, Leave(c))
    ensures Protocol(Next(s, Leave(c)))
  {
    var t := Next(s, Leave(c));
    assert CallOk(s, s.calls[c], c);
    assert SlotOk(s, s.calls[c].slot, s.calls[c].id);
    forall i | 0 <= i < |t.calls| ensures CallOk(t, t.calls[i], i) {
      assert CallOk(s, s.calls[i], i);
    }
    forall id | 0 <= id < |t.loads| ensures LoadOk(t, t.loads[id], id) {
      assert LoadOk(s, s.loads[id], id);
    }
    forall slot | slot in t.inflight ensures SlotOk(t, slot, t.inflight[slot]) {
      assert SlotOk(s, slot, s.inflight[slot]);
    }
  }

  // ----- whole runs --------------------------------------------------------------------------------------------

  ghost predicate Run<T>(states: seq<System<T>>, actions: seq<Action<T>>) {
    && |states| == |actions| + 1 && Initial(states[0])
    && forall i :: 0 <= i < |actions| ==> Enabled(states[i], actions[i]) && states[i + 1] == Next(states[i], actions[i])
  }

  lemma StoreNext<T(!new)>(s: System<T>, a: Action<T>)
    requires Protocol(s) && Valid(s.store) && Enabled(s, a)
    ensures Valid(Next(s, a).store)
  {
    match a
    case Enter(c, ns, policy, identity, now) =>
      if PolicyKey(policy, identity).Ok? {
        ResolveValid(s.store, ns, policy, PolicyKey(policy, identity).value, now);
      }
    case LoaderReturns(c, loaded, now) =>
      var call := s.calls[c];
      if PolicyKey(call.policy, loaded.identity).Ok? {
        CommitValid(s.store, call.slot.0, call.policy, call.slot.1, PolicyKey(call.policy, loaded.identity).value, loaded, now);
      }
    case Lookup(ns, policy, identity, now) =>
      ResolveValid(s.store, ns, policy, PolicyKey(policy, identity).value, now);
    case Reconfigure(budget) => ConfigureSpec(s.store, budget);
    case ClearCache(ns) => ClearSpec(s.store, ns, ("", []));
    case _ =>
  }

  /** In every reachable state of any number of threads the cache structures agree and the protocol invariant holds. */
  lemma {:induction false} RunInvariant<T(!new)>(states: seq<System<T>>, actions: seq<Action<T>>, i: nat)
    requires Run(states, actions) && i < |states|
    ensures Protocol(states[i]) && Valid(states[i].store)
  {
    if i > 0 {
      RunInvariant(states, actions, i - 1);
      ProtocolNext(states[i - 1], actions[i - 1]);
      StoreNext(states[i - 1], actions[i - 1]);
    }
  }

  /** Single flight: at most one call owns the load of a slot, and a slot is in flight exactly while some call does. */
  lemma SingleOwner<T(!new)>(states: seq<System<T>>, actions: seq<Action<T>>, i: nat, slot: Slot)
    requires Run(states, actions) && i < |states|
    ensures forall c, d, m, n | 0 <= c < |states[i].calls| && 0 <= d < |states[i].calls| ::
              Owns(states[i].calls[c], slot, m) && Owns(states[i].calls[d], slot, n) ==> c == d && m == n
    ensures slot in states[i].inflight <==>
            exists c, m :: 0 <= c < |states[i].calls| && Owns(states[i].calls[c], slot, m)
  {
    RunInvariant(states, actions, i);
    var s := states[i];
    forall c: nat, m: nat | c < |s.calls| && Owns(s.calls[c], slot, m)
      ensures slot in s.inflight && s.inflight[slot] == m && s.loads[m].owner == c
    {
      assert CallOk(s, s.calls[c], c);
    }
    if slot in s.inflight {
      assert SlotOk(s, slot, s.inflight[slot]);
      assert Owns(s.calls[s.loads[s.inflight[slot]].owner], slot, s.inflight[slot]);
    }
  }

  /** No waiter is stranded: its load has its event set, with a result or an error and not both, or an owner that has
      not finished. The complaint about a missing result is therefore never raised by a waiter. */
  lemma WaitersAreServed<T(!new)>(states: seq<System<T>>, actions: seq<Action<T>>, i: nat, c: nat)
    requires Run(states, actions) && i < |states| && c < |states[i].calls| && states[i].calls[c].Waiting?
    ensures var (s, call) := (states[i], states[i].calls[c]);
            && call.id < |s.loads| && s.loads[call.id].slot == call.slot
            && if s.loads[call.id].event then s.loads[call.id].result.Some? <==> s.loads[call.id].error.None?
               else s.loads[call.id].owner < |s.calls| && Owns(s.calls[s.loads[call.id].owner], call.slot, call.id)
  {
    RunInvariant(states, actions, i);
    var s := states[i];
    assert CallOk(s, s.calls[c], c);
    var id := s.calls[c].id;
    assert LoadOk(s, s.loads[id], id);
    if !s.loads[id].event {
      assert SlotOk(s, s.loads[id].slot, id);
    }
  }

  /** Everyone served by one load, its owner and all its waiters, gets the same outcome. */
  lemma SharedOutcome<T(!new)>(states: seq<System<T>>, actions: seq<Action<T>>, i: nat, c: nat, d: nat)
    requires Run(states, actions) && i < |states| && c < |states[i].calls| && d < |states[i].calls|
    requires states[i].calls[c].Done? && states[i].calls[d].Done?
    requires states[i].calls[c].via.Some? && states[i].calls[c].via == states[i].calls[d].via
    ensures states[i].calls[c].outcome == states[i].calls[d].outcome && states[i].calls[c].request == states[i].calls[d].request
  {
    RunInvariant(states, actions, i);
    assert CallOk(states[i], states[i].calls[c], c);
    assert CallOk(states[i], states[i].calls[d], d);
  }

  // ----- progress -------------------------------------------------------------------------------------------------

  /** Nothing is stuck: while a call is under way, the owner's loader may return or raise, an owner may leave, or a
      waiter may wake. */
  lemma NoDeadlock<T(!new)>(states: seq<System<T>>, actions: seq<Action<T>>, i: nat, c: nat) returns (a: Action<T>)
    requires Run(states, actions) && i < |states| && c < |states[i].calls|
    requires !states[i].calls[c].Idle? && !states[i].calls[c].Done?
    ensures Enabled(states[i], a) && (a.LoaderRaises? || a.Leave? || a.Wake?)
  {
    RunInvariant(states, actions, i);
    var s := states[i];
    assert CallOk(s, s.calls[c], c);
    var d := c;
    if s.calls[c].Waiting? {
      WaitersAreServed(states, actions, i, c);
      if s.loads[s.calls[c].id].event {
        return Wake(c);
      }
      d := s.loads[s.calls[c].id].owner;
    }
    assert CallOk(s, s.calls[d], d);
    a := if s.calls[d].Loading? then LoaderRaises(d, "") else Leave(d);
  }

  function Rank<T>(call: Call<T>): nat {
    match call
    case Idle => 3
    case Loading(_, _, _) => 2
    case Finishing(_, _, _) => 1
    case Waiting(_, _) => 1
    case Done(_, _, _) => 0
  }

  function TotalRank<T>(calls: seq<Call<T>>): nat {
    if calls == [] then 0 else Rank(calls[0]) + TotalRank(calls[1..])
  }

  predicate IsCallAction<T>(a: Action<T>) {
    a.Enter? || a.LoaderReturns? || a.LoaderRaises? || a.Leave? || a.Wake?
  }

  lemma {:induction false} TotalRankUpdate<T(!new)>(calls: seq<Call<T>>, c: nat, call: Call<T>)
    requires c < |calls|
    ensures TotalRank(calls[c := call]) == TotalRank(calls) - Rank(calls[c]) + Rank(call)
  {
    if c == 0 {
      assert calls[c := call][1..] == calls[1..];
    } else {
      assert calls[c := call][1..] == calls[1..][c - 1 := call];
      TotalRankUpdate(calls[1..], c - 1, call);
    }
  }

  /** Each step a call takes brings all calls closer to their end; steps by others leave the distance alone. */
  lemma StepsDecreaseRank<T(!new)>(s: System<T>, a: Action<T>)
    requires Enabled(s, a)
    ensures if IsCallAction(a) then TotalRank(Next(s, a).calls) < TotalRank(s.calls)
            else Next(s, a).calls == s.calls
    ensures |Next(s, a).calls| == |s.calls|
  {
    if IsCallAction(a) {
      TotalRankUpdate(s.calls, a.call, Next(s, a).calls[a.call]);
      assert Next(s, a).calls == s.calls[a.call := Next(s, a).calls[a.call]];
    }
  }

  function CallSteps<T>(actions: seq<Action<T>>): nat {
    if actions == [] then 0
    else CallSteps(actions[..|actions| - 1]) + if IsCallAction(actions[|actions| - 1]) then 1 else 0
  }

  lemma {:induction false} IdleRank<T(!new)>(calls: seq<Call<T>>)
    requires forall c :: 0 <= c < |calls| ==> calls[c].Idle?
    ensures TotalRank(calls) == 3 * |calls|
  {
    if calls != [] {
      IdleRank(calls[1..]);
    }
  }

  /** A run over n calls holds at most 3n call steps, however much else is interleaved: with `NoDeadlock`, every call
      ends once the loaders do and the threads are scheduled. */
  lemma {:induction false} RunsAreBounded<T(!new)>(states: seq<System<T>>, actions: seq<Action<T>>, i: nat)
    requires Run(states, actions) && i <= |actions|
    ensures |states[i].calls| == |states[0].calls|
    ensures CallSteps(actions[..i]) + TotalRank(states[i].calls) <= 3 * |states[0].calls|
  {
    if i == 0 {
      IdleRank(states[0].calls);
    } else {
      hide Next, Enabled, TotalRank, Initial;
      RunsAreBounded(states, actions, i - 1);
      StepsDecreaseRank(states[i - 1], actions[i - 1]);
      assert actions[..i][..i - 1] == actions[..i - 1];
    }
  }

  // ----- transparency -----------------------------------------------------------------------------------------------

  /** The environment assumption: a loader that returns gives the source's payload for the requested key, and reports an
      actual identity for which the source has the same payload. */
  ghost predicate Honest<T>(s: System<T>, a: Action<T>, source: Slot -> Option<Payload<T>>)
    requires Enabled(s, a)
  {
    a.LoaderReturns? ==>
      var call := s.calls[a.call];
      && source(call.slot) == Some(a.loaded.payload)
      && (PolicyKey(call.policy, a.loaded.identity).Ok? ==>
            source((call.slot.0, PolicyKey(call.policy, a.loaded.identity).value)) == source(call.slot))
  }

  ghost predicate Transparent<T(!new)>(s: System<T>, source: Slot -> Option<Payload<T>>) {
    && Faithful(s.store, source)
    && (forall id :: 0 <= id < |s.loads| ==> s.loads[id].result.Some? ==> source(s.loads[id].slot) == s.loads[id].result)
    && (forall c :: 0 <= c < |s.calls| ==> s.calls[c].Done? && s.calls[c].outcome.Returned? ==>
          s.calls[c].request.Some? && source(s.calls[c].request.value) == Some(s.calls[c].outcome.payload))
  }

  lemma TransparentStore<T(!new)>(s: System<T>, a: Action<T>, source: Slot -> Option<Payload<T>>)
    requires Protocol(s) && Valid(s.store) && Enabled(s, a) && Honest(s, a, source) && Faithful(s.store, source)
    ensures Faithful(Next(s, a).store, source)
  {
    match a
    case Enter(c, ns, policy, identity, now) =>
      if PolicyKey(policy, identity).Ok? {
        ResolveFaithful(s.store, ns, policy, PolicyKey(policy, identity).value, now, source);
      }
    case LoaderReturns(c, loaded, now) =>
      var call := s.calls[c];
      if PolicyKey(call.policy, loaded.identity).Ok? {
        assert (call.slot.0, call.slot.1) == call.slot;
        CommitFaithful(s.store, call.slot.0, call.policy, call.slot.1, PolicyKey(call.policy, loaded.identity).value,
                       loaded, now, source);
      }
    case Lookup(ns, policy, identity, now) =>
      ResolveFaithful(s.store, ns, policy, PolicyKey(policy, identity).value, now, source);
    case Reconfigure(budget) =>
      ConfigureSpec(s.store, budget);
      FaithfulWithin(Configure(s.store, budget), s.store, source);
    case ClearCache(ns) =>
      ClearSpec(s.store, ns, ("", []));
      FaithfulWithin(Clear(s.store, ns), s.store, source);
    case _ =>
  }

  lemma TransparentCalls<T(!new)>(s: System<T>, a: Action<T>, source: Slot -> Option<Payload<T>>)
    requires Protocol(s) && Valid(s.store) && Enabled(s, a) && Honest(s, a, source) && Transparent(s, source)
    ensures Transparent(Next(s, a), source)
  {
    TransparentStore(s, a, source);
    if IsCallAction(a) {
      assert CallOk(s, s.calls[a.call], a.call);
      if a.Enter? && PolicyKey(a.policy, a.identity).Ok? {
        ResolveFaithful(s.store, a.ns, a.policy, PolicyKey(a.policy, a.identity).value, a.now, source);
      }
    }
  }

  /** Cache transparency over every run: with honest loaders, after any interleaving of calls, lookups, commits, expiry,
      eviction, reconfiguration and clearing, whatever a call returned is the source's payload for the key it requested,
      and so is whatever a lookup would find now. */
  lemma {:induction false} CacheTransparency<T(!new)>(states: seq<System<T>>, actions: seq<Action<T>>, i: nat, source: Slot -> Option<Payload<T>>)
    requires Run(states, actions) && i < |states|
    requires forall j :: 0 <= j < i ==> Honest(states[j], actions[j], source)
    ensures Transparent(states[i], source)
    ensures forall ns, policy, key, now :: var found := Resolve(states[i].store, ns, policy, key, now).1;
              found.Some? ==> source((ns, key)) == Some(found.value.payload)
  {
    if i > 0 {
      CacheTransparency(states, actions, i - 1, source);
      RunInvariant(states, actions, i - 1);
      TransparentCalls(states[i - 1], actions[i - 1], source);
    }
    RunInvariant(states, actions, i);
    forall ns, policy, key, now ensures var found := Resolve(states[i].store, ns, policy, key, now).1;
        found.Some? ==> source((ns, key)) == Some(found.value.payload) {
      ResolveFaithful(states[i].store, ns, policy, key, now, source);
    }
  }

  // ----- every outcome ------------------------------------------------------------------------------------------------

  /** What call c asks for, whenever it enters. */
  ghost predicate Asks<T>(actions: seq<Action<T>>, c: nat, ns: Namespace, policy: Policy, identity: Identity) {
    forall j :: 0 <= j < |actions| && actions[j].Enter? && actions[j].call == c ==>
      actions[j].ns == ns && actions[j].policy == policy && actions[j].identity == identity
  }

  ghost predicate AskedFor<T>(call: Call<T>, slot: Slot, policy: Policy) {
    match call
    case Idle => true
    case Loading(s, p, _) => s == slot && p == policy
    case Finishing(s, _, _) => s == slot
    case Waiting(s, _) => s == slot
    case Done(request, _, _) => request == Some(slot)
  }

  /** A call works on the slot it asked for, to its end. */
  lemma {:induction false} CallKeepsItsSlot<T(!new)>(states: seq<System<T>>, actions: seq<Action<T>>, i: nat, c: nat,
      ns: Namespace, policy: Policy, identity: Identity)
    requires Run(states, actions) && i < |states| && Asks(actions, c, ns, policy, identity) && PolicyKey(policy, identity).Ok?
    requires c < |states[i].calls|
    ensures AskedFor(states[i].calls[c], (ns, PolicyKey(policy, identity).value), policy)
  {
    if i > 0 {
      StepsDecreaseRank(states[i - 1], actions[i - 1]);
      CallKeepsItsSlot(states, actions, i - 1, c, ns, policy, identity);
      hide Resolve, Commit, Configure, Clear, PolicyKey, Initial, TotalRank;
    }
  }

  /** The environment assumption for errors too: a loader ends as the answer for the requested slot says. */
  ghost predicate Exact<T>(s: System<T>, a: Action<T>, answers: Slot -> Result<Payload<T>, string>)
    requires Enabled(s, a)
  {
    && (a.LoaderReturns? ==>
          var call := s.calls[a.call];
          var actual := PolicyKey(call.policy, a.loaded.identity);
          && answers(call.slot) == Ok(a.loaded.payload)
          && actual.Ok? && answers((call.slot.0, actual.value)) == answers(call.slot))
    && (a.LoaderRaises? ==> answers(s.calls[a.call].slot) == Err(a.error))
  }

  lemma ExactIsHonest<T>(s: System<T>, a: Action<T>, answers: Slot -> Result<Payload<T>, string>)
    requires Enabled(s, a) && Exact(s, a, answers)
    ensures Honest(s, a, Payloads(answers))
  {
  }

  function OutcomeOf<T>(answer: Result<Payload<T>, string>): Outcome<T> {
    match answer
    case Ok(payload) => Returned(payload)
    case Err(error) => Raised(error)
  }

  ghost predicate LoadsAnswer<T>(s: System<T>, answers: Slot -> Result<Payload<T>, string>) {
    forall id :: 0 <= id < |s.loads| ==>
      && (s.loads[id].result.Some? ==> answers(s.loads[id].slot) == Ok(s.loads[id].result.value))
      && (s.loads[id].error.Some? ==> answers(s.loads[id].slot) == Err(s.loads[id].error.value))
  }

  ghost predicate CallsAnswer<T>(s: System<T>, answers: Slot -> Result<Payload<T>, string>) {
    forall c :: 0 <= c < |s.calls| && s.calls[c].Done? && s.calls[c].request.Some? ==>
      s.calls[c].outcome == OutcomeOf(answers(s.calls[c].request.value))
  }

  lemma AnswersNext<T(!new)>(s: System<T>, a: Action<T>, answers: Slot -> Result<Payload<T>, string>)
    requires Protocol(s) && Valid(s.store) && Enabled(s, a) && Exact(s, a, answers) && Faithful(s.store, Payloads(answers))
    requires LoadsAnswer(s, answers) && CallsAnswer(s, answers)
    ensures LoadsAnswer(Next(s, a), answers) && CallsAnswer(Next(s, a), answers)
  {
    if IsCallAction(a) {
      var call := s.calls[a.call];
      assert CallOk(s, call, a.call);
      if a.Enter? && PolicyKey(a.policy, a.identity).Ok? {
        ResolveFaithful(s.store, a.ns, a.policy, PolicyKey(a.policy, a.identity).value, a.now, Payloads(answers));
      }
      if a.Wake? {
        assert LoadOk(s, s.loads[call.id], call.id);
      }
    }
  }

  /** Every outcome is the answer for the requested slot: with exact loaders, after any interleaving, a finished call has
      returned or raised what its slot's answer says, whether it found it, loaded it or waited for it. */
  lemma {:induction false} OutcomesAreAnswers<T(!new)>(states: seq<System<T>>, actions: seq<Action<T>>, i: nat,
      answers: Slot -> Result<Payload<T>, string>)
    requires Run(states, actions) && i < |states|
    requires forall j :: 0 <= j < i ==> Exact(states[j], actions[j], answers)
    ensures LoadsAnswer(states[i], answers) && CallsAnswer(states[i], answers)
  {
    if i > 0 {
      OutcomesAreAnswers(states, actions, i - 1, answers);
      RunInvariant(states, actions, i - 1);
      forall j | 0 <= j < i ensures Honest(states[j], actions[j], Payloads(answers)) {
        ExactIsHonest(states[j], actions[j], answers);
      }
      CacheTransparency(states, actions, i - 1, Payloads(answers));
      AnswersNext(states[i - 1], actions[i - 1], answers);
    }
  }
}
