/** Time to live: which commit a lookup answers from, and how old it may be, in every run of the single-flight protocol. */
module SnapshotExpiry {
  import opened Prelude
  import opened Sequences
  import opened SnapshotStore
  import opened SnapshotInvariants
  import opened SingleFlight

  // ----- one lookup -----------------------------------------------------------------------------------------------------

  /** A committed load is found under its own key, unless an alias leads elsewhere, exactly until its time to live is over. */
  lemma CommittedIsFound<T(!new)>(s: Store<T>, ns: Namespace, policy: Policy, requested: Key, actual: Key, loaded: Loaded<T>,
      committedAt: real, reader: Policy, now: real)
    requires Valid(s) && policy.maxEntries >= 1 && (ns in s.aliases ==> actual !in s.aliases[ns])
    ensures Resolve(Commit(s, ns, policy, requested, actual, loaded, committedAt), ns, reader, actual, now).1 ==
            if reader.ttl.None? || now - committedAt <= reader.ttl.value then Some(loaded) else None
  {
    hide Commit, Valid, Resolve, Within;
    var t := Commit(s, ns, policy, requested, actual, loaded, committedAt);
    CommitBounds(s, ns, policy, requested, actual, loaded, committedAt);
    CommitValid(s, ns, policy, requested, actual, loaded, committedAt);
    ResolveFinds(t, ns, reader, actual, now);
    CommitAliases(s, ns, policy, requested, actual, loaded, committedAt);
  }

  lemma CommitAliases<T(!new)>(s: Store<T>, ns: Namespace, policy: Policy, requested: Key, actual: Key, loaded: Loaded<T>, now: real)
    requires Valid(s) && (ns in s.aliases ==> actual !in s.aliases[ns])
    ensures ActualKey(Commit(s, ns, policy, requested, actual, loaded, now), ns, actual) == actual
  {
    hide Commit, Valid;
    CommitValid(s, ns, policy, requested, actual, loaded, now);
  }

  // ----- which commit an entry comes from ------------------------------------------------------------------------------

  /** The load that this step commits, if it commits one under this slot: when, and what. */
  ghost predicate Commits<T>(s: System<T>, a: Action<T>, slot: Slot)
    requires Enabled(s, a)
  {
    a.LoaderReturns? && s.calls[a.call].slot.0 == slot.0
    && PolicyKey(s.calls[a.call].policy, a.loaded.identity) == Ok(slot.1)
  }

  /** A snapshot counts for its rows, an empty or uncounted one for one. */
  function Rows<T>(payload: Payload<T>): int {
    match payload.rowCount
    case Some(n) => if n == 0 then 1 else n
    case None => 1
  }

  /** The entry under this slot, if there is one, is what step j committed there. */
  ghost predicate FromCommit<T>(states: seq<System<T>>, actions: seq<Action<T>>, i: nat, slot: Slot, j: nat)
    requires Run(states, actions) && i < |states|
  {
    Live(states[i].store.entries, slot) ==>
      && j < i && Commits(states[j], actions[j], slot)
      && (forall k :: j < k < i ==> !Commits(states[k], actions[k], slot))
      && EntryAt(states[i].store.entries, slot).createdAt == actions[j].now
      && EntryAt(states[i].store.entries, slot).identity == actions[j].loaded.identity
      && EntryAt(states[i].store.entries, slot).payload == actions[j].loaded.payload
      && EntryAt(states[i].store.entries, slot).rowWeight == Rows(actions[j].loaded.payload)
  }

  /** A step that commits nothing under a slot leaves its entry as it is or drops it. */
  lemma OthersKeepEntry<T(!new)>(s: System<T>, a: Action<T>, slot: Slot)
    requires Protocol(s) && Valid(s.store) && Enabled(s, a) && !Commits(s, a, slot)
    ensures Live(Next(s, a).store.entries, slot) ==>
              Live(s.store.entries, slot) && EntryAt(Next(s, a).store.entries, slot) == EntryAt(s.store.entries, slot)
  {
    hide Valid, Resolve, Commit, Configure, Clear, PolicyKey;
    match a
    case Enter(c, ns, policy, identity, now) =>
      if PolicyKey(policy, identity).Ok? {
        ResolveValid(s.store, ns, policy, PolicyKey(policy, identity).value, now);
      }
    case LoaderReturns(c, loaded, now) =>
      var call := s.calls[c];
      var actual := PolicyKey(call.policy, loaded.identity);
      if actual.Ok? {
        assert slot != (call.slot.0, actual.value);
        CommitOthers(s.store, call.slot.0, call.policy, call.slot.1, actual.value, loaded, now, slot);
      }
    case Lookup(ns, policy, identity, now) =>
      ResolveValid(s.store, ns, policy, PolicyKey(policy, identity).value, now);
    case Reconfigure(budget) =>
      ConfigureSpec(s.store, budget);
    case ClearCache(ns) =>
      ClearSpec(s.store, ns, slot);
    case _ =>
  }

  lemma CommitOthers<T(!new)>(s: Store<T>, ns: Namespace, policy: Policy, requested: Key, actual: Key, loaded: Loaded<T>, now: real, slot: Slot)
    requires Valid(s) && slot != (ns, actual)
    ensures var t := Commit(s, ns, policy, requested, actual, loaded, now);
            Live(t.entries, slot) ==> Live(s.entries, slot) && EntryAt(t.entries, slot) == EntryAt(s.entries, slot)
  {
    hide Commit, Insert, Valid, Remove;
    CommitValid(s, ns, policy, requested, actual, loaded, now);
    InsertEntries(s, ns, requested, actual, NewEntry(loaded, now), slot);
    ClearedValid(s, ns, actual);
  }

  /** A commit is stored: nothing it evicts is the entry itself. */
  lemma CommitIsStored<T(!new)>(s: System<T>, a: Action<T>, slot: Slot)
    requires Protocol(s) && Valid(s.store) && Enabled(s, a) && Commits(s, a, slot)
    ensures var store := Next(s, a).store;
            && Live(store.entries, slot) && EntryAt(store.entries, slot).createdAt == a.now
            && EntryAt(store.entries, slot).identity == a.loaded.identity && EntryAt(store.entries, slot).payload == a.loaded.payload
            && EntryAt(store.entries, slot).rowWeight == Rows(a.loaded.payload)
  {
    hide Valid, Commit, PolicyKey, Live, EntryAt;
    var call := s.calls[a.call];
    assert CallOk(s, call, a.call);
    CommitBounds(s.store, call.slot.0, call.policy, call.slot.1, slot.1, a.loaded, a.now);
  }

  /** Every entry of every reachable state is the last commit of the run under its slot. */
  lemma {:induction false} EntriesAreLastCommits<T(!new)>(states: seq<System<T>>, actions: seq<Action<T>>, i: nat, slot: Slot) returns (j: nat)
    requires Run(states, actions) && i < |states|
    ensures FromCommit(states, actions, i, slot, j)
  {
    j := 0;
    if i > 0 {
      j := EntriesAreLastCommits(states, actions, i - 1, slot);
      RunInvariant(states, actions, i - 1);
      hide Next, Enabled, Protocol, Valid, Live, EntryAt, Initial, Commits;
      if Commits(states[i - 1], actions[i - 1], slot) {
        CommitIsStored(states[i - 1], actions[i - 1], slot);
        j := i - 1;
      } else {
        OthersKeepEntry(states[i - 1], actions[i - 1], slot);
      }
    }
  }

  // ----- what is answered ----------------------------------------------------------------------------------------------

  /** In every reachable state a lookup finds the last load committed under the slot its key leads to, if that is still there,
      exactly when the reader's policy has no time to live or the commit is no longer ago than that. */
  lemma LookupIff<T(!new)>(states: seq<System<T>>, actions: seq<Action<T>>, i: nat, ns: Namespace, policy: Policy, key: Key, now: real)
    returns (j: nat)
    requires Run(states, actions) && i < |states|
    ensures var store := states[i].store;
            var slot := (ns, if ns in store.aliases && key in store.aliases[ns] then store.aliases[ns][key] else key);
            var found := Resolve(store, ns, policy, key, now).1;
            && FromCommit(states, actions, i, slot, j)
            && (found.Some? <==> Live(store.entries, slot) && (policy.ttl.None? || now - actions[j].now <= policy.ttl.value))
            && (found.Some? ==> found == Some(actions[j].loaded))
  {
    var store := states[i].store;
    RunInvariant(states, actions, i);
    ResolveFinds(store, ns, policy, key, now);
    var slot := (ns, if ns in store.aliases && key in store.aliases[ns] then store.aliases[ns][key] else key);
    assert slot == (ns, ActualKey(store, ns, key));
    hide Resolve, Run, Protocol, Valid, ActualKey;
    j := EntriesAreLastCommits(states, actions, i, slot);
  }

  /** No call answers at once from a commit older than its policy's time to live, nor ever with anything that no loader
      returned. */
  lemma HitsAreRecent<T(!new)>(states: seq<System<T>>, actions: seq<Action<T>>, i: nat) returns (j: nat)
    requires Run(states, actions) && i < |actions| && actions[i].Enter?
    ensures var call := states[i + 1].calls[actions[i].call];
            call.Done? && call.outcome.Returned? ==>
              && j < i && actions[j].LoaderReturns? && call.outcome.payload == actions[j].loaded.payload
              && (actions[i].policy.ttl.Some? ==> actions[i].now - actions[j].now <= actions[i].policy.ttl.value)
  {
    var a := actions[i];
    j := 0;
    if PolicyKey(a.policy, a.identity).Ok? {
      j := LookupIff(states, actions, i, a.ns, a.policy, PolicyKey(a.policy, a.identity).value, a.now);
    }
    hide Resolve, PolicyKey;
  }

  // ----- what a step does to calls and entries ---------------------------------------------------------------------------

  /** Some call is loading this slot, or has loaded it and not yet left. */
  ghost predicate UnderWay<T>(s: System<T>, slot: Slot) {
    exists c :: 0 <= c < |s.calls| && (s.calls[c].Loading? || s.calls[c].Finishing?) && s.calls[c].slot == slot
  }

  lemma UnderWayIff<T(!new)>(s: System<T>, slot: Slot)
    requires Protocol(s)
    ensures UnderWay(s, slot) <==> slot in s.inflight
  {
    if slot in s.inflight {
      assert SlotOk(s, slot, s.inflight[slot]);
    }
    if UnderWay(s, slot) {
      var c :| 0 <= c < |s.calls| && (s.calls[c].Loading? || s.calls[c].Finishing?) && s.calls[c].slot == slot;
      assert CallOk(s, s.calls[c], c);
    }
  }

  /** A call is answered at once exactly when the entry that its key leads to is live and not too old; otherwise it waits for the
      load under way for its key, or becomes the one that loads. */
  lemma EnterIff<T(!new)>(states: seq<System<T>>, actions: seq<Action<T>>, i: nat) returns (j: nat)
    requires Run(states, actions) && i < |actions| && actions[i].Enter? && PolicyKey(actions[i].policy, actions[i].identity).Ok?
    ensures var a, store := actions[i], states[i].store;
            var key := PolicyKey(a.policy, a.identity).value;
            var slot := (a.ns, if a.ns in store.aliases && key in store.aliases[a.ns] then store.aliases[a.ns][key] else key);
            var call := states[i + 1].calls[a.call];
            && FromCommit(states, actions, i, slot, j)
            && if Live(store.entries, slot) && (a.policy.ttl.None? || a.now - actions[j].now <= a.policy.ttl.value) then
                 call.Done? && call.outcome == Returned(actions[j].loaded.payload)
               else if UnderWay(states[i], (a.ns, key)) then call.Waiting? && call.slot == (a.ns, key)
               else call.Loading? && call.slot == (a.ns, key) && call.policy == a.policy
  {
    var a := actions[i];
    var key := PolicyKey(a.policy, a.identity).value;
    j := LookupIff(states, actions, i, a.ns, a.policy, key, a.now);
    RunInvariant(states, actions, i);
    UnderWayIff(states[i], (a.ns, key));
    hide Resolve, PolicyKey, Protocol, Valid, FromCommit, UnderWay, Live;
  }

  /** Clearing forgets exactly the entries of its namespace, or all of them. */
  lemma ClearForgets<T(!new)>(s: System<T>, which: Option<Namespace>, slot: Slot)
    requires Valid(s.store)
    ensures var after := Next(s, ClearCache(which)).store;
            Live(after.entries, slot) <==> Live(s.store.entries, slot) && which.Some? && which.value != slot.0
  {
    hide Clear, Valid, Live, Entered, Committed, Failed, Resolve, Configure, Within;
    ClearSpec(s.store, which, slot);
  }

  /** A new budget takes hold at once. */
  lemma BudgetTakesHold<T(!new)>(s: System<T>, budget: Option<nat>)
    requires Valid(s.store) && Enabled(s, Reconfigure(budget))
    ensures var after := Next(s, Reconfigure(budget)).store;
            after.budget == budget && (budget.Some? ==> after.totalRows <= budget.value || |after.lru| <= 1)
  {
    hide Configure, Valid, Entered, Committed, Failed, Resolve, Clear, Within;
    ConfigureSpec(s.store, budget);
  }

  /** A hit becomes the most recent entry and leaves the others in their order; an entry that is too old is gone afterwards. */
  lemma LookupLeaves<T(!new)>(s: Store<T>, ns: Namespace, policy: Policy, key: Key, now: real, slot: Slot, older: seq<Slot>, newer: seq<Slot>)
    requires Valid(s) && slot == (ns, if ns in s.aliases && key in s.aliases[ns] then s.aliases[ns][key] else key)
    requires s.lru == older + [slot] + newer
    ensures var (t, found) := Resolve(s, ns, policy, key, now);
            t.lru == if found.Some? then older + newer + [slot] else older + newer
  {
    TargetIs(s, ns, key, slot);
    NoDupLru(s);
    hide Resolve, Valid, ActualKey, NoDup;
    WithoutSplit(older, slot, newer);
    ResolveValid(s, ns, policy, key, now);
    if Resolve(s, ns, policy, key, now).1.None? {
      assert slot in s.lru;
      TooOldIsRemoved(s, ns, policy, key, now);
    }
  }

  /** The same of the two steps of a run that look something up. */
  lemma LookupStepLeaves<T(!new)>(s: System<T>, a: Action<T>, slot: Slot, older: seq<Slot>, newer: seq<Slot>)
    requires Valid(s.store) && Enabled(s, a) && (a.Enter? || a.Lookup?) && PolicyKey(a.policy, a.identity).Ok?
    requires var key := PolicyKey(a.policy, a.identity).value;
             slot == (a.ns, if a.ns in s.store.aliases && key in s.store.aliases[a.ns] then s.store.aliases[a.ns][key] else key)
    requires Live(s.store.entries, slot) && s.store.lru == older + [slot] + newer
    ensures Next(s, a).store.lru ==
            if a.policy.ttl.None? || a.now - EntryAt(s.store.entries, slot).createdAt <= a.policy.ttl.value
            then older + newer + [slot] else older + newer
  {
    var key := PolicyKey(a.policy, a.identity).value;
    TargetIs(s.store, a.ns, key, slot);
    hide Valid, Committed, Failed, Resolve, Clear, Configure, Within, ActualKey, PolicyKey, Live, EntryAt;
    LookupLeaves(s.store, a.ns, a.policy, key, a.now, slot, older, newer);
    ResolveFinds(s.store, a.ns, a.policy, key, a.now);
  }

  lemma TargetIs<T(!new)>(s: Store<T>, ns: Namespace, key: Key, slot: Slot)
    requires slot == (ns, if ns in s.aliases && key in s.aliases[ns] then s.aliases[ns][key] else key)
    ensures slot == (ns, ActualKey(s, ns, key))
  {
  }

  lemma NoDupLru<T(!new)>(s: Store<T>)
    requires Valid(s)
    ensures NoDup(s.lru)
  {
  }

  lemma TooOldIsRemoved<T(!new)>(s: Store<T>, ns: Namespace, policy: Policy, key: Key, now: real)
    requires Valid(s) && (ns, ActualKey(s, ns, key)) in s.lru && Resolve(s, ns, policy, key, now).1.None?
    ensures Resolve(s, ns, policy, key, now).0.lru == Without(s.lru, (ns, ActualKey(s, ns, key)))
  {
    assert Live(s.entries, (ns, ActualKey(s, ns, key)));
  }

  lemma {:induction false} WithoutSplit<T(!new)>(before: seq<T>, x: T, after: seq<T>)
    requires NoDup(before + [x] + after)
    ensures Without(before + [x] + after, x) == before + after
  {
    var whole := before + [x] + after;
    if before == [] {
      assert whole[1..] == after;
      assert x !in after by {
        assert forall i :: 0 <= i < |after| ==> whole[i + 1] == after[i];
      }
      NotThere(after, x);
    } else {
      assert whole[1..] == before[1..] + [x] + after;
      assert whole[|before|] == x && whole[0] != x;
      assert NoDup(whole[1..]);
      WithoutSplit(before[1..], x, after);
      assert [before[0]] + (before[1..] + after) == before + after;
    }
  }

  lemma {:induction false} NotThere<T(!new)>(s: seq<T>, x: T)
    requires x !in s
    ensures Without(s, x) == s
  {
    if s != [] {
      NotThere(s[1..], x);
    }
  }
}
