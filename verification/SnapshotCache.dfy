/** The canonical snapshot cache as the object whose fields its methods update in place. Each method is the body
    of one locked section; its new state is the matching function of `SnapshotStore`. */
module SnapshotCache {
  import opened Prelude
  import opened Sequences
  import opened SnapshotStore
  import opened SnapshotInvariants

  class CanonicalSnapshotCache<T(!new)> {
    var entries: map<Namespace, Ordered<T>>
    var aliases: map<Namespace, map<Key, Key>>
    var globalLru: seq<Slot>
    var maxTotalRows: Option<nat>
    var totalRows: int

    ghost function State(): Store<T>
      reads this
    {
      Store(entries, aliases, globalLru, maxTotalRows, totalRows)
    }

    ghost predicate Valid()
      reads this
    {
      SnapshotStore.Valid(State())
    }

    constructor ()
      ensures Valid() && State() == EmptyStore()
    {
      entries, aliases, globalLru, maxTotalRows, totalRows := map[], map[], [], None, 0;
    }

    method RemoveLocked(ns: Namespace, key: Key)
      modifies this
      ensures State() == Remove(old(State()), ns, key)
    {
      PopEntry(ns, key);
      globalLru := Without(globalLru, (ns, key));
      if ns in aliases {
        DropAliases(ns, key);
      }
    }

    /** The entry leaves its namespace and the row total; an empty namespace goes too. */
    method PopEntry(ns: Namespace, key: Key)
      modifies this`entries, this`totalRows
      ensures entries == Remove(old(State()), ns, key).entries
      ensures totalRows == Remove(old(State()), ns, key).totalRows
    {
      if ns in entries {
        var d := entries[ns];
        if key in d.items {
          var weight := d.items[key].rowWeight;
          totalRows := if totalRows > weight then totalRows - weight else 0;
        }
        d := Ordered(Without(d.order, key), d.items - {key});
        entries := if d.items == map[] then entries - {ns} else entries[ns := d];
      }
    }

    /** The loop over a copy of the namespace's aliases that pops each one naming the key on either side. */
    method DropAliases(ns: Namespace, key: Key)
      requires ns in aliases
      modifies this`aliases
      ensures aliases == Remove(old(State()), ns, key).aliases
    {
      var known := aliases[ns];
      var pending := known.Keys;
      while pending != {}
        invariant pending <= known.Keys
        invariant ns in aliases && aliases == old(aliases)[ns := aliases[ns]]
        invariant aliases[ns] ==
          map a | a in known && (a in pending || (a != key && known[a] != key)) :: known[a]
        decreases pending
      {
        var a :| a in pending;
        pending := pending - {a};
        if a == key || known[a] == key {
          aliases := aliases[ns := aliases[ns] - {a}];
        }
      }
      assert aliases[ns] == AliasesWithout(known, key);
      if aliases[ns] == map[] {
        aliases := aliases - {ns};
      }
      assert aliases == Remove(old(State()), ns, key).aliases;
    }

    method TouchLocked(ns: Namespace, key: Key)
      requires ns in entries
      modifies this
      ensures State() == Touch(old(State()), ns, key)
    {
      entries := entries[ns := entries[ns].(order := MovedToEnd(entries[ns].order, key))];
      globalLru := MovedToEnd(globalLru, (ns, key));
    }

    method TrimGlobalLocked()
      modifies this
      ensures State() == Trim(old(State()))
    {
      if maxTotalRows.None? {
        return;
      }
      while totalRows > maxTotalRows.value && |globalLru| > 1
        invariant maxTotalRows == old(maxTotalRows) && Trim(State()) == Trim(old(State()))
        decreases |globalLru|
      {
        var (ns, key) := globalLru[0];
        assert globalLru[0] in globalLru;
        RemoveLocked(ns, key);
      }
    }

    /** Replaces the row budget and trims at once: rows within budget, or one entry left; the victims were
        the least recently touched. */
    method Configure(budget: Option<int>) returns (r: Result<(), string>)
      requires Valid()
      modifies this
      ensures Valid()
      ensures r.Err? <==> budget.Some? && budget.value < 1
      ensures r.Err? ==> State() == old(State())
      ensures r.Ok? && budget.Some? ==> totalRows <= budget.value || |globalLru| <= 1
      ensures r.Ok? ==> maxTotalRows == budget && Tail(globalLru, old(globalLru)) && Within(State(), old(State()))
    {
      if budget.Some? && budget.value < 1 {
        return Err("snapshot cache max_total_rows must be positive or null");
      }
      ghost var limit: Option<nat> := if budget.Some? then Some(budget.value) else None;
      ConfigureSpec(State(), limit);
      maxTotalRows := if budget.Some? then Some(budget.value) else None;
      TrimGlobalLocked();
      r := Ok(());
    }

    method ResolveLocked(ns: Namespace, policy: Policy, key: Key, now: real) returns (found: Option<Loaded<T>>)
      requires Valid()
      modifies this
      ensures Valid() && (State(), found) == Resolve(old(State()), ns, policy, key, now)
    {
      ResolveValid(State(), ns, policy, key, now);
      found := FindLocked(ns, policy, key, now);
    }

    method FindLocked(ns: Namespace, policy: Policy, key: Key, now: real) returns (found: Option<Loaded<T>>)
      modifies this
      ensures (State(), found) == Resolve(old(State()), ns, policy, key, now)
    {
      if ns !in entries || entries[ns].items == map[] {
        return None;
      }
      if ns !in aliases {
        aliases := aliases[ns := map[]];
      }
      assert aliases == old(aliases)[ns := if ns in old(aliases) then old(aliases)[ns] else map[]];
      var actual := Target(aliases[ns], key);
      if actual !in entries[ns].items {
        aliases := aliases[ns := aliases[ns] - {key}];
        assert aliases == Resolve(old(State()), ns, policy, key, now).0.aliases;
        return None;
      }
      var entry := entries[ns].items[actual];
      if Expired(entry, policy, now) {
        RemoveLocked(ns, actual);
        return None;
      }
      TouchLocked(ns, actual);
      found := Some(Loaded(entry.identity, entry.payload));
    }

    /** The public lookup: nothing for a disabled policy, an error for an identity without its declared roles. */
    method Get(ns: Namespace, policy: Policy, identity: Identity, now: real) returns (r: Result<Option<Loaded<T>>, string>)
      requires Valid()
      modifies this
      ensures Valid()
      ensures r.Err? <==> policy.enabled && PolicyKey(policy, identity).Err?
      ensures r.Err? || !policy.enabled ==> State() == old(State())
      ensures !policy.enabled ==> r == Ok(None)
      ensures policy.enabled && r.Ok? ==>
        (State(), r.value) == Resolve(old(State()), ns, policy, PolicyKey(policy, identity).value, now)
    {
      if !policy.enabled {
        return Ok(None);
      }
      var key := PolicyKey(policy, identity);
      if key.Err? {
        return Err(key.error);
      }
      var found := ResolveLocked(ns, policy, key.value, now);
      r := Ok(found);
    }

    /** The entry just committed is live and most recent; the namespace bound and the row budget hold. */
    method RememberLocked(ns: Namespace, policy: Policy, requested: Key, loaded: Loaded<T>, now: real)
      returns (r: Result<Loaded<T>, string>)
      requires Valid() && policy.maxEntries >= 1
      modifies this
      ensures Valid()
      ensures r.Err? <==> PolicyKey(policy, loaded.identity).Err?
      ensures r.Err? ==> State() == old(State())
      ensures r.Ok? ==> r.value == loaded
      ensures r.Ok? ==>
        State() == Commit(old(State()), ns, policy, requested, PolicyKey(policy, loaded.identity).value, loaded, now)
      ensures r.Ok? ==>
        var actual := PolicyKey(policy, loaded.identity).value;
        && globalLru != [] && globalLru[|globalLru| - 1] == (ns, actual)
        && EntryCount(State(), ns) <= policy.maxEntries
        && (maxTotalRows.Some? ==> totalRows <= maxTotalRows.value || |globalLru| == 1)
    {
      hide Insert, Evict, Trim, Project, Weight, NoDup, AliasesLive, OrderedValid, PolicyKey, Tail;
      var key := PolicyKey(policy, loaded.identity);
      if key.Err? {
        return Err(key.error);
      }
      var actual := key.value;
      CommitValid(State(), ns, policy, requested, actual, loaded, now);
      CommitBounds(State(), ns, policy, requested, actual, loaded, now);
      InsertLocked(ns, requested, actual, Entry(loaded.identity, loaded.payload, now, RowWeight(loaded.payload)));
      EvictLocked(ns, policy.maxEntries);
      TrimGlobalLocked();
      r := Ok(loaded);
    }

    method InsertLocked(ns: Namespace, requested: Key, actual: Key, entry: Entry<T>)
      modifies this
      ensures State() == Insert(old(State()), ns, requested, actual, entry)
    {
      if ns in entries && actual in entries[ns].items {
        RemoveLocked(ns, actual);
      }
      assert State() == Cleared(old(State()), ns, actual);
      AddEntry(ns, actual, entry);
      AddAlias(ns, requested, actual);
    }

    method AddEntry(ns: Namespace, actual: Key, entry: Entry<T>)
      modifies this`entries, this`totalRows, this`globalLru
      ensures var previous := if ns in old(entries) then old(entries)[ns] else Ordered([], map[]);
        entries == old(entries)[ns := Ordered(MovedToEnd(previous.order, actual), previous.items[actual := entry])]
      ensures totalRows == old(totalRows) + entry.rowWeight
      ensures globalLru == MovedToEnd(old(globalLru), (ns, actual))
    {
      var d := if ns in entries then entries[ns] else Ordered([], map[]);
      entries := entries[ns := Ordered(MovedToEnd(d.order, actual), d.items[actual := entry])];
      totalRows := totalRows + entry.rowWeight;
      globalLru := MovedToEnd(globalLru, (ns, actual));
    }

    method AddAlias(ns: Namespace, requested: Key, actual: Key)
      modifies this`aliases
      ensures var known := if ns in old(aliases) then old(aliases)[ns] else map[];
        aliases == old(aliases)[ns := if requested != actual then known[requested := actual] else known]
    {
      if ns !in aliases {
        aliases := aliases[ns := map[]];
      }
      if requested != actual {
        aliases := aliases[ns := aliases[ns][requested := actual]];
      }
    }

    method EvictLocked(ns: Namespace, maxEntries: nat)
      modifies this
      ensures State() == Evict(old(State()), ns, maxEntries)
    {
      while ns in entries && |entries[ns].order| > maxEntries
        invariant Evict(State(), ns, maxEntries) == Evict(old(State()), ns, maxEntries)
        decreases EntryCount(State(), ns)
      {
        var stale := entries[ns].order[0];
        assert stale in entries[ns].order;
        RemoveLocked(ns, stale);
      }
    }

    /** `get_or_load` by a caller that finds no load in flight: a cached snapshot, or the loader's, remembered.
        A failing loader leaves what the lookup left. */
    method GetOrLoad(ns: Namespace, policy: Policy, identity: Identity, loader: () -> Result<Loaded<T>, string>,
                     lookupAt: real, commitAt: real)
      returns (r: Result<Loaded<T>, string>)
      requires Valid() && (policy.enabled ==> policy.maxEntries >= 1)
      modifies this
      ensures Valid()
      ensures !policy.enabled ==> r == loader() && State() == old(State())
      ensures policy.enabled && PolicyKey(policy, identity).Err? ==> r.Err? && State() == old(State())
      ensures policy.enabled && PolicyKey(policy, identity).Ok? ==>
        var key := PolicyKey(policy, identity).value;
        var (looked, found) := Resolve(old(State()), ns, policy, key, lookupAt);
        if found.Some? then r == Ok(found.value) && State() == looked
        else if loader().Err? then r == loader() && State() == looked
        else if PolicyKey(policy, loader().value.identity).Err? then r.Err? && State() == looked
        else r == loader() &&
             State() == Commit(looked, ns, policy, key, PolicyKey(policy, loader().value.identity).value, loader().value, commitAt)
    {
      if !policy.enabled {
        return loader();
      }
      var key := PolicyKey(policy, identity);
      if key.Err? {
        return Err(key.error);
      }
      var found := ResolveLocked(ns, policy, key.value, lookupAt);
      if found.Some? {
        return Ok(found.value);
      }
      var loaded := loader();
      if loaded.Err? {
        return loaded;
      }
      r := RememberLocked(ns, policy, key.value, loaded.value, commitAt);
    }

    /** Clears one namespace or everything, and touches nothing else. */
    method ClearLocked(ns: Option<Namespace>)
      requires Valid()
      modifies this
      ensures Valid() && State() == Clear(old(State()), ns)
    {
      ClearSpec(State(), ns, ("", []));
      if ns.None? {
        entries, aliases, globalLru, totalRows := map[], map[], [], 0;
        return;
      }
      var keys := if ns.value in entries then entries[ns.value].order else [];
      while keys != []
        invariant RemoveAll(State(), ns.value, keys) == Clear(old(State()), ns)
        decreases |keys|
      {
        RemoveLocked(ns.value, keys[0]);
        keys := keys[1..];
      }
    }
  }
}
