/** What every locked operation of the snapshot cache keeps: the five structures agree, the
    eviction bounds hold, victims are the least recently used, and payloads stay faithful. */
module SnapshotInvariants {
  import opened Prelude
  import opened Sequences
  import opened SnapshotStore

  // ----- the recency list and the row total ------------------------------------------------------

  lemma {:induction false} ProjectWithout(lru: seq<Slot>, slot: Slot, ns: Namespace)
    ensures Project(Without(lru, slot), ns) ==
            if ns == slot.0 then Without(Project(lru, ns), slot.1) else Project(lru, ns)
  {
    if lru == [] {
    } else {
      ProjectWithout(lru[1..], slot, ns);
      if lru[0] != slot {
        assert ([lru[0]] + Without(lru[1..], slot))[1..] == Without(lru[1..], slot);
      }
      if lru[0].0 == ns {
        assert ([lru[0].1] + Project(lru[1..], ns))[1..] == Project(lru[1..], ns);
      }
    }
  }

  lemma {:induction false} ProjectAppend(lru: seq<Slot>, slot: Slot, ns: Namespace)
    ensures Project(lru + [slot], ns) == Project(lru, ns) + if slot.0 == ns then [slot.1] else []
  {
    if lru == [] {
    } else {
      assert (lru + [slot])[1..] == lru[1..] + [slot];
      ProjectAppend(lru[1..], slot, ns);
    }
  }

  lemma {:induction false} WeightCongruent<T>(lru: seq<Slot>, a: map<Namespace, Ordered<T>>, b: map<Namespace, Ordered<T>>)
    requires forall slot :: slot in lru ==> SlotWeight(a, slot) == SlotWeight(b, slot)
    ensures Weight(lru, a) == Weight(lru, b)
  {
    if lru != [] {
      WeightCongruent(lru[1..], a, b);
    }
  }

  lemma {:induction false} WeightWithout<T>(lru: seq<Slot>, slot: Slot, e: map<Namespace, Ordered<T>>)
    requires NoDup(lru)
    ensures Weight(Without(lru, slot), e) == Weight(lru, e) - if slot in lru then SlotWeight(e, slot) else 0
  {
    if lru == [] {
    } else if lru[0] == slot {
      assert slot !in lru[1..];
      WithoutAbsent(lru[1..], slot);
    } else {
      WeightWithout(lru[1..], slot, e);
      var rest := Without(lru[1..], slot);
      assert ([lru[0]] + rest)[1..] == rest;
    }
  }

  lemma {:induction false} WeightAppend<T>(lru: seq<Slot>, slot: Slot, e: map<Namespace, Ordered<T>>)
    ensures Weight(lru + [slot], e) == Weight(lru, e) + SlotWeight(e, slot)
  {
    if lru == [] {
    } else {
      assert (lru + [slot])[1..] == lru[1..] + [slot];
      WeightAppend(lru[1..], slot, e);
    }
  }

  lemma {:induction false} WeightAtLeastCount<T>(lru: seq<Slot>, e: map<Namespace, Ordered<T>>)
    requires forall slot :: slot in lru ==> SlotWeight(e, slot) >= 1
    ensures Weight(lru, e) >= |lru|
  {
    if lru != [] {
      WeightAtLeastCount(lru[1..], e);
    }
  }

  // ----- sub-stores --------------------------------------------------------------------------------

  /** Everything in t was in s already, unchanged. */
  ghost predicate Within<T(!new)>(t: Store<T>, s: Store<T>) {
    && (forall slot :: Live(t.entries, slot) ==> Live(s.entries, slot) && EntryAt(t.entries, slot) == EntryAt(s.entries, slot))
    && (forall ns, a :: ns in t.aliases && a in t.aliases[ns] ==>
          ns in s.aliases && a in s.aliases[ns] && t.aliases[ns][a] == s.aliases[ns][a])
  }

  lemma WithinTransitive<T(!new)>(a: Store<T>, b: Store<T>, c: Store<T>)
    requires Within(a, b) && Within(b, c)
    ensures Within(a, c)
  {
  }

  // ----- removal -----------------------------------------------------------------------------------

  lemma RemoveEntries<T(!new)>(s: Store<T>, ns: Namespace, key: Key, slot: Slot)
    ensures var r := Remove(s, ns, key);
            && (Live(r.entries, slot) <==> Live(s.entries, slot) && slot != (ns, key))
            && (Live(r.entries, slot) ==> EntryAt(r.entries, slot) == EntryAt(s.entries, slot))
  {
    if Live(s.entries, slot) && slot != (ns, key) && slot.0 == ns {
      assert slot.1 in s.entries[ns].items - {key};
    }
  }

  lemma RemoveWithin<T(!new)>(s: Store<T>, ns: Namespace, key: Key)
    ensures Within(Remove(s, ns, key), s)
  {
    var r := Remove(s, ns, key);
    forall slot | Live(r.entries, slot)
      ensures Live(s.entries, slot) && EntryAt(r.entries, slot) == EntryAt(s.entries, slot)
    {
      RemoveEntries(s, ns, key, slot);
    }
  }

  /** Removing one entry keeps the five structures in agreement, subtracts exactly its rows (the
      clamp at zero never acts), and drops every alias that names it on either side. */
  lemma RemoveValid<T(!new)>(s: Store<T>, ns: Namespace, key: Key)
    requires Valid(s)
    ensures Valid(Remove(s, ns, key))
    ensures Remove(s, ns, key).totalRows == s.totalRows - SlotWeight(s.entries, (ns, key))
    ensures !Live(Remove(s, ns, key).entries, (ns, key))
    ensures NoAliasNames(Remove(s, ns, key), ns, key)
  {
    hide Remove, Weight, Project, AliasesLive, NoAliasNames, OrderedValid;
    var r := Remove(s, ns, key);
    RemoveTotal(s, ns, key);
    WithoutNoDup(s.lru, (ns, key));
    forall n { RemoveOrders(s, ns, key, n); }
    assert forall n :: n in r.entries ==> OrdersAgree(r, n);
    RemoveAliases(s, ns, key);
    RemoveEntries(s, ns, key, (ns, key));
    forall slot | slot in r.lru ensures Live(r.entries, slot) && SlotWeight(r.entries, slot) >= 1 {
      RemoveEntries(s, ns, key, slot);
      assert slot in s.lru;
    }
  }

  ghost predicate OrdersAgree<T>(s: Store<T>, ns: Namespace) {
    ns in s.entries ==> OrderedValid(s.entries[ns]) && s.entries[ns].order == Project(s.lru, ns)
  }

  lemma RemoveOrders<T(!new)>(s: Store<T>, ns: Namespace, key: Key, n: Namespace)
    requires OrdersAgree(s, n)
    ensures OrdersAgree(Remove(s, ns, key), n)
  {
    hide Project;
    var r := Remove(s, ns, key);
    ProjectWithout(s.lru, (ns, key), n);
    if n == ns && n in r.entries {
      var d := r.entries[n];
      var k :| k in d.items;
      assert k in d.order;
    }
  }

  ghost predicate NoAliasNames<T>(s: Store<T>, ns: Namespace, key: Key) {
    ns in s.aliases ==> forall a :: a in s.aliases[ns] ==> a != key && s.aliases[ns][a] != key
  }

  lemma RemoveAliases<T(!new)>(s: Store<T>, ns: Namespace, key: Key)
    requires AliasesLive(s)
    ensures AliasesLive(Remove(s, ns, key)) && NoAliasNames(Remove(s, ns, key), ns, key)
  {
    var r := Remove(s, ns, key);
    forall n, a | n in r.aliases && a in r.aliases[n]
      ensures r.aliases[n][a] != a && Live(r.entries, (n, r.aliases[n][a]))
    {
      assert n in s.aliases && a in s.aliases[n] && s.aliases[n][a] == r.aliases[n][a];
      RemoveEntries(s, ns, key, (n, r.aliases[n][a]));
    }
  }

  lemma RemoveTotal<T(!new)>(s: Store<T>, ns: Namespace, key: Key)
    requires Valid(s)
    ensures var r := Remove(s, ns, key);
            && r.totalRows == s.totalRows - SlotWeight(s.entries, (ns, key))
            && r.totalRows == Weight(r.lru, r.entries)
  {
    var r := Remove(s, ns, key);
    LruIsLive(s, (ns, key));
    WeightWithout(s.lru, (ns, key), s.entries);
    forall slot | slot in r.lru ensures SlotWeight(r.entries, slot) == SlotWeight(s.entries, slot) >= 1 {
      RemoveEntries(s, ns, key, slot);
      assert slot in s.lru;
    }
    WeightCongruent(r.lru, s.entries, r.entries);
    WeightAtLeastCount(r.lru, r.entries);
  }

  /** The global recency list holds exactly the live entries. */
  lemma LruIsLive<T>(s: Store<T>, slot: Slot)
    requires Valid(s)
    ensures slot in s.lru <==> Live(s.entries, slot)
  {
    if Live(s.entries, slot) {
      assert slot.1 in s.entries[slot.0].order;
    }
  }

  // ----- touching and resolving ----------------------------------------------------------------------

  lemma TouchOrders<T(!new)>(s: Store<T>, ns: Namespace, key: Key)
    requires Valid(s) && Live(s.entries, (ns, key))
    ensures var r := Touch(s, ns, key);
            && NoDup(r.lru)
            && (forall n :: n in r.entries ==> OrderedValid(r.entries[n]) && r.entries[n].order == Project(r.lru, n))
  {
    var r := Touch(s, ns, key);
    LruIsLive(s, (ns, key));
    MovedToEndNoDup(s.lru, (ns, key));
    forall n | n in r.entries ensures OrderedValid(r.entries[n]) && r.entries[n].order == Project(r.lru, n) {
      ProjectWithout(s.lru, (ns, key), n);
      ProjectAppend(Without(s.lru, (ns, key)), (ns, key), n);
    }
  }

  lemma TouchEntries<T(!new)>(s: Store<T>, ns: Namespace, key: Key, slot: Slot)
    requires Live(s.entries, (ns, key))
    ensures var r := Touch(s, ns, key);
            && (Live(r.entries, slot) <==> Live(s.entries, slot))
            && (Live(r.entries, slot) ==> EntryAt(r.entries, slot) == EntryAt(s.entries, slot))
  {
  }

  lemma TouchTotal<T(!new)>(s: Store<T>, ns: Namespace, key: Key)
    requires NoDup(s.lru) && (ns, key) in s.lru && Live(s.entries, (ns, key))
    ensures Weight(Touch(s, ns, key).lru, Touch(s, ns, key).entries) == Weight(s.lru, s.entries)
  {
    var r := Touch(s, ns, key);
    WeightWithout(s.lru, (ns, key), s.entries);
    WeightAppend(Without(s.lru, (ns, key)), (ns, key), s.entries);
    forall slot ensures SlotWeight(r.entries, slot) == SlotWeight(s.entries, slot) {
      TouchEntries(s, ns, key, slot);
    }
    WeightCongruent(r.lru, s.entries, r.entries);
  }

  lemma TouchAliases<T(!new)>(s: Store<T>, ns: Namespace, key: Key)
    requires AliasesLive(s) && Live(s.entries, (ns, key))
    ensures AliasesLive(Touch(s, ns, key))
  {
    var r := Touch(s, ns, key);
    forall n, a | n in r.aliases && a in r.aliases[n]
      ensures r.aliases[n][a] != a && Live(r.entries, (n, r.aliases[n][a]))
    {
      TouchEntries(s, ns, key, (n, r.aliases[n][a]));
    }
  }

  lemma TouchLive<T(!new)>(s: Store<T>, ns: Namespace, key: Key, slot: Slot)
    requires Valid(s) && Live(s.entries, (ns, key)) && slot in Touch(s, ns, key).lru
    ensures Live(Touch(s, ns, key).entries, slot) && SlotWeight(Touch(s, ns, key).entries, slot) >= 1
  {
    TouchEntries(s, ns, key, slot);
    LruIsLive(s, (ns, key));
    assert slot in s.lru;
  }

  lemma TouchValid<T(!new)>(s: Store<T>, ns: Namespace, key: Key)
    requires Valid(s) && Live(s.entries, (ns, key))
    ensures Valid(Touch(s, ns, key))
  {
    LruIsLive(s, (ns, key));
    TouchOrders(s, ns, key);
    TouchTotal(s, ns, key);
    TouchAliases(s, ns, key);
    forall slot | slot in Touch(s, ns, key).lru { TouchLive(s, ns, key, slot); }
  }

  lemma TouchWithin<T(!new)>(s: Store<T>, ns: Namespace, key: Key)
    requires Live(s.entries, (ns, key))
    ensures Within(Touch(s, ns, key), s)
  {
    forall slot { TouchEntries(s, ns, key, slot); }
  }

  ghost function ActualKey<T>(s: Store<T>, ns: Namespace, key: Key): Key {
    if ns in s.aliases then Target(s.aliases[ns], key) else key
  }

  /** What a lookup finds: the live entry at the alias target, if the policy has no time to live or the entry was created
      no longer ago than that. An alias always has a live target, so the branch that drops a dangling alias only ever drops
      nothing. */
  lemma ResolveFinds<T(!new)>(s: Store<T>, ns: Namespace, policy: Policy, key: Key, now: real)
    requires Valid(s)
    ensures var found := Resolve(s, ns, policy, key, now).1;
            var slot := (ns, ActualKey(s, ns, key));
            && (found.Some? <==> Live(s.entries, slot)
                                 && (policy.ttl.None? || now - EntryAt(s.entries, slot).createdAt <= policy.ttl.value))
            && (found.Some? ==> found == Some(Loaded(EntryAt(s.entries, slot).identity, EntryAt(s.entries, slot).payload)))
    ensures ns in s.aliases && key in s.aliases[ns] ==> Live(s.entries, (ns, ActualKey(s, ns, key)))
  {
  }

  /** A lookup keeps the structures in agreement and adds nothing; a hit becomes the most recent entry. */
  lemma ResolveValid<T(!new)>(s: Store<T>, ns: Namespace, policy: Policy, key: Key, now: real)
    requires Valid(s)
    ensures var (r, found) := Resolve(s, ns, policy, key, now);
            Valid(r) && Within(r, s) && (found.Some? ==> r.lru == MovedToEnd(s.lru, (ns, ActualKey(s, ns, key))))
  {
    if ns in s.entries && s.entries[ns].items != map[] {
      var aliases := if ns in s.aliases then s.aliases[ns] else map[];
      var s1 := s.(aliases := s.aliases[ns := aliases]);
      var actual := Target(aliases, key);
      AliasRestrictionValid(s, s1);
      if actual !in s.entries[ns].items {
        AliasRestrictionValid(s, s1.(aliases := s.aliases[ns := aliases - {key}]));
      } else if Expired(s.entries[ns].items[actual], policy, now) {
        RemoveValid(s1, ns, actual);
        RemoveWithin(s1, ns, actual);
        WithinTransitive(Remove(s1, ns, actual), s1, s);
      } else {
        TouchValid(s1, ns, actual);
        TouchWithin(s1, ns, actual);
        WithinTransitive(Touch(s1, ns, actual), s1, s);
      }
    }
  }

  lemma AliasRestrictionValid<T(!new)>(s: Store<T>, s1: Store<T>)
    requires Valid(s) && s1 == s.(aliases := s1.aliases)
    requires forall ns, a :: ns in s1.aliases && a in s1.aliases[ns] ==>
      ns in s.aliases && a in s.aliases[ns] && s1.aliases[ns][a] == s.aliases[ns][a]
    ensures Valid(s1) && Within(s1, s)
  {
  }

  // ----- eviction --------------------------------------------------------------------------------------

  lemma {:induction false} WithoutKeepsLast<T(!new)>(s: seq<T>, x: T)
    requires s != [] && s[|s| - 1] != x
    ensures Without(s, x) != [] && Without(s, x)[|Without(s, x)| - 1] == s[|s| - 1]
  {
    if |s| > 1 {
      WithoutKeepsLast(s[1..], x);
    }
  }

  lemma {:induction false} TrimValid<T(!new)>(s: Store<T>)
    requires Valid(s)
    ensures Valid(Trim(s)) && Within(Trim(s), s) && Trim(s).budget == s.budget
    decreases |s.lru|
  {
    if s.budget.Some? && s.totalRows > s.budget.value && |s.lru| > 1 {
      var r := TrimStep(s);
      TrimValid(r);
      WithinTransitive(Trim(r), r, s);
    }
  }

  lemma TrimStep<T(!new)>(s: Store<T>) returns (r: Store<T>)
    requires Valid(s) && s.lru != []
    ensures r == Remove(s, s.lru[0].0, s.lru[0].1) && Valid(r) && Within(r, s)
    ensures r.lru == s.lru[1..] && r.budget == s.budget
  {
    r := Remove(s, s.lru[0].0, s.lru[0].1);
    RemoveValid(s, s.lru[0].0, s.lru[0].1);
    RemoveWithin(s, s.lru[0].0, s.lru[0].1);
    WithoutFirst(s.lru);
  }

  /** The global trim drops least recently touched entries first, stops at the budget or at one entry,
      and never drops the most recent one. */
  lemma {:induction false} TrimBound<T(!new)>(s: Store<T>)
    requires Valid(s)
    ensures var t := Trim(s);
            && Tail(t.lru, s.lru) && (s.lru != [] ==> t.lru != [])
            && (t.budget.Some? ==> t.totalRows <= t.budget.value || |t.lru| <= 1)
    decreases |s.lru|
  {
    if s.budget.Some? && s.totalRows > s.budget.value && |s.lru| > 1 {
      var r := TrimStep(s);
      TrimBound(r);
      TailOfRest(Trim(r).lru, s.lru);
    }
  }

  /** No victim without need: before each removal the rows still listed exceeded the budget. */
  lemma {:induction false} TrimMinimal<T(!new)>(s: Store<T>, m: nat)
    requires Valid(s) && m + |Trim(s).lru| < |s.lru|
    ensures s.budget.Some? && Weight(s.lru[m..], s.entries) > s.budget.value
    decreases m
  {
    assert s.lru[0..] == s.lru;
    if m > 0 {
      var r := TrimStep(s);
      TrimMinimal(r, m - 1);
      assert s.lru[m..] == r.lru[m - 1..];
      assert s.lru[0] !in s.lru[m..];
      RemoveKeepsWeights(s, s.lru[0].0, s.lru[0].1, s.lru[m..]);
    }
  }

  lemma RemoveKeepsWeights<T(!new)>(s: Store<T>, ns: Namespace, key: Key, slots: seq<Slot>)
    requires (ns, key) !in slots
    ensures Weight(slots, Remove(s, ns, key).entries) == Weight(slots, s.entries)
  {
    forall slot | slot in slots ensures SlotWeight(Remove(s, ns, key).entries, slot) == SlotWeight(s.entries, slot) {
      RemoveEntries(s, ns, key, slot);
    }
    WeightCongruent(slots, s.entries, Remove(s, ns, key).entries);
  }

  /** One turn of the namespace loop, on the recency list: the oldest key of the namespace goes, other
      namespaces keep their order, and the overall last entry stays. */
  lemma EvictOldest(lru: seq<Slot>, ns: Namespace, n: Namespace)
    requires NoDup(lru) && |Project(lru, ns)| > 1
    ensures var r := Without(lru, (ns, Project(lru, ns)[0]));
            && Project(r, n) == (if n == ns then Project(lru, n)[1..] else Project(lru, n))
            && (lru[|lru| - 1].0 == ns ==> r != [] && r[|r| - 1] == lru[|lru| - 1])
  {
    var keys := Project(lru, ns);
    ProjectWithout(lru, (ns, keys[0]), n);
    ProjectNoDup(lru, ns);
    WithoutFirst(keys);
    if lru[|lru| - 1].0 == ns {
      ProjectLast(lru);
      WithoutKeepsLast(lru, (ns, keys[0]));
    }
  }

  lemma {:induction false} EvictValid<T(!new)>(s: Store<T>, ns: Namespace, maxEntries: nat)
    requires Valid(s)
    ensures Valid(Evict(s, ns, maxEntries)) && Within(Evict(s, ns, maxEntries), s)
    decreases EntryCount(s, ns)
  {
    if EntryCount(s, ns) > maxEntries {
      var key := s.entries[ns].order[0];
      var r := Remove(s, ns, key);
      RemoveValid(s, ns, key);
      RemoveWithin(s, ns, key);
      EvictValid(r, ns, maxEntries);
      WithinTransitive(Evict(r, ns, maxEntries), r, s);
    }
  }

  /** The loop leaves exactly the bound, or everything when the namespace was within it. */
  lemma {:induction false} EvictCount<T(!new)>(s: Store<T>, ns: Namespace, maxEntries: nat)
    requires Valid(s) && maxEntries >= 1
    ensures var t := Evict(s, ns, maxEntries);
            && t.budget == s.budget
            && EntryCount(t, ns) == (if EntryCount(s, ns) <= maxEntries then EntryCount(s, ns) else maxEntries)
    decreases EntryCount(s, ns)
  {
    if EntryCount(s, ns) > maxEntries {
      var r := EvictStep(s, ns, ns);
      EvictCount(r, ns, maxEntries);
    }
  }

  /** The namespace loop evicts the oldest key of the namespace in the global order. */
  lemma OldestKey<T(!new)>(s: Store<T>, ns: Namespace)
    requires Valid(s) && EntryCount(s, ns) > 1
    ensures ns in s.entries && s.entries[ns].order == Project(s.lru, ns) && |s.entries[ns].order| == EntryCount(s, ns)
    ensures NoDup(s.lru) && s.lru != []
  {
    CountIsProjection(s, ns);
    hide Project, Weight, AliasesLive, NoDup;
  }

  lemma EvictStep<T(!new)>(s: Store<T>, ns: Namespace, n: Namespace) returns (r: Store<T>)
    requires Valid(s) && EntryCount(s, ns) > 1
    ensures ns in s.entries && s.entries[ns].order != []
    ensures r == Remove(s, ns, s.entries[ns].order[0]) && Valid(r)
    ensures EntryCount(r, ns) == EntryCount(s, ns) - 1
    ensures Project(r.lru, n) == (if n == ns then Project(s.lru, n)[1..] else Project(s.lru, n))
    ensures s.lru != [] && (s.lru[|s.lru| - 1].0 == ns ==> r.lru != [] && r.lru[|r.lru| - 1] == s.lru[|s.lru| - 1])
  {
    hide *;
    OldestKey(s, ns);
    r := Remove(s, ns, s.entries[ns].order[0]);
    RemoveValid(s, ns, s.entries[ns].order[0]);
    CountIsProjection(s, ns);
    CountIsProjection(r, ns);
    EvictOldest(s.lru, ns, n);
    EvictOldest(s.lru, ns, ns);
  }

  ghost predicate Tail<K(!new)>(after: seq<K>, before: seq<K>) {
    |after| <= |before| && after == before[|before| - |after|..]
  }

  lemma TailOfRest<K(!new)>(after: seq<K>, before: seq<K>)
    requires before != [] && Tail(after, before[1..])
    ensures Tail(after, before)
  {
  }

  /** The trimmed namespace keeps its most recently used keys, in their order. */
  lemma {:induction false} EvictKeepsRecent<T(!new)>(s: Store<T>, ns: Namespace, maxEntries: nat)
    requires Valid(s) && maxEntries >= 1
    ensures Tail(Project(Evict(s, ns, maxEntries).lru, ns), Project(s.lru, ns))
    decreases EntryCount(s, ns)
  {
    if EntryCount(s, ns) > maxEntries {
      var r := EvictStep(s, ns, ns);
      EvictKeepsRecent(r, ns, maxEntries);
      CountIsProjection(s, ns);
      TailOfRest(Project(Evict(r, ns, maxEntries).lru, ns), Project(s.lru, ns));
    }
  }

  lemma {:induction false} EvictLeavesOthers<T(!new)>(s: Store<T>, ns: Namespace, maxEntries: nat, other: Namespace)
    requires Valid(s) && maxEntries >= 1 && other != ns
    ensures Project(Evict(s, ns, maxEntries).lru, other) == Project(s.lru, other)
    decreases EntryCount(s, ns)
  {
    if EntryCount(s, ns) > maxEntries {
      var r := EvictStep(s, ns, other);
      EvictLeavesOthers(r, ns, maxEntries, other);
    }
  }

  lemma {:induction false} EvictKeepsLast<T(!new)>(s: Store<T>, ns: Namespace, maxEntries: nat)
    requires Valid(s) && maxEntries >= 1 && s.lru != [] && s.lru[|s.lru| - 1].0 == ns
    ensures var t := Evict(s, ns, maxEntries); t.lru != [] && t.lru[|t.lru| - 1] == s.lru[|s.lru| - 1]
    decreases EntryCount(s, ns)
  {
    if EntryCount(s, ns) > maxEntries {
      hide Valid, Project, Remove;
      var r := EvictStep(s, ns, ns);
      EvictKeepsLast(r, ns, maxEntries);
    }
  }

  lemma CountIsProjection<T(!new)>(s: Store<T>, ns: Namespace)
    requires Valid(s)
    ensures EntryCount(s, ns) == |Project(s.lru, ns)| <= |s.lru|
  {
    if Project(s.lru, ns) != [] {
      var k := Project(s.lru, ns)[0];
      assert (ns, k) in s.lru;
    }
  }

  lemma {:induction false} ProjectNoDup(lru: seq<Slot>, ns: Namespace)
    requires NoDup(lru)
    ensures NoDup(Project(lru, ns))
  {
    if lru != [] {
      ProjectNoDup(lru[1..], ns);
      var rest := Project(lru[1..], ns);
      if lru[0].0 == ns {
        assert lru[0] !in lru[1..];
        assert lru[0].1 !in rest;
      }
    }
  }

  lemma ProjectLast(lru: seq<Slot>)
    requires lru != []
    ensures var last := lru[|lru| - 1];
            Project(lru, last.0) != [] && Project(lru, last.0)[|Project(lru, last.0)| - 1] == last.1
  {
    var n := |lru| - 1;
    assert lru == lru[..n] + [lru[n]];
    ProjectAppend(lru[..n], lru[n], lru[n].0);
  }

  // ----- committing a load -------------------------------------------------------------------------------

  /** What `Insert` works on: the store without the old entry under the actual key. */
  function Cleared<T>(s: Store<T>, ns: Namespace, actual: Key): Store<T> {
    if Live(s.entries, (ns, actual)) then Remove(s, ns, actual) else s
  }

  lemma ClearedValid<T(!new)>(s: Store<T>, ns: Namespace, actual: Key)
    requires Valid(s)
    ensures Valid(Cleared(s, ns, actual)) && Within(Cleared(s, ns, actual), s)
    ensures !Live(Cleared(s, ns, actual).entries, (ns, actual)) && (ns, actual) !in Cleared(s, ns, actual).lru
  {
    RemoveValid(s, ns, actual);
    RemoveWithin(s, ns, actual);
    LruIsLive(Cleared(s, ns, actual), (ns, actual));
  }

  lemma InsertEntries<T(!new)>(s: Store<T>, ns: Namespace, requested: Key, actual: Key, entry: Entry<T>, slot: Slot)
    ensures var (r, c) := (Insert(s, ns, requested, actual, entry), Cleared(s, ns, actual));
            && (Live(r.entries, slot) <==> Live(c.entries, slot) || slot == (ns, actual))
            && (Live(r.entries, slot) ==> EntryAt(r.entries, slot) == if slot == (ns, actual) then entry else EntryAt(c.entries, slot))
  {
  }

  lemma InsertOrders<T(!new)>(s: Store<T>, ns: Namespace, requested: Key, actual: Key, entry: Entry<T>)
    requires Valid(s)
    ensures var r := Insert(s, ns, requested, actual, entry);
            && NoDup(r.lru) && r.lru == Cleared(s, ns, actual).lru + [(ns, actual)]
            && (forall n :: n in r.entries ==> OrderedValid(r.entries[n]) && r.entries[n].order == Project(r.lru, n))
  {
    var r := Insert(s, ns, requested, actual, entry);
    var c := Cleared(s, ns, actual);
    ClearedValid(s, ns, actual);
    WithoutAbsent(c.lru, (ns, actual));
    NoDupAppend(c.lru, (ns, actual));
    forall n | n in r.entries ensures OrderedValid(r.entries[n]) && r.entries[n].order == Project(r.lru, n) {
      ProjectAppend(c.lru, (ns, actual), n);
      if n == ns {
        CountIsProjection(c, ns);
        WithoutAbsent(Project(c.lru, ns), actual);
      }
    }
  }

  lemma InsertTotal<T(!new)>(s: Store<T>, ns: Namespace, requested: Key, actual: Key, entry: Entry<T>)
    requires Valid(s)
    ensures var r := Insert(s, ns, requested, actual, entry); r.totalRows == Weight(r.lru, r.entries)
  {
    var r := Insert(s, ns, requested, actual, entry);
    var c := Cleared(s, ns, actual);
    ClearedValid(s, ns, actual);
    InsertOrders(s, ns, requested, actual, entry);
    WeightAppend(c.lru, (ns, actual), r.entries);
    InsertEntries(s, ns, requested, actual, entry, (ns, actual));
    forall slot | slot in c.lru ensures SlotWeight(c.entries, slot) == SlotWeight(r.entries, slot) {
      InsertEntries(s, ns, requested, actual, entry, slot);
    }
    WeightCongruent(c.lru, c.entries, r.entries);
  }

  lemma InsertAliases<T(!new)>(s: Store<T>, ns: Namespace, requested: Key, actual: Key, entry: Entry<T>)
    requires Valid(s)
    ensures AliasesLive(Insert(s, ns, requested, actual, entry))
  {
    var r := Insert(s, ns, requested, actual, entry);
    var c := Cleared(s, ns, actual);
    ClearedValid(s, ns, actual);
    forall n, a | n in r.aliases && a in r.aliases[n]
      ensures r.aliases[n][a] != a && Live(r.entries, (n, r.aliases[n][a]))
    {
      InsertEntries(s, ns, requested, actual, entry, (n, r.aliases[n][a]));
      if n != ns || requested == actual || a != requested {
        assert n in c.aliases && a in c.aliases[n] && c.aliases[n][a] == r.aliases[n][a];
      }
    }
  }

  lemma InsertLive<T(!new)>(s: Store<T>, ns: Namespace, requested: Key, actual: Key, entry: Entry<T>, slot: Slot)
    requires Valid(s) && entry.rowWeight >= 1 && slot in Insert(s, ns, requested, actual, entry).lru
    ensures var r := Insert(s, ns, requested, actual, entry); Live(r.entries, slot) && SlotWeight(r.entries, slot) >= 1
  {
    hide Weight, Project, AliasesLive, OrderedValid, Remove;
    InsertOrders(s, ns, requested, actual, entry);
    InsertEntries(s, ns, requested, actual, entry, slot);
    ClearedValid(s, ns, actual);
    assert slot == (ns, actual) || slot in Cleared(s, ns, actual).lru;
  }

  lemma InsertValid<T(!new)>(s: Store<T>, ns: Namespace, requested: Key, actual: Key, entry: Entry<T>)
    requires Valid(s) && entry.rowWeight >= 1
    ensures Valid(Insert(s, ns, requested, actual, entry))
  {
    InsertOrders(s, ns, requested, actual, entry);
    InsertTotal(s, ns, requested, actual, entry);
    InsertAliases(s, ns, requested, actual, entry);
    forall slot | slot in Insert(s, ns, requested, actual, entry).lru {
      InsertLive(s, ns, requested, actual, entry, slot);
    }
  }

  ghost function NewEntry<T>(loaded: Loaded<T>, now: real): Entry<T> {
    Entry(loaded.identity, loaded.payload, now, RowWeight(loaded.payload))
  }

  /** A commit keeps the five structures in agreement. */
  lemma CommitValid<T(!new)>(s: Store<T>, ns: Namespace, policy: Policy, requested: Key, actual: Key, loaded: Loaded<T>, now: real)
    requires Valid(s)
    ensures Valid(Commit(s, ns, policy, requested, actual, loaded, now))
    ensures Within(Commit(s, ns, policy, requested, actual, loaded, now),
                   Insert(s, ns, requested, actual, NewEntry(loaded, now)))
  {
    var inserted := Insert(s, ns, requested, actual, NewEntry(loaded, now));
    InsertValid(s, ns, requested, actual, NewEntry(loaded, now));
    EvictValid(inserted, ns, policy.maxEntries);
    TrimValid(Evict(inserted, ns, policy.maxEntries));
    WithinTransitive(Trim(Evict(inserted, ns, policy.maxEntries)), Evict(inserted, ns, policy.maxEntries), inserted);
  }

  /** After a commit: the committed entry is the most recent one and never a victim; the namespace holds at
      most `maxEntries`; the rows are within the budget unless one entry is left. */
  lemma CommitBounds<T(!new)>(s: Store<T>, ns: Namespace, policy: Policy, requested: Key, actual: Key, loaded: Loaded<T>, now: real)
    requires Valid(s) && policy.maxEntries >= 1
    ensures var t := Commit(s, ns, policy, requested, actual, loaded, now);
            && t.lru != [] && t.lru[|t.lru| - 1] == (ns, actual)
            && Live(t.entries, (ns, actual))
            && EntryAt(t.entries, (ns, actual)) ==
               Entry(loaded.identity, loaded.payload, now,
                     if loaded.payload.rowCount.Some? && loaded.payload.rowCount.value > 1 then loaded.payload.rowCount.value else 1)
            && EntryCount(t, ns) <= policy.maxEntries
            && (t.budget.Some? ==> t.totalRows <= t.budget.value || |t.lru| == 1)
  {
    var inserted := Insert(s, ns, requested, actual, NewEntry(loaded, now));
    var evicted := Evict(inserted, ns, policy.maxEntries);
    var t := Trim(evicted);
    InsertValid(s, ns, requested, actual, NewEntry(loaded, now));
    InsertOrders(s, ns, requested, actual, NewEntry(loaded, now));
    EvictValid(inserted, ns, policy.maxEntries);
    EvictCount(inserted, ns, policy.maxEntries);
    EvictKeepsLast(inserted, ns, policy.maxEntries);
    TrimBound(evicted);
    CommitValid(s, ns, policy, requested, actual, loaded, now);
    LruIsLive(t, (ns, actual));
    InsertEntries(s, ns, requested, actual, NewEntry(loaded, now), (ns, actual));
    TrimCount(evicted, ns);
  }

  lemma TrimCount<T(!new)>(s: Store<T>, ns: Namespace)
    requires Valid(s)
    ensures EntryCount(Trim(s), ns) <= EntryCount(s, ns)
    decreases |s.lru|
  {
    if s.budget.Some? && s.totalRows > s.budget.value && |s.lru| > 1 {
      var r := TrimStep(s);
      TrimCount(r, ns);
      CountIsProjection(s, ns);
      CountIsProjection(r, ns);
    }
  }

  /** Both orders drop only least recently used entries: what a commit leaves of the global order is a tail
      of the order after the namespace loop, and that loop left a tail of the namespace's own order. */
  lemma CommitVictimsAreOldest<T(!new)>(s: Store<T>, ns: Namespace, policy: Policy, requested: Key, actual: Key,
                                        loaded: Loaded<T>, now: real, other: Namespace)
    requires Valid(s) && policy.maxEntries >= 1
    ensures var inserted := Insert(s, ns, requested, actual, NewEntry(loaded, now));
            var evicted := Evict(inserted, ns, policy.maxEntries);
            && Tail(Project(evicted.lru, ns), Project(inserted.lru, ns))
            && (other != ns ==> Project(evicted.lru, other) == Project(inserted.lru, other))
            && Tail(Commit(s, ns, policy, requested, actual, loaded, now).lru, evicted.lru)
  {
    hide Valid, Insert, Evict, Trim, Tail, Project, Within;
    var inserted := Insert(s, ns, requested, actual, NewEntry(loaded, now));
    InsertValid(s, ns, requested, actual, NewEntry(loaded, now));
    EvictValid(inserted, ns, policy.maxEntries);
    EvictKeepsRecent(inserted, ns, policy.maxEntries);
    if other != ns {
      EvictLeavesOthers(inserted, ns, policy.maxEntries, other);
    }
    TrimBound(Evict(inserted, ns, policy.maxEntries));
  }

  /** Changing the row budget trims at once, least recently used first. */
  lemma ConfigureSpec<T(!new)>(s: Store<T>, budget: Option<nat>)
    requires Valid(s)
    ensures var t := Configure(s, budget);
            && Valid(t) && Within(t, s) && Tail(t.lru, s.lru) && t.budget == budget
            && (budget.Some? ==> t.totalRows <= budget.value || |t.lru| <= 1)
  {
    var b := s.(budget := budget);
    TrimValid(b);
    TrimBound(b);
  }

  lemma {:induction false} RemoveAllValid<T(!new)>(s: Store<T>, ns: Namespace, keys: seq<Key>)
    requires Valid(s)
    ensures Valid(RemoveAll(s, ns, keys)) && Within(RemoveAll(s, ns, keys), s)
    decreases |keys|
  {
    if keys != [] {
      RemoveValid(s, ns, keys[0]);
      RemoveWithin(s, ns, keys[0]);
      RemoveAllValid(Remove(s, ns, keys[0]), ns, keys[1..]);
      WithinTransitive(RemoveAll(s, ns, keys), Remove(s, ns, keys[0]), s);
    }
  }

  lemma {:induction false} RemoveAllEntries<T(!new)>(s: Store<T>, ns: Namespace, keys: seq<Key>, slot: Slot)
    ensures Live(RemoveAll(s, ns, keys).entries, slot) <==> Live(s.entries, slot) && !(slot.0 == ns && slot.1 in keys)
    decreases |keys|
  {
    if keys != [] {
      RemoveEntries(s, ns, keys[0], slot);
      RemoveAllEntries(Remove(s, ns, keys[0]), ns, keys[1..], slot);
    }
  }

  /** Clearing a namespace removes exactly its entries; clearing everything removes every entry. */
  lemma ClearSpec<T(!new)>(s: Store<T>, ns: Option<Namespace>, slot: Slot)
    requires Valid(s)
    ensures var t := Clear(s, ns);
            && Valid(t) && Within(t, s)
            && (Live(t.entries, slot) <==> ns.Some? && slot.0 != ns.value && Live(s.entries, slot))
  {
    if ns.Some? {
      var keys := if ns.value in s.entries then s.entries[ns.value].order else [];
      RemoveAllValid(s, ns.value, keys);
      RemoveAllEntries(s, ns.value, keys, slot);
    }
  }

  // ----- faithfulness ----------------------------------------------------------------------------------------

  /** The payloads among the answers. */
  function Payloads<T>(answers: Slot -> Result<Payload<T>, string>): Slot -> Option<Payload<T>> {
    (slot: Slot) => if answers(slot).Ok? then Some(answers(slot).value) else None
  }

  /** The source as a function of the key; None where it has no payload to give. Every entry holds the source's
      payload for its own key, and every alias links keys for which the source has the same payload. */
  ghost predicate Faithful<T(!new)>(s: Store<T>, source: Slot -> Option<Payload<T>>) {
    && (forall slot :: Live(s.entries, slot) ==> source(slot) == Some(EntryAt(s.entries, slot).payload))
    && (forall ns, a :: ns in s.aliases && a in s.aliases[ns] ==> source((ns, a)) == source((ns, s.aliases[ns][a])))
  }

  lemma FaithfulWithin<T(!new)>(t: Store<T>, s: Store<T>, source: Slot -> Option<Payload<T>>)
    requires Within(t, s) && Faithful(s, source)
    ensures Faithful(t, source)
  {
  }

  /** A lookup in a faithful cache returns the source's payload for the requested key, even when a live entry
      under that key is shadowed by an alias. */
  lemma ResolveFaithful<T(!new)>(s: Store<T>, ns: Namespace, policy: Policy, key: Key, now: real, source: Slot -> Option<Payload<T>>)
    requires Valid(s) && Faithful(s, source)
    ensures var (r, found) := Resolve(s, ns, policy, key, now);
            && Valid(r) && Faithful(r, source)
            && (found.Some? ==> source((ns, key)) == Some(found.value.payload))
  {
    ResolveValid(s, ns, policy, key, now);
    ResolveFinds(s, ns, policy, key, now);
    FaithfulWithin(Resolve(s, ns, policy, key, now).0, s, source);
  }

  lemma InsertFaithful<T(!new)>(s: Store<T>, ns: Namespace, requested: Key, actual: Key, entry: Entry<T>, source: Slot -> Option<Payload<T>>)
    requires Valid(s) && Faithful(s, source)
    requires Some(entry.payload) == source((ns, actual)) == source((ns, requested))
    ensures Faithful(Insert(s, ns, requested, actual, entry), source)
  {
    var inserted := Insert(s, ns, requested, actual, entry);
    ClearedValid(s, ns, actual);
    FaithfulWithin(Cleared(s, ns, actual), s, source);
    forall slot | Live(inserted.entries, slot) ensures source(slot) == Some(EntryAt(inserted.entries, slot).payload) {
      InsertEntries(s, ns, requested, actual, entry, slot);
    }
  }

  /** Committing an honest load keeps the cache faithful. */
  lemma CommitFaithful<T(!new)>(s: Store<T>, ns: Namespace, policy: Policy, requested: Key, actual: Key,
                                loaded: Loaded<T>, now: real, source: Slot -> Option<Payload<T>>)
    requires Valid(s) && Faithful(s, source)
    requires Some(loaded.payload) == source((ns, actual)) == source((ns, requested))
    ensures Faithful(Commit(s, ns, policy, requested, actual, loaded, now), source)
  {
    hide Valid, Insert, Within, Faithful, Commit;
    InsertFaithful(s, ns, requested, actual, NewEntry(loaded, now), source);
    CommitValid(s, ns, policy, requested, actual, loaded, now);
    FaithfulWithin(Commit(s, ns, policy, requested, actual, loaded, now),
                   Insert(s, ns, requested, actual, NewEntry(loaded, now)), source);
  }

  /** An alias can shadow a live entry: b loaded on request of a, then a loaded on request of c. The lookup of a
      still answers with b's entry, which is why faithfulness needs the alias clause. */
  lemma AliasCanShadowLiveEntry<T(!new)>(ns: Namespace, policy: Policy, a: Key, b: Key, c: Key,
                                         first: Loaded<T>, second: Loaded<T>, now: real)
    requires a != b && b != c && a != c && policy.maxEntries >= 2 && policy.ttl.None?
    ensures var s1 := Commit(EmptyStore(), ns, policy, a, b, first, now);
            var s2 := Commit(s1, ns, policy, c, a, second, now);
            && Live(s2.entries, (ns, a)) && EntryAt(s2.entries, (ns, a)).payload == second.payload
            && Resolve(s2, ns, policy, a, now).1 == Some(first)
  {
    var s1 := Insert(EmptyStore(), ns, a, b, NewEntry(first, now));
    assert MovedToEnd([], b) == [b];
    assert s1.entries[ns] == Ordered([b], map[b := NewEntry(first, now)]);
    assert s1.entries == map[ns := s1.entries[ns]];
    var s2 := Insert(s1, ns, c, a, NewEntry(second, now));
    assert s2.entries[ns].order == [b, a];
  }
}
