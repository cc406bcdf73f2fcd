/** The shared state of the canonical snapshot cache as a value, with one function for every
    locked operation on it. `SnapshotCache` updates its fields to these values in place;
    `SingleFlight` interleaves them between threads. */
module SnapshotStore {
  import opened Prelude
  import opened Sequences

  type Namespace = string
  type Identity = map<string, Value>
  type Key = seq<(string, Value)>
  type Slot = (Namespace, Key)

  datatype Payload<+T> = Payload(body: T, rowCount: Option<nat>)

  datatype Policy = Policy(enabled: bool, roles: seq<string>, maxEntries: nat, ttl: Option<real>)

  datatype Entry<+T> = Entry(identity: Identity, payload: Payload<T>, createdAt: real, rowWeight: int)

  datatype Loaded<+T> = Loaded(identity: Identity, payload: Payload<T>)

  /** An OrderedDict: its keys in recency order, and their values. */
  datatype Ordered<T> = Ordered(order: seq<Key>, items: map<Key, Entry<T>>)

  datatype Store<T> = Store(
    entries: map<Namespace, Ordered<T>>,
    aliases: map<Namespace, map<Key, Key>>,
    lru: seq<Slot>,
    budget: Option<nat>,
    totalRows: int)

  const MISSING_ROLES := "snapshot identity is missing canonical roles"

  function RowWeight<T>(p: Payload<T>): int {
    if p.rowCount.Some? && p.rowCount.value > 1 then p.rowCount.value else 1
  }

  // ----- keys ---------------------------------------------------------------------------------

  function RoleValues(roles: seq<string>, identity: Identity): Key
    requires forall r :: r in roles ==> r in identity
  {
    seq(|roles|, i requires 0 <= i < |roles| => (roles[i], identity[roles[i]]))
  }

  function PolicyKey(policy: Policy, identity: Identity): Result<Key, string> {
    if forall r :: r in policy.roles ==> r in identity then Ok(RoleValues(policy.roles, identity))
    else Err(MISSING_ROLES)
  }

  /** A key identifies exactly the declared roles: nothing else of an identity reaches the cache. */
  lemma KeyIdentifiesDeclaredRoles(policy: Policy, a: Identity, b: Identity)
    requires forall r :: r in policy.roles ==> r in a && r in b
    ensures PolicyKey(policy, a) == PolicyKey(policy, b) <==>
            forall r :: r in policy.roles ==> a[r] == b[r]
  {
    var ka, kb := RoleValues(policy.roles, a), RoleValues(policy.roles, b);
    if ka == kb {
      forall r | r in policy.roles ensures a[r] == b[r] {
        var i :| 0 <= i < |policy.roles| && policy.roles[i] == r;
        assert ka[i] == (r, a[r]) && kb[i] == (r, b[r]);
      }
    }
  }

  // ----- reading the store --------------------------------------------------------------------

  predicate Live<T>(entries: map<Namespace, Ordered<T>>, slot: Slot) {
    slot.0 in entries && slot.1 in entries[slot.0].items
  }

  function EntryAt<T>(entries: map<Namespace, Ordered<T>>, slot: Slot): Entry<T>
    requires Live(entries, slot)
  {
    entries[slot.0].items[slot.1]
  }

  /** The keys of one namespace, in the order of the global recency list. */
  function Project(lru: seq<Slot>, ns: Namespace): (r: seq<Key>)
    ensures |r| <= |lru|
    ensures forall k :: k in r <==> (ns, k) in lru
  {
    if lru == [] then []
    else if lru[0].0 == ns then [lru[0].1] + Project(lru[1..], ns)
    else Project(lru[1..], ns)
  }

  function SlotWeight<T>(entries: map<Namespace, Ordered<T>>, slot: Slot): int {
    if Live(entries, slot) then EntryAt(entries, slot).rowWeight else 0
  }

  function Weight<T>(lru: seq<Slot>, entries: map<Namespace, Ordered<T>>): int {
    if lru == [] then 0 else SlotWeight(entries, lru[0]) + Weight(lru[1..], entries)
  }

  // ----- the five structures agree --------------------------------------------------------------

  ghost predicate OrderedValid<T>(d: Ordered<T>) {
    d.order != [] && (forall k :: k in d.order <==> k in d.items)
  }

  ghost predicate AliasesLive<T>(s: Store<T>) {
    forall ns, a :: ns in s.aliases && a in s.aliases[ns] ==>
      s.aliases[ns][a] != a && Live(s.entries, (ns, s.aliases[ns][a]))
  }

  ghost predicate Valid<T>(s: Store<T>) {
    && NoDup(s.lru)
    && (forall slot :: slot in s.lru ==> Live(s.entries, slot))
    && (forall ns :: ns in s.entries ==> OrderedValid(s.entries[ns]) && s.entries[ns].order == Project(s.lru, ns))
    && (forall slot :: slot in s.lru ==> SlotWeight(s.entries, slot) >= 1)
    && s.totalRows == Weight(s.lru, s.entries)
    && AliasesLive(s)
  }

  function EmptyStore<T>(): Store<T> {
    Store(map[], map[], [], None, 0)
  }

  // ----- the locked operations ------------------------------------------------------------------

  function AliasesWithout(aliases: map<Key, Key>, key: Key): map<Key, Key> {
    map a | a in aliases && a != key && aliases[a] != key :: aliases[a]
  }

  /** `_remove_locked`. */
  function Remove<T>(s: Store<T>, ns: Namespace, key: Key): (r: Store<T>)
    ensures r.lru == Without(s.lru, (ns, key))
    ensures r.budget == s.budget
  {
    var popped := if ns in s.entries then Ordered(Without(s.entries[ns].order, key), s.entries[ns].items - {key})
                  else Ordered([], map[]);
    var kept := if ns in s.aliases then AliasesWithout(s.aliases[ns], key) else map[];
    Store(
      if ns !in s.entries then s.entries
      else if popped.items == map[] then s.entries - {ns} else s.entries[ns := popped],
      if ns !in s.aliases then s.aliases
      else if kept == map[] then s.aliases - {ns} else s.aliases[ns := kept],
      Without(s.lru, (ns, key)),
      s.budget,
      if !Live(s.entries, (ns, key)) then s.totalRows
      else if s.totalRows > EntryAt(s.entries, (ns, key)).rowWeight
        then s.totalRows - EntryAt(s.entries, (ns, key)).rowWeight else 0)
  }

  /** `move_to_end` on the namespace and on the global list. */
  function Touch<T>(s: Store<T>, ns: Namespace, key: Key): Store<T>
    requires ns in s.entries
  {
    s.(entries := s.entries[ns := s.entries[ns].(order := MovedToEnd(s.entries[ns].order, key))],
       lru := MovedToEnd(s.lru, (ns, key)))
  }

  /** `_trim_global_locked`. */
  function Trim<T>(s: Store<T>): Store<T>
    decreases |s.lru|
  {
    if s.budget.None? then s
    else if s.totalRows > s.budget.value && |s.lru| > 1 then
      assert s.lru[0] in s.lru;
      Trim(Remove(s, s.lru[0].0, s.lru[0].1))
    else s
  }

  function Target(aliases: map<Key, Key>, key: Key): Key {
    if key in aliases then aliases[key] else key
  }

  predicate Expired<T>(entry: Entry<T>, policy: Policy, now: real) {
    policy.ttl.Some? && now - entry.createdAt > policy.ttl.value
  }

  /** `_resolve_locked`: the state it leaves and the snapshot it finds. */
  function Resolve<T>(s: Store<T>, ns: Namespace, policy: Policy, key: Key, now: real): (Store<T>, Option<Loaded<T>>) {
    if ns !in s.entries || s.entries[ns].items == map[] then (s, None)
    else
      var aliases := if ns in s.aliases then s.aliases[ns] else map[];
      var s1 := s.(aliases := s.aliases[ns := aliases]);
      var actual := Target(aliases, key);
      if actual !in s.entries[ns].items then (s1.(aliases := s.aliases[ns := aliases - {key}]), None)
      else
        var entry := s.entries[ns].items[actual];
        if Expired(entry, policy, now) then (Remove(s1, ns, actual), None)
        else (Touch(s1, ns, actual), Some(Loaded(entry.identity, entry.payload)))
  }

  function EntryCount<T>(s: Store<T>, ns: Namespace): nat {
    if ns in s.entries then |s.entries[ns].order| else 0
  }

  /** The per-namespace eviction loop of `_remember_locked`. */
  function Evict<T>(s: Store<T>, ns: Namespace, maxEntries: nat): Store<T>
    decreases EntryCount(s, ns)
  {
    if EntryCount(s, ns) > maxEntries then
      assert s.entries[ns].order[0] in s.entries[ns].order;
      Evict(Remove(s, ns, s.entries[ns].order[0]), ns, maxEntries)
    else s
  }

  /** The new entry, at the recent end of both orders, and its alias. */
  function Insert<T>(s: Store<T>, ns: Namespace, requested: Key, actual: Key, entry: Entry<T>): Store<T> {
    var cleared := if Live(s.entries, (ns, actual)) then Remove(s, ns, actual) else s;
    var previous := if ns in cleared.entries then cleared.entries[ns] else Ordered([], map[]);
    var known := if ns in cleared.aliases then cleared.aliases[ns] else map[];
    Store(
      cleared.entries[ns := Ordered(MovedToEnd(previous.order, actual), previous.items[actual := entry])],
      cleared.aliases[ns := if requested != actual then known[requested := actual] else known],
      MovedToEnd(cleared.lru, (ns, actual)),
      cleared.budget,
      cleared.totalRows + entry.rowWeight)
  }

  /** `_remember_locked`, once the actual identity has its key. */
  function Commit<T>(s: Store<T>, ns: Namespace, policy: Policy, requested: Key, actual: Key,
                     loaded: Loaded<T>, now: real): Store<T> {
    var entry := Entry(loaded.identity, loaded.payload, now, RowWeight(loaded.payload));
    Trim(Evict(Insert(s, ns, requested, actual, entry), ns, policy.maxEntries))
  }

  function Configure<T>(s: Store<T>, budget: Option<nat>): Store<T> {
    Trim(s.(budget := budget))
  }

  function RemoveAll<T>(s: Store<T>, ns: Namespace, keys: seq<Key>): Store<T>
    decreases |keys|
  {
    if keys == [] then s else RemoveAll(Remove(s, ns, keys[0]), ns, keys[1..])
  }

  /** `clear`. */
  function Clear<T>(s: Store<T>, ns: Option<Namespace>): Store<T> {
    if ns.None? then Store(map[], map[], [], s.budget, 0)
    else RemoveAll(s, ns.value, if ns.value in s.entries then s.entries[ns.value].order else [])
  }
}
