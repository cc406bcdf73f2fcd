/** Loading one canonical snapshot with retries and coarser fallback, through the snapshot cache. The source's outcome
    per (date, coverage, resolution) and attempt is fixed; the cache may already hold or alias any of its answers. */
module ResolutionFallback {
  import opened Prelude
  import opened SnapshotStore
  import opened SnapshotInvariants
  import opened SnapshotCache

  /** How the configured policies classify an endpoint error. */
  datatype EndpointError = EndpointError(message: string, noData: bool, transient: bool, tooFine: bool)

  datatype Response<F> = Body(frame: F, rows: nat) | Failure(error: EndpointError)

  datatype Snapshot<F> = Snapshot(frame: F, resolution: real)

  datatype Source<!F> = Source(
    respond: (Value, Value, real, nat) -> Response<F>,
    emptyFrame: (Value, real) -> F,
    available: seq<real>,
    fallback: bool,
    retries: bool,
    maxAttempts: int)

  datatype Request = Request(dataset: string, date: Value, coverage: Value)

  const NO_RESOLUTIONS := "sampled-grid mapping has no advertised resolutions"
  const NO_SNAPSHOT := "sampled-grid endpoint returned no snapshot"

  ghost predicate Ascending(s: seq<real>) {
    forall i, j :: 0 <= i < j < |s| ==> s[i] < s[j]
  }

  // ----- which resolutions are tried ----------------------------------------------------------------------------

  /** The first value at or above `bound`, by index; the length when there is none. */
  function FirstAtLeast(s: seq<real>, bound: real): (i: nat)
    ensures i <= |s|
    ensures forall j :: 0 <= j < i ==> s[j] < bound
    ensures i < |s| ==> s[i] >= bound
  {
    if s == [] || s[0] >= bound then 0 else 1 + FirstAtLeast(s[1..], bound)
  }

  /** `_resolution_for_request`. */
  function ResolutionForRequest(available: seq<real>, explicit: Option<real>): (r: Result<real, string>)
    ensures r.Ok? <==> available != []
    ensures r.Ok? ==> r.value in available
  {
    if available == [] then Err(NO_RESOLUTIONS)
    else if explicit.Some? && explicit.value > 0.0 then
      var i := FirstAtLeast(available, explicit.value);
      Ok(if i < |available| then available[i] else available[|available| - 1])
    else Ok(available[0])
  }

  /** The resolution a request is for: with a positive explicit value, the least advertised one at or above it, or the
      greatest when there is none; otherwise the least. */
  ghost predicate Asked(available: seq<real>, explicit: Option<real>, r: real) {
    && r in available
    && if explicit.Some? && explicit.value > 0.0 then
         if exists a :: a in available && a >= explicit.value
         then r >= explicit.value && forall a :: a in available && a >= explicit.value ==> r <= a
         else forall a :: a in available ==> a <= r
       else forall a :: a in available ==> r <= a
  }

  lemma ResolutionIsAsked(available: seq<real>, explicit: Option<real>)
    requires Ascending(available) && available != []
    ensures Asked(available, explicit, ResolutionForRequest(available, explicit).value)
    ensures forall r :: Asked(available, explicit, r) ==> ResolutionForRequest(available, explicit) == Ok(r)
  {
    forall a | a in available ensures available[0] <= a <= available[|available| - 1] {
      var i :| 0 <= i < |available| && available[i] == a;
    }
    if explicit.Some? && explicit.value > 0.0 {
      var i := FirstAtLeast(available, explicit.value);
      forall a | a in available && a >= explicit.value ensures i < |available| && available[i] <= a {
        var j :| 0 <= j < |available| && available[j] == a;
      }
    }
  }

  /** The advertised resolutions at or above the requested one. */
  function Candidates(available: seq<real>, requested: real): seq<real> {
    available[FirstAtLeast(available, requested)..]
  }

  lemma CandidatesOfMember(available: seq<real>, i: nat)
    requires Ascending(available) && i < |available|
    ensures Candidates(available, available[i]) == available[i..]
  {
  }

  // ----- the reference answer -------------------------------------------------------------------------------------

  function AttemptLimit<F>(src: Source<F>): (n: nat)
    ensures n >= 1
  {
    if src.maxAttempts > 1 then src.maxAttempts else 1
  }

  /** A failure that is tried again, while attempts remain. */
  predicate Retried<F>(src: Source<F>, r: Response<F>) {
    r.Failure? && !r.error.noData && src.retries && r.error.transient
  }

  /** What comes of one resolution from some attempt on. */
  function Try<F>(src: Source<F>, q: Request, resolution: real, attempt: nat): Response<F>
    decreases AttemptLimit(src) - attempt
  {
    var r := src.respond(q.date, q.coverage, resolution, attempt);
    if Retried(src, r) && attempt < AttemptLimit(src) then Try(src, q, resolution, attempt + 1) else r
  }

  function Settled<F>(src: Source<F>, q: Request, resolution: real): Response<F> {
    Try(src, q, resolution, 1)
  }

  /** Attempt n is the last one: every one before it failed transiently, and it did not, or no more are allowed. */
  ghost predicate LastAttempt<F>(src: Source<F>, q: Request, resolution: real, n: nat) {
    && 1 <= n && (n == 1 || n <= src.maxAttempts)
    && (forall a: nat :: 1 <= a < n ==>
          var r := src.respond(q.date, q.coverage, resolution, a);
          src.retries && r.Failure? && !r.error.noData && r.error.transient)
    && (n >= src.maxAttempts
        || !src.retries
        || var r := src.respond(q.date, q.coverage, resolution, n); r.Body? || r.error.noData || !r.error.transient)
  }

  /** What a resolution settles at is its last attempt. */
  lemma {:induction false} SettledAtLast<F>(src: Source<F>, q: Request, resolution: real, from: nat, n: nat)
    requires 1 <= from <= n && LastAttempt(src, q, resolution, n)
    ensures Try(src, q, resolution, from) == src.respond(q.date, q.coverage, resolution, n)
    decreases n - from
  {
    if from < n {
      SettledAtLast(src, q, resolution, from + 1, n);
    }
  }

  /** A failure that sends the load on to the next coarser resolution, when there is one. */
  predicate Skips<F>(src: Source<F>, q: Request, resolution: real) {
    var r := Settled(src, q, resolution);
    src.fallback && r.Failure? && !r.error.noData && r.error.tooFine
  }

  function Direct<F>(src: Source<F>, q: Request, resolution: real): Result<Payload<Snapshot<F>>, string> {
    match Settled(src, q, resolution)
    case Body(frame, rows) => Ok(Payload(Snapshot(frame, resolution), Some(rows)))
    case Failure(e) =>
      if e.noData then Ok(Payload(Snapshot(src.emptyFrame(q.date, resolution), resolution), Some(0))) else Err(e.message)
  }

  function Answer<F>(src: Source<F>, q: Request, candidates: seq<real>): Result<Payload<Snapshot<F>>, string>
    requires candidates != []
  {
    if |candidates| > 1 && Skips(src, q, candidates[0]) then Answer(src, q, candidates[1..])
    else Direct(src, q, candidates[0])
  }

  /** The answer is the direct outcome of the smallest candidate that is not skipped, or of the last one. */
  lemma {:induction false} AnswerIsSmallestUsable<F>(src: Source<F>, q: Request, candidates: seq<real>, i: nat)
    requires i < |candidates|
    requires forall j :: 0 <= j < i ==> Skips(src, q, candidates[j])
    requires i == |candidates| - 1 || !Skips(src, q, candidates[i])
    ensures Answer(src, q, candidates) == Direct(src, q, candidates[i])
  {
    if i > 0 {
      AnswerIsSmallestUsable(src, q, candidates[1..], i - 1);
    }
  }

  /** The advertised resolution that answers a request for another one: the least at or above it that does not fail as too
      fine, where falling back is allowed; the greatest if all do, and the requested one itself if falling back is not. */
  ghost predicate Answers<F>(src: Source<F>, q: Request, requested: real, a: real) {
    && a in src.available && requested <= a
    && (forall b :: b in src.available && requested <= b < a ==> TooFine(src, Settled(src, q, b)))
    && (TooFine(src, Settled(src, q, a)) ==> forall b :: b in src.available ==> b <= a)
  }

  predicate TooFine<F>(src: Source<F>, r: Response<F>) {
    src.fallback && r.Failure? && !r.error.noData && r.error.tooFine
  }

  /** The outcome of a response at a resolution: its frame, an empty frame if there is no data, or its error. */
  ghost predicate IsOutcome<F>(src: Source<F>, q: Request, resolution: real, r: Response<F>, outcome: Result<Payload<Snapshot<F>>, string>) {
    if r.Body? then outcome == Ok(Payload(Snapshot(r.frame, resolution), Some(r.rows)))
    else if r.error.noData then outcome == Ok(Payload(Snapshot(src.emptyFrame(q.date, resolution), resolution), Some(0)))
    else outcome == Err(r.error.message)
  }

  /** The reference answer for an advertised resolution is the outcome of the resolution that answers it. */
  lemma AnswerIsServed<F>(src: Source<F>, q: Request, i: nat, a: real)
    requires Ascending(src.available) && i < |src.available| && Answers(src, q, src.available[i], a)
    ensures IsOutcome(src, q, a, Settled(src, q, a), Answer(src, q, src.available[i..]))
  {
    var k :| 0 <= k < |src.available| && src.available[k] == a;
    var candidates := src.available[i..];
    assert i <= k && candidates[k - i] == a;
    forall j | 0 <= j < k - i ensures Skips(src, q, candidates[j]) {
      assert candidates[j] == src.available[i + j];
      assert src.available[i + j] in src.available;
    }
    assert src.available[|src.available| - 1] in src.available;
    AnswerIsSmallestUsable(src, q, candidates, k - i);
  }

  // ----- what the cache may hold ------------------------------------------------------------------------------------

  function Lookup(key: Key, role: string): Option<Value> {
    if key == [] then None else if key[0].0 == role then Some(key[0].1) else Lookup(key[1..], role)
  }

  lemma {:induction false} LookupRole(roles: seq<string>, identity: Identity, role: string)
    requires forall r :: r in roles ==> r in identity
    ensures Lookup(RoleValues(roles, identity), role) == if role in roles then Some(identity[role]) else None
  {
    if roles != [] {
      assert RoleValues(roles, identity)[1..] == RoleValues(roles[1..], identity);
      LookupRole(roles[1..], identity, role);
    }
  }

  function SnapshotIdentity(q: Request, resolution: real): Identity {
    map["dataset_id" := Plain(q.dataset), "date" := q.date, "coverage_id" := q.coverage, "resolution_km" := Num(resolution)]
  }

  /** The source as the cache sees it: under a snapshot key of this namespace the answer for the key's date, coverage
      and resolution; other keys are someone else's. */
  function SnapshotAnswers<F>(src: Source<F>, ns: Namespace, dataset: string, others: Slot -> Result<Payload<Snapshot<F>>, string>):
    (Slot -> Result<Payload<Snapshot<F>>, string>)
  {
    (slot: Slot) =>
      match (Lookup(slot.1, "date"), Lookup(slot.1, "coverage_id"), Lookup(slot.1, "resolution_km"))
      case (Some(date), Some(coverage), Some(Num(resolution))) =>
        if slot.0 != ns || Lookup(slot.1, "shard_id").Some? then others(slot)
        else if Candidates(src.available, resolution) == [] then Err(NO_SNAPSHOT)
        else Answer(src, Request(dataset, date, coverage), Candidates(src.available, resolution))
      case _ => others(slot)
  }

  /** The declared roles determine the source's response. */
  ghost predicate RolesSuffice(policy: Policy) {
    policy.enabled ==>
      && policy.maxEntries >= 1
      && "date" in policy.roles && "coverage_id" in policy.roles && "resolution_km" in policy.roles
      && forall r :: r in policy.roles ==> r in ["dataset_id", "date", "coverage_id", "resolution_km"]
  }

  lemma SnapshotKey<F>(src: Source<F>, ns: Namespace, others: Slot -> Result<Payload<Snapshot<F>>, string>, policy: Policy, q: Request, i: nat)
    requires RolesSuffice(policy) && policy.enabled && Ascending(src.available) && i < |src.available|
    ensures PolicyKey(policy, SnapshotIdentity(q, src.available[i])).Ok?
    ensures SnapshotAnswers(src, ns, q.dataset, others)((ns, PolicyKey(policy, SnapshotIdentity(q, src.available[i])).value)) ==
            Answer(src, q, src.available[i..])
  {
    var identity := SnapshotIdentity(q, src.available[i]);
    LookupRole(policy.roles, identity, "date");
    LookupRole(policy.roles, identity, "coverage_id");
    LookupRole(policy.roles, identity, "resolution_km");
    LookupRole(policy.roles, identity, "shard_id");
    CandidatesOfMember(src.available, i);
    var key := PolicyKey(policy, identity).value;
    assert Lookup(key, "resolution_km") == Some(Num(src.available[i]));
    assert Request(q.dataset, q.date, q.coverage) == q;
  }

  // ----- the load --------------------------------------------------------------------------------------------------------

  /** One resolution: attempts repeat while the failure is transient and attempts remain. */
  method FetchResolution<F(!new)>(src: Source<F>, q: Request, resolution: real) returns (response: Response<F>, attempts: nat)
    ensures response == Settled(src, q, resolution)
    ensures 1 <= attempts <= AttemptLimit(src)
    ensures LastAttempt(src, q, resolution, attempts) && response == src.respond(q.date, q.coverage, resolution, attempts)
  {
    var limit := AttemptLimit(src);
    attempts := 1;
    response := src.respond(q.date, q.coverage, resolution, attempts);
    while response.Failure? && !response.error.noData && src.retries && attempts < limit && response.error.transient
      invariant 1 <= attempts <= limit && response == src.respond(q.date, q.coverage, resolution, attempts)
      invariant forall a: nat :: 1 <= a < attempts ==>
                  var r := src.respond(q.date, q.coverage, resolution, a);
                  src.retries && r.Failure? && !r.error.noData && r.error.transient
      decreases limit - attempts
    {
      attempts := attempts + 1;
      response := src.respond(q.date, q.coverage, resolution, attempts);
    }
    SettledAtLast(src, q, resolution, 1, attempts);
  }

  ghost predicate Sound<F(!new)>(cache: CanonicalSnapshotCache<Snapshot<F>>, src: Source<F>, ns: Namespace, dataset: string,
                                 others: Slot -> Result<Payload<Snapshot<F>>, string>)
    reads cache
  {
    cache.Valid() && Faithful(cache.State(), Payloads(SnapshotAnswers(src, ns, dataset, others)))
  }

  /** A cache lookup for one advertised resolution: a hit is the reference answer from that resolution on. */
  method Cached<F(!new)>(cache: CanonicalSnapshotCache<Snapshot<F>>, ns: Namespace, policy: Policy, src: Source<F>,
                         q: Request, at: nat, now: real, ghost others: Slot -> Result<Payload<Snapshot<F>>, string>)
    returns (found: Option<Payload<Snapshot<F>>>)
    requires Sound(cache, src, ns, q.dataset, others) && RolesSuffice(policy)
    requires Ascending(src.available) && at < |src.available|
    modifies cache
    ensures Sound(cache, src, ns, q.dataset, others)
    ensures found.Some? ==> Answer(src, q, src.available[at..]) == Ok(found.value)
  {
    if !policy.enabled {
      return None;
    }
    SnapshotKey(src, ns, others, policy, q, at);
    ghost var key := PolicyKey(policy, SnapshotIdentity(q, src.available[at])).value;
    ResolveFaithful(cache.State(), ns, policy, key, now, Payloads(SnapshotAnswers(src, ns, q.dataset, others)));
    var cached := cache.Get(ns, policy, SnapshotIdentity(q, src.available[at]), now);
    found := if cached.value.Some? then Some(cached.value.value.payload) else None;
  }

  lemma AnswerStep<F>(src: Source<F>, q: Request, at: nat)
    requires at < |src.available|
    ensures Answer(src, q, src.available[at..]) ==
            if at + 1 < |src.available| && Skips(src, q, src.available[at]) then Answer(src, q, src.available[at + 1..])
            else Direct(src, q, src.available[at])
  {
    assert src.available[at..][1..] == src.available[at + 1..];
  }

  lemma AttemptsFit(index: nat, count: nat, limit: nat)
    requires index < count
    ensures index * limit + limit == (index + 1) * limit <= count * limit
  {
  }

  /** The loader as a function of what its cache lookups find: candidates from one resolution upward, until one is found, is
      answered, or fails for good. */
  function LoadWith<F>(src: Source<F>, q: Request, index: nat, found: map<nat, Payload<Snapshot<F>>>): Result<Loaded<Snapshot<F>>, string>
    requires index < |src.available|
    decreases |src.available| - index
  {
    if index in found then Ok(Loaded(SnapshotIdentity(q, src.available[index]), found[index]))
    else if index + 1 < |src.available| && Skips(src, q, src.available[index]) then LoadWith(src, q, index + 1, found)
    else
      match Direct(src, q, src.available[index])
      case Ok(payload) => Ok(Loaded(SnapshotIdentity(q, src.available[index]), payload))
      case Err(error) => Err(error)
  }

  /** Every lookup that found something found the reference answer of its resolution. */
  ghost predicate FoundAnswers<F>(src: Source<F>, q: Request, found: map<nat, Payload<Snapshot<F>>>) {
    forall j :: j in found ==> j < |src.available| && Answer(src, q, src.available[j..]) == Ok(found[j])
  }

  /** Whichever lookups find something, the loader gives the reference answer, under a resolution that has the same one. */
  lemma {:induction false} LoadWithIsAnswer<F>(src: Source<F>, q: Request, index: nat, found: map<nat, Payload<Snapshot<F>>>)
    returns (at: nat)
    requires index < |src.available| && FoundAnswers(src, q, found)
    ensures var (r, answer) := (LoadWith(src, q, index, found), Answer(src, q, src.available[index..]));
            && index <= at < |src.available| && Answer(src, q, src.available[at..]) == answer
            && (answer.Err? ==> r == Err(answer.error))
            && (answer.Ok? ==> r == Ok(Loaded(SnapshotIdentity(q, src.available[at]), answer.value)))
    decreases |src.available| - index
  {
    hide Skips, Direct, SnapshotIdentity, Answer;
    AnswerStep(src, q, index);
    if index !in found && index + 1 < |src.available| && Skips(src, q, src.available[index]) {
      at := LoadWithIsAnswer(src, q, index + 1, found);
    } else {
      at := index;
    }
  }

  /** The loader: candidates from the requested resolution upward, each first looked up in the cache. It gives the
      reference answer whatever the cache holds, within the attempt bound, and never falls off the end of the candidates:
      that branch is dead. */
  method LoadCandidates<F(!new)>(cache: CanonicalSnapshotCache<Snapshot<F>>, ns: Namespace, policy: Policy, src: Source<F>,
                                 q: Request, first: nat, clock: nat -> real,
                                 ghost others: Slot -> Result<Payload<Snapshot<F>>, string>)
    returns (r: Result<Loaded<Snapshot<F>>, string>, attempts: nat, ghost at: nat, ghost found: map<nat, Payload<Snapshot<F>>>)
    requires Sound(cache, src, ns, q.dataset, others) && RolesSuffice(policy)
    requires Ascending(src.available) && first < |src.available|
    modifies cache
    ensures Sound(cache, src, ns, q.dataset, others)
    ensures r == LoadWith(src, q, first, found) && FoundAnswers(src, q, found)
    ensures var answer := Answer(src, q, src.available[first..]);
            if answer.Err? then r == Err(answer.error) else r.Ok? && r.value.payload == answer.value
    ensures r.Ok? ==> first <= at < |src.available| && r.value.identity == SnapshotIdentity(q, src.available[at])
    ensures r.Ok? ==> Answer(src, q, src.available[at..]) == Answer(src, q, src.available[first..])
    ensures attempts <= (|src.available| - first) * AttemptLimit(src)
  {
    hide Sound;
    ghost var count := |src.available| - first;
    var index := first;
    at := first;
    found := map[];
    attempts := 0;
    while index < |src.available|
      invariant first <= index < |src.available| && attempts <= (index - first) * AttemptLimit(src)
      invariant Sound(cache, src, ns, q.dataset, others)
      invariant found == map[] && FoundAnswers(src, q, found)
      invariant forall later: map<nat, Payload<Snapshot<F>>> :: (forall j :: j in later ==> j >= index) ==>
                  LoadWith(src, q, first, later) == LoadWith(src, q, index, later)
      invariant Answer(src, q, src.available[index..]) == Answer(src, q, src.available[first..])
      decreases |src.available| - index
    {
      var resolution := src.available[index];
      at := index;
      AnswerStep(src, q, index);
      AttemptsFit(index - first, count, AttemptLimit(src));
      var cached := Cached(cache, ns, policy, src, q, index, clock(index), others);
      if cached.Some? {
        found := map[index := cached.value];
        return Ok(Loaded(SnapshotIdentity(q, resolution), cached.value)), attempts, at, found;
      }
      var response, used := FetchResolution(src, q, resolution);
      attempts := attempts + used;
      if response.Failure? {
        if response.error.noData {
          return Ok(Loaded(SnapshotIdentity(q, resolution),
                           Payload(Snapshot(src.emptyFrame(q.date, resolution), resolution), Some(0)))), attempts, at, found;
        }
        var hasCoarser := index + 1 < |src.available|;
        if !src.fallback || !hasCoarser || !response.error.tooFine {
          return Err(response.error.message), attempts, at, found;
        }
        index := index + 1;
      } else {
        return Ok(Loaded(SnapshotIdentity(q, resolution),
                         Payload(Snapshot(response.frame, resolution), Some(response.rows)))), attempts, at, found;
      }
    }
    assert false;
    r := Err(NO_SNAPSHOT);
  }

  /** The loaded snapshot is committed under the resolution it came from, aliased from the requested one. */
  method Remember<F(!new)>(cache: CanonicalSnapshotCache<Snapshot<F>>, ns: Namespace, policy: Policy, src: Source<F>,
                           q: Request, first: nat, ghost at: nat, loaded: Loaded<Snapshot<F>>, now: real,
                           ghost others: Slot -> Result<Payload<Snapshot<F>>, string>)
    requires Sound(cache, src, ns, q.dataset, others) && RolesSuffice(policy) && policy.enabled
    requires Ascending(src.available) && first <= at < |src.available|
    requires loaded.identity == SnapshotIdentity(q, src.available[at])
    requires Ok(loaded.payload) == Answer(src, q, src.available[at..]) == Answer(src, q, src.available[first..])
    modifies cache
    ensures Sound(cache, src, ns, q.dataset, others)
  {
    SnapshotKey(src, ns, others, policy, q, at);
    SnapshotKey(src, ns, others, policy, q, first);
    var key := PolicyKey(policy, SnapshotIdentity(q, src.available[first])).value;
    CommitFaithful(cache.State(), ns, policy, key, PolicyKey(policy, loaded.identity).value, loaded, now,
                   Payloads(SnapshotAnswers(src, ns, q.dataset, others)));
    var _ := cache.RememberLocked(ns, policy, key, loaded, now);
  }

  lemma NothingAsked(explicit: Option<real>)
    ensures forall r :: !Asked([], explicit, r)
  {
  }

  lemma ServedRequest<F>(src: Source<F>, q: Request, explicit: Option<real>)
    requires Ascending(src.available) && src.available != []
    ensures forall requested, a :: Asked(src.available, explicit, requested) && Answers(src, q, requested, a) ==>
              var candidates := Candidates(src.available, ResolutionForRequest(src.available, explicit).value);
              candidates != [] && IsOutcome(src, q, a, Settled(src, q, a), Answer(src, q, candidates))
  {
    hide Answer, Settled, Answers, IsOutcome, Asked, Candidates, ResolutionForRequest;
    ResolutionIsAsked(src.available, explicit);
    forall requested, a | Asked(src.available, explicit, requested) && Answers(src, q, requested, a)
      ensures var candidates := Candidates(src.available, ResolutionForRequest(src.available, explicit).value);
              candidates != [] && IsOutcome(src, q, a, Settled(src, q, a), Answer(src, q, candidates))
    {
      MemberIsFirst(src.available, requested);
      CandidatesOfMember(src.available, FirstAtLeast(src.available, requested));
      AnswerIsServed(src, q, FirstAtLeast(src.available, requested), a);
    }
  }

  /** The whole request: a cached or aliased snapshot, or the loader's, remembered under the resolution it came from.
      Whatever is already cached, the answer is the reference answer for the requested resolution. */
  method LoadCanonicalSnapshot<F(!new)>(cache: CanonicalSnapshotCache<Snapshot<F>>, ns: Namespace, policy: Policy, src: Source<F>,
                                        q: Request, explicit: Option<real>, clock: nat -> real, lookupAt: real, commitAt: real,
                                        ghost others: Slot -> Result<Payload<Snapshot<F>>, string>)
    returns (r: Result<Payload<Snapshot<F>>, string>, attempts: nat)
    requires Sound(cache, src, ns, q.dataset, others) && RolesSuffice(policy) && Ascending(src.available)
    modifies cache
    ensures Sound(cache, src, ns, q.dataset, others)
    ensures src.available == [] ==> r == Err(NO_RESOLUTIONS) && attempts == 0
    ensures src.available != [] ==>
      var candidates := Candidates(src.available, ResolutionForRequest(src.available, explicit).value);
      candidates != [] && r == Answer(src, q, candidates) && attempts <= |candidates| * AttemptLimit(src)
    ensures forall requested, a :: Asked(src.available, explicit, requested) && Answers(src, q, requested, a) ==>
              IsOutcome(src, q, a, Settled(src, q, a), r)
  {
    hide Sound, Answer, RolesSuffice, Ascending, FirstAtLeast;
    hide Asked, Answers, IsOutcome, Settled;
    attempts := 0;
    NothingAsked(explicit);
    if src.available != [] {
      ServedRequest(src, q, explicit);
    }
    var requested := ResolutionForRequest(src.available, explicit);
    if requested.Err? {
      return Err(requested.error), 0;
    }
    var first := FirstAtLeast(src.available, requested.value);
    MemberIsFirst(src.available, requested.value);
    var found := Cached(cache, ns, policy, src, q, first, lookupAt, others);
    if found.Some? {
      return Ok(found.value), 0;
    }
    var loaded, used, at, _ := LoadCandidates(cache, ns, policy, src, q, first, clock, others);
    attempts := used;
    if loaded.Err? {
      return Err(loaded.error), attempts;
    }
    if policy.enabled {
      Remember(cache, ns, policy, src, q, first, at, loaded.value, commitAt, others);
    }
    r := Ok(loaded.value.payload);
  }

  lemma MemberIsFirst(available: seq<real>, r: real)
    requires Ascending(available) && r in available
    ensures FirstAtLeast(available, r) < |available| && available[FirstAtLeast(available, r)] == r
  {
    var i :| 0 <= i < |available| && available[i] == r;
    var j := FirstAtLeast(available, r);
    assert j <= i;
    assert available[j] >= r;
  }
}
