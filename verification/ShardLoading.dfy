/** Loading a sharded window through the snapshot cache: any mix of cached and fresh shards, finishing in any order. */
module ShardLoading {
  import opened Prelude
  import opened Sequences
  import opened SnapshotStore
  import opened SnapshotInvariants
  import opened SnapshotCache
  import opened ShardIdentity
  import opened ShardPlanning
  import opened ShardValidation
  import opened ShardAssembly
  import GridFrames
  import FrameMerging
  import GridMapping
  import Fallback = ResolutionFallback

  type Row = GridFrames.Row
  type Request = Fallback.Request

  datatype ShardResponse = Missing(reason: string) | Failure(message: string) | Page(rows: seq<Row>, metadata: PageMetadata)

  /** A source with a fixed response to every window of every request, and the contract it is read by. */
  datatype ShardSource = ShardSource(
    respond: (Request, real, Window) -> ShardResponse,
    mapping: GridMapping.Mapping, bounds: Value -> Bounds, pageSize: int)

  datatype ShardSnapshot = ShardSnapshot(frame: GridFrames.Frame, sourceRows: nat, duplicates: int, missing: Option<string>)

  const NOT_INDEXED := "sampled-grid pagination currently requires global_index geometry"
  const PARTIALLY_MISSING := "sampled-grid source returned a partially missing shard set"

  function ContextOf(q: Request, resolution: real): GridMapping.Context {
    map["date" := q.date, "resolution" := Num(resolution)]
  }

  // ----- the plan of a request -----------------------------------------------------------------------------------

  function GeometryOf(m: GridMapping.Mapping): Option<Geometry> {
    if m.originLat.Some? && m.originLon.Some? && m.unitsPerDegree.Some? && m.baseResolution.Some?
    then Some(Geometry(m.originLat.value, m.originLon.value, m.unitsPerDegree.value, m.baseResolution.value)) else None
  }

  function PlanFor(src: ShardSource, q: Request, viewport: Option<Bounds>, resolution: real): Result<QueryPlan, string> {
    if src.pageSize < 1 then Err(BAD_PAGE_SIZE)
    else if src.mapping.encoding != "global_index" then Err(NOT_INDEXED)
    else if GeometryOf(src.mapping).None? then Err(INCOMPLETE_GEOMETRY)
    else Plan(viewport, src.bounds(q.coverage), resolution, GeometryOf(src.mapping).value, src.pageSize)
  }

  /** The index axes of a request: they depend on its coverage and resolution, not on the viewport. */
  function AxesOf(src: ShardSource, q: Request, resolution: real): Grid {
    match GeometryOf(src.mapping)
    case None => Grid(0, 0, 0, 0, 0, 0, 0.0, 0.0, 0.0, Bounds(0.0, 0.0, 0.0, 0.0))
    case Some(g) =>
      var coverage := src.bounds(q.coverage);
      Grid(0, 0, 0, 0, 0, 0,
           (coverage.west - g.originLon) * g.unitsPerDegree, (g.originLat - coverage.north) * g.unitsPerDegree,
           if g.baseResolution > 0.0 then resolution / g.baseResolution else 0.0, Bounds(0.0, 0.0, 0.0, 0.0))
  }

  ghost predicate SameAxes(a: Grid, b: Grid) {
    a.columnIndexStart == b.columnIndexStart && a.rowIndexStart == b.rowIndexStart && a.indexStep == b.indexStep
  }

  lemma PlanForIsPlan(src: ShardSource, q: Request, viewport: Option<Bounds>, resolution: real, plan: QueryPlan)
    requires PlanFor(src, q, viewport, resolution) == Ok(plan)
    ensures GeometryOf(src.mapping).Some?
    ensures Plan(viewport, src.bounds(q.coverage), resolution, GeometryOf(src.mapping).value, src.pageSize) == Ok(plan)
  {
    hide Plan;
  }

  lemma AxesAre(src: ShardSource, q: Request, resolution: real, grid: Grid)
    requires GeometryOf(src.mapping).Some? && GeometryOf(src.mapping).value.baseResolution > 0.0
    requires var g, coverage := GeometryOf(src.mapping).value, src.bounds(q.coverage);
             && grid.columnIndexStart == (coverage.west - g.originLon) * g.unitsPerDegree
             && grid.rowIndexStart == (g.originLat - coverage.north) * g.unitsPerDegree
             && grid.indexStep == resolution / g.baseResolution
    ensures SameAxes(grid, AxesOf(src, q, resolution))
  {
    hide GeometryOf;
  }

  lemma PlanKeepsAxes(src: ShardSource, q: Request, viewport: Option<Bounds>, resolution: real, plan: QueryPlan)
    requires PlanFor(src, q, viewport, resolution) == Ok(plan)
    ensures SameAxes(plan.grid, AxesOf(src, q, resolution)) && plan.grid.indexStep > 0.0
    ensures TilesWindow(plan, src.pageSize) && DistinctShardIds(plan.shards) && Width(plan.grid) > 0
  {
    hide *;
    PlanForIsPlan(src, q, viewport, resolution, plan);
    var g := GeometryOf(src.mapping).value;
    PlanIsBestTiling(viewport, src.bounds(q.coverage), resolution, g, src.pageSize, plan, []);
    SnapGridIsWindow(viewport, src.bounds(q.coverage), resolution, g, plan.grid);
    SnapGridAxes(viewport, src.bounds(q.coverage), resolution, g, plan.grid);
    AxesAre(src, q, resolution, plan.grid);
  }

  /** The shard of a source window: its slots are the window counted from the axes. */
  function ShardFor(axes: Grid, window: Window): Shard
    requires axes.indexStep > 0.0
  {
    var rowStart := SlotOf(window.rowStart as real, axes.rowIndexStart, axes.indexStep).Floor;
    var rowStop := SlotOf(window.rowStop as real, axes.rowIndexStart, axes.indexStep).Floor;
    var columnStart := SlotOf(window.columnStart as real, axes.columnIndexStart, axes.indexStep).Floor;
    var columnStop := SlotOf(window.columnStop as real, axes.columnIndexStart, axes.indexStep).Floor;
    Shard(0, ShardId(window), (rowStop - rowStart) * (columnStop - columnStart), rowStart, rowStop, columnStart, columnStop,
          window.rowStart, window.rowStop, window.columnStart, window.columnStop)
  }

  lemma SlotFloor(index: int, start: real, step: real, number: int)
    requires step > 0.0 && index as real == start + Edge(number, step)
    ensures SlotOf(index as real, start, step).Floor == number
  {
    SlotOfIndex(index as real, start, step, number);
  }

  /** A planned shard is determined by its source window, whatever the viewport it was planned for. */
  lemma ShardOfItsWindow(axes: Grid, grid: Grid, shard: Shard, k: int, page: int)
    requires axes.indexStep > 0.0 && SameAxes(axes, grid) && FitsPage(shard, k, grid, page)
    ensures ShardFor(axes, WindowOf(shard)) == shard.(index := 0)
  {
    hide ShardId, SlotOf, Edge;
    SlotFloor(shard.sourceRowStart, grid.rowIndexStart, grid.indexStep, shard.rowStart);
    SlotFloor(shard.sourceRowStop, grid.rowIndexStart, grid.indexStep, shard.rowStop);
    SlotFloor(shard.sourceColumnStart, grid.columnIndexStart, grid.indexStep, shard.columnStart);
    SlotFloor(shard.sourceColumnStop, grid.columnIndexStart, grid.indexStep, shard.columnStop);
  }

  // ----- one shard ---------------------------------------------------------------------------------------------------

  /** What a fresh load of a window gives: it depends on the request and the window alone. */
  function ShardAnswer(src: ShardSource, q: Request, resolution: real, window: Window): Result<ShardSnapshot, string> {
    var axes := AxesOf(src, q, resolution);
    var context := ContextOf(q, resolution);
    match src.respond(q, resolution, window)
    case Missing(reason) => Ok(ShardSnapshot(GridMapping.RowFrame(src.mapping, context, []), 0, 0, Some(reason)))
    case Failure(message) => Err(message)
    case Page(rows, metadata) =>
      if axes.indexStep <= 0.0 then Err(INCOMPLETE_GEOMETRY)
      else
        var verdict := RowsVerdict(Identities(src.mapping, rows), metadata, axes, ShardFor(axes, window));
        if verdict.Err? then Err(verdict.error)
        else Ok(ShardSnapshot(GridMapping.RowFrame(src.mapping, context, rows), |rows|, verdict.value, None))
  }

  function ShardKeyIdentity(q: Request, resolution: real, shardId: string): Identity {
    Fallback.SnapshotIdentity(q, resolution)["shard_id" := Plain(shardId)]
  }

  function PayloadOf(s: ShardSnapshot): Payload<ShardSnapshot> {
    Payload(s, Some(s.sourceRows))
  }

  /** A cached shard weighs as many rows as its frame has. */
  lemma CachedShardWeighs(src: ShardSource, q: Request, resolution: real, window: Window)
    requires ShardAnswer(src, q, resolution, window).Ok?
    ensures var snapshot := ShardAnswer(src, q, resolution, window).value;
            PayloadOf(snapshot).body == snapshot && PayloadOf(snapshot).rowCount == Some(snapshot.frame.rowCount)
  {
    hide RowsVerdict, ShardFor, AxesOf, ContextOf, Identities, GridMapping.RowFrame;
    match src.respond(q, resolution, window)
    case Missing(_) =>
      MappedCount(src.mapping, ContextOf(q, resolution), []);
    case Failure(_) =>
    case Page(rows, _) =>
      MappedCount(src.mapping, ContextOf(q, resolution), rows);
  }

  lemma MappedCount(m: GridMapping.Mapping, context: GridMapping.Context, rows: seq<Row>)
    ensures GridMapping.RowFrame(m, context, rows).rowCount == |rows|
  {
  }

  function PayloadAnswer(answer: Result<ShardSnapshot, string>): Result<Payload<ShardSnapshot>, string> {
    match answer
    case Ok(snapshot) => Ok(PayloadOf(snapshot))
    case Err(error) => Err(error)
  }

  /** The source as the cache sees it: under a shard key of this namespace, the answer for the window its text names; other
      keys are someone else's. */
  function ShardAnswers(src: ShardSource, ns: Namespace, dataset: string, others: Slot -> Result<Payload<ShardSnapshot>, string>):
    (Slot -> Result<Payload<ShardSnapshot>, string>)
  {
    (slot: Slot) =>
      match (Fallback.Lookup(slot.1, "date"), Fallback.Lookup(slot.1, "coverage_id"), Fallback.Lookup(slot.1, "resolution_km"),
             Fallback.Lookup(slot.1, "shard_id"))
      case (Some(date), Some(coverage), Some(Num(resolution)), Some(Text(id, _))) =>
        if slot.0 != ns then others(slot)
        else PayloadAnswer(ShardAnswer(src, Fallback.Request(dataset, date, coverage), resolution, ReadShardId(id)))
      case _ => others(slot)
  }

  /** The shard policy's roles: those of the snapshot and the shard identity. */
  ghost predicate ShardRolesSuffice(policy: Policy) {
    policy.enabled ==>
      && policy.maxEntries >= 1
      && "date" in policy.roles && "coverage_id" in policy.roles && "resolution_km" in policy.roles && "shard_id" in policy.roles
      && forall r :: r in policy.roles ==> r in ["dataset_id", "date", "coverage_id", "resolution_km", "shard_id"]
  }

  /** The key of a shard stands for its own window: the text of the window is read back. */
  lemma ShardKey(src: ShardSource, ns: Namespace, others: Slot -> Result<Payload<ShardSnapshot>, string>, policy: Policy, q: Request,
      resolution: real, window: Window)
    requires ShardRolesSuffice(policy) && policy.enabled
    ensures PolicyKey(policy, ShardKeyIdentity(q, resolution, ShardId(window))).Ok?
    ensures ShardAnswers(src, ns, q.dataset, others)((ns, PolicyKey(policy, ShardKeyIdentity(q, resolution, ShardId(window))).value)) ==
            PayloadAnswer(ShardAnswer(src, q, resolution, window))
  {
    hide ShardId, ReadShardId, ShardAnswer, Fallback.Lookup;
    var identity := ShardKeyIdentity(q, resolution, ShardId(window));
    Fallback.LookupRole(policy.roles, identity, "date");
    Fallback.LookupRole(policy.roles, identity, "coverage_id");
    Fallback.LookupRole(policy.roles, identity, "resolution_km");
    Fallback.LookupRole(policy.roles, identity, "shard_id");
    ShardIdRoundTrip(window);
    assert Fallback.Request(q.dataset, q.date, q.coverage) == q;
  }

  ghost predicate Sound(cache: CanonicalSnapshotCache<ShardSnapshot>, src: ShardSource, ns: Namespace, dataset: string,
                        others: Slot -> Result<Payload<ShardSnapshot>, string>)
    reads cache
  {
    cache.Valid() && Faithful(cache.State(), Payloads(ShardAnswers(src, ns, dataset, others)))
  }

  /** A shard is taken from the cache or loaded and committed: either way it is the answer for its window. */
  method LoadShard(cache: CanonicalSnapshotCache<ShardSnapshot>, ns: Namespace, policy: Policy, src: ShardSource, q: Request,
                   resolution: real, shard: Shard, lookupAt: real, commitAt: real,
                   ghost others: Slot -> Result<Payload<ShardSnapshot>, string>)
    returns (r: Result<ShardSnapshot, string>)
    requires Sound(cache, src, ns, q.dataset, others) && ShardRolesSuffice(policy)
    requires shard.shardId == ShardId(WindowOf(shard))
    modifies cache
    ensures Sound(cache, src, ns, q.dataset, others)
    ensures r == ShardAnswer(src, q, resolution, WindowOf(shard))
  {
    hide ShardAnswer, Faithful, ShardAnswers, Resolve, Commit, ShardId;
    var identity := ShardKeyIdentity(q, resolution, shard.shardId);
    var answer := ShardAnswer(src, q, resolution, WindowOf(shard));
    var loadedNow: Result<Loaded<ShardSnapshot>, string> :=
      if answer.Ok? then Ok(Loaded(identity, PayloadOf(answer.value))) else Err(answer.error);
    ghost var source := Payloads(ShardAnswers(src, ns, q.dataset, others));
    if policy.enabled {
      ShardKey(src, ns, others, policy, q, resolution, WindowOf(shard));
      ghost var key := PolicyKey(policy, identity).value;
      ResolveFaithful(cache.State(), ns, policy, key, lookupAt, source);
      if answer.Ok? {
        CommitFaithful(Resolve(cache.State(), ns, policy, key, lookupAt).0, ns, policy, key, key, loadedNow.value, commitAt, source);
      }
    }
    var loaded := cache.GetOrLoad(ns, policy, identity, () => loadedNow, lookupAt, commitAt);
    r := if loaded.Ok? then Ok(loaded.value.payload.body) else Err(loaded.error);
  }

  // ----- all shards of a plan ------------------------------------------------------------------------------------------

  function AnswerAt(src: ShardSource, q: Request, resolution: real, plan: QueryPlan, k: int): Result<ShardSnapshot, string>
    requires 0 <= k < |plan.shards|
  {
    ShardAnswer(src, q, resolution, WindowOf(plan.shards[k]))
  }

  /** A plan of this request: what `PlanKeepsAxes` shows of every one. */
  ghost predicate PlanOfRequest(src: ShardSource, q: Request, resolution: real, plan: QueryPlan) {
    && SameAxes(plan.grid, AxesOf(src, q, resolution)) && plan.grid.indexStep > 0.0
    && TilesWindow(plan, src.pageSize) && DistinctShardIds(plan.shards) && Width(plan.grid) > 0
  }

  /** An order in which the shards of a plan may finish. */
  ghost predicate Completes(order: seq<nat>, n: nat) {
    && (forall i :: 0 <= i < |order| ==> order[i] < n)
    && (forall k :: 0 <= k < n ==> k in order)
  }

  lemma ShardNamesItsWindow(src: ShardSource, q: Request, resolution: real, plan: QueryPlan, k: int)
    requires PlanOfRequest(src, q, resolution, plan) && 0 <= k < |plan.shards|
    ensures plan.shards[k].shardId == ShardId(WindowOf(plan.shards[k]))
    ensures Planned(plan.shards[k]) && plan.shards[k].limit >= 1
    ensures ShardFor(AxesOf(src, q, resolution), WindowOf(plan.shards[k])) == plan.shards[k].(index := 0)
  {
    hide ShardId, RowIndex, ColumnIndex, AxesOf, ShardFor, DistinctShardIds;
    assert FitsPage(plan.shards[k], k, plan.grid, src.pageSize);
    ShardOfItsWindow(AxesOf(src, q, resolution), plan.grid, plan.shards[k], k, src.pageSize);
  }

  lemma IdsIdentify(plan: QueryPlan, i: int, j: int)
    requires DistinctShardIds(plan.shards) && 0 <= i < |plan.shards| && 0 <= j < |plan.shards|
    ensures plan.shards[i].shardId == plan.shards[j].shardId <==> i == j
  {
  }

  /** Loads every shard in the order given, up to the first failure. */
  method LoadShards(cache: CanonicalSnapshotCache<ShardSnapshot>, ns: Namespace, policy: Policy, src: ShardSource, q: Request,
                    resolution: real, plan: QueryPlan, order: seq<nat>, clock: nat -> real,
                    ghost others: Slot -> Result<Payload<ShardSnapshot>, string>)
    returns (r: Result<map<string, ShardSnapshot>, string>)
    requires Sound(cache, src, ns, q.dataset, others) && ShardRolesSuffice(policy)
    requires PlanOfRequest(src, q, resolution, plan) && Completes(order, |plan.shards|)
    modifies cache
    ensures Sound(cache, src, ns, q.dataset, others)
    ensures r.Err? ==> exists k :: 0 <= k < |plan.shards| && AnswerAt(src, q, resolution, plan, k) == Err(r.error)
    ensures r.Ok? ==> forall k :: 0 <= k < |plan.shards| ==>
              plan.shards[k].shardId in r.value && AnswerAt(src, q, resolution, plan, k) == Ok(r.value[plan.shards[k].shardId])
  {
    hide Sound, ShardRolesSuffice, PlanOfRequest, ShardAnswer, ShardId;
    var results: map<string, ShardSnapshot> := map[];
    var i := 0;
    while i < |order|
      invariant 0 <= i <= |order| && Sound(cache, src, ns, q.dataset, others)
      invariant forall j :: 0 <= j < i ==>
                  && plan.shards[order[j]].shardId in results
                  && AnswerAt(src, q, resolution, plan, order[j]) == Ok(results[plan.shards[order[j]].shardId])
    {
      var k := order[i];
      ShardNamesItsWindow(src, q, resolution, plan, k);
      var loaded := LoadShard(cache, ns, policy, src, q, resolution, plan.shards[k], clock(2 * i), clock(2 * i + 1), others);
      assert loaded == AnswerAt(src, q, resolution, plan, k);
      if loaded.Err? {
        return Err(loaded.error);
      }
      forall j | 0 <= j < i && plan.shards[order[j]].shardId == plan.shards[k].shardId
        ensures AnswerAt(src, q, resolution, plan, order[j]) == loaded
      {
        PlanIdsIdentify(src, q, resolution, plan, order[j], k);
      }
      results := results[plan.shards[k].shardId := loaded.value];
      i := i + 1;
    }
    forall k | 0 <= k < |plan.shards|
      ensures plan.shards[k].shardId in results && AnswerAt(src, q, resolution, plan, k) == Ok(results[plan.shards[k].shardId])
    {
      assert k in order;
      var j :| 0 <= j < |order| && order[j] == k;
    }
    return Ok(results);
  }

  lemma PlanIdsIdentify(src: ShardSource, q: Request, resolution: real, plan: QueryPlan, i: int, j: int)
    requires PlanOfRequest(src, q, resolution, plan) && 0 <= i < |plan.shards| && 0 <= j < |plan.shards|
    ensures plan.shards[i].shardId == plan.shards[j].shardId <==> i == j
  {
    hide TilesWindow, AxesOf;
    IdsIdentify(plan, i, j);
  }

  // ----- the stitched answer ---------------------------------------------------------------------------------------------

  datatype ShardedSnapshot = ShardedSnapshot(frame: GridFrames.Frame, sourceRows: int, duplicates: int, missing: Option<string>)

  function RowsOfResponse(response: ShardResponse): seq<Row> {
    if response.Page? then response.rows else []
  }

  function ReasonOf(response: ShardResponse): Option<string> {
    if response.Missing? then Some(response.reason) else None
  }

  /** The rows the source gives for each planned shard. */
  function PagesOf(src: ShardSource, q: Request, resolution: real, plan: QueryPlan): (pages: seq<seq<Row>>)
    ensures |pages| == |plan.shards|
    ensures forall k :: 0 <= k < |pages| ==> pages[k] == RowsOfResponse(src.respond(q, resolution, WindowOf(plan.shards[k])))
  {
    seq(|plan.shards|, k requires 0 <= k < |plan.shards| => RowsOfResponse(src.respond(q, resolution, WindowOf(plan.shards[k]))))
  }

  ghost predicate AllAnswer(src: ShardSource, q: Request, resolution: real, plan: QueryPlan) {
    forall k :: 0 <= k < |plan.shards| ==> AnswerAt(src, q, resolution, plan, k).Ok?
  }

  predicate IsMissing(src: ShardSource, q: Request, resolution: real, plan: QueryPlan, k: int)
    requires 0 <= k < |plan.shards|
  {
    src.respond(q, resolution, WindowOf(plan.shards[k])).Missing?
  }

  ghost predicate NoneMissing(src: ShardSource, q: Request, resolution: real, plan: QueryPlan) {
    forall k :: 0 <= k < |plan.shards| ==> !IsMissing(src, q, resolution, plan, k)
  }

  ghost predicate AllMissing(src: ShardSource, q: Request, resolution: real, plan: QueryPlan) {
    forall k :: 0 <= k < |plan.shards| ==> IsMissing(src, q, resolution, plan, k)
  }

  /** What an accepted shard is: its page is the row-major listing of its window. */
  lemma AnsweredShard(src: ShardSource, q: Request, resolution: real, plan: QueryPlan, k: int)
    requires PlanOfRequest(src, q, resolution, plan) && 0 <= k < |plan.shards| && AnswerAt(src, q, resolution, plan, k).Ok?
    ensures var snapshot := AnswerAt(src, q, resolution, plan, k).value;
            && snapshot.missing == ReasonOf(src.respond(q, resolution, WindowOf(plan.shards[k])))
            && snapshot.missing.Some? == IsMissing(src, q, resolution, plan, k)
            && (snapshot.missing.None? ==>
                  var rows := PagesOf(src, q, resolution, plan)[k];
                  && snapshot == ShardSnapshot(GridMapping.RowFrame(src.mapping, ContextOf(q, resolution), rows), |rows|, 0, None)
                  && |rows| == plan.shards[k].limit >= 1
                  && ColumnCount(plan.shards[k]) > 0
                  && RowMajor(plan.grid, plan.shards[k], Identities(src.mapping, rows)))
  {
    ShardNamesItsWindow(src, q, resolution, plan, k);
    hide GridMapping.RowFrame, ShardFor, RowsVerdict, Planned, TilesWindow, DistinctShardIds;
    var response := src.respond(q, resolution, WindowOf(plan.shards[k]));
    if response.Page? {
      VerdictOk(Identities(src.mapping, response.rows), response.metadata, AxesOf(src, q, resolution), plan.grid, plan.shards[k]);
    }
  }

  lemma VerdictOk(page: seq<Cell>, metadata: PageMetadata, axes: Grid, grid: Grid, shard: Shard)
    requires SameAxes(grid, axes) && grid.indexStep > 0.0 && Planned(shard)
    ensures RowsVerdict(page, metadata, axes, shard.(index := 0)).Ok? ==> RowsVerdict(page, metadata, axes, shard.(index := 0)) == Ok(0)
    ensures ColumnCount(shard) > 0
    ensures RowsVerdict(page, metadata, axes, shard.(index := 0)).Ok? <==>
            MatchesShard(|page|, metadata, shard) && RowMajor(grid, shard, page)
  {
    AcceptedIffRowMajor(page, metadata, axes, shard.(index := 0));
    hide FirstRowError, Planned;
    forall p | 0 <= p < |page| ensures Expected(grid, shard, p) == Expected(axes, shard.(index := 0), p) {
    }
  }

  /** The source sends the row-major listing of a planned window, with metadata to match. */
  ghost predicate ServesWindow(src: ShardSource, q: Request, resolution: real, plan: QueryPlan, k: int)
    requires 0 <= k < |plan.shards|
  {
    var shard := plan.shards[k];
    var response := src.respond(q, resolution, WindowOf(shard));
    && response.Page? && ColumnCount(shard) > 0
    && MatchesShard(|response.rows|, response.metadata, shard)
    && RowMajor(plan.grid, shard, Identities(src.mapping, response.rows))
  }

  /** Every shard answers with cells exactly when the source serves every planned window. */
  lemma AnswersIffServed(src: ShardSource, q: Request, resolution: real, plan: QueryPlan)
    requires PlanOfRequest(src, q, resolution, plan)
    ensures AllAnswer(src, q, resolution, plan) && NoneMissing(src, q, resolution, plan) <==>
            forall k :: 0 <= k < |plan.shards| ==> ServesWindow(src, q, resolution, plan, k)
  {
    hide PlanOfRequest, AnswerAt, IsMissing, ServesWindow;
    forall k | 0 <= k < |plan.shards|
      ensures AnswerAt(src, q, resolution, plan, k).Ok? && !IsMissing(src, q, resolution, plan, k) <==>
              ServesWindow(src, q, resolution, plan, k)
    {
      ShardAnswersIffServed(src, q, resolution, plan, k);
    }
  }

  lemma ShardAnswersIffServed(src: ShardSource, q: Request, resolution: real, plan: QueryPlan, k: int)
    requires PlanOfRequest(src, q, resolution, plan) && 0 <= k < |plan.shards|
    ensures AnswerAt(src, q, resolution, plan, k).Ok? && !IsMissing(src, q, resolution, plan, k) <==>
            ServesWindow(src, q, resolution, plan, k)
  {
    ShardNamesItsWindow(src, q, resolution, plan, k);
    hide GridMapping.RowFrame, ShardFor, RowsVerdict, Planned, TilesWindow, DistinctShardIds, MatchesShard, RowMajor;
    var response := src.respond(q, resolution, WindowOf(plan.shards[k]));
    if response.Page? {
      VerdictOk(Identities(src.mapping, response.rows), response.metadata, AxesOf(src, q, resolution), plan.grid, plan.shards[k]);
    }
  }

  function Published(stitched: Result<Assembled, string>): Result<ShardedSnapshot, string> {
    if stitched.Err? then Err(stitched.error)
    else Ok(ShardedSnapshot(stitched.value.frame, stitched.value.sourceRows, stitched.value.duplicates, None))
  }

  /** What a sharded read gives when every shard answers: nothing if all are missing, else the stitched frame. */
  ghost function Outcome(src: ShardSource, q: Request, resolution: real, plan: QueryPlan): Result<ShardedSnapshot, string>
    requires |plan.shards| > 0 && NoDup(GridMapping.Fields(src.mapping))
  {
    var context := ContextOf(q, resolution);
    PartsWellFormed(src.mapping, context, PagesOf(src, q, resolution, plan));
    if NoneMissing(src, q, resolution, plan) then
      Published(Stitched(plan, MappedShards(src.mapping, context, PagesOf(src, q, resolution, plan))))
    else if AllMissing(src, q, resolution, plan) then
      Ok(ShardedSnapshot(GridMapping.RowFrame(src.mapping, context, []), 0, 0,
                         ReasonOf(src.respond(q, resolution, WindowOf(plan.shards[0])))))
    else Err(PARTIALLY_MISSING)
  }

  lemma PagesAccepted(src: ShardSource, q: Request, resolution: real, plan: QueryPlan)
    requires PlanOfRequest(src, q, resolution, plan) && AllAnswer(src, q, resolution, plan) && NoneMissing(src, q, resolution, plan)
    ensures Accepted(src.mapping, plan, PagesOf(src, q, resolution, plan))
  {
    hide TilesWindow, RowMajor, ShardAnswer, AxesOf, DistinctShardIds;
    forall k | 0 <= k < |plan.shards|
      ensures ColumnCount(plan.shards[k]) > 0
              && RowMajor(plan.grid, plan.shards[k], Identities(src.mapping, PagesOf(src, q, resolution, plan)[k]))
    {
      assert !IsMissing(src, q, resolution, plan, k);
      AnsweredShard(src, q, resolution, plan, k);
    }
  }

  /** The main result of sharded reads: when every shard answers and none is missing, the pages together are the row-major
      listing of the snapped window, every cell once, and the result is the mapping of that one listing, as a single plain
      read of the window would give it. */
  lemma ShardedReadRefinesPlainRead(src: ShardSource, q: Request, resolution: real, plan: QueryPlan)
    requires PlanOfRequest(src, q, resolution, plan) && AllAnswer(src, q, resolution, plan) && NoneMissing(src, q, resolution, plan)
    requires NoDup(GridMapping.Fields(src.mapping)) && |plan.shards| > 0
    ensures var rows := FrameMerging.Flatten(PagesOf(src, q, resolution, plan));
            var context := ContextOf(q, resolution);
            var outcome := Outcome(src, q, resolution, plan);
            && RowMajor(plan.grid, WholeWindow(plan.grid), Identities(src.mapping, rows))
            && (outcome.Ok? <==> ShardsHoistAlike(src.mapping, context, PagesOf(src, q, resolution, plan))
                                 && NoDup(CellIds(src.mapping, context, rows)))
            && (outcome.Ok? ==> outcome.value == ShardedSnapshot(GridMapping.RowFrame(src.mapping, context, rows), |rows|, 0, None))
  {
    PagesAccepted(src, q, resolution, plan);
    PlanParts(src, q, resolution, plan);
    OutcomeIsStitched(src, q, resolution, plan);
    hide *;
    StitchRefinesPlainRead(src.mapping, ContextOf(q, resolution), plan, src.pageSize, PagesOf(src, q, resolution, plan));
    PlainReadIs(src.mapping, ContextOf(q, resolution), plan, FrameMerging.Flatten(PagesOf(src, q, resolution, plan)));
  }

  lemma PlanParts(src: ShardSource, q: Request, resolution: real, plan: QueryPlan)
    requires PlanOfRequest(src, q, resolution, plan)
    ensures Width(plan.grid) > 0 && TilesWindow(plan, src.pageSize)
  {
  }

  lemma OutcomeIsStitched(src: ShardSource, q: Request, resolution: real, plan: QueryPlan)
    requires NoDup(GridMapping.Fields(src.mapping)) && NoneMissing(src, q, resolution, plan) && |plan.shards| > 0
    ensures WellFormedParts(MappedShards(src.mapping, ContextOf(q, resolution), PagesOf(src, q, resolution, plan)))
    ensures Outcome(src, q, resolution, plan) ==
            Published(Stitched(plan, MappedShards(src.mapping, ContextOf(q, resolution), PagesOf(src, q, resolution, plan))))
  {
    PartsWellFormed(src.mapping, ContextOf(q, resolution), PagesOf(src, q, resolution, plan));
    hide Stitched, MappedShards, PagesOf, ContextOf, NoDup, GridMapping.Fields, WellFormedParts, NoneMissing;
  }

  lemma PlainReadIs(m: GridMapping.Mapping, context: GridMapping.Context, plan: QueryPlan, rows: seq<Row>)
    ensures var published := Published(PlainRead(m, context, plan, rows));
            && (published.Ok? <==> NoDup(CellIds(m, context, rows)))
            && (published.Ok? ==> published.value == ShardedSnapshot(GridMapping.RowFrame(m, context, rows), |rows|, 0, None))
    ensures forall e: string :: Published(Err(e)).Err?
  {
    hide GridMapping.RowFrame, CellIds, NoDup;
  }

  // ----- the whole request ---------------------------------------------------------------------------------------------------

  /** The shards of an answered plan, in plan order. */
  ghost predicate Ordered(src: ShardSource, q: Request, resolution: real, plan: QueryPlan, snapshots: seq<ShardSnapshot>) {
    && |snapshots| == |plan.shards|
    && forall k :: 0 <= k < |snapshots| ==> AnswerAt(src, q, resolution, plan, k) == Ok(snapshots[k])
  }

  function PartOf(snapshot: ShardSnapshot): CanonicalShard {
    CanonicalShard(snapshot.frame, if snapshot.sourceRows != 0 then snapshot.sourceRows else snapshot.frame.rowCount, snapshot.duplicates)
  }

  /** A present shard enters the assembler as the mapping of its page, with the planned number of rows. */
  lemma PartIsMapped(src: ShardSource, q: Request, resolution: real, plan: QueryPlan, k: int)
    requires PlanOfRequest(src, q, resolution, plan) && 0 <= k < |plan.shards| && AnswerAt(src, q, resolution, plan, k).Ok?
    requires !IsMissing(src, q, resolution, plan, k) && NoDup(GridMapping.Fields(src.mapping))
    ensures var part := PartOf(AnswerAt(src, q, resolution, plan, k).value);
            && part == MappedShard(src.mapping, ContextOf(q, resolution), PagesOf(src, q, resolution, plan)[k])
            && part.frame.rowCount == plan.shards[k].limit && GridFrames.WellFormed(part.frame)
  {
    AnsweredShard(src, q, resolution, plan, k);
    var rows := PagesOf(src, q, resolution, plan)[k];
    RowFrameWellFormed(src.mapping, ContextOf(q, resolution), rows);
    IdColumn(src.mapping, ContextOf(q, resolution), rows);
    hide GridMapping.RowFrame, GridFrames.WellFormed, RowMajor, PlanOfRequest, AnswerAt, NoDup, GridMapping.Fields, CellIds;
  }

  /** Empty and partly empty answers, then the assembler: the tail of `_load_paginated_canonical_snapshot`. */
  method Assemble(src: ShardSource, q: Request, resolution: real, plan: QueryPlan, snapshots: seq<ShardSnapshot>)
    returns (r: Result<ShardedSnapshot, string>)
    requires PlanOfRequest(src, q, resolution, plan) && Ordered(src, q, resolution, plan, snapshots)
    requires NoDup(GridMapping.Fields(src.mapping)) && |snapshots| > 0
    ensures r == Outcome(src, q, resolution, plan)
  {
    hide PlanOfRequest, AnswerAt, NoDup, GridMapping.Fields, GridMapping.RowFrame, Stitched, MappedShard, IsMissing, GridFrames.WellFormed,
         MappedShards, PartOf;
    forall k | 0 <= k < |snapshots|
      ensures snapshots[k].missing.Some? <==> IsMissing(src, q, resolution, plan, k)
      ensures snapshots[k].missing == ReasonOf(src.respond(q, resolution, WindowOf(plan.shards[k])))
    {
      AnsweredShard(src, q, resolution, plan, k);
    }
    if exists k :: 0 <= k < |snapshots| && snapshots[k].missing.Some? {
      if exists k :: 0 <= k < |snapshots| && snapshots[k].missing.None? {
        return Err(PARTIALLY_MISSING);
      }
      var frame := GridMapping.MapRows(src.mapping, ContextOf(q, resolution), []);
      return Ok(ShardedSnapshot(frame, 0, 0, snapshots[0].missing));
    }
    assert NoneMissing(src, q, resolution, plan);
    var assembler := new SampledGridFrameAssembler(plan);
    var i := 0;
    while i < |snapshots|
      invariant 0 <= i <= |snapshots| && assembler.Valid() && assembler.plan == plan
      invariant forall id :: id in assembler.shards ==> exists j :: 0 <= j < i && plan.shards[j].shardId == id
      invariant forall j :: 0 <= j < i ==>
                  plan.shards[j].shardId in assembler.shards && assembler.shards[plan.shards[j].shardId] == PartOf(snapshots[j])
    {
      PartIsMapped(src, q, resolution, plan, i);
      AddedOnce(src, q, resolution, plan, i);
      var added := assembler.AddShard(plan.shards[i], PartOf(snapshots[i]));
      assert added == Ok(());
      i := i + 1;
    }
    var assembled := assembler.Finish();
    assert InPlanOrder(plan, assembler.shards) == MappedShards(src.mapping, ContextOf(q, resolution), PagesOf(src, q, resolution, plan)) by {
      PartsAreMapped(src, q, resolution, plan, snapshots, InPlanOrder(plan, assembler.shards));
    }
    return Published(assembled);
  }

  lemma AddedOnce(src: ShardSource, q: Request, resolution: real, plan: QueryPlan, i: int)
    requires PlanOfRequest(src, q, resolution, plan) && 0 <= i < |plan.shards|
    ensures forall j :: 0 <= j < |plan.shards| && plan.shards[j].shardId == plan.shards[i].shardId ==> j == i
  {
    hide TilesWindow, AxesOf;
  }

  lemma PartsAreMapped(src: ShardSource, q: Request, resolution: real, plan: QueryPlan, snapshots: seq<ShardSnapshot>, parts: seq<CanonicalShard>)
    requires PlanOfRequest(src, q, resolution, plan) && Ordered(src, q, resolution, plan, snapshots)
    requires NoneMissing(src, q, resolution, plan) && NoDup(GridMapping.Fields(src.mapping))
    requires |parts| == |snapshots| && forall k :: 0 <= k < |parts| ==> parts[k] == PartOf(snapshots[k])
    ensures parts == MappedShards(src.mapping, ContextOf(q, resolution), PagesOf(src, q, resolution, plan))
  {
    hide PlanOfRequest, AnswerAt, NoDup, GridMapping.Fields, MappedShard, PartOf, IsMissing;
    forall k | 0 <= k < |parts|
      ensures parts[k] == MappedShard(src.mapping, ContextOf(q, resolution), PagesOf(src, q, resolution, plan)[k])
    {
      PartIsMapped(src, q, resolution, plan, k);
    }
  }

  /** A sharded read through the cache. Whatever is cached and in whatever order the shards finish, it fails with the plan's
      error or with a failing shard's, or it gives the stitched answer of the source. */
  method LoadPaginatedSnapshot(cache: CanonicalSnapshotCache<ShardSnapshot>, ns: Namespace, policy: Policy, src: ShardSource, q: Request,
                               viewport: Option<Bounds>, resolution: real, completion: nat -> seq<nat>, clock: nat -> real,
                               ghost others: Slot -> Result<Payload<ShardSnapshot>, string>)
    returns (r: Result<ShardedSnapshot, string>)
    requires Sound(cache, src, ns, q.dataset, others) && ShardRolesSuffice(policy)
    requires NoDup(GridMapping.Fields(src.mapping))
    requires forall n: nat :: Completes(completion(n), n)
    modifies cache
    ensures Sound(cache, src, ns, q.dataset, others)
    ensures var planned := PlanFor(src, q, viewport, resolution);
            if planned.Err? then r == Err(planned.error)
            else if AllAnswer(src, q, resolution, planned.value) then
              |planned.value.shards| > 0 && r == Outcome(src, q, resolution, planned.value)
            else exists k :: 0 <= k < |planned.value.shards| && AnswerAt(src, q, resolution, planned.value, k).Err?
                             && r == Err(AnswerAt(src, q, resolution, planned.value, k).error)
  {
    hide PlanFor, PlanOfRequest, Completes, Outcome, AnswerAt, Sound, ShardRolesSuffice, NoDup, GridMapping.Fields;
    var plan: QueryPlan;
    var planned := PlanRequest(src, q, viewport, resolution);
    if planned.Err? {
      return Err(planned.error);
    }
    plan := planned.value;
    PlanIsOfRequest(src, q, viewport, resolution, plan);
    var order := completion(|plan.shards|);
    var loaded := LoadShards(cache, ns, policy, src, q, resolution, plan, order, clock, others);
    if loaded.Err? {
      return Err(loaded.error);
    }
    var snapshots := seq(|plan.shards|, k requires 0 <= k < |plan.shards| && plan.shards[k].shardId in loaded.value =>
      loaded.value[plan.shards[k].shardId]);
    assert AllAnswer(src, q, resolution, plan);
    r := Assemble(src, q, resolution, plan, snapshots);
  }

  lemma PlanIsOfRequest(src: ShardSource, q: Request, viewport: Option<Bounds>, resolution: real, plan: QueryPlan)
    requires PlanFor(src, q, viewport, resolution) == Ok(plan)
    ensures PlanOfRequest(src, q, resolution, plan) && |plan.shards| >= 1
  {
    hide PlanFor, AxesOf, SameAxes, DistinctShardIds;
    PlanKeepsAxes(src, q, viewport, resolution, plan);
  }

  method PlanRequest(src: ShardSource, q: Request, viewport: Option<Bounds>, resolution: real) returns (r: Result<QueryPlan, string>)
    ensures r == PlanFor(src, q, viewport, resolution)
  {
    hide Plan;
    if src.pageSize < 1 {
      return Err(BAD_PAGE_SIZE);
    }
    if src.mapping.encoding != "global_index" {
      return Err(NOT_INDEXED);
    }
    var geometry := GeometryOf(src.mapping);
    if geometry.None? {
      return Err(INCOMPLETE_GEOMETRY);
    }
    r := ShardPlanning.PlanShards(viewport, src.bounds(q.coverage), resolution, geometry.value, src.pageSize);
  }

  /** A source whose rows are determined by their cell gives, shard by shard, what it gives in one read: row p of the result
      is the cell at position p of the whole window. */
  lemma SameRowsAsOneRead(src: ShardSource, q: Request, resolution: real, plan: QueryPlan, cell: (Cell) -> Row, p: int)
    requires PlanOfRequest(src, q, resolution, plan) && AllAnswer(src, q, resolution, plan) && NoneMissing(src, q, resolution, plan)
    requires NoDup(GridMapping.Fields(src.mapping)) && |plan.shards| > 0
    requires forall k :: 0 <= k < |plan.shards| ==> ServesCells(src.mapping, PagesOf(src, q, resolution, plan)[k], cell)
    requires 0 <= p < WholeWindow(plan.grid).limit && ColumnCount(WholeWindow(plan.grid)) > 0
    ensures var rows := FrameMerging.Flatten(PagesOf(src, q, resolution, plan));
            var (row, column) := Expected(plan.grid, WholeWindow(plan.grid), p);
            |rows| == WholeWindow(plan.grid).limit && rows[p] == cell(Cell(Some(row), Some(column)))
  {
    ShardedReadRefinesPlainRead(src, q, resolution, plan);
    var pages := PagesOf(src, q, resolution, plan);
    hide PlanOfRequest, AllAnswer, NoneMissing, PagesOf, Expected, NoDup, GridMapping.Fields, Outcome, ShardsHoistAlike, CellIds;
    FlattenServes(src.mapping, pages, cell);
    assert |Identities(src.mapping, FrameMerging.Flatten(pages))| == WholeWindow(plan.grid).limit;
  }

  ghost predicate ServesCells(m: GridMapping.Mapping, rows: seq<Row>, cell: Cell -> Row) {
    forall i :: 0 <= i < |rows| ==> rows[i] == cell(Identities(m, rows)[i])
  }

  lemma {:induction false} FlattenServes(m: GridMapping.Mapping, pages: seq<seq<Row>>, cell: Cell -> Row)
    requires forall k :: 0 <= k < |pages| ==> ServesCells(m, pages[k], cell)
    ensures ServesCells(m, FrameMerging.Flatten(pages), cell)
  {
    if pages != [] {
      FlattenServes(m, pages[..|pages| - 1], cell);
      hide GridMapping.PathValue, Number, GridMapping.Primary;
    }
  }
}
