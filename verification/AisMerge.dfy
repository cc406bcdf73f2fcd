/** The latest state of vessels: messages are merged in a buffer, and the buffer is flushed, whenever, into a store with
    its own staleness rule. */
module AisMerge {
  import opened Prelude
  import opened Sequences

  /** A position report. Timestamps are integers in the order of their normalized text. */
  datatype Position = Position(time: int, lat: real, lon: real, speed: Option<real>, course: Option<real>, heading: Option<real>)

  datatype Static = Static(time: int, name: string)

  datatype Receipt = Receipt(receivedAt: int, eventTime: int, source: string, messageType: string)

  /** A normalized message, or several merged: the fields it lacks are absent, not null. */
  datatype Update = Update(mmsi: string, position: Option<Position>, static_: Option<Static>, receipt: Receipt)

  /** A row of the latest-state table. */
  datatype Vessel = Vessel(position: Option<Position>, static_: Option<Static>, receivedAt: int, source: string)

  const OTHER_VESSEL := "AIS updates can only be merged for the same MMSI"

  /** What `normalize_aisstream_message` guarantees of a message it does not drop. */
  predicate Normalized(u: Update) {
    u.position.Some? || u.static_.Some?
  }

  // ----- merging ------------------------------------------------------------------------------------------------

  function Keep(incoming: Option<real>, current: Option<real>): Option<real> {
    if incoming.Some? then incoming else current
  }

  /** A position is replaced by one that is not older; fields the newer one lacks stay as they are. Buffer and store share
      this rule. */
  function MergePosition(current: Option<Position>, incoming: Option<Position>): Option<Position> {
    if incoming.None? || (current.Some? && incoming.value.time < current.value.time) then current
    else if current.None? then incoming
    else
      var c, i := current.value, incoming.value;
      Some(Position(i.time, i.lat, i.lon, Keep(i.speed, c.speed), Keep(i.course, c.course), Keep(i.heading, c.heading)))
  }

  function MergeStatic(current: Option<Static>, incoming: Option<Static>): Option<Static> {
    if incoming.None? || (current.Some? && incoming.value.time < current.value.time) then current else incoming
  }

  /** `merge_ais_updates`. */
  function MergeUpdates(current: Option<Update>, incoming: Update): Result<Update, string> {
    if current.None? then Ok(incoming)
    else if current.value.mmsi != incoming.mmsi then Err(OTHER_VESSEL)
    else
      var c := current.value;
      Ok(Update(c.mmsi, MergePosition(c.position, incoming.position), MergeStatic(c.static_, incoming.static_),
                if incoming.receipt.receivedAt >= c.receipt.receivedAt then incoming.receipt else c.receipt))
  }

  predicate PositionEligible(stored: Option<Position>, incoming: Option<Position>) {
    incoming.Some? && (stored.None? || incoming.value.time >= stored.value.time)
  }

  predicate StaticEligible(stored: Option<Static>, incoming: Option<Static>) {
    incoming.Some? && (stored.None? || incoming.value.time >= stored.value.time)
  }

  /** One row of `_upsert_latest_rows`: an insert, an update of the eligible columns, or nothing. */
  function Upsert(stored: Option<Vessel>, u: Update): Vessel {
    if stored.None? then Vessel(u.position, u.static_, u.receipt.receivedAt, u.receipt.source)
    else
      var v := stored.value;
      if !PositionEligible(v.position, u.position) && !StaticEligible(v.static_, u.static_) then v
      else Vessel(MergePosition(v.position, u.position), MergeStatic(v.static_, u.static_), u.receipt.receivedAt, u.receipt.source)
  }

  function Get<T>(m: map<string, T>, key: string): Option<T> {
    if key in m then Some(m[key]) else None
  }

  /** Updates merge exactly when they are of one vessel; the merged one is that vessel's. */
  lemma MergesOwnOnly(current: Option<Update>, incoming: Update)
    ensures MergeUpdates(current, incoming).Err? <==> current.Some? && current.value.mmsi != incoming.mmsi
    ensures MergeUpdates(current, incoming).Ok? ==> MergeUpdates(current, incoming).value.mmsi == incoming.mmsi
    ensures current.None? ==> MergeUpdates(current, incoming) == Ok(incoming)
  {
  }

  // ----- the worker as a fold ----------------------------------------------------------------------------------------

  /** One turn of the receive loop: what came in, and the clock after it. */
  datatype Tick = Timeout(now: real) | Unusable(now: real) | Message(update: Update, now: real)

  datatype State = State(store: map<string, Vessel>, buffer: map<string, Update>, lastFlush: real)

  datatype Schedule = Schedule(batchSize: int, flushSeconds: real)

  function Buffered(buffer: map<string, Update>, tick: Tick): map<string, Update> {
    if !tick.Message? then buffer
    else
      var merged := MergeUpdates(Get(buffer, tick.update.mmsi), tick.update);
      if merged.Err? then buffer else buffer[tick.update.mmsi := merged.value]
  }

  function Flushed(store: map<string, Vessel>, buffer: map<string, Update>): map<string, Vessel> {
    map m | m in store.Keys + buffer.Keys :: if m in buffer then Upsert(Get(store, m), buffer[m]) else store[m]
  }

  predicate FlushDue(s: Schedule, buffer: map<string, Update>, lastFlush: real, now: real) {
    (buffer != map[] && now - lastFlush >= s.flushSeconds) || |buffer| >= s.batchSize
  }

  function Step(s: Schedule, st: State, tick: Tick): State {
    var buffer := Buffered(st.buffer, tick);
    if FlushDue(s, buffer, st.lastFlush, tick.now) then State(Flushed(st.store, buffer), map[], tick.now)
    else State(st.store, buffer, st.lastFlush)
  }

  function Run(s: Schedule, st: State, ticks: seq<Tick>): State {
    if ticks == [] then st else Step(s, Run(s, st, ticks[..|ticks| - 1]), ticks[|ticks| - 1])
  }

  // ----- the worker ------------------------------------------------------------------------------------------------------

  /** Upserting rows one after the other. */
  function Upserted(store: map<string, Vessel>, rows: seq<Update>): map<string, Vessel> {
    if rows == [] then store
    else
      var before := Upserted(store, rows[..|rows| - 1]);
      var row := rows[|rows| - 1];
      before[row.mmsi := Upsert(Get(before, row.mmsi), row)]
  }

  /** How many rows change nothing because all they carry is older than what is stored. */
  function Skipped(store: map<string, Vessel>, rows: seq<Update>): (n: nat)
    ensures n <= |rows|
  {
    if rows == [] then 0
    else
      var row := rows[|rows| - 1];
      var stored := Get(Upserted(store, rows[..|rows| - 1]), row.mmsi);
      Skipped(store, rows[..|rows| - 1])
      + if stored.Some? && !PositionEligible(stored.value.position, row.position) && !StaticEligible(stored.value.static_, row.static_)
        then 1 else 0
  }

  /** The rows of a buffer, in any order, each vessel once. */
  ghost predicate Lists(rows: seq<Update>, buffer: map<string, Update>) {
    && (forall i :: 0 <= i < |rows| ==> rows[i].mmsi in buffer && buffer[rows[i].mmsi] == rows[i])
    && (forall m :: m in buffer ==> exists i :: 0 <= i < |rows| && rows[i].mmsi == m)
    && (forall i, j :: 0 <= i < j < |rows| ==> rows[i].mmsi != rows[j].mmsi)
  }

  lemma {:induction false} UpsertedAt(store: map<string, Vessel>, rows: seq<Update>, m: string)
    requires forall i, j :: 0 <= i < j < |rows| ==> rows[i].mmsi != rows[j].mmsi
    ensures (forall i :: 0 <= i < |rows| ==> rows[i].mmsi != m) ==> Get(Upserted(store, rows), m) == Get(store, m)
    ensures forall i :: 0 <= i < |rows| && rows[i].mmsi == m ==> Get(Upserted(store, rows), m) == Some(Upsert(Get(store, m), rows[i]))
  {
    hide Upsert;
    if rows != [] {
      UpsertedAt(store, rows[..|rows| - 1], m);
    }
  }

  /** The order in which a flush writes its rows does not matter. */
  lemma FlushIsUpserts(store: map<string, Vessel>, rows: seq<Update>, buffer: map<string, Update>)
    requires Lists(rows, buffer)
    ensures Upserted(store, rows) == Flushed(store, buffer)
  {
    hide Upsert, Upserted;
    var left, right := Upserted(store, rows), Flushed(store, buffer);
    forall m ensures Get(left, m) == Get(right, m) {
      UpsertedAt(store, rows, m);
      if m in buffer {
        var i :| 0 <= i < |rows| && rows[i].mmsi == m;
      }
    }
    SameEntries(left, right);
  }

  lemma SameEntries<T>(a: map<string, T>, b: map<string, T>)
    requires forall m :: Get(a, m) == Get(b, m)
    ensures a == b
  {
    forall m ensures m in a <==> m in b {
      assert Get(a, m) == Get(b, m);
    }
    forall m | m in a ensures a[m] == b[m] {
      assert Get(a, m) == Get(b, m);
    }
  }

  lemma NothingUpserted(store: map<string, Vessel>)
    ensures Upserted(store, []) == store && Skipped(store, []) == 0
  {
  }

  lemma UpsertedStep(store: map<string, Vessel>, rows: seq<Update>, k: nat)
    requires k < |rows|
    ensures var before, row := Upserted(store, rows[..k]), rows[k];
            var stored := Get(before, row.mmsi);
            && Upserted(store, rows[..k + 1]) == before[row.mmsi := Upsert(stored, row)]
            && Skipped(store, rows[..k + 1]) == Skipped(store, rows[..k])
               + if stored.Some? && !PositionEligible(stored.value.position, row.position)
                    && !StaticEligible(stored.value.static_, row.static_) then 1 else 0
  {
    hide Upsert, PositionEligible, StaticEligible;
    assert rows[..k + 1][..k] == rows[..k];
  }

  lemma StaleChangesNothing(stored: Vessel, row: Update)
    requires !PositionEligible(stored.position, row.position) && !StaticEligible(stored.static_, row.static_)
    ensures Upsert(Some(stored), row) == stored
  {
  }

  /** Everything that a row carries is older than what is stored of the same kind. */
  predicate AllOlder(stored: Vessel, row: Update) {
    && (row.position.Some? ==> stored.position.Some? && row.position.value.time < stored.position.value.time)
    && (row.static_.Some? ==> stored.static_.Some? && row.static_.value.time < stored.static_.value.time)
  }

  /** A row counts as skipped, and changes nothing, exactly when its vessel is stored with something newer of every kind that it
      carries; any other row leaves its own receipt. */
  lemma SkippedIff(store: map<string, Vessel>, rows: seq<Update>, k: nat)
    requires k < |rows|
    ensures var before, after, m := Upserted(store, rows[..k]), Upserted(store, rows[..k + 1]), rows[k].mmsi;
            && m in after
            && if m in before && AllOlder(before[m], rows[k]) then
                 after == before && Skipped(store, rows[..k + 1]) == Skipped(store, rows[..k]) + 1
               else
                 && after[m].receivedAt == rows[k].receipt.receivedAt && after[m].source == rows[k].receipt.source
                 && Skipped(store, rows[..k + 1]) == Skipped(store, rows[..k])
  {
    UpsertedStep(store, rows, k);
    hide Upserted, Skipped, MergePosition, MergeStatic;
    var before, m := Upserted(store, rows[..k]), rows[k].mmsi;
    if m in before && AllOlder(before[m], rows[k]) {
      StaleChangesNothing(before[m], rows[k]);
      assert before[m := before[m]] == before;
    }
  }

  class AisIngestWorker {
    const schedule: Schedule
    var store: map<string, Vessel>
    var acceptedMessages: nat
    var droppedMessages: nat
    var writtenRows: nat
    var skippedStaleRows: nat

    constructor (schedule: Schedule, store: map<string, Vessel>)
      ensures this.schedule == schedule && this.store == store
    {
      this.schedule, this.store := schedule, store;
      acceptedMessages, droppedMessages, writtenRows, skippedStaleRows := 0, 0, 0, 0;
    }

    method UpsertLatestRows(rows: seq<Update>)
      modifies this`store, this`writtenRows, this`skippedStaleRows
      ensures store == Upserted(old(store), rows)
      ensures skippedStaleRows == old(skippedStaleRows) + Skipped(old(store), rows)
      ensures writtenRows == old(writtenRows) + |rows| - Skipped(old(store), rows)
    {
      hide Upsert, PositionEligible, StaticEligible, Upserted, Skipped;
      NothingUpserted(store);
      var k := 0;
      while k < |rows|
        invariant 0 <= k <= |rows|
        invariant store == Upserted(old(store), rows[..k])
        invariant skippedStaleRows == old(skippedStaleRows) + Skipped(old(store), rows[..k])
        invariant writtenRows == old(writtenRows) + k - Skipped(old(store), rows[..k])
      {
        var row := rows[k];
        UpsertedStep(old(store), rows, k);
        if row.mmsi in store {
          var stored := store[row.mmsi];
          if !PositionEligible(stored.position, row.position) && !StaticEligible(stored.static_, row.static_) {
            skippedStaleRows := skippedStaleRows + 1;
            StaleChangesNothing(stored, row);
            assert store[row.mmsi := stored] == store;
          } else {
            store := store[row.mmsi := Upsert(Some(stored), row)];
            writtenRows := writtenRows + 1;
          }
        } else {
          store := store[row.mmsi := Upsert(None, row)];
          writtenRows := writtenRows + 1;
        }
        k := k + 1;
      }
      assert rows[..|rows|] == rows;
    }

    /** `_consume`: the stored rows and the rows still buffered are those of the fold over the ticks. A vessel's buffered
        update is its own, so the merge never refuses. */
    method Consume(ticks: seq<Tick>, start: real) returns (pending: map<string, Update>)
      modifies this
      ensures State(store, pending, Run(schedule, State(old(store), map[], start), ticks).lastFlush)
              == Run(schedule, State(old(store), map[], start), ticks)
      ensures acceptedMessages == old(acceptedMessages) + |Messages(ticks)|
      ensures droppedMessages == old(droppedMessages) + Unusables(ticks)
    {
      var buffer: map<string, Update> := map[];
      var order: seq<string> := [];
      var lastFlush := start;
      var k := 0;
      hide MergeUpdates, Flushed, Upserted, Upsert, Step, Run, Messages, Unusables, OrderOf, Lists, FlushDue, Buffered;
      RunStart(schedule, State(store, map[], start));
      while k < |ticks|
        invariant 0 <= k <= |ticks|
        invariant State(store, buffer, lastFlush) == Run(schedule, State(old(store), map[], start), ticks[..k])
        invariant OrderOf(order, buffer)
        invariant acceptedMessages == old(acceptedMessages) + |Messages(ticks[..k])|
        invariant droppedMessages == old(droppedMessages) + Unusables(ticks[..k])
      {
        var tick := ticks[k];
        RunStep(schedule, State(old(store), map[], start), ticks, k);
        ghost var before := buffer;
        match tick {
          case Timeout(_) =>
          case Unusable(_) => droppedMessages := droppedMessages + 1;
          case Message(update, _) =>
            acceptedMessages := acceptedMessages + 1;
            BufferStep(order, buffer, update);
            var merged := MergeUpdates(Get(buffer, update.mmsi), update);
            if update.mmsi !in buffer {
              order := order + [update.mmsi];
            }
            buffer := buffer[update.mmsi := merged.value];
        }
        assert buffer == Buffered(before, tick) by { BufferedTick(before, tick); }
        StepIs(schedule, State(store, before, lastFlush), tick);
        if (buffer != map[] && tick.now - lastFlush >= schedule.flushSeconds) || |buffer| >= schedule.batchSize {
          OrderKeys(order, buffer);
          var rows := seq(|order|, i requires 0 <= i < |order| && order[i] in buffer => buffer[order[i]]);
          RowsListBuffer(order, buffer, rows);
          FlushIsUpserts(store, rows, buffer);
          UpsertLatestRows(rows);
          buffer, order, lastFlush := map[], [], tick.now;
          NothingBuffered();
        }
        k := k + 1;
      }
      assert ticks[..|ticks|] == ticks;
      pending := buffer;
    }
  }

  lemma RunStart(s: Schedule, st: State)
    ensures Run(s, st, []) == st && Messages([]) == [] && Unusables([]) == 0 && OrderOf([], map[])
  {
  }

  lemma NothingBuffered()
    ensures OrderOf([], map[])
  {
  }

  lemma RunStep(s: Schedule, st: State, ticks: seq<Tick>, k: nat)
    requires k < |ticks|
    ensures Run(s, st, ticks[..k + 1]) == Step(s, Run(s, st, ticks[..k]), ticks[k])
    ensures Messages(ticks[..k + 1]) == Messages(ticks[..k]) + if ticks[k].Message? then [ticks[k].update] else []
    ensures Unusables(ticks[..k + 1]) == Unusables(ticks[..k]) + if ticks[k].Unusable? then 1 else 0
  {
    hide Step;
    assert ticks[..k + 1][..k] == ticks[..k];
  }

  lemma StepIs(s: Schedule, st: State, tick: Tick)
    ensures var buffer := Buffered(st.buffer, tick);
            Step(s, st, tick) ==
            if (buffer != map[] && tick.now - st.lastFlush >= s.flushSeconds) || |buffer| >= s.batchSize
            then State(Flushed(st.store, buffer), map[], tick.now) else State(st.store, buffer, st.lastFlush)
  {
    hide Buffered, Flushed;
  }

  lemma BufferedTick(buffer: map<string, Update>, tick: Tick)
    ensures !tick.Message? ==> Buffered(buffer, tick) == buffer
    ensures tick.Message? && MergeUpdates(Get(buffer, tick.update.mmsi), tick.update).Ok? ==>
              Buffered(buffer, tick) == buffer[tick.update.mmsi := MergeUpdates(Get(buffer, tick.update.mmsi), tick.update).value]
  {
    hide MergeUpdates;
  }

  lemma BufferStep(order: seq<string>, buffer: map<string, Update>, u: Update)
    requires OrderOf(order, buffer)
    ensures MergeUpdates(Get(buffer, u.mmsi), u).Ok?
    ensures u.mmsi !in buffer <==> u.mmsi !in order
    ensures OrderOf(if u.mmsi in buffer then order else order + [u.mmsi],
                    buffer[u.mmsi := MergeUpdates(Get(buffer, u.mmsi), u).value])
  {
    hide MergePosition, MergeStatic;
  }

  lemma OrderKeys(order: seq<string>, buffer: map<string, Update>)
    requires OrderOf(order, buffer)
    ensures forall i :: 0 <= i < |order| ==> order[i] in buffer
  {
  }

  /** The keys of the buffer in insertion order; every buffered update is about its own key. */
  ghost predicate OrderOf(order: seq<string>, buffer: map<string, Update>) {
    && NoDup(order) && (forall m :: m in order <==> m in buffer)
    && (forall m :: m in buffer ==> buffer[m].mmsi == m)
  }

  lemma RowsListBuffer(order: seq<string>, buffer: map<string, Update>, rows: seq<Update>)
    requires OrderOf(order, buffer) && |rows| == |order|
    requires forall i :: 0 <= i < |order| ==> order[i] in buffer && rows[i] == buffer[order[i]]
    ensures Lists(rows, buffer)
  {
    forall m | m in buffer ensures exists i :: 0 <= i < |rows| && rows[i].mmsi == m {
      var i :| 0 <= i < |order| && order[i] == m;
      assert rows[i].mmsi == m;
    }
  }

  function Unusables(ticks: seq<Tick>): nat {
    if ticks == [] then 0 else Unusables(ticks[..|ticks| - 1]) + if ticks[|ticks| - 1].Unusable? then 1 else 0
  }

  function Messages(ticks: seq<Tick>): seq<Update> {
    if ticks == [] then []
    else
      var before := Messages(ticks[..|ticks| - 1]);
      var last := ticks[|ticks| - 1];
      if last.Message? then before + [last.update] else before
  }

  // ----- independence of the flush schedule ----------------------------------------------------------------------------

  /** What does not depend on flushes: position time and place, static time and name. */
  datatype Core = Core(place: Option<(int, real, real)>, static_: Option<Static>)

  function PlaceOf(p: Option<Position>): Option<(int, real, real)> {
    if p.None? then None else Some((p.value.time, p.value.lat, p.value.lon))
  }

  function CoreOf(v: Option<Vessel>): Core {
    if v.None? then Core(None, None) else Core(PlaceOf(v.value.position), v.value.static_)
  }

  /** A vessel as it will be once its buffered update is flushed. */
  function Pending(st: State, m: string): Option<Vessel> {
    if m in st.buffer then Some(Upsert(Get(st.store, m), st.buffer[m])) else Get(st.store, m)
  }

  /** Every message of one vessel applied to its stored row directly, in order of arrival. */
  function Direct(stored: Option<Vessel>, messages: seq<Update>, m: string): Option<Vessel> {
    if messages == [] then stored
    else
      var before := Direct(stored, messages[..|messages| - 1], m);
      var last := messages[|messages| - 1];
      if last.mmsi == m then Some(Upsert(before, last)) else before
  }

  ghost predicate BufferKeyed(buffer: map<string, Update>) {
    forall m :: m in buffer ==> buffer[m].mmsi == m
  }

  function PositionOf(v: Option<Vessel>): Option<Position> {
    if v.None? then None else v.value.position
  }

  function StaticOf(v: Option<Vessel>): Option<Static> {
    if v.None? then None else v.value.static_
  }

  /** Upserting merges the two parts independently, whether the row is inserted, updated or skipped. */
  lemma UpsertParts(v: Option<Vessel>, u: Update)
    ensures Upsert(v, u).position == MergePosition(PositionOf(v), u.position)
    ensures Upsert(v, u).static_ == MergeStatic(StaticOf(v), u.static_)
  {
  }

  /** Merging first and applying once places a vessel where applying one by one does. */
  lemma PlaceAssociative(s: Option<Position>, a: Option<Position>, b: Option<Position>)
    ensures PlaceOf(MergePosition(MergePosition(s, a), b)) == PlaceOf(MergePosition(s, MergePosition(a, b)))
  {
  }

  lemma StaticAssociative(s: Option<Static>, a: Option<Static>, b: Option<Static>)
    ensures MergeStatic(MergeStatic(s, a), b) == MergeStatic(s, MergeStatic(a, b))
  {
  }

  /** The place of a merge depends only on the places merged. */
  lemma PlaceCongruent(x: Option<Position>, y: Option<Position>, p: Option<Position>)
    requires PlaceOf(x) == PlaceOf(y)
    ensures PlaceOf(MergePosition(x, p)) == PlaceOf(MergePosition(y, p))
  {
  }

  lemma PendingAfterMessage(st: State, u: Update, direct: Option<Vessel>)
    requires BufferKeyed(st.buffer) && CoreOf(Pending(st, u.mmsi)) == CoreOf(direct)
    ensures var merged := MergeUpdates(Get(st.buffer, u.mmsi), u);
            merged.Ok? && CoreOf(Some(Upsert(Get(st.store, u.mmsi), merged.value))) == CoreOf(Some(Upsert(direct, u)))
  {
    var v := Get(st.store, u.mmsi);
    var merged := MergeUpdates(Get(st.buffer, u.mmsi), u).value;
    UpsertParts(v, merged);
    UpsertParts(direct, u);
    if u.mmsi in st.buffer {
      var b := st.buffer[u.mmsi];
      UpsertParts(v, b);
      PlaceAssociative(PositionOf(v), b.position, u.position);
      StaticAssociative(StaticOf(v), b.static_, u.static_);
    }
    hide Upsert, MergePosition, MergeStatic;
    PlaceCongruent(PositionOf(Pending(st, u.mmsi)), PositionOf(direct), u.position);
  }

  lemma {:induction false} RunKeyed(s: Schedule, st: State, ticks: seq<Tick>)
    requires BufferKeyed(st.buffer)
    ensures BufferKeyed(Run(s, st, ticks).buffer)
  {
    hide MergePosition, MergeStatic, Flushed, FlushDue;
    if ticks != [] {
      RunKeyed(s, st, ticks[..|ticks| - 1]);
    }
  }

  lemma PendingAfterStep(s: Schedule, st: State, tick: Tick, m: string, direct: Option<Vessel>)
    requires BufferKeyed(st.buffer) && CoreOf(Pending(st, m)) == CoreOf(direct)
    ensures CoreOf(Pending(Step(s, st, tick), m)) ==
            CoreOf(if tick.Message? && tick.update.mmsi == m then Some(Upsert(direct, tick.update)) else direct)
  {
    FlushKeepsPending(s, st, tick, m);
    hide Upsert, CoreOf, Flushed, FlushDue, Step;
    if tick.Message? {
      BufferMerges(st.buffer, tick.update);
      if tick.update.mmsi == m {
        PendingAfterMessage(st, tick.update, direct);
      }
    }
  }

  lemma BufferMerges(buffer: map<string, Update>, u: Update)
    requires BufferKeyed(buffer)
    ensures MergeUpdates(Get(buffer, u.mmsi), u).Ok?
  {
    hide MergePosition, MergeStatic;
  }

  /** Flushing stores exactly what was pending. */
  lemma FlushKeepsPending(s: Schedule, st: State, tick: Tick, m: string)
    ensures Pending(Step(s, st, tick), m) == Pending(State(st.store, Buffered(st.buffer, tick), st.lastFlush), m)
  {
    hide Upsert, Buffered, FlushDue;
  }

  /** Flush-schedule independence: at every moment of every run, whenever flushes happen, each vessel's position time, place,
      static time and name, taking the buffer into account, are those of applying every message directly. */
  lemma {:induction false} FlushScheduleIndependence(s: Schedule, store: map<string, Vessel>, start: real, ticks: seq<Tick>, m: string)
    ensures CoreOf(Pending(Run(s, State(store, map[], start), ticks), m)) == CoreOf(Direct(Get(store, m), Messages(ticks), m))
  {
    hide Upsert, CoreOf, Step, Pending;
    var st0 := State(store, map[], start);
    if ticks == [] {
      NothingPending(store, start, m);
    } else {
      var before, last := ticks[..|ticks| - 1], ticks[|ticks| - 1];
      FlushScheduleIndependence(s, store, start, before, m);
      RunKeyed(s, st0, before);
      PendingAfterStep(s, Run(s, st0, before), last, m, Direct(Get(store, m), Messages(before), m));
      if last.Message? {
        assert (Messages(before) + [last.update])[..|Messages(before)|] == Messages(before);
      }
    }
  }

  lemma NothingPending(store: map<string, Vessel>, start: real, m: string)
    ensures Pending(State(store, map[], start), m) == Get(store, m)
  {
  }

  // ----- what the direct application is ------------------------------------------------------------------------------------

  /** The positions known of one vessel: the stored one, then those of its messages. */
  function Positions(stored: Option<Vessel>, messages: seq<Update>, m: string): seq<Position> {
    if messages == [] then (if PositionOf(stored).Some? then [PositionOf(stored).value] else [])
    else
      var last := messages[|messages| - 1];
      Positions(stored, messages[..|messages| - 1], m)
      + if last.mmsi == m && last.position.Some? then [last.position.value] else []
  }

  function Statics(stored: Option<Vessel>, messages: seq<Update>, m: string): seq<Static> {
    if messages == [] then (if StaticOf(stored).Some? then [StaticOf(stored).value] else [])
    else
      var last := messages[|messages| - 1];
      Statics(stored, messages[..|messages| - 1], m)
      + if last.mmsi == m && last.static_.Some? then [last.static_.value] else []
  }

  /** Entry i is the latest of the list: none is later, and none that arrived after it is as late. */
  ghost predicate Latest(times: seq<int>, i: int) {
    && 0 <= i < |times|
    && (forall j :: 0 <= j < |times| ==> times[j] <= times[i])
    && (forall j :: i < j < |times| ==> times[j] < times[i])
  }

  function PositionTimes(ps: seq<Position>): (times: seq<int>)
    ensures |times| == |ps| && forall i :: 0 <= i < |ps| ==> times[i] == ps[i].time
  {
    seq(|ps|, i requires 0 <= i < |ps| => ps[i].time)
  }

  function StaticTimes(ss: seq<Static>): (times: seq<int>)
    ensures |times| == |ss| && forall i :: 0 <= i < |ss| ==> times[i] == ss[i].time
  {
    seq(|ss|, i requires 0 <= i < |ss| => ss[i].time)
  }

  /** A vessel ends at its latest position: the latest event time wins, and of equal ones the later message. */
  lemma {:induction false} LatestPositionWins(stored: Option<Vessel>, messages: seq<Update>, m: string) returns (i: int)
    ensures var ps := Positions(stored, messages, m);
            && (ps == [] <==> PositionOf(Direct(stored, messages, m)).None?)
            && (ps != [] ==> Latest(PositionTimes(ps), i) && PlaceOf(PositionOf(Direct(stored, messages, m))) == PlaceOf(Some(ps[i])))
  {
    hide Upsert;
    i := 0;
    if messages != [] {
      var before, last := messages[..|messages| - 1], messages[|messages| - 1];
      i := LatestPositionWins(stored, before, m);
      if last.mmsi == m {
        UpsertParts(Direct(stored, before, m), last);
        if last.position.Some? {
          var ps := Positions(stored, before, m);
          if ps == [] || last.position.value.time >= ps[i].time {
            i := |ps|;
          }
        }
      }
    }
  }

  /** And it is called by its latest name. */
  lemma {:induction false} LatestNameWins(stored: Option<Vessel>, messages: seq<Update>, m: string) returns (i: int)
    ensures var ss := Statics(stored, messages, m);
            && (ss == [] <==> StaticOf(Direct(stored, messages, m)).None?)
            && (ss != [] ==> Latest(StaticTimes(ss), i) && StaticOf(Direct(stored, messages, m)) == Some(ss[i]))
  {
    hide Upsert;
    i := 0;
    if messages != [] {
      var before, last := messages[..|messages| - 1], messages[|messages| - 1];
      i := LatestNameWins(stored, before, m);
      if last.mmsi == m {
        UpsertParts(Direct(stored, before, m), last);
        if last.static_.Some? {
          var ss := Statics(stored, before, m);
          if ss == [] || last.static_.value.time >= ss[i].time {
            i := |ss|;
          }
        }
      }
    }
  }

  /** What one position message does to a vessel's record, by itself or in the buffer: an older one nothing, any other one sets
      time and place, and each of speed, course and heading that it carries; what it does not carry stays. */
  lemma PositionFields(current: Position, incoming: Position)
    ensures var merged := MergePosition(Some(current), Some(incoming));
            && merged.Some?
            && (incoming.time < current.time ==> merged.value == current)
            && (incoming.time >= current.time ==>
                  && merged.value.time == incoming.time && merged.value.lat == incoming.lat && merged.value.lon == incoming.lon
                  && (incoming.speed.Some? ==> merged.value.speed == incoming.speed)
                  && (incoming.speed.None? ==> merged.value.speed == current.speed)
                  && (incoming.course.Some? ==> merged.value.course == incoming.course)
                  && (incoming.course.None? ==> merged.value.course == current.course)
                  && (incoming.heading.Some? ==> merged.value.heading == incoming.heading)
                  && (incoming.heading.None? ==> merged.value.heading == current.heading))
    ensures MergePosition(Some(current), None) == Some(current) && MergePosition(None, Some(incoming)) == Some(incoming)
  {
  }

  /** Stored event times never go back. */
  lemma TimesNeverGoBack(s: Schedule, st: State, tick: Tick, m: string)
    requires m in st.store
    ensures var after := Step(s, st, tick).store;
            && m in after
            && (st.store[m].position.Some? ==> after[m].position.Some? && after[m].position.value.time >= st.store[m].position.value.time)
            && (st.store[m].static_.Some? ==> after[m].static_.Some? && after[m].static_.value.time >= st.store[m].static_.value.time)
  {
    hide Buffered, FlushDue;
    var buffer := Buffered(st.buffer, tick);
    if m in buffer {
      UpsertParts(Some(st.store[m]), buffer[m]);
    }
  }
}
