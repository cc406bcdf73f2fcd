/** How the placement of flushes shows: the batches a schedule cuts a vessel's messages into, and what they decide about
    speed, course, heading and the receipt. */
module AisSchedules {
  import opened Prelude
  import opened Sequences
  import opened AisMerge

  // ----- batches ----------------------------------------------------------------------------------------------------

  /** A run's messages of one vessel, cut at the flushes: the batches written, and the messages still buffered. */
  datatype Cuts = Cuts(written: seq<seq<Update>>, open: seq<Update>)

  function OfTick(tick: Tick, m: string): seq<Update> {
    if tick.Message? && tick.update.mmsi == m then [tick.update] else []
  }

  predicate Flushes(s: Schedule, st: State, tick: Tick) {
    FlushDue(s, Buffered(st.buffer, tick), st.lastFlush, tick.now)
  }

  function CutsOf(s: Schedule, st: State, ticks: seq<Tick>, m: string): Cuts {
    if ticks == [] then Cuts([], [])
    else
      var before, last := ticks[..|ticks| - 1], ticks[|ticks| - 1];
      var cuts := CutsOf(s, st, before, m);
      NextCuts(cuts, OfTick(last, m), Flushes(s, Run(s, st, before), last))
  }

  function NextCuts(cuts: Cuts, arrived: seq<Update>, flushes: bool): Cuts {
    var open := cuts.open + arrived;
    if !flushes then Cuts(cuts.written, open)
    else Cuts(if open == [] then cuts.written else cuts.written + [open], [])
  }

  /** All batches of a run, the one still buffered last. */
  function Batches(cuts: Cuts): seq<seq<Update>> {
    if cuts.open == [] then cuts.written else cuts.written + [cuts.open]
  }

  /** What the buffer makes of a batch. */
  function MergeAll(us: seq<Update>): Option<Update> {
    if us == [] then None
    else
      var before := MergeAll(us[..|us| - 1]);
      var merged := MergeUpdates(before, us[|us| - 1]);
      if merged.Ok? then Some(merged.value) else before
  }

  function UpsertBatch(v: Option<Vessel>, us: seq<Update>): Option<Vessel> {
    var merged := MergeAll(us);
    if merged.None? then v else Some(Upsert(v, merged.value))
  }

  /** Batches merged and upserted one after the other. */
  function Applied(stored: Option<Vessel>, batches: seq<seq<Update>>): Option<Vessel> {
    if batches == [] then stored
    else UpsertBatch(Applied(stored, batches[..|batches| - 1]), batches[|batches| - 1])
  }

  /** The same messages applied directly. */
  function DirectAll(stored: Option<Vessel>, batches: seq<seq<Update>>, m: string): Option<Vessel> {
    if batches == [] then stored
    else Direct(DirectAll(stored, batches[..|batches| - 1], m), batches[|batches| - 1], m)
  }

  ghost predicate OfVessel(us: seq<Update>, m: string) {
    forall i :: 0 <= i < |us| ==> us[i].mmsi == m
  }

  ghost predicate Proper(batches: seq<seq<Update>>, m: string) {
    forall j :: 0 <= j < |batches| ==> batches[j] != [] && OfVessel(batches[j], m)
  }

  lemma {:induction false} MergeAllSome(us: seq<Update>, m: string)
    requires OfVessel(us, m)
    ensures MergeAll(us).Some? <==> us != []
    ensures us != [] ==> MergeAll(us).value.mmsi == m && MergeUpdates(MergeAll(us[..|us| - 1]), us[|us| - 1]) == Ok(MergeAll(us).value)
  {
    hide MergePosition, MergeStatic;
    if us != [] {
      MergeAllSome(us[..|us| - 1], m);
    }
  }

  lemma MergeAllAppend(us: seq<Update>, u: Update)
    requires OfVessel(us, u.mmsi)
    ensures OfVessel(us + [u], u.mmsi)
    ensures MergeUpdates(MergeAll(us), u) == Ok(MergeAll(us + [u]).value) && MergeAll(us + [u]).Some?
  {
    assert (us + [u])[..|us|] == us;
    MergeAllSome(us + [u], u.mmsi);
  }

  /** The messages of one vessel applied directly, whether they are cut into batches or not. */
  lemma DirectAppend(stored: Option<Vessel>, us: seq<Update>, u: Update, m: string)
    ensures Direct(stored, us + [u], m) == if u.mmsi == m then Some(Upsert(Direct(stored, us, m), u)) else Direct(stored, us, m)
  {
    hide Upsert;
    assert (us + [u])[..|us|] == us;
  }

  lemma DirectAllStep(stored: Option<Vessel>, batches: seq<seq<Update>>, last: seq<Update>, m: string)
    ensures DirectAll(stored, batches + [last], m) == Direct(DirectAll(stored, batches, m), last, m)
    ensures Applied(stored, batches + [last]) == UpsertBatch(Applied(stored, batches), last)
  {
    hide Direct, UpsertBatch;
    assert (batches + [last])[..|batches|] == batches;
  }

  ghost predicate CutsMatch(cuts: Cuts, st: State, stored: Option<Vessel>, messages: seq<Update>, m: string) {
    && Proper(cuts.written, m) && OfVessel(cuts.open, m)
    && Get(st.store, m) == Applied(stored, cuts.written)
    && Get(st.buffer, m) == MergeAll(cuts.open)
    && Direct(stored, messages, m) == Direct(DirectAll(stored, cuts.written, m), cuts.open, m)
  }

  lemma ArrivalMatches(cuts: Cuts, st: State, stored: Option<Vessel>, messages: seq<Update>, m: string, tick: Tick)
    requires CutsMatch(cuts, st, stored, messages, m)
    ensures CutsMatch(Cuts(cuts.written, cuts.open + OfTick(tick, m)), State(st.store, Buffered(st.buffer, tick), st.lastFlush), stored,
                      messages + (if tick.Message? then [tick.update] else []), m)
  {
    hide MergeUpdates, Upsert, Applied, DirectAll, Proper, Direct, MergeAll;
    if tick.Message? {
      DirectAppend(stored, messages, tick.update, m);
      if tick.update.mmsi == m {
        DirectAppend(DirectAll(stored, cuts.written, m), cuts.open, tick.update, m);
        MergeAllAppend(cuts.open, tick.update);
      } else {
        assert cuts.open + [] == cuts.open;
      }
    } else {
      assert cuts.open + [] == cuts.open && messages + [] == messages;
    }
  }

  lemma FlushMatches(cuts: Cuts, st: State, stored: Option<Vessel>, messages: seq<Update>, m: string, now: real)
    requires CutsMatch(cuts, st, stored, messages, m)
    ensures CutsMatch(NextCuts(cuts, [], true), State(Flushed(st.store, st.buffer), map[], now), stored, messages, m)
  {
    hide Upsert, Direct, Applied, DirectAll;
    assert cuts.open + [] == cuts.open;
    MergeAllSome(cuts.open, m);
    NothingDirect(DirectAll(stored, cuts.written, m), m);
    NothingDirect(DirectAll(stored, cuts.written + [cuts.open], m), m);
    DirectAllStep(stored, cuts.written, cuts.open, m);
  }

  lemma NothingDirect(v: Option<Vessel>, m: string)
    ensures Direct(v, [], m) == v && MergeAll([]) == None
  {
  }

  /** A run is its batches: the stored row is that of the written ones, the buffer holds the open one, and direct application
      does not see the cuts. */
  lemma {:induction false} RunIsBatches(s: Schedule, store: map<string, Vessel>, start: real, ticks: seq<Tick>, m: string)
    ensures CutsMatch(CutsOf(s, State(store, map[], start), ticks, m), Run(s, State(store, map[], start), ticks), Get(store, m), Messages(ticks), m)
  {
    hide CutsMatch, Buffered, FlushDue, Flushed;
    var st0 := State(store, map[], start);
    if ticks == [] {
      NothingCut(st0, m);
    } else {
      var before, last := ticks[..|ticks| - 1], ticks[|ticks| - 1];
      RunIsBatches(s, store, start, before, m);
      var cuts, st := CutsOf(s, st0, before, m), Run(s, st0, before);
      ArrivalMatches(cuts, st, Get(store, m), Messages(before), m, last);
      var arrived := State(st.store, Buffered(st.buffer, last), st.lastFlush);
      assert Messages(before) + (if last.Message? then [last.update] else []) == Messages(ticks);
      if Flushes(s, st, last) {
        FlushMatches(Cuts(cuts.written, cuts.open + OfTick(last, m)), arrived, Get(store, m), Messages(ticks), m, last.now);
        assert (cuts.open + OfTick(last, m)) + [] == cuts.open + OfTick(last, m);
      }
    }
  }

  lemma NothingCut(st: State, m: string)
    requires st.buffer == map[]
    ensures CutsMatch(Cuts([], []), st, Get(st.store, m), [], m)
  {
  }

  /** What is pending, and what direct application gives, in terms of the batches. */
  lemma PendingIsApplied(s: Schedule, store: map<string, Vessel>, start: real, ticks: seq<Tick>, m: string)
    ensures var batches := Batches(CutsOf(s, State(store, map[], start), ticks, m));
            && Proper(batches, m)
            && Pending(Run(s, State(store, map[], start), ticks), m) == Applied(Get(store, m), batches)
            && Direct(Get(store, m), Messages(ticks), m) == DirectAll(Get(store, m), batches, m)
  {
    RunIsBatches(s, store, start, ticks, m);
    hide CutsOf, Run, Upsert, Direct, Applied, DirectAll, Messages;
    var cuts := CutsOf(s, State(store, map[], start), ticks, m);
    MergeAllSome(cuts.open, m);
    NothingDirect(DirectAll(Get(store, m), cuts.written, m), m);
    DirectAllStep(Get(store, m), cuts.written, cuts.open, m);
  }

  // ----- receipts -----------------------------------------------------------------------------------------------------

  /** Whether a message changes the row. */
  predicate Writes(v: Option<Vessel>, u: Update) {
    v.None? || PositionEligible(v.value.position, u.position) || StaticEligible(v.value.static_, u.static_)
  }

  /** The last message of a batch that changes the directly applied row; -1 if none does. */
  function LastWriter(v: Option<Vessel>, us: seq<Update>, m: string): (i: int)
    ensures -1 <= i < |us|
  {
    if us == [] then -1
    else if Writes(Direct(v, us[..|us| - 1], m), us[|us| - 1]) then |us| - 1
    else LastWriter(v, us[..|us| - 1], m)
  }

  function ReceiptTimes(us: seq<Update>): (times: seq<int>)
    ensures |times| == |us| && forall i :: 0 <= i < |us| ==> times[i] == us[i].receipt.receivedAt
  {
    seq(|us|, i requires 0 <= i < |us| => us[i].receipt.receivedAt)
  }

  /** The message received last; of equals, the later one. */
  function LastReceived(us: seq<Update>): (i: nat)
    requires us != []
    ensures Latest(ReceiptTimes(us), i)
  {
    if |us| == 1 then 0
    else
      var before := LastReceived(us[..|us| - 1]);
      if us[|us| - 1].receipt.receivedAt >= us[before].receipt.receivedAt then |us| - 1 else before
  }

  /** Where the clock does not go back that is the last message. */
  lemma ReceivedInOrder(us: seq<Update>)
    requires us != [] && forall i, j :: 0 <= i <= j < |us| ==> us[i].receipt.receivedAt <= us[j].receipt.receivedAt
    ensures LastReceived(us) == |us| - 1
  {
    assert ReceiptTimes(us)[LastReceived(us)] <= ReceiptTimes(us)[|us| - 1];
  }

  lemma {:induction false} MergedReceipt(us: seq<Update>, m: string)
    requires us != [] && OfVessel(us, m)
    ensures MergeAll(us).Some? && MergeAll(us).value.receipt == us[LastReceived(us)].receipt
  {
    hide MergePosition, MergeStatic;
    MergeAllSome(us, m);
    if |us| > 1 {
      MergedReceipt(us[..|us| - 1], m);
    } else {
      assert us[..0] == [];
    }
  }

  lemma {:induction false} DirectReceipt(v: Option<Vessel>, us: seq<Update>, m: string)
    requires OfVessel(us, m)
    ensures var i, direct := LastWriter(v, us, m), Direct(v, us, m);
            if i < 0 then direct == v
            else direct.Some? && direct.value.receivedAt == us[i].receipt.receivedAt && direct.value.source == us[i].receipt.source
  {
    hide MergePosition, MergeStatic, PositionEligible, StaticEligible;
    if us != [] {
      DirectReceipt(v, us[..|us| - 1], m);
    }
  }

  /** A merge changes the row exactly when one of the merged updates would. */
  lemma MergeWrites(v: Option<Vessel>, a: Update, b: Update)
    requires a.mmsi == b.mmsi
    ensures Writes(v, MergeUpdates(Some(a), b).value) <==> Writes(v, a) || Writes(v, b)
  {
  }

  lemma {:induction false} MergedWrites(v: Option<Vessel>, us: seq<Update>, m: string)
    requires us != [] && OfVessel(us, m)
    ensures MergeAll(us).Some? && (Writes(v, MergeAll(us).value) <==> LastWriter(v, us, m) >= 0)
  {
    hide Writes, MergeUpdates, Upsert;
    MergeAllSome(us, m);
    var before, last := us[..|us| - 1], us[|us| - 1];
    DirectReceipt(v, before, m);
    if before == [] {
      MergeFirst(last);
    } else {
      MergeAllSome(before, m);
      MergedWrites(v, before, m);
      MergeWrites(v, MergeAll(before).value, last);
    }
  }

  lemma MergeFirst(u: Update)
    ensures MergeUpdates(None, u) == Ok(u) && MergeAll([]) == None
  {
  }

  /** One flush of a batch gives the receipt of direct application exactly when no message of it changes the row, or the last
      one that does was received together with the last one received. */
  lemma ReceiptFlushIff(v: Option<Vessel>, us: seq<Update>, m: string)
    requires us != [] && OfVessel(us, m)
    ensures var flushed, direct := UpsertBatch(v, us), Direct(v, us, m);
            var i, l := LastWriter(v, us, m), LastReceived(us);
            && flushed.Some? && direct.Some?
            && (flushed.value.receivedAt == direct.value.receivedAt <==> i < 0 || us[i].receipt.receivedAt == us[l].receipt.receivedAt)
            && (flushed.value.source == direct.value.source <==> i < 0 || us[i].receipt.source == us[l].receipt.source)
            && (i < 0 ==> flushed == v && direct == v)
            && (i >= 0 ==>
                  && flushed.value.receivedAt == us[l].receipt.receivedAt && flushed.value.source == us[l].receipt.source
                  && direct.value.receivedAt == us[i].receipt.receivedAt && direct.value.source == us[i].receipt.source)
  {
    MergedReceipt(us, m);
    MergedWrites(v, us, m);
    DirectReceipt(v, us, m);
    assert Direct(v, us, m).Some?;
    hide Direct, LastWriter, LastReceived, MergeAll, MergePosition, MergeStatic;
  }

  // ----- receipts over a run ---------------------------------------------------------------------------------------------

  /** Rows that differ at most in receipt and in speed, course and heading. */
  ghost predicate SameCore(a: Option<Vessel>, b: Option<Vessel>) {
    (a.None? <==> b.None?) && CoreOf(a) == CoreOf(b)
  }

  lemma SameCoreWrites(a: Option<Vessel>, b: Option<Vessel>, u: Update)
    requires SameCore(a, b)
    ensures Writes(a, u) <==> Writes(b, u)
    ensures SameCore(Some(Upsert(a, u)), Some(Upsert(b, u)))
  {
    UpsertParts(a, u);
    UpsertParts(b, u);
  }

  lemma {:induction false} SameCoreWriter(a: Option<Vessel>, b: Option<Vessel>, us: seq<Update>, m: string)
    requires SameCore(a, b) && OfVessel(us, m)
    ensures LastWriter(a, us, m) == LastWriter(b, us, m)
    ensures SameCore(Direct(a, us, m), Direct(b, us, m))
  {
    hide Writes, SameCore, Upsert;
    if us != [] {
      var before := us[..|us| - 1];
      SameCoreWriter(a, b, before, m);
      SameCoreWrites(Direct(a, before, m), Direct(b, before, m), us[|us| - 1]);
    }
  }

  lemma {:induction false} BatchCore(v: Option<Vessel>, us: seq<Update>, m: string)
    requires OfVessel(us, m)
    ensures SameCore(UpsertBatch(v, us), Direct(v, us, m))
  {
    if us != [] {
      var before, last := us[..|us| - 1], us[|us| - 1];
      MergeAllSome(us, m);
      MergeAllSome(before, m);
      BatchCore(v, before, m);
      hide Upsert, MergePosition, MergeStatic, MergeAll, SameCore;
      MergeStep(v, before, last, m);
      SameCoreWrites(UpsertBatch(v, before), Direct(v, before, m), last);
      SameCoreTransitive(UpsertBatch(v, us), Some(Upsert(UpsertBatch(v, before), last)), Direct(v, us, m));
    }
  }

  lemma SameCoreTransitive(a: Option<Vessel>, b: Option<Vessel>, c: Option<Vessel>)
    requires SameCore(a, b) && SameCore(b, c)
    ensures SameCore(a, c)
  {
  }

  /** Merging one more message before the upsert, or upserting it afterwards. */
  lemma MergeStep(v: Option<Vessel>, before: seq<Update>, last: Update, m: string)
    requires OfVessel(before, m) && last.mmsi == m
    requires MergeUpdates(MergeAll(before), last).Ok? && (MergeAll(before).Some? <==> before != [])
    ensures SameCore(Some(Upsert(v, MergeUpdates(MergeAll(before), last).value)), Some(Upsert(UpsertBatch(v, before), last)))
  {
    var merged := MergeUpdates(MergeAll(before), last).value;
    UpsertParts(v, merged);
    UpsertParts(UpsertBatch(v, before), last);
    if before != [] {
      var b := MergeAll(before).value;
      UpsertParts(v, b);
      PlaceAssociative(PositionOf(v), b.position, last.position);
      StaticAssociative(StaticOf(v), b.static_, last.static_);
    }
    hide Upsert, MergePosition, MergeStatic, MergeAll;
  }

  lemma {:induction false} AppliedCore(stored: Option<Vessel>, batches: seq<seq<Update>>, m: string)
    requires Proper(batches, m)
    ensures SameCore(Applied(stored, batches), DirectAll(stored, batches, m))
  {
    if batches != [] {
      var before, last := batches[..|batches| - 1], batches[|batches| - 1];
      AppliedCore(stored, before, m);
      assert OfVessel(last, m);
      hide SameCore, UpsertBatch, Direct;
      BatchCore(Applied(stored, before), last, m);
      SameCoreWriter(Applied(stored, before), DirectAll(stored, before, m), last, m);
      SameCoreTransitive(Applied(stored, batches), Direct(Applied(stored, before), last, m), DirectAll(stored, batches, m));
    }
  }

  /** The last batch with a message that changes the directly applied row; -1 if no batch has one. */
  function Deciding(stored: Option<Vessel>, batches: seq<seq<Update>>, m: string): (j: int)
    ensures -1 <= j < |batches|
    ensures j >= 0 ==> LastWriter(DirectAll(stored, batches[..j], m), batches[j], m) >= 0
  {
    if batches == [] then -1
    else
      var before, last := batches[..|batches| - 1], batches[|batches| - 1];
      if LastWriter(DirectAll(stored, before, m), last, m) >= 0 then |batches| - 1
      else
        var j := Deciding(stored, before, m);
        assert j >= 0 ==> before[..j] == batches[..j];
        j
  }

  ghost predicate ReceiptIs(v: Option<Vessel>, receipt: Receipt) {
    v.Some? && v.value.receivedAt == receipt.receivedAt && v.value.source == receipt.source
  }

  ghost predicate SameReceipt(a: Option<Vessel>, b: Option<Vessel>) {
    (a.None? <==> b.None?) && (a.Some? ==> a.value.receivedAt == b.value.receivedAt && a.value.source == b.value.source)
  }

  /** The deciding batch sets both receipts: flushed it leaves that of the message received last, directly applied that of its
      last message to change the row. */
  lemma {:induction false} ReceiptsAreDecided(stored: Option<Vessel>, batches: seq<seq<Update>>, m: string)
    requires Proper(batches, m)
    ensures var j := Deciding(stored, batches, m);
            && (j < 0 ==> SameReceipt(Applied(stored, batches), stored) && SameReceipt(DirectAll(stored, batches, m), stored))
            && (j >= 0 ==>
                  && batches[j] != []
                  && ReceiptIs(Applied(stored, batches), batches[j][LastReceived(batches[j])].receipt)
                  && ReceiptIs(DirectAll(stored, batches, m), batches[j][LastWriter(DirectAll(stored, batches[..j], m), batches[j], m)].receipt))
  {
    if batches != [] {
      var before, last := batches[..|batches| - 1], batches[|batches| - 1];
      ReceiptsAreDecided(stored, before, m);
      assert last != [] && OfVessel(last, m);
      var applied, direct := Applied(stored, before), DirectAll(stored, before, m);
      var j := Deciding(stored, before, m);
      assert j >= 0 ==> before[..j] == batches[..j];
      hide UpsertBatch, Direct, LastWriter, LastReceived, SameCore;
      AppliedCore(stored, before, m);
      SameCoreWriter(applied, direct, last, m);
      ReceiptFlushIff(applied, last, m);
      ReceiptFlushIff(direct, last, m);
    }
  }

  /** The receipt of a row after a run is the directly applied one exactly when no message of the run changes the row, or, in
      the last batch with one that does, the last such message has the receipt of the message received last. */
  lemma ReceiptScheduleIff(s: Schedule, store: map<string, Vessel>, start: real, ticks: seq<Tick>, m: string)
    ensures var batches := Batches(CutsOf(s, State(store, map[], start), ticks, m));
            var pending, direct := Pending(Run(s, State(store, map[], start), ticks), m), Direct(Get(store, m), Messages(ticks), m);
            var j := Deciding(Get(store, m), batches, m);
            && (pending.None? <==> direct.None?)
            && (j >= 0 ==> batches[j] != [] && pending.Some?)
            && (pending.Some? ==>
                  && (pending.value.receivedAt == direct.value.receivedAt <==>
                      j < 0 || Writer(store, batches, j, m).receivedAt == batches[j][LastReceived(batches[j])].receipt.receivedAt)
                  && (pending.value.source == direct.value.source <==>
                      j < 0 || Writer(store, batches, j, m).source == batches[j][LastReceived(batches[j])].receipt.source))
  {
    hide *;
    PendingIsApplied(s, store, start, ticks, m);
    ReceiptsFromDecision(store, Batches(CutsOf(s, State(store, map[], start), ticks, m)), m);
  }

  /** The receipt of the last message of a batch to change the directly applied row. */
  function Writer(store: map<string, Vessel>, batches: seq<seq<Update>>, j: int, m: string): Receipt
    requires 0 <= j < |batches| && LastWriter(DirectAll(Get(store, m), batches[..j], m), batches[j], m) >= 0
  {
    batches[j][LastWriter(DirectAll(Get(store, m), batches[..j], m), batches[j], m)].receipt
  }

  lemma ReceiptsFromDecision(store: map<string, Vessel>, batches: seq<seq<Update>>, m: string)
    requires Proper(batches, m)
    ensures var j := Deciding(Get(store, m), batches, m);
            var applied, direct := Applied(Get(store, m), batches), DirectAll(Get(store, m), batches, m);
            && (applied.None? <==> direct.None?)
            && (j >= 0 ==> batches[j] != [] && applied.Some?)
            && (applied.Some? ==>
                  && (applied.value.receivedAt == direct.value.receivedAt <==>
                      j < 0 || Writer(store, batches, j, m).receivedAt == batches[j][LastReceived(batches[j])].receipt.receivedAt)
                  && (applied.value.source == direct.value.source <==>
                      j < 0 || Writer(store, batches, j, m).source == batches[j][LastReceived(batches[j])].receipt.source))
  {
    ReceiptsAreDecided(Get(store, m), batches, m);
    hide Applied, DirectAll, LastWriter, LastReceived, Deciding;
  }

  // ----- speed, course and heading ------------------------------------------------------------------------------------------

  datatype Field = Speed | Course | Heading

  function Read(p: Option<Position>, f: Field): Option<real> {
    if p.None? then None
    else match f
      case Speed => p.value.speed
      case Course => p.value.course
      case Heading => p.value.heading
  }

  /** Merging positions one by one. */
  function Merged(s: Option<Position>, ps: seq<Position>): Option<Position> {
    if ps == [] then s else MergePosition(Merged(s, ps[..|ps| - 1]), Some(ps[|ps| - 1]))
  }

  /** The first record at or after the stored position. */
  function FirstFresh(time: int, ps: seq<Position>): (n: nat)
    ensures n <= |ps| && (forall i :: 0 <= i < n ==> ps[i].time < time) && (n < |ps| ==> ps[n].time >= time)
  {
    if ps == [] || ps[0].time >= time then 0 else 1 + FirstFresh(time, ps[1..])
  }

  lemma {:induction false} MergedConcat(s: Option<Position>, a: seq<Position>, b: seq<Position>)
    ensures Merged(s, a + b) == Merged(Merged(s, a), b)
  {
    hide MergePosition;
    if b == [] {
      assert a + b == a;
    } else {
      MergedConcat(s, a, b[..|b| - 1]);
      assert (a + b)[..|a + b| - 1] == a + b[..|b| - 1];
    }
  }

  /** Stale records change nothing. */
  lemma {:induction false} StaleIgnored(s: Position, ps: seq<Position>)
    requires forall i :: 0 <= i < |ps| ==> ps[i].time < s.time
    ensures Merged(Some(s), ps) == Some(s)
  {
    if ps != [] {
      StaleIgnored(s, ps[..|ps| - 1]);
    }
  }

  lemma {:induction false} StaleStaysStale(time: int, ps: seq<Position>)
    requires forall i :: 0 <= i < |ps| ==> ps[i].time < time
    ensures Merged(None, ps).Some? ==> Merged(None, ps).value.time < time
    ensures Merged(None, ps).Some? <==> ps != []
  {
    if ps != [] {
      StaleStaysStale(time, ps[..|ps| - 1]);
    }
  }

  /** Merging associates as long as the first record is not older than what it is merged into. */
  lemma {:induction false} MergedFromFresh(s: Option<Position>, ps: seq<Position>)
    requires s.Some? && ps != [] ==> ps[0].time >= s.value.time
    ensures Merged(s, ps) == MergePosition(s, Merged(None, ps))
    ensures ps != [] ==> Merged(None, ps).Some? && Merged(None, ps).value.time >= ps[0].time
  {
    if ps != [] {
      var before := ps[..|ps| - 1];
      MergedFromFresh(s, before);
      if before == [] {
        assert Merged(None, before) == None;
      }
    }
  }

  /** Flushing a buffer once gives a field the value of direct application, except in exactly one situation: a record at or
      after the stored position came in, what was merged before the first such record carries another value of the field
      than is stored, and what was merged from it on carries none. */
  lemma FieldFlushIff(s: Position, ps: seq<Position>, f: Field)
    ensures var n := FirstFresh(s.time, ps);
            var stale, fresh_ := Merged(None, ps[..n]), Merged(None, ps[n..]);
            Read(MergePosition(Some(s), Merged(None, ps)), f) == Read(Merged(Some(s), ps), f) <==>
            !(n < |ps| && Read(fresh_, f).None? && Read(stale, f).Some? && Read(stale, f) != Read(Some(s), f))
  {
    hide *;
    var n := FirstFresh(s.time, ps);
    var a, b := ps[..n], ps[n..];
    assert ps == a + b;
    FlushOfSplit(s, ps, a, b, f);
  }

  lemma FlushOfSplit(s: Position, ps: seq<Position>, a: seq<Position>, b: seq<Position>, f: Field)
    requires ps == a + b
    requires forall i :: 0 <= i < |a| ==> a[i].time < s.time
    requires b != [] ==> b[0].time >= s.time
    ensures var stale, rest := Merged(None, a), Merged(None, b);
            Read(MergePosition(Some(s), Merged(None, ps)), f) == Read(Merged(Some(s), ps), f) <==>
            !(b != [] && Read(rest, f).None? && Read(stale, f).Some? && Read(stale, f) != Read(Some(s), f))
  {
    NothingMerged();
    StaleStaysStale(s.time, a);
    hide *;
    MergedConcat(Some(s), a, b);
    MergedConcat(None, a, b);
    StaleIgnored(s, a);
    MergedFromFresh(Some(s), b);
    MergedFromFresh(Merged(None, a), b);
    FieldThroughBuffer(s, Merged(None, a), Merged(None, b), f);
  }

  lemma NothingMerged()
    ensures Merged(None, []) == None
  {
  }

  lemma FieldThroughBuffer(s: Position, stale: Option<Position>, rest: Option<Position>, f: Field)
    requires stale.Some? ==> stale.value.time < s.time
    requires rest.Some? ==> rest.value.time >= s.time
    ensures Read(MergePosition(Some(s), MergePosition(stale, rest)), f) == Read(MergePosition(Some(s), rest), f) <==>
            !(rest.Some? && Read(rest, f).None? && Read(stale, f).Some? && Read(stale, f) != Read(Some(s), f))
  {
  }

  // ----- fields over a run ----------------------------------------------------------------------------------------------

  /** The positions a vessel's messages carry, in order. */
  function PositionsIn(us: seq<Update>): seq<Position> {
    if us == [] then []
    else PositionsIn(us[..|us| - 1]) + if us[|us| - 1].position.Some? then [us[|us| - 1].position.value] else []
  }

  function PositionBatches(batches: seq<seq<Update>>): (pss: seq<seq<Position>>)
    ensures |pss| == |batches| && forall j :: 0 <= j < |pss| ==> pss[j] == PositionsIn(batches[j])
  {
    seq(|batches|, j requires 0 <= j < |batches| => PositionsIn(batches[j]))
  }

  /** Every batch merged, then merged into what is stored. */
  function FlushedPosition(s: Option<Position>, pss: seq<seq<Position>>): Option<Position> {
    if pss == [] then s else MergePosition(FlushedPosition(s, pss[..|pss| - 1]), Merged(None, pss[|pss| - 1]))
  }

  function DirectPosition(s: Option<Position>, pss: seq<seq<Position>>): Option<Position> {
    if pss == [] then s else Merged(DirectPosition(s, pss[..|pss| - 1]), pss[|pss| - 1])
  }

  /** How many records of a batch come before the first one that is not older than what is known. */
  function StaleCount(known: Option<Position>, ps: seq<Position>): (n: nat)
    ensures n <= |ps|
    ensures known.Some? ==> forall i :: 0 <= i < n ==> ps[i].time < known.value.time
    ensures known.Some? && n < |ps| ==> ps[n].time >= known.value.time
    ensures known.None? ==> n == 0
  {
    if known.None? then 0 else FirstFresh(known.value.time, ps)
  }

  function StaleLength(s: Option<Position>, pss: seq<seq<Position>>, j: int): (n: nat)
    requires 0 <= j < |pss|
    ensures n <= |pss[j]|
  {
    StaleCount(DirectPosition(s, pss[..j]), pss[j])
  }

  /** What batch j merges before its first record that is not stale, and from it on. */
  function StalePart(s: Option<Position>, pss: seq<seq<Position>>, j: int): Option<Position>
    requires 0 <= j < |pss|
  {
    Merged(None, pss[j][..StaleLength(s, pss, j)])
  }

  function FreshPart(s: Option<Position>, pss: seq<seq<Position>>, j: int): Option<Position>
    requires 0 <= j < |pss|
  {
    Merged(None, pss[j][StaleLength(s, pss, j)..])
  }

  /** Batch j brings a stale value of the field into the row: it has a record that is not stale. */
  predicate BringsStale(s: Option<Position>, pss: seq<seq<Position>>, f: Field, j: int)
    requires 0 <= j < |pss|
  {
    StaleLength(s, pss, j) < |pss[j]| && Read(StalePart(s, pss, j), f).Some?
  }

  /** Batch j is the last to bring a stale value, and nothing that is not stale sets the field from then on. */
  ghost predicate Surfaces(s: Option<Position>, pss: seq<seq<Position>>, f: Field, j: int) {
    && 0 <= j < |pss| && BringsStale(s, pss, f, j)
    && (forall k :: j <= k < |pss| ==> Read(FreshPart(s, pss, k), f).None?)
    && (forall k :: j < k < |pss| ==> !BringsStale(s, pss, f, k))
  }

  lemma {:induction false} MergeAllPosition(us: seq<Update>, m: string)
    requires OfVessel(us, m)
    ensures us != [] ==> MergeAll(us).Some? && MergeAll(us).value.position == Merged(None, PositionsIn(us))
    ensures us == [] ==> Merged(None, PositionsIn(us)) == None
  {
    if us != [] {
      var before, last := us[..|us| - 1], us[|us| - 1];
      MergeAllSome(us, m);
      MergeAllPosition(before, m);
      MergeAllSome(before, m);
      MergedLast(None, PositionsIn(before), last.position);
      hide MergeStatic, MergePosition, Merged;
      if before == [] {
        MergeFirst(last);
        MergeIntoNothing(last.position);
      }
    }
  }

  lemma MergeIntoNothing(p: Option<Position>)
    ensures MergePosition(None, p) == p
  {
  }

  lemma MergedLast(s: Option<Position>, ps: seq<Position>, p: Option<Position>)
    ensures Merged(s, ps + if p.Some? then [p.value] else []) == MergePosition(Merged(s, ps), p)
  {
    if p.Some? {
      assert (ps + [p.value])[..|ps|] == ps;
    } else {
      assert ps + [] == ps;
    }
  }

  lemma {:induction false} DirectIsMerged(v: Option<Vessel>, us: seq<Update>, m: string)
    requires OfVessel(us, m)
    ensures PositionOf(Direct(v, us, m)) == Merged(PositionOf(v), PositionsIn(us))
  {
    hide Upsert, MergePosition, MergeStatic, Merged;
    if us == [] {
      NothingMergedInto(PositionOf(v));
    } else {
      var before, last := us[..|us| - 1], us[|us| - 1];
      DirectIsMerged(v, before, m);
      UpsertParts(Direct(v, before, m), last);
      MergedLast(PositionOf(v), PositionsIn(before), last.position);
    }
  }

  lemma NothingMergedInto(s: Option<Position>)
    ensures Merged(s, []) == s
  {
  }

  lemma BatchPosition(v: Option<Vessel>, us: seq<Update>, m: string)
    requires OfVessel(us, m)
    ensures PositionOf(UpsertBatch(v, us)) == MergePosition(PositionOf(v), Merged(None, PositionsIn(us)))
  {
    MergeAllPosition(us, m);
    if us != [] {
      UpsertParts(v, MergeAll(us).value);
    }
    hide Upsert, Merged, PositionsIn;
  }

  lemma {:induction false} BatchesArePositions(stored: Option<Vessel>, batches: seq<seq<Update>>, m: string)
    requires Proper(batches, m)
    ensures PositionOf(Applied(stored, batches)) == FlushedPosition(PositionOf(stored), PositionBatches(batches))
    ensures PositionOf(DirectAll(stored, batches, m)) == DirectPosition(PositionOf(stored), PositionBatches(batches))
  {
    if batches != [] {
      var before, last := batches[..|batches| - 1], batches[|batches| - 1];
      BatchesArePositions(stored, before, m);
      assert OfVessel(last, m);
      assert PositionBatches(batches)[..|batches| - 1] == PositionBatches(before);
      hide UpsertBatch, Direct, Merged, MergePosition;
      BatchPosition(Applied(stored, before), last, m);
      DirectIsMerged(DirectAll(stored, before, m), last, m);
    }
  }

  /** One batch, into positions of one time and place: both stay so, and for a field the newer part decides if it carries one;
      else the stale part, if there is a newer one, reaches the flushed side only. */
  lemma BatchOnField(flushed: Option<Position>, direct: Option<Position>, ps: seq<Position>, f: Field)
    requires PlaceOf(flushed) == PlaceOf(direct)
    ensures var n := StaleCount(direct, ps);
            var stale, rest := Merged(None, ps[..n]), Merged(None, ps[n..]);
            var after, plain := MergePosition(flushed, Merged(None, ps)), Merged(direct, ps);
            && PlaceOf(after) == PlaceOf(plain)
            && (n == |ps| ==> after == flushed && plain == direct && Read(rest, f).None?)
            && (Read(rest, f).Some? ==> Read(after, f) == Read(plain, f) == Read(rest, f))
            && (n < |ps| && Read(rest, f).None? ==>
                  Read(plain, f) == Read(direct, f) && Read(after, f) == Keep(Read(stale, f), Read(flushed, f)))
  {
    hide *;
    var n := StaleCount(direct, ps);
    var a, b := ps[..n], ps[n..];
    assert ps == a + b;
    NothingMerged();
    StaleBefore(direct, a);
    MergedConcat(direct, a, b);
    MergedConcat(None, a, b);
    MergedFromFresh(direct, b);
    MergedFromFresh(Merged(None, a), b);
    assert |b| == |ps| - n;
    NothingMergedInto(direct);
    CombineParts(flushed, direct, Merged(None, a), Merged(None, b), b == [], f);
  }

  lemma StaleBefore(known: Option<Position>, a: seq<Position>)
    requires known.Some? ==> forall i :: 0 <= i < |a| ==> a[i].time < known.value.time
    requires known.None? ==> a == []
    ensures Merged(known, a) == known
    ensures Merged(None, a).Some? <==> a != []
    ensures Merged(None, a).Some? ==> known.Some? && Merged(None, a).value.time < known.value.time
  {
    if known.Some? {
      StaleIgnored(known.value, a);
      StaleStaysStale(known.value.time, a);
    }
  }

  lemma CombineParts(flushed: Option<Position>, direct: Option<Position>, stale: Option<Position>, rest: Option<Position>, none: bool, f: Field)
    requires PlaceOf(flushed) == PlaceOf(direct)
    requires stale.Some? ==> direct.Some? && stale.value.time < direct.value.time
    requires rest.None? <==> none
    requires rest.Some? && direct.Some? ==> rest.value.time >= direct.value.time
    ensures var after, plain := MergePosition(flushed, MergePosition(stale, rest)), MergePosition(direct, rest);
            && PlaceOf(after) == PlaceOf(plain)
            && (none ==> after == flushed && plain == direct && Read(rest, f).None?)
            && (Read(rest, f).Some? ==> Read(after, f) == Read(plain, f) == Read(rest, f))
            && (!none && Read(rest, f).None? ==>
                  Read(plain, f) == Read(direct, f) && Read(after, f) == Keep(Read(stale, f), Read(flushed, f)))
  {
  }

  /** The batches decide a field: flushed and direct agree unless a stale value surfaces, and then the flushed one is that. */
  lemma {:induction false} FieldIsDecided(s: Option<Position>, pss: seq<seq<Position>>, f: Field) returns (j: int)
    ensures PlaceOf(FlushedPosition(s, pss)) == PlaceOf(DirectPosition(s, pss))
    ensures j >= 0 ==> Surfaces(s, pss, f, j) && Read(FlushedPosition(s, pss), f) == Read(StalePart(s, pss, j), f)
    ensures j < 0 ==> Read(FlushedPosition(s, pss), f) == Read(DirectPosition(s, pss), f) && forall k :: !Surfaces(s, pss, f, k)
  {
    hide FlushedPosition, DirectPosition, Read, BringsStale, StalePart, FreshPart, PlaceOf;
    j := -1;
    if pss == [] {
      NoBatches(s);
    } else {
      var before, last := pss[..|pss| - 1], |pss| - 1;
      var i := FieldIsDecided(s, before, f);
      LastBatch(s, pss, before, f);
      SamePrefix(s, pss, before, f);
      if Read(FreshPart(s, pss, last), f).Some? {
        j := -1;
      } else if BringsStale(s, pss, f, last) {
        j := last;
      } else {
        j := i;
        NothingNew(s, pss, before, f);
      }
    }
  }

  lemma NoBatches(s: Option<Position>)
    ensures FlushedPosition(s, []) == s == DirectPosition(s, [])
  {
  }

  lemma LastBatch(s: Option<Position>, pss: seq<seq<Position>>, before: seq<seq<Position>>, f: Field)
    requires pss != [] && before == pss[..|pss| - 1]
    requires PlaceOf(FlushedPosition(s, before)) == PlaceOf(DirectPosition(s, before))
    ensures var last := |pss| - 1;
            var flushed, direct := FlushedPosition(s, pss), DirectPosition(s, pss);
            && PlaceOf(flushed) == PlaceOf(direct)
            && (Read(FreshPart(s, pss, last), f).Some? ==> Read(flushed, f) == Read(direct, f))
            && (Read(FreshPart(s, pss, last), f).None? ==>
                  && Read(direct, f) == Read(DirectPosition(s, before), f)
                  && Read(flushed, f) == if BringsStale(s, pss, f, last) then Read(StalePart(s, pss, last), f)
                                         else Read(FlushedPosition(s, before), f))
  {
    BatchOnField(FlushedPosition(s, before), DirectPosition(s, before), pss[|pss| - 1], f);
    hide MergePosition, Merged, Read, StaleCount, PlaceOf;
  }

  lemma SamePrefix(s: Option<Position>, pss: seq<seq<Position>>, before: seq<seq<Position>>, f: Field)
    requires pss != [] && before == pss[..|pss| - 1]
    ensures forall k :: 0 <= k < |before| ==>
              && StaleLength(s, pss, k) == StaleLength(s, before, k) && StalePart(s, pss, k) == StalePart(s, before, k)
              && FreshPart(s, pss, k) == FreshPart(s, before, k) && BringsStale(s, pss, f, k) == BringsStale(s, before, f, k)
  {
    hide Merged, StaleCount, Read, DirectPosition;
    forall k | 0 <= k < |before|
      ensures StaleLength(s, pss, k) == StaleLength(s, before, k) && BringsStale(s, pss, f, k) == BringsStale(s, before, f, k)
      ensures StalePart(s, pss, k) == StalePart(s, before, k) && FreshPart(s, pss, k) == FreshPart(s, before, k)
    {
      assert pss[..k] == before[..k];
    }
  }

  lemma NothingNew(s: Option<Position>, pss: seq<seq<Position>>, before: seq<seq<Position>>, f: Field)
    requires pss != [] && before == pss[..|pss| - 1]
    requires Read(FreshPart(s, pss, |pss| - 1), f).None? && !BringsStale(s, pss, f, |pss| - 1)
    ensures forall k :: Surfaces(s, pss, f, k) <==> Surfaces(s, before, f, k)
  {
    SamePrefix(s, pss, before, f);
    forall k ensures Surfaces(s, pss, f, k) <==> Surfaces(s, before, f, k) {
      NothingNewAt(s, pss, before, f, k);
    }
  }

  lemma NothingNewAt(s: Option<Position>, pss: seq<seq<Position>>, before: seq<seq<Position>>, f: Field, k: int)
    requires |pss| == |before| + 1
    requires Read(FreshPart(s, pss, |before|), f).None? && !BringsStale(s, pss, f, |before|)
    requires forall i :: 0 <= i < |before| ==>
               FreshPart(s, pss, i) == FreshPart(s, before, i) && BringsStale(s, pss, f, i) == BringsStale(s, before, f, i)
    ensures Surfaces(s, pss, f, k) <==> Surfaces(s, before, f, k)
  {
    hide BringsStale, FreshPart, Read;
    if Surfaces(s, before, f, k) {
      forall i | k <= i < |pss| ensures Read(FreshPart(s, pss, i), f).None? {
      }
      forall i | k < i < |pss| ensures !BringsStale(s, pss, f, i) {
      }
    }
    if Surfaces(s, pss, f, k) {
      forall i | k <= i < |before| ensures Read(FreshPart(s, before, i), f).None? {
        assert FreshPart(s, pss, i) == FreshPart(s, before, i);
      }
      forall i | k < i < |before| ensures !BringsStale(s, before, f, i) {
        assert BringsStale(s, pss, f, i) == BringsStale(s, before, f, i);
      }
    }
  }

  /** After a run a field of a vessel, the buffer taken into account, is the directly applied one exactly when no stale value
      surfaces through a batch, or the one that does is the same. */
  lemma FieldScheduleIff(s: Schedule, store: map<string, Vessel>, start: real, ticks: seq<Tick>, m: string, f: Field)
    ensures var pss := PositionBatches(Batches(CutsOf(s, State(store, map[], start), ticks, m)));
            var stored := PositionOf(Get(store, m));
            var pending := PositionOf(Pending(Run(s, State(store, map[], start), ticks), m));
            var direct := PositionOf(Direct(Get(store, m), Messages(ticks), m));
            Read(pending, f) == Read(direct, f) <==>
            forall j :: Surfaces(stored, pss, f, j) ==> Read(StalePart(stored, pss, j), f) == Read(direct, f)
  {
    hide *;
    PendingIsApplied(s, store, start, ticks, m);
    var batches := Batches(CutsOf(s, State(store, map[], start), ticks, m));
    BatchesArePositions(Get(store, m), batches, m);
    FieldIff(PositionOf(Get(store, m)), PositionBatches(batches), f);
  }

  lemma FieldIff(s: Option<Position>, pss: seq<seq<Position>>, f: Field)
    ensures Read(FlushedPosition(s, pss), f) == Read(DirectPosition(s, pss), f) <==>
            forall j :: Surfaces(s, pss, f, j) ==> Read(StalePart(s, pss, j), f) == Read(DirectPosition(s, pss), f)
  {
    var j := FieldIsDecided(s, pss, f);
    forall k | j >= 0 && Surfaces(s, pss, f, k) ensures k == j {
    }
    hide FlushedPosition, DirectPosition, StalePart, Read;
  }

  // ----- a buffer that is never stale --------------------------------------------------------------------------------------

  /** Nothing buffered is older than what is stored. */
  ghost predicate FreshBuffer(st: State, m: string) {
    m in st.buffer && st.buffer[m].position.Some? && PositionOf(Get(st.store, m)).Some? ==>
      st.buffer[m].position.value.time >= PositionOf(Get(st.store, m)).value.time
  }

  lemma EmptyIsFresh(st: State, m: string)
    requires st.buffer == map[]
    ensures FreshBuffer(st, m)
  {
  }

  lemma FlushKeepsFresh(s: Schedule, st: State, tick: Tick, m: string)
    requires FreshBuffer(State(st.store, Buffered(st.buffer, tick), st.lastFlush), m)
    ensures FreshBuffer(Step(s, st, tick), m)
  {
    hide Buffered, Flushed, FlushDue;
  }

  lemma OthersPending(st: State, tick: Tick, m: string)
    requires !tick.Message? || tick.update.mmsi != m
    ensures Pending(State(st.store, Buffered(st.buffer, tick), st.lastFlush), m) == Pending(st, m)
    ensures FreshBuffer(st, m) ==> FreshBuffer(State(st.store, Buffered(st.buffer, tick), st.lastFlush), m)
  {
    hide Upsert, MergeUpdates;
  }

  lemma FreshAssociates(s: Option<Position>, a: Option<Position>, b: Option<Position>)
    requires s.Some? && a.Some? ==> a.value.time >= s.value.time
    ensures MergePosition(s, MergePosition(a, b)) == MergePosition(MergePosition(s, a), b)
  {
  }

  /** A position that enters a slot without a buffered position is not older than the stored one. */
  ghost predicate FreshEntry(st: State, tick: Tick, m: string) {
    tick.Message? && tick.update.mmsi == m && tick.update.position.Some?
    && (m in st.buffer ==> st.buffer[m].position.None?) && PositionOf(Get(st.store, m)).Some? ==>
      tick.update.position.value.time >= PositionOf(Get(st.store, m)).value.time
  }

  ghost predicate FreshEntries(s: Schedule, st: State, ticks: seq<Tick>, m: string) {
    forall k :: 0 <= k < |ticks| ==> FreshEntry(Run(s, st, ticks[..k]), ticks[k], m)
  }

  /** If no batch opens with a stale position, the whole position record, speed, course and heading included, is independent of
      the flush schedule, whatever comes out of order after that. */
  lemma {:induction false} FreshEntriesIndependence(s: Schedule, store: map<string, Vessel>, start: real, ticks: seq<Tick>, m: string)
    requires FreshEntries(s, State(store, map[], start), ticks, m)
    ensures PositionOf(Pending(Run(s, State(store, map[], start), ticks), m)) == PositionOf(Direct(Get(store, m), Messages(ticks), m))
    ensures FreshBuffer(Run(s, State(store, map[], start), ticks), m)
  {
    hide Upsert, CoreOf, Step, Pending, FreshBuffer, FreshEntry, MergePosition;
    var st0 := State(store, map[], start);
    if ticks == [] {
      NothingPending(store, start, m);
      EmptyIsFresh(st0, m);
    } else {
      var before, last := ticks[..|ticks| - 1], ticks[|ticks| - 1];
      var st := Run(s, st0, before);
      if last.Message? {
        assert (Messages(before) + [last.update])[..|Messages(before)|] == Messages(before);
      }
      FreshEntriesBefore(s, st0, ticks, m);
      FreshEntriesIndependence(s, store, start, before, m);
      RunKeyed(s, st0, before);
      FlushKeepsPending(s, st, last, m);
      if last.Message? && last.update.mmsi == m {
        assert FreshEntry(Run(s, st0, ticks[..|ticks| - 1]), ticks[|ticks| - 1], m);
        FreshMessage(st, last);
        UpsertParts(Direct(Get(store, m), Messages(before), m), last.update);
      } else {
        OthersPending(st, last, m);
      }
      FlushKeepsFresh(s, st, last, m);
    }
  }

  lemma FreshEntriesBefore(s: Schedule, st: State, ticks: seq<Tick>, m: string)
    requires ticks != [] && FreshEntries(s, st, ticks, m)
    ensures FreshEntries(s, st, ticks[..|ticks| - 1], m)
  {
    hide FreshEntry, Run;
    var before := ticks[..|ticks| - 1];
    forall k | 0 <= k < |before| ensures FreshEntry(Run(s, st, before[..k]), before[k], m) {
      assert before[..k] == ticks[..k];
    }
  }

  /** Such a message merges into what is pending, whether it is older than that or not. */
  lemma FreshMessage(st: State, tick: Tick)
    requires tick.Message? && BufferKeyed(st.buffer) && FreshBuffer(st, tick.update.mmsi) && FreshEntry(st, tick, tick.update.mmsi)
    ensures var after := State(st.store, Buffered(st.buffer, tick), st.lastFlush);
            && PositionOf(Pending(after, tick.update.mmsi)) == MergePosition(PositionOf(Pending(st, tick.update.mmsi)), tick.update.position)
            && FreshBuffer(after, tick.update.mmsi)
  {
    var u := tick.update;
    var v := Get(st.store, u.mmsi);
    var merged := MergeUpdates(Get(st.buffer, u.mmsi), u).value;
    UpsertParts(v, merged);
    if u.mmsi in st.buffer {
      UpsertParts(v, st.buffer[u.mmsi]);
      FreshAssociates(PositionOf(v), st.buffer[u.mmsi].position, u.position);
    }
    hide Upsert, MergeStatic;
  }

  /** A vessel's positions arrive in the order of their event times. */
  ghost predicate InOrder(stored: Option<Vessel>, messages: seq<Update>, m: string) {
    forall i, j :: 0 <= i <= j < |Positions(stored, messages, m)| ==>
      Positions(stored, messages, m)[i].time <= Positions(stored, messages, m)[j].time
  }

  lemma InOrderBefore(stored: Option<Vessel>, messages: seq<Update>, m: string)
    requires messages != [] && InOrder(stored, messages, m)
    ensures InOrder(stored, messages[..|messages| - 1], m)
  {
    var before := Positions(stored, messages[..|messages| - 1], m);
    assert forall i :: 0 <= i < |before| ==> before[i] == Positions(stored, messages, m)[i];
  }

  lemma {:induction false} LastTime(stored: Option<Vessel>, messages: seq<Update>, m: string)
    requires InOrder(stored, messages, m)
    ensures var ps := Positions(stored, messages, m);
            var p := PositionOf(Direct(stored, messages, m));
            (p.Some? <==> ps != []) && (p.Some? ==> p.value.time == ps[|ps| - 1].time)
  {
    var i := LatestPositionWins(stored, messages, m);
    hide Direct, Positions;
    var ps := Positions(stored, messages, m);
    if ps != [] {
      assert ps[|ps| - 1].time <= PositionTimes(ps)[i];
    }
  }

  /** In order, a message is not older than what is known. */
  lemma NotOlder(stored: Option<Vessel>, before: seq<Update>, u: Update)
    requires InOrder(stored, before + [u], u.mmsi)
    ensures var p := PositionOf(Direct(stored, before, u.mmsi));
            u.position.Some? && p.Some? ==> u.position.value.time >= p.value.time
  {
    assert (before + [u])[..|before|] == before;
    InOrderBefore(stored, before + [u], u.mmsi);
    LastTime(stored, before, u.mmsi);
    var ps := Positions(stored, before, u.mmsi);
    if u.position.Some? && ps != [] {
      assert Positions(stored, before + [u], u.mmsi) == ps + [u.position.value];
      hide Positions;
      assert Positions(stored, before + [u], u.mmsi)[|ps| - 1].time <= Positions(stored, before + [u], u.mmsi)[|ps|].time;
    }
  }

  /** Positions that arrive in the order of their event times are a special case. */
  lemma InOrderIndependence(s: Schedule, store: map<string, Vessel>, start: real, ticks: seq<Tick>, m: string)
    requires InOrder(Get(store, m), Messages(ticks), m)
    ensures FreshEntries(s, State(store, map[], start), ticks, m)
    ensures PositionOf(Pending(Run(s, State(store, map[], start), ticks), m)) == PositionOf(Direct(Get(store, m), Messages(ticks), m))
  {
    hide Upsert, Step, Run, Pending, Direct, InOrder, FreshEntry, MergePosition, Messages;
    var st0 := State(store, map[], start);
    forall k | 0 <= k < |ticks| ensures FreshEntry(Run(s, st0, ticks[..k]), ticks[k], m) {
      InOrderUpTo(Get(store, m), ticks, k + 1, m);
      InOrderEntry(s, store, start, ticks[..k], ticks[k], m, ticks[..k + 1]);
    }
    FreshEntriesIndependence(s, store, start, ticks, m);
  }

  lemma {:induction false} InOrderUpTo(stored: Option<Vessel>, ticks: seq<Tick>, k: nat, m: string)
    requires k <= |ticks| && InOrder(stored, Messages(ticks), m)
    ensures InOrder(stored, Messages(ticks[..k]), m)
    decreases |ticks|
  {
    hide InOrder;
    if k == |ticks| {
      assert ticks[..k] == ticks;
    } else {
      var before, last := ticks[..|ticks| - 1], ticks[|ticks| - 1];
      if last.Message? {
        assert (Messages(before) + [last.update])[..|Messages(before)|] == Messages(before);
        InOrderBefore(stored, Messages(ticks), m);
      }
      InOrderUpTo(stored, before, k, m);
      assert before[..k] == ticks[..k];
    }
  }

  lemma InOrderEntry(s: Schedule, store: map<string, Vessel>, start: real, before: seq<Tick>, tick: Tick, m: string, ticks: seq<Tick>)
    requires ticks == before + [tick] && InOrder(Get(store, m), Messages(ticks), m)
    ensures FreshEntry(Run(s, State(store, map[], start), before), tick, m)
  {
    if tick.Message? && tick.update.mmsi == m {
      assert ticks[..|before|] == before;
      NotOlder(Get(store, m), Messages(before), tick.update);
      FlushScheduleIndependence(s, store, start, before, m);
      StoredNotLater(Run(s, State(store, map[], start), before), m);
    }
    hide Run, Messages, InOrder, Upsert, MergePosition;
  }

  lemma StoredNotLater(st: State, m: string)
    ensures PositionOf(Get(st.store, m)).Some? ==>
              PositionOf(Pending(st, m)).Some? && PositionOf(Pending(st, m)).value.time >= PositionOf(Get(st.store, m)).value.time
  {
    if m in st.buffer {
      UpsertParts(Get(st.store, m), st.buffer[m]);
    }
  }

  // ----- two schedules of the same ticks -------------------------------------------------------------------------------------

  /** A schedule that flushes every message, and one that waits. */
  const EAGER := Schedule(1, 1.0)
  const PATIENT := Schedule(250, 1.0)

  lemma RunOfTwo(s: Schedule, st: State, first: Tick, second: Tick)
    ensures Run(s, st, [first, second]) == Step(s, Step(s, st, first), second)
  {
    hide Step;
    assert [first, second][..1] == [first] && [first][..0] == [];
    assert Run(s, st, [first]) == Step(s, Run(s, st, []), first);
  }

  /** Two messages of one vessel, half a second apart, under both schedules. */
  lemma TwoSchedules(v: Vessel, a: Update, b: Update, m: string)
    requires a.mmsi == m && b.mmsi == m
    ensures var st0 := State(map[m := v], map[], 0.0);
            var ticks := [Message(a, 0.5), Message(b, 1.0)];
            && MergeUpdates(Some(a), b).Ok?
            && Run(EAGER, st0, ticks) == State(map[m := Upsert(Some(Upsert(Some(v), a)), b)], map[], 1.0)
            && Run(PATIENT, st0, ticks) == State(map[m := Upsert(Some(v), MergeUpdates(Some(a), b).value)], map[], 1.0)
  {
    hide Upsert, MergePosition, MergeStatic, Run;
    var st0 := State(map[m := v], map[], 0.0);
    RunOfTwo(EAGER, st0, Message(a, 0.5), Message(b, 1.0));
    RunOfTwo(PATIENT, st0, Message(a, 0.5), Message(b, 1.0));
    MergeFirst(a);
    MergeFirst(b);
    var one := map[m := a];
    assert |one| == 1;
    OneFlush(map[m := v], a, m, 0.5);
    OneFlush(map[m := Upsert(Some(v), a)], b, m, 1.0);
    OneFlush(map[m := v], MergeUpdates(Some(a), b).value, m, 1.0);
    assert Step(PATIENT, st0, Message(a, 0.5)) == State(map[m := v], map[m := a], 0.0);
    assert Buffered(map[m := a], Message(b, 1.0)) == map[m := MergeUpdates(Some(a), b).value];
    assert |map[m := b]| == 1;
  }

  lemma OneFlush(store: map<string, Vessel>, u: Update, m: string, now: real)
    requires store.Keys == {m}
    ensures Flushed(store, map[m := u]) == map[m := Upsert(Some(store[m]), u)]
  {
    hide Upsert;
  }

  /** The smallest case: a stale record with a speed, then a newer one without. A worker that flushes every message keeps the
      stored speed, one that waits a second brings the stale one; their buffers are empty. */
  lemma StaleSpeedSurfaces(m: string, receipt: Receipt)
    ensures var v := Vessel(Some(Position(5, 0.0, 0.0, Some(1.0), None, None)), None, receipt.receivedAt, receipt.source);
            var stale := Update(m, Some(Position(3, 0.0, 0.0, Some(2.0), None, None)), None, receipt);
            var newer := Update(m, Some(Position(7, 0.0, 0.0, None, None, None)), None, receipt);
            var st0, ticks := State(map[m := v], map[], 0.0), [Message(stale, 0.5), Message(newer, 1.0)];
            && Normalized(stale) && Normalized(newer)
            && Run(EAGER, st0, ticks).buffer == Run(PATIENT, st0, ticks).buffer == map[]
            && Read(PositionOf(Get(Run(EAGER, st0, ticks).store, m)), Speed) == Some(1.0)
            && Read(PositionOf(Get(Run(PATIENT, st0, ticks).store, m)), Speed) == Some(2.0)
  {
    var v := Vessel(Some(Position(5, 0.0, 0.0, Some(1.0), None, None)), None, receipt.receivedAt, receipt.source);
    var stale := Update(m, Some(Position(3, 0.0, 0.0, Some(2.0), None, None)), None, receipt);
    var newer := Update(m, Some(Position(7, 0.0, 0.0, None, None, None)), None, receipt);
    TwoSchedules(v, stale, newer, m);
    hide Run;
  }

  /** A stale record received last is ignored by a worker that flushes every message, and marks the row with its receipt when
      it was buffered with an eligible one. */
  lemma ReceiptDependsOnFlush(m: string, v: Vessel, fresh_: Position, stale: Position, first: Receipt, second: Receipt)
    requires v.position.Some? && stale.time < v.position.value.time <= fresh_.time
    requires first.receivedAt <= second.receivedAt
    ensures var a, b := Update(m, Some(fresh_), None, first), Update(m, Some(stale), None, second);
            var st0, ticks := State(map[m := v], map[], 0.0), [Message(a, 0.5), Message(b, 1.0)];
            && Normalized(a) && Normalized(b)
            && Run(EAGER, st0, ticks).buffer == Run(PATIENT, st0, ticks).buffer == map[]
            && ReceiptIs(Get(Run(EAGER, st0, ticks).store, m), first)
            && ReceiptIs(Get(Run(PATIENT, st0, ticks).store, m), second)
  {
    var a, b := Update(m, Some(fresh_), None, first), Update(m, Some(stale), None, second);
    TwoSchedules(v, a, b, m);
    ReceiptOfBoth(v, a, b);
    hide Run, Upsert, MergeUpdates;
  }

  lemma ReceiptOfBoth(v: Vessel, a: Update, b: Update)
    requires v.position.Some? && a.position.Some? && b.position.Some? && a.static_.None? && b.static_.None? && a.mmsi == b.mmsi
    requires b.position.value.time < v.position.value.time <= a.position.value.time
    requires a.receipt.receivedAt <= b.receipt.receivedAt
    ensures ReceiptIs(Some(Upsert(Some(Upsert(Some(v), a)), b)), a.receipt)
    ensures MergeUpdates(Some(a), b).Ok? && ReceiptIs(Some(Upsert(Some(v), MergeUpdates(Some(a), b).value)), b.receipt)
  {
  }
}
