/** A batch that is given up ends on its own, and its jobs that have not started are cancelled, whatever the others do meanwhile. */
module BatchClosing {
  import opened Prelude
  import opened Sequences
  import opened CapacityPool
  import opened BatchProtocol

  /** Steps of one batch alone. */
  ghost predicate Alone(states: seq<System>, actions: seq<Action>, g: nat) {
    && |states| == |actions| + 1
    && forall i :: 0 <= i < |actions| ==>
         !IsWorker(actions[i]) && actions[i].g == g && Enabled(states[i], actions[i]) && states[i + 1] == Next(states[i], actions[i])
  }

  /** What closing a batch leaves: the listed jobs that have not started are cancelled, and nothing else has changed but permits. */
  ghost predicate ClosedOver(s: System, t: System, g: nat, rest: seq<nat>)
    requires g < |s.generators|
  {
    && |t.generators| == |s.generators| && |t.jobs| == |s.jobs|
    && t.generators[g].phase == Closed && t.generators[g].jobs == s.generators[g].jobs && t.generators[g].yielded == s.generators[g].yielded
    && (forall h :: 0 <= h < |s.generators| && h != g ==> t.generators[h] == s.generators[h])
    && (forall j :: 0 <= j < |s.jobs| ==>
          t.jobs[j] == if j in rest && s.jobs[j].status.Pending? then Job(s.jobs[j].operation, s.jobs[j].owner, Cancelled) else s.jobs[j])
  }

  lemma Prefixed(s: System, a: Action, states: seq<System>, actions: seq<Action>, g: nat)
    requires !IsWorker(a) && a.g == g && Enabled(s, a) && states != [] && states[0] == Next(s, a) && Alone(states, actions, g)
    ensures Alone([s] + states, [a] + actions, g)
  {
    hide Enabled, Next;
    forall i | 0 <= i < |actions| + 1
      ensures var b := ([a] + actions)[i];
              !IsWorker(b) && b.g == g && Enabled(([s] + states)[i], b) && ([s] + states)[i + 1] == Next(([s] + states)[i], b)
    {
      if i > 0 {
        assert ([a] + actions)[i] == actions[i - 1];
      }
    }
  }

  /** The next job of a closing batch is dealt with in one step, or in two if a permit comes back. */
  lemma OneJobLess(s: System, g: nat, rest: seq<nat>) returns (states: seq<System>, actions: seq<Action>)
    requires g < |s.generators| && s.generators[g].phase == Closing(rest) && rest != [] && rest[0] < |s.jobs|
    ensures states != [] && states[0] == s && Alone(states, actions, g) && |actions| <= 2
    ensures var t, j := states[|states| - 1], rest[0];
            && |t.generators| == |s.generators| && t.generators[g].phase == Closing(rest[1..])
            && t.generators[g].jobs == s.generators[g].jobs && t.generators[g].yielded == s.generators[g].yielded
            && (forall h :: 0 <= h < |s.generators| && h != g ==> t.generators[h] == s.generators[h])
            && t.jobs == if s.jobs[j].status.Pending? then s.jobs[j := Job(s.jobs[j].operation, s.jobs[j].owner, Cancelled)] else s.jobs
  {
    hide NextActive;
    var s1 := Next(s, Cancel(g));
    if s1.generators[g].phase.Releasing? {
      states, actions := [s, s1, Next(s1, CancelRelease(g))], [Cancel(g), CancelRelease(g)];
    } else {
      states, actions := [s, s1], [Cancel(g)];
    }
  }

  lemma {:induction false} Joined(first: seq<System>, a: seq<Action>, second: seq<System>, b: seq<Action>, g: nat)
    requires Alone(first, a, g) && Alone(second, b, g) && first[|a|] == second[0]
    ensures Alone(first[..|a|] + second, a + b, g)
    decreases |a|
  {
    hide Enabled, Next;
    if a != [] {
      assert Alone(first[1..], a[1..], g);
      Joined(first[1..], a[1..], second, b, g);
      var states := first[1..][..|a| - 1] + second;
      assert first[..|a|] + second == [first[0]] + states;
      assert a + b == [a[0]] + (a[1..] + b);
      assert states[0] == first[1] by {
        if |a| > 1 {
          assert first[1..][..|a| - 1][0] == first[1];
        }
      }
      Prefixed(first[0], a[0], states, a[1..] + b, g);
    } else {
      assert first[..0] + second == second && a + b == b;
    }
  }

  /** A closing batch can always go on by itself to the end, in at most two steps for each job that is left. */
  lemma {:induction false} ClosingEnds(s: System, g: nat, rest: seq<nat>) returns (states: seq<System>, actions: seq<Action>)
    requires g < |s.generators| && s.generators[g].phase == Closing(rest) && forall j :: j in rest ==> j < |s.jobs|
    ensures states != [] && states[0] == s && Alone(states, actions, g) && |actions| <= 2 * |rest| + 1
    ensures ClosedOver(s, states[|states| - 1], g, rest)
    decreases |rest|
  {
    if rest == [] {
      states, actions := [s, Next(s, CloseEnd(g))], [CloseEnd(g)];
    } else {
      assert rest[0] in rest;
      var first, a := OneJobLess(s, g, rest);
      var t := first[|a|];
      assert forall j :: j in rest[1..] ==> j in rest;
      var second, b := ClosingEnds(t, g, rest[1..]);
      Joined(first, a, second, b, g);
      states, actions := first[..|a|] + second, a + b;
      ClosedBoth(s, t, second[|second| - 1], g, rest);
      assert states[|states| - 1] == second[|second| - 1];
    }
  }

  lemma ClosedBoth(s: System, t: System, u: System, g: nat, rest: seq<nat>)
    requires g < |s.generators| == |t.generators| && rest != [] && rest[0] < |s.jobs|
    requires t.generators[g].jobs == s.generators[g].jobs && t.generators[g].yielded == s.generators[g].yielded
    requires forall h :: 0 <= h < |s.generators| && h != g ==> t.generators[h] == s.generators[h]
    requires var j := rest[0];
             t.jobs == if s.jobs[j].status.Pending? then s.jobs[j := Job(s.jobs[j].operation, s.jobs[j].owner, Cancelled)] else s.jobs
    requires ClosedOver(t, u, g, rest[1..])
    ensures ClosedOver(s, u, g, rest)
  {
    assert forall j :: j in rest <==> j == rest[0] || j in rest[1..];
  }

  /** The caller gives a batch up, or an exception ends it: in a scan, on submitting, or with the result of a job. */
  predicate GivesUp(a: Action) {
    a.Abandon? || a.ScanRaises? || a.SubmitFails? || a.CollectRaises?
  }

  /** A batch that is given up in any reachable state can end on its own, in at most two steps for each of its jobs: those that
      have not started are cancelled, those that have run on. Only jobs whose results it has just taken are no longer its own. */
  lemma GivenUpBatchCloses(before: seq<System>, run: seq<Action>, i: nat, a: Action) returns (states: seq<System>, actions: seq<Action>)
    requires Run(before, run) && i < |before| && GivesUp(a) && Enabled(before[i], a)
    ensures states != [] && states[0] == before[i] && Alone(states, [a] + actions, a.g)
    ensures |actions| <= 2 * |before[i].generators[a.g].jobs| + 1
    ensures var own := set j | j in before[i].generators[a.g].jobs && (a.CollectRaises? ==> j !in a.popped);
            var last := states[|states| - 1];
            && |last.generators| == |before[i].generators|
            && last.generators[a.g].phase == Closed && last.generators[a.g].yielded == before[i].generators[a.g].yielded
            && |last.jobs| == |before[i].jobs|
            && forall j :: 0 <= j < |last.jobs| ==>
                 last.jobs[j].status == if j in own && before[i].jobs[j].status.Pending? then Cancelled else before[i].jobs[j].status
  {
    var s := before[i];
    JobsInRange(before, run, i, a.g);
    var t := Next(s, a);
    var rest := t.generators[a.g].jobs;
    GivenUpJobs(s, a);
    var second, b := ClosingEnds(t, a.g, rest);
    hide Enabled, Next;
    Prefixed(s, a, second, b, a.g);
    states, actions := [s] + second, b;
    assert states[|states| - 1] == second[|second| - 1];
  }

  lemma GivenUpJobs(s: System, a: Action)
    requires GivesUp(a) && Enabled(s, a)
    ensures var t := Next(s, a);
            && |t.generators| == |s.generators| && t.jobs == s.jobs && t.generators[a.g].yielded == s.generators[a.g].yielded
            && t.generators[a.g].phase == Closing(t.generators[a.g].jobs) && |t.generators[a.g].jobs| <= |s.generators[a.g].jobs|
            && forall j :: j in t.generators[a.g].jobs <==> j in s.generators[a.g].jobs && (a.CollectRaises? ==> j !in a.popped)
  {
    hide NextActive;
    if a.CollectRaises? {
      WithoutAllHolds(s.generators[a.g].jobs, a.popped);
    }
  }

  lemma {:induction false} WithoutAllHolds(ids: seq<nat>, gone: seq<nat>)
    ensures |WithoutAll(ids, gone)| <= |ids|
    ensures forall j :: j in WithoutAll(ids, gone) <==> j in ids && j !in gone
    decreases |gone|
  {
    if gone != [] {
      WithoutAllHolds(Without(ids, gone[0]), gone[1..]);
    }
  }

  lemma JobsInRange(before: seq<System>, run: seq<Action>, i: nat, g: nat)
    requires Run(before, run) && i < |before| && g < |before[i].generators|
    ensures forall j :: j in before[i].generators[g].jobs ==> j < |before[i].jobs|
  {
    PermitConservation(before, run, i);
    assert GeneratorOk(before[i], before[i].generators[g], g);
  }
}
