/** What the hooks returned in a run, and that exactly this is handed on. */
module Readings {
  import opened Sequences
  import opened Pipeline
  import opened Shutdown

  /** Action a, taken in state s, is a hook call of thread i that returns a metric. */
  predicate HookReturns(s: State, a: Action, i: nat) {
    && i < |s.gathers| && a.GatherStep? && a.thread == i
    && s.gathers[i].pc.Fill? && |s.gathers[i].pc.bulk| < 8
    && s.running && s.gathers[i].hook.Some? && s.gathers[i].hook.value.available
  }

  /** The metrics that the hook of thread i returned, in order, as the schedule has them. */
  function Returned(s: State, acts: seq<Action>, i: nat): seq<Metric>
    requires IsRun(s, acts)
    decreases |acts|
  {
    if acts == [] then []
    else
      (if HookReturns(s, acts[0], i) then [acts[0].reading] else []) + Returned(Step(s, acts[0]), acts[1..], i)
  }

  lemma StepSamples(s: State, a: Action, i: nat)
    requires Enabled(s, a) && i < |s.gathers|
    ensures |Step(s, a).gathers| == |s.gathers|
    ensures Step(s, a).gathers[i].sampled == s.gathers[i].sampled + if HookReturns(s, a, i) then [a.reading] else []
  {
  }

  /** A run appends exactly the returned metrics, unchanged, to what the thread has sampled. */
  lemma {:induction false} SampledAreReturned(s: State, acts: seq<Action>, i: nat)
    requires IsRun(s, acts) && i < |s.gathers|
    ensures |Run(s, acts).gathers| == |s.gathers|
    ensures Run(s, acts).gathers[i].sampled == s.gathers[i].sampled + Returned(s, acts, i)
    decreases |acts|
  {
    hide Step, HookReturns;
    if acts != [] {
      StepSamples(s, acts[0], i);
      SampledAreReturned(Step(s, acts[0]), acts[1..], i);
    }
  }

  /** At any moment the bulks issued so far, and the one being filled, hold exactly what the hook returned. */
  lemma IssuedAreReturned(hooks: seq<Hook>, senders: nat, acts: seq<Action>, i: nat)
    requires senders >= 1 && i < |hooks| && IsRun(Init(hooks, senders), acts)
    ensures var s := Run(Init(hooks, senders), acts);
            && |s.gathers| == |hooks|
            && Returned(Init(hooks, senders), acts, i) ==
               AllMetrics(Of(s.issued, i)) + if s.gathers[i].pc.Fill? then Somes(s.gathers[i].pc.bulk) else []
  {
    var s := Run(Init(hooks, senders), acts);
    assert Reachable(hooks, senders, s);
    Reached(hooks, senders, s);
    SampledAreReturned(Init(hooks, senders), acts, i);
    assert Lossless(s, i);
  }

  /** The bulks a finished thread has enqueued hold exactly what its hook returned, in order and unchanged. */
  lemma EnqueuedAreReturned(hooks: seq<Hook>, senders: nat, acts: seq<Action>, i: nat)
    requires senders >= 1 && i < |hooks| && IsRun(Init(hooks, senders), acts)
    ensures var s := Run(Init(hooks, senders), acts);
            && |s.gathers| == |hooks|
            && (s.gathers[i].pc.GatherExited? ==>
                  AllMetrics(Of(s.enqueued, i)) == Returned(Init(hooks, senders), acts, i))
  {
    var s := Run(Init(hooks, senders), acts);
    IssuedAreReturned(hooks, senders, acts, i);
    if s.gathers[i].pc.GatherExited? {
      assert Reachable(hooks, senders, s);
      EveryMetricIssued(hooks, senders, s, i);
      Reached(hooks, senders, s);
      assert Lossless(s, i);
      SampledAreReturned(Init(hooks, senders), acts, i);
    }
  }

  /** A metric is in a bulk at its place: concatenating bulks loses and reorders nothing. */
  lemma {:induction false} MetricsInPlace(hs: seq<Handle>, k: nat, j: nat)
    requires k < |hs| && j < |hs[k].metrics|
    ensures |AllMetrics(hs[..k])| + j < |AllMetrics(hs)|
    ensures AllMetrics(hs)[|AllMetrics(hs[..k])| + j] == hs[k].metrics[j]
    decreases |hs|
  {
    var before := hs[..|hs| - 1];
    if k < |before| {
      assert before[..k] == hs[..k];
      MetricsInPlace(before, k, j);
    }
  }
}
