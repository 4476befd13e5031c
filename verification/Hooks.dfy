/**
  Which plugin thread runs which plugin. Hooks are numbered in registration order, so
  hook r is the one of the plugin whose name stands at entry MIN_THREADS + r.
  */
module Hooks {
  import opened Sequences
  import opened Pipeline
  import opened Shutdown

  /** The hooks as discovery leaves them, numbered, each with the availability of its plugin. */
  function InOrderOf(available: seq<bool>): (hooks: seq<Hook>)
    ensures |hooks| == |available| && forall i :: 0 <= i < |hooks| ==> hooks[i] == Hook(i, available[i])
  {
    seq(|available|, i requires 0 <= i < |available| => Hook(i, available[i]))
  }

  /** How many plugin threads have called get_hook. */
  ghost function Taken(s: State): int { |s.gathers| - Sum(s.gathers, Waits) }

  ghost predicate FirstComeFirstServed(hooks: seq<Hook>, s: State) {
    |s.hooks| <= |hooks| && s.hooks == hooks[|hooks| - |s.hooks|..]
  }

  lemma {:induction false} ServedInOrder(hooks: seq<Hook>, s: State, acts: seq<Action>)
    requires IsRun(s, acts) && FirstComeFirstServed(hooks, s)
    ensures FirstComeFirstServed(hooks, Run(s, acts))
    decreases |acts|
  {
    if acts != [] {
      var s' := Step(s, acts[0]);
      assert s'.hooks == s.hooks || (s.hooks != [] && s'.hooks == s.hooks[1..]);
      ServedInOrder(hooks, s', acts[1..]);
    }
  }

  /**
    A thread gets the hook whose number is how many threads came before it: thread i runs the
    plugin of its own name exactly when i threads were faster.
    */
  lemma HookByArrival(available: seq<bool>, senders: nat, s: State, i: nat, reading: Metric)
    requires senders >= 1 && Reachable(InOrderOf(available), senders, s)
    requires i < |s.gathers| && s.gathers[i].pc.TakeHook?
    ensures 0 <= Taken(s) < |available|
    ensures StepGather(s, i, reading).gathers[i].hook == Some(Hook(Taken(s), available[Taken(s)]))
  {
    hide Sum, Reachable, InOrderOf, Conserved, Fifo, InOrder, NoMetricLost, Bounded, Joined;
    var hooks := InOrderOf(available);
    Reached(hooks, senders, s);
    ServedReached(hooks, senders, s);
    WaitingThread(s.gathers, i);
    SumBound(s.gathers, Waits, 1);
    assert s.hooks[0] == hooks[|hooks| - |s.hooks|];
  }

  lemma ServedReached(hooks: seq<Hook>, senders: nat, s: State)
    requires Reachable(hooks, senders, s)
    ensures FirstComeFirstServed(hooks, s)
  {
    var acts :| IsRun(Init(hooks, senders), acts) && Run(Init(hooks, senders), acts) == s;
    ServedInOrder(hooks, Init(hooks, senders), acts);
  }

  /** Two plugins and the second thread first: each runs the other's hook. */
  lemma NamesMayCross(available: seq<bool>, senders: nat)
    requires senders >= 1 && |available| == 2
    ensures exists s :: Reachable(InOrderOf(available), senders, s) && |s.gathers| == 2
              && s.gathers[0].hook == Some(Hook(1, available[1])) && s.gathers[1].hook == Some(Hook(0, available[0]))
  {
    var s0 := Init(InOrderOf(available), senders);
    var m := Metric(0, "");
    var a, b := GatherStep(1, m), GatherStep(0, m);
    var s1 := Step(s0, a);
    var s2 := Step(s1, b);
    assert IsRun(s2, []) && Run(s2, []) == s2;
    assert [b][1..] == [] && [a, b][1..] == [b];
    assert IsRun(s1, [b]) && Run(s1, [b]) == s2;
    assert IsRun(s0, [a, b]) && Run(s0, [a, b]) == s2;
  }

  lemma {:induction false} SomeThread(gs: seq<Gather>, h: Hook)
    requires Bag(gs, HookOf)[h] >= 1
    ensures exists p :: 0 <= p < |gs| && gs[p].hook == Some(h)
  {
    if HookOf(gs[0])[h] >= 1 {
      assert gs[0].hook == Some(h);
    } else {
      SomeThread(gs[1..], h);
      var p :| 0 <= p < |gs[1..]| && gs[1..][p].hook == Some(h);
      assert gs[p + 1].hook == Some(h);
    }
  }

  /** Once all threads have asked, every registered plugin is run by exactly one thread. */
  lemma EveryPluginRuns(available: seq<bool>, senders: nat, s: State, r: nat)
    requires senders >= 1 && Reachable(InOrderOf(available), senders, s) && r < |available|
    requires forall p :: 0 <= p < |s.gathers| ==> !s.gathers[p].pc.TakeHook?
    ensures exists p :: 0 <= p < |s.gathers| && s.gathers[p].hook == Some(Hook(r, available[r]))
              && forall q :: 0 <= q < |s.gathers| && s.gathers[q].hook == Some(Hook(r, available[r])) ==> q == p
  {
    var hooks, h := InOrderOf(available), Hook(r, available[r]);
    HooksAreShared(hooks, senders, s);
    assert hooks[r] in multiset(hooks);
    SomeThread(s.gathers, h);
    var p :| 0 <= p < |s.gathers| && s.gathers[p].hook == Some(h);
    forall q | 0 <= q < |s.gathers| && s.gathers[q].hook == Some(h) ensures q == p {
      if q < p {
        DistinctHooks(hooks, senders, s, q, p);
      } else if p < q {
        DistinctHooks(hooks, senders, s, p, q);
      }
    }
  }
}
