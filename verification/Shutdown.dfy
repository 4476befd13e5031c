/**
  What holds of every run of the agent: each bulk is cleaned at most once and
  none is lost, the queue keeps each plugin's order, few bulks are left when the
  queue is freed, and every run ends once the stop signal has arrived.
  */
module Shutdown {
  import opened Sequences
  import opened Pipeline

  // ------------------------------------------------------------ whole runs

  /** Some schedule leads from the start to this state. */
  ghost predicate Reachable(hooks: seq<Hook>, senders: nat, s: State) {
    exists acts :: IsRun(Init(hooks, senders), acts) && Run(Init(hooks, senders), acts) == s
  }

  /** Every reachable state satisfies the invariant. */
  lemma Reached(hooks: seq<Hook>, senders: nat, s: State)
    requires senders >= 1 && Reachable(hooks, senders, s)
    ensures Inv(s, multiset(hooks)) && |s.gathers| == |hooks| && |s.senders| == senders
  {
    var acts :| IsRun(Init(hooks, senders), acts) && Run(Init(hooks, senders), acts) == s;
    InvInit(hooks, senders);
    InvRun(Init(hooks, senders), acts, multiset(hooks));
    SameThreads(Init(hooks, senders), acts);
  }

  lemma {:induction false} OfCount(hs: seq<Handle>, h: Handle)
    ensures multiset(hs)[h] == multiset(Of(hs, h.producer))[h]
  {
    if hs != [] {
      var last := |hs| - 1;
      assert hs == hs[..last] + [hs[last]];
      OfCount(hs[..last], h);
    }
  }

  lemma {:induction false} NumberedOnce(hs: seq<Handle>, n: nat, h: Handle)
    requires Numbered(hs, n)
    ensures multiset(hs)[h] <= 1
  {
    if n > 0 {
      assert hs == hs[..n - 1] + [hs[n - 1]];
      NumberedOnce(hs[..n - 1], n - 1, h);
      assert hs[n - 1] !in hs[..n - 1];
    }
  }

  /** A handle that was issued is in exactly one place, and was cleaned at most once. */
  lemma ExactlyOnePlace(hooks: seq<Hook>, senders: nat, s: State, h: Handle)
    requires senders >= 1 && Reachable(hooks, senders, s) && h in s.issued
    ensures multiset(s.queue)[h] + InGathers(s)[h] + InSenders(s)[h] + multiset(s.cleaned)[h] == 1
  {
    Reached(hooks, senders, s);
    assert ProducerOrder(s, h.producer);
    OfCount(s.issued, h);
    NumberedOnce(Of(s.issued, h.producer), s.gathers[h.producer].published, h);
    assert h in multiset(s.issued);
  }

  lemma {:induction false} OfConcat(a: seq<Handle>, b: seq<Handle>, p: nat)
    ensures Of(a + b, p) == Of(a, p) + Of(b, p)
  {
    if b == [] {
      assert a + b == a;
    } else {
      var last := |b| - 1;
      assert (a + b)[..|a + b| - 1] == a + b[..last];
      OfConcat(a, b[..last], p);
    }
  }

  /** The senders receive each plugin's bulks in production order, without a gap. */
  lemma ProductionOrder(hooks: seq<Hook>, senders: nat, s: State, p: nat)
    requires senders >= 1 && Reachable(hooks, senders, s) && p < |hooks|
    ensures var got := Of(s.dequeued, p);
            forall k :: 0 <= k < |got| ==> got[k].serial == k
  {
    Reached(hooks, senders, s);
    assert ProducerOrder(s, p);
    OfConcat(s.dequeued, s.queue, p);
    var got, issued := Of(s.dequeued, p), Of(s.issued, p);
    forall k | 0 <= k < |got| ensures got[k].serial == k {
      assert got[k] == Of(s.enqueued, p)[k] == issued[k];
    }
  }

  /** Once a sender has left, queue and coming bulks together stay within the number of plugins. */
  lemma AfterFirstExit(hooks: seq<Hook>, senders: nat, s: State, j: nat)
    requires senders >= 1 && Reachable(hooks, senders, s)
    requires j < |s.senders| && s.senders[j].SenderExited?
    ensures |s.queue| + Inside(s) <= |hooks|
  {
    Reached(hooks, senders, s);
  }

  lemma {:induction false} EmptyButFirst(pcs: seq<SenderPc>)
    requires forall j :: 1 <= j < |pcs| ==> pcs[j].SenderExited?
    ensures |Bag(pcs, SenderHand)| <= 1
  {
    if pcs != [] {
      BagEmpty(pcs[1..], SenderHand);
    }
  }

  /**
    When main frees the queue, with at least one sender besides thread 1, at most
    one bulk per plugin is left in it, no plugin thread holds a bulk, and every
    other bulk has been cleaned except at most the one thread 1 still holds.
    */
  lemma LeftWhenFreed(hooks: seq<Hook>, senders: nat, s: State)
    requires senders >= 2 && Reachable(hooks, senders, s) && s.main.Freed?
    ensures |s.queue| <= |hooks|
    ensures InGathers(s) == multiset{}
    ensures |s.issued| <= |s.cleaned| + |hooks| + 1
  {
    Reached(hooks, senders, s);
    assert HasExited(s, |hooks|);
    forall i | 0 <= i < |s.gathers| ensures GatherHand(s.gathers[i]) == multiset{} {
      assert HasExited(s, i);
    }
    BagEmpty(s.gathers, GatherHand);
    forall j | 1 <= j < |s.senders| ensures s.senders[j].SenderExited? {
      assert HasExited(s, |s.gathers| + j - 1);
    }
    EmptyButFirst(s.senders);
    assert |multiset(s.issued)| == |multiset(s.queue)| + |InSenders(s)| + |multiset(s.cleaned)|;
  }

  /** Every metric a plugin's hook returned is in one of its bulks, in sampling order, and no bulk holds anything else. */
  lemma EveryMetricIssued(hooks: seq<Hook>, senders: nat, s: State, p: nat)
    requires senders >= 1 && Reachable(hooks, senders, s)
    requires p < |s.gathers| && s.gathers[p].pc.GatherExited?
    ensures s.gathers[p].sampled == AllMetrics(Of(s.enqueued, p))
  {
    Reached(hooks, senders, s);
    assert ProducerOrder(s, p) && Lossless(s, p);
    assert Of(s.issued, p) == Of(s.enqueued, p);
  }

  /**
    No plugin thread ever runs without a hook, and once all have started the
    threads hold exactly the registered hooks, each as often as it was registered.
    */
  lemma HooksAreShared(hooks: seq<Hook>, senders: nat, s: State)
    requires senders >= 1 && Reachable(hooks, senders, s)
    ensures forall p :: 0 <= p < |s.gathers| && !s.gathers[p].pc.TakeHook? ==> s.gathers[p].hook.Some?
    ensures (forall p :: 0 <= p < |s.gathers| ==> !s.gathers[p].pc.TakeHook?) ==>
              Bag(s.gathers, HookOf) == multiset(hooks)
  {
    Reached(hooks, senders, s);
    if forall p :: 0 <= p < |s.gathers| ==> !s.gathers[p].pc.TakeHook? {
      SumZero(s.gathers, Waits);
    }
  }

  lemma {:induction false} InBag(gs: seq<Gather>, p: nat)
    requires p < |gs| && gs[p].hook.Some?
    ensures Bag(gs, HookOf)[gs[p].hook.value] >= 1
  {
    if p > 0 {
      InBag(gs[1..], p - 1);
    }
  }

  /** With distinct hooks, no two plugin threads share one, in any interleaving. */
  lemma DistinctHooks(hooks: seq<Hook>, senders: nat, s: State, p: nat, q: nat)
    requires senders >= 1 && Reachable(hooks, senders, s)
    requires forall i, j :: 0 <= i < j < |hooks| ==> hooks[i] != hooks[j]
    requires p < q < |s.gathers| && s.gathers[p].hook.Some?
    ensures s.gathers[p].hook != s.gathers[q].hook
  {
    Reached(hooks, senders, s);
    if s.gathers[p].hook == s.gathers[q].hook {
      var v := s.gathers[p].hook.value;
      Twice(s.gathers, p, q);
      DistinctOnce(hooks, v);
      assert false;
    }
  }

  lemma {:induction false} Twice(gs: seq<Gather>, p: nat, q: nat)
    requires p < q < |gs| && gs[p].hook.Some? && gs[p].hook == gs[q].hook
    ensures Bag(gs, HookOf)[gs[p].hook.value] >= 2
  {
    if p == 0 {
      InBag(gs[1..], q - 1);
    } else {
      Twice(gs[1..], p - 1, q - 1);
    }
  }

  lemma {:induction false} DistinctOnce(xs: seq<Hook>, v: Hook)
    requires forall i, j :: 0 <= i < j < |xs| ==> xs[i] != xs[j]
    ensures multiset(xs)[v] <= 1
  {
    if xs != [] {
      assert xs == [xs[0]] + xs[1..];
      DistinctOnce(xs[1..], v);
      assert xs[0] !in xs[1..];
    }
  }

  /** A turn of a sender's loop with a bulk in the queue: the oldest one is cleaned. */
  lemma SenderTurn(s: State, j: nat)
    requires j < |s.senders| && s.senders[j].CheckRunning? && s.running && s.queue != [] && !s.main.Freed?
    ensures var a := SenderStep(j);
            && Enabled(s, a) && Enabled(Step(s, a), a) && Enabled(Step(Step(s, a), a), a)
            && Step(Step(Step(s, a), a), a) ==
               s.(queue := s.queue[1..], dequeued := s.dequeued + [s.queue[0]], cleaned := s.cleaned + [s.queue[0]])
  {
    var a := SenderStep(j);
    assert Step(Step(Step(s, a), a), a).senders == s.senders;
  }

  // ------------------------------------------------------------ termination

  function GatherRank(g: Gather): nat {
    match g.pc
    case TakeHook => 3
    case CheckLoop => 2
    case Fill(bulk) => 4 + if |bulk| <= BULK_SIZE then BULK_SIZE - |bulk| else 0
    case Enqueue(_) => 3
    case FinalHook => 1
    case GatherExited => 0
  }

  /** A sender about to lose a dequeue race still has a whole turn of its loop ahead. */
  function RankIfEmpty(pc: SenderPc): nat {
    if pc.TryDequeue? then 5 else RankIfBusy(pc)
  }

  function RankIfBusy(pc: SenderPc): nat {
    match pc
    case SenderExited => 0
    case TryDequeue => 1
    case CheckEmpty => 2
    case CheckRunning => 3
    case Sleep => 4
    case Clean(_) => 4
  }

  function MainRank(s: State): nat {
    match s.main
    case Waiting => |s.gathers| + |s.senders| + 1
    case Joining(t) => if t < |s.gathers| + |s.senders| then |s.gathers| + |s.senders| - t else 0
    case Freed => 0
  }

  ghost function SenderRanks(pcs: seq<SenderPc>, empty: bool): nat {
    Sum(pcs, if empty then RankIfEmpty else RankIfBusy)
  }

  /** Each bulk still to be dequeued is worth more than one turn of all senders. */
  function Weight(s: State): nat { 4 * |s.senders| + 4 }

  ghost function Rank(s: State): nat {
    Weight(s) * (|s.queue| + Inside(s)) + Sum(s.gathers, GatherRank) + SenderRanks(s.senders, s.queue == []) + MainRank(s)
  }

  lemma {:induction false} EmptyVersusBusy(pcs: seq<SenderPc>)
    ensures SenderRanks(pcs, false) <= SenderRanks(pcs, true) <= SenderRanks(pcs, false) + 4 * |pcs|
  {
    if pcs != [] {
      EmptyVersusBusy(pcs[1..]);
    }
  }

  lemma GatherLowersRank(s: State, i: nat, reading: Metric)
    requires !s.running && !s.main.Freed? && i < |s.gathers| && !s.gathers[i].pc.GatherExited?
    requires Lossless(s, i)
    ensures Rank(StepGather(s, i, reading)) < Rank(s)
  {
    hide Sum;
    var s' := StepGather(s, i, reading);
    var g, g' := s.gathers[i], s'.gathers[i];
    SumUpdate(s.gathers, i, g', IsInside);
    SumUpdate(s.gathers, i, g', GatherRank);
    EmptyVersusBusy(s.senders);
    assert |s'.queue| + Inside(s') == |s.queue| + Inside(s);
    assert SenderRanks(s'.senders, s'.queue == []) <= SenderRanks(s.senders, s.queue == []);
    assert GatherRank(g') < GatherRank(g);
  }

  lemma DequeueLowersRank(s: State, j: nat)
    requires j < |s.senders| && s.senders[j].TryDequeue? && s.queue != []
    ensures Rank(StepSender(s, j)) < Rank(s)
  {
    var s' := StepSender(s, j);
    SumUpdate(s.senders, j, s'.senders[j], RankIfBusy);
    EmptyVersusBusy(s'.senders);
    assert SenderRanks(s'.senders, s'.queue == []) <= SenderRanks(s.senders, false) + 3 + 4 * |s.senders|;
    var n := |s.queue| + Inside(s);
    assert Weight(s) * (n - 1) == Weight(s) * n - Weight(s);
    assert |s'.queue| + Inside(s') == n - 1;
  }

  lemma SenderLowersRank(s: State, j: nat)
    requires !s.running && j < |s.senders| && !s.senders[j].SenderExited?
    ensures Rank(StepSender(s, j)) < Rank(s)
  {
    if s.senders[j].TryDequeue? && s.queue != [] {
      DequeueLowersRank(s, j);
    } else {
      var s' := StepSender(s, j);
      SumUpdate(s.senders, j, s'.senders[j], RankIfBusy);
      SumUpdate(s.senders, j, s'.senders[j], RankIfEmpty);
      assert s'.queue == s.queue && s'.gathers == s.gathers;
    }
  }

  /** After the signal every step of every thread lowers the rank, lost dequeue races included. */
  lemma StepLowersRank(s: State, a: Action)
    requires !s.running && Enabled(s, a) && NoMetricLost(s) && Joined(s)
    ensures Rank(Step(s, a)) < Rank(s)
  {
    match a
    case GatherStep(i, reading) =>
      assert Lossless(s, i);
      GatherLowersRank(s, i, reading);
    case SenderStep(j) =>
      SenderLowersRank(s, j);
    case Signal =>
    case MainStep =>
      assert Step(s, a).gathers == s.gathers && Step(s, a).senders == s.senders && Step(s, a).queue == s.queue;
  }

  lemma {:induction false} RunWithinRank(s: State, acts: seq<Action>, registered: multiset<Hook>)
    requires !s.running && IsRun(s, acts) && Inv(s, registered)
    ensures |acts| <= Rank(s)
    decreases |acts|
  {
    if acts != [] {
      StepLowersRank(s, acts[0]);
      InvStep(s, acts[0], registered);
      StaysStopped(s, acts[..1]);
      RunWithinRank(Step(s, acts[0]), acts[1..], registered);
    }
  }

  /** An explicit bound on the rank in terms of the queue and the numbers of threads. */
  function StepBound(queued: nat, plugins: nat, senders: nat): nat {
    (4 * senders + 4) * (queued + plugins) + 12 * plugins + 5 * senders + plugins + senders + 1
  }

  lemma Monotone(w: nat, a: nat, b: nat)
    requires a <= b
    ensures w * a <= w * b
  {
  }

  lemma RankBound(s: State)
    ensures Rank(s) <= StepBound(|s.queue|, |s.gathers|, |s.senders|)
  {
    SumBound(s.gathers, IsInside, 1);
    SumBound(s.gathers, GatherRank, 12);
    SumBound(s.senders, RankIfEmpty, 5);
    EmptyVersusBusy(s.senders);
    Monotone(Weight(s), |s.queue| + Inside(s), |s.queue| + |s.gathers|);
  }

  lemma StillRunnable(s: State, registered: multiset<Hook>)
    requires !s.running && Inv(s, registered) && !s.main.Freed?
    ensures exists a :: Enabled(s, a)
  {
    if s.main.Joining? && s.main.next < |s.gathers| + |s.senders| - 1 && !HasExited(s, s.main.next) {
      var t := s.main.next;
      if t < |s.gathers| {
        assert Enabled(s, GatherStep(t, Metric(0, "")));
      } else {
        assert Enabled(s, SenderStep(t - |s.gathers| + 1));
      }
    } else {
      assert Enabled(s, MainStep);
    }
  }

  /**
    Every shutdown ends: from any reachable state after the signal a run has at
    most StepBound steps, and a run that cannot be continued has freed the queue.
    */
  lemma ShutdownEnds(hooks: seq<Hook>, senders: nat, s: State, acts: seq<Action>)
    requires senders >= 1 && Reachable(hooks, senders, s)
    requires !s.running && IsRun(s, acts)
    ensures |acts| <= StepBound(|s.queue|, |hooks|, senders)
    ensures (forall a :: !Enabled(Run(s, acts), a)) ==> Run(s, acts).main.Freed?
  {
    Reached(hooks, senders, s);
    RunWithinRank(s, acts, multiset(hooks));
    RankBound(s);
    InvRun(s, acts, multiset(hooks));
    StaysStopped(s, acts);
    if !Run(s, acts).main.Freed? {
      StillRunnable(Run(s, acts), multiset(hooks));
    }
  }

  lemma {:induction false} StaysStopped(s: State, acts: seq<Action>)
    requires IsRun(s, acts) && !s.running
    ensures !Run(s, acts).running
    decreases |acts|
  {
    if acts != [] {
      assert !Step(s, acts[0]).running;
      StaysStopped(Step(s, acts[0]), acts[1..]);
    }
  }

  // ------------------------------------------- the leftover bound is attained

  lemma {:induction false} RunSnoc(s: State, acts: seq<Action>, a: Action)
    requires IsRun(s, acts) && Enabled(Run(s, acts), a)
    ensures IsRun(s, acts + [a]) && Run(s, acts + [a]) == Step(Run(s, acts), a)
    decreases |acts|
  {
    if acts == [] {
      assert acts + [a] == [a];
    } else {
      assert (acts + [a])[1..] == acts[1..] + [a];
      RunSnoc(Step(s, acts[0]), acts[1..], a);
    }
  }

  lemma Extend(hooks: seq<Hook>, senders: nat, s: State, a: Action) returns (s': State)
    requires Reachable(hooks, senders, s) && Enabled(s, a)
    ensures s' == Step(s, a) && Reachable(hooks, senders, s')
  {
    var init := Init(hooks, senders);
    var acts :| IsRun(init, acts) && Run(init, acts) == s;
    RunSnoc(init, acts, a);
    s' := Step(s, a);
    assert IsRun(init, acts + [a]) && Run(init, acts + [a]) == s';
  }

  /** States that differ at most in the pc of plugin thread i and in what only that thread's progress touches. */
  ghost predicate OthersSame(s: State, s': State, i: nat) {
    && |s'.gathers| == |s.gathers| && s'.senders == s.senders
    && s'.main == s.main && s'.running == s.running
    && forall k :: 0 <= k < |s.gathers| && k != i ==> s'.gathers[k] == s.gathers[k]
  }

  /** While the agent runs, a fresh plugin thread can get as far as holding a bulk. */
  lemma UpToEnqueue(hooks: seq<Hook>, senders: nat, s0: State, i: nat) returns (s: State)
    requires Reachable(hooks, senders, s0) && s0.running && s0.main.Waiting?
    requires i < |s0.gathers| && s0.gathers[i].pc.TakeHook? && s0.hooks != []
    ensures Reachable(hooks, senders, s) && OthersSame(s0, s, i)
    ensures s.gathers[i].pc.Enqueue? && s.queue == s0.queue && s.hooks == s0.hooks[1..]
    ensures s.gathers[i].hook == Some(s0.hooks[0]) && s.gathers[i].published == s0.gathers[i].published + 1
  {
    var reading := Metric(0, "");
    s := Extend(hooks, senders, s0, GatherStep(i, reading));
    s := Extend(hooks, senders, s, GatherStep(i, reading));
    var n := 0;
    while n < BULK_SIZE
      invariant n <= BULK_SIZE
      invariant Reachable(hooks, senders, s) && OthersSame(s0, s, i)
      invariant s.gathers[i].pc.Fill? && |s.gathers[i].pc.bulk| == n
      invariant s.queue == s0.queue && s.hooks == s0.hooks[1..]
      invariant s.gathers[i].hook == Some(s0.hooks[0]) && s.gathers[i].published == s0.gathers[i].published
    {
      s := Extend(hooks, senders, s, GatherStep(i, reading));
      n := n + 1;
    }
    s := Extend(hooks, senders, s, GatherStep(i, reading));
  }

  /** After the signal a thread that holds a bulk enqueues it and exits. */
  lemma EnqueueAndExit(hooks: seq<Hook>, senders: nat, s0: State, i: nat) returns (s: State)
    requires Reachable(hooks, senders, s0) && !s0.running && s0.main.Waiting?
    requires i < |s0.gathers| && s0.gathers[i].pc.Enqueue?
    ensures Reachable(hooks, senders, s) && OthersSame(s0, s, i)
    ensures s.gathers[i].pc.GatherExited? && |s.queue| == |s0.queue| + 1
  {
    s := s0;
    for n := 0 to 3
      invariant Reachable(hooks, senders, s) && OthersSame(s0, s, i)
      invariant n == 0 ==> s == s0
      invariant n == 1 ==> s.gathers[i].pc.CheckLoop?
      invariant n == 2 ==> s.gathers[i].pc.FinalHook?
      invariant n == 3 ==> s.gathers[i].pc.GatherExited?
      invariant n > 0 ==> |s.queue| == |s0.queue| + 1
    {
      s := Extend(hooks, senders, s, GatherStep(i, Metric(0, "")));
    }
  }

  /** All plugin threads hold a bulk while the agent still runs. */
  lemma AllHolding(hooks: seq<Hook>, senders: nat) returns (s: State)
    ensures Reachable(hooks, senders, s) && s.running && s.main.Waiting? && s.queue == []
    ensures |s.gathers| == |hooks|
    ensures forall k :: 0 <= k < |hooks| ==>
      s.gathers[k].pc.Enqueue? && s.gathers[k].hook == Some(hooks[k]) && s.gathers[k].published == 1
    ensures s.senders == Init(hooks, senders).senders
  {
    s := Init(hooks, senders);
    assert IsRun(s, []) && Run(s, []) == s;
    for i := 0 to |hooks|
      invariant Reachable(hooks, senders, s) && s.running && s.main.Waiting? && s.queue == []
      invariant |s.gathers| == |hooks| && s.hooks == hooks[i..]
      invariant forall k :: 0 <= k < i ==>
        s.gathers[k].pc.Enqueue? && s.gathers[k].hook == Some(hooks[k]) && s.gathers[k].published == 1
      invariant forall k :: i <= k < |hooks| ==> s.gathers[k].pc.TakeHook? && s.gathers[k].published == 0
      invariant s.senders == Init(hooks, senders).senders
    {
      s := UpToEnqueue(hooks, senders, s, i);
    }
  }

  /** With the queue empty after the signal, all senders can leave. */
  lemma SendersLeave(hooks: seq<Hook>, senders: nat, s0: State) returns (s: State)
    requires Reachable(hooks, senders, s0) && !s0.running && s0.main.Waiting? && s0.queue == []
    requires |s0.senders| == senders && forall j :: 0 <= j < senders ==> s0.senders[j].CheckRunning?
    ensures Reachable(hooks, senders, s) && s == s0.(senders := s.senders)
    ensures |s.senders| == senders && forall j :: 0 <= j < senders ==> s.senders[j].SenderExited?
  {
    s := s0;
    for j := 0 to senders
      invariant Reachable(hooks, senders, s) && s == s0.(senders := s.senders) && |s.senders| == senders
      invariant forall k :: 0 <= k < j ==> s.senders[k].SenderExited?
      invariant forall k :: j <= k < senders ==> s.senders[k].CheckRunning?
    {
      s := Extend(hooks, senders, s, SenderStep(j));
      s := Extend(hooks, senders, s, SenderStep(j));
    }
  }

  /** With all threads gone main joins them and frees the queue. */
  lemma MainFrees(hooks: seq<Hook>, senders: nat, s0: State) returns (s: State)
    requires Reachable(hooks, senders, s0) && !s0.running && s0.main.Waiting? && |s0.senders| >= 1
    requires forall t :: 0 <= t < |s0.gathers| + |s0.senders| - 1 ==> HasExited(s0, t)
    ensures Reachable(hooks, senders, s) && s == s0.(main := Freed)
  {
    s := Extend(hooks, senders, s0, MainStep);
    var last := |s0.gathers| + |s0.senders| - 1;
    for t := 0 to last
      invariant Reachable(hooks, senders, s) && s == s0.(main := Joining(t))
    {
      assert HasExited(s0, t) && HasExited(s, t);
      s := Extend(hooks, senders, s, MainStep);
    }
    s := Extend(hooks, senders, s, MainStep);
  }

  /**
    The bound of LeftWhenFreed cannot be improved, and an empty queue at shutdown
    is not guaranteed: for every number of plugins and senders some run frees the
    queue with exactly one bulk per plugin in it.
    */
  lemma LeftoverAttained(hooks: seq<Hook>, senders: nat)
    requires senders >= 1
    ensures exists s :: Reachable(hooks, senders, s) && s.main.Freed? && |s.queue| == |hooks|
  {
    var s := AllHolding(hooks, senders);
    s := Extend(hooks, senders, s, Signal);
    s := SendersLeave(hooks, senders, s);
    for i := 0 to |hooks|
      invariant Reachable(hooks, senders, s) && !s.running && s.main.Waiting? && |s.queue| == i
      invariant |s.gathers| == |hooks| && |s.senders| == senders
      invariant forall k :: 0 <= k < i ==> s.gathers[k].pc.GatherExited?
      invariant forall k :: i <= k < |hooks| ==> s.gathers[k].pc.Enqueue?
      invariant forall j :: 0 <= j < senders ==> s.senders[j].SenderExited?
    {
      s := EnqueueAndExit(hooks, senders, s, i);
    }
    s := MainFrees(hooks, senders, s);
  }

  // ---------------------------------- without a joined sender there is no bound

  /** While the agent runs, a plugin thread at its loop test can go round once and leave a bulk in the queue. */
  lemma OneBulk(hooks: seq<Hook>, senders: nat, s0: State, i: nat) returns (s: State)
    requires Reachable(hooks, senders, s0) && s0.running && s0.main.Waiting?
    requires i < |s0.gathers| && s0.gathers[i].pc.CheckLoop?
    ensures Reachable(hooks, senders, s) && OthersSame(s0, s, i)
    ensures s.gathers[i].pc.CheckLoop? && |s.queue| == |s0.queue| + 1
    ensures s.gathers[i].hook == s0.gathers[i].hook && s.gathers[i].published == s0.gathers[i].published + 1
  {
    var reading := Metric(0, "");
    s := Extend(hooks, senders, s0, GatherStep(i, reading));
    for n := 0 to BULK_SIZE
      invariant Reachable(hooks, senders, s) && OthersSame(s0, s, i)
      invariant s.gathers[i].pc.Fill? && |s.gathers[i].pc.bulk| == n && s.queue == s0.queue
      invariant s.gathers[i].hook == s0.gathers[i].hook && s.gathers[i].published == s0.gathers[i].published
    {
      s := Extend(hooks, senders, s, GatherStep(i, reading));
    }
    s := Extend(hooks, senders, s, GatherStep(i, reading));
    s := Extend(hooks, senders, s, GatherStep(i, reading));
  }

  /** After the signal a plugin thread that is not inside an iteration exits without touching the queue. */
  lemma ExitIdle(hooks: seq<Hook>, senders: nat, s0: State, i: nat) returns (s: State)
    requires Reachable(hooks, senders, s0) && !s0.running && s0.main.Waiting?
    requires i < |s0.gathers| && (s0.gathers[i].pc.TakeHook? || s0.gathers[i].pc.CheckLoop?)
    ensures Reachable(hooks, senders, s) && OthersSame(s0, s, i)
    ensures s.gathers[i].pc.GatherExited? && s.queue == s0.queue
  {
    var step := GatherStep(i, Metric(0, ""));
    s := s0;
    if s.gathers[i].pc.TakeHook? {
      s := Extend(hooks, senders, s, step);
    }
    s := Extend(hooks, senders, s, step);
    s := Extend(hooks, senders, s, step);
  }

  /**
    When startThreads computes no sending threads, thread 1 is the only sender and
    is not joined; then any number of bulks can be left when the queue is freed.
    */
  lemma UnboundedWithoutJoinedSender(hooks: seq<Hook>, n: nat)
    requires hooks != []
    ensures exists s :: Reachable(hooks, 1, s) && s.main.Freed? && |s.queue| == n
  {
    var s := Init(hooks, 1);
    assert IsRun(s, []) && Run(s, []) == s;
    s := Extend(hooks, 1, s, GatherStep(0, Metric(0, "")));
    for k := 0 to n
      invariant Reachable(hooks, 1, s) && s.running && s.main.Waiting? && |s.queue| == k
      invariant |s.gathers| == |hooks| && |s.senders| == 1 && s.gathers[0].pc.CheckLoop?
      invariant forall p :: 1 <= p < |hooks| ==> s.gathers[p].pc.TakeHook?
    {
      s := OneBulk(hooks, 1, s, 0);
    }
    s := Extend(hooks, 1, s, Signal);
    for i := 0 to |hooks|
      invariant Reachable(hooks, 1, s) && !s.running && s.main.Waiting? && |s.queue| == n
      invariant |s.gathers| == |hooks| && |s.senders| == 1
      invariant forall p :: 0 <= p < i ==> s.gathers[p].pc.GatherExited?
      invariant forall p :: i <= p < |hooks| ==> s.gathers[p].pc.TakeHook? || s.gathers[p].pc.CheckLoop?
    {
      s := ExitIdle(hooks, 1, s, i);
    }
    s := MainFrees(hooks, 1, s);
  }

  /** At most one bulk per plugin is left in every run exactly when there is a joined sender or no plugin. */
  lemma LeftoverBoundIff(hooks: seq<Hook>, senders: nat)
    requires senders >= 1
    ensures (forall s :: Reachable(hooks, senders, s) && s.main.Freed? ==> |s.queue| <= |hooks|)
            <==> senders >= 2 || hooks == []
  {
    if senders >= 2 {
      forall s | Reachable(hooks, senders, s) && s.main.Freed? ensures |s.queue| <= |hooks| {
        LeftWhenFreed(hooks, senders, s);
      }
    } else if hooks == [] {
      forall s | Reachable(hooks, senders, s) && s.main.Freed? ensures |s.queue| <= 0 {
        NothingWithoutPlugins(senders, s);
      }
    } else {
      UnboundedWithoutJoinedSender(hooks, |hooks| + 1);
    }
  }

  lemma NothingWithoutPlugins(senders: nat, s: State)
    requires senders >= 1 && Reachable([], senders, s)
    ensures s.queue == []
  {
    Reached([], senders, s);
    assert forall k :: 0 <= k < |s.issued| ==> s.issued[k] in s.issued;
    assert |multiset(s.issued)| == |multiset(s.queue)| + |InGathers(s)| + |InSenders(s)| + |multiset(s.cleaned)|;
  }
}
