/**
  The agent's shared-memory pipeline (thread_handler.c, plugin_manager.c) as a
  transition system. Plugin threads take a hook each, fill bulks of metrics and
  enqueue one transfer handle per bulk; sender threads dequeue handles and clean
  them; the main thread waits for the stop signal, joins, and frees the queue.
  One action is one atomic step of one thread: a queue call, a read of the
  `running` flag, or one hook call. Every schedule of actions is a possible run.
  */
module Pipeline {
  import opened Sequences

  const BULK_SIZE: nat := 8

  datatype Metric = Metric(timestamp: int, msg: string)

  /** What prepare_json hands over: the serial-th bulk of a producer. */
  datatype Handle = Handle(producer: nat, serial: nat, metrics: seq<Metric>)

  /**
    A registered hook. Its plugin is available when init ended with 1; a plugin may
    register before init fails, and then its hook never returns a metric.
    */
  datatype Hook = Hook(number: nat, available: bool)

  datatype GatherPc =
    | TakeHook                              // PluginManager_get_hook
    | CheckLoop                             // while (running)
    | Fill(bulk: seq<Option<Metric>>)       // the hook loop and prepare_json
    | Enqueue(handle: Handle)               // ECQ_enqueue
    | FinalHook                             // the clean-up call of the hook
    | GatherExited

  /** A plugin thread; `sampled` and `published` record what it did so far. */
  datatype Gather = Gather(pc: GatherPc, hook: Option<Hook>, sampled: seq<Metric>, published: nat)

  datatype SenderPc =
    | CheckRunning                          // first half of the loop test
    | CheckEmpty                            // second half of the loop test
    | TryDequeue
    | Clean(handle: Handle)                 // curl_handle_clean
    | Sleep                                 // usleep
    | SenderExited

  datatype MainPc = Waiting | Joining(next: nat) | Freed

  /**
    Sender 0 is thread 1, which startThreads never joins. `issued`, `enqueued`
    and `dequeued` are histories; `cleaned` lists the handles in cleaning order.
    */
  datatype State = State(
    running: bool,
    hooks: seq<Hook>,
    queue: seq<Handle>,
    gathers: seq<Gather>,
    senders: seq<SenderPc>,
    main: MainPc,
    issued: seq<Handle>,
    enqueued: seq<Handle>,
    dequeued: seq<Handle>,
    cleaned: seq<Handle>)

  datatype Action =
    | Signal
    | GatherStep(thread: nat, reading: Metric)
    | SenderStep(sender: nat)
    | MainStep

  /** The state right after all threads are created. */
  function Init(hooks: seq<Hook>, senders: nat): State {
    State(true, hooks, [], seq(|hooks|, _ => Gather(TakeHook, None, [], 0)),
          seq(senders, _ => CheckRunning), Waiting, [], [], [], [])
  }

  /** The non-NULL prefix of a bulk: prepare_json stops at the first NULL. */
  function UpToNull(bulk: seq<Option<Metric>>): seq<Metric> {
    if bulk == [] || bulk[0].None? then [] else [bulk[0].value] + UpToNull(bulk[1..])
  }

  predicate Available(g: Gather) { g.hook.Some? && g.hook.value.available }

  function StepGather(s: State, i: nat, reading: Metric): State
    requires i < |s.gathers|
  {
    var g := s.gathers[i];
    match g.pc
    case TakeHook =>
      if s.hooks == []
      then s.(gathers := s.gathers[i := g.(pc := CheckLoop)])
      else s.(gathers := s.gathers[i := g.(pc := CheckLoop, hook := Some(s.hooks[0]))], hooks := s.hooks[1..])
    case CheckLoop =>
      s.(gathers := s.gathers[i := g.(pc := if s.running then Fill([]) else FinalHook)])
    case Fill(bulk) =>
      if |bulk| < BULK_SIZE then
        // one hook call: a metric of an available plugin while running, NULL otherwise
        if s.running && Available(g)
        then s.(gathers := s.gathers[i := g.(pc := Fill(bulk + [Some(reading)]), sampled := g.sampled + [reading])])
        else s.(gathers := s.gathers[i := g.(pc := Fill(bulk + [None]))])
      else
        var h := Handle(i, g.published, UpToNull(bulk));
        s.(gathers := s.gathers[i := g.(pc := Enqueue(h), published := g.published + 1)], issued := s.issued + [h])
    case Enqueue(h) =>
      s.(gathers := s.gathers[i := g.(pc := CheckLoop)], queue := s.queue + [h], enqueued := s.enqueued + [h])
    case FinalHook =>
      s.(gathers := s.gathers[i := g.(pc := GatherExited)])
    case GatherExited => s
  }

  function StepSender(s: State, j: nat): State
    requires j < |s.senders|
  {
    match s.senders[j]
    case CheckRunning =>
      s.(senders := s.senders[j := if s.running then TryDequeue else CheckEmpty])
    case CheckEmpty =>
      s.(senders := s.senders[j := if s.queue == [] then SenderExited else TryDequeue])
    case TryDequeue =>
      if s.queue == [] then
        s.(senders := s.senders[j := Sleep])
      else
        s.(senders := s.senders[j := Clean(s.queue[0])], queue := s.queue[1..], dequeued := s.dequeued + [s.queue[0]])
    case Clean(h) =>
      s.(senders := s.senders[j := CheckRunning], cleaned := s.cleaned + [h])
    case Sleep =>
      s.(senders := s.senders[j := CheckRunning])
    case SenderExited => s
  }

  /** The threads main joins, in order: all plugin threads, then senders 1, 2, ... */
  predicate HasExited(s: State, t: nat)
    requires t < |s.gathers| + |s.senders| - 1
  {
    if t < |s.gathers| then s.gathers[t].pc.GatherExited? else s.senders[t - |s.gathers| + 1].SenderExited?
  }

  predicate Enabled(s: State, a: Action) {
    !s.main.Freed? &&
    match a
    case Signal => s.running
    case GatherStep(i, _) => i < |s.gathers| && !s.gathers[i].pc.GatherExited?
    case SenderStep(j) => j < |s.senders| && !s.senders[j].SenderExited?
    case MainStep =>
      match s.main
      case Waiting => !s.running
      case Joining(t) => t < |s.gathers| + |s.senders| - 1 ==> HasExited(s, t)
      case Freed => false
  }

  function Step(s: State, a: Action): State
    requires Enabled(s, a)
  {
    match a
    case Signal => s.(running := false)
    case GatherStep(i, reading) => StepGather(s, i, reading)
    case SenderStep(j) => StepSender(s, j)
    case MainStep =>
      match s.main
      case Waiting => s.(main := Joining(0))
      case Joining(t) => s.(main := if t < |s.gathers| + |s.senders| - 1 then Joining(t + 1) else Freed)
      case Freed => s
  }

  /** A schedule is a run when each of its actions is enabled in turn. */
  predicate IsRun(s: State, acts: seq<Action>)
    decreases |acts|
  {
    acts == [] || (Enabled(s, acts[0]) && IsRun(Step(s, acts[0]), acts[1..]))
  }

  function Run(s: State, acts: seq<Action>): State
    requires IsRun(s, acts)
    decreases |acts|
  {
    if acts == [] then s else Run(Step(s, acts[0]), acts[1..])
  }

  // ---------------------------------------------------------------- views

  function Somes(bulk: seq<Option<Metric>>): seq<Metric> {
    if bulk == [] then []
    else if bulk[0].Some? then [bulk[0].value] + Somes(bulk[1..])
    else Somes(bulk[1..])
  }

  /** The handles of one producer, in the order of the sequence. */
  function Of(hs: seq<Handle>, p: nat): seq<Handle> {
    if hs == [] then []
    else Of(hs[..|hs| - 1], p) + if hs[|hs| - 1].producer == p then [hs[|hs| - 1]] else []
  }

  function AllMetrics(hs: seq<Handle>): seq<Metric> {
    if hs == [] then [] else AllMetrics(hs[..|hs| - 1]) + hs[|hs| - 1].metrics
  }

  function GatherHand(g: Gather): multiset<Handle> {
    if g.pc.Enqueue? then multiset{g.pc.handle} else multiset{}
  }

  function SenderHand(pc: SenderPc): multiset<Handle> {
    if pc.Clean? then multiset{pc.handle} else multiset{}
  }

  /** Handles held by plugin threads and by sender threads. */
  ghost function InGathers(s: State): multiset<Handle> { Bag(s.gathers, GatherHand) }

  ghost function InSenders(s: State): multiset<Handle> { Bag(s.senders, SenderHand) }

  function IsInside(g: Gather): nat { if g.pc.Fill? || g.pc.Enqueue? then 1 else 0 }

  /** How many plugin threads are inside a loop iteration. */
  ghost function Inside(s: State): nat { Sum(s.gathers, IsInside) }

  function Waits(g: Gather): nat { if g.pc.TakeHook? then 1 else 0 }

  function HookOf(g: Gather): multiset<Hook> { if g.hook.Some? then multiset{g.hook.value} else multiset{} }

  // ----------------------------------------------------------- invariants

  /** Every handle ever issued is in the queue, in one hand, or cleaned. */
  ghost predicate Conserved(s: State) {
    multiset(s.issued) == multiset(s.queue) + InGathers(s) + InSenders(s) + multiset(s.cleaned)
  }

  /** The queue is first in, first out. */
  ghost predicate Fifo(s: State) {
    s.enqueued == s.dequeued + s.queue
  }

  ghost predicate Numbered(hs: seq<Handle>, n: nat) {
    |hs| == n && forall k :: 0 <= k < n ==> hs[k].serial == k
  }

  /** Producer p issued its bulks 0, 1, ... in order, each at most once, and enqueued all but the one in its hand. */
  ghost predicate ProducerOrder(s: State, p: nat)
    requires p < |s.gathers|
  {
    var g := s.gathers[p];
    && Numbered(Of(s.issued, p), g.published)
    && Of(s.issued, p) == Of(s.enqueued, p) + (if g.pc.Enqueue? then [g.pc.handle] else [])
    && (g.pc.Enqueue? ==> g.pc.handle.producer == p)
  }

  ghost predicate InOrder(s: State) {
    && (forall p :: 0 <= p < |s.gathers| ==> ProducerOrder(s, p))
    && (forall h :: h in s.issued ==> h.producer < |s.gathers|)
  }

  /** A bulk is a run of metrics followed by NULLs. */
  predicate PrefixForm(bulk: seq<Option<Metric>>) {
    forall i, j :: 0 <= i < j < |bulk| && bulk[i].None? ==> bulk[j].None?
  }

  ghost predicate Lossless(s: State, p: nat)
    requires p < |s.gathers|
  {
    var g := s.gathers[p];
    && (g.pc.Fill? ==>
          && |g.pc.bulk| <= BULK_SIZE
          && PrefixForm(g.pc.bulk)
          && (s.running && Available(g) ==> forall i :: 0 <= i < |g.pc.bulk| ==> g.pc.bulk[i].Some?))
    && g.sampled == AllMetrics(Of(s.issued, p)) + (if g.pc.Fill? then Somes(g.pc.bulk) else [])
  }

  ghost predicate NoMetricLost(s: State) {
    forall p :: 0 <= p < |s.gathers| ==> Lossless(s, p)
  }

  /** Once a sender has left, the queue and the bulks still coming never exceed the number of plugins. */
  ghost predicate Bounded(s: State) {
    && (forall j :: 0 <= j < |s.senders| && s.senders[j].CheckEmpty? ==> !s.running)
    && (forall j :: 0 <= j < |s.senders| && s.senders[j].SenderExited? ==>
          !s.running && |s.queue| + Inside(s) <= |s.gathers|)
  }

  /** Hooks are handed out without loss, and never to more threads than there are hooks. */
  ghost predicate HooksMatch(s: State, registered: multiset<Hook>) {
    && multiset(s.hooks) + Bag(s.gathers, HookOf) == registered
    && |s.hooks| == Sum(s.gathers, Waits)
    && (forall p :: 0 <= p < |s.gathers| ==> (s.gathers[p].hook.Some? <==> !s.gathers[p].pc.TakeHook?))
  }

  /** Main frees the queue only after every thread it joins has exited. */
  ghost predicate Joined(s: State) {
    && (!s.main.Waiting? ==> !s.running)
    && |s.senders| >= 1
    && (s.main.Joining? ==>
          && s.main.next <= |s.gathers| + |s.senders| - 1
          && forall t :: 0 <= t < s.main.next ==> HasExited(s, t))
    && (s.main.Freed? ==> forall t :: 0 <= t < |s.gathers| + |s.senders| - 1 ==> HasExited(s, t))
  }

  ghost predicate Inv(s: State, registered: multiset<Hook>) {
    && Conserved(s) && Fifo(s) && InOrder(s) && NoMetricLost(s) && Bounded(s)
    && HooksMatch(s, registered) && Joined(s)
  }

  // ---------------------------------------------------- preservation, one by one

  /** Between two states thread i moved at most one handle: into its hand, or from its hand to the queue. */
  ghost predicate GatherMove(s: State, s': State, i: nat)
    requires i < |s.gathers|
  {
    && |s'.gathers| == |s.gathers|
    && s'.gathers == s.gathers[i := s'.gathers[i]]
    && s'.senders == s.senders && s'.cleaned == s.cleaned
    && var pc, pc' := s.gathers[i].pc, s'.gathers[i].pc;
       if pc.Enqueue? then
         s'.queue == s.queue + [pc.handle] && s'.issued == s.issued && !pc'.Enqueue?
       else
         s'.queue == s.queue && s'.issued == s.issued + if pc'.Enqueue? then [pc'.handle] else []
  }

  /** Between two states sender j moved at most one handle: from the queue to its hand, or out of its hand. */
  ghost predicate SenderMove(s: State, s': State, j: nat)
    requires j < |s.senders|
  {
    && |s'.senders| == |s.senders|
    && s'.senders == s.senders[j := s'.senders[j]]
    && s'.gathers == s.gathers && s'.issued == s.issued
    && var pc, pc' := s.senders[j], s'.senders[j];
       if pc.Clean? then
         s'.cleaned == s.cleaned + [pc.handle] && s'.queue == s.queue && !pc'.Clean?
       else
         s'.cleaned == s.cleaned && s.queue == (if pc'.Clean? then [pc'.handle] else []) + s'.queue
  }

  lemma GatherMoves(s: State, i: nat, reading: Metric)
    requires i < |s.gathers|
    ensures GatherMove(s, StepGather(s, i, reading), i)
  {
  }

  lemma SenderMoves(s: State, j: nat)
    requires j < |s.senders|
    ensures SenderMove(s, StepSender(s, j), j)
  {
  }

  /** Conservation as bags: what enters one place left another. */
  lemma Balance(issued: multiset<Handle>, from: multiset<Handle>, to: multiset<Handle>, rest: multiset<Handle>,
                h: multiset<Handle>)
    requires issued == from + to + rest && h <= from
    ensures issued == (from - h) + (to + h) + rest
  {
  }

  lemma Enqueued(s: State, s': State, i: nat)
    requires i < |s.gathers| && Conserved(s) && GatherMove(s, s', i) && s.gathers[i].pc.Enqueue?
    ensures Conserved(s')
  {
    hide Bag;
    BagUpdate(s.gathers, i, s'.gathers[i], GatherHand);
    var h := GatherHand(s.gathers[i]);
    Balance(multiset(s.issued), InGathers(s), multiset(s.queue), InSenders(s) + multiset(s.cleaned), h);
    assert multiset(s'.queue) == multiset(s.queue) + h;
    assert InGathers(s') == InGathers(s) - h;
  }

  lemma Issued(s: State, s': State, i: nat)
    requires i < |s.gathers| && Conserved(s) && GatherMove(s, s', i) && !s.gathers[i].pc.Enqueue?
    ensures Conserved(s')
  {
    hide Bag;
    BagUpdate(s.gathers, i, s'.gathers[i], GatherHand);
    var h := GatherHand(s'.gathers[i]);
    assert multiset(s'.issued) == multiset(s.issued) + h;
    assert InGathers(s') == InGathers(s) + h;
  }

  lemma MovedBySender(s: State, s': State, j: nat)
    requires j < |s.senders| && Conserved(s) && SenderMove(s, s', j)
    ensures Conserved(s')
  {
    hide Bag;
    BagUpdate(s.senders, j, s'.senders[j], SenderHand);
    if s.senders[j].Clean? {
      assert multiset(s'.cleaned) == multiset(s.cleaned) + SenderHand(s.senders[j]);
    } else {
      assert multiset(s.queue) == multiset(s'.queue) + SenderHand(s'.senders[j]);
    }
  }

  lemma ConservedStep(s: State, a: Action)
    requires Enabled(s, a) && Conserved(s)
    ensures Conserved(Step(s, a))
  {
    match a
    case GatherStep(i, reading) =>
      GatherMoves(s, i, reading);
      if s.gathers[i].pc.Enqueue? {
        Enqueued(s, StepGather(s, i, reading), i);
      } else {
        Issued(s, StepGather(s, i, reading), i);
      }
    case SenderStep(j) =>
      SenderMoves(s, j);
      MovedBySender(s, StepSender(s, j), j);
    case _ =>
  }

  lemma FifoStep(s: State, a: Action)
    requires Enabled(s, a) && Fifo(s)
    ensures Fifo(Step(s, a))
  {
    if a.SenderStep? && s.senders[a.sender].TryDequeue? && s.queue != [] {
      assert s.queue == [s.queue[0]] + s.queue[1..];
    }
  }

  lemma OfSnoc(hs: seq<Handle>, h: Handle, p: nat)
    ensures Of(hs + [h], p) == Of(hs, p) + if h.producer == p then [h] else []
  {
    assert (hs + [h])[..|hs|] == hs;
  }

  lemma InOrderPublish(s: State, i: nat, reading: Metric, p: nat)
    requires i < |s.gathers| && p < |s.gathers| && ProducerOrder(s, p)
    requires s.gathers[i].pc.Fill?
    ensures ProducerOrder(StepGather(s, i, reading), p)
  {
    var s', pc := StepGather(s, i, reading), s.gathers[i].pc;
    if |pc.bulk| >= BULK_SIZE {
      OfSnoc(s.issued, s'.gathers[i].pc.handle, p);
    }
  }

  lemma InOrderEnqueue(s: State, i: nat, reading: Metric, p: nat)
    requires i < |s.gathers| && p < |s.gathers| && ProducerOrder(s, p) && ProducerOrder(s, i)
    requires s.gathers[i].pc.Enqueue?
    ensures ProducerOrder(StepGather(s, i, reading), p)
  {
    var h, s' := s.gathers[i].pc.handle, StepGather(s, i, reading);
    OfSnoc(s.enqueued, h, p);
    assert s'.enqueued == s.enqueued + [h] && s'.issued == s.issued;
    assert Of(s'.enqueued, p) == Of(s.enqueued, p) + (if p == i then [h] else []);
  }

  lemma InOrderFrame(s: State, s': State, p: nat)
    requires p < |s.gathers| == |s'.gathers| && ProducerOrder(s, p)
    requires s'.issued == s.issued && s'.enqueued == s.enqueued
    requires s'.gathers[p] == s.gathers[p] ||
             (s'.gathers[p].published == s.gathers[p].published
              && !s.gathers[p].pc.Enqueue? && !s'.gathers[p].pc.Enqueue?)
    ensures ProducerOrder(s', p)
  {
  }

  lemma InOrderGather(s: State, i: nat, reading: Metric)
    requires i < |s.gathers| && InOrder(s)
    ensures InOrder(StepGather(s, i, reading))
  {
    var s' := StepGather(s, i, reading);
    forall p | 0 <= p < |s.gathers| ensures ProducerOrder(s', p) {
      assert ProducerOrder(s, p) && ProducerOrder(s, i);
      if s.gathers[i].pc.Fill? {
        InOrderPublish(s, i, reading, p);
      } else if s.gathers[i].pc.Enqueue? {
        InOrderEnqueue(s, i, reading, p);
      } else {
        InOrderFrame(s, s', p);
      }
    }
  }

  lemma InOrderStep(s: State, a: Action)
    requires Enabled(s, a) && InOrder(s)
    ensures InOrder(Step(s, a))
  {
    if a.GatherStep? {
      InOrderGather(s, a.thread, a.reading);
    } else {
      var s' := Step(s, a);
      forall p | 0 <= p < |s.gathers| ensures ProducerOrder(s', p) {
        InOrderFrame(s, s', p);
      }
    }
  }

  lemma {:induction false} PrefixIsAll(bulk: seq<Option<Metric>>)
    requires PrefixForm(bulk)
    ensures UpToNull(bulk) == Somes(bulk)
  {
    if bulk == [] {
    } else if bulk[0].Some? {
      PrefixIsAll(bulk[1..]);
    } else {
      NoneLeft(bulk);
    }
  }

  lemma {:induction false} NoneLeft(bulk: seq<Option<Metric>>)
    requires forall i :: 0 <= i < |bulk| ==> bulk[i].None?
    ensures Somes(bulk) == []
  {
    if bulk != [] {
      NoneLeft(bulk[1..]);
    }
  }

  lemma {:induction false} SomesSnoc(bulk: seq<Option<Metric>>, x: Option<Metric>)
    ensures Somes(bulk + [x]) == Somes(bulk) + if x.Some? then [x.value] else []
  {
    if bulk == [] {
      assert bulk + [x] == [x];
    } else {
      assert (bulk + [x])[1..] == bulk[1..] + [x];
      SomesSnoc(bulk[1..], x);
    }
  }

  lemma LosslessFill(s: State, a: Action)
    requires Enabled(s, a) && a.GatherStep? && s.gathers[a.thread].pc.Fill?
    requires Lossless(s, a.thread)
    ensures Lossless(Step(s, a), a.thread)
  {
    hide Somes, UpToNull, Of;
    var g, g' := s.gathers[a.thread], Step(s, a).gathers[a.thread];
    if |g.pc.bulk| < BULK_SIZE {
      SomesSnoc(g.pc.bulk, g'.pc.bulk[|g.pc.bulk|]);
    } else {
      PrefixIsAll(g.pc.bulk);
      OfSnoc(s.issued, g'.pc.handle, a.thread);
      var hs := Of(s.issued, a.thread);
      assert (hs + [g'.pc.handle])[..|hs|] == hs;
    }
  }

  lemma LosslessOther(s: State, i: nat, reading: Metric, p: nat)
    requires i < |s.gathers| && p < |s.gathers| && Lossless(s, p)
    requires p != i || !s.gathers[i].pc.Fill?
    requires s.gathers[i].pc.Enqueue? ==> s.gathers[i].pc.handle.producer == i
    ensures Lossless(StepGather(s, i, reading), p)
  {
    var s', pc := StepGather(s, i, reading), s.gathers[i].pc;
    if pc.Fill? && |pc.bulk| >= BULK_SIZE {
      OfSnoc(s.issued, s'.gathers[i].pc.handle, p);
      assert Of(s'.issued, p) == Of(s.issued, p);
    }
  }

  lemma NoMetricLostStep(s: State, a: Action)
    requires Enabled(s, a) && InOrder(s) && NoMetricLost(s)
    ensures NoMetricLost(Step(s, a))
  {
    var s' := Step(s, a);
    forall p | 0 <= p < |s'.gathers| ensures Lossless(s', p) {
      assert Lossless(s, p);
      if a.GatherStep? {
        if p == a.thread && s.gathers[p].pc.Fill? {
          LosslessFill(s, a);
        } else {
          assert ProducerOrder(s, a.thread);
          LosslessOther(s, a.thread, a.reading, p);
        }
      }
    }
  }

  lemma BoundedGather(s: State, i: nat, reading: Metric)
    requires i < |s.gathers| && Bounded(s)
    ensures Bounded(StepGather(s, i, reading))
  {
    hide Sum;
    SumUpdate(s.gathers, i, StepGather(s, i, reading).gathers[i], IsInside);
  }

  lemma BoundedSender(s: State, j: nat)
    requires j < |s.senders| && Bounded(s)
    ensures Bounded(StepSender(s, j))
  {
    hide Sum;
    SumBound(s.gathers, IsInside, 1);
  }

  lemma BoundedStep(s: State, a: Action)
    requires Enabled(s, a) && Bounded(s)
    ensures Bounded(Step(s, a))
  {
    match a
    case GatherStep(i, reading) =>
      BoundedGather(s, i, reading);
    case SenderStep(j) =>
      BoundedSender(s, j);
    case _ =>
  }

  lemma WaitingThread(gs: seq<Gather>, i: nat)
    requires i < |gs| && gs[i].pc.TakeHook?
    ensures Sum(gs, Waits) >= 1
  {
    SumUpdate(gs, i, gs[i].(pc := CheckLoop), Waits);
  }

  /** Between two states thread i took the first hook, or nothing happened to the hooks. */
  ghost predicate HookMove(s: State, s': State, i: nat)
    requires i < |s.gathers|
  {
    && |s'.gathers| == |s.gathers|
    && s'.gathers == s.gathers[i := s'.gathers[i]]
    && var g, g' := s.gathers[i], s'.gathers[i];
       if g.pc.TakeHook? then
         !g'.pc.TakeHook? &&
         if s.hooks == [] then s'.hooks == [] && g'.hook == g.hook
         else s.hooks == [s.hooks[0]] + s'.hooks && g'.hook == Some(s.hooks[0])
       else
         s'.hooks == s.hooks && g'.hook == g.hook && !g'.pc.TakeHook?
  }

  lemma HookMoves(s: State, i: nat, reading: Metric)
    requires i < |s.gathers|
    ensures HookMove(s, StepGather(s, i, reading), i)
  {
  }

  lemma TakenHook(s: State, s': State, i: nat, registered: multiset<Hook>)
    requires i < |s.gathers| && HooksMatch(s, registered) && HookMove(s, s', i) && s.gathers[i].pc.TakeHook?
    ensures HooksMatch(s', registered)
  {
    hide Sum, Bag;
    var g' := s'.gathers[i];
    SumUpdate(s.gathers, i, g', Waits);
    BagUpdate(s.gathers, i, g', HookOf);
    WaitingThread(s.gathers, i);
    assert multiset(s.hooks) == multiset(s'.hooks) + HookOf(g');
    assert Bag(s'.gathers, HookOf) == Bag(s.gathers, HookOf) + HookOf(g');
  }

  lemma KeptHook(s: State, s': State, i: nat, registered: multiset<Hook>)
    requires i < |s.gathers| && HooksMatch(s, registered) && HookMove(s, s', i) && !s.gathers[i].pc.TakeHook?
    ensures HooksMatch(s', registered)
  {
    hide Sum, Bag;
    SumUpdate(s.gathers, i, s'.gathers[i], Waits);
    BagUpdate(s.gathers, i, s'.gathers[i], HookOf);
    assert Bag(s'.gathers, HookOf) == Bag(s.gathers, HookOf);
  }

  lemma SameHooks(s: State, s': State, registered: multiset<Hook>)
    requires HooksMatch(s, registered) && s'.gathers == s.gathers && s'.hooks == s.hooks
    ensures HooksMatch(s', registered)
  {
  }

  lemma HooksMatchStep(s: State, a: Action, registered: multiset<Hook>)
    requires Enabled(s, a) && HooksMatch(s, registered)
    ensures HooksMatch(Step(s, a), registered)
  {
    match a
    case GatherStep(i, reading) =>
      HookMoves(s, i, reading);
      if s.gathers[i].pc.TakeHook? {
        TakenHook(s, StepGather(s, i, reading), i, registered);
      } else {
        KeptHook(s, StepGather(s, i, reading), i, registered);
      }
    case _ =>
      SameHooks(s, Step(s, a), registered);
  }

  lemma JoinedStep(s: State, a: Action)
    requires Enabled(s, a) && Joined(s)
    ensures Joined(Step(s, a))
  {
    var s' := Step(s, a);
    forall t | 0 <= t < |s.gathers| + |s.senders| - 1 && HasExited(s, t) ensures HasExited(s', t) {
    }
  }

  lemma InvStep(s: State, a: Action, registered: multiset<Hook>)
    requires Enabled(s, a) && Inv(s, registered)
    ensures Inv(Step(s, a), registered)
  {
    ConservedStep(s, a);
    FifoStep(s, a);
    InOrderStep(s, a);
    NoMetricLostStep(s, a);
    BoundedStep(s, a);
    HooksMatchStep(s, a, registered);
    JoinedStep(s, a);
  }

  lemma {:induction false} FreshThreads(gs: seq<Gather>)
    requires forall i :: 0 <= i < |gs| ==> gs[i] == Gather(TakeHook, None, [], 0)
    ensures Sum(gs, Waits) == |gs|
  {
    if gs != [] {
      FreshThreads(gs[1..]);
    }
  }

  lemma InvInit(hooks: seq<Hook>, senders: nat)
    requires senders >= 1
    ensures Inv(Init(hooks, senders), multiset(hooks))
  {
    hide Sum, Bag;
    var s := Init(hooks, senders);
    BagEmpty(s.gathers, GatherHand);
    BagEmpty(s.senders, SenderHand);
    BagEmpty(s.gathers, HookOf);
    FreshThreads(s.gathers);
  }

  lemma {:induction false} SameThreads(s: State, acts: seq<Action>)
    requires IsRun(s, acts)
    ensures |Run(s, acts).gathers| == |s.gathers| && |Run(s, acts).senders| == |s.senders|
    decreases |acts|
  {
    if acts != [] {
      SameThreads(Step(s, acts[0]), acts[1..]);
    }
  }

  lemma {:induction false} InvRun(s: State, acts: seq<Action>, registered: multiset<Hook>)
    requires IsRun(s, acts) && Inv(s, registered)
    ensures Inv(Run(s, acts), registered)
    decreases |acts|
  {
    if acts != [] {
      InvStep(s, acts[0], registered);
      var s' := Step(s, acts[0]);
      InvRun(s', acts[1..], registered);
    }
  }
}
