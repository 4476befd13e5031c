/** What the senders get to publish: the texts of the bulks that the pipeline issues. */
module Delivery {
  import opened Sequences
  import opened Pipeline
  import opened Shutdown
  import Json
  import BulkJson
  import StartUp
  import Hooks

  /** A handle that is the latest of its producer, with the stop signal given. */
  predicate LastAfterSignal(s: State, h: Handle) {
    h.producer < |s.gathers| && !s.running && h.serial == s.gathers[h.producer].published - 1
  }

  /**
    The bulks of producer p: those of an available plugin are full, save perhaps the last one
    after the stop signal; those of an unavailable plugin are empty.
    */
  ghost predicate Filled(s: State, p: nat)
    requires p < |s.gathers|
  {
    var g, hs := s.gathers[p], Of(s.issued, p);
    && (g.pc.TakeHook? ==> hs == [])
    && (Available(g) ==> forall k :: 0 <= k < |hs| ==>
          && |hs[k].metrics| <= BULK_SIZE
          && (|hs[k].metrics| < BULK_SIZE ==> !s.running && k == |hs| - 1 && !g.pc.Fill?))
    && (!Available(g) ==>
          && (forall k :: 0 <= k < |hs| ==> hs[k].metrics == [])
          && (g.pc.Fill? ==> forall i :: 0 <= i < |g.pc.bulk| ==> g.pc.bulk[i].None?))
  }

  ghost predicate AllFilled(s: State) { forall p :: 0 <= p < |s.gathers| ==> Filled(s, p) }

  lemma {:induction false} UpToNullLength(bulk: seq<Option<Metric>>)
    ensures |UpToNull(bulk)| <= |bulk|
    ensures (forall i :: 0 <= i < |bulk| ==> bulk[i].Some?) <==> |UpToNull(bulk)| == |bulk|
  {
    if bulk != [] && bulk[0].Some? {
      UpToNullLength(bulk[1..]);
      assert forall i :: 0 <= i < |bulk[1..]| ==> bulk[1..][i] == bulk[i + 1];
      if forall i :: 0 <= i < |bulk[1..]| ==> bulk[1..][i].Some? {
        assert forall i :: 1 <= i < |bulk| ==> bulk[i] == bulk[1..][i - 1];
      }
    }
  }

  lemma FilledPublish(s: State, i: nat, reading: Metric, p: nat)
    requires i < |s.gathers| && p < |s.gathers| && Filled(s, p) && Lossless(s, i)
    requires s.gathers[i].pc.Fill? && |s.gathers[i].pc.bulk| >= BULK_SIZE
    ensures Filled(StepGather(s, i, reading), p)
  {
    hide Of, Somes, AllMetrics, UpToNull;
    var s', bulk := StepGather(s, i, reading), s.gathers[i].pc.bulk;
    OfSnoc(s.issued, s'.gathers[i].pc.handle, p);
    UpToNullLength(bulk);
    NothingBeforeNull(bulk);
  }

  lemma FilledGather(s: State, i: nat, reading: Metric, p: nat)
    requires i < |s.gathers| && p < |s.gathers| && Filled(s, p) && Lossless(s, i)
    ensures Filled(StepGather(s, i, reading), p)
  {
    hide Of, Somes, AllMetrics, UpToNull;
    if s.gathers[i].pc.Fill? && |s.gathers[i].pc.bulk| >= BULK_SIZE {
      FilledPublish(s, i, reading, p);
    } else {
      assert StepGather(s, i, reading).issued == s.issued;
    }
  }

  lemma NothingBeforeNull(bulk: seq<Option<Metric>>)
    ensures bulk != [] && bulk[0].None? ==> UpToNull(bulk) == []
  {
  }

  lemma FilledStep(s: State, a: Action)
    requires Enabled(s, a) && AllFilled(s) && NoMetricLost(s)
    ensures AllFilled(Step(s, a))
  {
    hide Of, Somes, AllMetrics, UpToNull;
    var s' := Step(s, a);
    forall p | 0 <= p < |s'.gathers| ensures Filled(s', p) {
      assert Filled(s, p);
      if a.GatherStep? {
        assert Lossless(s, a.thread);
        FilledGather(s, a.thread, a.reading, p);
      }
    }
  }

  lemma {:induction false} FilledRun(s: State, acts: seq<Action>, registered: multiset<Hook>)
    requires IsRun(s, acts) && Inv(s, registered) && AllFilled(s)
    ensures AllFilled(Run(s, acts))
    decreases |acts|
  {
    hide AllFilled;
    if acts != [] {
      FilledStep(s, acts[0]);
      InvStep(s, acts[0], registered);
      FilledRun(Step(s, acts[0]), acts[1..], registered);
    }
  }

  lemma FilledReached(hooks: seq<Hook>, senders: nat, s: State)
    requires senders >= 1 && Reachable(hooks, senders, s)
    ensures AllFilled(s)
  {
    InvInit(hooks, senders);
    var acts :| IsRun(Init(hooks, senders), acts) && Run(Init(hooks, senders), acts) == s;
    FilledRun(Init(hooks, senders), acts, multiset(hooks));
  }

  lemma {:induction false} InOf(hs: seq<Handle>, h: Handle)
    requires h in hs
    ensures h in Of(hs, h.producer)
  {
    var last := hs[|hs| - 1];
    assert hs == hs[..|hs| - 1] + [last];
    if h != last {
      InOf(hs[..|hs| - 1], h);
    }
  }

  lemma IssuedByProducer(hooks: seq<Hook>, senders: nat, s: State, h: Handle)
    requires senders >= 1 && Reachable(hooks, senders, s) && h in s.issued
    ensures h.producer < |s.gathers| && Filled(s, h.producer) && h in Of(s.issued, h.producer)
    ensures Numbered(Of(s.issued, h.producer), s.gathers[h.producer].published)
    ensures s.gathers[h.producer].hook.Some? && s.gathers[h.producer].hook.value in hooks
  {
    Reached(hooks, senders, s);
    FilledReached(hooks, senders, s);
    InOf(s.issued, h);
    var p := h.producer;
    assert ProducerOrder(s, p) && Filled(s, p);
    InBag(s.gathers, p);
    assert s.gathers[p].hook.value in multiset(hooks);
  }

  /** A bulk that is not full is its plugin's last, issued after the stop signal, or its plugin is unavailable. */
  lemma ShortBulkIsLast(hooks: seq<Hook>, senders: nat, s: State, h: Handle)
    requires senders >= 1 && Reachable(hooks, senders, s) && h in s.issued && |h.metrics| != BULK_SIZE
    ensures h.producer < |s.gathers| && (Available(s.gathers[h.producer]) ==> LastAfterSignal(s, h))
  {
    IssuedByProducer(hooks, senders, s, h);
  }

  /** Every bulk of an unavailable plugin is empty. */
  lemma UnavailableIsEmpty(hooks: seq<Hook>, senders: nat, s: State, h: Handle)
    requires senders >= 1 && Reachable(hooks, senders, s) && h in s.issued
    requires h.producer < |s.gathers| && !Available(s.gathers[h.producer])
    ensures h.metrics == []
  {
    IssuedByProducer(hooks, senders, s, h);
  }

  /** Each plugin's metrics are bodies that its own lists of members write. */
  ghost predicate Publishable(h: BulkJson.Header, clock: BulkJson.Clock, ms: seq<Metric>, bodies: seq<Json.MemberDocs>) {
    BulkJson.GoodHeader(h) && BulkJson.Bodies(clock, ms, bodies)
  }

  /**
    A text handed to a sender is the JSON array of the bulk's objects, or the bulk is empty and the
    text unreadable. Of an available plugin only the last text after the signal can be unreadable,
    of an unavailable plugin every text is.
    */
  lemma TextsReadable(hooks: seq<Hook>, senders: nat, s: State, h: Handle, header: BulkJson.Header,
                      clock: BulkJson.Clock, bodies: seq<Json.MemberDocs>)
    requires senders >= 1 && Reachable(hooks, senders, s) && h in s.issued
    requires Publishable(header, clock, h.metrics, bodies)
    ensures h.producer < |s.gathers|
    ensures var text, available := BulkJson.BulkText(header, clock, h.metrics), Available(s.gathers[h.producer]);
            && (Json.ParseText(text) == if h.metrics == [] then Json.Failed
                else Json.Read(Json.JArray(BulkJson.BulkTrees(header, clock, h.metrics, bodies)), []))
            && (available && Json.ParseText(text).Failed? ==> LastAfterSignal(s, h))
            && (available && s.running ==> |h.metrics| == BULK_SIZE)
            && (!available ==> Json.ParseText(text).Failed?)
  {
    hide Reachable, BulkJson.BulkText, BulkJson.BulkTrees, BulkJson.GoodHeader, Json.ParseText;
    BulkJson.ReadableIffNonempty(header, clock, h.metrics, bodies);
    IssuedByProducer(hooks, senders, s, h);
    if |h.metrics| != BULK_SIZE {
      ShortBulkIsLast(hooks, senders, s, h);
    }
    if h.metrics != [] {
      BulkJson.BulkParsesBack(header, clock, h.metrics, bodies);
    }
  }

  /** An available plugin can end with an empty bulk: the signal comes between its loop test and its first hook call. */
  lemma EmptyBulkHappens(hooks: seq<Hook>, senders: nat)
    requires senders >= 1 && hooks != []
    ensures exists s, h :: Reachable(hooks, senders, s) && h in s.issued && h.metrics == []
              && LastAfterSignal(s, h) && s.gathers[h.producer].hook == Some(hooks[0])
  {
    var m := Metric(0, "");
    var s := Init(hooks, senders);
    assert IsRun(s, []) && Run(s, []) == s;
    s := Extend(hooks, senders, s, GatherStep(0, m));
    s := Extend(hooks, senders, s, GatherStep(0, m));
    s := Extend(hooks, senders, s, Signal);
    var k := 0;
    while k < BULK_SIZE
      invariant k <= BULK_SIZE && Reachable(hooks, senders, s) && !s.running && s.main.Waiting? && |s.gathers| == |hooks|
      invariant s.gathers[0].pc.Fill? && |s.gathers[0].pc.bulk| == k && s.gathers[0].hook == Some(hooks[0])
      invariant k > 0 ==> s.gathers[0].pc.bulk[0].None?
    {
      s := Extend(hooks, senders, s, GatherStep(0, m));
      k := k + 1;
    }
    s := Extend(hooks, senders, s, GatherStep(0, m));
    var h := s.issued[|s.issued| - 1];
    assert h in s.issued && h.metrics == [];
  }

  /** An unavailable plugin goes on issuing empty bulks for as long as the agent runs. */
  lemma EmptyBulksWithoutEnd(hooks: seq<Hook>, senders: nat, k: nat, n: nat)
    requires senders >= 1 && k < |hooks| && !hooks[k].available
    ensures exists s :: Reachable(hooks, senders, s) && s.running && |Of(s.issued, k)| == n + 1
              && forall i :: 0 <= i <= n ==> Of(s.issued, k)[i].metrics == []
  {
    var s := AllHolding(hooks, senders);
    s := Extend(hooks, senders, s, GatherStep(k, Metric(0, "")));
    for i := 0 to n
      invariant Reachable(hooks, senders, s) && s.running && s.main.Waiting? && |s.gathers| == |hooks|
      invariant s.gathers[k].pc.CheckLoop? && s.gathers[k].hook == Some(hooks[k]) && s.gathers[k].published == i + 1
    {
      s := OneBulk(hooks, senders, s, k);
    }
    Reached(hooks, senders, s);
    FilledReached(hooks, senders, s);
    assert ProducerOrder(s, k) && Filled(s, k);
  }

  /** Short bulks are confined to the end of a run exactly when every registered plugin is available. */
  lemma ShortOnlyAtEndIff(hooks: seq<Hook>, senders: nat)
    requires senders >= 1
    ensures (forall s, h :: Reachable(hooks, senders, s) && h in s.issued && |h.metrics| != BULK_SIZE ==> LastAfterSignal(s, h))
            <==> forall k :: 0 <= k < |hooks| ==> hooks[k].available
  {
    hide Reachable;
    if k :| 0 <= k < |hooks| && !hooks[k].available {
      var s, h := EmptyWhileRunning(hooks, senders, k);
      assert !LastAfterSignal(s, h);
    } else {
      forall s, h | Reachable(hooks, senders, s) && h in s.issued && |h.metrics| != BULK_SIZE ensures LastAfterSignal(s, h) {
        IssuedByProducer(hooks, senders, s, h);
        ShortBulkIsLast(hooks, senders, s, h);
      }
    }
  }

  lemma EmptyWhileRunning(hooks: seq<Hook>, senders: nat, k: nat) returns (s: State, h: Handle)
    requires senders >= 1 && k < |hooks| && !hooks[k].available
    ensures Reachable(hooks, senders, s) && s.running && h in s.issued && h.metrics == []
  {
    EmptyBulksWithoutEnd(hooks, senders, k, 0);
    s :| Reachable(hooks, senders, s) && s.running && |Of(s.issued, k)| == 1
      && forall i :: 0 <= i <= 0 ==> Of(s.issued, k)[i].metrics == [];
    h := Of(s.issued, k)[0];
    FromOf(s.issued, k, 0);
  }

  lemma {:induction false} FromOf(hs: seq<Handle>, p: nat, i: nat)
    requires i < |Of(hs, p)|
    ensures Of(hs, p)[i] in hs
    decreases |hs|
  {
    var before := hs[..|hs| - 1];
    assert hs == before + [hs[|hs| - 1]];
    if i < |Of(before, p)| {
      FromOf(before, p, i);
    }
  }

  /** In every run, an unreadable text is the last one of its plugin, after the signal. */
  ghost predicate UnreadableOnlyAtEnd(hooks: seq<Hook>, senders: nat, header: BulkJson.Header, clock: BulkJson.Clock) {
    forall s, h, bodies :: Reachable(hooks, senders, s) && h in s.issued && Unreadable(h, header, clock, bodies) ==>
      LastAfterSignal(s, h)
  }

  ghost predicate Unreadable(h: Handle, header: BulkJson.Header, clock: BulkJson.Clock, bodies: seq<Json.MemberDocs>) {
    && Publishable(header, clock, h.metrics, bodies)
    && Json.ParseText(BulkJson.BulkText(header, clock, h.metrics)).Failed?
  }

  /** Unreadable texts are confined to the end of a run exactly when every registered plugin is available. */
  lemma UnreadableOnlyAtEndIff(hooks: seq<Hook>, senders: nat, header: BulkJson.Header, clock: BulkJson.Clock)
    requires senders >= 1 && BulkJson.GoodHeader(header)
    ensures UnreadableOnlyAtEnd(hooks, senders, header, clock) <==> forall k :: 0 <= k < |hooks| ==> hooks[k].available
  {
    hide Reachable, BulkJson.BulkText, BulkJson.GoodHeader, Json.ParseText;
    if k :| 0 <= k < |hooks| && !hooks[k].available {
      var s, h := EmptyWhileRunning(hooks, senders, k);
      BulkJson.ReadableIffNonempty(header, clock, h.metrics, []);
      assert Unreadable(h, header, clock, []);
      assert !LastAfterSignal(s, h);
    } else {
      forall s, h, bodies | Reachable(hooks, senders, s) && h in s.issued && Unreadable(h, header, clock, bodies)
        ensures LastAfterSignal(s, h)
      {
        IssuedByProducer(hooks, senders, s, h);
        TextsReadable(hooks, senders, s, h, header, clock, bodies);
      }
    }
  }

  // -------------------------------------------------- with discovery in front

  /**
    After discovery of a directory, unreadable texts are confined to the end of every run exactly
    when each plug-in that registered a hook has had its init function return 1.
    */
  lemma DiscoveredOnlyAtEndIff(entries: seq<StartUp.Entry>, senders: nat, header: BulkJson.Header, clock: BulkJson.Clock)
    requires senders >= 1 && BulkJson.GoodHeader(header)
    ensures UnreadableOnlyAtEnd(Hooks.InOrderOf(StartUp.Availability(entries)), senders, header, clock)
            <==> forall i :: 0 <= i < |entries| && StartUp.Registers(entries[i]) ==> entries[i].result == 1
  {
    hide UnreadableOnlyAtEnd, BulkJson.GoodHeader;
    var available := StartUp.Availability(entries);
    hide StartUp.Availability;
    UnreadableOnlyAtEndIff(Hooks.InOrderOf(available), senders, header, clock);
    StartUp.AllAvailable(entries);
    assert (forall k :: 0 <= k < |available| ==> available[k])
      <==> forall k :: 0 <= k < |available| ==> Hooks.InOrderOf(available)[k].available;
  }
}
