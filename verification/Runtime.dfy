/**
  The run time of a workflow (server/routes/v1/dreamcloud/runtime.js): two queries per
  task, whose callbacks arrive in any order and update one earliest start, one latest
  end and one list of tasks.
  */
module Runtime {
  import opened Sequences

  /** Milliseconds since the epoch; None when there is no hit or its date is no date. */
  type Instant = Option<int>

  const EPOCH: int := 0
  const SENTINEL: int := 7258118400000  // 2200-01-01

  datatype Phase = Asked | Started(start: Instant) | Done

  datatype Task = Task(name: string, phase: Phase)

  datatype Listed = Listed(name: string, start: Instant, end: Instant, runtime: real)

  /** The instants as seconds; no number counts as 0. */
  function RuntimeOf(start: Instant, end: Instant): real {
    if start.Some? && end.Some? then (end.value - start.value) as real / 1000.0 else 0.0
  }

  datatype State = State(tasks: seq<Task>, earliest: int, latest: int, listed: seq<Listed>)

  function Init(names: seq<string>): State {
    State(seq(|names|, i requires 0 <= i < |names| => Task(names[i], Asked)), SENTINEL, EPOCH, [])
  }

  function LastHit(hits: seq<Instant>): Instant { if hits == [] then None else hits[|hits| - 1] }

  function Lowest(hits: seq<Instant>, bound: int): int {
    if hits == [] then bound
    else
      var least := Lowest(hits[..|hits| - 1], bound);
      var hit := hits[|hits| - 1];
      if hit.Some? && hit.value < least then hit.value else least
  }

  function Highest(hits: seq<Instant>, bound: int): int {
    if hits == [] then bound
    else
      var most := Highest(hits[..|hits| - 1], bound);
      var hit := hits[|hits| - 1];
      if hit.Some? && hit.value > most then hit.value else most
  }

  /** The reply to a query of one task, or to its second query. */
  datatype Event = StartReply(task: nat, hits: seq<Instant>) | EndReply(task: nat, hits: seq<Instant>)

  /** Each query asks for one hit, and the second one is sent when the first is answered. */
  predicate Enabled(s: State, e: Event) {
    e.task < |s.tasks| && |e.hits| <= 1
    && match e
       case StartReply(i, _) => s.tasks[i].phase.Asked?
       case EndReply(i, _) => s.tasks[i].phase.Started?
  }

  function Step(s: State, e: Event): State
    requires e.task < |s.tasks| && (e.EndReply? ==> s.tasks[e.task].phase.Started?)
  {
    match e
    case StartReply(i, hits) =>
      s.(tasks := s.tasks[i := s.tasks[i].(phase := Started(LastHit(hits)))], earliest := Lowest(hits, s.earliest))
    case EndReply(i, hits) =>
      var start, end := s.tasks[i].phase.start, LastHit(hits);
      s.(tasks := s.tasks[i := s.tasks[i].(phase := Done)], latest := Highest(hits, s.latest),
         listed := s.listed + [Listed(s.tasks[i].name, start, end, RuntimeOf(start, end))])
  }

  predicate IsRun(s: State, es: seq<Event>)
    decreases |es|
  {
    es == [] || (Enabled(s, es[0]) && IsRun(Step(s, es[0]), es[1..]))
  }

  function Run(s: State, es: seq<Event>): State
    requires IsRun(s, es)
    decreases |es|
  {
    if es == [] then s else Run(Step(s, es[0]), es[1..])
  }

  predicate Complete(s: State) { forall i :: 0 <= i < |s.tasks| ==> s.tasks[i].phase.Done? }

  function TotalRuntime(s: State): real { (s.latest - s.earliest) as real / 1000.0 }

  // ---------------------------------------------------------- the callbacks

  class Report {
    var tasks: seq<Task>
    var earliestStart: int
    var latestEnd: int
    var listed: seq<Listed>

    function View(): State
      reads this
    {
      State(tasks, earliestStart, latestEnd, listed)
    }

    constructor (names: seq<string>)
      ensures View() == Init(names)
    {
      tasks := seq(|names|, i requires 0 <= i < |names| => Task(names[i], Asked));
      earliestStart := SENTINEL;
      latestEnd := EPOCH;
      listed := [];
    }

    method OnStart(i: nat, hits: seq<Instant>)
      requires i < |tasks|
      modifies this
      ensures View() == Step(old(View()), StartReply(i, hits))
    {
      var start: Instant := None;
      for k := 0 to |hits|
        invariant start == LastHit(hits[..k]) && earliestStart == Lowest(hits[..k], old(earliestStart))
        invariant tasks == old(tasks) && latestEnd == old(latestEnd) && listed == old(listed)
      {
        assert hits[..k + 1][..k] == hits[..k];
        start := hits[k];
        if start.Some? && start.value < earliestStart {
          earliestStart := start.value;
        }
      }
      assert hits[..|hits|] == hits;
      tasks := tasks[i := tasks[i].(phase := Started(start))];
    }

    method OnEnd(i: nat, hits: seq<Instant>)
      requires i < |tasks| && tasks[i].phase.Started?
      modifies this
      ensures View() == Step(old(View()), EndReply(i, hits))
    {
      var end: Instant := None;
      for k := 0 to |hits|
        invariant end == LastHit(hits[..k]) && latestEnd == Highest(hits[..k], old(latestEnd))
        invariant tasks == old(tasks) && earliestStart == old(earliestStart) && listed == old(listed)
      {
        assert hits[..k + 1][..k] == hits[..k];
        end := hits[k];
        if end.Some? && end.value > latestEnd {
          latestEnd := end.value;
        }
      }
      assert hits[..|hits|] == hits;
      var start := tasks[i].phase.start;
      listed := listed + [Listed(tasks[i].name, start, end, RuntimeOf(start, end))];
      tasks := tasks[i := tasks[i].(phase := Done)];
    }
  }

  // ------------------------------------------------------------ invariants

  /** A task whose start is known and still to be listed. */
  ghost predicate Knows(s: State, i: nat, start: int)
    requires i < |s.tasks|
  {
    s.tasks[i].phase == Started(Some(start))
  }

  ghost predicate IsStart(s: State, t: int) {
    (exists i :: 0 <= i < |s.tasks| && Knows(s, i, t)) || exists k :: 0 <= k < |s.listed| && s.listed[k].start == Some(t)
  }

  ghost predicate IsEnd(s: State, t: int) { exists k :: 0 <= k < |s.listed| && s.listed[k].end == Some(t) }

  /** The earliest start and the latest end so far, against the values they began with. */
  ghost predicate Extremes(s: State) {
    && (forall t :: IsStart(s, t) ==> s.earliest <= t)
    && (s.earliest == SENTINEL || IsStart(s, s.earliest)) && s.earliest <= SENTINEL
    && (forall t :: IsEnd(s, t) ==> t <= s.latest)
    && (s.latest == EPOCH || IsEnd(s, s.latest)) && s.latest >= EPOCH
  }

  function Unlisted(t: Task): multiset<string> { if t.phase.Done? then multiset{} else multiset{t.name} }

  function NamesOf(ls: seq<Listed>): seq<string> { seq(|ls|, k requires 0 <= k < |ls| => ls[k].name) }

  /** Every task of the workflow is listed once or still open. */
  ghost predicate Accounted(s: State, names: seq<string>) {
    multiset(NamesOf(s.listed)) + Bag(s.tasks, Unlisted) == multiset(names)
  }

  ghost predicate Timed(s: State) {
    forall k :: 0 <= k < |s.listed| ==> s.listed[k].runtime == RuntimeOf(s.listed[k].start, s.listed[k].end)
  }

  lemma OneHit(hits: seq<Instant>, bound: int)
    requires |hits| <= 1
    ensures Lowest(hits, bound) == match LastHit(hits) case None => bound case Some(t) => if t < bound then t else bound
    ensures Highest(hits, bound) == match LastHit(hits) case None => bound case Some(t) => if t > bound then t else bound
  {
  }

  lemma StartsAfterStart(s: State, i: nat, hits: seq<Instant>, t: int)
    requires Enabled(s, StartReply(i, hits))
    ensures IsStart(Step(s, StartReply(i, hits)), t) <==> IsStart(s, t) || LastHit(hits) == Some(t)
    ensures IsEnd(Step(s, StartReply(i, hits)), t) <==> IsEnd(s, t)
  {
    var s' := Step(s, StartReply(i, hits));
    assert forall j :: 0 <= j < |s.tasks| && Knows(s, j, t) ==> j != i && Knows(s', j, t);
    assert forall j :: 0 <= j < |s.tasks| && j != i && Knows(s', j, t) ==> Knows(s, j, t);
    assert Knows(s', i, t) <==> LastHit(hits) == Some(t);
  }

  lemma StartsAfterEnd(s: State, i: nat, hits: seq<Instant>, t: int)
    requires Enabled(s, EndReply(i, hits))
    ensures IsStart(Step(s, EndReply(i, hits)), t) <==> IsStart(s, t)
    ensures IsEnd(Step(s, EndReply(i, hits)), t) <==> IsEnd(s, t) || LastHit(hits) == Some(t)
  {
    var s' := Step(s, EndReply(i, hits));
    var n := |s.listed|;
    assert forall j :: 0 <= j < |s.tasks| && Knows(s', j, t) ==> j != i && Knows(s, j, t);
    assert forall j :: 0 <= j < |s.tasks| && j != i && Knows(s, j, t) ==> Knows(s', j, t);
    assert Knows(s, i, t) <==> s'.listed[n].start == Some(t);
    assert s'.listed[n].end == LastHit(hits);
    assert forall k :: 0 <= k < n ==> s'.listed[k] == s.listed[k];
  }

  lemma ExtremesStep(s: State, e: Event)
    requires Enabled(s, e) && Extremes(s)
    ensures Extremes(Step(s, e))
  {
    hide IsStart, IsEnd, Lowest, Highest;
    OneHit(e.hits, if e.StartReply? then s.earliest else s.latest);
    var s' := Step(s, e);
    forall t ensures e.StartReply? ==> (IsStart(s', t) <==> IsStart(s, t) || LastHit(e.hits) == Some(t)) && (IsEnd(s', t) <==> IsEnd(s, t))
             ensures e.EndReply? ==> (IsStart(s', t) <==> IsStart(s, t)) && (IsEnd(s', t) <==> IsEnd(s, t) || LastHit(e.hits) == Some(t))
    {
      if e.StartReply? {
        StartsAfterStart(s, e.task, e.hits, t);
      } else {
        StartsAfterEnd(s, e.task, e.hits, t);
      }
    }
  }

  lemma AccountedStart(s: State, e: Event, names: seq<string>)
    requires Enabled(s, e) && Accounted(s, names) && e.StartReply?
    ensures Accounted(Step(s, e), names)
  {
    hide Lowest, NamesOf;
    BagUpdate(s.tasks, e.task, s.tasks[e.task].(phase := Started(LastHit(e.hits))), Unlisted);
  }

  lemma AccountedEnd(s: State, e: Event, names: seq<string>)
    requires Enabled(s, e) && Accounted(s, names) && e.EndReply?
    ensures Accounted(Step(s, e), names)
  {
    hide Highest, RuntimeOf, NamesOf;
    var s' := Step(s, e);
    var name := multiset{s.tasks[e.task].name};
    BagUpdate(s.tasks, e.task, s'.tasks[e.task], Unlisted);
    ListedNames(s.listed, s'.listed[|s.listed|]);
    assert s'.listed == s.listed + [s'.listed[|s.listed|]];
    Balance(multiset(NamesOf(s.listed)), Bag(s.tasks, Unlisted), name);
  }

  lemma Balance(listed: multiset<string>, open: multiset<string>, name: multiset<string>)
    requires name <= open
    ensures (listed + name) + (open - name + multiset{}) == listed + open
  {
  }

  lemma ListedNames(ls: seq<Listed>, l: Listed)
    ensures multiset(NamesOf(ls + [l])) == multiset(NamesOf(ls)) + multiset{l.name}
  {
    assert NamesOf(ls + [l]) == NamesOf(ls) + [l.name];
  }

  lemma {:induction false} InvRun(s: State, es: seq<Event>, names: seq<string>)
    requires IsRun(s, es) && Extremes(s) && Accounted(s, names) && Timed(s)
    ensures Extremes(Run(s, es)) && Accounted(Run(s, es), names) && Timed(Run(s, es))
    decreases |es|
  {
    hide Extremes, Accounted, RuntimeOf, Lowest, Highest;
    if es != [] {
      ExtremesStep(s, es[0]);
      if es[0].StartReply? {
        AccountedStart(s, es[0], names);
      } else {
        AccountedEnd(s, es[0], names);
      }
      InvRun(Step(s, es[0]), es[1..], names);
    }
  }

  lemma {:induction false} FreshTasks(ts: seq<Task>, names: seq<string>)
    requires |ts| == |names| && forall i :: 0 <= i < |ts| ==> ts[i] == Task(names[i], Asked)
    ensures Bag(ts, Unlisted) == multiset(names)
  {
    if ts != [] {
      FreshTasks(ts[1..], names[1..]);
      assert names == [names[0]] + names[1..];
    }
  }

  lemma NoneOpen(s: State)
    requires Complete(s)
    ensures Bag(s.tasks, Unlisted) == multiset{}
  {
    BagEmpty(s.tasks, Unlisted);
  }

  // ------------------------------------------------------------ the theorem

  /** A run time is the difference of the instants, in thousandths, and 0 when one of them is missing. */
  ghost predicate IsRuntime(start: Instant, end: Instant, runtime: real) {
    if start.Some? && end.Some? then 1000.0 * runtime == (end.value - start.value) as real else runtime == 0.0
  }

  lemma RuntimeIs(start: Instant, end: Instant)
    ensures IsRuntime(start, end, RuntimeOf(start, end))
  {
  }

  lemma InitInv(names: seq<string>)
    ensures Extremes(Init(names)) && Accounted(Init(names), names) && Timed(Init(names))
  {
    FreshTasks(Init(names).tasks, names);
    assert NamesOf([]) == [];
  }

  /** What is reported when every callback has run, in whatever order. */
  lemma Reported(names: seq<string>, es: seq<Event>)
    requires IsRun(Init(names), es) && Complete(Run(Init(names), es))
    ensures var s := Run(Init(names), es);
            && multiset(NamesOf(s.listed)) == multiset(names) && |s.listed| == |names|
            && (forall d :: d in s.listed ==> d.runtime == RuntimeOf(d.start, d.end) && IsRuntime(d.start, d.end, d.runtime))
            && 1000.0 * TotalRuntime(s) == (s.latest - s.earliest) as real
            && (forall d :: d in s.listed && d.start.Some? ==> s.earliest <= d.start.value)
            && (forall d :: d in s.listed && d.end.Some? ==> d.end.value <= s.latest)
            && (s.earliest == SENTINEL || exists d :: d in s.listed && d.start == Some(s.earliest))
            && (s.latest == EPOCH || exists d :: d in s.listed && d.end == Some(s.latest))
  {
    hide Run, IsRun, Init, RuntimeOf;
    var s := Run(Init(names), es);
    InitInv(names);
    InvRun(Init(names), es, names);
    NoneOpen(s);
    assert |NamesOf(s.listed)| == |multiset(NamesOf(s.listed))| == |multiset(names)|;
    forall d | d in s.listed
      ensures d.runtime == RuntimeOf(d.start, d.end) && IsRuntime(d.start, d.end, d.runtime)
      ensures d.start.Some? ==> s.earliest <= d.start.value
      ensures d.end.Some? ==> d.end.value <= s.latest
    {
      RuntimeIs(d.start, d.end);
      assert d.start.Some? ==> IsStart(s, d.start.value);
      assert d.end.Some? ==> IsEnd(s, d.end.value);
    }
  }

  /** The instant that a reply with at most one hit gives. */
  function Only(hits: seq<Instant>): Instant { if |hits| == 1 then hits[0] else None }

  lemma OnlyHit(hits: seq<Instant>)
    requires |hits| <= 1
    ensures LastHit(hits) == Only(hits)
  {
  }

  /** Once past its first reply a task gets no further first reply, and once listed no further second one. */
  lemma {:induction false} NoSecondReply(s: State, es: seq<Event>, e: Event)
    requires IsRun(s, es) && e in es
    ensures e.task < |s.tasks| && |e.hits| <= 1
    ensures e.StartReply? ==> s.tasks[e.task].phase.Asked?
    ensures e.EndReply? ==> !s.tasks[e.task].phase.Done?
    decreases |es|
  {
    if e != es[0] {
      assert e in es[1..];
      NoSecondReply(Step(s, es[0]), es[1..], e);
    }
  }

  lemma {:induction false} StaysListed(s: State, es: seq<Event>, d: Listed)
    requires IsRun(s, es) && d in s.listed
    ensures d in Run(s, es).listed
    decreases |es|
  {
    if es != [] {
      StaysListed(Step(s, es[0]), es[1..], d);
    }
  }

  /** A started task is listed with the start it has and the end its second reply gives. */
  lemma {:induction false} EndListed(s: State, es: seq<Event>, i: nat, ends: seq<Instant>)
    requires IsRun(s, es) && EndReply(i, ends) in es && i < |s.tasks| && s.tasks[i].phase.Started?
    ensures exists d :: d in Run(s, es).listed && d.name == s.tasks[i].name
              && d.start == s.tasks[i].phase.start && d.end == Only(ends)
    decreases |es|
  {
    var e, rest := EndReply(i, ends), es[1..];
    var s' := Step(s, es[0]);
    NoSecondReply(s, es, e);
    if es[0] == e {
      OnlyHit(ends);
      StaysListed(s', rest, s'.listed[|s.listed|]);
    } else {
      assert e in rest;
      NoSecondReply(s', rest, e);
      EndListed(s', rest, i, ends);
    }
  }

  /** What is listed for a task is what the replies to its own two queries said. */
  lemma {:induction false} RepliesListed(s: State, es: seq<Event>, i: nat, starts: seq<Instant>, ends: seq<Instant>)
    requires IsRun(s, es) && StartReply(i, starts) in es && EndReply(i, ends) in es
    ensures i < |s.tasks|
    ensures exists d :: d in Run(s, es).listed && d.name == s.tasks[i].name && d.start == Only(starts) && d.end == Only(ends)
    decreases |es|
  {
    var b, e, rest := StartReply(i, starts), EndReply(i, ends), es[1..];
    var s' := Step(s, es[0]);
    NoSecondReply(s, es, b);
    assert e in rest;
    if es[0] == b {
      OnlyHit(starts);
      EndListed(s', rest, i, ends);
    } else {
      assert b in rest;
      RepliesListed(s', rest, i, starts, ends);
    }
  }

  /** For every order of callbacks a task of the workflow is listed with what its own two queries said. */
  lemma TaskReported(names: seq<string>, es: seq<Event>, i: nat, starts: seq<Instant>, ends: seq<Instant>)
    requires IsRun(Init(names), es) && StartReply(i, starts) in es && EndReply(i, ends) in es
    ensures i < |names|
    ensures exists d :: d in Run(Init(names), es).listed
              && d.name == names[i] && d.start == Only(starts) && d.end == Only(ends)
  {
    RepliesListed(Init(names), es, i, starts, ends);
  }

  /** The two queries of a task look at the same records: both find one, oldest first, or none. */
  ghost predicate Consistent(s: State) {
    forall d :: d in s.listed ==>
      (d.start.Some? <==> d.end.Some?) && (d.start.Some? ==> d.start.value <= d.end.value)
  }

  /**
    The total is at least the run time of every task exactly when the workflow is empty or some
    task has data: with no data at all it is the distance from 2200 back to the epoch.
    */
  lemma TotalBoundsTasks(names: seq<string>, es: seq<Event>)
    requires IsRun(Init(names), es) && Complete(Run(Init(names), es)) && Consistent(Run(Init(names), es))
    ensures var s := Run(Init(names), es);
            (forall d :: d in s.listed ==> d.runtime <= TotalRuntime(s))
            <==> (names == [] || exists d :: d in s.listed && d.start.Some?)
  {
    var s := Run(Init(names), es);
    Reported(names, es);
    if d :| d in s.listed && d.start.Some? {
      assert s.earliest <= d.start.value <= d.end.value <= s.latest;
      forall d | d in s.listed ensures d.runtime <= TotalRuntime(s) {
        if d.start.Some? {
          assert d.end.value - d.start.value <= s.latest - s.earliest;
        }
      }
    } else if names != [] {
      assert s.listed[0] in s.listed;
      assert s.earliest == SENTINEL && s.latest == EPOCH;
    }
  }

  /** The reported start is the minimum start exactly when some task started by 2200, the end likewise. */
  lemma MinimumAndMaximum(names: seq<string>, es: seq<Event>)
    requires IsRun(Init(names), es) && Complete(Run(Init(names), es))
    ensures var s := Run(Init(names), es);
            && (IsLeastStart(s.listed, s.earliest) <==> exists d :: d in s.listed && d.start.Some? && d.start.value <= SENTINEL)
            && (IsGreatestEnd(s.listed, s.latest) <==> exists d :: d in s.listed && d.end.Some? && EPOCH <= d.end.value)
  {
    var s := Run(Init(names), es);
    Reported(names, es);
    if d :| d in s.listed && d.start.Some? && d.start.value <= SENTINEL {
      assert s.earliest == SENTINEL ==> d.start == Some(s.earliest);
    }
    if d :| d in s.listed && d.end.Some? && EPOCH <= d.end.value {
      assert s.latest == EPOCH ==> d.end == Some(s.latest);
    }
    EarliestInRange(names, es);
  }

  ghost predicate IsLeastStart(ls: seq<Listed>, t: int) {
    (exists d :: d in ls && d.start == Some(t)) && forall d :: d in ls && d.start.Some? ==> t <= d.start.value
  }

  ghost predicate IsGreatestEnd(ls: seq<Listed>, t: int) {
    (exists d :: d in ls && d.end == Some(t)) && forall d :: d in ls && d.end.Some? ==> d.end.value <= t
  }

  lemma EarliestInRange(names: seq<string>, es: seq<Event>)
    requires IsRun(Init(names), es)
    ensures Run(Init(names), es).earliest <= SENTINEL && EPOCH <= Run(Init(names), es).latest
  {
    InitInv(names);
    InvRun(Init(names), es, names);
  }
}
