/**
  What the agent prepares before its threads run (plugin_discover.c, plugin_manager.c
  and init_timings of thread_handler.c): the hook queue, the table of plug-in names,
  the interval of each plug-in, and the number of sender threads.
  */
module StartUp {
  import opened Text
  import opened Sequences

  const MIN_THREADS: nat := 2
  const MAX_THREADS: nat := 256

  /**
    A directory entry: its plug-in name if it is a library, its setting in [plugins],
    and what loading it does: whether its init function registers a hook under its
    own name, and what that function returns: 1 when the plug-in is available, 0 when
    it is not, a negative number to have the library closed. Registering comes before
    the outcome is known, so a registered plug-in may turn out to be unavailable.
    */
  datatype Entry = Entry(name: Option<string>, setting: string, registers: bool, result: int)

  predicate Considered(e: Entry) { e.name.Some? && e.setting != "off" }

  // ------------------------------------------------------- the specification

  /** The plug-ins that registered a hook, in directory order. */
  function Registered(es: seq<Entry>): seq<string> {
    if es == [] then []
    else
      var e := es[|es| - 1];
      Registered(es[..|es| - 1]) + if Registers(e) then [e.name.value] else []
  }

  predicate Registers(e: Entry) { Considered(e) && e.registers }

  /** For each registered plug-in in turn, whether its hook will ever return a metric. */
  function Availability(es: seq<Entry>): (bs: seq<bool>)
    ensures |bs| == |Registered(es)|
  {
    if es == [] then []
    else
      var e := es[|es| - 1];
      Availability(es[..|es| - 1]) + if Registers(e) then [e.result == 1] else []
  }

  lemma {:induction false} AllAvailable(es: seq<Entry>)
    ensures (forall k :: 0 <= k < |Availability(es)| ==> Availability(es)[k])
            <==> forall i :: 0 <= i < |es| && Registers(es[i]) ==> es[i].result == 1
  {
    if es != [] {
      var last := |es| - 1;
      var before := es[..last];
      AllAvailable(before);
      assert forall i :: 0 <= i < last ==> before[i] == es[i];
      var bs := Availability(before);
      assert forall k :: 0 <= k < |bs| ==> Availability(es)[k] == bs[k];
      if Registers(es[last]) {
        assert Availability(es)[|bs|] == (es[last].result == 1);
      }
    }
  }

  /** The name left behind by a load that registered nothing, until the next load overwrites it. */
  function Pending(es: seq<Entry>): Option<string> {
    if es == [] then None
    else
      var e := es[|es| - 1];
      if !Considered(e) then Pending(es[..|es| - 1]) else if e.registers then None else e.name
  }

  /** The open libraries, newest first. */
  function Loaded(es: seq<Entry>): seq<string> {
    if es == [] then []
    else
      var e := es[|es| - 1];
      (if Considered(e) && e.result >= 0 then [e.name.value] else []) + Loaded(es[..|es| - 1])
  }

  /**
    Which entries the queue holds: entry ix[q] of the directory is the q-th in the queue. In it are
    exactly the named entries that are not set to "off" and that register, in directory order.
    */
  ghost predicate InDirectoryOrder(es: seq<Entry>, ix: seq<nat>, hooks: seq<string>, available: seq<bool>) {
    && |ix| == |hooks| == |available|
    && (forall q, r :: 0 <= q < r < |ix| ==> ix[q] < ix[r])
    && (forall q :: 0 <= q < |ix| ==>
          && ix[q] < |es| && es[ix[q]].name == Some(hooks[q]) && es[ix[q]].setting != "off" && es[ix[q]].registers
          && available[q] == (es[ix[q]].result == 1))
    && (forall i :: 0 <= i < |es| && es[i].name.Some? && es[i].setting != "off" && es[i].registers ==> i in ix)
  }

  /** Which libraries are open: those of the named entries not set to "off" whose init did not fail below 0, newest first. */
  ghost predicate NewestFirst(es: seq<Entry>, ix: seq<nat>, handles: seq<string>) {
    && |ix| == |handles|
    && (forall q, r :: 0 <= q < r < |ix| ==> ix[q] > ix[r])
    && (forall q :: 0 <= q < |ix| ==>
          ix[q] < |es| && es[ix[q]].name == Some(handles[q]) && es[ix[q]].setting != "off" && es[ix[q]].result >= 0)
    && (forall i :: 0 <= i < |es| && es[i].name.Some? && es[i].setting != "off" && es[i].result >= 0 ==> i in ix)
  }

  /** Entry i is the last one that is loaded at all. */
  predicate LastLoaded(es: seq<Entry>, i: nat)
    requires i < |es|
  {
    es[i].name.Some? && es[i].setting != "off" && forall j :: i < j < |es| ==> es[j].name.None? || es[j].setting == "off"
  }

  /** What stands behind the registered names: the last loaded name if it registered nothing. */
  ghost predicate LeftBehind(es: seq<Entry>, pending: Option<string>) {
    && (forall i :: 0 <= i < |es| && LastLoaded(es, i) ==> pending == if es[i].registers then None else es[i].name)
    && ((forall i :: 0 <= i < |es| ==> es[i].name.None? || es[i].setting == "off") ==> pending == None)
  }

  lemma OrderKept(es: seq<Entry>, e: Entry, ix: seq<nat>, hooks: seq<string>, available: seq<bool>)
    requires InDirectoryOrder(es, ix, hooks, available) && !Registers(e)
    ensures InDirectoryOrder(es + [e], ix, hooks, available)
  {
  }

  lemma OrderExtended(es: seq<Entry>, e: Entry, ix: seq<nat>, hooks: seq<string>, available: seq<bool>)
    requires InDirectoryOrder(es, ix, hooks, available) && Registers(e)
    ensures InDirectoryOrder(es + [e], ix + [|es|], hooks + [e.name.value], available + [e.result == 1])
  {
    var ix' := ix + [|es|];
    assert ix'[|ix|] == |es|;
    forall i | i in ix ensures i in ix' {
    }
  }

  lemma {:induction false} RegisteredIs(es: seq<Entry>) returns (ix: seq<nat>)
    ensures InDirectoryOrder(es, ix, Registered(es), Availability(es))
  {
    hide InDirectoryOrder;
    if es == [] {
      ix := NoneInOrder();
    } else {
      var e, before := es[|es| - 1], es[..|es| - 1];
      assert es == before + [e];
      ix := RegisteredIs(before);
      if Registers(e) {
        OrderExtended(before, e, ix, Registered(before), Availability(before));
        ix := ix + [|before|];
      } else {
        OrderKept(before, e, ix, Registered(before), Availability(before));
        assert Registered(before) + [] == Registered(before) && Availability(before) + [] == Availability(before);
      }
    }
  }

  lemma NoneInOrder() returns (ix: seq<nat>)
    ensures InDirectoryOrder([], ix, [], []) && NewestFirst([], ix, [])
  {
    ix := [];
  }

  lemma OpenKept(es: seq<Entry>, e: Entry, ix: seq<nat>, handles: seq<string>)
    requires NewestFirst(es, ix, handles) && !(Considered(e) && e.result >= 0)
    ensures NewestFirst(es + [e], ix, handles)
  {
  }

  lemma OpenExtended(es: seq<Entry>, e: Entry, ix: seq<nat>, handles: seq<string>)
    requires NewestFirst(es, ix, handles) && Considered(e) && e.result >= 0
    ensures NewestFirst(es + [e], [|es|] + ix, [e.name.value] + handles)
  {
    var es', ix', hs' := es + [e], [|es|] + ix, [e.name.value] + handles;
    forall q | 0 <= q < |ix'|
      ensures ix'[q] < |es'| && es'[ix'[q]].name == Some(hs'[q]) && es'[ix'[q]].setting != "off" && es'[ix'[q]].result >= 0
    {
      if q > 0 {
        assert ix'[q] == ix[q - 1] && hs'[q] == handles[q - 1] && es'[ix'[q]] == es[ix[q - 1]];
      }
    }
    forall q, r | 0 <= q < r < |ix'| ensures ix'[q] > ix'[r] {
      assert ix'[r] == ix[r - 1] && (q > 0 ==> ix'[q] == ix[q - 1]);
    }
    forall i | 0 <= i < |es'| && es'[i].name.Some? && es'[i].setting != "off" && es'[i].result >= 0 ensures i in ix' {
      assert i < |es| ==> es'[i] == es[i] && i in ix;
      assert ix'[0] == |es|;
    }
  }

  lemma {:induction false} LoadedIs(es: seq<Entry>) returns (ix: seq<nat>)
    ensures NewestFirst(es, ix, Loaded(es))
  {
    hide NewestFirst, Considered;
    if es == [] {
      ix := NoneInOrder();
    } else {
      var e, before := es[|es| - 1], es[..|es| - 1];
      assert es == before + [e];
      ix := LoadedIs(before);
      if Considered(e) && e.result >= 0 {
        OpenExtended(before, e, ix, Loaded(before));
        ix := [|before|] + ix;
      } else {
        OpenKept(before, e, ix, Loaded(before));
        assert [] + Loaded(before) == Loaded(before);
      }
    }
  }

  lemma PendingKept(es: seq<Entry>, e: Entry, pending: Option<string>)
    requires LeftBehind(es, pending) && !Considered(e)
    ensures LeftBehind(es + [e], pending)
  {
    var es' := es + [e];
    assert forall i :: 0 <= i < |es| ==> es'[i] == es[i];
    assert es'[|es|] == e;
    forall i | 0 <= i < |es'| && LastLoaded(es', i) ensures pending == if es'[i].registers then None else es'[i].name {
      assert i < |es| && LastLoaded(es, i);
    }
  }

  lemma PendingReplaced(es: seq<Entry>, e: Entry)
    requires Considered(e)
    ensures LeftBehind(es + [e], if e.registers then None else e.name)
  {
    var es' := es + [e];
    assert es'[|es|] == e && LastLoaded(es', |es|);
    assert forall i :: 0 <= i < |es| ==> !LastLoaded(es', i);
  }

  lemma {:induction false} PendingIs(es: seq<Entry>)
    ensures LeftBehind(es, Pending(es))
  {
    if es != [] {
      hide LeftBehind, Considered;
      var e, before := es[|es| - 1], es[..|es| - 1];
      assert es == before + [e];
      PendingIs(before);
      if Considered(e) {
        PendingReplaced(before, e);
      } else {
        PendingKept(before, e, Pending(before));
      }
    }
  }

  /** The table of names behind the two fixed threads. */
  ghost predicate NamesMatch(names: seq<Option<string>>, hooks: seq<string>, pending: Option<string>)
    requires |names| == MAX_THREADS
  {
    && MIN_THREADS + |hooks| < MAX_THREADS
    && (forall i :: 0 <= i < |hooks| ==> names[MIN_THREADS + i] == Some(hooks[i]))
    && names[MIN_THREADS + |hooks|] == pending
    && forall i :: MIN_THREADS + |hooks| < i < MAX_THREADS ==> names[i] == None
  }

  /** A number in section [timings]; an absent one reads as the empty text. */
  function Setting(table: map<string, string>, key: string): int { Atoi(if key in table then table[key] else "") }

  function Interval(table: map<string, string>, name: string): int {
    if name in table && table[name] != "" then Atoi(table[name]) else Setting(table, "default")
  }

  /** The value text is read into a buffer that starts out empty. */
  function Stored(table: map<string, string>, name: string, default: int): int {
    var value := if name in table then table[name] else "";
    if value == "" then default else Atoi(value)
  }

  lemma StoredIsInterval(table: map<string, string>, name: string)
    ensures Stored(table, name, Setting(table, "default")) == Interval(table, name)
  {
    hide Atoi;
  }

  /** The least of the default and the intervals that were read. */
  ghost predicate IsLeast(table: map<string, string>, names: seq<Option<string>>, ts: seq<int>, least: int)
    requires |names| == |ts| == MAX_THREADS >= MIN_THREADS + |table|
  {
    && least <= Setting(table, "default")
    && (forall i :: MIN_THREADS <= i < MIN_THREADS + |table| && names[i].Some? ==> least <= ts[i])
    && (least == Setting(table, "default") ||
        exists i :: MIN_THREADS <= i < MIN_THREADS + |table| && names[i].Some? && least == ts[i])
  }

  /** What init_timings leaves in one entry. */
  function Timed(table: map<string, string>, names: seq<Option<string>>, was: seq<int>, i: nat): int
    requires |names| == |was| == MAX_THREADS && i < MAX_THREADS
  {
    if i == 0 then Setting(table, "publish_data_interval")
    else if i == 1 then Setting(table, "update_configuration")
    else if i < MIN_THREADS + |table| && names[i].Some? then Interval(table, names[i].value)
    else was[i]
  }

  lemma TimedIs(table: map<string, string>, names: seq<Option<string>>, was: seq<int>)
    requires |names| == |was| == MAX_THREADS
    ensures Timed(table, names, was, 0) == if "publish_data_interval" in table then Atoi(table["publish_data_interval"]) else 0
    ensures Timed(table, names, was, 1) == if "update_configuration" in table then Atoi(table["update_configuration"]) else 0
    ensures forall i {:trigger Timed(table, names, was, i)} :: MIN_THREADS <= i < MAX_THREADS ==>
      Timed(table, names, was, i) ==
      if i >= MIN_THREADS + |table| || names[i].None? then was[i]
      else if names[i].value in table && table[names[i].value] != "" then Atoi(table[names[i].value])
      else if "default" in table then Atoi(table["default"]) else 0
  {
  }

  /** `(int) (pluginCount * publish_json_time * 1.0e9 / min_plugin_interval)`, truncating toward zero. */
  function Truncate(x: real): int { if x >= 0.0 then x.Floor else -((-x).Floor) }

  function SendingThreads(plugins: nat, publish: real, least: int): int
    requires least != 0
  {
    Truncate(plugins as real * publish * 1000000000.0 / least as real)
  }

  // --------------------------------------------------------------- the agent

  class Agent {
    var hookQueue: seq<string>
    var pluginCount: nat
    const pluginName: array<Option<string>>
    const timings: array<int>
    var minPluginInterval: int
    var handles: seq<string>
    var isAvailable: seq<bool>    // the variable of that name of each registered plug-in

    ghost predicate Valid()
      reads this
    {
      pluginName.Length == MAX_THREADS && timings.Length == MAX_THREADS
    }

    constructor ()
      ensures Valid() && hookQueue == [] && pluginCount == 0 && handles == [] && isAvailable == []
      ensures pluginName[..] == seq(MAX_THREADS, _ => None) && timings[..] == seq(MAX_THREADS, _ => 0)
      ensures fresh(pluginName) && fresh(timings)
    {
      pluginName := new Option<string>[MAX_THREADS](_ => None);
      timings := new int[MAX_THREADS](_ => 0);
      hookQueue, pluginCount, minPluginInterval, handles, isAvailable := [], 0, 0, [], [];
    }

    /** PluginManager_register_hook; the plug-in is not available before its init function has ended. */
    method RegisterHook(name: string)
      modifies this
      ensures hookQueue == old(hookQueue) + [name] && pluginCount == old(pluginCount) + 1
      ensures handles == old(handles) && minPluginInterval == old(minPluginInterval)
      ensures isAvailable == old(isAvailable) + [false]
    {
      hookQueue := hookQueue + [name];
      isAvailable := isAvailable + [false];
      pluginCount := pluginCount + 1;
    }

    /** PluginManager_get_hook; the count stays. */
    method GetHook() returns (hook: Option<string>)
      modifies this
      ensures old(hookQueue) == [] ==> hook == None && hookQueue == []
      ensures old(hookQueue) != [] ==> hook.Some? && old(hookQueue) == [hook.value] + hookQueue
      ensures pluginCount == old(pluginCount) && handles == old(handles) && minPluginInterval == old(minPluginInterval)
      ensures isAvailable == old(isAvailable)
    {
      hook := None;
      if hookQueue != [] {
        hook := Some(hookQueue[0]);
        hookQueue := hookQueue[1..];
      }
    }

    /**
      discover_plugins: queue and table name the same plug-ins, however many loads registered
      nothing. A hook stays registered whatever init returns.
      */
    method DiscoverPlugins(entries: seq<Entry>)
      requires Valid() && hookQueue == [] && pluginCount == 0 && handles == [] && isAvailable == []
      requires forall i :: MIN_THREADS <= i < MAX_THREADS ==> pluginName[i] == None
      requires MIN_THREADS + |Registered(entries)| < MAX_THREADS
      modifies this, pluginName
      ensures hookQueue == Registered(entries) && pluginCount == |hookQueue| && handles == Loaded(entries)
      ensures isAvailable == Availability(entries)
      ensures NamesMatch(pluginName[..], hookQueue, Pending(entries))
      ensures exists ix :: InDirectoryOrder(entries, ix, hookQueue, isAvailable)
      ensures exists ix :: NewestFirst(entries, ix, handles)
      ensures LeftBehind(entries, pluginName[MIN_THREADS + pluginCount])
    {
      hide Registered, Availability, Pending, Loaded, NamesMatch, InDirectoryOrder, NewestFirst, LeftBehind;
      pluginName[0], pluginName[1] := Some(""), Some("");
      NothingYet(pluginName[..]);
      for k := 0 to |entries|
        invariant hookQueue == Registered(entries[..k]) && pluginCount == |hookQueue| && handles == Loaded(entries[..k])
        invariant isAvailable == Availability(entries[..k])
        invariant NamesMatch(pluginName[..], hookQueue, Pending(entries[..k]))
      {
        var e := entries[k];
        RegisteredGrows(entries, k + 1);
        OneMore(entries, k);
        if Considered(e) {
          NameStored(pluginName[..], hookQueue, Pending(entries[..k]), e.name.value, e.registers);
          pluginName[MIN_THREADS + pluginCount] := e.name;
          if e.registers {
            RegisterHook(e.name.value);
            isAvailable := isAvailable[|isAvailable| - 1 := e.result == 1];
          }
          if e.result >= 0 {
            handles := [e.name.value] + handles;
          }
        }
      }
      assert entries[..|entries|] == entries;
      ghost var queued := RegisteredIs(entries);
      ghost var open := LoadedIs(entries);
      PendingIs(entries);
      PendingStands(pluginName[..], hookQueue, Pending(entries));
    }

    /** init_timings */
    method InitTimings(table: map<string, string>)
      requires Valid() && MIN_THREADS + |table| <= MAX_THREADS
      modifies this`minPluginInterval, timings
      ensures timings[..] == seq(MAX_THREADS, i requires 0 <= i < MAX_THREADS =>
                Timed(table, old(pluginName[..]), old(timings[..]), i))
      ensures pluginName[..] == old(pluginName[..])
      ensures IsLeast(table, pluginName[..], timings[..], minPluginInterval)
      ensures timings[0] == if "publish_data_interval" in table then Atoi(table["publish_data_interval"]) else 0
      ensures timings[1] == if "update_configuration" in table then Atoi(table["update_configuration"]) else 0
      ensures forall i :: MIN_THREADS <= i < MIN_THREADS + |table| && pluginName[i].Some? ==>
        timings[i] == if pluginName[i].value in table && table[pluginName[i].value] != ""
                      then Atoi(table[pluginName[i].value])
                      else if "default" in table then Atoi(table["default"]) else 0
      ensures forall i :: MIN_THREADS <= i < MAX_THREADS && (i >= MIN_THREADS + |table| || pluginName[i].None?) ==>
        timings[i] == old(timings[i])
    {
      hide Setting, Interval;
      TimedIs(table, pluginName[..], timings[..]);
      ghost var was := timings[..];
      ghost var names := pluginName[..];
      timings[0] := Setting(table, "publish_data_interval");
      timings[1] := Setting(table, "update_configuration");
      var defaultTiming := Setting(table, "default");
      minPluginInterval := defaultTiming;
      for i := MIN_THREADS to MIN_THREADS + |table|
        invariant pluginName[..] == names
        invariant forall k :: 0 <= k < i ==> timings[k] == Timed(table, names, was, k)
        invariant forall k :: i <= k < MAX_THREADS ==> timings[k] == was[k]
        invariant minPluginInterval <= defaultTiming
        invariant forall k :: MIN_THREADS <= k < i && names[k].Some? ==> minPluginInterval <= timings[k]
        invariant minPluginInterval == defaultTiming ||
                  exists k :: MIN_THREADS <= k < i && names[k].Some? && minPluginInterval == timings[k]
      {
        if pluginName[i].Some? {
          assert names[i] == pluginName[i];
          var name := pluginName[i].value;
          timings[i] := Stored(table, name, defaultTiming);
          StoredIsInterval(table, name);
          if timings[i] < minPluginInterval {
            minPluginInterval := timings[i];
          }
        } else {
          assert names[i] == None;
        }
      }
    }

    /** startThreads up to the creation of the threads: the number of senders, thread 1 among them. */
    method PrepareThreads(entries: seq<Entry>, table: map<string, string>, publish: real) returns (senders: int)
      requires Valid() && hookQueue == [] && pluginCount == 0 && handles == [] && isAvailable == []
      requires pluginName[..] == seq(MAX_THREADS, _ => None) && timings[..] == seq(MAX_THREADS, _ => 0)
      requires MIN_THREADS + |Registered(entries)| < MAX_THREADS && MIN_THREADS + |table| <= MAX_THREADS
      requires PositiveTimings(table, Registered(entries), Pending(entries)) && publish >= 0.0
      modifies this, pluginName, timings
      ensures hookQueue == Registered(entries) && pluginCount == |hookQueue| && minPluginInterval > 0
      ensures isAvailable == Availability(entries)
      ensures Started(table, pluginName[..], hookQueue, Pending(entries), timings[..], minPluginInterval)
      ensures senders == 1 + SendingThreads(|hookQueue|, publish, minPluginInterval)
    {
      hide Registered, Pending, Loaded, NamesMatch, Timed, IsLeast, PositiveTimings;
      assert forall i :: 0 <= i < MAX_THREADS ==> pluginName[i] == pluginName[..][i];
      DiscoverPlugins(entries);
      InitTimings(table);
      LeastIsPositive(table, pluginName[..], hookQueue, Pending(entries), timings[..], minPluginInterval);
      senders := 1 + SendingThreads(pluginCount, publish, minPluginInterval);
    }
  }

  lemma PendingStands(names: seq<Option<string>>, hooks: seq<string>, pending: Option<string>)
    requires |names| == MAX_THREADS && NamesMatch(names, hooks, pending)
    ensures MIN_THREADS + |hooks| < MAX_THREADS && names[MIN_THREADS + |hooks|] == pending
  {
  }

  lemma NothingYet(names: seq<Option<string>>)
    requires |names| == MAX_THREADS && forall i :: MIN_THREADS <= i < MAX_THREADS ==> names[i] == None
    ensures NamesMatch(names, [], None) && Registered([]) == [] && Pending([]) == None && Loaded([]) == []
    ensures Availability([]) == []
  {
  }

  lemma OneMore(es: seq<Entry>, k: nat)
    requires k < |es|
    ensures Registered(es[..k + 1]) == Registered(es[..k]) + if Registers(es[k]) then [es[k].name.value] else []
    ensures Availability(es[..k + 1]) == Availability(es[..k]) + if Registers(es[k]) then [es[k].result == 1] else []
    ensures Loaded(es[..k + 1]) == (if Considered(es[k]) && es[k].result >= 0 then [es[k].name.value] else []) + Loaded(es[..k])
    ensures Pending(es[..k + 1]) ==
            if !Considered(es[k]) then Pending(es[..k]) else if es[k].registers then None else es[k].name
  {
    assert es[..k + 1][..k] == es[..k];
  }

  /** Writing the name before loading keeps queue and table in step. */
  lemma NameStored(names: seq<Option<string>>, hooks: seq<string>, pending: Option<string>, name: string, registers: bool)
    requires |names| == MAX_THREADS && NamesMatch(names, hooks, pending)
    requires registers ==> MIN_THREADS + |hooks| + 1 < MAX_THREADS
    ensures NamesMatch(names[MIN_THREADS + |hooks| := Some(name)], if registers then hooks + [name] else hooks,
                       if registers then None else Some(name))
  {
  }

  lemma {:induction false} RegisteredGrows(es: seq<Entry>, k: nat)
    requires k <= |es|
    ensures |Registered(es[..k])| <= |Registered(es)|
    decreases |es|
  {
    if k == |es| {
      assert es[..k] == es;
    } else {
      assert es[..|es| - 1][..k] == es[..k];
      RegisteredGrows(es[..|es| - 1], k);
    }
  }

  // ------------------------------------------------------------ the theorems

  /** The state after discovery and init_timings, on a first start. */
  ghost predicate Started(table: map<string, string>, names: seq<Option<string>>, hooks: seq<string>,
                          pending: Option<string>, ts: seq<int>, least: int)
  {
    && |names| == |ts| == MAX_THREADS >= MIN_THREADS + |table|
    && NamesMatch(names, hooks, pending)
    && (forall i :: 0 <= i < MAX_THREADS ==> ts[i] == Timed(table, names, seq(MAX_THREADS, _ => 0), i))
    && IsLeast(table, names, ts, least)
  }

  ghost predicate PositiveTimings(table: map<string, string>, hooks: seq<string>, pending: Option<string>) {
    && Setting(table, "default") > 0
    && (forall i :: 0 <= i < |hooks| ==> Interval(table, hooks[i]) > 0)
    && (pending.Some? ==> Interval(table, pending.value) > 0)
  }

  /** The intervals of the plug-in threads. */
  function Intervals(ts: seq<int>, plugins: nat): (xs: seq<int>)
    requires MIN_THREADS + plugins <= |ts|
    ensures |xs| == plugins && forall i :: 0 <= i < plugins ==> xs[i] == ts[MIN_THREADS + i]
  {
    ts[MIN_THREADS..MIN_THREADS + plugins]
  }

  lemma OneInterval(table: map<string, string>, names: seq<Option<string>>, hooks: seq<string>,
                    pending: Option<string>, ts: seq<int>, least: int, i: nat)
    requires Started(table, names, hooks, pending, ts, least) && i < |hooks|
    ensures Intervals(ts, |hooks|)[i] == if i < |table| then Interval(table, hooks[i]) else 0
    ensures i < |table| ==> least <= Intervals(ts, |hooks|)[i]
  {
    hide Setting, Interval;
    assert names[MIN_THREADS + i] == Some(hooks[i]);
    assert ts[MIN_THREADS + i] == Timed(table, names, seq(MAX_THREADS, _ => 0), MIN_THREADS + i);
  }

  lemma LeastIsPositive(table: map<string, string>, names: seq<Option<string>>, hooks: seq<string>,
                        pending: Option<string>, ts: seq<int>, least: int)
    requires Started(table, names, hooks, pending, ts, least) && PositiveTimings(table, hooks, pending)
    ensures least > 0
  {
    hide Setting, Interval;
    if least != Setting(table, "default") {
      var i :| MIN_THREADS <= i < MIN_THREADS + |table| && names[i].Some? && least == ts[i];
      assert ts[i] == Timed(table, names, seq(MAX_THREADS, _ => 0), i);
      assert i < MIN_THREADS + |hooks| ==> names[i] == Some(hooks[i - MIN_THREADS]);
    }
  }

  /**
    No plug-in is faster than the minimum exactly when [timings] has at least as many entries
    as there are plug-ins: the loop runs over the entries, and the plug-ins behind keep 0.
    */
  lemma LeastInterval(table: map<string, string>, names: seq<Option<string>>, hooks: seq<string>,
                      pending: Option<string>, ts: seq<int>, least: int)
    requires Started(table, names, hooks, pending, ts, least) && PositiveTimings(table, hooks, pending)
    ensures (forall i :: 0 <= i < |hooks| ==> 0 < least <= Intervals(ts, |hooks|)[i]) <==> |hooks| <= |table|
    ensures |hooks| <= |table| ==> forall i :: 0 <= i < |hooks| ==> Intervals(ts, |hooks|)[i] == Interval(table, hooks[i])
  {
    hide PositiveTimings, Setting, Interval, IsLeast, Timed;
    LeastIsPositive(table, names, hooks, pending, ts, least);
    forall i | 0 <= i < |hooks|
      ensures Intervals(ts, |hooks|)[i] == if i < |table| then Interval(table, hooks[i]) else 0
      ensures i < |table| ==> least <= Intervals(ts, |hooks|)[i]
    {
      OneInterval(table, names, hooks, pending, ts, least, i);
    }
    if |hooks| > |table| {
      assert Intervals(ts, |hooks|)[|table|] == 0;
    }
  }

  function Rate(publish: real, interval: int): real
    requires interval > 0
  {
    publish * 1000000000.0 / interval as real
  }

  /** Hook calls per publish time, summed over the plug-ins; a bulk takes eight of them. */
  function Demand(intervals: seq<int>, publish: real): real
    requires forall i :: 0 <= i < |intervals| ==> intervals[i] > 0
  {
    if intervals == [] then 0.0
    else
      Rate(publish, intervals[0]) + Demand(intervals[1..], publish)
  }

  lemma Cancel(a: real, b: real, m: real)
    requires m > 0.0 && a * m <= b * m
    ensures a <= b
  {
  }

  lemma Grows(a: real, m: real, n: real)
    requires a >= 0.0 && m <= n
    ensures a * m <= a * n
  {
  }

  lemma Quotient(x: real, d: real)
    requires d > 0.0
    ensures (x / d) * d == x && (x >= 0.0 ==> x / d >= 0.0)
  {
  }

  /** A slower plug-in calls its hook less often. */
  lemma Slower(publish: real, interval: int, least: int)
    requires publish >= 0.0 && 0 < least <= interval
    ensures Rate(publish, interval) <= Rate(publish, least)
  {
    var a, b := Rate(publish, interval), Rate(publish, least);
    Quotient(publish * 1000000000.0, interval as real);
    Quotient(publish * 1000000000.0, least as real);
    Grows(a, least as real, interval as real);
    Cancel(a, b, least as real);
  }

  lemma {:induction false} DemandBound(intervals: seq<int>, publish: real, least: int)
    requires publish >= 0.0 && least > 0 && forall i :: 0 <= i < |intervals| ==> intervals[i] >= least
    ensures Demand(intervals, publish) <= |intervals| as real * Rate(publish, least)
  {
    hide Rate;
    if intervals != [] {
      Slower(publish, intervals[0], least);
      DemandBound(intervals[1..], publish, least);
      OneMoreShare(|intervals| - 1, Rate(publish, least));
    }
  }

  lemma OneMoreShare(n: nat, share: real)
    ensures (n + 1) as real * share == share + n as real * share
  {
  }

  lemma AllShares(n: nat, publish: real, least: int)
    requires least > 0 && publish >= 0.0
    ensures n as real * Rate(publish, least) == n as real * publish * 1000000000.0 / least as real >= 0.0
  {
    var x := n as real * publish * 1000000000.0;
    var d := least as real;
    Quotient(publish * 1000000000.0, d);
    Quotient(x, d);
    assert (n as real * Rate(publish, least)) * d == n as real * (Rate(publish, least) * d) == x;
    Cancel(n as real * Rate(publish, least), x / d, d);
    Cancel(x / d, n as real * Rate(publish, least), d);
    Grows(publish * 1000000000.0, 0.0, n as real);
  }

  /** The senders outnumber the hook calls of all plug-ins while one text is published. */
  lemma SendersSuffice(table: map<string, string>, names: seq<Option<string>>, hooks: seq<string>,
                       pending: Option<string>, ts: seq<int>, least: int, publish: real)
    requires Started(table, names, hooks, pending, ts, least) && PositiveTimings(table, hooks, pending)
    requires |hooks| <= |table| && publish >= 0.0
    ensures least > 0 && forall i :: 0 <= i < |hooks| ==> Intervals(ts, |hooks|)[i] > 0
    ensures Demand(Intervals(ts, |hooks|), publish) < (1 + SendingThreads(|hooks|, publish, least)) as real
  {
    hide Demand, Rate, PositiveTimings, Setting, Interval, IsLeast, Timed;
    LeastInterval(table, names, hooks, pending, ts, least);
    LeastIsPositive(table, names, hooks, pending, ts, least);
    Enough(Intervals(ts, |hooks|), publish, least);
  }

  /** The number of sending threads is the quotient, rounded down. */
  lemma SendingThreadsIs(plugins: nat, publish: real, least: int)
    requires publish >= 0.0 && least > 0
    ensures SendingThreads(plugins, publish, least) >= 0
    ensures SendingThreads(plugins, publish, least) as real * least as real <= plugins as real * publish * 1000000000.0
    ensures plugins as real * publish * 1000000000.0
            < SendingThreads(plugins, publish, least) as real * least as real + least as real
  {
    NotBelow(plugins, publish);
    Quotient(plugins as real * publish * 1000000000.0, least as real);
    RoundedQuotient(plugins as real * publish * 1000000000.0, least as real,
                    plugins as real * publish * 1000000000.0 / least as real, SendingThreads(plugins, publish, least));
  }

  lemma NotBelow(plugins: nat, publish: real)
    requires publish >= 0.0
    ensures plugins as real * publish * 1000000000.0 >= 0.0
  {
    Grows(publish, 0.0, plugins as real);
  }

  lemma RoundedQuotient(total: real, d: real, q: real, n: int)
    requires total >= 0.0 && d > 0.0 && q >= 0.0 && q * d == total && n == Truncate(q)
    ensures n >= 0
    ensures n as real * d <= total
    ensures total < n as real * d + d
  {
    hide Truncate;
    FloorAbove(q);
    Between(n as real, q, d);
    Substituted(n as real * d, d, q * d, total);
  }

  lemma Substituted(low: real, d: real, product: real, total: real)
    requires product < low + d && product == total
    ensures total < low + d
  {
  }

  lemma Between(n: real, q: real, d: real)
    requires n <= q < n + 1.0 && d > 0.0
    ensures n * d <= q * d < n * d + d
  {
    Grows(d, n, q);
    GrowsStrictly(d, q, n + 1.0);
    assert d * (n + 1.0) == n * d + d;
  }

  lemma GrowsStrictly(a: real, m: real, n: real)
    requires a > 0.0 && m < n
    ensures a * m < a * n
  {
  }

  /** With one interval for all plug-ins the demand is their number times publish time over interval. */
  lemma {:induction false} DemandIs(intervals: seq<int>, publish: real, interval: int)
    requires interval > 0 && forall i :: 0 <= i < |intervals| ==> intervals[i] == interval
    ensures Demand(intervals, publish) * interval as real == |intervals| as real * (publish * 1000000000.0)
  {
    if intervals != [] {
      DemandIs(intervals[1..], publish, interval);
      Quotient(publish * 1000000000.0, interval as real);
      SharesAdd(Rate(publish, interval), Demand(intervals[1..], publish), interval as real, |intervals| - 1,
                publish * 1000000000.0);
    }
  }

  lemma SharesAdd(a: real, b: real, d: real, n: nat, x: real)
    requires a * d == x && b * d == n as real * x
    ensures (a + b) * d == (n + 1) as real * x
  {
    assert (a + b) * d == a * d + b * d;
  }

  lemma FloorAbove(x: real)
    ensures x >= 0.0 ==> 0 <= Truncate(x) && Truncate(x) as real <= x < (1 + Truncate(x)) as real
  {
  }

  lemma Enough(intervals: seq<int>, publish: real, least: int)
    requires publish >= 0.0 && least > 0 && forall i :: 0 <= i < |intervals| ==> intervals[i] >= least
    ensures Demand(intervals, publish) < (1 + SendingThreads(|intervals|, publish, least)) as real
  {
    hide Demand, Rate, Truncate;
    DemandBound(intervals, publish, least);
    AllShares(|intervals|, publish, least);
    var quotient := |intervals| as real * publish * 1000000000.0 / least as real;
    FloorAbove(quotient);
    assert Demand(intervals, publish) <= |intervals| as real * Rate(publish, least) == quotient;
    assert SendingThreads(|intervals|, publish, least) == Truncate(quotient);
  }
}
