/**
  The meminfo plug-in (mf_meminfo_connector.c): which requested events it registers,
  and the list of JSON members it prints for one sample.
  */
module Meminfo {
  import opened Text
  import opened Sequences
  import opened Json
  import opened JsonTheorems
  import opened BulkJson

  const JSON_LENGTH_MAX: nat := 2048

  // -------------------------------------------------------- registration

  /** A token of /proc/meminfo without its last character, which is the colon of a name. */
  function Cleaned(token: string): string { if |token| >= 2 then token[..|token| - 1] else token }

  /** A crossed-out request is the empty name. */
  function Wish(name: string): multiset<string> { if name == "" then multiset{} else multiset{name} }

  ghost function Wishes(requested: seq<string>): multiset<string> { Bag(requested, Wish) }

  /** The events registered from the tokens on, given the requests still open. */
  function Registered(tokens: seq<string>, wishes: multiset<string>): seq<string> {
    if tokens == [] then []
    else
      var name := Cleaned(tokens[0]);
      if wishes[name] > 0 then [name] + Registered(tokens[1..], wishes - multiset{name})
      else Registered(tokens[1..], wishes)
  }

  function Names(tokens: seq<string>): multiset<string> {
    if tokens == [] then multiset{} else multiset{Cleaned(tokens[0])} + Names(tokens[1..])
  }

  /** Each name is registered as often as it is both offered and requested. */
  lemma {:induction false} RegisteredIsCommon(tokens: seq<string>, wishes: multiset<string>)
    ensures multiset(Registered(tokens, wishes)) == Names(tokens) * wishes
    decreases |tokens|
  {
    if tokens != [] {
      var name := Cleaned(tokens[0]);
      if wishes[name] > 0 {
        RegisteredIsCommon(tokens[1..], wishes - multiset{name});
        var more := Registered(tokens[1..], wishes - multiset{name});
        assert multiset([name] + more) == multiset{name} + multiset(more);
        assert multiset{name} + Names(tokens[1..]) * (wishes - multiset{name}) ==
               (multiset{name} + Names(tokens[1..])) * wishes;
      } else {
        RegisteredIsCommon(tokens[1..], wishes);
        assert (multiset{name} + Names(tokens[1..])) * wishes == Names(tokens[1..]) * wishes;
      }
    }
  }

  lemma {:induction false} NotRequested(requested: seq<string>, name: string)
    requires name != "" && name !in requested
    ensures Wishes(requested)[name] == 0
  {
    if requested != [] {
      NotRequested(requested[1..], name);
    }
  }

  lemma {:induction false} AllCrossedOut(requested: seq<string>)
    ensures (forall i :: 0 <= i < |requested| ==> requested[i] == "") <==> Wishes(requested) == multiset{}
  {
    if requested != [] {
      AllCrossedOut(requested[1..]);
      if forall i :: 0 <= i < |requested[1..]| ==> requested[1..][i] == "" {
        assert forall i :: 1 <= i < |requested| ==> requested[i] == requested[1..][i - 1];
      }
      if requested[0] != "" {
        assert requested[0] in Wishes(requested);
      }
    }
  }

  /** The first request for a name. */
  method Search(requested: array<string>, name: string) returns (i: nat)
    ensures i <= requested.Length && (i < requested.Length ==> requested[i] == name)
    ensures i == requested.Length ==> name !in requested[..]
  {
    i := 0;
    while i < requested.Length && requested[i] != name
      invariant i <= requested.Length && name !in requested[..i]
    {
      i := i + 1;
    }
    assert requested[..requested.Length] == requested[..];
  }

  method NothingLeft(requested: array<string>) returns (complete: bool)
    ensures complete <==> Wishes(requested[..]) == multiset{}
  {
    complete := true;
    for i := 0 to requested.Length
      invariant complete <==> forall k :: 0 <= k < i ==> requested[k] == ""
    {
      if requested[i] != "" {
        complete := false;
      }
    }
    assert forall k :: 0 <= k < requested.Length ==> requested[k] == requested[..][k];
    AllCrossedOut(requested[..]);
  }

  lemma CrossedOut(requested: seq<string>, i: nat)
    requires i < |requested| && requested[i] != ""
    ensures Wishes(requested)[requested[i]] > 0
    ensures Wishes(requested[i := ""]) == Wishes(requested) - multiset{requested[i]}
  {
    BagUpdate(requested, i, "", Wish);
    assert requested[i] in Wish(requested[i]);
  }

  lemma RegisteredStep(tokens: seq<string>, t: nat, wishes: multiset<string>)
    requires t < |tokens|
    ensures var name := Cleaned(tokens[t]);
            Registered(tokens[t..], wishes) ==
            if wishes[name] > 0 then [name] + Registered(tokens[t + 1..], wishes - multiset{name})
            else Registered(tokens[t + 1..], wishes)
  {
    assert tokens[t..][1..] == tokens[t + 1..];
  }

  /** A name listed with its colon is the name. */
  lemma CleanedIs(name: string, c: char)
    requires name != ""
    ensures Cleaned(name + [c]) == name
    ensures Cleaned([c]) == [c]
  {
  }

  lemma NameStays(token: string)
    ensures token != "" ==> Cleaned(token) != ""
  {
  }

  /** mf_meminfo_init: the second result says whether every request was met. */
  method Register(tokens: seq<string>, requested: array<string>) returns (events: seq<string>, complete: bool)
    requires forall i :: 0 <= i < |tokens| ==> tokens[i] != ""
    modifies requested
    ensures events == Registered(tokens, Wishes(old(requested[..])))
    ensures Wishes(requested[..]) + multiset(events) == Wishes(old(requested[..]))
    ensures complete <==> Wishes(old(requested[..])) <= Names(tokens)
  {
    hide Registered, Wishes, Names, Cleaned, Wish;
    ghost var wishes := Wishes(requested[..]);
    events := [];
    assert tokens[0..] == tokens;
    for t := 0 to |tokens|
      invariant events + Registered(tokens[t..], Wishes(requested[..])) == Registered(tokens, wishes)
      invariant Wishes(requested[..]) + multiset(events) == wishes
    {
      var metric := Cleaned(tokens[t]);
      NameStays(tokens[t]);
      ghost var before := requested[..];
      RegisteredStep(tokens, t, Wishes(before));
      var i := Search(requested, metric);
      if i < requested.Length {
        CrossedOut(before, i);
        requested[i] := "";
        assert requested[..] == before[i := ""];
        events := events + [metric];
      } else {
        NotRequested(before, metric);
      }
    }
    complete := NothingLeft(requested);
    NoTokens();
    assert tokens[|tokens|..] == [] && Registered([], Wishes(requested[..])) == [];
    RegisteredIsCommon(tokens, wishes);
    Met(Wishes(requested[..]), multiset(events), Names(tokens), wishes);
  }

  lemma NoTokens()
    ensures forall w :: Registered([], w) == []
  {
  }

  lemma Met(open: multiset<string>, events: multiset<string>, names: multiset<string>, wishes: multiset<string>)
    requires open + events == wishes && events == names * wishes
    ensures open == multiset{} <==> wishes <= names
  {
    if open == multiset{} {
      assert events == wishes;
      assert forall x :: (names * wishes)[x] <= names[x];
    }
    if wishes <= names {
      assert names * wishes == wishes;
      assert open == wishes - events;
    }
  }

  // ------------------------------------------------------------ the document

  /** The members mf_meminfo_to_json lists: the type, then one number per event. */
  function EventDocs(events: seq<string>, values: seq<int>): MemberDocs
    requires |events| == |values| > 0
  {
    var number := DNumber(Decimal(values[0]));
    if |events| == 1 then LastMember("", events[0], "", "", number, "")
    else MemberThen("", events[0], "", "", number, "", EventDocs(events[1..], values[1..]))
  }

  function MeminfoDocs(events: seq<string>, values: seq<int>): MemberDocs
    requires |events| == |values|
  {
    if events == [] then LastMember("", "type", "", "", DString("memory"), "")
    else Quoted("type", "memory", EventDocs(events, values))
  }

  function EventTrees(events: seq<string>, values: seq<int>): seq<Member>
    requires |events| == |values|
  {
    if events == [] then []
    else [Member(events[0], JNumber(Decimal(values[0])))] + EventTrees(events[1..], values[1..])
  }

  /** What the loop still has to print. */
  function EventsText(events: seq<string>, values: seq<int>): string
    requires |events| == |values|
  {
    if events == [] then ""
    else EventText(events[0], values[0]) + EventsText(events[1..], values[1..])
  }

  function EventText(event: string, value: int): string { ",\"" + event + "\":" + Decimal(value) }

  const TYPE: string := "\"type\":\"memory\""

  lemma {:induction false} EventsAreDocument(events: seq<string>, values: seq<int>)
    requires |events| == |values| > 0
    ensures EventsText(events, values) == "," + WriteMembers(EventDocs(events, values))
    decreases |events|
  {
    hide Decimal;
    var number := Decimal(values[0]);
    assert WriteMember("", events[0], "", "", number, "") == "\"" + events[0] + "\":" + number;
    if |events| > 1 {
      EventsAreDocument(events[1..], values[1..]);
    } else {
      assert events[1..] == [];
    }
  }

  lemma MeminfoIsDocument(events: seq<string>, values: seq<int>)
    requires |events| == |values|
    ensures TYPE + EventsText(events, values) == WriteMembers(MeminfoDocs(events, values))
  {
    if events != [] {
      hide EventsText, EventDocs, WriteMembers, Field;
      EventsAreDocument(events, values);
      var members := WriteMembers(EventDocs(events, values));
      QuotedText("type", "memory", EventDocs(events, values));
      TypeField(members);
    } else {
      TypeAlone();
    }
  }

  lemma TypeField(members: string)
    ensures Field("type", "memory") + members == TYPE + ("," + members)
  {
    assert Field("type", "memory") == "\"type\":\"memory\"" + ",";
  }

  lemma TypeAlone()
    ensures WriteMembers(LastMember("", "type", "", "", DString("memory"), "")) == TYPE + ""
  {
  }

  /** mf_meminfo_to_json */
  method MeminfoToJson(events: seq<string>, values: seq<int>) returns (json: array<char>)
    requires |events| == |values| && forall i :: 0 <= i < |events| ==> NUL !in events[i]
    requires |WriteMembers(MeminfoDocs(events, values))| < JSON_LENGTH_MAX
    ensures json.Length == JSON_LENGTH_MAX && Holds(json[..], 0, WriteMembers(MeminfoDocs(events, values)))
  {
    hide Decimal, WriteMembers, MeminfoDocs, EventsText, EventText, Holds;
    json := new char[JSON_LENGTH_MAX](_ => NUL);
    ghost var text := "";
    Emptied(json);
    MeminfoIsDocument(events, values);
    StrCat(json, TYPE, text);
    text := text + TYPE;
    assert text == TYPE && events[0..] == events && values[0..] == values;
    for idx := 0 to |events|
      invariant fresh(json) && json.Length == JSON_LENGTH_MAX && Holds(json[..], 0, text)
      invariant text + EventsText(events[idx..], values[idx..]) == TYPE + EventsText(events, values)
    {
      assert events[idx..][1..] == events[idx + 1..] && values[idx..][1..] == values[idx + 1..];
      var metric := EventText(events[idx], values[idx]);
      EventsSplit(events[idx..], values[idx..]);
      NoNul(events[idx], values[idx]);
      Regrouped(text, metric, EventsText(events[idx + 1..], values[idx + 1..]));
      assert |text + metric| <= |TYPE + EventsText(events, values)|;
      StrCat(json, metric, text);
      text := text + metric;
    }
    EventsSplit(events[|events|..], values[|events|..]);
    assert text + "" == text;
  }

  lemma Emptied(json: array<char>)
    requires json.Length > 0 && json[0] == NUL
    ensures Holds(json[..], 0, "")
  {
    assert json[0..0] == "";
  }

  lemma Regrouped(a: string, b: string, c: string)
    ensures a + (b + c) == (a + b) + c
  {
  }

  lemma EventsSplit(events: seq<string>, values: seq<int>)
    requires |events| == |values|
    ensures EventsText(events, values) ==
            if events == [] then "" else EventText(events[0], values[0]) + EventsText(events[1..], values[1..])
  {
  }

  lemma NoNul(event: string, value: int)
    requires NUL !in event
    ensures NUL !in EventText(event, value)
  {
    if NUL in Decimal(value) {
      DecimalChars(value, NUL);
    }
    hide Decimal;
  }

  lemma {:induction false} EventsGood(events: seq<string>, values: seq<int>)
    requires |events| == |values| > 0 && forall i :: 0 <= i < |events| ==> PlainText(events[i])
    ensures GoodMembers(EventDocs(events, values))
    ensures MemberTrees(EventDocs(events, values)) == EventTrees(events, values)
    decreases |events|
  {
    hide Decimal, PlainText, IsNumber;
    DecimalIsNumber(values[0]);
    NoWhite();
    if |events| > 1 {
      EventsGood(events[1..], values[1..]);
    } else {
      assert events[1..] == [];
    }
  }

  /** The plug-in's members read back as the type and each event with its value, in order. */
  lemma MeminfoTree(events: seq<string>, values: seq<int>)
    requires |events| == |values| && forall i :: 0 <= i < |events| ==> PlainText(events[i])
    ensures GoodMembers(MeminfoDocs(events, values))
    ensures MemberTrees(MeminfoDocs(events, values)) == [Member("type", JString("memory"))] + EventTrees(events, values)
  {
    hide Decimal, MemberTrees, GoodMembers, EventDocs, Quoted, PlainText;
    TypeTree();
    if events != [] {
      EventsGood(events, values);
      QuotedTree("type", "memory", EventDocs(events, values));
    }
  }

  lemma TypeTree()
    ensures PlainText("type") && PlainText("memory")
    ensures var m := LastMember("", "type", "", "", DString("memory"), "");
            GoodMembers(m) && MemberTrees(m) == [Member("type", JString("memory"))]
  {
  }
}
