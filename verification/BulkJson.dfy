/**
  The JSON the agent sends (prepare_json of thread_handler.c): a bulk is
  assembled in one buffer with a comma behind every object, and the last comma is
  overwritten by the closing bracket.
  */
module BulkJson {
  import opened Text
  import opened Sequences
  import opened Json
  import opened JsonTheorems
  import Pipeline

  const JSON_SIZE: nat := 4096
  const BUFFER_SIZE: nat := JSON_SIZE * Pipeline.BULK_SIZE

  /** The fields every object starts with besides its time stamp. */
  datatype Header = Header(host: string, workflow: string, experiment: string, task: string)

  predicate GoodHeader(h: Header) {
    PlainText(h.host) && PlainText(h.workflow) && PlainText(h.experiment) && PlainText(h.task)
  }

  /** One string member of the format, with its comma. */
  function Field(name: string, text: string): string { "\"" + name + "\":\"" + text + "\"," }

  /** The object of one metric, as sprintf prints it without the trailing comma. */
  function ObjectText(h: Header, stamp: string, msg: string): string {
    "{" + (Field("@timestamp", stamp) + (Field("host", h.host) + (Field("WorkflowID", h.workflow)
    + (Field("ExperimentID", h.experiment) + (Field("task", h.task) + msg))))) + "}"
  }

  /** convert_time_to_char is a parameter. */
  type Clock = int -> string

  function MetricText(h: Header, clock: Clock, m: Pipeline.Metric): string {
    ObjectText(h, clock(m.timestamp), m.msg)
  }

  /** All objects, each with its comma. */
  function CommaTexts(h: Header, clock: Clock, ms: seq<Pipeline.Metric>): string {
    if ms == [] then "" else MetricText(h, clock, ms[0]) + "," + CommaTexts(h, clock, ms[1..])
  }

  /** The finished text: the last character gives way to the bracket, even when it is the opening one. */
  function BulkText(h: Header, clock: Clock, ms: seq<Pipeline.Metric>): string {
    var s := "[" + CommaTexts(h, clock, ms);
    s[..|s| - 1] + "]"
  }

  lemma {:induction false} CommaSnoc(h: Header, clock: Clock, ms: seq<Pipeline.Metric>, m: Pipeline.Metric)
    ensures CommaTexts(h, clock, ms + [m]) == CommaTexts(h, clock, ms) + (MetricText(h, clock, m) + ",")
  {
    hide MetricText;
    if ms == [] {
      assert ms + [m] == [m];
    } else {
      assert (ms + [m])[1..] == ms[1..] + [m];
      CommaSnoc(h, clock, ms[1..], m);
    }
  }

  lemma NoObjects(h: Header, clock: Clock)
    ensures CommaTexts(h, clock, []) == ""
  {
  }

  /** strcat */
  method StrCat(buf: array<char>, msg: string, ghost s: string)
    requires Holds(buf[..], 0, s) && NUL !in msg && |s| + |msg| < buf.Length
    modifies buf
    ensures Holds(buf[..], 0, s + msg)
  {
    var len := 0;
    assert forall i :: 0 <= i < |s| ==> buf[i] == buf[..][0..|s|][i];
    while buf[len] != NUL
      invariant len <= |s|
      decreases |s| - len
    {
      len := len + 1;
    }
    for i := 0 to |msg|
      invariant buf[..len + i] == s + msg[..i]
    {
      buf[len + i] := msg[i];
      assert msg[..i + 1] == msg[..i] + [msg[i]];
    }
    buf[len + |msg|] := NUL;
    assert buf[..len + |msg|] == s + msg && msg[..|msg|] == msg;
    assert buf[0..|s + msg|] == s + msg;
  }

  /** The non-NULL metrics a bulk starts with. */
  function Sent(data: seq<Option<Pipeline.Metric>>): seq<Pipeline.Metric> { Pipeline.UpToNull(data) }

  lemma {:induction false} SentPrefix(data: seq<Option<Pipeline.Metric>>, i: nat)
    requires i <= |data| && forall k :: 0 <= k < i ==> data[k].Some?
    ensures |Sent(data)| >= i && forall k :: 0 <= k < i ==> Sent(data)[k] == data[k].value
    ensures i == |data| || data[i].None? ==> |Sent(data)| == i
    ensures i < |data| && data[i].Some? ==> |Sent(data)| > i && Sent(data)[i] == data[i].value
  {
    if i > 0 {
      SentPrefix(data[1..], i - 1);
    }
  }

  /**
    prepare_json up to the hand-over. Each object with its comma and terminator must
    fit the local buffer; then the bulk fits the big one.
    */
  method PrepareJson(h: Header, clock: Clock, data: seq<Option<Pipeline.Metric>>) returns (json: array<char>)
    requires |data| == Pipeline.BULK_SIZE
    requires forall k :: 0 <= k < |Sent(data)| ==>
      NUL !in MetricText(h, clock, Sent(data)[k]) && |MetricText(h, clock, Sent(data)[k])| + 1 < JSON_SIZE
    ensures json.Length == BUFFER_SIZE && Holds(json[..], 0, BulkText(h, clock, Sent(data)))
  {
    hide MetricText, CommaTexts, Pipeline.UpToNull;
    NoObjects(h, clock);
    json := new char[BUFFER_SIZE](_ => NUL);
    json[0] := '[';
    assert json[0..1] == "[";
    ghost var s := "[";
    ghost var sent := Sent(data);
    var i := 0;
    SentPrefix(data, 0);
    while i < Pipeline.BULK_SIZE && data[i].Some?
      invariant i <= |sent| && i <= |data|
      invariant forall k :: 0 <= k < i ==> data[k].Some?
      invariant s == "[" + CommaTexts(h, clock, sent[..i])
      invariant fresh(json) && json.Length == BUFFER_SIZE && Holds(json[..], 0, s) && 1 <= |s| <= 1 + (JSON_SIZE - 1) * i
      decreases Pipeline.BULK_SIZE - i
    {
      SentPrefix(data, i);
      var msg := MetricText(h, clock, data[i].value) + ",";
      StrCat(json, msg, s);
      CommaSnoc(h, clock, sent[..i], sent[i]);
      assert sent[..i + 1] == sent[..i] + [sent[i]];
      s := s + msg;
      i := i + 1;
    }
    SentPrefix(data, i);
    assert sent[..i] == sent;
    CloseBracket(json, s);
  }

  /** json[strlen(json) - 1] = ']' */
  method CloseBracket(json: array<char>, ghost s: string)
    requires Holds(json[..], 0, s) && s != []
    modifies json
    ensures Holds(json[..], 0, s[..|s| - 1] + "]")
  {
    var len := 0;
    assert forall i :: 0 <= i < |s| ==> json[i] == json[..][0..|s|][i];
    while json[len] != NUL
      invariant len <= |s|
      decreases |s| - len
    {
      len := len + 1;
    }
    json[len - 1] := ']';
    assert json[..][0..len] == s[..len - 1] + "]";
  }

  // ------------------------------------------------------------- documents

  function Quoted(name: string, text: string, rest: MemberDocs): MemberDocs {
    MemberThen("", name, "", "", DString(text), "", rest)
  }

  function HeaderDocs(h: Header, stamp: string, body: MemberDocs): MemberDocs {
    Quoted("@timestamp", stamp, Quoted("host", h.host, Quoted("WorkflowID", h.workflow,
      Quoted("ExperimentID", h.experiment, Quoted("task", h.task, body)))))
  }

  function HeaderTree(h: Header, stamp: string): seq<Member> {
    [Member("@timestamp", JString(stamp)), Member("host", JString(h.host)), Member("WorkflowID", JString(h.workflow)),
     Member("ExperimentID", JString(h.experiment)), Member("task", JString(h.task))]
  }

  lemma QuotedText(name: string, text: string, rest: MemberDocs)
    ensures WriteMembers(Quoted(name, text, rest)) == Field(name, text) + WriteMembers(rest)
  {
    hide WriteMembers;
    UnfoldQuoted(name, text, rest);
    var value := "\"" + text + "\"";
    assert WriteMember("", name, "", "", value, "") == "\"" + name + "\":" + value;
    assert Field(name, text) == "\"" + name + "\":" + value + ",";
  }

  lemma UnfoldQuoted(name: string, text: string, rest: MemberDocs)
    ensures WriteMembers(Quoted(name, text, rest)) ==
            WriteMember("", name, "", "", "\"" + text + "\"", "") + "," + WriteMembers(rest)
  {
    hide WriteMember;
  }

  lemma ObjectIsDocument(h: Header, stamp: string, body: MemberDocs)
    ensures ObjectText(h, stamp, WriteMembers(body)) == Write(DObject(HeaderDocs(h, stamp, body)))
  {
    hide WriteMembers, Field;
    var d5 := Quoted("task", h.task, body);
    var d4 := Quoted("ExperimentID", h.experiment, d5);
    var d3 := Quoted("WorkflowID", h.workflow, d4);
    var d2 := Quoted("host", h.host, d3);
    QuotedText("task", h.task, body);
    QuotedText("ExperimentID", h.experiment, d5);
    QuotedText("WorkflowID", h.workflow, d4);
    QuotedText("host", h.host, d3);
    QuotedText("@timestamp", stamp, d2);
  }

  lemma ObjectTree(h: Header, stamp: string, body: MemberDocs)
    requires GoodHeader(h) && PlainText(stamp) && GoodMembers(body)
    ensures Good(DObject(HeaderDocs(h, stamp, body)))
    ensures Tree(DObject(HeaderDocs(h, stamp, body))) == JObject(HeaderTree(h, stamp) + MemberTrees(body))
  {
    hide PlainText, MemberTrees, GoodMembers, Quoted;
    ObjectOf(HeaderDocs(h, stamp, body));
    PlainKeys();
    var d5 := Quoted("task", h.task, body);
    var d4 := Quoted("ExperimentID", h.experiment, d5);
    var d3 := Quoted("WorkflowID", h.workflow, d4);
    var d2 := Quoted("host", h.host, d3);
    QuotedTree("task", h.task, body);
    QuotedTree("ExperimentID", h.experiment, d5);
    QuotedTree("WorkflowID", h.workflow, d4);
    QuotedTree("host", h.host, d3);
    QuotedTree("@timestamp", stamp, d2);
    FiveThen(Member("@timestamp", JString(stamp)), Member("host", JString(h.host)), Member("WorkflowID", JString(h.workflow)),
             Member("ExperimentID", JString(h.experiment)), Member("task", JString(h.task)), MemberTrees(body));
  }

  lemma ObjectOf(members: MemberDocs)
    ensures Good(DObject(members)) == GoodMembers(members) && Tree(DObject(members)) == JObject(MemberTrees(members))
  {
  }

  lemma FiveThen<T>(a: T, b: T, c: T, d: T, e: T, rest: seq<T>)
    ensures [a] + ([b] + ([c] + ([d] + ([e] + rest)))) == [a, b, c, d, e] + rest
  {
  }

  lemma PlainKeys()
    ensures PlainText("@timestamp") && PlainText("host") && PlainText("WorkflowID") && PlainText("ExperimentID")
    ensures PlainText("task")
  {
  }

  lemma QuotedTree(name: string, text: string, rest: MemberDocs)
    requires PlainText(name) && PlainText(text) && GoodMembers(rest)
    ensures GoodMembers(Quoted(name, text, rest))
    ensures MemberTrees(Quoted(name, text, rest)) == [Member(name, JString(text))] + MemberTrees(rest)
  {
  }

  /** Each message is a list of JSON members, written as the document at the same index. */
  ghost predicate Bodies(clock: Clock, ms: seq<Pipeline.Metric>, bodies: seq<MemberDocs>) {
    |bodies| == |ms| && forall i :: 0 <= i < |ms| ==>
      ms[i].msg == WriteMembers(bodies[i]) && GoodMembers(bodies[i]) && PlainText(clock(ms[i].timestamp))
  }

  function BulkDocs(h: Header, clock: Clock, ms: seq<Pipeline.Metric>, bodies: seq<MemberDocs>): ItemDocs
    requires ms != [] && |bodies| == |ms|
    decreases |ms|
  {
    var written := DObject(HeaderDocs(h, clock(ms[0].timestamp), bodies[0]));
    if |ms| == 1 then LastItem("", written, "") else ItemThen("", written, "", BulkDocs(h, clock, ms[1..], bodies[1..]))
  }

  /** The objects the bulk stands for, in order. */
  function BulkTrees(h: Header, clock: Clock, ms: seq<Pipeline.Metric>, bodies: seq<MemberDocs>): seq<Json>
    requires |bodies| == |ms|
  {
    if ms == [] then []
    else [JObject(HeaderTree(h, clock(ms[0].timestamp)) + MemberTrees(bodies[0]))]
         + BulkTrees(h, clock, ms[1..], bodies[1..])
  }

  lemma {:induction false} BulkIsDocument(h: Header, clock: Clock, ms: seq<Pipeline.Metric>, bodies: seq<MemberDocs>)
    requires ms != [] && GoodHeader(h) && Bodies(clock, ms, bodies)
    ensures var docs := BulkDocs(h, clock, ms, bodies);
            && CommaTexts(h, clock, ms) == WriteItems(docs) + "," && GoodItems(docs)
            && ItemTrees(docs) == BulkTrees(h, clock, ms, bodies)
    decreases |ms|
  {
    hide Write, Tree, Good, ObjectText, HeaderDocs, HeaderTree, PlainText, WriteMembers, GoodMembers, MemberTrees;
    var stamp := clock(ms[0].timestamp);
    var written := DObject(HeaderDocs(h, stamp, bodies[0]));
    ObjectIsDocument(h, stamp, bodies[0]);
    ObjectTree(h, stamp, bodies[0]);
    NoWhite();
    assert "" + Write(written) + "" == Write(written);
    if |ms| > 1 {
      BulkIsDocument(h, clock, ms[1..], bodies[1..]);
    } else {
      assert ms[1..] == [] && bodies[1..] == [];
    }
  }

  lemma NoWhite()
    ensures AllWs("")
  {
  }

  /** A bulk of one or more metrics is a JSON array of exactly its objects, in order. */
  lemma BulkParsesBack(h: Header, clock: Clock, ms: seq<Pipeline.Metric>, bodies: seq<MemberDocs>)
    requires ms != [] && GoodHeader(h) && Bodies(clock, ms, bodies)
    ensures ParseText(BulkText(h, clock, ms)) == Read(JArray(BulkTrees(h, clock, ms, bodies)), [])
  {
    hide CommaTexts, WriteItems, GoodItems, ItemTrees, BulkDocs, BulkTrees, ParseText, GoodHeader;
    BulkIsDocument(h, clock, ms, bodies);
    var docs := BulkDocs(h, clock, ms, bodies);
    ReadBack(DArray(docs));
    var s := "[" + CommaTexts(h, clock, ms);
    assert s[..|s| - 1] == "[" + WriteItems(docs);
  }

  /** A bulk is readable exactly when it has a metric: the text of an empty one is a lone bracket. */
  lemma ReadableIffNonempty(h: Header, clock: Clock, ms: seq<Pipeline.Metric>, bodies: seq<MemberDocs>)
    requires GoodHeader(h) && Bodies(clock, ms, bodies)
    ensures ParseText(BulkText(h, clock, ms)).Read? <==> ms != []
  {
    if ms == [] {
      assert BulkText(h, clock, ms) == "]";
      assert "]"[0..] == "]";
    } else {
      BulkParsesBack(h, clock, ms, bodies);
    }
  }
}
