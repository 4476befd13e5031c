/**
  The query text of server/routes/v1/statistics.js: a text put together by
  concatenation, with a trailing comma sliced off and a pair of braces sliced off.
  */
module StatsQuery {
  import opened Sequences
  import opened Json
  import opened JsonTheorems
  import opened JsonParts

  // ------------------------------------------------------------- the texts

  function ValueText(text: string): string { Braces(Blank(Key("value") + Quote(text) + " ")) }

  /** type_filter */
  function TypeFilter(kind: Option<string>): string {
    if kind.None? then ""
    else Key("query") + Braces(Key("filtered") + Braces(Key("filter") + Braces(Key("type") + ValueText(kind.value)))) + ","
  }

  /** date_filter */
  function DateFilter(from: Option<string>, to: Option<string>): string {
    if from.None? || to.None? then ""
    else
      Braces(Blank(Key("range") + Braces(Key("@timestamp") + Braces(
        Key("from") + Quote(from.value) + "," + (Key("to") + Quote(to.value))))))
  }

  function StatsText(field: string): string {
    Braces(WideKey("extended_stats") + Braces(WideKey("field") + Quote(field)))
  }

  function ExtremeText(field: string, order: string): string {
    Braces(Key("top_hits") + Braces(
      Key("size") + "1" + "," + (Key("sort") + ("[" + Braces(Key(field) + Braces(Key("order") + Quote(order))) + "]"))))
  }

  /** What the loop appends for one metric. */
  function FieldText(field: string): string {
    WideKey(field + "_Stats") + StatsText(field) + ","
    + (Key("Minimum_" + field) + ExtremeText(field, "asc") + ","
       + (Key("Maximum_" + field) + ExtremeText(field, "desc") + ","))
  }

  function FieldsText(fields: seq<string>): string {
    if fields == [] then "" else FieldText(fields[0]) + FieldsText(fields[1..])
  }

  /** slice(0, -1) */
  function DropLast(s: string): string { if s == [] then [] else s[..|s| - 1] }

  /** slice(1, -1) */
  function DropEnds(s: string): string { if |s| < 2 then [] else s[1..|s| - 1] }

  function AggregationText(fields: seq<string>, kind: Option<string>): string {
    DropLast("{" + TypeFilter(kind) + (Key("aggs") + ("{" + FieldsText(fields)))) + "}" + "}"
  }

  /** The text of filter_type. */
  function TermFilters(kind: Option<string>, host: Option<string>): string {
    (if kind.None? then "" else Braces(Blank(Key("type") + ValueText(kind.value))) + ",")
    + (if host.None? then "" else Braces(Blank(Key("prefix") + Braces(Blank(Key("host") + Quote(host.value) + " ")))) + ",")
  }

  function FilterText(fields: seq<string>, from: Option<string>, to: Option<string>, kind: Option<string>,
                      host: Option<string>): string {
    Braces(Key("aggs") + Braces(Key("filtered_stats") + Braces(
      Key("filter") + Braces(Key("and") + ("[" + (TermFilters(kind, host) + DateFilter(from, to)) + "]")) + ","
      + DropEnds(AggregationText(fields, None)))))
  }

  // -------------------------------------------------------- the operations

  lemma {:induction false} FieldsSnoc(fields: seq<string>, field: string)
    ensures FieldsText(fields + [field]) == FieldsText(fields) + FieldText(field)
  {
    hide FieldText;
    if fields == [] {
      assert fields + [field] == [field];
      assert FieldsText([field][1..]) == "";
    } else {
      assert (fields + [field])[1..] == fields[1..] + [field];
      FieldsSnoc(fields[1..], field);
    }
  }

  /** aggregation_by */
  method AggregationBy(fields: seq<string>, kind: Option<string>) returns (query: string)
    ensures query == AggregationText(fields, kind)
    ensures PlainTexts(fields) && PlainOption(kind) ==>
      ParseText(query) == if fields != [] then Read(AggregationTree(fields, kind), []) else Failed
  {
    hide FieldText, FieldsText, TypeFilter, Key, ParseText, AggregationTree, PlainTexts, PlainOption;
    query := "{" + TypeFilter(kind) + (Key("aggs") + "{");
    ghost var head := query;
    EmptyFields();
    for i := 0 to |fields|
      invariant query == head + FieldsText(fields[..i])
    {
      FieldsSnoc(fields[..i], fields[i]);
      assert fields[..i + 1] == fields[..i] + [fields[i]];
      query := query + FieldText(fields[i]);
    }
    assert fields[..|fields|] == fields;
    assert query == "{" + TypeFilter(kind) + (Key("aggs") + ("{" + FieldsText(fields)));
    query := DropLast(query);
    query := query + "}" + "}";
    if PlainTexts(fields) && PlainOption(kind) {
      AggregationReadable(fields, kind);
    }
  }

  lemma EmptyFields()
    ensures FieldsText([]) == ""
  {
  }

  /** filter_and_aggregate_by */
  method FilterAndAggregateBy(fields: seq<string>, from: Option<string>, to: Option<string>, kind: Option<string>,
                              host: Option<string>) returns (query: string)
    ensures query == FilterText(fields, from, to, kind, host)
    ensures PlainTexts(fields) && PlainFilters(from, to, kind, host) ==>
      ParseText(query) == if fields != [] && ListCloses(from, to, kind, host)
                          then Read(FilterTree(fields, from, to, kind, host), []) else Failed
  {
    hide Key, Braces, Blank, ValueText, DateFilter, AggregationText, ParseText, FilterTree, PlainTexts, PlainFilters;
    var filters := "";
    if kind.Some? {
      filters := Braces(Blank(Key("type") + ValueText(kind.value))) + ",";
    }
    if host.Some? {
      filters := filters + (Braces(Blank(Key("prefix") + Braces(Blank(Key("host") + Quote(host.value) + " ")))) + ",");
    }
    var aggregation := AggregationBy(fields, None);
    assert filters == TermFilters(kind, host);
    query := Braces(Key("aggs") + Braces(Key("filtered_stats") + Braces(
      Key("filter") + Braces(Key("and") + ("[" + (filters + DateFilter(from, to)) + "]")) + ","
      + DropEnds(aggregation))));
    if PlainTexts(fields) && PlainFilters(from, to, kind, host) {
      FilterReadable(fields, from, to, kind, host);
    }
  }

  /** The parameter metric of a request: one name, or a list of names. */
  datatype Metrics = One(name: string) | Many(names: seq<string>)

  function FieldsOf(m: Metrics): seq<string> { if m.One? then [m.name] else m.names }

  /** The body handle_response sends; it answers with an error when metric is missing. */
  method QueryBody(metric: Option<Metrics>, from: Option<string>, to: Option<string>, kind: Option<string>,
                   host: Option<string>) returns (body: Option<string>)
    ensures body.None? <==> metric.None?
    ensures metric.Some? ==> body.value == BodyText(FieldsOf(metric.value), from, to, kind, host)
    ensures metric.Some? ==> FieldsOf(metric.value) == match metric.value case One(name) => [name] case Many(names) => names
    ensures metric.Some? && PlainTexts(FieldsOf(metric.value)) && PlainFilters(from, to, kind, host) ==>
      ParseText(body.value) == BodyRead(FieldsOf(metric.value), from, to, kind, host)
  {
    hide FilterText, AggregationText, ParseText, FilterTree, AggregationTree, PlainTexts, PlainFilters, BodyRead;
    if metric.None? {
      return None;
    }
    var fields := FieldsOf(metric.value);
    var query := AggregationBy(fields, kind);
    if from.Some? && to.Some? {
      query := FilterAndAggregateBy(fields, from, to, kind, host);
    }
    if PlainTexts(fields) && PlainFilters(from, to, kind, host) {
      BodyReadable(fields, from, to, kind, host);
    }
    return Some(query);
  }

  /** What the server reads in the request body. */
  function BodyRead(fields: seq<string>, from: Option<string>, to: Option<string>, kind: Option<string>,
                    host: Option<string>): Result<Json> {
    if fields == [] then Failed
    else if from.Some? && to.Some? then Read(FilterTree(fields, from, to, kind, host), [])
    else Read(AggregationTree(fields, kind), [])
  }

  function BodyText(fields: seq<string>, from: Option<string>, to: Option<string>, kind: Option<string>,
                    host: Option<string>): string {
    if from.Some? && to.Some? then FilterText(fields, from, to, kind, host) else AggregationText(fields, kind)
  }

  // ------------------------------------------------------ the intended trees

  function Object(name: string, value: Json): Json { JObject([Member(name, value)]) }

  function ExtremeTree(field: string, order: string): Json {
    Object("top_hits", JObject([Member("size", JNumber("1")),
                                Member("sort", JArray([Object(field, Object("order", JString(order)))]))]))
  }

  /** The three aggregations of one metric. */
  function FieldTrees(field: string): seq<Member> {
    [Member(field + "_Stats", Object("extended_stats", Object("field", JString(field)))),
     Member("Minimum_" + field, ExtremeTree(field, "asc")),
     Member("Maximum_" + field, ExtremeTree(field, "desc"))]
  }

  function FieldsTrees(fields: seq<string>): seq<Member> {
    if fields == [] then [] else FieldTrees(fields[0]) + FieldsTrees(fields[1..])
  }

  function AggsMember(fields: seq<string>): Member { Member("aggs", JObject(FieldsTrees(fields))) }

  function KindTree(kind: string): Json { Object("type", Object("value", JString(kind))) }

  function AggregationTree(fields: seq<string>, kind: Option<string>): Json {
    if kind.None? then JObject([AggsMember(fields)])
    else JObject([Member("query", Object("filtered", Object("filter", KindTree(kind.value)))), AggsMember(fields)])
  }

  function HostTree(host: string): Json { Object("prefix", Object("host", JString(host))) }

  function RangeTree(from: string, to: string): Json {
    Object("range", Object("@timestamp", JObject([Member("from", JString(from)), Member("to", JString(to))])))
  }

  function FilterTrees(from: Option<string>, to: Option<string>, kind: Option<string>, host: Option<string>): seq<Json> {
    (if kind.Some? then [KindTree(kind.value)] else [])
    + (if host.Some? then [HostTree(host.value)] else [])
    + (if from.Some? && to.Some? then [RangeTree(from.value, to.value)] else [])
  }

  function FilterTree(fields: seq<string>, from: Option<string>, to: Option<string>, kind: Option<string>,
                      host: Option<string>): Json {
    Object("aggs", Object("filtered_stats", JObject([
      Member("filter", Object("and", JArray(FilterTrees(from, to, kind, host)))), AggsMember(fields)])))
  }

  predicate PlainOption(o: Option<string>) { o.Some? ==> PlainText(o.value) }

  predicate PlainTexts(ts: seq<string>) { forall i :: 0 <= i < |ts| ==> PlainText(ts[i]) }

  // ------------------------------------------------------- text and its tree

  lemma ValueIs(kind: string)
    requires PlainText(kind)
    ensures IsValue(ValueText(kind), Object("value", JString(kind)))
  {
    hide IsValue, AreMembers, Key, Braces, Blank, Quote;
    StringPart(kind);
    BlankPart("value", Quote(kind), JString(kind), " ");
    ObjectPart(Blank(Key("value") + Quote(kind) + " "), [Member("value", JString(kind))]);
  }

  /** One member in braces. */
  lemma SoleMember(name: string, text: string, tree: Json)
    requires PlainText(name) && IsValue(text, tree)
    ensures IsValue(Braces(Key(name) + text), Object(name, tree))
  {
    LastPart(name, text, tree);
    ObjectPart(Key(name) + text, [Member(name, tree)]);
  }

  lemma SoleWideMember(name: string, text: string, tree: Json)
    requires PlainText(name) && IsValue(text, tree)
    ensures IsValue(Braces(WideKey(name) + text), Object(name, tree))
  {
    WideLastPart(name, text, tree);
    ObjectPart(WideKey(name) + text, [Member(name, tree)]);
  }

  lemma StatsIs(field: string)
    requires PlainText(field)
    ensures IsValue(StatsText(field), Object("extended_stats", Object("field", JString(field))))
  {
    hide IsValue, WideKey, Braces, Quote;
    StringPart(field);
    SoleWideMember("field", Quote(field), JString(field));
    SoleWideMember("extended_stats", Braces(WideKey("field") + Quote(field)), Object("field", JString(field)));
  }

  lemma SortIs(field: string, order: string)
    requires PlainText(field) && PlainText(order)
    ensures IsValue("[" + Braces(Key(field) + Braces(Key("order") + Quote(order))) + "]",
                    JArray([Object(field, Object("order", JString(order)))]))
  {
    hide IsValue, AreItems, Key, Braces, Quote;
    StringPart(order);
    SoleMember("order", Quote(order), JString(order));
    var inner := Braces(Key("order") + Quote(order));
    SoleMember(field, inner, Object("order", JString(order)));
    LastItemPart(Braces(Key(field) + inner), Object(field, Object("order", JString(order))));
    ArrayPart(Braces(Key(field) + inner), [Object(field, Object("order", JString(order)))]);
  }

  lemma ExtremeIs(field: string, order: string)
    requires PlainText(field) && PlainText(order)
    ensures IsValue(ExtremeText(field, order), ExtremeTree(field, order))
  {
    hide IsValue, AreMembers, Key, Braces, Quote;
    SortIs(field, order);
    OnePart();
    var sort := "[" + Braces(Key(field) + Braces(Key("order") + Quote(order))) + "]";
    var tree := JArray([Object(field, Object("order", JString(order)))]);
    LastPart("sort", sort, tree);
    ThenPart("size", "1", JNumber("1"), Key("sort") + sort, [Member("sort", tree)]);
    var members := Key("size") + "1" + "," + (Key("sort") + sort);
    assert [Member("size", JNumber("1"))] + [Member("sort", tree)] == [Member("size", JNumber("1")), Member("sort", tree)];
    ObjectPart(members, [Member("size", JNumber("1")), Member("sort", tree)]);
    SoleMember("top_hits", Braces(members), JObject([Member("size", JNumber("1")), Member("sort", tree)]));
  }

  lemma PlainNames(field: string)
    requires PlainText(field)
    ensures PlainText(field + "_Stats") && PlainText("Minimum_" + field) && PlainText("Maximum_" + field)
    ensures PlainText("asc") && PlainText("desc") && PlainText("aggs")
  {
  }

  /** The aggregations of one metric, without the comma behind the last. */
  function FieldMembers(field: string): string {
    WideKey(field + "_Stats") + StatsText(field) + ","
    + (Key("Minimum_" + field) + ExtremeText(field, "asc") + ","
       + (Key("Maximum_" + field) + ExtremeText(field, "desc")))
  }

  /** The comma-separated members of all metrics. */
  function FieldsMembers(fields: seq<string>): string
    requires fields != []
  {
    FieldMembers(fields[0]) + if |fields| == 1 then "" else "," + FieldsMembers(fields[1..])
  }

  lemma FieldIsMembers(field: string)
    ensures FieldText(field) == FieldMembers(field) + ","
  {
    hide WideKey, Key, StatsText, ExtremeText;
    var a, b, c := WideKey(field + "_Stats") + StatsText(field) + ",",
      Key("Minimum_" + field) + ExtremeText(field, "asc") + ",", Key("Maximum_" + field) + ExtremeText(field, "desc");
    assert a + (b + (c + ",")) == a + (b + c) + ",";
  }

  lemma {:induction false} FieldsAreMembers(fields: seq<string>)
    requires fields != []
    ensures FieldsText(fields) == FieldsMembers(fields) + ","
    decreases |fields|
  {
    hide FieldText, FieldMembers;
    FieldIsMembers(fields[0]);
    if |fields| > 1 {
      FieldsAreMembers(fields[1..]);
    } else {
      assert fields[1..] == [];
    }
  }

  lemma FieldLast(field: string)
    requires PlainText(field)
    ensures AreMembers(FieldMembers(field), FieldTrees(field))
  {
    hide IsValue, AreMembers, Key, WideKey, StatsText, ExtremeText, ExtremeTree, PlainText;
    PlainNames(field);
    StatsIs(field);
    ExtremeIs(field, "asc");
    ExtremeIs(field, "desc");
    var low, high := ExtremeTree(field, "asc"), ExtremeTree(field, "desc");
    LastPart("Maximum_" + field, ExtremeText(field, "desc"), high);
    var last := Key("Maximum_" + field) + ExtremeText(field, "desc");
    ThenPart("Minimum_" + field, ExtremeText(field, "asc"), low, last, [Member("Maximum_" + field, high)]);
    WideThenPart(field + "_Stats", StatsText(field), Object("extended_stats", Object("field", JString(field))),
                 Key("Minimum_" + field) + ExtremeText(field, "asc") + "," + last,
                 [Member("Minimum_" + field, low)] + [Member("Maximum_" + field, high)]);
    assert FieldTrees(field) == [Member(field + "_Stats", Object("extended_stats", Object("field", JString(field))))]
      + ([Member("Minimum_" + field, low)] + [Member("Maximum_" + field, high)]);
  }

  lemma {:induction false} FieldsAre(fields: seq<string>)
    requires fields != [] && PlainTexts(fields)
    ensures AreMembers(FieldsMembers(fields), FieldsTrees(fields))
    decreases |fields|
  {
    hide IsValue, FieldMembers, FieldTrees, PlainText;
    FieldLast(fields[0]);
    if |fields| > 1 {
      FieldsAre(fields[1..]);
      MembersThen(FieldMembers(fields[0]), FieldTrees(fields[0]), FieldsMembers(fields[1..]), FieldsTrees(fields[1..]));
    } else {
      assert fields[1..] == [] && FieldMembers(fields[0]) + "" == FieldMembers(fields[0]);
    }
  }

  // ----------------------------------------------------------- the theorems

  /** With a metric, the slice removes the comma behind the last aggregation and nothing else. */
  lemma SliceRemovesComma(fields: seq<string>, kind: Option<string>)
    requires fields != []
    ensures AggregationText(fields, kind) == Braces(TypeFilter(kind) + (Key("aggs") + Braces(FieldsMembers(fields))))
    ensures DropEnds(AggregationText(fields, None)) == Key("aggs") + Braces(FieldsMembers(fields))
  {
    hide TypeFilter, Key, FieldsText, FieldsMembers;
    FieldsAreMembers(fields);
    var members := FieldsMembers(fields);
    Unsliced(TypeFilter(kind), Key("aggs"), members);
    Unsliced(TypeFilter(None), Key("aggs"), members);
    NoFilter();
    var inner := Key("aggs") + Braces(members);
    assert "" + inner == inner;
    assert Braces(inner)[1..|Braces(inner)| - 1] == inner;
  }

  lemma NoFilter()
    ensures TypeFilter(None) == ""
  {
  }

  lemma Unsliced(head: string, key: string, members: string)
    ensures DropLast("{" + head + (key + ("{" + (members + ",")))) + "}" + "}" == Braces(head + (key + Braces(members)))
  {
    var s := "{" + head + (key + ("{" + (members + ",")));
    assert s == "{" + (head + (key + ("{" + members))) + ",";
    assert DropLast(s) == "{" + (head + (key + ("{" + members)));
    assert key + ("{" + members) + "}" == key + Braces(members);
    assert head + (key + ("{" + members)) + "}" == head + (key + Braces(members));
  }

  lemma QueryIs(kind: string)
    requires PlainText(kind)
    ensures IsValue(Braces(Key("filtered") + Braces(Key("filter") + Braces(Key("type") + ValueText(kind)))),
                    Object("filtered", Object("filter", KindTree(kind))))
  {
    hide IsValue, Key, Braces, ValueText;
    ValueIs(kind);
    var value := ValueText(kind);
    SoleMember("type", value, Object("value", JString(kind)));
    var sole := Braces(Key("type") + value);
    SoleMember("filter", sole, KindTree(kind));
    SoleMember("filtered", Braces(Key("filter") + sole), Object("filter", KindTree(kind)));
  }

  /** The query of aggregation_by reads as the intended tree. */
  lemma AggregationIs(fields: seq<string>, kind: Option<string>)
    requires fields != [] && PlainTexts(fields) && PlainOption(kind)
    ensures IsValue(AggregationText(fields, kind), AggregationTree(fields, kind))
  {
    hide IsValue, AreMembers, Key, Braces, ValueText, FieldsMembers, FieldsTrees, AggregationText;
    SliceRemovesComma(fields, kind);
    FieldsAre(fields);
    ObjectPart(FieldsMembers(fields), FieldsTrees(fields));
    var aggs := Key("aggs") + Braces(FieldsMembers(fields));
    LastPart("aggs", Braces(FieldsMembers(fields)), JObject(FieldsTrees(fields)));
    if kind.None? {
      assert "" + aggs == aggs;
      ObjectPart(aggs, [AggsMember(fields)]);
    } else {
      QueryIs(kind.value);
      var query := Braces(Key("filtered") + Braces(Key("filter") + Braces(Key("type") + ValueText(kind.value))));
      var tree := Object("filtered", Object("filter", KindTree(kind.value)));
      ThenPart("query", query, tree, aggs, [AggsMember(fields)]);
      assert [Member("query", tree)] + [AggsMember(fields)] == [Member("query", tree), AggsMember(fields)];
      assert Key("query") + query + "," + aggs == TypeFilter(kind) + aggs;
      ObjectPart(TypeFilter(kind) + aggs, [Member("query", tree), AggsMember(fields)]);
    }
  }

  function KindText(kind: string): string { Braces(Blank(Key("type") + ValueText(kind))) }

  function HostText(host: string): string {
    Braces(Blank(Key("prefix") + Braces(Blank(Key("host") + Quote(host) + " "))))
  }

  function RangeText(from: string, to: string): string { DateFilter(Some(from), Some(to)) }

  lemma BlankMember(name: string, text: string, tree: Json, after: string)
    requires PlainText(name) && IsValue(text, tree) && AllWs(after)
    ensures IsValue(Braces(Blank(Key(name) + text + after)), Object(name, tree))
  {
    BlankPart(name, text, tree, after);
    ObjectPart(Blank(Key(name) + text + after), [Member(name, tree)]);
  }

  lemma KindIs(kind: string)
    requires PlainText(kind)
    ensures IsValue(KindText(kind), KindTree(kind))
  {
    hide IsValue, Key, Braces, Blank, ValueText;
    ValueIs(kind);
    BlankMember("type", ValueText(kind), Object("value", JString(kind)), "");
    assert Key("type") + ValueText(kind) + "" == Key("type") + ValueText(kind);
  }

  lemma HostIs(host: string)
    requires PlainText(host)
    ensures IsValue(HostText(host), HostTree(host))
  {
    hide IsValue, Key, Braces, Blank, Quote;
    StringPart(host);
    BlankMember("host", Quote(host), JString(host), " ");
    var inner := Braces(Blank(Key("host") + Quote(host) + " "));
    BlankMember("prefix", inner, Object("host", JString(host)), "");
    assert Key("prefix") + inner + "" == Key("prefix") + inner;
  }

  lemma RangeIs(from: string, to: string)
    requires PlainText(from) && PlainText(to)
    ensures IsValue(RangeText(from, to), RangeTree(from, to))
  {
    hide IsValue, AreMembers, Key, Braces, Blank, Quote;
    StringPart(from);
    StringPart(to);
    LastPart("to", Quote(to), JString(to));
    ThenPart("from", Quote(from), JString(from), Key("to") + Quote(to), [Member("to", JString(to))]);
    var members := Key("from") + Quote(from) + "," + (Key("to") + Quote(to));
    var trees := [Member("from", JString(from)), Member("to", JString(to))];
    assert [Member("from", JString(from))] + [Member("to", JString(to))] == trees;
    ObjectPart(members, trees);
    SoleMember("@timestamp", Braces(members), JObject(trees));
    var inner := Braces(Key("@timestamp") + Braces(members));
    BlankMember("range", inner, Object("@timestamp", JObject(trees)), "");
    assert Key("range") + inner + "" == Key("range") + inner;
  }

  /** The filter list closes without a trailing comma. */
  predicate ListCloses(from: Option<string>, to: Option<string>, kind: Option<string>, host: Option<string>) {
    (from.Some? && to.Some?) || (kind.None? && host.None?)
  }

  function ListText(from: Option<string>, to: Option<string>, kind: Option<string>, host: Option<string>): string {
    "[" + (TermFilters(kind, host) + DateFilter(from, to)) + "]"
  }

  predicate PlainFilters(from: Option<string>, to: Option<string>, kind: Option<string>, host: Option<string>) {
    PlainOption(from) && PlainOption(to) && PlainOption(kind) && PlainOption(host)
  }

  lemma TermText(kind: Option<string>, host: Option<string>)
    ensures TermFilters(kind, host) == (if kind.None? then "" else KindText(kind.value) + ",")
                                       + (if host.None? then "" else HostText(host.value) + ",")
  {
    hide Key, Braces, Blank, ValueText, Quote;
  }

  lemma ListIs(from: Option<string>, to: Option<string>, kind: Option<string>, host: Option<string>)
    requires PlainFilters(from, to, kind, host) && ListCloses(from, to, kind, host)
    ensures IsValue(ListText(from, to, kind, host), JArray(FilterTrees(from, to, kind, host)))
  {
    hide IsValue, AreItems, KindText, HostText, DateFilter, TermFilters, KindTree, HostTree, RangeTree, PlainText;
    TermText(kind, host);
    NoDates(from, to);
    if from.None? || to.None? {
      assert ListText(from, to, kind, host) == "[]";
      assert FilterTrees(from, to, kind, host) == [];
      NothingPart();
    } else {
      var text := DateFilter(from, to);
      var trees := [RangeTree(from.value, to.value)];
      RangeIs(from.value, to.value);
      LastItemPart(text, trees[0]);
      if host.Some? {
        HostIs(host.value);
        ItemThenPart(HostText(host.value), HostTree(host.value), text, trees);
        text, trees := HostText(host.value) + "," + text, [HostTree(host.value)] + trees;
      }
      if kind.Some? {
        KindIs(kind.value);
        ItemThenPart(KindText(kind.value), KindTree(kind.value), text, trees);
        text, trees := KindText(kind.value) + "," + text, [KindTree(kind.value)] + trees;
      }
      assert TermFilters(kind, host) + DateFilter(from, to) == text;
      assert trees == FilterTrees(from, to, kind, host);
      ArrayPart(text, trees);
    }
  }

  lemma NoDates(from: Option<string>, to: Option<string>)
    ensures from.None? || to.None? ==> DateFilter(from, to) == ""
    ensures from.Some? && to.Some? ==> DateFilter(from, to) == RangeText(from.value, to.value)
  {
    hide Key, Braces, Blank, Quote;
  }

  /** A list that ends in a comma is not an array, whatever follows. */
  lemma ListFails(from: Option<string>, to: Option<string>, kind: Option<string>, host: Option<string>, rest: string)
    requires PlainFilters(from, to, kind, host) && !ListCloses(from, to, kind, host)
    ensures Value(ListText(from, to, kind, host) + rest).Failed?
  {
    hide IsValue, KindText, HostText, DateFilter, TermFilters, KindTree, HostTree, Value, Items, PlainText;
    TermText(kind, host);
    NoDates(from, to);
    var text := "]" + rest;
    EndsList(rest);
    if host.Some? {
      HostIs(host.value);
      ItemThenFails(HostText(host.value), HostTree(host.value), text);
      text := HostText(host.value) + ("," + text);
      ItemStart(HostText(host.value), HostTree(host.value), "," + ("]" + rest));
    }
    if kind.Some? {
      KindIs(kind.value);
      ItemThenFails(KindText(kind.value), KindTree(kind.value), text);
      ItemStart(KindText(kind.value), KindTree(kind.value), "," + text);
      text := KindText(kind.value) + ("," + text);
    }
    assert ListText(from, to, kind, host) + rest == "[" + text;
    ArrayFails(text);
  }

  lemma EndsList(rest: string)
    ensures Items(SkipWs("]" + rest)).Failed?
  {
    NoValue(rest);
  }

  lemma ItemStart(text: string, tree: Json, more: string)
    requires IsValue(text, tree)
    ensures text + more != [] && !IsWs((text + more)[0]) && (text + more)[0] != ']' && SkipWs(text + more) == text + more
  {
    ValueStart(text, tree);
  }

  /** The query of filter_and_aggregate_by reads as the intended tree. */
  lemma FilterIs(fields: seq<string>, from: Option<string>, to: Option<string>, kind: Option<string>, host: Option<string>)
    requires fields != [] && PlainTexts(fields) && PlainFilters(from, to, kind, host) && ListCloses(from, to, kind, host)
    ensures IsValue(FilterText(fields, from, to, kind, host), FilterTree(fields, from, to, kind, host))
  {
    hide IsValue, AreMembers, Key, Braces, FieldsMembers, FieldsTrees, AggregationText, TermFilters, DateFilter,
      FilterTrees, PlainText, ListText, FilterText, PlainTexts, DropEnds;
    OpenFilter(fields, from, to, kind, host);
    SliceRemovesComma(fields, None);
    FieldsAre(fields);
    PlainNames("");
    ObjectPart(FieldsMembers(fields), FieldsTrees(fields));
    LastPart("aggs", Braces(FieldsMembers(fields)), JObject(FieldsTrees(fields)));
    ListIs(from, to, kind, host);
    var list := JArray(FilterTrees(from, to, kind, host));
    SoleMember("and", ListText(from, to, kind, host), list);
    var and := Braces(Key("and") + ListText(from, to, kind, host));
    var aggs := Key("aggs") + Braces(FieldsMembers(fields));
    ThenPart("filter", and, Object("and", list), aggs, [AggsMember(fields)]);
    var trees := [Member("filter", Object("and", list)), AggsMember(fields)];
    assert [Member("filter", Object("and", list))] + [AggsMember(fields)] == trees;
    var members := Key("filter") + and + "," + aggs;
    ObjectPart(members, trees);
    SoleMember("filtered_stats", Braces(members), JObject(trees));
    SoleMember("aggs", Braces(Key("filtered_stats") + Braces(members)), Object("filtered_stats", JObject(trees)));
  }

  /** Without a metric the slice takes the opening brace of the aggregations. */
  lemma SliceTakesBrace(kind: Option<string>)
    ensures AggregationText([], kind) == "{" + (TypeFilter(kind) + (Key("aggs") + "}}"))
    ensures DropEnds(AggregationText([], None)) == Key("aggs") + "}"
  {
    hide TypeFilter, Key;
    EmptyFields();
    NoFilter();
    BraceTaken(TypeFilter(kind), Key("aggs"));
    BraceTaken("", Key("aggs"));
    assert "" + (Key("aggs") + "}}") == Key("aggs") + "}}";
    var s := "{" + (Key("aggs") + "}}");
    assert s == "{" + (Key("aggs") + "}") + "}";
  }

  lemma BraceTaken(head: string, key: string)
    ensures DropLast("{" + head + (key + ("{" + ""))) + "}" + "}" == "{" + (head + (key + "}}"))
  {
    var s := "{" + head + (key + ("{" + ""));
    assert s == "{" + (head + key) + "{";
    assert DropLast(s) == "{" + (head + key);
  }

  lemma AggregationFails(kind: Option<string>)
    requires PlainOption(kind)
    ensures ParseText(AggregationText([], kind)).Failed?
  {
    hide IsValue, Key, Braces, ValueText, AggregationText, Value, Members, PlainText;
    SliceTakesBrace(kind);
    PlainNames("");
    var more := Key("aggs") + "}}";
    assert "}" + "}" == "}}";
    NoValue("}");
    ValueFails("aggs", "}}");
    if kind.None? {
      assert "" + more == more;
      ObjectFails("aggs", "}}");
    } else {
      QueryIs(kind.value);
      KeyStart("aggs", "}}");
      var query := Braces(Key("filtered") + Braces(Key("filter") + Braces(Key("type") + ValueText(kind.value))));
      MemberThenFails("query", query, Object("filtered", Object("filter", KindTree(kind.value))), more);
      ObjectFails("query", query + ("," + more));
      assert TypeFilter(kind) + more == Key("query") + (query + ("," + more));
    }
    TextFails(AggregationText([], kind));
  }

  /** The innermost object that holds the list, and everything behind it. */
  function FilterAndRest(list: string, tail: string): string {
    "{" + (Key("filter") + ("{" + (Key("and") + (list + ("}," + (tail + "}}}"))))))
  }

  lemma ListBreaks(from: Option<string>, to: Option<string>, kind: Option<string>, host: Option<string>, tail: string)
    requires PlainFilters(from, to, kind, host) && !ListCloses(from, to, kind, host)
    ensures Value(FilterAndRest(ListText(from, to, kind, host), tail)).Failed?
  {
    hide Key, Value, ListText, PlainText, PlainFilters, ListCloses;
    PlainNames("");
    var list := ListText(from, to, kind, host);
    var rest := "}," + (tail + "}}}");
    ListStart(from, to, kind, host);
    ListFails(from, to, kind, host, rest);
    NestedFails("and", list + rest);
    NestedFails("filter", "{" + (Key("and") + (list + rest)));
  }

  lemma TailBreaks(list: string, tree: Json)
    requires IsValue(list, tree)
    ensures Value(FilterAndRest(list, Key("aggs") + "}")).Failed?
  {
    hide IsValue, Key, Value, Members, PlainText;
    PlainNames("");
    SoleMember("and", list, tree);
    ClosingFails();
    var closing := Key("aggs") + ("}" + "}}}");
    MemberThenFails("filter", Braces(Key("and") + list), Object("and", tree), closing);
    ObjectFails("filter", Braces(Key("and") + list) + ("," + closing));
    assert Braces(Key("and") + list) + ("," + closing) == "{" + (Key("and") + (list + ("}," + (Key("aggs") + "}" + "}}}"))));
  }

  /** Either defect makes the whole filtered query unreadable. */
  lemma FilterFails(fields: seq<string>, from: Option<string>, to: Option<string>, kind: Option<string>, host: Option<string>)
    requires PlainTexts(fields) && PlainFilters(from, to, kind, host)
    requires fields == [] || !ListCloses(from, to, kind, host)
    ensures ParseText(FilterText(fields, from, to, kind, host)).Failed?
  {
    hide IsValue, Key, AggregationText, Value, PlainText, ListText, ParseText, PlainFilters, FilterTrees, Braces,
      DropEnds, FilterAndRest, FilterText, ListCloses;
    var list, tail := ListText(from, to, kind, host), DropEnds(AggregationText(fields, None));
    if !ListCloses(from, to, kind, host) {
      ListBreaks(from, to, kind, host, tail);
    } else {
      ListIs(from, to, kind, host);
      SliceTakesBrace(None);
      TailBreaks(list, JArray(FilterTrees(from, to, kind, host)));
    }
    OpenFilter(fields, from, to, kind, host);
    Regrouped(list, tail);
    OuterFails(FilterAndRest(list, tail));
  }

  lemma OuterFails(inner: string)
    requires inner != [] && !IsWs(inner[0]) && Value(inner).Failed?
    ensures ParseText("{" + (Key("aggs") + ("{" + (Key("filtered_stats") + inner)))).Failed?
  {
    hide Key, Value;
    PlainNames("");
    NestedFails("filtered_stats", inner);
    NestedFails("aggs", "{" + (Key("filtered_stats") + inner));
    TextFails("{" + (Key("aggs") + ("{" + (Key("filtered_stats") + inner))));
  }

  lemma ListStart(from: Option<string>, to: Option<string>, kind: Option<string>, host: Option<string>)
    ensures ListText(from, to, kind, host) != [] && ListText(from, to, kind, host)[0] == '['
  {
    hide TermFilters, DateFilter;
  }

  lemma OpenFilter(fields: seq<string>, from: Option<string>, to: Option<string>, kind: Option<string>, host: Option<string>)
    ensures FilterText(fields, from, to, kind, host) ==
      Braces(Key("aggs") + Braces(Key("filtered_stats") + Braces(
        Key("filter") + Braces(Key("and") + ListText(from, to, kind, host)) + "," + DropEnds(AggregationText(fields, None)))))
  {
    hide Key, AggregationText, TermFilters, DateFilter, Braces, DropEnds;
  }

  lemma ClosingFails()
    ensures Members(SkipWs(Key("aggs") + ("}" + "}}}"))).Failed?
  {
    hide Members, Value;
    PlainNames("");
    NoValue("}}}");
    ValueFails("aggs", "}" + "}}}");
    KeyStart("aggs", "}" + "}}}");
  }

  lemma Regrouped(list: string, tail: string)
    ensures FilterAndRest(list, tail) != [] && FilterAndRest(list, tail)[0] == '{'
    ensures Braces(Key("aggs") + Braces(Key("filtered_stats") + Braces(Key("filter") + Braces(Key("and") + list) + "," + tail)))
         == "{" + (Key("aggs") + ("{" + (Key("filtered_stats") + FilterAndRest(list, tail))))
  {
    hide Key;
    var inner := Key("filter") + Braces(Key("and") + list) + "," + tail;
    assert inner == Key("filter") + ("{" + (Key("and") + (list + ("}," + tail))));
    Closing(Key("aggs"), Key("filtered_stats"), inner);
    assert inner + "}}}" == Key("filter") + ("{" + (Key("and") + (list + ("}," + (tail + "}}}")))));
  }

  lemma Closing(a: string, b: string, inner: string)
    ensures Braces(a + Braces(b + Braces(inner))) == "{" + (a + ("{" + (b + ("{" + (inner + "}}}")))))
  {
    assert Braces(inner) + "}}" == "{" + (inner + "}}}");
    assert b + Braces(inner) + "}" + "}" == b + ("{" + (inner + "}}}"));
    assert a + Braces(b + Braces(inner)) + "}" == a + ("{" + (b + Braces(inner) + "}" + "}"));
  }

  /** aggregation_by yields a readable query exactly for a nonempty list of metrics, and then the intended one. */
  lemma AggregationReadable(fields: seq<string>, kind: Option<string>)
    requires PlainTexts(fields) && PlainOption(kind)
    ensures ParseText(AggregationText(fields, kind)) ==
            if fields != [] then Read(AggregationTree(fields, kind), []) else Failed
  {
    hide AggregationText, AggregationTree, ParseText, IsValue;
    if fields != [] {
      AggregationIs(fields, kind);
      ReadsBack(AggregationText(fields, kind), AggregationTree(fields, kind));
    } else {
      AggregationFails(kind);
    }
  }

  /**
    filter_and_aggregate_by yields the intended query exactly when there is a metric and
    the interval is given, or neither type nor host: without the interval the comma
    behind the type or host filter stays in the list.
    */
  lemma FilterReadable(fields: seq<string>, from: Option<string>, to: Option<string>, kind: Option<string>,
                       host: Option<string>)
    requires PlainTexts(fields) && PlainFilters(from, to, kind, host)
    ensures ParseText(FilterText(fields, from, to, kind, host)) ==
            if fields != [] && ListCloses(from, to, kind, host)
            then Read(FilterTree(fields, from, to, kind, host), []) else Failed
  {
    hide FilterText, FilterTree, ParseText, IsValue;
    if fields != [] && ListCloses(from, to, kind, host) {
      FilterIs(fields, from, to, kind, host);
      ReadsBack(FilterText(fields, from, to, kind, host), FilterTree(fields, from, to, kind, host));
    } else {
      FilterFails(fields, from, to, kind, host);
    }
  }

  /** What handle_response sends is the intended query whenever there is a metric: it filters only with an interval. */
  lemma BodyReadable(fields: seq<string>, from: Option<string>, to: Option<string>, kind: Option<string>,
                     host: Option<string>)
    requires PlainTexts(fields) && PlainFilters(from, to, kind, host)
    ensures ParseText(BodyText(fields, from, to, kind, host)) == BodyRead(fields, from, to, kind, host)
  {
    hide FilterText, FilterTree, AggregationText, AggregationTree, ParseText;
    FilterReadable(fields, from, to, kind, host);
    AggregationReadable(fields, kind);
  }
}
