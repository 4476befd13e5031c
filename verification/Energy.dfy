/**
  Grouping of power records (server/routes/v1/dreamcloud/energy.js): the records of
  one task become the non-power records followed by one entry per time stamp.
  */
module Energy {
  import opened Sequences

  datatype Field = Field(name: string, value: string)

  /** A hit: its type, its time stamp, and its keys in the order a for-in loop visits them. */
  datatype Record = Record(kind: Option<string>, time: string, fields: seq<Field>)

  /** parseInt, None for NaN. */
  type ParseInt = string -> Option<int>

  type Metrics = map<string, Option<int>>

  datatype Entry = Kept(record: Record) | Pwm(time: string, metrics: Metrics)

  predicate Skipped(name: string) { name == "@timestamp" || name == "type" || name == "host" || name == "" }

  predicate IsPower(r: Record) { r.kind == Some("power") }

  // ------------------------------------------------------- the specification

  /** The first key that is not skipped. */
  function FirstMetric(fields: seq<Field>): Option<Field> {
    if fields == [] then None
    else if Skipped(fields[0].name) then FirstMetric(fields[1..])
    else Some(fields[0])
  }

  predicate Carries(r: Record) { IsPower(r) && FirstMetric(r.fields).Some? }

  /** Record r carries metric m at time t. */
  predicate CarriesAt(r: Record, t: string, m: string) {
    Carries(r) && r.time == t && FirstMetric(r.fields).value.name == m
  }

  function KeptEntries(rs: seq<Record>): seq<Entry> {
    if rs == [] then []
    else
      var last := rs[|rs| - 1];
      KeptEntries(rs[..|rs| - 1]) + if IsPower(last) then [] else [Kept(last)]
  }

  /** The time stamps of the records with a metric, each once, by first appearance. */
  function Times(rs: seq<Record>): seq<string> {
    if rs == [] then []
    else
      var last, before := rs[|rs| - 1], Times(rs[..|rs| - 1]);
      if Carries(last) && last.time !in before then before + [last.time] else before
  }

  function MetricsAt(rs: seq<Record>, t: string, parse: ParseInt): Metrics {
    if rs == [] then map[] else Updated(MetricsAt(rs[..|rs| - 1], t, parse), rs[|rs| - 1], t, parse)
  }

  /** The group of time t with one more record. */
  function Updated(before: Metrics, r: Record, t: string, parse: ParseInt): Metrics {
    if Carries(r) && r.time == t
    then before[FirstMetric(r.fields).value.name := parse(FirstMetric(r.fields).value.value)]
    else before
  }

  function PwmEntries(rs: seq<Record>, parse: ParseInt): seq<Entry> {
    seq(|Times(rs)|, i requires 0 <= i < |Times(rs)| => Pwm(Times(rs)[i], MetricsAt(rs, Times(rs)[i], parse)))
  }

  // -------------------------------------------------------------- the method

  /** The inner loop over the keys of one power record: it stores at most one metric. */
  method StoreMetric(data: Record, parse: ParseInt, order: seq<string>, groups: map<string, Metrics>)
    returns (order': seq<string>, groups': map<string, Metrics>)
    ensures FirstMetric(data.fields).None? ==> order' == order && groups' == groups
    ensures FirstMetric(data.fields).Some? ==>
      && order' == (if data.time in groups then order else order + [data.time])
      && groups' == groups[data.time := (if data.time in groups then groups[data.time] else map[])
           [FirstMetric(data.fields).value.name := parse(FirstMetric(data.fields).value.value)]]
  {
    order', groups' := order, groups;
    var processed, k := false, 0;
    assert data.fields[0..] == data.fields;
    while k < |data.fields| && !processed
      invariant k <= |data.fields|
      invariant !processed ==> order' == order && groups' == groups && FirstMetric(data.fields[k..]) == FirstMetric(data.fields)
      invariant processed ==>
        && FirstMetric(data.fields).Some?
        && order' == (if data.time in groups then order else order + [data.time])
        && groups' == groups[data.time := (if data.time in groups then groups[data.time] else map[])
             [FirstMetric(data.fields).value.name := parse(FirstMetric(data.fields).value.value)]]
      decreases |data.fields| - k
    {
      var field := data.fields[k];
      assert data.fields[k..][1..] == data.fields[k + 1..];
      if !Skipped(field.name) {
        var metrics: Metrics := map[];
        if data.time in groups {
          metrics := groups[data.time];
        } else {
          order' := order + [data.time];
        }
        groups' := groups[data.time := metrics[field.name := parse(field.value)]];
        processed := true;
      }
      k := k + 1;
    }
  }

  lemma Nothing(parse: ParseInt)
    ensures KeptEntries([]) == [] && Times([]) == [] && forall t :: MetricsAt([], t, parse) == map[]
  {
  }

  lemma OneMore(rs: seq<Record>, i: nat, parse: ParseInt)
    requires i < |rs|
    ensures KeptEntries(rs[..i + 1]) == KeptEntries(rs[..i]) + if IsPower(rs[i]) then [] else [Kept(rs[i])]
    ensures Times(rs[..i + 1]) ==
            if Carries(rs[i]) && rs[i].time !in Times(rs[..i]) then Times(rs[..i]) + [rs[i].time] else Times(rs[..i])
    ensures forall t :: MetricsAt(rs[..i + 1], t, parse) == Updated(MetricsAt(rs[..i], t, parse), rs[i], t, parse)
  {
    assert rs[..i + 1][..i] == rs[..i];
  }

  /** The handler of the range query: kept records as they come, then the groups. */
  method Group(records: seq<Record>, parse: ParseInt) returns (result: seq<Entry>)
    ensures result == KeptEntries(records) + PwmEntries(records, parse)
    ensures |result| == |KeptEntries(records)| + |Times(records)|
    ensures forall i :: 0 <= i < |Times(records)| ==>
      result[|KeptEntries(records)| + i] == Pwm(Times(records)[i], MetricsAt(records, Times(records)[i], parse))
  {
    hide KeptEntries, Times, MetricsAt, FirstMetric;
    Nothing(parse);
    result := [];
    var order: seq<string>, groups: map<string, Metrics> := [], map[];
    for i := 0 to |records|
      invariant result == KeptEntries(records[..i]) && order == Times(records[..i])
      invariant forall t :: t in order <==> t in groups
      invariant forall t :: t in groups ==> groups[t] == MetricsAt(records[..i], t, parse)
      invariant forall t :: t !in groups ==> MetricsAt(records[..i], t, parse) == map[]
    {
      var data := records[i];
      OneMore(records, i, parse);
      if data.kind != Some("power") {
        result := result + [Kept(data)];
      } else {
        order, groups := StoreMetric(data, parse, order, groups);
      }
    }
    assert records[..|records|] == records;
    ghost var kept := result;
    for i := 0 to |order|
      invariant result == kept + PwmEntries(records, parse)[..i]
    {
      result := result + [Pwm(order[i], groups[order[i]])];
    }
  }

  // ------------------------------------------------------------ the theorems

  /** Field i is the first that is neither the time stamp nor the type nor the host, nor nameless. */
  predicate IsFirst(fields: seq<Field>, i: nat)
    requires i < |fields|
  {
    && fields[i].name !in ["@timestamp", "type", "host", ""]
    && forall j :: 0 <= j < i ==> fields[j].name in ["@timestamp", "type", "host", ""]
  }

  /** Nothing before the metric of a record is a metric. */
  lemma {:induction false} FirstMetricIs(fields: seq<Field>)
    ensures FirstMetric(fields).None? <==>
      forall i :: 0 <= i < |fields| ==> fields[i].name in ["@timestamp", "type", "host", ""]
    ensures FirstMetric(fields).Some? ==> exists i :: 0 <= i < |fields| && IsFirst(fields, i) && fields[i] == FirstMetric(fields).value
  {
    if fields != [] {
      var rest := fields[1..];
      FirstMetricIs(rest);
      if Skipped(fields[0].name) {
        assert forall i :: 1 <= i < |fields| ==> fields[i] == rest[i - 1];
        if FirstMetric(rest).Some? {
          var i :| 0 <= i < |rest| && IsFirst(rest, i) && rest[i] == FirstMetric(rest).value;
          assert IsFirst(fields, i + 1);
        }
      } else {
        assert IsFirst(fields, 0);
      }
    }
  }

  /** A record carries a metric when it is a power record with the time stamp and its first metric is that one. */
  lemma CarriesIs(r: Record, t: string, m: string)
    ensures CarriesAt(r, t, m) <==>
      && r.kind == Some("power") && r.time == t
      && exists i :: 0 <= i < |r.fields| && IsFirst(r.fields, i) && r.fields[i].name == m
  {
    FirstMetricIs(r.fields);
    if i :| 0 <= i < |r.fields| && IsFirst(r.fields, i) && r.fields[i].name == m {
      var j :| 0 <= j < |r.fields| && IsFirst(r.fields, j) && r.fields[j] == FirstMetric(r.fields).value;
      assert i == j;
    }
  }

  /** Every record that is no power record is kept, behind exactly those kept before it. */
  lemma {:induction false} KeptInOrder(rs: seq<Record>, i: nat)
    requires i < |rs| && rs[i].kind != Some("power")
    ensures |KeptEntries(rs[..i])| < |KeptEntries(rs)|
    ensures KeptEntries(rs)[|KeptEntries(rs[..i])|] == Kept(rs[i])
    decreases |rs|
  {
    var before := rs[..|rs| - 1];
    if i == |rs| - 1 {
    } else {
      assert before[..i] == rs[..i];
      KeptInOrder(before, i);
    }
  }

  /** And nothing else is kept. */
  lemma {:induction false} OnlyKept(rs: seq<Record>, k: nat)
    requires k < |KeptEntries(rs)|
    ensures exists i :: 0 <= i < |rs| && rs[i].kind != Some("power") && |KeptEntries(rs[..i])| == k && KeptEntries(rs)[k] == Kept(rs[i])
    decreases |rs|
  {
    var last := |rs| - 1;
    var before := rs[..last];
    if k < |KeptEntries(before)| {
      OnlyKept(before, k);
      var i :| 0 <= i < |before| && !IsPower(before[i]) && |KeptEntries(before[..i])| == k
        && KeptEntries(before)[k] == Kept(before[i]);
      assert before[..i] == rs[..i] && rs[i] == before[i];
    } else {
      assert rs[..last] == before && !IsPower(rs[last]);
    }
  }

  /** Record i is the first with a metric at its time stamp. */
  ghost predicate FirstAt(rs: seq<Record>, i: nat)
    requires i < |rs|
  {
    Carries(rs[i]) && forall j :: 0 <= j < i && Carries(rs[j]) ==> rs[j].time != rs[i].time
  }

  lemma {:induction false} TimesAppear(rs: seq<Record>)
    ensures forall i :: 0 <= i < |rs| && Carries(rs[i]) ==> rs[i].time in Times(rs)
    ensures forall t :: t in Times(rs) ==> exists i :: 0 <= i < |rs| && Carries(rs[i]) && rs[i].time == t
    ensures forall k, l :: 0 <= k < l < |Times(rs)| ==> Times(rs)[k] != Times(rs)[l]
  {
    if rs != [] {
      var before := rs[..|rs| - 1];
      TimesAppear(before);
      assert rs == before + [rs[|rs| - 1]];
      forall t | t in Times(rs) ensures exists i :: 0 <= i < |rs| && Carries(rs[i]) && rs[i].time == t {
        if t in Times(before) {
          var i :| 0 <= i < |before| && Carries(before[i]) && before[i].time == t;
          assert rs[i] == before[i];
        } else {
          assert Carries(rs[|rs| - 1]) && rs[|rs| - 1].time == t;
        }
      }
    }
  }

  /** Entry k of the time stamps belongs to a first record, and first records come in entry order. */
  lemma {:induction false} TimesInOrder(rs: seq<Record>, i: nat)
    requires i < |rs| && FirstAt(rs, i)
    ensures |Times(rs[..i])| < |Times(rs)| && Times(rs)[|Times(rs[..i])|] == rs[i].time
    decreases |rs|
  {
    var before := rs[..|rs| - 1];
    if i == |rs| - 1 {
      TimesAppear(before);
      assert forall j :: 0 <= j < i ==> before[j] == rs[j];
    } else {
      assert before[..i] == rs[..i] && before[i] == rs[i];
      assert forall j :: 0 <= j < i ==> before[j] == rs[j];
      TimesInOrder(before, i);
    }
  }

  /** The count of time stamps seen so far only grows. */
  lemma {:induction false} TimesGrow(rs: seq<Record>, i: nat, j: nat)
    requires i < j <= |rs| && FirstAt(rs, i)
    ensures |Times(rs[..i])| < |Times(rs[..j])|
  {
    assert rs[..j][..i] == rs[..i] && rs[..j][i] == rs[i];
    assert forall k :: 0 <= k < i ==> rs[..j][k] == rs[k];
    TimesInOrder(rs[..j], i);
  }

  /** Record i is the last one to carry metric m at time t. */
  ghost predicate LastAt(rs: seq<Record>, i: nat, t: string, m: string)
    requires i < |rs|
  {
    CarriesAt(rs[i], t, m) && forall j :: i < j < |rs| ==> !CarriesAt(rs[j], t, m)
  }

  /** A group holds exactly the metrics carried at its time stamp. */
  lemma {:induction false} MetricsCarried(rs: seq<Record>, t: string, m: string, parse: ParseInt)
    ensures m in MetricsAt(rs, t, parse) <==> exists i :: 0 <= i < |rs| && CarriesAt(rs[i], t, m)
  {
    hide FirstMetric;
    if rs != [] {
      var last := |rs| - 1;
      var before := rs[..last];
      MetricsCarried(before, t, m, parse);
      assert forall i :: 0 <= i < last ==> before[i] == rs[i];
      if m in MetricsAt(before, t, parse) {
        var i :| 0 <= i < |before| && CarriesAt(before[i], t, m);
        assert CarriesAt(rs[i], t, m);
      }
    }
  }

  /** And each metric has the value of the last record that carries it. */
  lemma {:induction false} MetricsAreLast(rs: seq<Record>, t: string, m: string, parse: ParseInt, i: nat)
    requires i < |rs| && LastAt(rs, i, t, m)
    ensures m in MetricsAt(rs, t, parse) && MetricsAt(rs, t, parse)[m] == parse(FirstMetric(rs[i].fields).value.value)
    decreases |rs|
  {
    hide FirstMetric;
    var last := |rs| - 1;
    var before := rs[..last];
    if i < last {
      assert forall j :: 0 <= j < last ==> before[j] == rs[j];
      assert !CarriesAt(rs[last], t, m);
      MetricsAreLast(before, t, m, parse, i);
    }
  }

  /** No group is empty or repeats another, and no metric is a skipped key. */
  lemma GroupsAreProper(rs: seq<Record>, parse: ParseInt, k: nat)
    requires k < |PwmEntries(rs, parse)|
    ensures var e := PwmEntries(rs, parse)[k];
            && e.metrics != map[] && (forall m :: m in e.metrics ==> m !in ["@timestamp", "type", "host", ""])
            && forall l :: 0 <= l < |PwmEntries(rs, parse)| && PwmEntries(rs, parse)[l].time == e.time ==> l == k
  {
    TimesAppear(rs);
    var t := Times(rs)[k];
    assert t in Times(rs);
    var i :| 0 <= i < |rs| && Carries(rs[i]) && rs[i].time == t;
    var name := FirstMetric(rs[i].fields).value.name;
    assert CarriesAt(rs[i], t, name);
    MetricsCarried(rs, t, name, parse);
    forall m | m in MetricsAt(rs, t, parse) ensures m !in ["@timestamp", "type", "host", ""] {
      MetricsCarried(rs, t, m, parse);
      var j :| 0 <= j < |rs| && CarriesAt(rs[j], t, m);
      FirstMetricIs(rs[j].fields);
    }
  }
}
