/**
  The two-level configuration store (mf_parser.c): a table of sections, each a
  mutable table of its own, filled by loading INI files and by single sets.
  Loading overrides; it never clears, whatever the header says.
  */
module ConfigStore {
  import opened Sequences
  import opened IniLines
  import IniScanner
  import IniTheorems
  import opened IniRoundTrip

  type Config = map<string, map<string, string>>

  const MAX_DATA: nat := 256

  // ------------------------------------------------- what a binding does

  function Override(c: Config, b: Call): Config {
    c[b.section := (if b.section in c then c[b.section] else map[])[b.name := b.value]]
  }

  function ApplyAll(c: Config, bs: seq<Call>): Config
    decreases |bs|
  {
    if bs == [] then c else ApplyAll(Override(c, bs[0]), bs[1..])
  }

  function Lookup(c: Config, section: string, key: string): Option<string> {
    if section in c && key in c[section] then Some(c[section][key]) else None
  }

  /** The value of the last binding of a key, if any. */
  function LastOf(bs: seq<Call>, section: string, key: string): Option<string> {
    if bs == [] then None
    else
      var last := bs[|bs| - 1];
      if last.section == section && last.name == key then Some(last.value)
      else LastOf(bs[..|bs| - 1], section, key)
  }

  lemma {:induction false} ApplyConcat(c: Config, a: seq<Call>, b: seq<Call>)
    ensures ApplyAll(c, a + b) == ApplyAll(ApplyAll(c, a), b)
    decreases |a|
  {
    if a == [] {
      assert a + b == b;
    } else {
      assert (a + b)[1..] == a[1..] + b;
      ApplyConcat(Override(c, a[0]), a[1..], b);
    }
  }

  /** The store is the starting map overridden by the last binding of each key. */
  lemma {:induction false} LastBindingWins(c: Config, bs: seq<Call>, section: string, key: string)
    ensures Lookup(ApplyAll(c, bs), section, key) ==
            if LastOf(bs, section, key).Some? then LastOf(bs, section, key) else Lookup(c, section, key)
    ensures section in ApplyAll(c, bs) <==> section in c || exists i :: 0 <= i < |bs| && bs[i].section == section
    decreases |bs|
  {
    if bs != [] {
      var n := |bs| - 1;
      assert bs == bs[..n] + [bs[n]];
      ApplyConcat(c, bs[..n], [bs[n]]);
      assert ApplyAll(c, bs) == Override(ApplyAll(c, bs[..n]), bs[n]);
      LastBindingWins(c, bs[..n], section, key);
      if section in ApplyAll(c, bs[..n]) && section !in c {
        var i :| 0 <= i < n && bs[..n][i].section == section;
        assert bs[i].section == section;
      }
    }
  }

  lemma SameConfig(a: Config, b: Config)
    requires a.Keys == b.Keys
    requires forall s, k :: Lookup(a, s, k) == Lookup(b, s, k)
    ensures a == b
  {
    forall s | s in a ensures a[s] == b[s] {
      forall k | k in a[s] || k in b[s] ensures k in a[s] && k in b[s] && a[s][k] == b[s][k] {
        assert Lookup(a, s, k) == Lookup(b, s, k);
      }
    }
  }

  /** Loading the same file again changes nothing. */
  lemma ReloadIdempotent(c: Config, bs: seq<Call>)
    ensures ApplyAll(ApplyAll(c, bs), bs) == ApplyAll(c, bs)
  {
    var once := ApplyAll(c, bs);
    var twice := ApplyAll(once, bs);
    forall s, k ensures Lookup(twice, s, k) == Lookup(once, s, k) {
      LastBindingWins(c, bs, s, k);
      LastBindingWins(once, bs, s, k);
    }
    forall s ensures s in twice <==> s in once {
      LastBindingWins(c, bs, s, "");
      LastBindingWins(once, bs, s, "");
    }
    SameConfig(twice, once);
  }

  // ------------------------------------------------------- the round trip

  function ToTable(es: seq<Entry>): map<string, string> {
    if es == [] then map[] else map[es[0].key := es[0].value] + ToTable(es[1..])
  }

  function ToConfig(cfg: seq<Block>): Config {
    if cfg == [] then map[] else map[cfg[0].name := ToTable(cfg[0].entries)] + ToConfig(cfg[1..])
  }

  /** A listing names each section once and prints no empty section. */
  predicate IsListing(cfg: seq<Block>) {
    && (forall i, j :: 0 <= i < j < |cfg| ==> cfg[i].name != cfg[j].name)
    && (forall i :: 0 <= i < |cfg| ==> cfg[i].entries != [])
  }

  lemma MergeHead<K, V>(a: map<K, V>, k: K, v: V, b: map<K, V>)
    ensures a[k := v] + b == a + (map[k := v] + b)
  {
  }

  /** The bindings of one section merge its entries into the section's table. */
  lemma {:induction false} EntriesApplied(c: Config, section: string, es: seq<Entry>)
    requires es != []
    ensures ApplyAll(c, EntryCalls(section, es)) ==
            c[section := (if section in c then c[section] else map[]) + ToTable(es)]
    decreases |es|
  {
    var t := if section in c then c[section] else map[];
    var k, v, rest := es[0].key, es[0].value, ToTable(es[1..]);
    MergeHead(t, k, v, rest);
    var c1 := Override(c, Call(section, k, v));
    assert EntryCalls(section, es)[1..] == EntryCalls(section, es[1..]);
    assert ApplyAll(c, EntryCalls(section, es)) == ApplyAll(c1, EntryCalls(section, es[1..]));
    if |es| > 1 {
      EntriesApplied(c1, section, es[1..]);
      assert c1[section] == t[k := v];
    } else {
      assert rest == map[] && t[k := v] + rest == t[k := v];
    }
  }

  lemma {:induction false} NamesOf(cfg: seq<Block>, name: string)
    ensures name in ToConfig(cfg) <==> exists i :: 0 <= i < |cfg| && cfg[i].name == name
  {
    if cfg != [] {
      NamesOf(cfg[1..], name);
      assert forall i :: 1 <= i < |cfg| ==> cfg[1..][i - 1] == cfg[i];
    }
  }

  lemma {:induction false} BindingsApplied(c: Config, cfg: seq<Block>)
    requires IsListing(cfg) && forall i :: 0 <= i < |cfg| ==> cfg[i].name !in c
    ensures ApplyAll(c, Bindings(cfg)) == c + ToConfig(cfg)
    decreases |cfg|
  {
    hide ApplyAll, ToTable, EntryCalls;
    if cfg == [] {
      NoBindings(c);
      assert c + ToConfig(cfg) == c;
    } else {
      var b, rest := cfg[0], cfg[1..];
      var table := ToTable(b.entries);
      ApplyConcat(c, EntryCalls(b.name, b.entries), Bindings(rest));
      EntriesApplied(c, b.name, b.entries);
      assert map[] + table == table;
      assert forall i :: 0 <= i < |rest| ==> rest[i] == cfg[i + 1];
      BindingsApplied(c[b.name := table], rest);
      MergeHead(c, b.name, table, ToConfig(rest));
    }
  }

  lemma NoBindings(c: Config)
    ensures ApplyAll(c, []) == c
  {
  }

  /** Printing a two-level map in any order and loading the text into an empty store gives the map back. */
  lemma StoreRoundTrip(cfg: seq<Block>)
    requires IsListing(cfg) && forall i :: 0 <= i < |cfg| ==> PrintableBlock(cfg[i])
    ensures ApplyAll(map[], Parsed(Print(cfg), IniTheorems.Accepts).calls) == ToConfig(cfg)
    ensures Parsed(Print(cfg), IniTheorems.Accepts).error == 0
  {
    hide Parsed, Bindings, Print, PrintableBlock, ToConfig, ApplyAll;
    RoundTrip(cfg);
    BindingsApplied(map[], cfg);
    assert map[] + ToConfig(cfg) == ToConfig(cfg);
  }

  predicate PrintableConfig(c: Config) {
    forall s :: s in c ==> PrintableName(s) && c[s] != map[] && forall k :: k in c[s] ==> Printable(Entry(k, c[s][k], PLAIN))
  }

  lemma Smaller<K, V>(m: map<K, V>, k: K)
    requires k in m
    ensures |m - {k}| < |m| && map[k := m[k]] + (m - {k}) == m
  {
    assert (m - {k}).Keys == m.Keys - {k};
  }

  lemma {:induction false} ListTable(t: map<string, string>) returns (es: seq<Entry>)
    ensures ToTable(es) == t
    ensures forall i :: 0 <= i < |es| ==> es[i].key in t && es[i] == Entry(es[i].key, t[es[i].key], PLAIN)
    decreases |t|
  {
    if t == map[] {
      es := [];
    } else {
      var k :| k in t;
      Smaller(t, k);
      var rest := ListTable(t - {k});
      es := [Entry(k, t[k], PLAIN)] + rest;
      assert es[1..] == rest;
    }
  }

  lemma ListBlock(c: Config, s: string) returns (b: Block)
    requires PrintableConfig(c) && s in c
    ensures b.name == s && b.entries != [] && ToTable(b.entries) == c[s] && PrintableBlock(b)
  {
    hide Printable, PrintableName;
    assert PrintableName(s) && c[s] != map[];
    var es := ListTable(c[s]);
    forall i | 0 <= i < |es| ensures Printable(es[i]) {
      assert es[i] == Entry(es[i].key, c[s][es[i].key], PLAIN);
    }
    b := Block(s, es);
  }

  lemma {:induction false} ListConfig(c: Config) returns (cfg: seq<Block>)
    requires PrintableConfig(c)
    ensures ToConfig(cfg) == c && IsListing(cfg)
    ensures forall i :: 0 <= i < |cfg| ==> PrintableBlock(cfg[i])
    decreases |c|
  {
    hide PrintableBlock, PrintableConfig, ToTable, IsListing;
    if c == map[] {
      cfg := [];
      assert IsListing(cfg) by { NothingListed(); }
    } else {
      var s :| s in c;
      Smaller(c, s);
      var b := ListBlock(c, s);
      StillPrintable(c, s);
      var rest := ListConfig(c - {s});
      cfg := [b] + rest;
      PrependBlock(b, rest);
    }
  }

  lemma NothingListed()
    ensures IsListing([])
  {
  }

  lemma StillPrintable(c: Config, s: string)
    requires PrintableConfig(c)
    ensures PrintableConfig(c - {s})
  {
    hide Printable, PrintableName;
    var c' := c - {s};
    forall r | r in c'
      ensures PrintableName(r) && c'[r] != map[] && forall k :: k in c'[r] ==> Printable(Entry(k, c'[r][k], PLAIN))
    {
      assert r in c && c'[r] == c[r] && PrintableName(r);
    }
  }

  lemma PrependBlock(b: Block, rest: seq<Block>)
    requires IsListing(rest) && b.name !in ToConfig(rest) && b.entries != []
    ensures IsListing([b] + rest)
    ensures ToConfig([b] + rest) == map[b.name := ToTable(b.entries)] + ToConfig(rest)
  {
    NamesOf(rest, b.name);
    assert ([b] + rest)[1..] == rest;
  }

  /** Every printable two-level map has a text from which an empty store reads it back without error. */
  lemma EveryConfigReadBack(c: Config)
    requires PrintableConfig(c)
    ensures exists cfg :: ToConfig(cfg) == c && IsListing(cfg)
              && ApplyAll(map[], Parsed(Print(cfg), IniTheorems.Accepts).calls) == c
              && Parsed(Print(cfg), IniTheorems.Accepts).error == 0
  {
    var cfg := ListConfig(c);
    StoreRoundTrip(cfg);
  }

  // ------------------------------------------------------------ the store

  /** One inner hash table. */
  class Table {
    var entries: map<string, string>

    constructor ()
      ensures entries == map[]
    {
      entries := map[];
    }
  }

  /** mfp_data */
  class Data {
    const keys: array<string>
    const values: array<string>
    var size: nat

    constructor ()
      ensures keys.Length == MAX_DATA && values.Length == MAX_DATA && keys != values && size == 0
      ensures fresh(keys) && fresh(values)
    {
      keys := new string[MAX_DATA](_ => "");
      values := new string[MAX_DATA](_ => "");
      size := 0;
    }

    /** Stores one more entry. */
    method Add(key: string, value: string)
      requires keys != values && keys.Length == values.Length && size < keys.Length
      modifies this`size, keys, values
      ensures size == old(size) + 1
      ensures keys[..size] == old(keys[..size]) + [key] && values[..size] == old(values[..size]) + [value]
    {
      keys[size] := key;
      values[size] := value;
      size := size + 1;
    }

    /** Copies the matching entries of an inner table, in the table's own order. */
    method List(table: map<string, string>, filterBy: Option<string>)
      requires keys != values && keys.Length == values.Length == MAX_DATA && |table| <= MAX_DATA
      modifies this, keys, values
      ensures size <= MAX_DATA
      ensures forall i :: 0 <= i < size ==>
        keys[i] in table && values[i] == table[keys[i]] && Matches(values[i], filterBy)
      ensures forall i, j :: 0 <= i < j < size ==> keys[i] != keys[j]
      ensures forall k :: k in table && Matches(table[k], filterBy) ==> k in keys[..size]
    {
      hide Lists, Matches;
      size := 0;
      var rest := table.Keys;
      NothingListedYet(table, filterBy);
      while rest != {}
        invariant rest <= table.Keys && size + |rest| <= |table.Keys|
        invariant Lists(keys[..size], values[..size], table, table.Keys - rest, filterBy)
        decreases rest
      {
        var k :| k in rest;
        ghost var ks, vs, done := keys[..size], values[..size], table.Keys - rest;
        ListsMore(ks, vs, table, done, filterBy, k);
        rest := rest - {k};
        assert table.Keys - rest == done + {k};
        if Matches(table[k], filterBy) {
          Add(k, table[k]);
        }
      }
      assert table.Keys - rest == table.Keys;
      AllListed(keys[..size], values[..size], table, filterBy);
      assert forall i :: 0 <= i < size ==> keys[i] == keys[..size][i] && values[i] == values[..size][i];
    }
  }

  lemma OneKeyChanged(before: Config, after: Config, section: string, key: string, value: string)
    requires after.Keys == before.Keys + {section}
    requires forall s :: s in before && s != section ==> after[s] == before[s]
    requires after[section] == (if section in before then before[section] else map[])[key := value]
    ensures after == Override(before, Call(section, key, value))
  {
  }

  /** The entries listed so far, once the keys in `done` have been visited. */
  ghost predicate Lists(ks: seq<string>, vs: seq<string>, table: map<string, string>, done: set<string>,
                        filterBy: Option<string>)
  {
    && |ks| == |vs|
    && (forall i :: 0 <= i < |ks| ==>
          ks[i] in done && ks[i] in table && vs[i] == table[ks[i]] && Matches(vs[i], filterBy))
    && (forall i, j :: 0 <= i < j < |ks| ==> ks[i] != ks[j])
    && (forall k :: k in done && k in table && Matches(table[k], filterBy) ==> k in ks)
  }

  lemma NothingListedYet(table: map<string, string>, filterBy: Option<string>)
    ensures Lists([], [], table, table.Keys - table.Keys, filterBy)
  {
  }

  lemma AllListed(ks: seq<string>, vs: seq<string>, table: map<string, string>, filterBy: Option<string>)
    requires Lists(ks, vs, table, table.Keys, filterBy)
    ensures |ks| == |vs|
    ensures forall i :: 0 <= i < |ks| ==> ks[i] in table && vs[i] == table[ks[i]] && Matches(vs[i], filterBy)
    ensures forall i, j :: 0 <= i < j < |ks| ==> ks[i] != ks[j]
    ensures forall k :: k in table && Matches(table[k], filterBy) ==> k in ks
  {
  }

  lemma ListsMore(ks: seq<string>, vs: seq<string>, table: map<string, string>, done: set<string>,
                  filterBy: Option<string>, k: string)
    requires Lists(ks, vs, table, done, filterBy) && k in table && k !in done
    ensures if Matches(table[k], filterBy) then Lists(ks + [k], vs + [table[k]], table, done + {k}, filterBy)
            else Lists(ks, vs, table, done + {k}, filterBy)
  {
  }

  predicate Matches(value: string, filterBy: Option<string>) { filterBy.None? || value == filterBy.value }

  /** The outer hash table. */
  class Store {
    var sections: map<string, Table>

    ghost function Tables(): set<Table>
      reads this
    {
      set s | s in sections :: sections[s]
    }

    /** No two sections share an inner table. */
    ghost predicate Valid()
      reads this
    {
      forall s, t :: s in sections && t in sections && s != t ==> sections[s] != sections[t]
    }

    ghost function View(): Config
      reads this, Tables()
    {
      map s | s in sections :: sections[s].entries
    }

    constructor ()
      ensures Valid() && View() == map[] && Tables() == {}
    {
      sections := map[];
    }

    /** mfp_set_value: changes one key of one section; every other section keeps its table. */
    method SetValue(section: string, key: string, value: string)
      requires Valid()
      modifies this, Tables()
      ensures Valid() && fresh(Tables() - old(Tables()))
      ensures View() == Override(old(View()), Call(section, key, value))
    {
      hide Override;
      ghost var before := View();
      var htValues: Table;
      if section in sections {
        htValues := sections[section];
      } else {
        htValues := new Table();
      }
      htValues.entries := htValues.entries[key := value];
      sections := sections[section := htValues];
      OneKeyChanged(before, View(), section, key, value);
    }

    /** mfp_get_value: fills the caller's buffer when the key exists and leaves it alone otherwise. */
    method GetValue(section: string, key: string, retVal: string) returns (r: string)
      ensures r == if Lookup(View(), section, key).Some? then Lookup(View(), section, key).value else retVal
    {
      r := retVal;
      if section in sections && key in sections[section].entries {
        r := sections[section].entries[key];
      }
    }

    /** mfp_parse: 0 when the file cannot be opened, 1 otherwise, even when lines are malformed. */
    method Load(file: Option<string>) returns (retval: int)
      requires Valid()
      modifies this, Tables()
      ensures Valid() && fresh(Tables() - old(Tables()))
      ensures retval == if file.None? then 0 else 1
      ensures View() == if file.None? then old(View())
                        else ApplyAll(old(View()), Parsed(file.value, IniTheorems.Accepts).calls)
    {
      if file.None? {
        return 0;
      }
      var calls, error := IniScanner.ParseFile(file.value, IniTheorems.Accepts);
      ghost var result := ApplyAll(View(), calls);
      for i := 0 to |calls|
        invariant Valid() && fresh(Tables() - old(Tables()))
        invariant ApplyAll(View(), calls[i..]) == result
      {
        SetValue(calls[i].section, calls[i].name, calls[i].value);
        assert calls[i..][1..] == calls[i + 1..];
      }
      retval := 1;
    }

    /**
      mfp_get_data_filtered_by_value: without a filter the list holds the keys of the section,
      with one the keys whose value equals it, each once and with its value, in some order.
      */
    method GetDataFilteredByValue(section: string, data: Data, filterBy: Option<string>)
      requires Valid() && data.keys != data.values && data.keys.Length == data.values.Length == MAX_DATA
      requires section in View() ==> |View()[section]| <= MAX_DATA
      modifies data, data.keys, data.values
      ensures View() == old(View()) && data.size <= MAX_DATA
      ensures filterBy.Some? ==> forall k :: k in data.keys[..data.size] <==>
        section in sections && k in sections[section].entries && sections[section].entries[k] == filterBy.value
      ensures filterBy.None? ==> forall k :: k in data.keys[..data.size] <==>
        section in sections && k in sections[section].entries
      ensures forall i :: 0 <= i < data.size ==> Lookup(View(), section, data.keys[i]) == Some(data.values[i])
      ensures forall i, j :: 0 <= i < j < data.size ==> data.keys[i] != data.keys[j]
    {
      if section in sections {
        data.List(sections[section].entries, filterBy);
      } else {
        data.size := 0;
      }
      assert forall i :: 0 <= i < data.size ==> data.keys[i] == data.keys[..data.size][i];
    }
  }
}
