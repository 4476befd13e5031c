/**
  A configuration written as `[section]` and `key = value` lines, with any blanks
  around the separator, either separator, and comments behind the values, is read
  back binding by binding, with result 0.
  */
module IniRoundTrip {
  import opened Text
  import opened IniLines
  import opened IniTheorems

  /** Blanks before and behind the separator, and what follows the value: blanks, or a comment. */
  datatype Layout = Layout(before: string, separator: char, after: string, tail: string)

  const PLAIN: Layout := Layout(" ", '=', " ", "")

  datatype Entry = Entry(key: string, value: string, layout: Layout)

  datatype Block = Block(name: string, entries: seq<Entry>)

  // -------------------------------------------------------------- printing

  function SectionText(name: string): string { "[" + name + "]" }

  /** What follows the separator. */
  function Behind(e: Entry): string { e.layout.after + (e.value + e.layout.tail) }

  function PairText(e: Entry): string { (e.key + e.layout.before) + ([e.layout.separator] + Behind(e)) }

  function PrintEntries(es: seq<Entry>): string {
    if es == [] then "" else PairText(es[0]) + "\n" + PrintEntries(es[1..])
  }

  function Print(cfg: seq<Block>): string {
    if cfg == [] then ""
    else SectionText(cfg[0].name) + "\n" + (PrintEntries(cfg[0].entries) + Print(cfg[1..]))
  }

  /** The bindings of a configuration in the order of printing. */
  function EntryCalls(section: string, es: seq<Entry>): seq<Call> {
    if es == [] then [] else [Call(section, es[0].key, es[0].value)] + EntryCalls(section, es[1..])
  }

  function Bindings(cfg: seq<Block>): seq<Call> {
    if cfg == [] then [] else EntryCalls(cfg[0].name, cfg[0].entries) + Bindings(cfg[1..])
  }

  // --------------------------------------------------- what can be printed

  predicate OneLiner(s: string) { '\n' !in s && NUL !in s }

  predicate Trimmed(s: string) { s == [] || (!IsSpace(s[0]) && !IsSpace(s[|s| - 1])) }

  predicate NoComment(s: string) { forall i :: 0 < i < |s| && s[i] == ';' ==> !IsSpace(s[i - 1]) }

  predicate Blank(s: string) { forall i :: 0 <= i < |s| ==> IsSpace(s[i]) }

  /** White space, and a ';' behind it. */
  predicate IsComment(s: string) { exists i :: 0 < i < |s| && s[i] == ';' && Blank(s[..i]) }

  /**
    Keys may contain ':' when '=' separates; values may contain '=' and ':' then, and may be
    empty. A comment needs a value in front of it.
    */
  predicate Printable(e: Entry) {
    && e.key != [] && Trimmed(e.key) && OneLiner(e.key) && NoComment(e.key)
    && e.key[0] != '[' && e.key[0] != ';' && e.key[0] != '#'
    && Trimmed(e.value) && OneLiner(e.value) && NoComment(e.value)
    && PrintableLayout(e.layout) && (Blank(e.layout.tail) || e.value != [])
    && '=' !in e.key && (e.layout.separator == ':' ==> ':' !in e.key && '=' !in e.value)
    && |PairText(e)| < MAX_LINE - 1
  }

  predicate PrintableLayout(l: Layout) {
    && Blank(l.before) && Blank(l.after) && (Blank(l.tail) || IsComment(l.tail))
    && OneLiner(l.before) && OneLiner(l.after) && OneLiner(l.tail)
    && (l.separator == '=' || l.separator == ':')
  }

  predicate PrintableName(name: string) {
    |name| < MAX_SECTION && OneLiner(name) && NoComment(name) && ']' !in name
  }

  predicate PrintableBlock(b: Block) {
    PrintableName(b.name) && forall i :: 0 <= i < |b.entries| ==> Printable(b.entries[i])
  }

  // ------------------------------------------------- reading one line back

  lemma {:induction false} LineLengthOf(line: string, rest: string, max: nat)
    requires '\n' !in line && |line| < max
    ensures LineLength(line + "\n" + rest, max) == |line| + 1
    decreases max
  {
    if line != [] {
      assert (line + "\n" + rest)[1..] == line[1..] + "\n" + rest;
      LineLengthOf(line[1..], rest, max - 1);
    }
  }

  lemma {:induction false} NoNul(s: string)
    requires NUL !in s
    ensures UpToNul(s) == s
  {
    if s != [] {
      NoNul(s[1..]);
    }
  }

  lemma FirstLine(line: string, rest: string)
    requires OneLiner(line) && |line| < MAX_LINE - 1
    ensures Lines(line + "\n" + rest) == [line + "\n"] + Lines(rest)
  {
    var file := line + "\n" + rest;
    hide LineLength, UpToNul;
    LineLengthOf(line, rest, MAX_LINE - 1);
    NoNul(line + "\n");
    assert file[..|line| + 1] == line + "\n" && file[|line| + 1..] == rest;
  }

  lemma {:induction false} RStripTail(s: string, blanks: string)
    requires forall i :: 0 <= i < |blanks| ==> IsSpace(blanks[i])
    requires s == [] || !IsSpace(s[|s| - 1])
    ensures RStrip(s + blanks) == s
    decreases |blanks|
  {
    if blanks == [] {
      assert s + blanks == s;
    } else {
      assert (s + blanks)[..|s + blanks| - 1] == s + blanks[..|blanks| - 1];
      RStripTail(s, blanks[..|blanks| - 1]);
    }
  }

  lemma {:induction false} FindStops(s: string, c: char, rest: string, wasSpace: bool)
    requires c !in s && NoComment(s) && (wasSpace && s != [] ==> s[0] != ';')
    ensures Find(s + [c] + rest, c, wasSpace) == |s|
    decreases |s|
  {
    if s != [] {
      assert (s + [c] + rest)[1..] == s[1..] + [c] + rest;
      FindStops(s[1..], c, rest, IsSpace(s[0]));
    }
  }

  lemma {:induction false} FindMissing(s: string, wasSpace: bool)
    requires NUL !in s && NoComment(s) && (wasSpace && s != [] ==> s[0] != ';')
    ensures Find(s, NUL, wasSpace) == |s|
    decreases |s|
  {
    if s != [] {
      FindMissing(s[1..], IsSpace(s[0]));
    }
  }

  lemma StrippedLine(t: string)
    requires t != [] && !IsSpace(t[0]) && !IsSpace(t[|t| - 1])
    ensures RStrip(t + "\n") == t && Stripped(t + "\n") == t
  {
    RStripTail(t, "\n");
  }

  lemma SectionRead(name: string, first: bool, inPair: bool)
    requires PrintableName(name)
    ensures Classify(SectionText(name) + "\n", first, inPair) == Section(name)
  {
    var t := SectionText(name);
    StrippedLine(t);
    FindStops(name, ']', [], false);
    assert t[1..] == name + [']'] + [];
    assert t[1..1 + |name|] == name;
  }

  /** Nothing is stripped in front of a visible character. */
  lemma {:induction false} RStripBehind(s: string, rest: string)
    requires s != [] && !IsSpace(s[|s| - 1])
    ensures RStrip(s + rest) == s + RStrip(rest)
    decreases |rest|
  {
    if rest == [] {
      assert s + rest == s;
      assert s + RStrip([]) == s;
    } else if IsSpace(rest[|rest| - 1]) {
      assert (s + rest)[..|s + rest| - 1] == s + rest[..|rest| - 1];
      RStripBehind(s, rest[..|rest| - 1]);
    }
  }

  lemma {:induction false} LSkipHead(blanks: string, s: string)
    requires Blank(blanks) && (s == [] || !IsSpace(s[0]))
    ensures LSkip(blanks + s) == s
    decreases |blanks|
  {
    if blanks == [] {
      assert blanks + s == s;
    } else {
      assert (blanks + s)[1..] == blanks[1..] + s;
      LSkipHead(blanks[1..], s);
    }
  }

  lemma {:induction false} FindInBlanks(b: string, comment: string, wasSpace: bool)
    requires Blank(b) && NUL !in b && (b == [] ==> wasSpace)
    ensures Find(b + (";" + comment), NUL, wasSpace) == |b|
    decreases |b|
  {
    if b == [] {
      assert b + (";" + comment) == ";" + comment;
    } else {
      assert (b + (";" + comment))[1..] == b[1..] + (";" + comment);
      FindInBlanks(b[1..], comment, true);
    }
  }

  /** The search for the end of a value stops at the comment behind it. */
  lemma {:induction false} FindComment(s: string, b: string, comment: string, wasSpace: bool)
    requires NUL !in s && NoComment(s) && (wasSpace && s != [] ==> s[0] != ';')
    requires b != [] && Blank(b) && NUL !in b
    ensures Find(s + (b + (";" + comment)), NUL, wasSpace) == |s| + |b|
    decreases |s|
  {
    var more := b + (";" + comment);
    if s == [] {
      assert s + more == more;
      FindInBlanks(b, comment, wasSpace);
    } else {
      assert (s + more)[1..] == s[1..] + more;
      FindComment(s[1..], b, comment, IsSpace(s[0]));
    }
  }

  /** What the scanner makes of the text behind the separator. */
  function ValueIn(rest: string): string {
    var value := LSkip(RStrip(rest));
    RStrip(value[..Find(value, NUL, false)])
  }

  lemma StripsToNothing(blanks: string)
    requires Blank(blanks)
    ensures ValueIn(blanks) == [] && RStrip(blanks) == []
  {
    RStripTail([], blanks);
    assert [] + blanks == blanks;
  }

  lemma ValueAlone(after: string, value: string, tail: string)
    requires value != [] && Trimmed(value) && NoComment(value) && NUL !in value && Blank(after) && Blank(tail)
    ensures ValueIn(after + (value + tail)) == value
  {
    hide RStrip, LSkip, Find;
    assert after + (value + tail) == (after + value) + tail;
    RStripTail(after + value, tail);
    LSkipHead(after, value);
    FindMissing(value, false);
    assert value[..|value|] == value && value + [] == value;
    RStripTail(value, []);
  }

  lemma ValueBeforeComment(after: string, value: string, b: string, comment: string)
    requires value != [] && Trimmed(value) && NoComment(value) && NUL !in value && Blank(after)
    requires b != [] && Blank(b) && NUL !in b
    ensures ValueIn(after + (value + (b + (";" + comment)))) == value
  {
    hide RStrip, LSkip, Find;
    var head := after + (value + (b + ";"));
    assert after + (value + (b + (";" + comment))) == head + comment;
    RStripBehind(head, comment);
    var more := ";" + RStrip(comment);
    assert head + RStrip(comment) == after + (value + (b + more));
    LSkipHead(after, value + (b + more));
    FindComment(value, b, RStrip(comment), false);
    var v := value + (b + more);
    assert v[..|value| + |b|] == value + b;
    RStripTail(value, b);
  }

  lemma ValueRead(e: Entry)
    requires Printable(e)
    ensures ValueIn(Behind(e) + "\n") == e.value
  {
    hide RStrip, LSkip, Find, ValueIn;
    var l := e.layout;
    if e.value == [] {
      assert Blank(Behind(e) + "\n");
      StripsToNothing(Behind(e) + "\n");
    } else if Blank(l.tail) {
      ValueAlone(l.after, e.value, l.tail + "\n");
      assert Behind(e) + "\n" == l.after + (e.value + (l.tail + "\n"));
    } else {
      var i :| 0 < i < |l.tail| && l.tail[i] == ';' && Blank(l.tail[..i]);
      ValueBeforeComment(l.after, e.value, l.tail[..i], l.tail[i + 1..] + "\n");
      assert l.tail + "\n" == l.tail[..i] + (";" + (l.tail[i + 1..] + "\n"));
      assert Behind(e) + "\n" == l.after + (e.value + (l.tail + "\n"));
    }
  }

  /** The stripped text of a line that holds a pair. */
  lemma PairStripped(lead: string, head: string, c: char, rest: string)
    requires Blank(lead) && head != [] && !IsSpace(head[0]) && !IsSpace(c)
    ensures var text, r := lead + (head + ([c] + rest)), RStrip(rest);
            && RStrip(text) == lead + (head + ([c] + r)) && Stripped(text) == head + ([c] + r)
  {
    hide RStrip, LSkip;
    var s := lead + (head + [c]);
    assert lead + (head + ([c] + rest)) == s + rest;
    RStripBehind(s, rest);
    assert s + RStrip(rest) == lead + (head + ([c] + RStrip(rest)));
    LSkipHead(lead, head + ([c] + RStrip(rest)));
  }

  /** Find in the words of its C comment: the first c that no comment precedes, or that comment, or the end. */
  lemma {:induction false} IsFind(s: string, c: char, wasSpace: bool)
    ensures var k := Find(s, c, wasSpace);
            && (forall j :: 0 <= j < k ==> s[j] != c && !StartsComment(s, j, wasSpace))
            && (k < |s| ==> s[k] == c || StartsComment(s, k, wasSpace))
    decreases |s|
  {
    if s != [] && s[0] != c && !(wasSpace && s[0] == ';') {
      var t, was := s[1..], IsSpace(s[0]);
      IsFind(t, c, was);
      assert forall j :: 0 < j < |s| ==> s[j] == t[j - 1] && (StartsComment(s, j, wasSpace) <==> StartsComment(t, j - 1, was));
    }
  }

  predicate StartsComment(s: string, j: nat, wasSpace: bool)
    requires j < |s|
  {
    s[j] == ';' && if j == 0 then wasSpace else IsSpace(s[j - 1])
  }

  lemma SeparatorRead(e: Entry, r: string)
    requires Printable(e) && r == RStrip(Behind(e) + "\n")
    ensures var t, k := (e.key + e.layout.before) + ([e.layout.separator] + r), |e.key| + |e.layout.before|;
            Separator(t) == k && HasSeparator(t)
  {
    hide Find, RStrip;
    var head, c := e.key + e.layout.before, e.layout.separator;
    var t := head + ([c] + r);
    assert NoComment(head);
    assert t == head + [c] + r;
    FindStops(head, c, r, false);
    if c == ':' {
      NoEqualsFound(e, r);
    }
  }

  /** With ':' as separator an '=' can only stand in a comment. */
  lemma EqualsInComment(e: Entry, j: nat)
    requires Printable(e) && e.layout.separator == ':' && j < |Behind(e)| && Behind(e)[j] == '='
    ensures exists i :: 0 < i < j && StartsComment(Behind(e), i, false)
  {
    var l := e.layout;
    var m := j - |l.after| - |e.value|;
    assert m >= 0 && l.tail[m] == '=';
    var i :| 0 < i < |l.tail| && l.tail[i] == ';' && Blank(l.tail[..i]);
    assert i < m && IsSpace(l.tail[..i][i - 1]);
    var p := |l.after| + |e.value| + i;
    assert Behind(e)[p] == ';' && Behind(e)[p - 1] == l.tail[i - 1];
    assert StartsComment(Behind(e), p, false);
  }

  /** So the search for '=' does not find one. */
  lemma NoEqualsFound(e: Entry, r: string)
    requires Printable(e) && e.layout.separator == ':' && r == RStrip(Behind(e) + "\n")
    ensures var t := (e.key + e.layout.before) + ([':'] + r);
            Find(t, '=', false) < |t| ==> t[Find(t, '=', false)] != '='
  {
    hide Find, RStrip;
    var head := e.key + e.layout.before;
    var t := head + ([':'] + r);
    var k := Find(t, '=', false);
    IsFind(t, '=', false);
    if k < |t| && t[k] == '=' {
      CommentFirst(e, r, k);
      assert false;
    }
  }

  lemma CommentFirst(e: Entry, r: string, k: nat)
    requires Printable(e) && e.layout.separator == ':' && r <= Behind(e) + "\n"
    requires var t := (e.key + e.layout.before) + ([':'] + r); k < |t| && t[k] == '='
    ensures var t := (e.key + e.layout.before) + ([':'] + r); exists p :: 0 <= p < k && StartsComment(t, p, false)
  {
    var head := e.key + e.layout.before;
    var t := head + ([':'] + r);
    assert '=' !in head;
    var j := k - |head| - 1;
    assert j >= 0 && Behind(e)[j] == r[j] == '=';
    EqualsInComment(e, j);
    var i :| 0 < i < j && StartsComment(Behind(e), i, false);
    var p := |head| + 1 + i;
    assert t[p] == r[i] == Behind(e)[i] && t[p - 1] == r[i - 1] == Behind(e)[i - 1];
    assert StartsComment(t, p, false);
  }

  /** A pair is read as its key and value, whatever its layout; leading blanks are allowed where no pair is open. */
  lemma PairRead(lead: string, e: Entry, first: bool, inPair: bool)
    requires Printable(e) && Blank(lead) && (inPair ==> lead == [])
    requires first ==> !HasBom(lead + PairText(e) + "\n")
    ensures Classify(lead + PairText(e) + "\n", first, inPair) == Pair(e.key, e.value)
  {
    hide RStrip, LSkip, Stripped, Separator, ClassifyStripped, Find, HasBom, ValueIn, Printable, Behind, NameOf, ValueOf;
    var head, c, rest := e.key + e.layout.before, e.layout.separator, Behind(e) + "\n";
    var text, r := lead + PairText(e) + "\n", RStrip(rest);
    assert text == lead + (head + ([c] + rest));
    PairFacts(e);
    PairStripped(lead, head, c, rest);
    SeparatorRead(e, r);
    var t := head + ([c] + r);
    NameAndValue(e);
    PairClassified(t, inPair, |t| < |RStrip(text)|);
  }

  lemma PairFacts(e: Entry)
    requires Printable(e)
    ensures e.key != [] && !IsSpace(e.key[0]) && e.key[0] != ';' && e.key[0] != '#' && e.key[0] != '['
    ensures !IsSpace(e.layout.separator)
  {
  }

  lemma NameAndValue(e: Entry)
    requires Printable(e)
    ensures var t, k := (e.key + e.layout.before) + ([e.layout.separator] + RStrip(Behind(e) + "\n")), |e.key| + |e.layout.before|;
            NameOf(t, k) == e.key && ValueOf(t, k) == e.value
  {
    hide RStrip, LSkip, Find, ValueIn, Behind, Printable, Trimmed;
    var head, rest := e.key + e.layout.before, Behind(e) + "\n";
    var r := RStrip(rest);
    Parted(head, e.layout.separator, r);
    KeyStripped(e);
    ValueRead(e);
    ValueInRest(rest);
  }

  lemma Parted(head: string, c: char, r: string)
    ensures var t, k := head + ([c] + r), |head|; k < |t| && t[..k] == head && t[k + 1..] == r
  {
  }

  lemma KeyStripped(e: Entry)
    requires Printable(e)
    ensures RStrip(e.key + e.layout.before) == e.key
  {
    RStripTail(e.key, e.layout.before);
  }

  lemma ValueInRest(rest: string)
    ensures var value := LSkip(RStrip(rest)); ValueIn(rest) == RStrip(value[..Find(value, NUL, false)])
  {
  }

  lemma PairClassified(t: string, inPair: bool, moved: bool)
    requires t != [] && t[0] != ';' && t[0] != '#' && t[0] != '[' && HasSeparator(t) && !(inPair && moved)
    ensures ClassifyStripped(t, moved, inPair) == Pair(NameOf(t, Separator(t)), ValueOf(t, Separator(t)))
  {
    hide Separator, NameOf, ValueOf;
  }

  // ------------------------------------------------------ reading all back

  lemma {:induction false} EntriesRead(p: Scan, es: seq<Entry>, rest: string)
    requires p.lineno > 0 && forall i :: 0 <= i < |es| ==> Printable(es[i])
    ensures var p' := Fold(p, Lines(PrintEntries(es)), Accepts);
            && Lines(PrintEntries(es) + rest) == Lines(PrintEntries(es)) + Lines(rest)
            && p'.section == p.section && p'.calls == p.calls + EntryCalls(p.section, es)
            && p'.error == p.error && p'.lineno > 0
    decreases |es|
  {
    hide Lines, Printable, Classify;
    EmptyLines([]);
    if es == [] {
      assert PrintEntries(es) + rest == rest;
    } else {
      var e, more := es[0], PrintEntries(es[1..]);
      EntryFacts(e);
      FirstLine(PairText(e), more);
      FirstLine(PairText(e), more + rest);
      assert PrintEntries(es) + rest == PairText(e) + "\n" + (more + rest);
      PairRead("", e, false, p.prevName != []);
      assert "" + PairText(e) + "\n" == PairText(e) + "\n";
      var p1 := StepLine(p, PairText(e) + "\n", Accepts);
      assert p1 == p.(lineno := p.lineno + 1, prevName := Truncate(e.key, MAX_NAME),
                      calls := p.calls + [Call(p.section, e.key, e.value)]);
      EntriesRead(p1, es[1..], rest);
      assert Lines(PrintEntries(es)) == [PairText(e) + "\n"] + Lines(more);
      assert Lines(PrintEntries(es))[1..] == Lines(more);
    }
  }

  lemma EntryFacts(e: Entry)
    requires Printable(e)
    ensures OneLiner(PairText(e)) && |PairText(e)| < MAX_LINE - 1
  {
  }

  lemma SectionStep(p: Scan, name: string)
    requires PrintableName(name)
    ensures StepLine(p, SectionText(name) + "\n", Accepts) == p.(lineno := p.lineno + 1, section := name, prevName := "")
  {
    hide Classify;
    SectionRead(name, p.lineno == 0, p.prevName != []);
  }

  /** Where a printed section leaves the scanner. */
  function AfterBlock(p: Scan, b: Block): Scan {
    Fold(p.(lineno := p.lineno + 1, section := b.name, prevName := ""), Lines(PrintEntries(b.entries)), Accepts)
  }

  /** A section is read, and reading goes on behind it. */
  lemma BlockRead(p: Scan, b: Block, rest: string)
    requires PrintableBlock(b)
    ensures Fold(p, Lines(SectionText(b.name) + "\n" + (PrintEntries(b.entries) + rest)), Accepts) ==
            Fold(AfterBlock(p, b), Lines(rest), Accepts)
    ensures AfterBlock(p, b).calls == p.calls + EntryCalls(b.name, b.entries) && AfterBlock(p, b).error == p.error
  {
    hide Lines, Printable, PrintEntries, EntryCalls, StepLine;
    var header, lines := SectionText(b.name), Lines(PrintEntries(b.entries));
    FirstLine(header, PrintEntries(b.entries) + rest);
    SectionStep(p, b.name);
    var p1 := StepLine(p, header + "\n", Accepts);
    EntriesRead(p1, b.entries, rest);
    FoldConcat(p1, lines, Lines(rest), Accepts);
    assert Lines(header + "\n" + (PrintEntries(b.entries) + rest))[1..] == lines + Lines(rest);
  }

  lemma PrintFirst(cfg: seq<Block>)
    ensures Print(cfg) == if cfg == [] then ""
                          else SectionText(cfg[0].name) + "\n" + (PrintEntries(cfg[0].entries) + Print(cfg[1..]))
  {
  }

  lemma NothingRead(p: Scan)
    ensures Fold(p, Lines([]), Accepts) == p
  {
    EmptyLines([]);
  }

  lemma {:induction false} BlocksRead(p: Scan, cfg: seq<Block>)
    requires forall i :: 0 <= i < |cfg| ==> PrintableBlock(cfg[i])
    ensures var p' := Fold(p, Lines(Print(cfg)), Accepts);
            p'.calls == p.calls + Bindings(cfg) && p'.error == p.error
    decreases |cfg|
  {
    hide Lines, Fold, Print, PrintableBlock, SectionText, PrintEntries, EntryCalls, AfterBlock;
    NothingRead(p);
    PrintFirst(cfg);
    if cfg != [] {
      assert PrintableBlock(cfg[0]);
      BlockRead(p, cfg[0], Print(cfg[1..]));
      BlocksRead(AfterBlock(p, cfg[0]), cfg[1..]);
    }
  }

  /** Reading a printed configuration calls the handler with its bindings in order and returns 0. */
  lemma RoundTrip(cfg: seq<Block>)
    requires forall i :: 0 <= i < |cfg| ==> PrintableBlock(cfg[i])
    ensures Parsed(Print(cfg), Accepts).calls == Bindings(cfg)
    ensures Parsed(Print(cfg), Accepts).error == 0
  {
    BlocksRead(Start, cfg);
  }
}
