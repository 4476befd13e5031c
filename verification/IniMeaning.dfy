/** What a line of a configuration file means, said about its text. */
module IniMeaning {
  import opened Text
  import opened IniLines
  import opened IniTheorems
  import opened IniRoundTrip

  // ------------------------------------------------------ falling into lines

  function Concat(lines: seq<string>): string {
    if lines == [] then "" else lines[0] + Concat(lines[1..])
  }

  /** A full line, or as much of it as the buffer takes, or the end of the file. */
  predicate IsFill(line: string, last: bool) {
    && 0 < |line| < 200
    && (forall i :: 0 <= i < |line| - 1 ==> line[i] != '\n')
    && (line[|line| - 1] == '\n' || |line| == 199 || last)
  }

  lemma {:induction false} LineLengthIs(file: string, max: nat)
    requires file != [] && 0 < max
    ensures var n := LineLength(file, max);
            && 0 < n <= max && n <= |file| && (forall i :: 0 <= i < n - 1 ==> file[i] != '\n')
            && (file[n - 1] == '\n' || n == max || n == |file|)
    decreases max
  {
    if file[0] != '\n' && max > 1 && |file| > 1 {
      LineLengthIs(file[1..], max - 1);
      var n := LineLength(file[1..], max - 1);
      assert forall i :: 0 < i < n ==> file[i] == file[1..][i - 1];
    }
  }

  /** The lines of a file without NUL are the file, cut behind each newline and after 199 characters. */
  lemma {:induction false} LinesAre(file: string)
    requires NUL !in file
    ensures Concat(Lines(file)) == file
    ensures forall i :: 0 <= i < |Lines(file)| ==> IsFill(Lines(file)[i], i == |Lines(file)| - 1)
    decreases |file|
  {
    hide LineLength, UpToNul, IsFill;
    if file != [] {
      var n := LineLength(file, 199);
      LineLengthIs(file, 199);
      NoNul(file[..n]);
      LinesAre(file[n..]);
      assert file == file[..n] + file[n..];
      FirstFill(file, n);
      LastLine(file[n..]);
    }
  }

  lemma LastLine(file: string)
    ensures Lines(file) == [] <==> file == []
  {
  }

  lemma FirstFill(file: string, n: nat)
    requires 0 < n <= |file| && n <= 199 && (forall i :: 0 <= i < n - 1 ==> file[i] != '\n')
    requires file[n - 1] == '\n' || n == 199 || n == |file|
    ensures IsFill(file[..n], n == |file|)
    ensures n < |file| ==> IsFill(file[..n], false)
  {
  }

  // ----------------------------------------------------------- white space

  lemma {:induction false} RStripIs(s: string) returns (blanks: string)
    ensures Blank(blanks) && s == RStrip(s) + blanks && (RStrip(s) == [] || !IsSpace(RStrip(s)[|RStrip(s)| - 1]))
  {
    blanks := [];
    if s != [] && IsSpace(s[|s| - 1]) {
      var more := RStripIs(s[..|s| - 1]);
      blanks := more + [s[|s| - 1]];
      assert s == s[..|s| - 1] + [s[|s| - 1]];
    }
  }

  lemma {:induction false} LSkipIs(s: string) returns (blanks: string)
    ensures Blank(blanks) && s == blanks + LSkip(s) && (LSkip(s) == [] || !IsSpace(LSkip(s)[0]))
  {
    hide LSkip;
    LSkipStep(s);
    blanks := [];
    if s != [] && IsSpace(s[0]) {
      var more := LSkipIs(s[1..]);
      blanks := [s[0]] + more;
      Prepended(s, more, LSkip(s[1..]));
    }
  }

  lemma Prepended(s: string, more: string, t: string)
    requires s != [] && s[1..] == more + t
    ensures s == ([s[0]] + more) + t
  {
    assert s == [s[0]] + s[1..];
  }

  lemma BlankJoined(a: string, b: string)
    requires Blank(a) && Blank(b)
    ensures Blank(a + b)
  {
  }

  lemma BlankUpTo(text: string, n: nat)
    requires n <= |text| && Blank(text[..n])
    ensures forall i :: 0 <= i < n ==> IsSpace(text[i])
  {
    assert forall i :: 0 <= i < n ==> text[i] == text[..n][i];
  }

  /** Blank lines and comment lines, by their text. */
  predicate IsBlankOrComment(text: string) {
    exists i :: 0 <= i <= |text| && Blank(text[..i]) && (i == |text| || text[i] == ';' || text[i] == '#')
  }

  /** The lines that may be inserted anywhere are the blank ones and the comments. */
  lemma NoiseIs(text: string)
    ensures IsNoise(text) <==> IsBlankOrComment(text)
  {
    hide RStrip, LSkip, Blank;
    var behind := RStripIs(text);
    var before := LSkipIs(RStrip(text));
    var i, t := |before|, Stripped(text);
    if t == [] {
      assert text == before + behind;
      BlankJoined(before, behind);
      assert text[..|text|] == text;
    } else {
      assert text == before + (t + behind);
      assert text[..i] == before && text[i] == t[0];
      BlankUpTo(text, i);
      if j :| 0 <= j <= |text| && Blank(text[..j]) && (j == |text| || text[j] == ';' || text[j] == '#') {
        BlankUpTo(text, j);
      }
    }
  }

  /** A byte order mark in front of the first line changes nothing. */
  lemma BomIgnored(text: string)
    ensures Classify(['\U{EF}', '\U{BB}', '\U{BF}'] + text, true, false) == Classify(text, false, false)
    ensures HasBom(text) <==> |text| >= 3 && text[0] == '\U{EF}' && text[1] == '\U{BB}' && text[2] == '\U{BF}'
  {
    hide RStrip, LSkip, ClassifySection, ClassifyPair;
    assert (BOM + text)[3..] == text;
  }

  // ------------------------------------------------------ sections and pairs

  /** The section name is what stands before the first ']', whatever follows that. */
  lemma HeaderRead(lead: string, name: string, rest: string, first: bool, inPair: bool)
    requires Blank(lead) && (inPair ==> lead == []) && ']' !in name && NoComment(name)
    requires first ==> !HasBom(lead + ("[" + name + "]" + rest))
    ensures Classify(lead + ("[" + name + "]" + rest), first, inPair) ==
            Section(if |name| <= 49 then name else name[..49])
  {
    hide RStrip, LSkip, Stripped, Find, HasBom;
    var text := lead + ("[" + name + "]" + rest);
    assert text == lead + (("[" + name) + ([']'] + rest));
    PairStripped(lead, "[" + name, ']', rest);
    var t := ("[" + name) + ([']'] + RStrip(rest));
    assert t[1..] == name + [']'] + RStrip(rest);
    FindStops(name, ']', RStrip(rest), false);
    assert t[1..1 + |name|] == name;
    assert |t| < |RStrip(text)| <==> lead != [];
  }

  /** A line that starts with a blank, behind a pair, gives that pair the line's text as its value, comment and all. */
  lemma ContinuationRead(p: Scan, lead: string, text: string, tail: string, reply: Reply)
    requires p.prevName != [] && p.lineno > 0 && lead != [] && Blank(lead) && Blank(tail)
    requires text != [] && Trimmed(text) && text[0] != ';' && text[0] != '#'
    ensures var p' := StepLine(p, lead + (text + tail), reply);
            && p'.calls == p.calls + [Call(p.section, p.prevName, text)]
            && p'.section == p.section && p'.prevName == p.prevName
  {
    hide RStrip, LSkip, ClassifySection, ClassifyPair, Truncate;
    assert lead + (text + tail) == (lead + text) + tail;
    RStripTail(lead + text, tail);
    LSkipHead(lead, text);
  }

  /** A pair and a continuation line behind it: the handler gets the key twice, last with the continuation line. */
  lemma PairContinued(p: Scan, e: Entry, lead: string, text: string, tail: string, reply: Reply)
    requires Printable(e) && p.lineno > 0 && lead != [] && Blank(lead) && Blank(tail)
    requires text != [] && Trimmed(text) && text[0] != ';' && text[0] != '#'
    ensures var p' := StepLine(StepLine(p, PairText(e) + "\n", reply), lead + (text + tail), reply);
            && p'.calls == p.calls + [Call(p.section, e.key, e.value),
                                      Call(p.section, if |e.key| <= 49 then e.key else e.key[..49], text)]
            && p'.section == p.section
  {
    hide Classify, Printable, PairText;
    PairFacts(e);
    PairRead("", e, false, p.prevName != []);
    assert "" + PairText(e) + "\n" == PairText(e) + "\n";
    ContinuationRead(StepLine(p, PairText(e) + "\n", reply), lead, text, tail, reply);
  }

  /** A section header sets the section and ends continuation, and calls no handler. */
  lemma HeaderStep(p: Scan, name: string, rest: string, reply: Reply)
    requires p.lineno > 0 && ']' !in name && NoComment(name)
    ensures StepLine(p, "[" + name + "]" + rest, reply) ==
            p.(lineno := p.lineno + 1, section := if |name| <= 49 then name else name[..49], prevName := "")
  {
    hide Classify;
    HeaderRead("", name, rest, false, p.prevName != []);
    assert "" + ("[" + name + "]" + rest) == "[" + name + "]" + rest;
  }

  /** The character occurs in front of any comment. */
  ghost predicate Occurs(s: string, c: char) {
    exists k :: 0 <= k < |s| && s[k] == c && forall j :: 0 <= j < k ==> !StartsComment(s, j, false)
  }

  lemma FoundIff(s: string, c: char)
    ensures Occurs(s, c) <==> Find(s, c, false) < |s| && s[Find(s, c, false)] == c
  {
    hide Find;
    IsFind(s, c, false);
    var f := Find(s, c, false);
    if k :| 0 <= k < |s| && s[k] == c && forall j :: 0 <= j < k ==> !StartsComment(s, j, false) {
      assert f <= k;
      assert f < k ==> !StartsComment(s, f, false);
    }
  }

  /** A stripped line is malformed exactly when its section is not closed, or it has no separator, in front of any comment. */
  lemma MalformedIff(t: string, inPair: bool)
    requires t != [] && t[0] != ';' && t[0] != '#'
    ensures ClassifyStripped(t, false, inPair) == Malformed <==>
            if t[0] == '[' then !Occurs(t[1..], ']') else !Occurs(t, '=') && !Occurs(t, ':')
  {
    hide Find, NameOf, ValueOf;
    FoundIff(t[1..], ']');
    var k := Find(t[1..], ']', false);
    assert k < |t| - 1 ==> t[1..][k] == t[1 + k];
    IsFind(t, ':', false);
    FoundIff(t, '=');
    FoundIff(t, ':');
  }
}
