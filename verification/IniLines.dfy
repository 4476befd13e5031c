/**
  What the INI scanner means (ini.c): how a file falls into lines, what one line
  says in its context, and the fold of the lines into handler calls and an error.
  */
module IniLines {
  import opened Text

  const MAX_LINE: nat := 200
  const MAX_SECTION: nat := 50
  const MAX_NAME: nat := 50
  const BOM: string := ['\U{EF}', '\U{BB}', '\U{BF}']

  // ----------------------------------------------------------------- lines

  /** How many characters fgets takes: up to and including a newline, and fewer than max + 1. */
  function LineLength(file: string, max: nat): (n: nat)
    ensures n <= |file| && n <= max
    ensures file != [] && max > 0 ==> n > 0
    decreases max
  {
    if file == [] || max == 0 then 0
    else if file[0] == '\n' then 1
    else 1 + LineLength(file[1..], max - 1)
  }

  /** A C string ends at the first NUL even when fgets stored more. */
  function UpToNul(s: string): (t: string)
    ensures NUL !in t && |t| <= |s| && t == s[..|t|] && (|t| < |s| ==> s[|t|] == NUL)
  {
    if s == [] || s[0] == NUL then [] else [s[0]] + UpToNul(s[1..])
  }

  /** The successive fills of the line buffer. */
  function Lines(file: string): seq<string>
    decreases |file|
  {
    if file == [] then []
    else var n := LineLength(file, MAX_LINE - 1);
         [UpToNul(file[..n])] + Lines(file[n..])
  }

  // -------------------------------------------------------------- one line

  function RStrip(s: string): (t: string)
    ensures t <= s
  {
    if s != [] && IsSpace(s[|s| - 1]) then RStrip(s[..|s| - 1]) else s
  }

  function LSkip(s: string): (t: string)
    ensures |t| <= |s| && t == s[|s| - |t|..]
  {
    if s != [] && IsSpace(s[0]) then LSkip(s[1..]) else s
  }

  /** Index of the first c or of a ';' behind whitespace; the length when there is neither. */
  function Find(s: string, c: char, wasSpace: bool): (k: nat)
    ensures k <= |s|
  {
    if s == [] || s[0] == c || (wasSpace && s[0] == ';') then 0 else 1 + Find(s[1..], c, IsSpace(s[0]))
  }

  /** What strncpy0 leaves in a buffer of the given size. */
  function Truncate(s: string, size: nat): string
    requires size > 0
  {
    if |s| < size then s else s[..size - 1]
  }

  predicate HasBom(s: string) { BOM <= s }

  datatype Line =
    | Skip
    | Section(name: string)
    | Pair(name: string, value: string)
    | Continuation(value: string)
    | Malformed

  /** The stripped text of a line. */
  function Stripped(s: string): string { LSkip(RStrip(s)) }

  function ClassifySection(t: string): Line
    requires t != []
  {
    var k := Find(t[1..], ']', false);
    if k < |t| - 1 && t[1 + k] == ']' then Section(Truncate(t[1..1 + k], MAX_SECTION)) else Malformed
  }

  /** Where the name of a pair ends: at the first '=', or else at the first ':'. */
  function Separator(t: string): (k: nat)
    ensures k <= |t|
  {
    var k := Find(t, '=', false);
    if k < |t| && t[k] == '=' then k else Find(t, ':', false)
  }

  predicate HasSeparator(t: string) {
    Separator(t) < |t| && (t[Separator(t)] == '=' || t[Separator(t)] == ':')
  }

  function NameOf(t: string, k: nat): string
    requires k < |t|
  {
    RStrip(t[..k])
  }

  /** Behind the separator blanks are skipped, a comment is cut off, and trailing blanks are stripped. */
  function ValueOf(t: string, k: nat): string
    requires k < |t|
  {
    var value := LSkip(t[k + 1..]);
    RStrip(value[..Find(value, NUL, false)])
  }

  function ClassifyPair(t: string): Line {
    if HasSeparator(t) then Pair(NameOf(t, Separator(t)), ValueOf(t, Separator(t))) else Malformed
  }

  /** Classification of a stripped line; `moved` says that something was skipped in front of it. */
  function ClassifyStripped(t: string, moved: bool, inPair: bool): Line {
    if t == [] || t[0] == ';' || t[0] == '#' then Skip
    else if inPair && moved then Continuation(t)
    else if t[0] == '[' then ClassifySection(t)
    else ClassifyPair(t)
  }

  /** What a line says, given whether it is the first line and whether a pair is open for continuation. */
  function Classify(text: string, first: bool, inPair: bool): Line {
    if first && HasBom(text) then ClassifyStripped(Stripped(text[3..]), true, inPair)
    else ClassifyStripped(Stripped(text), |Stripped(text)| < |RStrip(text)|, inPair)
  }

  // -------------------------------------------------------------- the fold

  datatype Call = Call(section: string, name: string, value: string)

  /** The handler's answer to its latest call, given all calls so far. */
  type Reply = seq<Call> -> bool

  datatype Scan = Scan(section: string, prevName: string, calls: seq<Call>, error: nat, lineno: nat)

  const Start: Scan := Scan("", "", [], 0, 0)

  function Fail(p: Scan): Scan { if p.error == 0 then p.(error := p.lineno) else p }

  function Deliver(p: Scan, name: string, value: string, reply: Reply): Scan {
    var calls := p.calls + [Call(p.section, name, value)];
    var p' := p.(calls := calls);
    if reply(calls) then p' else Fail(p')
  }

  /** The context in which line number p.lineno + 1 is read. */
  function LineIn(p: Scan, text: string): Line { Classify(text, p.lineno == 0, p.prevName != []) }

  function Apply(p: Scan, line: Line, reply: Reply): Scan {
    match line
    case Skip => p
    case Section(name) => p.(section := name, prevName := "")
    case Pair(name, value) => Deliver(p.(prevName := Truncate(name, MAX_NAME)), name, value, reply)
    case Continuation(value) => Deliver(p, p.prevName, value, reply)
    case Malformed => Fail(p)
  }

  function StepLine(p: Scan, text: string, reply: Reply): Scan {
    Apply(p.(lineno := p.lineno + 1), LineIn(p, text), reply)
  }

  function Fold(p: Scan, lines: seq<string>, reply: Reply): Scan
    decreases |lines|
  {
    if lines == [] then p else Fold(StepLine(p, lines[0], reply), lines[1..], reply)
  }

  function Parsed(file: string, reply: Reply): Scan { Fold(Start, Lines(file), reply) }

  lemma StepAdvances(p: Scan, text: string, reply: Reply)
    ensures StepLine(p, text, reply).lineno == p.lineno + 1
  {
    hide Classify;
  }

  lemma LSkipStep(t: string)
    ensures LSkip(t) == if t != [] && IsSpace(t[0]) then LSkip(t[1..]) else t
  {
  }
}
