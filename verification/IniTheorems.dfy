/**
  What the scanner promises of whole files: its result names the first malformed
  line, comments and blank lines can be inserted anywhere, and a printed
  configuration is read back.
  */
module IniTheorems {
  import opened Text
  import opened IniLines

  lemma {:induction false} FoldConcat(p: Scan, a: seq<string>, b: seq<string>, reply: Reply)
    ensures Fold(p, a + b, reply) == Fold(Fold(p, a, reply), b, reply)
    decreases |a|
  {
    hide StepLine;
    if a == [] {
      assert a + b == b;
    } else {
      assert (a + b)[1..] == a[1..] + b && (a + b)[0] == a[0];
      FoldConcat(StepLine(p, a[0], reply), a[1..], b, reply);
    }
  }

  // ------------------------------------------------------------ the result

  /** Line i + 1 of the file is malformed in the context the lines before it leave. */
  ghost predicate MalformedAt(lines: seq<string>, i: nat, reply: Reply)
    requires i < |lines|
  {
    LineIn(Fold(Start, lines[..i], reply), lines[i]) == Malformed
  }

  /** Line i + 1 makes a call that the handler rejects. */
  ghost predicate RejectedAt(lines: seq<string>, i: nat, reply: Reply)
    requires i < |lines|
  {
    var calls, calls' := Fold(Start, lines[..i], reply).calls, Fold(Start, lines[..i + 1], reply).calls;
    calls' != calls && !reply(calls')
  }

  ghost predicate FaultAt(lines: seq<string>, i: nat, reply: Reply)
    requires i < |lines|
  {
    MalformedAt(lines, i, reply) || RejectedAt(lines, i, reply)
  }

  lemma {:induction false} LinesCounted(p: Scan, lines: seq<string>, reply: Reply)
    ensures Fold(p, lines, reply).lineno == p.lineno + |lines|
    decreases |lines|
  {
    hide StepLine;
    if lines != [] {
      StepAdvances(p, lines[0], reply);
      LinesCounted(StepLine(p, lines[0], reply), lines[1..], reply);
    }
  }

  lemma FoldSnoc(lines: seq<string>, i: nat, reply: Reply)
    requires i < |lines|
    ensures Fold(Start, lines[..i + 1], reply) == StepLine(Fold(Start, lines[..i], reply), lines[i], reply)
    ensures Fold(Start, lines[..i], reply).lineno == i
  {
    hide StepLine;
    assert lines[..i + 1] == lines[..i] + [lines[i]];
    FoldConcat(Start, lines[..i], [lines[i]], reply);
    assert [lines[i]][1..] == [];
    LinesCounted(Start, lines[..i], reply);
  }

  /**
    The scanner returns the number of the first line that is malformed or whose
    call the handler rejects, and 0 when there is none; it reads on behind it.
    */
  lemma {:induction false} FirstFault(lines: seq<string>, n: nat, reply: Reply)
    requires n <= |lines|
    ensures var e := Fold(Start, lines[..n], reply).error;
            && e <= n
            && (e == 0 ==> forall i :: 0 <= i < n ==> !FaultAt(lines, i, reply))
            && (e > 0 ==> FaultAt(lines, e - 1, reply) && forall i :: 0 <= i < e - 1 ==> !FaultAt(lines, i, reply))
  {
    hide Fold, StepLine, LineIn;
    if n == 0 {
      NothingFolded(lines, reply);
    } else {
      FirstFault(lines, n - 1, reply);
      FoldSnoc(lines, n - 1, reply);
      StepFault(Fold(Start, lines[..n - 1], reply), lines[n - 1], reply);
    }
  }

  lemma NothingFolded(lines: seq<string>, reply: Reply)
    ensures Fold(Start, lines[..0], reply) == Start
  {
  }

  lemma StepFault(p: Scan, text: string, reply: Reply)
    ensures var p' := StepLine(p, text, reply);
            p'.error == if p.error > 0 then p.error
                        else if LineIn(p, text) == Malformed || (p'.calls != p.calls && !reply(p'.calls)) then p.lineno + 1
                        else 0
  {
    hide Classify;
    var line := LineIn(p, text);
    assert p.calls + [Call(p.section, p.prevName, "")] != p.calls;
    if line.Pair? || line.Continuation? {
      var calls := StepLine(p, text, reply).calls;
      assert |calls| == |p.calls| + 1;
    }
  }

  predicate Accepts(calls: seq<Call>) { true }

  ghost predicate NoneMalformed(lines: seq<string>) {
    forall i :: 0 <= i < |lines| ==> !MalformedAt(lines, i, Accepts)
  }

  /** With a handler that accepts everything, 0 is returned exactly when no line is malformed. */
  lemma ZeroIffWellFormed(file: string)
    ensures Parsed(file, Accepts).error == 0 <==> NoneMalformed(Lines(file))
  {
    hide Fold, StepLine, LineIn;
    var lines := Lines(file);
    assert lines[..|lines|] == lines;
    FirstFault(lines, |lines|, Accepts);
    forall i | 0 <= i < |lines| ensures !RejectedAt(lines, i, Accepts) {
      assert Accepts(Fold(Start, lines[..i + 1], Accepts).calls);
    }
    var e := Parsed(file, Accepts).error;
    assert e > 0 ==> FaultAt(lines, e - 1, Accepts);
    forall i | 0 <= i < |lines| && !FaultAt(lines, i, Accepts) ensures !MalformedAt(lines, i, Accepts) {
    }
  }

  // ---------------------------------------------- comments and blank lines

  /** A blank line, or one whose first visible character starts a comment. */
  predicate IsNoise(text: string) {
    var t := Stripped(text);
    t == [] || t[0] == ';' || t[0] == '#'
  }

  lemma {:induction false} StrippedBom(s: string)
    requires s != [] && !IsSpace(s[0])
    ensures RStrip(s) != [] && RStrip(s)[0] == s[0] && Stripped(s) == RStrip(s)
  {
    if IsSpace(s[|s| - 1]) {
      StrippedBom(s[..|s| - 1]);
    }
  }

  lemma NoiseSkips(p: Scan, text: string, reply: Reply)
    requires IsNoise(text)
    ensures StepLine(p, text, reply) == p.(lineno := p.lineno + 1)
  {
    if HasBom(text) {
      assert text[0] == BOM[0];
      StrippedBom(text);
    }
  }

  lemma {:induction false} NoiseBlock(p: Scan, noise: seq<string>, reply: Reply)
    requires forall i :: 0 <= i < |noise| ==> IsNoise(noise[i])
    ensures Fold(p, noise, reply) == p.(lineno := p.lineno + |noise|)
    decreases |noise|
  {
    hide StepLine;
    if noise != [] {
      NoiseSkips(p, noise[0], reply);
      NoiseBlock(StepLine(p, noise[0], reply), noise[1..], reply);
    }
  }

  /** p' has read k more lines than p, all of them behind line n. */
  ghost predicate Shifted(p: Scan, p': Scan, n: nat, k: nat) {
    && p'.section == p.section && p'.prevName == p.prevName && p'.calls == p.calls
    && p'.lineno == p.lineno + k && n <= p.lineno
    && p'.error == if p.error <= n then p.error else p.error + k
  }

  lemma ShiftedStep(p: Scan, p': Scan, n: nat, k: nat, text: string, reply: Reply)
    requires Shifted(p, p', n, k) && (p.lineno > 0 || k == 0 || !HasBom(text))
    ensures Shifted(StepLine(p, text, reply), StepLine(p', text, reply), n, k)
  {
    hide LineIn;
    SameLine(p, p', text);
  }

  lemma SameLine(p: Scan, p': Scan, text: string)
    requires p'.prevName == p.prevName && (p.lineno == 0 && HasBom(text) <==> p'.lineno == 0 && HasBom(text))
    ensures LineIn(p, text) == LineIn(p', text)
  {
    hide ClassifyStripped, Stripped;
  }

  lemma {:induction false} ShiftedFold(p: Scan, p': Scan, n: nat, k: nat, lines: seq<string>, reply: Reply)
    requires Shifted(p, p', n, k) && (p.lineno > 0 || k == 0 || lines == [] || !HasBom(lines[0]))
    ensures Shifted(Fold(p, lines, reply), Fold(p', lines, reply), n, k)
    decreases |lines|
  {
    hide StepLine, HasBom;
    if lines != [] {
      StepAdvances(p, lines[0], reply);
      ShiftedStep(p, p', n, k, lines[0], reply);
      ShiftedFold(StepLine(p, lines[0], reply), StepLine(p', lines[0], reply), n, k, lines[1..], reply);
    }
  }

  predicate AtLineStart(text: string) { text == [] || text[|text| - 1] == '\n' }

  lemma {:induction false} LineLengthConcat(a: string, b: string, max: nat)
    requires a != [] && AtLineStart(a)
    ensures LineLength(a + b, max) == LineLength(a, max)
    decreases max
  {
    if max > 0 && a[0] != '\n' {
      assert (a + b)[1..] == a[1..] + b;
      LineLengthConcat(a[1..], b, max - 1);
    }
  }

  /** A file falls into lines part by part when the parts meet at a line start. */
  lemma {:induction false} LinesConcat(a: string, b: string)
    requires AtLineStart(a)
    ensures Lines(a + b) == Lines(a) + Lines(b)
    decreases |a|
  {
    hide LineLength, UpToNul;
    if a == [] {
      assert a + b == b;
    } else {
      LineLengthConcat(a, b, MAX_LINE - 1);
      var n := LineLength(a, MAX_LINE - 1);
      assert (a + b)[..n] == a[..n] && (a + b)[n..] == a[n..] + b;
      LinesConcat(a[n..], b);
    }
  }

  /** Noise among the lines of a file. */
  lemma NoiseInLines(a: seq<string>, n: seq<string>, b: seq<string>, reply: Reply)
    requires forall i :: 0 <= i < |n| ==> IsNoise(n[i])
    requires a == [] ==> b == [] || !HasBom(b[0])
    ensures var p, p' := Fold(Start, a + b, reply), Fold(Start, a + (n + b), reply);
            p'.calls == p.calls && p'.error == if p.error <= |a| then p.error else p.error + |n|
  {
    hide Fold, IsNoise, HasBom;
    var p := Fold(Start, a, reply);
    FoldConcat(Start, a, b, reply);
    FoldConcat(Start, a, n + b, reply);
    FoldConcat(p, n, b, reply);
    NoiseBlock(p, n, reply);
    LinesCounted(Start, a, reply);
    assert a[..|a|] == a;
    FirstFault(a, |a|, reply);
    ShiftedFold(p, p.(lineno := p.lineno + |n|), |a|, |n|, b, reply);
  }

  /**
    Inserting a block of blank and comment lines at a line start changes no handler
    call, even between a pair and its continuation line, and moves the reported
    line number by the number of lines inserted before it. The one exception is a
    block put in front of a file that starts with a byte order mark.
    */
  lemma InsertedNoise(before: string, noise: string, after: string, reply: Reply)
    requires AtLineStart(before) && AtLineStart(noise)
    requires forall i :: 0 <= i < |Lines(noise)| ==> IsNoise(Lines(noise)[i])
    requires before == [] ==> Lines(after) == [] || !HasBom(Lines(after)[0])
    ensures var p, p' := Parsed(before + after, reply), Parsed(before + noise + after, reply);
            && p'.calls == p.calls
            && p'.error == if p.error <= |Lines(before)| then p.error else p.error + |Lines(noise)|
  {
    hide Fold, Lines, IsNoise, HasBom, AtLineStart;
    LinesConcat(before, after);
    assert before + noise + after == before + (noise + after);
    LinesConcat(before, noise + after);
    LinesConcat(noise, after);
    EmptyLines(before);
    NoiseInLines(Lines(before), Lines(noise), Lines(after), reply);
  }

  lemma EmptyLines(file: string)
    ensures Lines(file) == [] <==> file == []
  {
  }
}
