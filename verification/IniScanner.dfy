/**
  The scanner as ini.c runs it: one line buffer truncated in place, positions
  instead of pointers, and fixed buffers for the section and the previous name.
  Its calls and its result are those of the fold of IniLines.
  */
module IniScanner {
  import opened Text
  import opened IniLines

  /** strlen */
  method StrLen(a: array<char>, p: nat, ghost s: string) returns (n: nat)
    requires Holds(a[..], p, s)
    ensures n == |s|
  {
    n := 0;
    assert forall i :: p <= i < p + |s| ==> a[i] == a[..][p..p + |s|][i - p];
    while a[p + n] != NUL
      invariant n <= |s|
      decreases |s| - n
    {
      n := n + 1;
    }
  }

  /** The characters of the C string at p. */
  method CString(a: array<char>, p: nat, ghost s: string) returns (t: string)
    requires Holds(a[..], p, s)
    ensures t == s
  {
    var n := StrLen(a, p, s);
    t := a[p..p + n];
  }

  method RStripAt(a: array<char>, p: nat, ghost s: string)
    requires Holds(a[..], p, s)
    modifies a
    ensures Holds(a[..], p, RStrip(s))
    ensures forall i :: 0 <= i < a.Length && (i < p || p + |s| <= i) ==> a[i] == old(a[i])
  {
    var n: nat := StrLen(a, p, s);
    assert s[..n] == s;
    while n > 0 && IsSpace(a[p + n - 1])
      invariant n <= |s| && Holds(a[..], p, s[..n]) && RStrip(s[..n]) == RStrip(s)
      invariant forall i :: 0 <= i < a.Length && (i < p || p + |s| <= i) ==> a[i] == old(a[i])
    {
      assert a[p + n - 1] == a[..][p..p + n][n - 1] == s[..n][n - 1];
      assert s[..n][..n - 1] == s[..n - 1];
      Cut(a[..], p, s[..n], n - 1);
      n := n - 1;
      a[p + n] := NUL;
    }
    assert n > 0 ==> a[p + n - 1] == a[..][p..p + n][n - 1] == s[..n][n - 1];
  }

  method LSkipAt(a: array<char>, p: nat, ghost s: string) returns (q: nat)
    requires Holds(a[..], p, s)
    ensures q == p + |s| - |LSkip(s)| && Holds(a[..], q, LSkip(s))
  {
    hide LSkip;
    q := p;
    ghost var t := s;
    while a[q] != NUL && IsSpace(a[q])
      invariant p <= q <= p + |s| && q - p == |s| - |t| && Holds(a[..], q, t) && LSkip(t) == LSkip(s)
      decreases |t|
    {
      assert t != [] && t[0] == a[..][q..q + |t|][0];
      Suffix(a[..], q, t, 1);
      LSkipStep(t);
      t := t[1..];
      q := q + 1;
    }
    assert t != [] ==> t[0] == a[..][q..q + |t|][0];
    LSkipStep(t);
  }

  method FindAt(a: array<char>, p: nat, c: char, ghost s: string) returns (q: nat)
    requires Holds(a[..], p, s)
    ensures q == p + Find(s, c, false)
  {
    q := p;
    ghost var t := s;
    var wasWhitespace := false;
    while a[q] != NUL && a[q] != c && !(wasWhitespace && a[q] == ';')
      invariant p <= q <= p + |s| && q - p == |s| - |t| && Holds(a[..], q, t)
      invariant Find(s, c, false) == q - p + Find(t, c, wasWhitespace)
      decreases |t|
    {
      assert t != [] && t[0] == a[..][q..q + |t|][0];
      wasWhitespace := IsSpace(a[q]);
      Suffix(a[..], q, t, 1);
      t := t[1..];
      q := q + 1;
    }
    assert t != [] ==> t[0] == a[..][q..q + |t|][0];
  }

  /** strncpy0: copies at most size characters, pads with NULs, and ends the buffer with one. */
  method StrNCpy0(dest: array<char>, a: array<char>, p: nat, ghost s: string)
    requires Holds(a[..], p, s) && dest.Length > 0 && dest != a
    modifies dest
    ensures Holds(dest[..], 0, Truncate(s, dest.Length))
  {
    var n := StrLen(a, p, s);
    for i := 0 to dest.Length
      invariant forall k :: 0 <= k < i ==> dest[k] == if k < |s| then s[k] else NUL
    {
      assert i < |s| ==> a[p + i] == a[..][p..p + |s|][i];
      dest[i] := if i < n then a[p + i] else NUL;
    }
    dest[dest.Length - 1] := NUL;
    var t := Truncate(s, dest.Length);
    assert dest[0..|t|] == t;
  }

  lemma Kept(b: seq<char>, b': seq<char>, p: nat, s: string)
    requires Holds(b, p, s) && |b'| == |b| && forall i :: p <= i <= p + |s| ==> b'[i] == b[i]
    ensures Holds(b', p, s)
  {
    assert b'[p..p + |s|] == b[p..p + |s|];
  }

  /** fgets: fills the buffer with the next line of the file. */
  method Fgets(line: array<char>, file: string, pos: nat) returns (next: nat)
    requires line.Length == MAX_LINE && pos < |file|
    modifies line
    ensures next == pos + LineLength(file[pos..], MAX_LINE - 1) <= |file|
    ensures Holds(line[..], 0, UpToNul(file[pos..next]))
  {
    next := pos;
    var more := true;
    while more && next - pos < MAX_LINE - 1 && next < |file|
      invariant pos <= next <= |file| && next - pos <= MAX_LINE - 1
      invariant line[..next - pos] == file[pos..next]
      invariant LineLength(file[pos..], MAX_LINE - 1) ==
                next - pos + if more then LineLength(file[next..], MAX_LINE - 1 - (next - pos)) else 0
      decreases more, |file| - next
    {
      assert file[next..][1..] == file[next + 1..];
      line[next - pos] := file[next];
      more := file[next] != '\n';
      next := next + 1;
    }
    line[next - pos] := NUL;
    ghost var text := UpToNul(file[pos..next]);
    assert line[..next - pos] == file[pos..next];
    assert line[0..|text|] == file[pos..next][..|text|];
  }

  method ScanSection(line: array<char>, start: nat, section: array<char>, prevName: array<char>, ghost t: string)
    returns (ok: bool)
    requires Holds(line[..], start, t) && t != [] && line != section && line != prevName && section != prevName
    requires section.Length == MAX_SECTION && prevName.Length == MAX_NAME
    modifies line, section, prevName
    ensures ok <==> ClassifySection(t).Section?
    ensures ok ==> Holds(section[..], 0, ClassifySection(t).name) && Holds(prevName[..], 0, "")
    ensures !ok ==> section[..] == old(section[..]) && prevName[..] == old(prevName[..])
  {
    hide Find;
    ghost var rest := t[1..];
    Suffix(line[..], start, t, 1);
    var end := FindAt(line, start + 1, ']', rest);
    ghost var k := end - start - 1;
    assert k < |rest| ==> line[end] == line[..][start + 1..start + 1 + |rest|][k];
    ok := line[end] == ']';
    if ok {
      Cut(line[..], start + 1, rest, k);
      line[end] := NUL;
      StrNCpy0(section, line, start + 1, rest[..k]);
      assert rest[..k] == t[1..1 + k];
      prevName[0] := NUL;
      assert prevName[0..0] == "";
    }
  }

  /** Cuts the pair at its separator and strips both halves; the name stays at `start`. */
  method ScanPair(line: array<char>, start: nat, ghost t: string) returns (ok: bool, value: nat)
    requires Holds(line[..], start, t)
    modifies line
    ensures ok <==> ClassifyPair(t).Pair?
    ensures ok ==> Holds(line[..], start, ClassifyPair(t).name) && Holds(line[..], value, ClassifyPair(t).value)
  {
    hide Find, NameOf, ValueOf;
    ok, value := false, start;
    assert forall i :: start <= i < start + |t| ==> line[i] == line[..][start..start + |t|][i - start];
    var end := FindAt(line, start, '=', t);
    if line[end] != '=' {
      end := FindAt(line, start, ':', t);
    }
    assert end == start + Separator(t);
    if line[end] == '=' || line[end] == ':' {
      StripName(line, start, end, t, end - start);
      value := StripValue(line, start, end, t, end - start);
      ok := true;
    }
  }

  /** *end = '\0'; name = rstrip(start); */
  method StripName(line: array<char>, start: nat, end: nat, ghost t: string, ghost k: nat)
    requires Holds(line[..], start, t) && k < |t| && end == start + k
    modifies line
    ensures Holds(line[..], start, NameOf(t, k)) && Holds(line[..], end + 1, t[k + 1..])
  {
    hide RStrip;
    Cut(line[..], start, t, k);
    Suffix(line[..], start, t, k + 1);
    ghost var b := line[..];
    line[end] := NUL;
    Kept(b, line[..], end + 1, t[k + 1..]);
    b := line[..];
    RStripAt(line, start, t[..k]);
    Kept(b, line[..], end + 1, t[k + 1..]);
  }

  /** value = lskip(end + 1), cut at a comment and stripped. */
  method StripValue(line: array<char>, start: nat, end: nat, ghost t: string, ghost k: nat) returns (value: nat)
    requires k < |t| && end == start + k
    requires Holds(line[..], start, NameOf(t, k)) && Holds(line[..], end + 1, t[k + 1..])
    modifies line
    ensures Holds(line[..], start, NameOf(t, k)) && Holds(line[..], value, ValueOf(t, k))
  {
    hide RStrip, LSkip, Find;
    ghost var name, v := NameOf(t, k), LSkip(t[k + 1..]);
    assert |name| <= k by { NameFits(t, k); }
    value := LSkipAt(line, end + 1, t[k + 1..]);
    ghost var b := line[..];
    CutComment(line, value, v);
    Kept(b, line[..], start, name);
    b := line[..];
    RStripAt(line, value, v[..Find(v, NUL, false)]);
    Kept(b, line[..], start, name);
  }

  lemma NameFits(t: string, k: nat)
    requires k < |t|
    ensures |NameOf(t, k)| <= k
  {
  }

  method CutComment(line: array<char>, value: nat, ghost v: string)
    requires Holds(line[..], value, v)
    modifies line
    ensures Holds(line[..], value, v[..Find(v, NUL, false)])
    ensures forall i :: 0 <= i < value ==> line[i] == old(line[i])
  {
    hide Find;
    assert forall i :: value <= i < value + |v| ==> line[i] == line[..][value..value + |v|][i - value];
    var stop := FindAt(line, value, NUL, v);
    FindNul(v, false);
    if line[stop] == ';' {
      Cut(line[..], value, v, stop - value);
      line[stop] := NUL;
    } else {
      assert v[..stop - value] == v;
    }
  }

  /** In a C string the search for NUL stops at a comment or at the end. */
  lemma {:induction false} FindNul(s: string, wasSpace: bool)
    requires NUL !in s
    ensures var k := Find(s, NUL, wasSpace); k < |s| ==> s[k] == ';'
  {
    if s != [] && !(wasSpace && s[0] == ';') {
      FindNul(s[1..], IsSpace(s[0]));
    }
  }

  /** The buffers hold the section and the previous name of the scan state. */
  ghost predicate InBuffers(section: array<char>, prevName: array<char>, p: Scan)
    reads section, prevName
  {
    section.Length == MAX_SECTION && prevName.Length == MAX_NAME
    && Holds(section[..], 0, p.section) && Holds(prevName[..], 0, p.prevName)
  }

  /** The body of the line loop for a stripped line that starts at `start`. */
  method ScanStripped(line: array<char>, start: nat, section: array<char>, prevName: array<char>, lineno: nat,
                      calls0: seq<Call>, error0: nat, reply: Reply, ghost t: string, ghost p: Scan)
    returns (calls: seq<Call>, error: nat)
    requires Holds(line[..], start, t) && line != section && line != prevName && section != prevName
    requires InBuffers(section, prevName, p)
    requires lineno == p.lineno && calls0 == p.calls && error0 == p.error
    modifies line, section, prevName
    ensures var p' := Apply(p, ClassifyStripped(t, start > 0, p.prevName != []), reply);
            InBuffers(section, prevName, p') && calls == p'.calls && error == p'.error && p'.lineno == p.lineno
  {
    calls, error := calls0, error0;
    assert t != [] ==> line[start] == line[..][start..start + |t|][0];
    assert p.prevName != [] ==> prevName[0] == prevName[..][0..|p.prevName|][0];
    if line[start] == NUL || line[start] == ';' || line[start] == '#' {
    } else if prevName[0] != NUL && start > 0 {
      var s := CString(section, 0, p.section);
      var n := CString(prevName, 0, p.prevName);
      var v := CString(line, start, t);
      calls := calls + [Call(s, n, v)];
      if !reply(calls) && error == 0 {
        error := lineno;
      }
    } else if line[start] == '[' {
      var ok := ScanSection(line, start, section, prevName, t);
      if !ok && error == 0 {
        error := lineno;
      }
    } else {
      var ok, value := ScanPair(line, start, t);
      if ok {
        ghost var pair := ClassifyPair(t);
        StrNCpy0(prevName, line, start, pair.name);
        var s := CString(section, 0, p.section);
        var n := CString(line, start, pair.name);
        var v := CString(line, value, pair.value);
        calls := calls + [Call(s, n, v)];
        if !reply(calls) && error == 0 {
          error := lineno;
        }
      } else if error == 0 {
        error := lineno;
      }
    }
  }

  /** Skips a byte order mark, strips the line, and scans it. */
  method ScanLine(line: array<char>, section: array<char>, prevName: array<char>, lineno: nat,
                  calls0: seq<Call>, error0: nat, reply: Reply, ghost text: string, ghost p: Scan)
    returns (calls: seq<Call>, error: nat)
    requires Holds(line[..], 0, text) && line.Length == MAX_LINE
    requires line != section && line != prevName && section != prevName
    requires InBuffers(section, prevName, p)
    requires lineno == p.lineno + 1 && calls0 == p.calls && error0 == p.error
    modifies line, section, prevName
    ensures var p' := StepLine(p, text, reply);
            InBuffers(section, prevName, p') && calls == p'.calls && error == p'.error
  {
    hide Apply, ClassifyStripped, RStrip, LSkip;
    var start := 0;
    ghost var s := text;
    assert forall i :: 0 <= i < |text| ==> line[i] == line[..][0..|text|][i];
    var bom := lineno == 1 && line[0] == BOM[0] && line[1] == BOM[1] && line[2] == BOM[2];
    assert bom <==> p.lineno == 0 && HasBom(text);
    if bom {
      start := 3;
      Suffix(line[..], 0, text, 3);
      s := text[3..];
    }
    RStripAt(line, start, s);
    start := LSkipAt(line, start, RStrip(s));
    calls, error := ScanStripped(line, start, section, prevName, lineno, calls0, error0, reply,
                                 Stripped(s), p.(lineno := p.lineno + 1));
  }

  /** ini_parse_file */
  method ParseFile(file: string, reply: Reply) returns (calls: seq<Call>, error: nat)
    ensures calls == Parsed(file, reply).calls
    ensures error == Parsed(file, reply).error
  {
    var line := new char[MAX_LINE];
    var section := new char[MAX_SECTION](_ => NUL);
    var prevName := new char[MAX_NAME](_ => NUL);
    hide StepLine, LineLength, UpToNul, Lines, Fold, InBuffers;
    calls, error := [], 0;
    var lineno, pos := 0, 0;
    ghost var p := Start;
    assert file[0..] == file;
    EmptyBuffers(section, prevName);
    while pos < |file|
      invariant pos <= |file| && InBuffers(section, prevName, p)
      invariant lineno == p.lineno && calls == p.calls && error == p.error
      invariant Fold(p, Lines(file[pos..]), reply) == Parsed(file, reply)
    {
      var next := Fgets(line, file, pos);
      ghost var text := UpToNul(file[pos..next]);
      NextLine(file, pos, next, p, reply);
      lineno := lineno + 1;
      calls, error := ScanLine(line, section, prevName, lineno, calls, error, reply, text, p);
      StepAdvances(p, text, reply);
      p := StepLine(p, text, reply);
      pos := next;
    }
    DoneScanning(p, reply);
    assert file[pos..] == [];
  }

  lemma EmptyBuffers(section: array<char>, prevName: array<char>)
    requires section.Length == MAX_SECTION && prevName.Length == MAX_NAME
    requires section[0] == NUL && prevName[0] == NUL
    ensures InBuffers(section, prevName, Start)
  {
    assert section[0..0] == "" && prevName[0..0] == "";
  }

  lemma NextLine(file: string, pos: nat, next: nat, p: Scan, reply: Reply)
    requires pos < |file| && next == pos + LineLength(file[pos..], MAX_LINE - 1) <= |file|
    ensures pos < next
    ensures Fold(p, Lines(file[pos..]), reply) ==
            Fold(StepLine(p, UpToNul(file[pos..next]), reply), Lines(file[next..]), reply)
  {
    hide StepLine, LineLength, UpToNul;
    assert file[pos..][..next - pos] == file[pos..next] && file[pos..][next - pos..] == file[next..];
  }

  lemma DoneScanning(p: Scan, reply: Reply)
    ensures Fold(p, Lines([]), reply) == p
  {
  }
}
