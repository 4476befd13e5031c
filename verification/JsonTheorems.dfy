/** The parser reads every written document back to its tree. */
module JsonTheorems {
  import opened Text
  import opened Json

  /** What may follow a value: the end, white space, or a structural character. */
  predicate Delimits(rest: string) {
    rest == [] || IsWs(rest[0]) || rest[0] == ',' || rest[0] == ']' || rest[0] == '}'
  }

  // -------------------------------------------------------------- the lexis

  lemma {:induction false} SkipAllWs(ws: string, rest: string)
    requires AllWs(ws) && (rest == [] || !IsWs(rest[0]))
    ensures SkipWs(ws + rest) == rest
    decreases |ws|
  {
    if ws == [] {
      assert ws + rest == rest;
    } else {
      assert (ws + rest)[1..] == ws[1..] + rest;
      SkipAllWs(ws[1..], rest);
    }
  }

  lemma {:induction false} ReadChars(text: string, rest: string)
    requires PlainText(text)
    ensures Chars(text + "\"" + rest) == Read(text, rest)
    decreases |text|
  {
    var s := text + "\"" + rest;
    if text == [] {
      assert s[1..] == rest;
    } else {
      assert s[1..] == text[1..] + "\"" + rest && s[..1] == [text[0]];
      ReadChars(text[1..], rest);
      assert [text[0]] + text[1..] == text;
    }
  }

  lemma {:induction false} RunPrefix(s: string, rest: string)
    requires rest == [] || !IsDigit(rest[0])
    ensures DigitRun(s + rest) == DigitRun(s)
    decreases |s|
  {
    if s == [] {
      assert s + rest == rest;
    } else {
      assert (s + rest)[1..] == s[1..] + rest;
      RunPrefix(s[1..], rest);
    }
  }

  lemma IntPrefix(s: string, rest: string)
    requires s != [] && Delimits(rest)
    ensures IntLength(s + rest) == IntLength(s)
  {
    RunPrefix(s, rest);
  }

  lemma FracPrefix(s: string, rest: string)
    requires Delimits(rest)
    ensures FracLength(s + rest) == FracLength(s)
  {
    if s == [] {
      assert s + rest == rest;
    } else {
      assert (s + rest)[1..] == s[1..] + rest;
      RunPrefix(s[1..], rest);
    }
  }

  lemma ExpPrefix(s: string, rest: string)
    requires Delimits(rest)
    ensures ExpLength(s + rest) == ExpLength(s)
  {
    if s == [] {
      assert s + rest == rest;
    } else {
      var k := if |s| > 1 && (s[1] == '+' || s[1] == '-') then 2 else 1;
      assert |s| == 1 && rest != [] ==> (s + rest)[1] == rest[0];
      assert (s + rest)[k..] == s[k..] + rest;
      RunPrefix(s[k..], rest);
    }
  }

  lemma NumberPrefix(s: string, rest: string)
    requires IsNumber(s) && Delimits(rest)
    ensures NumberLength(s + rest) == |s|
  {
    hide IntLength, FracLength, ExpLength;
    var m := if s[0] == '-' then 1 else 0;
    assert (s + rest)[m..] == s[m..] + rest;
    EmptyInt();
    IntPrefix(s[m..], rest);
    var i := IntLength(s[m..]);
    assert (s + rest)[m + i..] == s[m + i..] + rest;
    FracPrefix(s[m + i..], rest);
    var f := FracLength(s[m + i..]);
    assert (s + rest)[m + i + f..] == s[m + i + f..] + rest;
    ExpPrefix(s[m + i + f..], rest);
  }

  lemma EmptyInt()
    ensures IntLength([]) == 0
  {
  }

  lemma {:induction false} DigitsAreRun(s: string)
    requires forall i :: 0 <= i < |s| ==> IsDigit(s[i])
    ensures DigitRun(s) == |s|
  {
    if s != [] {
      DigitsAreRun(s[1..]);
    }
  }

  lemma {:induction false} NoLeadingZero(n: nat)
    ensures n > 0 ==> Digits(n)[0] != '0'
    ensures n == 0 ==> Digits(n) == "0"
  {
    if n >= 10 {
      NoLeadingZero(n / 10);
    }
  }

  /** Printed integers are JSON numbers. */
  lemma DecimalIsNumber(n: int)
    ensures IsNumber(Decimal(n))
  {
    var d := Digits(if n < 0 then -n else n);
    NoLeadingZero(if n < 0 then -n else n);
    DigitsAreRun(d);
    assert IntLength(d) == |d|;
    var m := if n < 0 then 1 else 0;
    assert Decimal(n)[m..] == d;
    assert Decimal(n)[m + |d|..] == [];
  }

  // ---------------------------------------------------------- the grammar

  lemma {:induction false} ReadValue(d: Doc, rest: string)
    requires Good(d) && Delimits(rest)
    ensures Value(Write(d) + rest) == Read(Tree(d), rest)
    decreases d, 1
  {
    match d
    case DString(text) => ReadString(text, rest);
    case DNumber(text) => ReadNumber(text, rest);
    case DNothing => ReadNothing(rest);
    case DArray(items) =>
      ReadItems(items, rest);
      ReadArray(items, rest);
    case DObject(members) =>
      ReadMembers(members, rest);
      ReadObject(members, rest);
  }

  lemma ReadString(text: string, rest: string)
    requires PlainText(text)
    ensures Value("\"" + text + "\"" + rest) == Read(JString(text), rest)
  {
    var s := "\"" + text + "\"" + rest;
    assert s[1..] == text + "\"" + rest;
    ReadChars(text, rest);
  }

  lemma ReadNothing(rest: string)
    ensures Value("[]" + rest) == Read(JArray([]), rest)
  {
    var s := "[]" + rest;
    assert s[1..] == "]" + rest && s[1..][1..] == rest;
  }

  lemma NumberStart(s: string)
    requires IsNumber(s)
    ensures s[0] == '-' || IsDigit(s[0])
  {
  }

  lemma OtherStart(word: string, s: string)
    requires word != [] && s != [] && word[0] != s[0]
    ensures !(word <= s)
  {
  }

  lemma ReadNumber(text: string, rest: string)
    requires IsNumber(text) && Delimits(rest)
    ensures Value(text + rest) == Read(JNumber(text), rest)
  {
    NumberPrefix(text, rest);
    NumberStart(text);
    hide NumberLength, Items, Members, Chars, SkipWs;
    var s := text + rest;
    assert s[0] == text[0];
    OtherStart("true", s);
    OtherStart("false", s);
    OtherStart("null", s);
    assert s[..|text|] == text && s[|text|..] == rest;
  }

  /** A written value does not start with white space or a closing bracket. */
  lemma FirstChar(d: Doc)
    requires Good(d)
    ensures Write(d) != [] && !IsWs(Write(d)[0]) && Write(d)[0] != ']' && Write(d)[0] != '}'
  {
    if d.DNumber? {
      NumberStart(d.text);
    }
  }

  lemma ReadArray(items: ItemDocs, rest: string)
    requires GoodItems(items)
    requires Items(SkipWs(WriteItems(items) + "]" + rest)) == Read(ItemTrees(items), rest)
    ensures Value("[" + WriteItems(items) + "]" + rest) == Read(JArray(ItemTrees(items)), rest)
  {
    hide Items, WriteItems, ItemTrees;
    var inner := WriteItems(items) + "]" + rest;
    var s := "[" + WriteItems(items) + "]" + rest;
    assert s[1..] == inner;
    ItemsStart(items, "]" + rest);
    assert WriteItems(items) + ("]" + rest) == inner;
  }

  lemma ItemsStart(items: ItemDocs, rest: string)
    requires GoodItems(items)
    ensures var t := SkipWs(WriteItems(items) + rest);
            && t != [] && t[0] != ']'
            && t == Write(items.item) + items.after
                    + (if items.LastItem? then "" else "," + WriteItems(items.rest)) + rest
  {
    hide Write;
    FirstChar(items.item);
    var tail := Write(items.item) + items.after + (if items.LastItem? then "" else "," + WriteItems(items.rest)) + rest;
    assert WriteItems(items) + rest == items.before + tail;
    SkipAllWs(items.before, tail);
  }

  /** Behind a value: white space, then what follows. */
  lemma AfterValue(d: Doc, after: string, next: string)
    requires Good(d) && AllWs(after) && next != [] && (next[0] == ',' || next[0] == ']' || next[0] == '}')
    ensures Delimits(after + next) && SkipWs(after + next) == next
  {
    SkipAllWs(after, next);
  }

  lemma {:induction false} ReadItems(items: ItemDocs, rest: string)
    requires GoodItems(items)
    ensures Items(SkipWs(WriteItems(items) + "]" + rest)) == Read(ItemTrees(items), rest)
    decreases items, 0
  {
    hide Write, Value, SkipWs, Delimits, AllWs;
    ItemsStart(items, "]" + rest);
    assert WriteItems(items) + "]" + rest == WriteItems(items) + ("]" + rest);
    var item, after := Write(items.item), items.after;
    if items.LastItem? {
      var next := "]" + rest;
      AfterValue(items.item, after, next);
      ReadValue(items.item, after + next);
      assert item + after + "" + ("]" + rest) == item + (after + next);
      assert next[1..] == rest;
    } else {
      var more := WriteItems(items.rest) + "]" + rest;
      var next := "," + more;
      AfterValue(items.item, after, next);
      ReadValue(items.item, after + next);
      assert item + after + ("," + WriteItems(items.rest)) + ("]" + rest) == item + (after + next);
      assert next[1..] == more;
      ReadItems(items.rest, rest);
    }
  }

  lemma ReadObject(members: MemberDocs, rest: string)
    requires GoodMembers(members)
    requires Members(SkipWs(WriteMembers(members) + "}" + rest)) == Read(MemberTrees(members), rest)
    ensures Value("{" + WriteMembers(members) + "}" + rest) == Read(JObject(MemberTrees(members)), rest)
  {
    hide Members, WriteMembers, MemberTrees, SkipWs, Write, NameText, MoreText, GoodMembers;
    var inner := WriteMembers(members) + "}" + rest;
    var s := "{" + WriteMembers(members) + "}" + rest;
    assert s[1..] == inner;
    MembersStart(members, "}" + rest);
    assert WriteMembers(members) + ("}" + rest) == inner;
  }

  function NameText(m: MemberDocs): string { "\"" + m.name + "\"" + m.colon + ":" + m.space }

  function MoreText(m: MemberDocs): string { if m.LastMember? then "" else "," + WriteMembers(m.rest) }

  lemma Regroup(before: string, name: string, colon: string, space: string, value: string, after: string,
                more: string, rest: string)
    ensures WriteMember(before, name, colon, space, value, after) + more + rest ==
            before + (("\"" + name + "\"" + colon + ":" + space) + (value + (after + (more + rest))))
  {
    var head := before + "\"" + name + "\"" + colon + ":" + space;
    assert head == before + ("\"" + name + "\"" + colon + ":" + space);
    assert WriteMember(before, name, colon, space, value, after) == head + (value + after);
  }

  lemma MembersStart(m: MemberDocs, rest: string)
    requires GoodMembers(m)
    ensures var t := SkipWs(WriteMembers(m) + rest);
            && t != [] && t[0] == '"'
            && t == NameText(m) + (Write(m.value) + (m.after + (MoreText(m) + rest)))
  {
    hide Write, WriteMember;
    Regroup(m.before, m.name, m.colon, m.space, Write(m.value), m.after, MoreText(m), rest);
    var member := WriteMember(m.before, m.name, m.colon, m.space, Write(m.value), m.after);
    assert WriteMembers(m) == member + MoreText(m);
    var tail := NameText(m) + (Write(m.value) + (m.after + (MoreText(m) + rest)));
    assert tail[0] == NameText(m)[0] == '"';
    SkipAllWs(m.before, tail);
  }

  lemma ReadName(m: MemberDocs, rest: string)
    requires GoodMembers(m) && rest != [] && !IsWs(rest[0])
    ensures Name(NameText(m) + rest) == Read(m.name, rest)
  {
    var s := NameText(m) + rest;
    var behind := m.colon + (":" + (m.space + rest));
    assert s[1..] == m.name + "\"" + behind;
    ReadChars(m.name, behind);
    SkipAllWs(m.colon, ":" + (m.space + rest));
    assert (":" + (m.space + rest))[1..] == m.space + rest;
    SkipAllWs(m.space, rest);
  }

  /** One member: its name, its value, and what comes behind it. */
  lemma {:induction false} ReadMember(m: MemberDocs, next: string)
    requires GoodMembers(m) && next != [] && (next[0] == ',' || next[0] == '}')
    ensures var behind := m.after + next;
            && Name(NameText(m) + (Write(m.value) + behind)) == Read(m.name, Write(m.value) + behind)
            && Value(Write(m.value) + behind) == Read(Tree(m.value), behind) && SkipWs(behind) == next
    decreases m, 0
  {
    hide Write, Value, SkipWs, Delimits, AllWs, Name, NameText, PlainText;
    FirstChar(m.value);
    AfterValue(m.value, m.after, next);
    ReadValue(m.value, m.after + next);
    ReadName(m, Write(m.value) + (m.after + next));
  }

  lemma {:induction false} ReadMembers(m: MemberDocs, rest: string)
    requires GoodMembers(m)
    ensures Members(SkipWs(WriteMembers(m) + "}" + rest)) == Read(MemberTrees(m), rest)
    decreases m, 1
  {
    hide Write, WriteMembers, Value, SkipWs, Name, NameText, PlainText;
    MembersStart(m, "}" + rest);
    assert WriteMembers(m) + "}" + rest == WriteMembers(m) + ("}" + rest);
    if m.LastMember? {
      var next := "}" + rest;
      ReadMember(m, next);
      assert "" + next == next && next[1..] == rest;
    } else {
      var more := WriteMembers(m.rest) + "}" + rest;
      var next := "," + more;
      ReadMember(m, next);
      assert MoreText(m) + ("}" + rest) == next && next[1..] == more;
      ReadMembers(m.rest, rest);
    }
  }

  /** Every document is read back from its text. */
  lemma ReadBack(d: Doc)
    requires Good(d)
    ensures ParseText(Write(d)) == Read(Tree(d), [])
  {
    hide Value, Write, Tree;
    ReadValue(d, []);
    assert Write(d) + [] == Write(d);
    FirstChar(d);
  }

  // ---------------------------------------------- texts that do not parse

  /** The start of a member, as hand-written texts put it. */
  function Key(name: string): string { "\"" + name + "\"" + ":" + " " }

  lemma ReadKey(name: string, rest: string)
    requires PlainText(name) && rest != [] && !IsWs(rest[0])
    ensures Name(Key(name) + rest) == Read(name, rest)
  {
    var m := LastMember("", name, "", " ", DNothing, "");
    assert "\"" + name + "\"" + "" == "\"" + name + "\"";
    assert NameText(m) == Key(name);
    ReadName(m, rest);
  }

  /** Nothing starts with a closing bracket. */
  lemma NoValue(rest: string)
    ensures Value("]" + rest).Failed? && Value("}" + rest).Failed?
  {
  }

  lemma ItemsFail(item: Doc, more: string)
    requires Good(item) && Items(SkipWs(more)).Failed?
    ensures Items(Write(item) + ("," + more)).Failed?
  {
    hide Write, Value, SkipWs;
    ReadValue(item, "," + more);
    SkipAllWs("", "," + more);
    assert "" + ("," + more) == "," + more && ("," + more)[1..] == more;
  }

  lemma MembersFail(name: string, value: Doc, more: string)
    requires PlainText(name) && Good(value) && Members(SkipWs(more)).Failed?
    ensures Members(Key(name) + (Write(value) + ("," + more))).Failed?
  {
    hide Write, Value, SkipWs, Key, Name;
    var next := "," + more;
    FirstChar(value);
    ReadKey(name, Write(value) + next);
    ReadValue(value, next);
    SkipAllWs("", next);
    assert "" + next == next && next[1..] == more;
  }

  lemma ValueFails(name: string, text: string)
    requires PlainText(name) && text != [] && !IsWs(text[0]) && Value(text).Failed?
    ensures Members(Key(name) + text).Failed?
  {
    ReadKey(name, text);
  }

  lemma ObjectFails(name: string, text: string)
    requires Members(Key(name) + text).Failed?
    ensures Value("{" + (Key(name) + text)).Failed?
  {
    hide Members;
    var inner := Key(name) + text;
    var s := "{" + inner;
    assert s[1..] == inner && inner[0] == '"';
  }

  lemma ArrayFails(text: string)
    requires text != [] && !IsWs(text[0]) && text[0] != ']' && Items(text).Failed?
    ensures Value("[" + text).Failed?
  {
    hide Items;
    var s := "[" + text;
    assert s[1..] == text;
  }
}
