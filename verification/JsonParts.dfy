/** Building blocks of written JSON: each lemma says what a piece of text put together by hand denotes. */
module JsonParts {
  import opened Json
  import opened JsonTheorems

  function Braces(inner: string): string { "{" + inner + "}" }

  function Quote(text: string): string { "\"" + text + "\"" }

  /** A key with a blank on both sides of its colon. */
  function WideKey(name: string): string { "\"" + name + "\"" + " " + ":" + " " }

  /** `{ "name": ` and what follows, up to the closing brace. */
  function Blank(inner: string): string { " " + inner }

  /** text is one way to write the value, or the members, or the items. */
  ghost predicate IsValue(text: string, tree: Json) { exists d :: Good(d) && Write(d) == text && Tree(d) == tree }

  ghost predicate AreMembers(text: string, trees: seq<Member>) {
    exists m :: GoodMembers(m) && WriteMembers(m) == text && MemberTrees(m) == trees
  }

  ghost predicate AreItems(text: string, trees: seq<Json>) {
    exists i :: GoodItems(i) && WriteItems(i) == text && ItemTrees(i) == trees
  }

  lemma StringPart(text: string)
    requires PlainText(text)
    ensures IsValue(Quote(text), JString(text))
  {
    assert Good(DString(text)) && Write(DString(text)) == Quote(text) && Tree(DString(text)) == JString(text);
  }

  lemma OnePart()
    ensures IsValue("1", JNumber("1"))
  {
    assert "1"[1..] == "" && "1"[0..] == "1" && IsNumber("1");
    assert Good(DNumber("1")) && Write(DNumber("1")) == "1" && Tree(DNumber("1")) == JNumber("1");
  }

  lemma ObjectPart(text: string, trees: seq<Member>)
    requires AreMembers(text, trees)
    ensures IsValue(Braces(text), JObject(trees))
  {
    var m :| GoodMembers(m) && WriteMembers(m) == text && MemberTrees(m) == trees;
    var d := DObject(m);
    assert Good(d) && Write(d) == Braces(text) && Tree(d) == JObject(trees);
  }

  lemma ArrayPart(text: string, trees: seq<Json>)
    requires AreItems(text, trees)
    ensures IsValue("[" + text + "]", JArray(trees))
  {
    var i :| GoodItems(i) && WriteItems(i) == text && ItemTrees(i) == trees;
    var d := DArray(i);
    assert Good(d) && Write(d) == "[" + text + "]" && Tree(d) == JArray(trees);
  }

  lemma LastPart(name: string, text: string, tree: Json)
    requires PlainText(name) && IsValue(text, tree)
    ensures AreMembers(Key(name) + text, [Member(name, tree)])
  {
    var d :| Good(d) && Write(d) == text && Tree(d) == tree;
    var m := LastMember("", name, "", " ", d, "");
    hide Write, Good, Tree, PlainText;
    LoneMember("", name, "", " ", d, "");
    KeyText(name, text);
  }

  /** A member alone between its braces, with white space around it. */
  lemma LoneMember(before: string, name: string, colon: string, space: string, d: Doc, after: string)
    requires AllWs(before) && PlainText(name) && AllWs(colon) && AllWs(space) && Good(d) && AllWs(after)
    ensures var m := LastMember(before, name, colon, space, d, after);
            && GoodMembers(m) && WriteMembers(m) == WriteMember(before, name, colon, space, Write(d), after)
            && MemberTrees(m) == [Member(name, Tree(d))]
  {
  }

  lemma KeyText(name: string, text: string)
    ensures WriteMember("", name, "", " ", text, "") == Key(name) + text
    ensures WriteMember("", name, " ", " ", text, "") == WideKey(name) + text
    ensures AllWs("") && AllWs(" ")
  {
  }

  lemma BlankText(name: string, text: string, after: string)
    ensures WriteMember(" ", name, "", " ", text, after) == Blank(Key(name) + text + after)
  {
  }

  lemma WideLastPart(name: string, text: string, tree: Json)
    requires PlainText(name) && IsValue(text, tree)
    ensures AreMembers(WideKey(name) + text, [Member(name, tree)])
  {
    var d :| Good(d) && Write(d) == text && Tree(d) == tree;
    var m := LastMember("", name, " ", " ", d, "");
    hide Write, Good, Tree, PlainText;
    KeyText(name, text);
    LoneMember("", name, " ", " ", d, "");
  }

  lemma BlankPart(name: string, text: string, tree: Json, after: string)
    requires PlainText(name) && IsValue(text, tree) && AllWs(after)
    ensures AreMembers(Blank(Key(name) + text + after), [Member(name, tree)])
  {
    var d :| Good(d) && Write(d) == text && Tree(d) == tree;
    var m := LastMember(" ", name, "", " ", d, after);
    hide Write, Good, Tree, PlainText;
    KeyText(name, text);
    BlankText(name, text, after);
    LoneMember(" ", name, "", " ", d, after);
  }

  lemma ThenPart(name: string, text: string, tree: Json, more: string, trees: seq<Member>)
    requires PlainText(name) && IsValue(text, tree) && AreMembers(more, trees)
    ensures AreMembers(Key(name) + text + "," + more, [Member(name, tree)] + trees)
  {
    var d :| Good(d) && Write(d) == text && Tree(d) == tree;
    var rest :| GoodMembers(rest) && WriteMembers(rest) == more && MemberTrees(rest) == trees;
    KeyText(name, text);
    MemberAndRest("", name, "", " ", d, rest);
  }

  lemma WideThenPart(name: string, text: string, tree: Json, more: string, trees: seq<Member>)
    requires PlainText(name) && IsValue(text, tree) && AreMembers(more, trees)
    ensures AreMembers(WideKey(name) + text + "," + more, [Member(name, tree)] + trees)
  {
    var d :| Good(d) && Write(d) == text && Tree(d) == tree;
    var rest :| GoodMembers(rest) && WriteMembers(rest) == more && MemberTrees(rest) == trees;
    KeyText(name, text);
    MemberAndRest("", name, " ", " ", d, rest);
  }

  lemma MemberAndRest(before: string, name: string, colon: string, space: string, d: Doc, rest: MemberDocs)
    requires AllWs(before) && PlainText(name) && AllWs(colon) && AllWs(space) && Good(d) && GoodMembers(rest)
    requires AllWs("")
    ensures AreMembers(WriteMember(before, name, colon, space, Write(d), "") + "," + WriteMembers(rest),
                       [Member(name, Tree(d))] + MemberTrees(rest))
  {
    var m := MemberThen(before, name, colon, space, d, "", rest);
    assert GoodMembers(m) && MemberTrees(m) == [Member(name, Tree(d))] + MemberTrees(rest);
  }

  lemma LastItemPart(text: string, tree: Json)
    requires IsValue(text, tree)
    ensures AreItems(text, [tree])
  {
    var d :| Good(d) && Write(d) == text && Tree(d) == tree;
    var i := LastItem("", d, "");
    assert GoodItems(i) && WriteItems(i) == text && ItemTrees(i) == [tree];
  }

  lemma ItemThenPart(text: string, tree: Json, more: string, trees: seq<Json>)
    requires IsValue(text, tree) && AreItems(more, trees)
    ensures AreItems(text + "," + more, [tree] + trees)
  {
    var d :| Good(d) && Write(d) == text && Tree(d) == tree;
    var rest :| GoodItems(rest) && WriteItems(rest) == more && ItemTrees(rest) == trees;
    var i := ItemThen("", d, "", rest);
    assert "" + text + "" == text;
    assert GoodItems(i) && WriteItems(i) == text + "," + more && ItemTrees(i) == [tree] + trees;
  }

  lemma ReadsBack(text: string, tree: Json)
    requires IsValue(text, tree)
    ensures ParseText(text) == Read(tree, [])
  {
    var d :| Good(d) && Write(d) == text && Tree(d) == tree;
    ReadBack(d);
  }

  /** Two lists of members one after the other. */
  lemma MembersThen(text: string, trees: seq<Member>, more: string, others: seq<Member>)
    requires AreMembers(text, trees) && AreMembers(more, others)
    ensures AreMembers(text + "," + more, trees + others)
  {
    var m :| GoodMembers(m) && WriteMembers(m) == text && MemberTrees(m) == trees;
    var rest :| GoodMembers(rest) && WriteMembers(rest) == more && MemberTrees(rest) == others;
    JoinMembers(m, rest);
  }

  lemma {:induction false} JoinMembers(m: MemberDocs, rest: MemberDocs)
    requires GoodMembers(m) && GoodMembers(rest)
    ensures AreMembers(WriteMembers(m) + "," + WriteMembers(rest), MemberTrees(m) + MemberTrees(rest))
    decreases m
  {
    hide Write, Tree, Good, WriteMember;
    if m.LastMember? {
      var joined := MemberThen(m.before, m.name, m.colon, m.space, m.value, m.after, rest);
      assert GoodMembers(joined) && MemberTrees(joined) == MemberTrees(m) + MemberTrees(rest);
    } else {
      JoinMembers(m.rest, rest);
      var tail :| GoodMembers(tail) && WriteMembers(tail) == WriteMembers(m.rest) + "," + WriteMembers(rest)
        && MemberTrees(tail) == MemberTrees(m.rest) + MemberTrees(rest);
      var joined := MemberThen(m.before, m.name, m.colon, m.space, m.value, m.after, tail);
      assert GoodMembers(joined) && MemberTrees(joined) == MemberTrees(m) + MemberTrees(rest);
      assert WriteMembers(joined) == WriteMembers(m) + "," + WriteMembers(rest);
    }
  }

  lemma NothingPart()
    ensures IsValue("[]", JArray([]))
  {
    assert Good(DNothing) && Write(DNothing) == "[]" && Tree(DNothing) == JArray([]);
  }

  // ------------------------------------------------- parts of what fails

  lemma ItemThenFails(text: string, tree: Json, more: string)
    requires IsValue(text, tree) && Items(SkipWs(more)).Failed?
    ensures Items(text + ("," + more)).Failed?
  {
    var d :| Good(d) && Write(d) == text && Tree(d) == tree;
    ItemsFail(d, more);
  }

  lemma MemberThenFails(name: string, text: string, tree: Json, more: string)
    requires PlainText(name) && IsValue(text, tree) && Members(SkipWs(more)).Failed?
    ensures Members(Key(name) + (text + ("," + more))).Failed?
  {
    var d :| Good(d) && Write(d) == text && Tree(d) == tree;
    MembersFail(name, d, more);
  }

  /** A value does not start with white space or a closing bracket. */
  lemma ValueStart(text: string, tree: Json)
    requires IsValue(text, tree)
    ensures text != [] && !IsWs(text[0]) && text[0] != ']'
  {
    var d :| Good(d) && Write(d) == text && Tree(d) == tree;
    FirstChar(d);
  }

  lemma NestedFails(name: string, text: string)
    requires PlainText(name) && text != [] && !IsWs(text[0]) && Value(text).Failed?
    ensures Value("{" + (Key(name) + text)).Failed?
  {
    ValueFails(name, text);
    ObjectFails(name, text);
  }

  lemma TextFails(text: string)
    requires text != [] && !IsWs(text[0]) && Value(text).Failed?
    ensures ParseText(text).Failed?
  {
    hide Value;
  }

  lemma KeyStart(name: string, text: string)
    ensures SkipWs(Key(name) + text) == Key(name) + text
  {
  }
}
