/** Printing an index and reading it back in chunks: the texts of JsonText.dfy
    through the reader of JsonReader.dfy. */
module JsonRoundTrip {
  import opened Prelude
  import opened JsonGrammar
  import opened JsonReader
  import opened JsonDocuments
  import JsonText

  type Tree = JsonText.Tree

  // ---- the whole text -----------------------------------------------------------

  /** The text is the tree with white space around it. */
  ghost predicate IsTextOf(text: string, lead: string, t: Tree, trail: string) {
    && JsonText.IsGap(lead) && JsonText.IsGap(trail) && JsonText.ValidTree(t)
    && text == lead + JsonText.Text(t) + trail
  }

  lemma TextIsParsed(text: string, lead: string, t: Tree, trail: string)
    requires IsTextOf(text, lead, t, trail)
    ensures WholeText(text) == Some(JsonText.Meaning(t))
  {
    hide DecodeValue, SkipJsonSpace, JsonText.Text, JsonText.Meaning, JsonText.ValidTree, JsonText.IsGap;
    var w := JsonText.Text(t);
    TreeInText(text, lead, w, trail);
    JsonText.FirstOfTree(t);
    JsonText.AtChar(text, |lead|, w, 0);
    JsonText.GapIsSkipped(text, 0, lead);
    JsonText.GapIsSkipped(text, |lead| + |w|, trail);
    JsonText.TreeIsRead(text, |lead|, t);
  }

  lemma TreeInText(text: string, lead: string, w: string, trail: string)
    requires text == lead + w + trail && JsonText.IsGap(trail)
    ensures JsonText.At(text, 0, lead) && JsonText.At(text, |lead|, w) && JsonText.At(text, |lead| + |w|, trail)
    ensures JsonText.Delimited(text, |lead| + |w|)
  {
    assert text[0..|text|] == text;
    JsonText.AtParts(text, 0, lead + w, trail);
    JsonText.AtParts(text, 0, lead, w);
    hide JsonText.At;
    if trail != "" {
      JsonText.AtChar(text, |lead| + |w|, trail, 0);
      assert trail[0] in trail && trail[0] in " \t\n\r";
    }
  }

  lemma ParsedIsText(text: string) returns (lead: string, t: Tree, trail: string)
    requires WholeText(text).Some?
    ensures IsTextOf(text, lead, t, trail) && JsonText.Meaning(t) == WholeText(text).value
  {
    hide DecodeValue, SkipJsonSpace, JsonText.Text, JsonText.Meaning, JsonText.ValidTree, JsonText.IsGap;
    var i := SkipJsonSpace(text, 0);
    t := JsonText.TreeOf(text, i);
    var e := i + |JsonText.Text(t)|;
    JsonText.SkippedIsGap(text, 0);
    JsonText.SkippedIsGap(text, e);
    lead, trail := text[..i], text[e..];
    assert text[0..i] == lead && text[e..|text|] == trail;
    assert text == text[..i] + text[i..e] + text[e..];
  }

  /** Parsing accepts exactly the texts of the grammar, each with its meaning. */
  lemma ParsesExactly(text: string, v: Value)
    ensures WholeText(text) == Some(v) <==>
      exists lead, t, trail :: IsTextOf(text, lead, t, trail) && JsonText.Meaning(t) == v
  {
    hide WholeText, JsonText.Meaning, JsonText.Text, JsonText.ValidTree, JsonText.IsGap;
    if WholeText(text) == Some(v) {
      var lead, t, trail := ParsedIsText(text);
    }
    if lead, t, trail :| IsTextOf(text, lead, t, trail) && JsonText.Meaning(t) == v {
      TextIsParsed(text, lead, t, trail);
    }
  }

  // ---- the entries of an index ----------------------------------------------------

  function UnitsOf(name: string): seq<int> {
    seq(|name|, i requires 0 <= i < |name| => name[i] as int)
  }

  /** Member number k is called "skills" and no other one is. */
  ghost predicate OnlySkills(members: Members, k: nat) {
    && k < |members| && members[k].0 == UnitsOf("skills")
    && forall j :: 0 <= j < |members| && j != k ==> members[j].0 != UnitsOf("skills")
  }

  lemma {:induction false} OneNamed(members: Members, k: nat)
    requires OnlySkills(members, k)
    ensures SkillsMembers(members) == 1 && Lookup(members, SKILLS) == Some(members[k].1)
  {
    assert UnitsOf("skills") == SKILLS;
    hide UnitsOf;
    if k == 0 {
      NoneNamed(members[1..]);
    } else {
      OneNamed(members[1..], k - 1);
    }
  }

  lemma {:induction false} NoneNamed(members: Members)
    requires forall m :: m in members ==> m.0 != SKILLS
    ensures SkillsMembers(members) == 0 && Lookup(members, SKILLS) == None
  {
    if members != [] {
      NoneNamed(members[1..]);
    }
  }

  /** An object whose only "skills" member holds a list of objects is an index,
      and that list is what is picked from it. */
  lemma SkillsArePicked(members: Members, k: nat, entries: seq<Value>)
    requires OnlySkills(members, k) && members[k].1 == Arr(entries) && AllObjects(entries)
    ensures IsIndex(Obj(members)) && CoerceIndexEntries(Obj(members)) == entries
  {
    OneNamed(members, k);
    FilterAll(IsObject, entries);
  }

  lemma ListIsPicked(entries: seq<Value>)
    requires AllObjects(entries)
    ensures IsIndex(Arr(entries)) && CoerceIndexEntries(Arr(entries)) == entries
  {
    FilterAll(IsObject, entries);
  }

  // ---- print and read ----------------------------------------------------------------

  /** Any text of an object with one "skills" member that lists objects, in whatever
      spelling and with whatever other members: the reader returns that list if
      and only if the end of no chunk cuts a number member, and refuses otherwise. */
  method ReadWrittenIndex(text: string, chunk: nat, ghost lead: string, ghost t: Tree, ghost trail: string,
      ghost k: nat)
    returns (r: Option<seq<Value>>)
    requires chunk > 0 && IsTextOf(text, lead, t, trail) && t.TObj?
    requires var members := JsonText.MemberValues(t.members);
      OnlySkills(members, k) && members[k].1.Arr? && AllObjects(members[k].1.items)
    ensures ShortSpaces(text, chunk) ==>
      r == if NumbersUncutAtTop(text, chunk) then Some(JsonText.MemberValues(t.members)[k].1.items) else None
  {
    TextIsParsed(text, lead, t, trail);
    SkillsArePicked(JsonText.MemberValues(t.members), k, JsonText.MemberValues(t.members)[k].1.items);
    hide WholeText, IsIndex, CoerceIndexEntries, ShortSpaces, NumbersUncutAtTop;
    r := ReadIndex(text, chunk);
  }

  /** Each character of a name as it is. */
  function Spelled(name: string): seq<JsonText.Spelling> {
    seq(|name|, i requires 0 <= i < |name| => JsonText.Plain(name[i]))
  }

  lemma {:induction false} SpelledMeans(name: string)
    requires forall c :: c in name ==> c >= ' ' && c != '\"' && c != '\\'
    ensures JsonText.ValidSpelling(Spelled(name))
    ensures JsonText.CharsText(Spelled(name)) == name + "\"" && JsonText.Units(Spelled(name)) == UnitsOf(name)
  {
    if name != "" {
      assert forall c :: c in name[1..] ==> c in name;
      SpelledMeans(name[1..]);
      assert name[0] in name && JsonText.Plain(name[0]).Valid();
      assert Spelled(name) == [JsonText.Plain(name[0])] + Spelled(name[1..]);
      assert name == [name[0]] + name[1..];
      assert UnitsOf(name) == [name[0] as int] + UnitsOf(name[1..]);
    }
  }

  /** `{"skills": [...]}` around the text of a list, with white space everywhere. */
  function PrintedIndex(gaps: seq<string>, list: string): string
    requires |gaps| == 6
  {
    gaps[0] + "{" + gaps[1] + "\"skills\"" + gaps[2] + ":" + gaps[3] + list + gaps[4] + "}" + gaps[5]
  }

  /** The only member of the printed object. */
  function SkillsMember(colon: string, gap: string, list: Tree, after: string): JsonText.Members {
    JsonText.Members(Spelled("skills"), colon, gap, list, after, "", JsonText.NoMembers)
  }

  lemma MemberIsValid(colon: string, gap: string, list: Tree, after: string)
    requires JsonText.IsGap(colon) && JsonText.IsGap(gap) && JsonText.IsGap(after) && JsonText.ValidTree(list)
    ensures var m := SkillsMember(colon, gap, list, after);
      && JsonText.ValidMembers(m)
      && JsonText.MemberValues(m) == [(UnitsOf("skills"), JsonText.Meaning(list))]
  {
    SkillsSpelled();
    EmptyIsGap();
    hide JsonText.CharsText, JsonText.Units, JsonText.IsGap, JsonText.ValidSpelling, UnitsOf, Spelled,
      JsonText.ValidTree, JsonText.Meaning;
  }

  lemma PrintedIsText(gaps: seq<string>, list: Tree) returns (t: Tree)
    requires |gaps| == 6 && (forall g :: g in gaps ==> JsonText.IsGap(g)) && JsonText.ValidTree(list)
    ensures IsTextOf(PrintedIndex(gaps, JsonText.Text(list)), gaps[0], t, gaps[5])
    ensures JsonText.Meaning(t) == Obj([(UnitsOf("skills"), JsonText.Meaning(list))])
  {
    hide JsonText.IsGap, JsonText.Text, JsonText.ValidMembers, JsonText.MemberValues, UnitsOf, SkillsMember;
    assert forall i :: 0 <= i < 6 ==> gaps[i] in gaps;
    var m := SkillsMember(gaps[2], gaps[3], list, gaps[4]);
    MemberIsValid(gaps[2], gaps[3], list, gaps[4]);
    t := JsonText.TObj(gaps[1], m);
    OneMemberText(gaps[1], gaps[2], gaps[3], list, gaps[4]);
    hide JsonText.ValidTree;
    Around(gaps, JsonText.Text(list), JsonText.Text(t));
  }

  lemma Around(gaps: seq<string>, list: string, whole: string)
    requires |gaps| == 6
    requires whole == "{" + gaps[1] + "\"skills\"" + gaps[2] + ":" + gaps[3] + list + gaps[4] + "}"
    ensures PrintedIndex(gaps, list) == gaps[0] + whole + gaps[5]
  {
  }

  lemma SkillsSpelled()
    ensures JsonText.ValidSpelling(Spelled("skills"))
    ensures JsonText.CharsText(Spelled("skills")) == "skills\""
    ensures JsonText.Units(Spelled("skills")) == UnitsOf("skills")
  {
    SpelledMeans("skills");
  }

  lemma EmptyIsGap()
    ensures JsonText.IsGap("")
  {
  }

  lemma OneMemberText(open: string, colon: string, gap: string, list: Tree, after: string)
    requires JsonText.IsGap(open) && JsonText.ValidTree(list)
    requires JsonText.ValidMembers(SkillsMember(colon, gap, list, after))
    ensures JsonText.Text(JsonText.TObj(open, SkillsMember(colon, gap, list, after))) ==
      "{" + open + "\"skills\"" + colon + ":" + gap + JsonText.Text(list) + after + "}"
  {
    var m := SkillsMember(colon, gap, list, after);
    JsonText.ObjectText(open, m);
    SkillsSpelled();
    hide JsonText.ValidMembers, JsonText.ValidTree, JsonText.Text, JsonText.CharsText, JsonText.IsGap, Spelled;
    var name, w := "\"" + ("skills\"" + (colon + (":" + gap))), JsonText.Text(list);
    assert JsonText.MembersText(m) == name + (w + (after + "}"));
    hide JsonText.MembersText;
    Flatten("{", open, "\"", "skills\"", colon, ":", gap, w, after, "}");
    assert "\"" + "skills\"" == "\"skills\"";
  }

  lemma Flatten(a: string, b: string, q: string, n: string, c: string, d: string, e: string, w: string, f: string,
      z: string)
    ensures a + (b + ((q + (n + (c + (d + e)))) + (w + (f + z)))) == a + b + (q + n) + c + d + e + w + f + z
  {
    assert q + (n + (c + (d + e))) == (q + n) + c + d + e;
    assert w + (f + z) == w + f + z;
  }

  /** What is printed is read back: for every list of objects, in any spelling, and
      every chunk size that no run of white space exceeds. */
  method PrintAndRead(gaps: seq<string>, gap: string, list: JsonText.Items, chunk: nat) returns (r: Option<seq<Value>>)
    requires |gaps| == 6 && (forall g :: g in gaps ==> JsonText.IsGap(g))
    requires JsonText.IsGap(gap) && JsonText.ValidItems(list) && AllObjects(JsonText.ItemValues(list)) && chunk > 0
    ensures ShortSpaces(PrintedIndex(gaps, JsonText.Text(JsonText.TArr(gap, list))), chunk) ==>
      r == Some(JsonText.ItemValues(list))
  {
    var text := PrintedIndex(gaps, JsonText.Text(JsonText.TArr(gap, list)));
    ghost var t := PrintedIsText(gaps, JsonText.TArr(gap, list));
    ghost var entries := JsonText.ItemValues(list);
    ghost var members := [(UnitsOf("skills"), Arr(entries))];
    TextIsParsed(text, gaps[0], t, gaps[5]);
    SkillsArePicked(members, 0, entries);
    DocumentsUncut(text, chunk);
    hide WholeText, IsIndex, CoerceIndexEntries, ShortSpaces, NumbersUncutAtTop;
    r := ReadIndex(text, chunk);
  }

  /** The same for a list on its own. */
  method PrintAndReadList(lead: string, gap: string, list: JsonText.Items, trail: string, chunk: nat)
    returns (r: Option<seq<Value>>)
    requires JsonText.IsGap(lead) && JsonText.IsGap(gap) && JsonText.IsGap(trail)
    requires JsonText.ValidItems(list) && AllObjects(JsonText.ItemValues(list)) && chunk > 0
    ensures ShortSpaces(lead + JsonText.Text(JsonText.TArr(gap, list)) + trail, chunk) ==>
      r == Some(JsonText.ItemValues(list))
  {
    var text := lead + JsonText.Text(JsonText.TArr(gap, list)) + trail;
    TextIsParsed(text, lead, JsonText.TArr(gap, list), trail);
    ListIsPicked(JsonText.ItemValues(list));
    DocumentsUncut(text, chunk);
    hide WholeText, IsIndex, CoerceIndexEntries, ShortSpaces, NumbersUncutAtTop;
    r := ReadIndex(text, chunk);
  }

  // ---- lists that are no JSON ---------------------------------------------------------

  /** Objects with anything between them that consists of commas and white space. */
  datatype Loose = Closing(gap: string) | Entry(gap: string, tree: Tree, rest: Loose)

  predicate IsLoose(list: Loose) {
    && IsLooseGap(list.gap)
    && (list.Entry? ==> list.tree.TObj? && JsonText.ValidTree(list.tree) && IsLoose(list.rest))
  }

  function LooseText(list: Loose): string
    requires IsLoose(list)
  {
    if list.Closing? then list.gap + "]" else list.gap + (JsonText.Text(list.tree) + LooseText(list.rest))
  }

  function LooseValues(list: Loose): seq<Value>
    requires IsLoose(list)
  {
    if list.Closing? then [] else [JsonText.Meaning(list.tree)] + LooseValues(list.rest)
  }

  predicate IsLooseGap(gap: string) {
    forall c :: c in gap ==> c == ',' || IsSpace(c)
  }

  lemma FirstOfGap(s: string, i: nat, gap: string)
    requires JsonText.At(s, i, gap) && IsLooseGap(gap) && gap != ""
    ensures i < |s| && (s[i] == ',' || IsSpace(s[i])) && JsonText.At(s, i + 1, gap[1..]) && IsLooseGap(gap[1..])
  {
    assert gap == gap[..1] + gap[1..] && gap[0] in gap;
    JsonText.AtParts(s, i, gap[..1], gap[1..]);
    JsonText.AtChar(s, i, gap, 0);
    assert forall c :: c in gap[1..] ==> c in gap;
  }

  lemma {:induction false} GapIsRead(s: string, i: nat, gap: string)
    requires JsonText.At(s, i, gap) && IsLooseGap(gap)
    ensures i + |gap| <= |s| && ReadArray(s, i) == ReadArray(s, i + |gap|)
    decreases |gap|
  {
    hide ReadArray, IsLooseGap, IsSpace;
    if gap != "" {
      FirstOfGap(s, i, gap);
      GapIsRead(s, i + 1, gap[1..]);
      OneCharIsRead(s, i);
    }
  }

  lemma OneCharIsRead(s: string, i: nat)
    requires i < |s| && (s[i] == ',' || IsSpace(s[i]))
    ensures ReadArray(s, i) == ReadArray(s, i + 1)
  {
    if IsSpace(s[i]) {
      assert SkipSpace(s, i) == SkipSpace(s, i + 1);
      hide ReadItem, SkipSpace;
    } else {
      assert SkipSpace(s, i) == i;
      ReadsComma(s, i);
    }
  }

  /** The reader takes such a list for the list of its objects. */
  lemma {:induction false} LooseListIsRead(s: string, i: nat, list: Loose)
    requires IsLoose(list) && JsonText.At(s, i, LooseText(list))
    ensures ReadArray(s, i) == Parse(LooseValues(list), i + |LooseText(list)|)
    decreases list
  {
    hide ReadArray, JsonText.Text, JsonText.At;
    var j := i + |list.gap|;
    if list.Closing? {
      JsonText.AtParts(s, i, list.gap, "]");
      GapIsRead(s, i, list.gap);
      JsonText.AtChar(s, j, "]", 0);
      assert SkipSpace(s, j) == j;
      ReadsArrayEnd(s, j);
    } else {
      var w, more := JsonText.Text(list.tree), LooseText(list.rest);
      JsonText.AtParts(s, i, list.gap, w + more);
      JsonText.AtParts(s, j, w, more);
      GapIsRead(s, i, list.gap);
      LooseListIsRead(s, j + |w|, list.rest);
      ObjectIsTaken(s, j, list.tree);
    }
  }

  lemma ObjectIsTaken(s: string, j: nat, t: Tree)
    requires JsonText.ValidTree(t) && t.TObj? && JsonText.At(s, j, JsonText.Text(t))
    ensures var e := j + |JsonText.Text(t)|;
      e <= |s| && ReadArray(s, j) == Prepend([JsonText.Meaning(t)], ReadArray(s, e))
  {
    hide *;
    ObjectIsDecoded(s, j, t);
    EntryIsTaken(s, j);
  }

  lemma EntryIsTaken(s: string, j: nat)
    requires j <= |s| && DecodeValue(s, j).Parse? && DecodeValue(s, j).value.Obj?
    ensures ReadArray(s, j) == Prepend([DecodeValue(s, j).value], ReadArray(s, DecodeValue(s, j).end))
  {
    ValueStart(s, j);
    ReadsOneItem(s, j);
    ReadsEntry(s, j);
    hide DecodeValue, ReadArray, ReadItem, SkipSpace;
  }

  lemma ObjectIsDecoded(s: string, j: nat, t: Tree)
    requires JsonText.ValidTree(t) && t.TObj? && JsonText.At(s, j, JsonText.Text(t))
    ensures j <= |s| && DecodeValue(s, j) == Parse(JsonText.Meaning(t), j + |JsonText.Text(t)|)
    ensures JsonText.Meaning(t).Obj?
  {
    JsonText.ObjectIsRead(s, j, t.gap, t.members);
    hide DecodeValue, JsonText.Text, JsonText.At;
  }
}
