/** What the streaming reader returns on valid JSON documents, compared with
    parsing the whole text and picking the entries
    (`_coerce_index_entries`, backend/app/api/skills_marketplace.py). */
module JsonDocuments {
  import opened Prelude
  import opened JsonGrammar
  import opened JsonReader

  type Members = seq<(seq<int>, Value)>

  /** `json.loads`: one value with nothing but white space around it. */
  function WholeText(text: string): Option<Value> {
    match DecodeValue(text, SkipJsonSpace(text, 0))
    case NoParse => None
    case Parse(value, end) => if SkipJsonSpace(text, end) == |text| then Some(value) else None
  }

  predicate IsObject(v: Value) {
    v.Obj?
  }

  predicate AllObjects(items: seq<Value>) {
    forall v :: v in items ==> v.Obj?
  }

  /** A dictionary keeps the last of several equal keys. */
  function Lookup(members: Members, name: seq<int>): Option<Value> {
    if members == [] then None
    else
      var rest := Lookup(members[1..], name);
      if rest.Some? then rest else if members[0].0 == name then Some(members[0].1) else None
  }

  function CoerceIndexEntries(payload: Value): seq<Value> {
    match payload
    case Arr(items) => Filter(IsObject, items)
    case Obj(members) => (match Lookup(members, SKILLS)
      case Some(Arr(items)) => Filter(IsObject, items)
      case _ => [])
    case _ => []
  }

  // ---- what the reader makes of a valid document ------------------------------

  function ArrayEntries(items: seq<Value>): Option<seq<Value>> {
    if AllObjects(items) then Some(items) else None
  }

  /** All `skills` arrays count, one after the other; a `skills` member of
      another kind is refused unless it is the last member. */
  function MemberEntries(members: Members): Option<seq<Value>> {
    if members == [] then Some([])
    else
      var (name, value) := members[0];
      if name != SKILLS then MemberEntries(members[1..])
      else if value.Arr? then
        if AllObjects(value.items) && MemberEntries(members[1..]).Some?
        then Some(value.items + MemberEntries(members[1..]).value) else None
      else if |members| == 1 then Some([]) else None
  }

  function DocumentEntries(payload: Value): Option<seq<Value>> {
    match payload
    case Arr(items) => ArrayEntries(items)
    case Obj(members) => MemberEntries(members)
    case _ => None
  }

  // ---- white space --------------------------------------------------------------

  lemma {:induction false} SpacesAgree(s: string, i: nat)
    requires i <= |s|
    requires var p := SkipJsonSpace(s, i); p == |s| || !IsSpace(s[p])
    ensures SkipSpace(s, i) == SkipJsonSpace(s, i)
    decreases |s| - i
  {
    if i < |s| && IsJsonSpace(s[i]) {
      SpacesAgree(s, i + 1);
    }
  }

  lemma ValueStart(s: string, i: nat)
    requires i <= |s| && DecodeValue(s, i).Parse?
    ensures i < |s| && !IsSpace(s[i]) && s[i] != ']' && s[i] != '}' && s[i] != ',' && s[i] != ':'
    ensures SkipSpace(s, i) == i
    ensures DecodeValue(s, i).value.Arr? <==> s[i] == '['
    ensures DecodeValue(s, i).value.Obj? <==> s[i] == '{'
  {
  }

  /** The reader and the grammar skip the same space in front of a value. */
  lemma SpaceBeforeValue(s: string, i: nat)
    requires i <= |s| && DecodeValue(s, SkipJsonSpace(s, i)).Parse?
    ensures SkipSpace(s, i) == SkipJsonSpace(s, i)
  {
    ValueStart(s, SkipJsonSpace(s, i));
    SpacesAgree(s, i);
  }

  lemma SeparatorSpace(s: string, i: nat, close: char)
    requires i <= |s| && Separator(s, i, close).Parse? && (close == ']' || close == '}')
    ensures SkipSpace(s, i) == SkipJsonSpace(s, i) < |s|
    ensures Separator(s, i, close).value ==>
      s[SkipSpace(s, i)] == close && Separator(s, i, close).end == SkipSpace(s, i) + 1
    ensures !Separator(s, i, close).value ==>
      s[SkipSpace(s, i)] == ',' && Separator(s, i, close).end == SkipJsonSpace(s, SkipSpace(s, i) + 1)
  {
    SpacesAgree(s, i);
  }

  // ---- arrays ---------------------------------------------------------------------

  lemma ReadsOneItem(s: string, q: nat)
    requires q <= |s| && DecodeValue(s, q).Parse?
    ensures var d := DecodeValue(s, q);
      ReadItem(s, q) == if d.value.Obj? then Parse(Entry(d.value), d.end) else NoParse
  {
    ValueStart(s, q);
    hide DecodeValue;
  }

  lemma ReadsArrayEnd(s: string, i: nat)
    requires i <= |s| && SkipSpace(s, i) < |s| && s[SkipSpace(s, i)] == ']'
    ensures ReadArray(s, i) == Parse([], SkipSpace(s, i) + 1)
  {
    hide SkipSpace, DecodeValue;
  }

  lemma ReadsComma(s: string, i: nat)
    requires i <= |s| && SkipSpace(s, i) < |s| && s[SkipSpace(s, i)] == ','
    ensures ReadArray(s, i) == ReadArray(s, SkipSpace(s, i) + 1)
  {
    hide SkipSpace, DecodeValue;
  }

  lemma ReadsEntry(s: string, i: nat)
    requires i <= |s|
    ensures var item := ReadItem(s, SkipSpace(s, i));
      && (item.NoParse? ==> ReadArray(s, i) == NoParse)
      && (item.Parse? && item.value.Entry? ==>
            ReadArray(s, i) == Prepend([item.value.entry], ReadArray(s, item.end)))
  {
    hide SkipSpace, ReadItem;
  }

  lemma {:induction false} ReadsItems(s: string, i: nat, q: nat)
    requires i <= q <= |s| && SkipSpace(s, i) == q && DecodeItems(s, q).Parse?
    ensures var d := DecodeItems(s, q);
      ReadArray(s, i) == if AllObjects(d.value) then Parse(d.value, d.end) else NoParse
    decreases |s| - q
  {
    hide DecodeValue, SkipSpace, SkipJsonSpace, Separator, ReadItem, ReadArray;
    ReadsEntry(s, i);
    var d := DecodeItems(s, q);
    var item := DecodeValue(s, q);
    hide AllObjects;
    ReadsOneItem(s, q);
    SeparatorSpace(s, item.end, ']');
    var sep := Separator(s, item.end, ']');
    if sep.value {
      ReadsArrayEnd(s, item.end);
      assert d.value == [item.value] == [item.value] + [];
    } else {
      var c := SkipSpace(s, item.end);
      var rest := DecodeItems(s, sep.end);
      ReadsComma(s, item.end);
      SpaceBeforeValue(s, c + 1);
      ReadsItems(s, c + 1, sep.end);
      assert d.value == [item.value] + rest.value;
    }
    AllObjectsSplit(item.value, d.value);
  }

  lemma AllObjectsSplit(first: Value, items: seq<Value>)
    requires items != [] && items[0] == first
    ensures AllObjects(items) <==> first.Obj? && AllObjects(items[1..])
  {
    assert forall v :: v in items <==> v == first || v in items[1..];
  }

  /** An array value, as the reader goes through it from behind the bracket. */
  lemma ReadsArray(s: string, k: nat)
    requires k < |s| && s[k] == '[' && DecodeValue(s, k).Parse?
    ensures var d := DecodeValue(s, k);
      ReadArray(s, k + 1) == if AllObjects(d.value.items) then Parse(d.value.items, d.end) else NoParse
  {
    var j := SkipJsonSpace(s, k + 1);
    hide SkipSpace, SkipJsonSpace, ReadArray, DecodeItems;
    if j < |s| && s[j] == ']' {
      SpacesAgree(s, k + 1);
      ReadsArrayEnd(s, k + 1);
    } else {
      SpaceBeforeValue(s, k + 1);
      ReadsItems(s, k + 1, j);
    }
  }

  // ---- objects --------------------------------------------------------------------

  /** The name of a member of a valid object, as the reader sees it. */
  lemma ReadsName(s: string, q: nat)
    requires q <= |s| && DecodeName(s, q).Parse?
    ensures var name := DecodeName(s, q);
      && q < |s| && s[q] == '\"' && SkipSpace(s, q) == q
      && ReadName(s, q).Parse? && ReadName(s, q).value == Str(name.value)
      && SkipJsonSpace(s, ReadName(s, q).end) == name.end
  {
    var name := StringRest(s, q + 1);
    assert DecodeValue(s, q) == Parse(Str(name.value), name.end);
    SpacesAgree(s, name.end);
    hide DecodeValue, StringRest;
  }

  /** A member of a valid object, as the reader sees it. */
  lemma ReadsMember(s: string, q: nat)
    requires q <= |s| && DecodeName(s, q).Parse? && DecodeValue(s, DecodeName(s, q).end).Parse?
    ensures var name, d := DecodeName(s, q).value, DecodeValue(s, DecodeName(s, q).end);
      ReadMember(s, q) ==
        if name == SKILLS && d.value.Arr?
        then (if AllObjects(d.value.items) then Parse((d.value.items, false), d.end) else NoParse)
        else Parse(([], name == SKILLS), d.end)
  {
    hide DecodeValue, DecodeName, ReadName, ReadArray, SkipSpace, SkipJsonSpace, AllObjects;
    var k := DecodeName(s, q).end;
    ReadsName(s, q);
    SpaceBeforeValue(s, ReadName(s, q).end);
    ValueStart(s, k);
    if s[k] == '[' {
      ReadsArray(s, k);
    }
  }

  /** A member whose value is not a number is indifferent to chunk ends. */
  lemma OtherMembersUncut(s: string, q: nat, chunk: nat, low: nat)
    requires q <= |s| && DecodeName(s, q).Parse? && DecodeValue(s, DecodeName(s, q).end).Parse?
    requires chunk > 0 && !DecodeValue(s, DecodeName(s, q).end).value.Num?
    ensures MemberUncut(s, q, chunk, low)
  {
    hide DecodeValue, DecodeName, ReadName, SkipSpace, SkipJsonSpace, IsCut, FirstDigit, MemberLoaded;
    ReadsName(s, q);
    SpaceBeforeValue(s, ReadName(s, q).end);
  }

  lemma ObjectStep(s: string, i: nat, q: nat)
    requires i <= q <= |s| && SkipSpace(s, i) == q < |s| && s[q] != '}' && ReadMember(s, q).Parse?
    ensures var (entries, bare), e := ReadMember(s, q).value, ReadMember(s, q).end;
      && (bare ==> ReadObject(s, i) == Prepend(entries, ReadObject(s, e)))
      && (!bare && SkipSpace(s, e) < |s| && s[SkipSpace(s, e)] == '}' ==>
        ReadObject(s, i) == Parse(entries, SkipSpace(s, e) + 1))
      && (!bare && SkipSpace(s, e) < |s| && s[SkipSpace(s, e)] == ',' ==>
            ReadObject(s, i) == Prepend(entries, ReadObject(s, SkipSpace(s, e) + 1)))
  {
    hide SkipSpace, ReadMember;
  }

  lemma ObjectEnds(s: string, i: nat)
    requires i <= |s| && SkipSpace(s, i) < |s|
    ensures s[SkipSpace(s, i)] == '}' ==> ReadObject(s, i) == Parse([], SkipSpace(s, i) + 1)
    ensures s[SkipSpace(s, i)] == ',' ==> ReadObject(s, i) == NoParse
  {
    hide SkipSpace, ReadMember;
    if s[SkipSpace(s, i)] == ',' {
      CommaIsNoMember(s, SkipSpace(s, i));
    }
  }

  lemma {:induction false} ReadsMembers(s: string, i: nat, q: nat)
    requires i <= q <= |s| && SkipSpace(s, i) == q && DecodeMembers(s, q).Parse?
    ensures var d := DecodeMembers(s, q);
      ReadObject(s, i) == (match MemberEntries(d.value) case None => NoParse case Some(entries) => Parse(entries,
        d.end))
    decreases |s| - q
  {
    hide DecodeValue, DecodeName, SkipSpace, SkipJsonSpace, Separator, ReadMember, ReadObject, AllObjects;
    var d := DecodeMembers(s, q);
    var name := DecodeName(s, q);
    var item := DecodeValue(s, name.end);
    ReadsName(s, q);
    ReadsMember(s, q);
    SeparatorSpace(s, item.end, '}');
    ObjectEnds(s, item.end);
    var sep := Separator(s, item.end, '}');
    if ReadMember(s, q).Parse? {
      ObjectStep(s, i, q);
      PrependTwice([], [], ReadObject(s, item.end));
      PrependTwice([], [], ReadObject(s, SkipSpace(s, item.end) + 1));
    } else {
      ObjectFails(s, i, q);
    }
    if sep.value {
      assert d.value[1..] == [];
      if name.value == SKILLS && item.value.Arr? {
        assert item.value.items + [] == item.value.items;
      }
    } else {
      var rest := DecodeMembers(s, sep.end);
      assert d.value[1..] == rest.value;
      NameStart(s, sep.end);
      SpacesAgree(s, SkipSpace(s, item.end) + 1);
      ReadsMembers(s, SkipSpace(s, item.end) + 1, sep.end);
    }
  }

  lemma ObjectFails(s: string, i: nat, q: nat)
    requires i <= q <= |s| && SkipSpace(s, i) == q < |s| && s[q] != '}' && ReadMember(s, q).NoParse?
    ensures ReadObject(s, i) == NoParse
  {
    hide SkipSpace, ReadMember;
  }

  lemma NameStart(s: string, i: nat)
    requires i <= |s| && DecodeName(s, i).Parse?
    ensures i < |s| && s[i] == '\"' && !IsSpace(s[i])
  {
  }

  lemma CommaIsNoMember(s: string, c: nat)
    requires c < |s| && s[c] == ','
    ensures ReadMember(s, c) == NoParse
  {
  }

  /** On every valid document whose value is an array or an object the reader
      returns what `DocumentEntries` says. */
  lemma ReadsDocuments(text: string)
    requires WholeText(text).Some?
    ensures ReadTop(text) == DocumentEntries(WholeText(text).value)
  {
    hide DecodeValue, SkipSpace, SkipJsonSpace, ReadArray, ReadObject;
    var j := SkipJsonSpace(text, 0);
    SpaceBeforeValue(text, 0);
    ValueStart(text, j);
    if text[j] == '[' {
      ReadsArray(text, j);
    } else if text[j] == '{' {
      ReadsObject(text, j);
    }
  }

  lemma ReadsObject(s: string, j: nat)
    requires j < |s| && s[j] == '{' && DecodeValue(s, j).Parse?
    ensures var d := DecodeValue(s, j);
      ReadObject(s, j + 1) ==
        (match MemberEntries(d.value.members) case None => NoParse case Some(entries) => Parse(entries, d.end))
  {
    var k := SkipJsonSpace(s, j + 1);
    hide SkipSpace, SkipJsonSpace, ReadObject, DecodeMembers;
    if k < |s| && s[k] == '}' {
      SpacesAgree(s, j + 1);
      ObjectEnds(s, j + 1);
    } else {
      MembersStart(s, k);
      SpacesAgree(s, j + 1);
      ReadsMembers(s, j + 1, k);
    }
  }

  lemma MembersStart(s: string, i: nat)
    requires i <= |s| && DecodeMembers(s, i).Parse?
    ensures i < |s| && !IsSpace(s[i])
  {
    NameStart(s, i);
  }

  lemma UncutStep(s: string, i: nat, q: nat, chunk: nat, low: nat)
    requires i <= q <= |s| && SkipSpace(s, i) == q && chunk > 0 && MemberUncut(s, q, chunk, low)
    requires ReadMember(s, q).Parse? ==>
      var e, reach := ReadMember(s, q).end, MemberLoaded(s, q, chunk, low);
      if ReadMember(s, q).value.1 then NumbersUncut(s, e, chunk, reach)
      else ReadSeparator(s, e).0 || NumbersUncut(s, ReadSeparator(s, e).1, chunk, reach)
    ensures NumbersUncut(s, i, chunk, low)
  {
    hide SkipSpace, ReadMember, MemberUncut, ReadSeparator, MemberLoaded;
  }

  lemma NoMemberNoNumber(s: string, i: nat, chunk: nat, low: nat)
    requires i <= |s| && chunk > 0 && SkipSpace(s, i) < |s|
    requires s[SkipSpace(s, i)] == ',' || s[SkipSpace(s, i)] == '}'
    ensures NumbersUncut(s, i, chunk, low)
  {
    hide SkipSpace;
    if s[SkipSpace(s, i)] == ',' {
      CommaIsNoMember(s, SkipSpace(s, i));
      assert ReadName(s, SkipSpace(s, i)) == NoParse;
    }
  }

  /** An object without number members is read the same whatever the chunks. */
  lemma {:induction false} NoNumbersNoCuts(s: string, i: nat, q: nat, chunk: nat, low: nat)
    requires i <= q <= |s| && SkipSpace(s, i) == q && DecodeMembers(s, q).Parse? && chunk > 0
    requires forall m :: m in DecodeMembers(s, q).value ==> !m.1.Num?
    ensures NumbersUncut(s, i, chunk, low)
    decreases |s| - q
  {
    hide DecodeValue, DecodeName, SkipSpace, SkipJsonSpace, Separator, ReadMember, MemberUncut, MemberLoaded,
      NumbersUncut, AllObjects;
    var d := DecodeMembers(s, q);
    var name := DecodeName(s, q);
    var item := DecodeValue(s, name.end);
    assert (name.value, item.value) in d.value;
    ReadsName(s, q);
    ReadsMember(s, q);
    OtherMembersUncut(s, q, chunk, low);
    SeparatorSpace(s, item.end, '}');
    var reach := MemberLoaded(s, q, chunk, low);
    NoMemberNoNumber(s, item.end, chunk, reach);
    var sep := Separator(s, item.end, '}');
    if !sep.value {
      var rest := DecodeMembers(s, sep.end);
      assert forall m :: m in rest.value ==> m in d.value;
      NameStart(s, sep.end);
      SpacesAgree(s, SkipSpace(s, item.end) + 1);
      NoNumbersNoCuts(s, SkipSpace(s, item.end) + 1, sep.end, chunk, reach);
    }
    UncutStep(s, i, q, chunk, low);
  }

  // ---- agreement with picking the entries of the whole text -------------------------

  function SkillsMembers(members: Members): nat {
    if members == [] then 0 else (if members[0].0 == SKILLS then 1 else 0) + SkillsMembers(members[1..])
  }

  lemma {:induction false} NoSkillsNoEntries(members: Members)
    requires SkillsMembers(members) == 0
    ensures MemberEntries(members) == Some([]) && Lookup(members, SKILLS) == None
  {
    if members != [] {
      NoSkillsNoEntries(members[1..]);
    }
  }

  lemma {:induction false} OneSkillsArray(members: Members)
    requires SkillsMembers(members) == 1
    requires Lookup(members, SKILLS).Some? && Lookup(members, SKILLS).value.Arr?
    ensures MemberEntries(members) == ArrayEntries(Lookup(members, SKILLS).value.items)
  {
    if members[0].0 == SKILLS {
      NoSkillsNoEntries(members[1..]);
      assert members[0].1.items + [] == members[0].1.items;
    } else {
      OneSkillsArray(members[1..]);
    }
  }

  /** A list of objects, or an object whose only `skills` member, if any, is one. */
  predicate IsIndex(payload: Value) {
    match payload
    case Arr(items) => AllObjects(items)
    case Obj(members) =>
      SkillsMembers(members) == 0 ||
      (SkillsMembers(members) == 1
       && Lookup(members, SKILLS).Some? && Lookup(members, SKILLS).value.Arr?
       && AllObjects(Lookup(members, SKILLS).value.items))
    case _ => false
  }

  /** On a document without number members at its top the reader does not
      depend on where chunks end. */
  lemma DocumentsUncut(text: string, chunk: nat)
    requires WholeText(text).Some? && chunk > 0
    requires WholeText(text).value.Obj? ==> forall m :: m in WholeText(text).value.members ==> !m.1.Num?
    ensures NumbersUncutAtTop(text, chunk)
  {
    hide DecodeValue, SkipSpace, SkipJsonSpace, NumbersUncut;
    var j := SkipJsonSpace(text, 0);
    SpaceBeforeValue(text, 0);
    ValueStart(text, j);
    if text[j] == '{' {
      ObjectUncut(text, j, chunk);
    }
  }

  lemma ObjectUncut(s: string, j: nat, chunk: nat)
    requires j < |s| && s[j] == '{' && DecodeValue(s, j).Parse? && chunk > 0
    requires forall m :: m in DecodeValue(s, j).value.members ==> !m.1.Num?
    ensures NumbersUncut(s, j + 1, chunk, 0)
  {
    var k := SkipJsonSpace(s, j + 1);
    hide SkipSpace, SkipJsonSpace, NumbersUncut, DecodeMembers;
    if k < |s| && s[k] == '}' {
      SpacesAgree(s, j + 1);
      NoMemberNoNumber(s, j + 1, chunk, 0);
    } else {
      MembersStart(s, k);
      SpacesAgree(s, j + 1);
      NoNumbersNoCuts(s, j + 1, k, chunk, 0);
    }
  }

  /** The streaming reader is a faithful replacement of parsing the whole text. */
  lemma ReaderAgreesWithWholeText(text: string)
    requires WholeText(text).Some? && IsIndex(WholeText(text).value)
    ensures ReadTop(text) == Some(CoerceIndexEntries(WholeText(text).value))
  {
    ReadsDocuments(text);
    match WholeText(text).value {
      case Arr(items) => FilterAll(IsObject, items);
      case Obj(members) =>
        if SkillsMembers(members) == 0 {
          NoSkillsNoEntries(members);
        } else {
          OneSkillsArray(members);
          FilterAll(IsObject, Lookup(members, SKILLS).value.items);
        }
      case _ =>
    }
  }

  /** The whole chain for the code, for every chunk size that no run of white
      space exceeds: on an index the reader returns the picked entries if and
      only if the end of no chunk cuts a number member, and refuses otherwise. */
  method ReadIndex(text: string, chunk: nat) returns (r: Option<seq<Value>>)
    requires chunk > 0
    ensures WholeText(text).Some? && IsIndex(WholeText(text).value) && ShortSpaces(text, chunk) ==>
      r == if NumbersUncutAtTop(text, chunk) then Some(CoerceIndexEntries(WholeText(text).value)) else None
  {
    hide WholeText, IsIndex, ShortSpaces, NumbersUncutAtTop, ReadTop, CoerceIndexEntries;
    var reader := new StreamingJsonReader(text, chunk);
    r := reader.ReadTopLevelEntries();
    if WholeText(text).Some? && IsIndex(WholeText(text).value) {
      ReaderAgreesWithWholeText(text);
    }
  }

  // ---- number members ---------------------------------------------------------------

  /** A number that a buffer cuts is never decoded as the number of the text. */
  lemma CutNumbersAreMisread(text: string, q: nat, n: nat)
    requires q < n <= |text| && DecodeValue(text, q).Parse? && DecodeValue(text, q).value.Num?
    ensures DecodeValue(text[..n], q) == DecodeValue(text, q) <==> n >= DecodeValue(text, q).end
  {
    ValuePrefix(text[..n], text, q);
    hide DecodeValue;
  }

  ghost predicate NoBlankStarts(text: string, chunk: nat)
    requires chunk > 0
  {
    forall b: nat :: b < |text| && IsChunkEnd(chunk, b) ==> !IsSpace(text[b])
  }

  /** The reader comes to a member of the object whose value begins at v. */
  ghost predicate ComesTo(text: string, i: nat, v: nat)
    requires i <= |text|
    decreases |text| - i
  {
    var q := SkipSpace(text, i);
    if q < |text| && text[q] == '}' then false
    else
      || IsMemberValue(text, q, v)
      || match ReadMember(text, q)
         case NoParse => false
         case Parse((_, bare), e) =>
           if bare then ComesTo(text, e, v)
           else !ReadSeparator(text, e).0 && ComesTo(text, ReadSeparator(text, e).1, v)
  }

  ghost predicate IsMemberValue(text: string, q: nat, v: nat)
    requires q <= |text|
  {
    match ReadName(text, q)
    case NoParse => false
    case Parse(_, p) => v == SkipSpace(text, p)
  }

  ghost predicate IsMemberAtTop(text: string, v: nat) {
    var q := SkipSpace(text, 0);
    q < |text| && text[q] == '{' && ComesTo(text, q + 1, v)
  }

  /** A chunk ends inside the number at v, behind its first digit. */
  ghost predicate EndsInNumber(text: string, v: nat, chunk: nat, n: nat)
    requires chunk > 0
  {
    && v < |text| && DecodeValue(text, v).Parse? && DecodeValue(text, v).value.Num?
    && FirstDigit(text, v) < n < DecodeValue(text, v).end && IsChunkEnd(chunk, n)
  }

  lemma NothingLoaded(text: string, q: nat, chunk: nat)
    requires q <= |text| && chunk > 0 && NoBlankStarts(text, chunk)
    ensures MemberLoaded(text, q, chunk, 0) == 0
  {
    hide ReadName, IsChunkEnd;
  }

  lemma MemberUncutIff(text: string, q: nat, chunk: nat)
    requires q <= |text| && chunk > 0 && NoBlankStarts(text, chunk)
    ensures MemberUncut(text, q, chunk, 0) <==>
      forall v: nat :: v <= |text| && IsMemberValue(text, q, v) ==> Uncut(text, v, chunk, 0)
  {
    NothingLoaded(text, q, chunk);
    hide ReadName, Uncut, MemberLoaded, NoBlankStarts;
  }

  lemma {:induction false} UncutIff(text: string, i: nat, chunk: nat)
    requires i <= |text| && chunk > 0 && NoBlankStarts(text, chunk)
    ensures NumbersUncut(text, i, chunk, 0) <==>
      forall v: nat :: v <= |text| && ComesTo(text, i, v) ==> Uncut(text, v, chunk, 0)
    decreases |text| - i
  {
    hide SkipSpace, ReadMember, ReadSeparator, IsMemberValue, MemberUncut, Uncut, NoBlankStarts, MemberLoaded;
    var q := SkipSpace(text, i);
    MemberUncutIff(text, q, chunk);
    NothingLoaded(text, q, chunk);
    if !(q < |text| && text[q] == '}') && ReadMember(text, q).Parse? {
      var e := ReadMember(text, q).end;
      UncutIff(text, e, chunk);
      UncutIff(text, ReadSeparator(text, e).1, chunk);
    }
  }

  lemma {:induction false} NextChunkEnd(chunk: nat, i: nat) returns (b: nat)
    requires chunk > 0
    ensures i <= b < i + chunk && IsChunkEnd(chunk, b)
    decreases i
  {
    if i == 0 {
      b := 0;
    } else if i < chunk {
      b := chunk;
      assert IsChunkEnd(chunk, 0);
    } else {
      b := NextChunkEnd(chunk, i - chunk);
      b := b + chunk;
    }
  }

  lemma NoBlankStartsShortSpaces(text: string, chunk: nat)
    requires chunk > 0 && NoBlankStarts(text, chunk)
    ensures ShortSpaces(text, chunk)
  {
    forall i: nat | i <= |text| ensures SkipSpace(text, i) - i <= chunk {
      var b := NextChunkEnd(chunk, i);
      assert b < |text| ==> !IsSpace(text[b]);
    }
  }

  /** When no chunk begins with a blank, white space fits a chunk and never makes
      the reader load more, so a number member is cut by every end of a chunk
      behind its first digit and in front of its end, and by nothing else. */
  lemma BlanksAtChunkStarts(text: string, chunk: nat)
    requires chunk > 0 && NoBlankStarts(text, chunk)
    ensures ShortSpaces(text, chunk)
    ensures NumbersUncutAtTop(text, chunk) <==>
      !exists v: nat, n: nat :: IsMemberAtTop(text, v) && EndsInNumber(text, v, chunk, n)
  {
    NoBlankStartsShortSpaces(text, chunk);
    hide NumbersUncut, NoBlankStarts, ShortSpaces, EndsInNumber, ComesTo, SkipSpace;
    var q := SkipSpace(text, 0);
    if q < |text| && text[q] == '{' {
      ObjectUncutIff(text, q + 1, chunk);
    }
  }

  lemma ObjectUncutIff(text: string, i: nat, chunk: nat)
    requires i <= |text| && chunk > 0 && NoBlankStarts(text, chunk)
    ensures NumbersUncut(text, i, chunk, 0) <==>
      !exists v: nat, n: nat :: ComesTo(text, i, v) && EndsInNumber(text, v, chunk, n)
  {
    hide NumbersUncut, NoBlankStarts, Uncut, EndsInNumber, ComesTo;
    UncutIff(text, i, chunk);
    if v: nat, n: nat :| ComesTo(text, i, v) && EndsInNumber(text, v, chunk, n) {
      EndsInText(text, v, chunk, n);
      UncutAt(text, v, chunk);
    }
    if !NumbersUncut(text, i, chunk, 0) {
      var v: nat :| v <= |text| && ComesTo(text, i, v) && !Uncut(text, v, chunk, 0);
      UncutAt(text, v, chunk);
    }
  }

  lemma EndsInText(text: string, v: nat, chunk: nat, n: nat)
    requires chunk > 0 && EndsInNumber(text, v, chunk, n)
    ensures v < |text|
  {
  }

  lemma UncutAt(text: string, v: nat, chunk: nat)
    requires v <= |text| && chunk > 0
    ensures Uncut(text, v, chunk, 0) <==> !exists n: nat :: EndsInNumber(text, v, chunk, n)
  {
    hide DecodeValue, IsChunkEnd, FirstDigit;
    if n: nat :| EndsInNumber(text, v, chunk, n) {
      assert CutsAt(chunk, FirstDigit(text, v), DecodeValue(text, v).end, 0, n);
    }
    if !Uncut(text, v, chunk, 0) {
      CutIsNumber(text, v, chunk, 0);
      var n: nat :| CutsAt(chunk, FirstDigit(text, v), DecodeValue(text, v).end, 0, n);
      assert EndsInNumber(text, v, chunk, n);
    }
  }

  lemma {:induction false} SkipsTo(text: string, p: nat, v: nat)
    requires p <= v < |text| && (forall k :: p <= k < v ==> text[k] == ' ') && !IsSpace(text[v])
    ensures SkipSpace(text, p) == v && SkipJsonSpace(text, p) == v
    decreases v - p
  {
    if p < v {
      SkipsTo(text, p + 1, v);
    }
  }

  ghost predicate IsOneNumber(text: string, p: nat, v: nat, e: nat) {
    && 3 < p <= v < e == |text| - 1 && text[0] == '{' && text[1] == '\"' && text[e] == '}'
    && StringRest(text, 2).Parse? && StringRest(text, 2).end == p - 1 && text[p - 1] == ':'
    && (forall k :: p <= k < v ==> text[k] == ' ')
    && (IsDigit(text[v]) || text[v] == '-') && Number(text, v) == Some(e)
  }

  /** An object with one member of the given name, white space and number. */
  lemma OneNumber(text: string, p: nat, v: nat, e: nat)
    requires IsOneNumber(text, p, v, e)
    ensures WholeText(text) == Some(Obj([(StringRest(text, 2).value, Num(text[v..e]))]))
    ensures ReadName(text, 1) == Parse(Str(StringRest(text, 2).value), p)
    ensures SkipSpace(text, 0) == 0 && SkipSpace(text, 1) == 1 && SkipSpace(text, p) == v
    ensures DecodeValue(text, v) == Parse(Num(text[v..e]), e)
  {
    hide StringRest, Number;
    NumberStart(text, v);
    SkipsTo(text, p, v);
    SkipsTo(text, 0, 0);
    SkipsTo(text, 1, 1);
    SkipsTo(text, p - 1, p - 1);
    SkipsTo(text, e, e);
    assert DecodeName(text, 1) == Parse(StringRest(text, 2).value, v);
    assert DecodeValue(text, 1) == Parse(Str(StringRest(text, 2).value), p - 1);
    hide SkipSpace, SkipJsonSpace;
    assert DecodeMembers(text, 1) == Parse([(StringRest(text, 2).value, Num(text[v..e]))], e + 1);
    assert SkipJsonSpace(text, |text|) == |text|;
  }

  /** The condition for a single member that is not called `skills`. */
  lemma OneNumberUncutIff(text: string, p: nat, v: nat, e: nat, chunk: nat)
    requires IsOneNumber(text, p, v, e) && StringRest(text, 2).value != SKILLS && chunk > 0
    ensures NumbersUncutAtTop(text, chunk) <==> !IsCut(chunk, FirstDigit(text, v), e, Loaded(text, p, chunk, 0))
    ensures WholeText(text).Some? && IsIndex(WholeText(text).value) && CoerceIndexEntries(WholeText(text).value) == []
  {
    OneNumber(text, p, v, e);
    NoSkillsNoEntries([(StringRest(text, 2).value, Num(text[v..e]))]);
    hide IsOneNumber, StringRest, Number, ReadName, DecodeValue, IsCut, Loaded, FirstDigit, WholeText, SkipSpace;
    MemberEndsObject(text, 1, e, chunk, 0);
  }

  lemma MemberEndsObject(text: string, q: nat, e: nat, chunk: nat, low: nat)
    requires q < e == |text| - 1 && text[e] == '}' && SkipSpace(text, q) == q && text[q] != '}' && chunk > 0
    requires ReadMember(text, q) == Parse(([], false), e)
    ensures NumbersUncut(text, q, chunk, low) <==> MemberUncut(text, q, chunk, low)
  {
    hide SkipSpace, ReadMember, MemberUncut, ReadSeparator, MemberLoaded;
    ClosesAtEnd(text, e);
  }

  lemma ClosesAtEnd(text: string, e: nat)
    requires e < |text| && text[e] == '}'
    ensures ReadSeparator(text, e) == (true, e + 1)
  {
  }

  lemma FewBlanks(text: string, k: nat, chunk: nat)
    requires chunk > 0 && forall i :: 0 <= i < |text| && i != k ==> !IsSpace(text[i])
    ensures ShortSpaces(text, chunk)
  {
    forall i: nat | i <= |text| ensures SkipSpace(text, i) - i <= chunk {
      if i < |text| && IsSpace(text[i]) {
        assert SkipSpace(text, i + 1) == i + 1;
      }
    }
  }

  /** What the reader makes of three indexes in chunks of six characters: a chunk
      ends inside 12, which it refuses; right behind a minus sign; and, in the
      last, inside a number behind a blank that begins a chunk. */
  method NumbersInChunksOfSix() returns (cut: Option<seq<Value>>, sign: Option<seq<Value>>, blank: Option<seq<Value>>)
    ensures cut == None && sign == Some([]) && blank == Some([])
  {
    CutBehindDigit();
    cut := ReadIndex("{\"a\":12}", 6);
    CutBehindSign();
    sign := ReadIndex("{\"a\":-1}", 6);
    CutBehindBlank();
    blank := ReadIndex("{\"aa\": 12345678}", 6);
  }

  lemma CutBehindDigit()
    ensures var text := "{\"a\":12}";
      && WholeText(text).Some? && IsIndex(WholeText(text).value) && ShortSpaces(text, 6)
      && CoerceIndexEntries(WholeText(text).value) == [] && !NumbersUncutAtTop(text, 6)
  {
    hide WholeText, IsIndex, CoerceIndexEntries, NumbersUncutAtTop, ShortSpaces;
    var text := "{\"a\":12}";
    FewBlanks(text, 6, 6);
    NameOfA(text, 2);
    assert Digits(text, 7) == 7 && Digits(text, 6) == 7;
    assert IsChunkEnd(6, 6) && CutsAt(6, 5, 7, 0, 6);
    OneNumberUncutIff(text, 5, 5, 7, 6);
  }

  lemma CutBehindSign()
    ensures var text := "{\"a\":-1}";
      && WholeText(text).Some? && IsIndex(WholeText(text).value) && ShortSpaces(text, 6)
      && CoerceIndexEntries(WholeText(text).value) == [] && NumbersUncutAtTop(text, 6)
  {
    hide WholeText, IsIndex, CoerceIndexEntries, NumbersUncutAtTop, ShortSpaces;
    var text := "{\"a\":-1}";
    FewBlanks(text, 6, 6);
    NameOfA(text, 2);
    assert Digits(text, 7) == 7;
    OneNumberUncutIff(text, 5, 5, 7, 6);
  }

  lemma CutBehindBlank()
    ensures var text := "{\"aa\": 12345678}";
      && WholeText(text).Some? && IsIndex(WholeText(text).value) && ShortSpaces(text, 6)
      && CoerceIndexEntries(WholeText(text).value) == [] && NumbersUncutAtTop(text, 6)
  {
    hide WholeText, IsIndex, CoerceIndexEntries, NumbersUncutAtTop, ShortSpaces, IsOneNumber, IsCut, Loaded;
    var text := "{\"aa\": 12345678}";
    FewBlanks(text, 6, 6);
    NameBehindBlank();
    LoadedBehindBlank();
    OneNumberUncutIff(text, 6, 7, 15, 6);
  }

  lemma NameBehindBlank()
    ensures IsOneNumber("{\"aa\": 12345678}", 6, 7, 15)
    ensures StringRest("{\"aa\": 12345678}", 2).value != SKILLS
  {
    var text := "{\"aa\": 12345678}";
    NameOfA(text, 3);
    assert [97] + [97] == [97, 97];
    assert StringRest(text, 2) == Parse([97, 97], 5);
    DigitsTo(text, 8, 15);
  }

  lemma LoadedBehindBlank()
    ensures !IsCut(6, 7, 15, Loaded("{\"aa\": 12345678}", 6, 6, 0))
  {
    var text := "{\"aa\": 12345678}";
    SkipsTo(text, 6, 7);
    hide SkipSpace;
    assert IsChunkEnd(6, 6) && Loaded(text, 6, 6, 0) == 18;
  }

  lemma NameOfA(text: string, i: nat)
    requires i + 1 < |text| && text[i] == 'a' && text[i + 1] == '\"'
    ensures StringRest(text, i) == Parse([97], i + 2)
  {
    assert StringRest(text, i + 1) == Parse([], i + 2);
    assert [97] + [] == [97];
  }

  lemma {:induction false} DigitsTo(text: string, i: nat, e: nat)
    requires i <= e < |text| && (forall k :: i <= k < e ==> IsDigit(text[k])) && !IsDigit(text[e])
    ensures Digits(text, i) == e
    decreases e - i
  {
    if i < e {
      DigitsTo(text, i + 1, e);
    }
  }
}
