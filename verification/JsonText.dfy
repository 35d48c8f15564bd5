/** The texts of JSON values, written from their parts: an independent printer
    for the grammar of RFC 8259, with every spelling of strings and numbers and
    any white space, which the decoder of JsonGrammar.dfy reads back. */
module JsonText {
  import opened Prelude
  import opened JsonGrammar

  // ---- white space ---------------------------------------------------------

  predicate IsGap(s: string) {
    forall c :: c in s ==> c in " \t\n\r"
  }

  // ---- strings -------------------------------------------------------------

  /** One character of a string: as it is, by its short escape, or by the values
      of four hexadecimal digits, each of which may be upper case. */
  datatype Spelling =
    | Plain(c: char)
    | Quote | Backslash | Slash | Backspace | FormFeed | NewLine | Return | Tab
    | Hex(digits: seq<nat>, upper: seq<bool>)
  {
    predicate Valid() {
      match this
      case Plain(c) => c >= ' ' && c != '\"' && c != '\\'
      case Hex(digits, upper) => |digits| == 4 && |upper| == 4 && forall k :: 0 <= k < 4 ==> digits[k] < 16
      case _ => true
    }

    function Text(): string
      requires Valid()
    {
      match this
      case Plain(c) => [c]
      case Quote => "\\\""
      case Backslash => "\\\\"
      case Slash => "\\/"
      case Backspace => "\\b"
      case FormFeed => "\\f"
      case NewLine => "\\n"
      case Return => "\\r"
      case Tab => "\\t"
      case Hex(d, u) => "\\u" + [HexChar(d[0], u[0]), HexChar(d[1], u[1]), HexChar(d[2], u[2]), HexChar(d[3], u[3])]
    }

    /** The code unit that is meant. */
    function Unit(): int
      requires Valid()
    {
      match this
      case Plain(c) => c as int
      case Quote => '\"' as int
      case Backslash => '\\' as int
      case Slash => '/' as int
      case Backspace => 0x8
      case FormFeed => 0xc
      case NewLine => '\n' as int
      case Return => '\r' as int
      case Tab => '\t' as int
      case Hex(d, _) => 0x1000 * d[0] + 0x100 * d[1] + 0x10 * d[2] + d[3]
    }
  }

  function HexChar(value: nat, upper: bool): char
    requires value < 16
  {
    if upper then "0123456789ABCDEF"[value] else "0123456789abcdef"[value]
  }

  predicate ValidSpelling(s: seq<Spelling>) {
    forall x :: x in s ==> x.Valid()
  }

  /** The characters of a string and the quote that closes it. */
  function CharsText(s: seq<Spelling>): string
    requires ValidSpelling(s)
  {
    if s == [] then "\"" else s[0].Text() + CharsText(s[1..])
  }

  function Units(s: seq<Spelling>): seq<int>
    requires ValidSpelling(s)
  {
    if s == [] then [] else [s[0].Unit()] + Units(s[1..])
  }

  // ---- numbers -------------------------------------------------------------

  predicate AreDigits(s: string) {
    s != [] && forall c :: c in s ==> c in "0123456789"
  }

  datatype Exponent = Exponent(letter: char, sign: string, digits: string)

  datatype Numeral = Numeral(negative: bool, whole: string, fraction: Option<string>, exponent: Option<Exponent>) {
    predicate Valid() {
      && AreDigits(whole) && (whole[0] == '0' ==> whole == "0")
      && (fraction.Some? ==> AreDigits(fraction.value))
      && (exponent.Some? ==>
            && (exponent.value.letter == 'e' || exponent.value.letter == 'E')
            && (exponent.value.sign == "" || exponent.value.sign == "+" || exponent.value.sign == "-")
            && AreDigits(exponent.value.digits))
    }

    function Text(): string {
      (if negative then "-" else "") + whole
      + (if fraction.Some? then "." + fraction.value else "")
      + (if exponent.Some? then [exponent.value.letter] + exponent.value.sign + exponent.value.digits else "")
    }
  }

  // ---- values --------------------------------------------------------------

  datatype Tree =
    | TStr(chars: seq<Spelling>)
    | TNum(numeral: Numeral)
    | TWord(word: string)
    | TArr(gap: string, items: Items)
    | TObj(gap: string, members: Members)

  /** The items of an array, each with the white space behind it and, before
      another one, that behind the comma. */
  datatype Items = NoItems | Items(value: Tree, after: string, next: string, rest: Items)

  datatype Members = NoMembers
    | Members(name: seq<Spelling>, colon: string, gap: string, value: Tree, after: string, next: string, rest: Members)

  predicate ValidTree(t: Tree) {
    match t
    case TStr(chars) => ValidSpelling(chars)
    case TNum(numeral) => numeral.Valid()
    case TWord(word) => word in ["null", "true", "false", "NaN", "Infinity", "-Infinity"]
    case TArr(gap, items) => IsGap(gap) && ValidItems(items)
    case TObj(gap, members) => IsGap(gap) && ValidMembers(members)
  }

  predicate ValidItems(items: Items) {
    items.Items? ==> ValidTree(items.value) && IsGap(items.after) && IsGap(items.next) && ValidItems(items.rest)
  }

  predicate ValidMembers(m: Members) {
    m.Members? ==>
      && ValidSpelling(m.name) && IsGap(m.colon) && IsGap(m.gap) && ValidTree(m.value)
      && IsGap(m.after) && IsGap(m.next) && ValidMembers(m.rest)
  }

  function Text(t: Tree): string
    requires ValidTree(t)
  {
    match t
    case TStr(chars) => "\"" + CharsText(chars)
    case TNum(numeral) => numeral.Text()
    case TWord(word) => word
    case TArr(gap, items) => "[" + (gap + (if items.NoItems? then "]" else ItemsText(items)))
    case TObj(gap, members) => "{" + (gap + (if members.NoMembers? then "}" else MembersText(members)))
  }

  function ItemsText(items: Items): string
    requires ValidItems(items) && items.Items?
  {
    Text(items.value) + (items.after
      + (if items.rest.NoItems? then "]" else "," + (items.next + ItemsText(items.rest))))
  }

  function NameText(m: Members): string
    requires ValidMembers(m) && m.Members?
  {
    "\"" + (CharsText(m.name) + (m.colon + (":" + m.gap)))
  }

  function MembersText(m: Members): string
    requires ValidMembers(m) && m.Members?
  {
    NameText(m) + (Text(m.value) + (m.after
      + (if m.rest.NoMembers? then "}" else "," + (m.next + MembersText(m.rest)))))
  }

  /** The value that a tree spells. */
  function Meaning(t: Tree): Value
    requires ValidTree(t)
  {
    match t
    case TStr(chars) => Str(Units(chars))
    case TNum(numeral) => Num(numeral.Text())
    case TWord(word) => Literal(word)
    case TArr(_, items) => Arr(ItemValues(items))
    case TObj(_, members) => Obj(MemberValues(members))
  }

  function ItemValues(items: Items): seq<Value>
    requires ValidItems(items)
  {
    if items.NoItems? then [] else [Meaning(items.value)] + ItemValues(items.rest)
  }

  function MemberValues(m: Members): seq<(seq<int>, Value)>
    requires ValidMembers(m)
  {
    if m.NoMembers? then [] else [(Units(m.name), Meaning(m.value))] + MemberValues(m.rest)
  }

  // ---- places in a text ----------------------------------------------------

  predicate At(s: string, i: nat, w: string) {
    i + |w| <= |s| && s[i..i + |w|] == w
  }

  lemma AtParts(s: string, i: nat, a: string, b: string)
    ensures At(s, i, a + b) <==> At(s, i, a) && At(s, i + |a|, b)
  {
    if i + |a + b| <= |s| {
      var x, y := s[i..i + |a|], s[i + |a|..i + |a + b|];
      assert s[i..i + |a + b|] == x + y;
      assert x + y == a + b ==> (x + y)[..|a|] == (a + b)[..|a|] && (x + y)[|a|..] == (a + b)[|a|..];
    }
  }

  lemma AtChar(s: string, i: nat, w: string, k: nat)
    requires At(s, i, w) && k < |w|
    ensures i + k < |s| && s[i + k] == w[k]
  {
    assert s[i..i + |w|][k] == w[k];
  }

  lemma {:induction false} GapIsSkipped(s: string, i: nat, gap: string)
    requires IsGap(gap) && At(s, i, gap)
    requires i + |gap| == |s| || !IsJsonSpace(s[i + |gap|])
    ensures SkipJsonSpace(s, i) == i + |gap|
    decreases |gap|
  {
    if gap != "" {
      AtChar(s, i, gap, 0);
      assert gap[0] in gap && gap[0] in " \t\n\r";
      AtParts(s, i, gap[..1], gap[1..]);
      assert gap == gap[..1] + gap[1..];
      GapIsSkipped(s, i + 1, gap[1..]);
    }
  }

  // ---- strings are read back -----------------------------------------------

  lemma HexCharIsDigit(value: nat, upper: bool)
    requires value < 16
    ensures HexDigit(HexChar(value, upper)) == Some(value)
  {
  }

  lemma SpellingIsRead(s: string, i: nat, x: Spelling)
    requires x.Valid() && At(s, i, x.Text())
    ensures i < |s| && s[i] != '\"' && StringUnit(s, i) == Parse(x.Unit(), i + |x.Text()|)
  {
    AtChar(s, i, x.Text(), 0);
    if !x.Plain? {
      AtChar(s, i, x.Text(), 1);
    }
    if x.Hex? {
      HexIsRead(s, i, x);
    }
  }

  lemma HexIsRead(s: string, i: nat, x: Spelling)
    requires x.Hex? && x.Valid() && At(s, i, x.Text())
    ensures i + 6 <= |s| && CodeUnit(s, i + 2) == Some(x.Unit())
  {
    var w := x.Text();
    forall k | 0 <= k < 4 ensures s[i + 2 + k] == HexChar(x.digits[k], x.upper[k]) {
      AtChar(s, i, w, k + 2);
    }
    forall k | 0 <= k < 4 ensures HexDigit(s[i + 2 + k]) == Some(x.digits[k]) {
      HexCharIsDigit(x.digits[k], x.upper[k]);
    }
    hide HexChar, HexDigit;
    assert HexDigit(s[i + 2]) == Some(x.digits[0]) && HexDigit(s[i + 3]) == Some(x.digits[1]);
    assert HexDigit(s[i + 4]) == Some(x.digits[2]) && HexDigit(s[i + 5]) == Some(x.digits[3]);
  }

  lemma OneMoreChar(s: string, i: nat, unit: int, j: nat, units: seq<int>, e: nat)
    requires i < |s| && s[i] != '\"' && StringUnit(s, i) == Parse(unit, j)
    requires j <= |s| && StringRest(s, j) == Parse(units, e)
    ensures StringRest(s, i) == Parse([unit] + units, e)
  {
    hide StringUnit;
  }

  lemma FirstChar(chars: seq<Spelling>)
    requires ValidSpelling(chars) && chars != []
    ensures chars[0].Valid() && ValidSpelling(chars[1..])
    ensures CharsText(chars) == chars[0].Text() + CharsText(chars[1..])
    ensures Units(chars) == [chars[0].Unit()] + Units(chars[1..])
  {
    hide Spelling.Text, Spelling.Unit, Spelling.Valid;
  }

  lemma {:induction false} CharsAreRead(s: string, i: nat, chars: seq<Spelling>)
    requires ValidSpelling(chars) && At(s, i, CharsText(chars))
    ensures i <= |s| && StringRest(s, i) == Parse(Units(chars), i + |CharsText(chars)|)
    decreases |chars|
  {
    if chars == [] {
      AtChar(s, i, "\"", 0);
    } else {
      hide *;
      FirstChar(chars);
      var x, more := chars[0], chars[1..];
      var j := i + |x.Text()|;
      AtParts(s, i, x.Text(), CharsText(more));
      SpellingIsRead(s, i, x);
      CharsAreRead(s, j, more);
      OneMoreChar(s, i, x.Unit(), j, Units(more), j + |CharsText(more)|);
    }
  }

  // ---- numbers are read back -----------------------------------------------

  /** Here a number is over. */
  predicate NumberEnds(s: string, e: nat) {
    e <= |s| && (e < |s| ==> !IsDigit(s[e]) && s[e] != '.' && s[e] != 'e' && s[e] != 'E')
  }

  lemma DigitIsDigit(c: char)
    ensures c in "0123456789" <==> IsDigit(c)
  {
    if IsDigit(c) {
      assert "0123456789"[c as int - '0' as int] == c;
    }
  }

  lemma {:induction false} DigitsAreRead(s: string, i: nat, w: string)
    requires (forall c :: c in w ==> c in "0123456789") && At(s, i, w)
    requires i + |w| == |s| || !IsDigit(s[i + |w|])
    ensures Digits(s, i) == i + |w|
    decreases |w|
  {
    if w != "" {
      AtChar(s, i, w, 0);
      assert w[0] in w;
      DigitIsDigit(w[0]);
      assert w == w[..1] + w[1..];
      AtParts(s, i, w[..1], w[1..]);
      DigitsAreRead(s, i + 1, w[1..]);
    }
  }

  lemma FirstIsDigit(s: string, i: nat, w: string)
    requires AreDigits(w) && At(s, i, w)
    ensures i < |s| && IsDigit(s[i]) && s[i] == w[0] && At(s, i + 1, w[1..])
  {
    AtChar(s, i, w, 0);
    assert w[0] in w;
    DigitIsDigit(w[0]);
    assert w == w[..1] + w[1..];
    AtParts(s, i, w[..1], w[1..]);
  }

  lemma WholeIsRead(s: string, i: nat, negative: bool, whole: string)
    requires AreDigits(whole) && (whole[0] == '0' ==> whole == "0")
    requires At(s, i, SignedText(negative, whole))
    requires var e := i + |SignedText(negative, whole)|; e < |s| ==> !IsDigit(s[e])
    ensures i < |s| && Integer(s, i) == Some(i + |SignedText(negative, whole)|)
  {
    var sign := if negative then "-" else "";
    AtParts(s, i, sign, whole);
    if negative {
      AtChar(s, i, sign, 0);
    }
    var j := i + |sign|;
    FirstIsDigit(s, j, whole);
    if whole[0] != '0' {
      DigitsAreRead(s, j + 1, whole[1..]);
    }
  }

  lemma FractionIsRead(s: string, i: nat, fraction: Option<string>)
    requires fraction.Some? ==> AreDigits(fraction.value) && At(s, i, "." + fraction.value)
    requires var e := i + (if fraction.Some? then 1 + |fraction.value| else 0);
      e <= |s| && (e < |s| ==> !IsDigit(s[e]) && s[e] != '.')
    ensures i <= |s| && Fraction(s, i) == i + if fraction.Some? then 1 + |fraction.value| else 0
  {
    if fraction.Some? {
      var w := fraction.value;
      AtParts(s, i, ".", w);
      AtChar(s, i, ".", 0);
      FirstIsDigit(s, i + 1, w);
      DigitsAreRead(s, i + 2, w[1..]);
    }
  }

  lemma ExponentIsRead(s: string, i: nat, x: Exponent)
    requires (x.letter == 'e' || x.letter == 'E') && (x.sign == "" || x.sign == "+" || x.sign == "-")
    requires AreDigits(x.digits) && At(s, i, [x.letter] + x.sign + x.digits)
    requires NumberEnds(s, i + 1 + |x.sign| + |x.digits|)
    ensures JsonGrammar.Exponent(s, i) == i + 1 + |x.sign| + |x.digits|
  {
    var head := [x.letter] + x.sign;
    AtParts(s, i, head, x.digits);
    AtParts(s, i, [x.letter], x.sign);
    var j := i + 1 + |x.sign|;
    assert s[i] == x.letter by {
      AtChar(s, i, [x.letter], 0);
    }
    FirstIsDigit(s, j, x.digits);
    assert x.sign != "" ==> s[i + 1] == x.sign[0] by {
      if x.sign != "" {
        AtChar(s, i + 1, x.sign, 0);
      }
    }
    DigitsAreRead(s, j + 1, x.digits[1..]);
    hide At, AreDigits;
    ExponentFrom(s, i, x.sign != "", j + |x.digits|);
  }

  lemma ExponentFrom(s: string, i: nat, signed: bool, e: nat)
    requires i + 1 < |s| && (s[i] == 'e' || s[i] == 'E') && (signed <==> s[i + 1] == '+' || s[i + 1] == '-')
    requires var j := i + 1 + (if signed then 1 else 0); j < |s| && IsDigit(s[j]) && Digits(s, j + 1) == e
    ensures JsonGrammar.Exponent(s, i) == e
  {
    hide Digits;
  }

  function ExponentText(x: Option<Exponent>): string {
    if x.Some? then [x.value.letter] + x.value.sign + x.value.digits else ""
  }

  function FractionText(f: Option<string>): string {
    if f.Some? then "." + f.value else ""
  }

  function SignedText(negative: bool, whole: string): string {
    (if negative then "-" else "") + whole
  }

  lemma NumeralParts(s: string, i: nat, n: Numeral)
    requires At(s, i, n.Text())
    ensures var j := i + |SignedText(n.negative, n.whole)|;
      var k := j + |FractionText(n.fraction)|;
      && At(s, i, SignedText(n.negative, n.whole)) && At(s, j, FractionText(n.fraction))
      && At(s, k, ExponentText(n.exponent)) && k + |ExponentText(n.exponent)| == i + |n.Text()|
  {
    var head, middle := SignedText(n.negative, n.whole), FractionText(n.fraction);
    var tail := ExponentText(n.exponent);
    assert n.Text() == head + middle + tail;
    AtParts(s, i, head + middle, tail);
    AtParts(s, i, head, middle);
  }

  lemma ExponentPart(s: string, k: nat, x: Option<Exponent>)
    requires x.Some? ==>
      && (x.value.letter == 'e' || x.value.letter == 'E')
      && (x.value.sign == "" || x.value.sign == "+" || x.value.sign == "-") && AreDigits(x.value.digits)
    requires At(s, k, ExponentText(x)) && NumberEnds(s, k + |ExponentText(x)|)
    ensures k <= |s| && JsonGrammar.Exponent(s, k) == k + |ExponentText(x)|
    ensures k < |s| ==> !IsDigit(s[k]) && s[k] != '.'
  {
    if x.Some? {
      ExponentIsRead(s, k, x.value);
      AtChar(s, k, ExponentText(x), 0);
    }
  }

  lemma FractionPart(s: string, j: nat, f: Option<string>)
    requires f.Some? ==> AreDigits(f.value)
    requires At(s, j, FractionText(f))
    requires var k := j + |FractionText(f)|; k < |s| ==> !IsDigit(s[k]) && s[k] != '.'
    ensures j <= |s| && Fraction(s, j) == j + |FractionText(f)|
    ensures j < |s| ==> !IsDigit(s[j])
  {
    FractionIsRead(s, j, f);
    if f.Some? {
      AtChar(s, j, FractionText(f), 0);
    }
  }

  lemma NumberIsRead(s: string, i: nat, n: Numeral)
    requires n.Valid() && At(s, i, n.Text()) && NumberEnds(s, i + |n.Text()|)
    ensures i < |s| && (IsDigit(s[i]) || s[i] == '-') && Number(s, i) == Some(i + |n.Text()|)
  {
    hide Numeral.Text, At, AreDigits, Integer, Fraction, JsonGrammar.Exponent, ExponentText, FractionText, NumberEnds,
      SignedText, Number, IsDigit;
    NumeralParts(s, i, n);
    var j := i + |SignedText(n.negative, n.whole)|;
    var k := j + |FractionText(n.fraction)|;
    ExponentPart(s, k, n.exponent);
    FractionPart(s, j, n.fraction);
    WholeIsRead(s, i, n.negative, n.whole);
    NumberFromParts(s, i, j, k, i + |n.Text()|);
    NumberBegins(s, i);
  }

  lemma NumberFromParts(s: string, i: nat, j: nat, k: nat, e: nat)
    requires i < |s| && j <= |s| && k <= |s|
    requires Integer(s, i) == Some(j) && Fraction(s, j) == k && JsonGrammar.Exponent(s, k) == e
    ensures Number(s, i) == Some(e)
  {
  }

  // ---- values are read back ------------------------------------------------

  lemma WordIsRead(s: string, i: nat, word: string)
    requires word in ["null", "true", "false", "NaN", "Infinity", "-Infinity"] && At(s, i, word)
    ensures DecodeValue(s, i) == Parse(Literal(word), i + |word|)
  {
    AtChar(s, i, word, 0);
    InfinityIsNoNumber(s, i);
    hide Number;
  }

  lemma FirstOfTree(t: Tree)
    requires ValidTree(t)
    ensures Text(t) != "" && !IsJsonSpace(Text(t)[0]) && Text(t)[0] != ']' && Text(t)[0] != '}'
  {
    if t.TNum? {
      var c := t.numeral.whole[0];
      assert c in t.numeral.whole;
      DigitIsDigit(c);
    }
  }

  /** A value ends here: at the end of the text or in front of a delimiter. */
  predicate Delimited(s: string, e: nat) {
    e == |s| || (e < |s| && IsDelimiter(s[e]))
  }

  lemma GapDelimits(s: string, e: nat, gap: string, c: char)
    requires IsGap(gap) && At(s, e, gap + [c]) && (c == ',' || c == ']' || c == '}')
    ensures Delimited(s, e) && SkipJsonSpace(s, e) == e + |gap| < |s| && s[e + |gap|] == c
  {
    AtParts(s, e, gap, [c]);
    AtChar(s, e + |gap|, [c], 0);
    GapIsSkipped(s, e, gap);
    if gap != "" {
      AtChar(s, e, gap, 0);
      assert gap[0] in gap && gap[0] in " \t\n\r";
    }
  }

  lemma CloseIsRead(s: string, e: nat, gap: string, close: char)
    requires IsGap(gap) && At(s, e, gap + [close]) && (close == ']' || close == '}')
    ensures e <= |s| && Delimited(s, e) && Separator(s, e, close) == Parse(true, e + |gap| + 1)
  {
    GapDelimits(s, e, gap, close);
    hide SkipJsonSpace;
  }

  /** A comma and what follows it, which does not begin with white space. */
  lemma CommaIsRead(s: string, e: nat, gap: string, next: string, w: string, close: char)
    requires IsGap(gap) && IsGap(next) && w != "" && !IsJsonSpace(w[0]) && (close == ']' || close == '}')
    requires At(s, e, gap + ("," + (next + w)))
    ensures e <= |s| && Delimited(s, e) && Separator(s, e, close) == Parse(false, e + |gap| + 1 + |next|)
    ensures At(s, e + |gap| + 1 + |next|, w)
  {
    assert gap + ("," + (next + w)) == (gap + ",") + (next + w);
    AtParts(s, e, gap + ",", next + w);
    hide SkipJsonSpace, Delimited, IsJsonSpace;
    GapDelimits(s, e, gap, ',');
    var j := e + |gap| + 1;
    NextIsSkipped(s, j, next, w);
    SeparatorFrom(s, e, j, close);
  }

  lemma NextIsSkipped(s: string, j: nat, next: string, w: string)
    requires IsGap(next) && w != "" && !IsJsonSpace(w[0]) && At(s, j, next + w)
    ensures j <= |s| && SkipJsonSpace(s, j) == j + |next| && At(s, j + |next|, w)
  {
    AtParts(s, j, next, w);
    AtChar(s, j + |next|, w, 0);
    GapIsSkipped(s, j, next);
  }

  lemma SeparatorFrom(s: string, e: nat, j: nat, close: char)
    requires e < j <= |s| && SkipJsonSpace(s, e) == j - 1 && s[j - 1] == ',' && close != ','
    ensures Separator(s, e, close) == Parse(false, SkipJsonSpace(s, j))
  {
  }

  /** The opening bracket of an array or object and the space behind it. */
  lemma OpenIsRead(s: string, i: nat, open: char, gap: string, w: string)
    requires IsGap(gap) && w != "" && !IsJsonSpace(w[0]) && At(s, i, [open] + (gap + w))
    ensures i < |s| && s[i] == open && SkipJsonSpace(s, i + 1) == i + 1 + |gap|
    ensures At(s, i + 1 + |gap|, w) && i + 1 + |gap| < |s| && s[i + 1 + |gap|] == w[0]
  {
    AtParts(s, i, [open], gap + w);
    AtChar(s, i, [open], 0);
    AtParts(s, i + 1, gap, w);
    AtChar(s, i + 1 + |gap|, w, 0);
    GapIsSkipped(s, i + 1, gap);
  }

  lemma FirstOfItems(items: Items)
    requires ValidItems(items) && items.Items?
    ensures ItemsText(items) != "" && !IsJsonSpace(ItemsText(items)[0]) && ItemsText(items)[0] != ']'
  {
    FirstOfTree(items.value);
  }

  lemma ScalarIsRead(s: string, i: nat, t: Tree)
    requires ValidTree(t) && !t.TArr? && !t.TObj?
    requires At(s, i, Text(t)) && Delimited(s, i + |Text(t)|)
    ensures i <= |s| && DecodeValue(s, i) == Parse(Meaning(t), i + |Text(t)|)
  {
    match t {
      case TStr(chars) =>
        hide CharsText, Units;
        AtParts(s, i, "\"", CharsText(chars));
        AtChar(s, i, "\"", 0);
        CharsAreRead(s, i + 1, chars);
        hide StringRest;
      case TNum(n) =>
        hide Numeral.Text, Numeral.Valid;
        NumberIsRead(s, i, n);
        NumberStart(s, i);
        hide DecodeValue, Number;
      case TWord(word) => WordIsRead(s, i, word);
    }
  }

  lemma {:induction false} TreeIsRead(s: string, i: nat, t: Tree)
    requires ValidTree(t) && At(s, i, Text(t)) && Delimited(s, i + |Text(t)|)
    ensures i <= |s| && DecodeValue(s, i) == Parse(Meaning(t), i + |Text(t)|)
    decreases t
  {
    match t {
      case TArr(gap, items) => ArrayIsRead(s, i, gap, items);
      case TObj(gap, members) => ObjectIsRead(s, i, gap, members);
      case _ => ScalarIsRead(s, i, t);
    }
  }

  lemma {:induction false} ArrayIsRead(s: string, i: nat, gap: string, items: Items)
    requires IsGap(gap) && ValidItems(items) && At(s, i, Text(TArr(gap, items)))
    ensures i <= |s| && DecodeValue(s, i) == Parse(Arr(ItemValues(items)), i + |Text(TArr(gap, items))|)
    decreases items, 1
  {
    hide DecodeItems, SkipJsonSpace, ItemsText, Text, At;
    if items.NoItems? {
      assert Text(TArr(gap, items)) == "[" + (gap + "]") by {
        EmptyTexts(gap);
      }
      OpenIsRead(s, i, '[', gap, "]");
    } else {
      ArrayText(gap, items);
      FirstOfItems(items);
      OpenIsRead(s, i, '[', gap, ItemsText(items));
      ItemsAreRead(s, i + 1 + |gap|, items);
    }
  }

  lemma EmptyTexts(gap: string)
    requires IsGap(gap)
    ensures Text(TArr(gap, NoItems)) == "[" + (gap + "]")
    ensures Text(TObj(gap, NoMembers)) == "{" + (gap + "}")
  {
  }

  lemma ArrayText(gap: string, items: Items)
    requires IsGap(gap) && ValidItems(items) && items.Items?
    ensures Text(TArr(gap, items)) == "[" + (gap + ItemsText(items))
  {
    hide ItemsText;
  }

  lemma {:induction false} ItemsAreRead(s: string, i: nat, items: Items)
    requires ValidItems(items) && items.Items? && At(s, i, ItemsText(items))
    ensures i <= |s| && DecodeItems(s, i) == Parse(ItemValues(items), i + |ItemsText(items)|)
    decreases items, 0
  {
    hide DecodeValue, Separator, Text, At, Delimited;
    var e := i + |Text(items.value)|;
    if items.rest.NoItems? {
      AtParts(s, i, Text(items.value), items.after + "]");
      CloseIsRead(s, e, items.after, ']');
      TreeIsRead(s, i, items.value);
      assert ItemValues(items) == [Meaning(items.value)];
    } else {
      var w := ItemsText(items.rest);
      AtParts(s, i, Text(items.value), items.after + ("," + (items.next + w)));
      FirstOfItems(items.rest);
      CommaIsRead(s, e, items.after, items.next, w, ']');
      TreeIsRead(s, i, items.value);
      ItemsAreRead(s, e + |items.after| + 1 + |items.next|, items.rest);
    }
  }

  lemma ObjectText(gap: string, m: Members)
    requires IsGap(gap) && ValidMembers(m) && m.Members?
    ensures Text(TObj(gap, m)) == "{" + (gap + MembersText(m))
  {
    hide MembersText;
  }

  lemma FirstOfMembers(m: Members)
    requires ValidMembers(m) && m.Members?
    ensures MembersText(m) != "" && MembersText(m)[0] == '\"'
  {
    assert NameText(m)[0] == '\"';
    hide NameText, Text;
  }

  /** Where the parts of a name and its colon lie. */
  lemma NameParts(s: string, i: nat, name: string, colon: string, gap: string, w: string)
    requires At(s, i, "\"" + (name + (colon + (":" + gap))) + w)
    ensures var e := i + 1 + |name|;
      && i < |s| && s[i] == '\"' && At(s, i + 1, name) && At(s, e, colon)
      && e + |colon| < |s| && s[e + |colon|] == ':' && At(s, e + |colon| + 1, gap)
      && At(s, e + |colon| + 1 + |gap|, w)
  {
    var behind := colon + (":" + gap);
    AtParts(s, i, "\"" + (name + behind), w);
    AtParts(s, i, "\"", name + behind);
    AtChar(s, i, "\"", 0);
    AtParts(s, i + 1, name, behind);
    ColonParts(s, i + 1 + |name|, colon, gap);
    hide At;
  }

  lemma ColonParts(s: string, e: nat, colon: string, gap: string)
    requires At(s, e, colon + (":" + gap))
    ensures At(s, e, colon) && e + |colon| < |s| && s[e + |colon|] == ':' && At(s, e + |colon| + 1, gap)
  {
    AtParts(s, e, colon, ":" + gap);
    AtParts(s, e + |colon|, ":", gap);
    AtChar(s, e + |colon|, ":", 0);
  }

  lemma NameIsRead(s: string, i: nat, m: Members, w: string)
    requires ValidMembers(m) && m.Members? && w != "" && !IsJsonSpace(w[0]) && At(s, i, NameText(m) + w)
    ensures i <= |s| && DecodeName(s, i) == Parse(Units(m.name), i + |NameText(m)|)
    ensures At(s, i + |NameText(m)|, w)
  {
    hide CharsText, Units, StringRest, SkipJsonSpace, At;
    NameParts(s, i, CharsText(m.name), m.colon, m.gap, w);
    hide NameText;
    CharsAreRead(s, i + 1, m.name);
    AtChar(s, i + |NameText(m)|, w, 0);
    var e := i + 1 + |CharsText(m.name)|;
    GapIsSkipped(s, e, m.colon);
    GapIsSkipped(s, e + |m.colon| + 1, m.gap);
    hide ValidMembers;
  }

  lemma {:induction false} ObjectIsRead(s: string, i: nat, gap: string, members: Members)
    requires IsGap(gap) && ValidMembers(members) && At(s, i, Text(TObj(gap, members)))
    ensures i <= |s| && DecodeValue(s, i) == Parse(Obj(MemberValues(members)), i + |Text(TObj(gap, members))|)
    decreases members, 1
  {
    hide DecodeMembers, SkipJsonSpace, MembersText, Text, At;
    if members.NoMembers? {
      assert Text(TObj(gap, members)) == "{" + (gap + "}") by {
        EmptyTexts(gap);
      }
      OpenIsRead(s, i, '{', gap, "}");
    } else {
      ObjectText(gap, members);
      FirstOfMembers(members);
      OpenIsRead(s, i, '{', gap, MembersText(members));
      MembersAreRead(s, i + 1 + |gap|, members);
    }
  }

  lemma {:induction false} MembersAreRead(s: string, i: nat, m: Members)
    requires ValidMembers(m) && m.Members? && At(s, i, MembersText(m))
    ensures i <= |s| && DecodeMembers(s, i) == Parse(MemberValues(m), i + |MembersText(m)|)
    decreases m, 0
  {
    hide DecodeValue, DecodeName, Separator, Text, NameText, At, Delimited, Units;
    FirstOfTree(m.value);
    var k := i + |NameText(m)|;
    var e := k + |Text(m.value)|;
    if m.rest.NoMembers? {
      NameIsRead(s, i, m, Text(m.value) + (m.after + "}"));
      AtParts(s, k, Text(m.value), m.after + "}");
      CloseIsRead(s, e, m.after, '}');
      TreeIsRead(s, k, m.value);
      assert MemberValues(m) == [(Units(m.name), Meaning(m.value))];
    } else {
      var w := MembersText(m.rest);
      NameIsRead(s, i, m, Text(m.value) + (m.after + ("," + (m.next + w))));
      AtParts(s, k, Text(m.value), m.after + ("," + (m.next + w)));
      FirstOfMembers(m.rest);
      CommaIsRead(s, e, m.after, m.next, w, '}');
      TreeIsRead(s, k, m.value);
      MembersAreRead(s, e + |m.after| + 1 + |m.next|, m.rest);
    }
  }

  // ---- nothing else is read ------------------------------------------------

  lemma SkippedIsGap(s: string, i: nat)
    requires i <= |s|
    ensures IsGap(s[i..SkipJsonSpace(s, i)])
  {
    var gap := s[i..SkipJsonSpace(s, i)];
    forall c | c in gap ensures c in " \t\n\r" {
      var k :| 0 <= k < |gap| && gap[k] == c;
      assert IsJsonSpace(s[i + k]);
      assert " \t\n\r"[0] == ' ' && " \t\n\r"[1] == '\t' && " \t\n\r"[2] == '\n' && " \t\n\r"[3] == '\r';
    }
  }

  lemma HexCharOf(c: char) returns (value: nat, upper: bool)
    requires HexDigit(c).Some?
    ensures value < 16 && HexDigit(c) == Some(value) && HexChar(value, upper) == c
  {
    value := HexDigit(c).value;
    upper := c < 'a';
  }

  lemma SpellingOf(s: string, i: nat) returns (x: Spelling)
    requires i < |s| && s[i] != '\"' && StringUnit(s, i).Parse?
    ensures x.Valid() && At(s, i, x.Text()) && StringUnit(s, i) == Parse(x.Unit(), i + |x.Text()|)
  {
    if s[i] != '\\' {
      x := Plain(s[i]);
    } else if s[i + 1] == 'u' {
      x := HexOf(s, i);
    } else {
      x := match s[i + 1]
        case '\"' => Quote
        case '\\' => Backslash
        case '/' => Slash
        case 'b' => Backspace
        case 'f' => FormFeed
        case 'n' => NewLine
        case 'r' => Return
        case _ => Tab;
      assert s[i..i + 2] == [s[i], s[i + 1]];
    }
  }

  lemma HexOf(s: string, i: nat) returns (x: Spelling)
    requires i + 6 <= |s| && s[i] == '\\' && s[i + 1] == 'u' && CodeUnit(s, i + 2).Some?
    ensures x.Hex? && x.Valid() && At(s, i, x.Text()) && |x.Text()| == 6 && x.Unit() == CodeUnit(s, i + 2).value
  {
    var a, ua := HexCharOf(s[i + 2]);
    var b, ub := HexCharOf(s[i + 3]);
    var c, uc := HexCharOf(s[i + 4]);
    var d, ud := HexCharOf(s[i + 5]);
    x := Hex([a, b, c, d], [ua, ub, uc, ud]);
    hide HexChar, HexDigit;
    assert s[i..i + 6] == ['\\', 'u', s[i + 2], s[i + 3], s[i + 4], s[i + 5]];
  }

  lemma {:induction false} CharsOf(s: string, i: nat) returns (chars: seq<Spelling>)
    requires i <= |s| && StringRest(s, i).Parse?
    ensures ValidSpelling(chars) && At(s, i, CharsText(chars))
    ensures StringRest(s, i) == Parse(Units(chars), i + |CharsText(chars)|)
    decreases |s| - i
  {
    if s[i] == '\"' {
      chars := [];
    } else {
      var x := SpellingOf(s, i);
      hide Spelling.Text, Spelling.Unit, Spelling.Valid, StringUnit;
      var more := CharsOf(s, i + |x.Text()|);
      chars := [x] + more;
      hide At;
      AtParts(s, i, x.Text(), CharsText(more));
      assert chars[1..] == more;
    }
  }

  lemma {:induction false} DigitsOf(s: string, i: nat)
    requires i <= |s|
    ensures forall c :: c in s[i..Digits(s, i)] ==> c in "0123456789"
    ensures Digits(s, i) == |s| || !IsDigit(s[Digits(s, i)])
    decreases |s| - i
  {
    if i < |s| && IsDigit(s[i]) {
      DigitsOf(s, i + 1);
      DigitIsDigit(s[i]);
      var w := s[i..Digits(s, i)];
      assert w == [s[i]] + s[i + 1..Digits(s, i + 1)];
    }
  }

  lemma DigitsFrom(s: string, j: nat)
    requires j < |s| && IsDigit(s[j])
    ensures var w := s[j..Digits(s, j + 1)];
      AreDigits(w) && w[0] == s[j]
  {
    DigitsOf(s, j + 1);
    DigitIsDigit(s[j]);
    assert s[j..Digits(s, j + 1)] == [s[j]] + s[j + 1..Digits(s, j + 1)];
  }

  lemma WholeOf(s: string, i: nat) returns (negative: bool, whole: string)
    requires i < |s| && Integer(s, i).Some?
    ensures AreDigits(whole) && (whole[0] == '0' ==> whole == "0")
    ensures SignedText(negative, whole) == s[i..Integer(s, i).value]
  {
    negative := s[i] == '-';
    var j := if negative then i + 1 else i;
    DigitsFrom(s, j);
    whole := s[j..Integer(s, i).value];
    if s[j] == '0' {
      assert whole == "0";
    }
    assert s[i..Integer(s, i).value] == s[i..j] + whole;
    assert s[i..j] == if negative then [s[i]] else [];
  }

  lemma FractionOf(s: string, j: nat) returns (f: Option<string>)
    requires j <= |s|
    ensures f.Some? ==> AreDigits(f.value)
    ensures FractionText(f) == s[j..Fraction(s, j)]
  {
    if Fraction(s, j) == j {
      f := None;
    } else {
      DigitsFrom(s, j + 1);
      f := Some(s[j + 1..Fraction(s, j)]);
      assert s[j..Fraction(s, j)] == [s[j]] + f.value;
    }
  }

  predicate ValidExponent(x: Exponent) {
    && (x.letter == 'e' || x.letter == 'E') && (x.sign == "" || x.sign == "+" || x.sign == "-") && AreDigits(x.digits)
  }

  lemma ExponentOf(s: string, k: nat) returns (x: Option<Exponent>)
    requires k <= |s|
    ensures x.Some? ==> ValidExponent(x.value)
    ensures ExponentText(x) == s[k..JsonGrammar.Exponent(s, k)]
  {
    var e := JsonGrammar.Exponent(s, k);
    if e == k {
      x := None;
    } else {
      var signed := s[k + 1] == '+' || s[k + 1] == '-';
      var j := if signed then k + 2 else k + 1;
      DigitsFrom(s, j);
      x := Some(Exponent(s[k], s[k + 1..j], s[j..e]));
      assert s[k..e] == [s[k]] + s[k + 1..j] + s[j..e];
      assert signed ==> s[k + 1..j] == [s[k + 1]];
    }
  }

  lemma NumeralOf(s: string, i: nat) returns (n: Numeral)
    requires i < |s| && Number(s, i).Some?
    ensures n.Valid() && n.Text() == s[i..Number(s, i).value]
  {
    hide AreDigits, Integer, Fraction, JsonGrammar.Exponent, SignedText, FractionText, ExponentText;
    var j := Integer(s, i).value;
    var k := Fraction(s, j);
    var e := JsonGrammar.Exponent(s, k);
    var negative, whole := WholeOf(s, i);
    var f := FractionOf(s, j);
    var x := ExponentOf(s, k);
    n := Numeral(negative, whole, f, x);
    NumeralText(n);
    hide Numeral.Text;
    assert s[i..e] == s[i..j] + s[j..k] + s[k..e];
  }

  lemma NumeralText(n: Numeral)
    ensures n.Text() == SignedText(n.negative, n.whole) + FractionText(n.fraction) + ExponentText(n.exponent)
  {
  }

  lemma ScalarOf(s: string, i: nat) returns (t: Tree)
    requires i < |s| && s[i] != '[' && s[i] != '{' && DecodeValue(s, i).Parse?
    ensures ValidTree(t) && At(s, i, Text(t)) && DecodeValue(s, i) == Parse(Meaning(t), i + |Text(t)|)
  {
    if s[i] == '\"' {
      t := StringOf(s, i);
    } else if Number(s, i).Some? {
      NumberStart(s, i);
      var n := NumeralOf(s, i);
      t := TNum(n);
      hide Number, DecodeValue, Numeral.Text, Numeral.Valid;
    } else {
      t := WordOf(s, i);
    }
  }

  lemma StringOf(s: string, i: nat) returns (t: Tree)
    requires i < |s| && s[i] == '\"' && DecodeValue(s, i).Parse?
    ensures ValidTree(t) && At(s, i, Text(t)) && DecodeValue(s, i) == Parse(Meaning(t), i + |Text(t)|)
  {
    var chars := CharsOf(s, i + 1);
    t := TStr(chars);
    hide CharsText, Units, StringRest;
    AtParts(s, i, "\"", CharsText(chars));
  }

  lemma WordOf(s: string, i: nat) returns (t: Tree)
    requires i < |s| && s[i] != '[' && s[i] != '{' && s[i] != '\"' && Number(s, i).None? && DecodeValue(s, i).Parse?
    ensures ValidTree(t) && At(s, i, Text(t)) && DecodeValue(s, i) == Parse(Meaning(t), i + |Text(t)|)
  {
    NumberStart(s, i);
    hide Number;
    t := TWord(DecodeValue(s, i).value.word);
  }

  /** The tree of a value that the decoder found. */
  lemma {:induction false} TreeOf(s: string, i: nat) returns (t: Tree)
    requires i <= |s| && DecodeValue(s, i).Parse?
    ensures ValidTree(t) && At(s, i, Text(t)) && DecodeValue(s, i) == Parse(Meaning(t), i + |Text(t)|)
    decreases |s| - i, 0
  {
    if s[i] == '[' {
      var gap, items := ArrayOf(s, i);
      t := TArr(gap, items);
    } else if s[i] == '{' {
      var gap, members := ObjectOf(s, i);
      t := TObj(gap, members);
    } else {
      t := ScalarOf(s, i);
    }
  }

  lemma OpenOf(s: string, i: nat, j: nat, open: char, gap: string, w: string)
    requires i < j <= |s| && s[i] == open && gap == s[i + 1..j] && At(s, j, w)
    ensures At(s, i, [open] + (gap + w)) && |[open] + (gap + w)| == j - i + |w|
  {
    assert s[i..i + 1] == [open];
    AtParts(s, i + 1, gap, w);
    AtParts(s, i, [open], gap + w);
  }

  lemma {:induction false} ArrayOf(s: string, i: nat) returns (gap: string, items: Items)
    requires i < |s| && s[i] == '[' && DecodeValue(s, i).Parse?
    ensures IsGap(gap) && ValidItems(items) && At(s, i, Text(TArr(gap, items)))
    ensures DecodeValue(s, i) == Parse(Arr(ItemValues(items)), i + |Text(TArr(gap, items))|)
    decreases |s| - i - 1, 2
  {
    var j := SkipJsonSpace(s, i + 1);
    SkippedIsGap(s, i + 1);
    gap := s[i + 1..j];
    hide DecodeItems, SkipJsonSpace, ItemsText, At, Text;
    if j < |s| && s[j] == ']' {
      items := NoItems;
      AtOne(s, j);
      OpenOf(s, i, j, '[', gap, "]");
      EmptyTexts(gap);
    } else {
      items := ItemsOf(s, j);
      OpenOf(s, i, j, '[', gap, ItemsText(items));
      ArrayText(gap, items);
    }
  }

  lemma AtOne(s: string, j: nat)
    requires j < |s|
    ensures At(s, j, [s[j]])
  {
  }

  lemma {:induction false} ItemsOf(s: string, i: nat) returns (items: Items)
    requires i <= |s| && DecodeItems(s, i).Parse?
    ensures items.Items? && ValidItems(items) && At(s, i, ItemsText(items))
    ensures DecodeItems(s, i) == Parse(ItemValues(items), i + |ItemsText(items)|)
    decreases |s| - i, 1
  {
    hide DecodeValue, Separator, Text, At;
    var t := TreeOf(s, i);
    var e := i + |Text(t)|;
    var gap, next := SeparatorOf(s, e, ']');
    if Separator(s, e, ']').value {
      items := Items(t, gap, "", NoItems);
      assert ItemValues(items) == [Meaning(t)];
      AtParts(s, i, Text(t), gap + "]");
    } else {
      var rest := ItemsOf(s, e + |gap| + 1 + |next|);
      items := Items(t, gap, next, rest);
      CommaOf(s, e, gap, next, ItemsText(rest));
      AtParts(s, i, Text(t), gap + ("," + (next + ItemsText(rest))));
    }
  }

  lemma SeparatorOf(s: string, e: nat, close: char) returns (gap: string, next: string)
    requires e <= |s| && Separator(s, e, close).Parse? && (close == ']' || close == '}')
    ensures IsGap(gap) && IsGap(next)
    ensures Separator(s, e, close).value ==>
      At(s, e, gap + [close]) && Separator(s, e, close).end == e + |gap| + 1
    ensures !Separator(s, e, close).value ==>
      At(s, e, gap + ",") && At(s, e + |gap| + 1, next) && Separator(s, e, close).end == e + |gap| + 1 + |next|
  {
    var j := SkipJsonSpace(s, e);
    SkippedIsGap(s, e);
    gap := s[e..j];
    assert s[e..j + 1] == gap + [s[j]];
    next := "";
    if s[j] != close {
      SkippedIsGap(s, j + 1);
      next := s[j + 1..SkipJsonSpace(s, j + 1)];
    }
    hide SkipJsonSpace, IsGap;
  }

  lemma CommaOf(s: string, e: nat, gap: string, next: string, w: string)
    requires At(s, e, gap + ",") && At(s, e + |gap| + 1, next) && At(s, e + |gap| + 1 + |next|, w)
    ensures At(s, e, gap + ("," + (next + w)))
  {
    AtParts(s, e + |gap| + 1, next, w);
    AtParts(s, e, gap + ",", next + w);
    assert gap + ("," + (next + w)) == (gap + ",") + (next + w);
  }

  lemma {:induction false} ObjectOf(s: string, i: nat) returns (gap: string, members: Members)
    requires i < |s| && s[i] == '{' && DecodeValue(s, i).Parse?
    ensures IsGap(gap) && ValidMembers(members) && At(s, i, Text(TObj(gap, members)))
    ensures DecodeValue(s, i) == Parse(Obj(MemberValues(members)), i + |Text(TObj(gap, members))|)
    decreases |s| - i - 1, 2
  {
    var j := SkipJsonSpace(s, i + 1);
    SkippedIsGap(s, i + 1);
    gap := s[i + 1..j];
    hide DecodeMembers, SkipJsonSpace, MembersText, At, Text;
    if j < |s| && s[j] == '}' {
      members := NoMembers;
      AtOne(s, j);
      OpenOf(s, i, j, '{', gap, "}");
      EmptyTexts(gap);
    } else {
      members := MembersOf(s, j);
      OpenOf(s, i, j, '{', gap, MembersText(members));
      ObjectText(gap, members);
    }
  }

  lemma NameOf(s: string, i: nat) returns (name: seq<Spelling>, colon: string, gap: string)
    requires i <= |s| && DecodeName(s, i).Parse?
    ensures ValidSpelling(name) && IsGap(colon) && IsGap(gap)
    ensures var w := "\"" + (CharsText(name) + (colon + (":" + gap)));
      At(s, i, w) && DecodeName(s, i) == Parse(Units(name), i + |w|)
  {
    hide CharsText, Units, StringRest, SkipJsonSpace, IsGap, At;
    name := CharsOf(s, i + 1);
    var e := i + 1 + |CharsText(name)|;
    colon, gap := ColonOf(s, e);
    var behind := colon + (":" + gap);
    AtParts(s, i + 1, CharsText(name), behind);
    AtOne(s, i);
    AtParts(s, i, "\"", CharsText(name) + behind);
  }

  lemma ColonOf(s: string, e: nat) returns (colon: string, gap: string)
    requires e <= |s| && SkipJsonSpace(s, e) < |s| && s[SkipJsonSpace(s, e)] == ':'
    ensures IsGap(colon) && IsGap(gap) && At(s, e, colon + (":" + gap))
    ensures SkipJsonSpace(s, SkipJsonSpace(s, e) + 1) == e + |colon + (":" + gap)|
  {
    var j := SkipJsonSpace(s, e);
    SkippedIsGap(s, e);
    SkippedIsGap(s, j + 1);
    colon, gap := s[e..j], s[j + 1..SkipJsonSpace(s, j + 1)];
    hide SkipJsonSpace, IsGap;
    AtOne(s, j);
    AtParts(s, j, ":", gap);
    AtParts(s, e, colon, ":" + gap);
  }

  lemma {:induction false} MembersOf(s: string, i: nat) returns (m: Members)
    requires i <= |s| && DecodeMembers(s, i).Parse?
    ensures m.Members? && ValidMembers(m) && At(s, i, MembersText(m))
    ensures DecodeMembers(s, i) == Parse(MemberValues(m), i + |MembersText(m)|)
    decreases |s| - i, 1
  {
    hide DecodeValue, DecodeName, Separator, Text, At, Units, CharsText;
    var name, colon, space := NameOf(s, i);
    var k := DecodeName(s, i).end;
    var t := TreeOf(s, k);
    var e := k + |Text(t)|;
    var gap, next := SeparatorOf(s, e, '}');
    if Separator(s, e, '}').value {
      m := Members(name, colon, space, t, gap, "", NoMembers);
      assert MemberValues(m) == [(Units(name), Meaning(t))];
      AtParts(s, k, Text(t), gap + "}");
      AtParts(s, i, NameText(m), Text(t) + (gap + "}"));
    } else {
      var rest := MembersOf(s, e + |gap| + 1 + |next|);
      m := Members(name, colon, space, t, gap, next, rest);
      CommaOf(s, e, gap, next, MembersText(rest));
      AtParts(s, k, Text(t), gap + ("," + (next + MembersText(rest))));
      AtParts(s, i, NameText(m), Text(t) + (gap + ("," + (next + MembersText(rest)))));
    }
  }
}
