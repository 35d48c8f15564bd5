/** `json.JSONDecoder.raw_decode` as a prefix decoder over the grammar of
    RFC 8259 (sections 2 to 7), with Python's NaN and Infinity literals. */
module JsonGrammar {
  import opened Prelude

  /** A number is kept as the text it was written with, a string as its code units. */
  datatype Value =
    | Str(units: seq<int>)
    | Num(lexeme: string)
    | Literal(word: string)
    | Arr(items: seq<Value>)
    | Obj(members: seq<(seq<int>, Value)>)

  datatype Parsed<+T> = NoParse | Parse(value: T, end: nat)

  // ---- white space ---------------------------------------------------------

  predicate IsJsonSpace(c: char) {
    c == ' ' || c == '\t' || c == '\n' || c == '\r'
  }

  function SkipJsonSpace(s: string, i: nat): (r: nat)
    requires i <= |s|
    ensures i <= r <= |s|
    ensures forall k :: i <= k < r ==> IsJsonSpace(s[k])
    ensures r < |s| ==> !IsJsonSpace(s[r])
    decreases |s| - i
  {
    if i < |s| && IsJsonSpace(s[i]) then SkipJsonSpace(s, i + 1) else i
  }

  function SkipSpace(s: string, i: nat): (r: nat)
    requires i <= |s|
    ensures i <= r <= |s|
    ensures forall k :: i <= k < r ==> IsSpace(s[k])
    ensures r < |s| ==> !IsSpace(s[r])
    decreases |s| - i
  {
    if i < |s| && IsSpace(s[i]) then SkipSpace(s, i + 1) else i
  }

  // ---- numbers -------------------------------------------------------------

  predicate IsDigit(c: char) {
    '0' <= c <= '9'
  }

  function Digits(s: string, i: nat): (r: nat)
    requires i <= |s|
    ensures i <= r <= |s|
    decreases |s| - i
  {
    if i < |s| && IsDigit(s[i]) then Digits(s, i + 1) else i
  }

  function Integer(s: string, i: nat): (r: Option<nat>)
    requires i < |s|
    ensures r.Some? ==> i < r.value <= |s|
  {
    var j := if s[i] == '-' then i + 1 else i;
    if j >= |s| || !IsDigit(s[j]) then None
    else if s[j] == '0' then Some(j + 1)
    else Some(Digits(s, j + 1))
  }

  function Fraction(s: string, i: nat): (r: nat)
    requires i <= |s|
    ensures i <= r <= |s|
  {
    if i + 1 < |s| && s[i] == '.' && IsDigit(s[i + 1]) then Digits(s, i + 2) else i
  }

  function Exponent(s: string, i: nat): (r: nat)
    requires i <= |s|
    ensures i <= r <= |s|
  {
    if i < |s| && (s[i] == 'e' || s[i] == 'E') then
      var j := if i + 1 < |s| && (s[i + 1] == '+' || s[i + 1] == '-') then i + 2 else i + 1;
      if j < |s| && IsDigit(s[j]) then Digits(s, j + 1) else i
    else i
  }

  function Number(s: string, i: nat): (r: Option<nat>)
    requires i < |s|
    ensures r.Some? ==> i < r.value <= |s|
  {
    match Integer(s, i)
    case None => None
    case Some(j) => Some(Exponent(s, Fraction(s, j)))
  }

  // ---- strings -------------------------------------------------------------

  function HexDigit(c: char): (r: Option<int>) {
    if '0' <= c <= '9' then Some(c as int - '0' as int)
    else if 'a' <= c <= 'f' then Some(c as int - 'a' as int + 10)
    else if 'A' <= c <= 'F' then Some(c as int - 'A' as int + 10)
    else None
  }

  function CodeUnit(s: string, i: nat): Option<int>
    requires i + 4 <= |s|
  {
    var a, b, c, d := HexDigit(s[i]), HexDigit(s[i + 1]), HexDigit(s[i + 2]), HexDigit(s[i + 3]);
    if a.Some? && b.Some? && c.Some? && d.Some?
    then Some(((a.value * 16 + b.value) * 16 + c.value) * 16 + d.value) else None
  }

  function Escaped(c: char): Option<int> {
    match c
    case '\"' => Some(34)
    case '\\' => Some(92)
    case '/' => Some(47)
    case 'b' => Some(8)
    case 'f' => Some(12)
    case 'n' => Some(10)
    case 'r' => Some(13)
    case 't' => Some(9)
    case _ => None
  }

  /** One character of a string that is not its closing quote. */
  function StringUnit(s: string, i: nat): (r: Parsed<int>)
    requires i < |s|
    ensures r.Parse? ==> i < r.end <= |s|
  {
    if s[i] as int < 0x20 then NoParse
    else if s[i] != '\\' then Parse(s[i] as int, i + 1)
    else if i + 1 >= |s| then NoParse
    else if s[i + 1] == 'u' then
      if i + 6 <= |s| && CodeUnit(s, i + 2).Some? then Parse(CodeUnit(s, i + 2).value, i + 6) else NoParse
    else if Escaped(s[i + 1]).Some? then Parse(Escaped(s[i + 1]).value, i + 2)
    else NoParse
  }

  /** The rest of a string, from behind its opening quote. */
  function StringRest(s: string, i: nat): (r: Parsed<seq<int>>)
    requires i <= |s|
    ensures r.Parse? ==> i < r.end <= |s|
    decreases |s| - i
  {
    if i == |s| then NoParse
    else if s[i] == '\"' then Parse([], i + 1)
    else match StringUnit(s, i)
      case NoParse => NoParse
      case Parse(unit, j) => match StringRest(s, j)
        case NoParse => NoParse
        case Parse(units, end) => Parse([unit] + units, end)
  }

  // ---- values --------------------------------------------------------------

  predicate WordAt(s: string, i: nat, word: string) {
    i + |word| <= |s| && s[i..i + |word|] == word
  }

  function Word(s: string, i: nat, word: string): (r: Parsed<Value>)
    ensures r.Parse? ==> r.end == i + |word| <= |s|
  {
    if WordAt(s, i, word) then Parse(Literal(word), i + |word|) else NoParse
  }

  function DecodeValue(s: string, i: nat): (r: Parsed<Value>)
    requires i <= |s|
    ensures r.Parse? ==> i < r.end <= |s|
    decreases |s| - i, 0
  {
    if i == |s| then NoParse
    else match s[i]
      case '\"' => (match StringRest(s, i + 1)
        case NoParse => NoParse
        case Parse(units, end) => Parse(Str(units), end))
      case '[' =>
        var j := SkipJsonSpace(s, i + 1);
        if j < |s| && s[j] == ']' then Parse(Arr([]), j + 1)
        else (match DecodeItems(s, j)
          case NoParse => NoParse
          case Parse(items, end) => Parse(Arr(items), end))
      case '{' =>
        var j := SkipJsonSpace(s, i + 1);
        if j < |s| && s[j] == '}' then Parse(Obj([]), j + 1)
        else (match DecodeMembers(s, j)
          case NoParse => NoParse
          case Parse(members, end) => Parse(Obj(members), end))
      case 'n' => Word(s, i, "null")
      case 't' => Word(s, i, "true")
      case 'f' => Word(s, i, "false")
      case 'N' => Word(s, i, "NaN")
      case 'I' => Word(s, i, "Infinity")
      case _ => (match Number(s, i)
        case Some(end) => Parse(Num(s[i..end]), end)
        case None => if s[i] == '-' then Word(s, i, "-Infinity") else NoParse)
  }

  /** What follows an element: the closing character (`true`), or a comma and
      the space behind it (`false`). */
  function Separator(s: string, i: nat, close: char): (r: Parsed<bool>)
    requires i <= |s|
    ensures r.Parse? ==> i < r.end <= |s|
  {
    var j := SkipJsonSpace(s, i);
    if j == |s| then NoParse
    else if s[j] == close then Parse(true, j + 1)
    else if s[j] == ',' then Parse(false, SkipJsonSpace(s, j + 1))
    else NoParse
  }

  /** `value ws (',' ws value ws)* ']'` */
  function DecodeItems(s: string, i: nat): (r: Parsed<seq<Value>>)
    requires i <= |s|
    ensures r.Parse? ==> i < r.end <= |s|
    decreases |s| - i, 1
  {
    match DecodeValue(s, i)
    case NoParse => NoParse
    case Parse(item, e) => match Separator(s, e, ']')
      case NoParse => NoParse
      case Parse(closed, j) =>
        if closed then Parse([item], j)
        else match DecodeItems(s, j)
          case NoParse => NoParse
          case Parse(items, end) => Parse([item] + items, end)
  }

  /** A member name, its colon and the space behind it. */
  function DecodeName(s: string, i: nat): (r: Parsed<seq<int>>)
    requires i <= |s|
    ensures r.Parse? ==> i < r.end <= |s|
  {
    if i == |s| || s[i] != '\"' then NoParse
    else match StringRest(s, i + 1)
      case NoParse => NoParse
      case Parse(name, e) =>
        var j := SkipJsonSpace(s, e);
        if j == |s| || s[j] != ':' then NoParse else Parse(name, SkipJsonSpace(s, j + 1))
  }

  /** `name ws ':' ws value ws (',' ws name ...)* '}'` */
  function DecodeMembers(s: string, i: nat): (r: Parsed<seq<(seq<int>, Value)>>)
    requires i <= |s|
    ensures r.Parse? ==> i < r.end <= |s|
    decreases |s| - i, 1
  {
    match DecodeName(s, i)
    case NoParse => NoParse
    case Parse(name, k) => match DecodeValue(s, k)
      case NoParse => NoParse
      case Parse(value, e) => match Separator(s, e, '}')
        case NoParse => NoParse
        case Parse(closed, j) =>
          if closed then Parse([(name, value)], j)
          else match DecodeMembers(s, j)
            case NoParse => NoParse
            case Parse(members, end) => Parse([(name, value)] + members, end)
  }

  // ---- decoding a prefix ----------------------------------------------------

  lemma {:induction false} SpacePrefix(buffer: string, text: string, i: nat)
    requires buffer <= text && i <= |buffer|
    ensures SkipJsonSpace(buffer, i) == if SkipJsonSpace(text, i) <= |buffer| then SkipJsonSpace(text, i) else |buffer|
    decreases |buffer| - i
  {
    if i < |buffer| && IsJsonSpace(buffer[i]) {
      SpacePrefix(buffer, text, i + 1);
    }
  }

  lemma {:induction false} DigitsPrefix(buffer: string, text: string, i: nat)
    requires buffer <= text && i <= |buffer|
    ensures Digits(buffer, i) == if Digits(text, i) <= |buffer| then Digits(text, i) else |buffer|
    decreases |buffer| - i
  {
    if i < |buffer| && IsDigit(buffer[i]) {
      DigitsPrefix(buffer, text, i + 1);
    }
  }

  /** What may follow a number inside an array or an object. */
  predicate IsDelimiter(c: char) {
    IsJsonSpace(c) || c == ',' || c == ']' || c == '}'
  }

  lemma IntegerPrefix(buffer: string, text: string, i: nat)
    requires buffer <= text && i < |buffer|
    ensures Integer(buffer, i).Some? ==> Integer(text, i).Some?
    ensures Integer(buffer, i).Some? && Integer(text, i).value > |buffer| ==> Integer(buffer, i).value == |buffer|
    ensures Integer(text, i).Some? && Integer(text, i).value <= |buffer| ==> Integer(buffer, i) == Integer(text, i)
  {
    var j := if buffer[i] == '-' then i + 1 else i;
    if j + 1 <= |buffer| {
      DigitsPrefix(buffer, text, j + 1);
    }
  }

  lemma FractionPrefix(buffer: string, text: string, i: nat)
    requires buffer <= text && i <= |buffer|
    ensures Fraction(text, i) <= |buffer| ==> Fraction(buffer, i) == Fraction(text, i)
    ensures Fraction(buffer, i) < |buffer| && IsDelimiter(buffer[Fraction(buffer, i)]) ==>
      Fraction(text, i) == Fraction(buffer, i)
    ensures Fraction(buffer, i) < |buffer| && buffer[Fraction(buffer, i)] != '.' ==>
      Fraction(text, i) == Fraction(buffer, i)
  {
    if i + 2 <= |buffer| {
      DigitsPrefix(buffer, text, i + 2);
    }
  }

  lemma ExponentPrefix(buffer: string, text: string, i: nat)
    requires buffer <= text && i <= |buffer|
    ensures Exponent(text, i) <= |buffer| ==> Exponent(buffer, i) == Exponent(text, i)
    ensures Exponent(buffer, i) < |buffer| && IsDelimiter(buffer[Exponent(buffer, i)]) ==>
      Exponent(text, i) == Exponent(buffer, i)
  {
    if i < |buffer| {
      var j := if i + 1 < |buffer| && (buffer[i + 1] == '+' || buffer[i + 1] == '-') then i + 2 else i + 1;
      if j + 1 <= |buffer| {
        DigitsPrefix(buffer, text, j + 1);
      }
    }
  }

  lemma NumberPrefix(buffer: string, text: string, i: nat)
    requires buffer <= text && i < |buffer|
    ensures Number(buffer, i).Some? ==> Number(text, i).Some?
    ensures Number(text, i).Some? && Number(text, i).value <= |buffer| ==> Number(buffer, i) == Number(text, i)
    ensures Number(buffer, i).Some? ==>
      (var end := Number(buffer, i).value;
       end < |buffer| && IsDelimiter(buffer[end]) ==> Number(text, i) == Number(buffer, i))
  {
    IntegerPrefix(buffer, text, i);
    hide Integer;
    if Integer(buffer, i).Some? {
      var j := Integer(buffer, i).value;
      FractionPrefix(buffer, text, j);
      ExponentPrefix(buffer, text, Fraction(buffer, j));
    }
  }

  // ---- decoding a number that the end of a prefix cuts -------------------------

  function FirstDigit(s: string, i: nat): nat
    requires i < |s|
  {
    if s[i] == '-' then i + 1 else i
  }

  /** What comes next in a number that goes on. */
  predicate Continues(c: char) {
    IsDigit(c) || c == '.' || c == 'e' || c == 'E'
  }

  lemma {:induction false} DigitsCut(buffer: string, text: string, i: nat)
    requires buffer <= text && i <= |buffer| < Digits(text, i)
    ensures Digits(buffer, i) == |buffer| && IsDigit(text[|buffer|])
    decreases |buffer| - i
  {
    if i < |buffer| {
      DigitsCut(buffer, text, i + 1);
    }
  }

  lemma IntegerCut(buffer: string, text: string, i: nat)
    requires buffer <= text && i < |buffer| && Integer(text, i).Some?
    ensures Integer(buffer, i).Some? <==> FirstDigit(text, i) < |buffer|
    ensures FirstDigit(text, i) < |buffer| < Integer(text, i).value ==>
      Integer(buffer, i) == Some(|buffer|) && IsDigit(text[|buffer|])
  {
    var d := FirstDigit(text, i);
    if d < |buffer| < Integer(text, i).value {
      DigitsCut(buffer, text, d + 1);
    }
  }

  lemma FractionCut(buffer: string, text: string, i: nat)
    requires buffer <= text && i <= |buffer| < Fraction(text, i)
    ensures i <= Fraction(buffer, i) && Continues(text[Fraction(buffer, i)])
    ensures Fraction(buffer, i) == i || Fraction(buffer, i) == |buffer|
    ensures text[i] == '.'
  {
    if i + 2 <= |buffer| {
      DigitsCut(buffer, text, i + 2);
    }
  }

  lemma ExponentCut(buffer: string, text: string, i: nat)
    requires buffer <= text && i <= |buffer| < Exponent(text, i)
    ensures Continues(text[Exponent(buffer, i)])
  {
    var j := if i + 1 < |text| && (text[i + 1] == '+' || text[i + 1] == '-') then i + 2 else i + 1;
    if j + 1 <= |buffer| {
      DigitsCut(buffer, text, j + 1);
    }
  }

  lemma NumberCut(buffer: string, text: string, i: nat)
    requires buffer <= text && i < |buffer| && Number(text, i).Some?
    ensures Number(buffer, i).Some? <==> FirstDigit(text, i) < |buffer|
    ensures Number(buffer, i).Some? && |buffer| < Number(text, i).value ==>
      Continues(text[Number(buffer, i).value])
  {
    IntegerPrefix(buffer, text, i);
    IntegerCut(buffer, text, i);
    hide Integer;
    if Integer(buffer, i).Some? && Integer(text, i).value <= |buffer| < Number(text, i).value {
      var j := Integer(text, i).value;
      FractionPrefix(buffer, text, j);
      if |buffer| < Fraction(text, j) {
        FractionCut(buffer, text, j);
        NoExponentAt(buffer, text, Fraction(buffer, j));
      } else {
        ExponentCut(buffer, text, Fraction(text, j));
      }
    }
  }

  lemma NoExponentAt(buffer: string, text: string, i: nat)
    requires buffer <= text && i <= |buffer| && (i == |buffer| || buffer[i] == '.')
    ensures Exponent(buffer, i) == i
  {
  }

  lemma {:induction false} StringPrefix(buffer: string, text: string, i: nat)
    requires buffer <= text && i <= |buffer|
    ensures StringRest(buffer, i).Parse? ==> StringRest(text, i) == StringRest(buffer, i)
    ensures StringRest(text, i).Parse? && StringRest(text, i).end <= |buffer| ==>
      StringRest(buffer, i) == StringRest(text, i)
    decreases |buffer| - i
  {
    if i < |buffer| && buffer[i] != '\"' {
      var here, there := StringUnit(buffer, i), StringUnit(text, i);
      if here.Parse? {
        StringPrefix(buffer, text, here.end);
      }
    }
  }

  /** The decoded part of the buffer ends for a reason other than the buffer's end. */
  predicate SelfDelimited(buffer: string, value: Value, end: nat) {
    !value.Num? || (end < |buffer| && IsDelimiter(buffer[end]))
  }

  lemma WordPrefix(buffer: string, text: string, i: nat, word: string)
    requires buffer <= text && i <= |buffer|
    ensures Word(buffer, i, word).Parse? ==> Word(text, i, word) == Word(buffer, i, word)
    ensures Word(text, i, word).Parse? && Word(text, i, word).end <= |buffer| ==>
      Word(buffer, i, word) == Word(text, i, word)
  {
    if i + |word| <= |buffer| {
      assert buffer[i..i + |word|] == text[i..i + |word|];
    }
  }

  /** Decoding a prefix of the text agrees with decoding the text: a value
      found in the buffer is the text's value unless it is a number that may
      go on, and a value of the text that fits the buffer is found in it. */
  predicate Agree(buffer: string, text: string, i: nat)
    requires i <= |buffer| <= |text|
  {
    var here, there := DecodeValue(buffer, i), DecodeValue(text, i);
    && (here.Parse? && SelfDelimited(buffer, here.value, here.end) ==> there == here)
    && (there.Parse? && there.end <= |buffer| ==> here == there)
    && (here.Parse? && here.value.Num? ==> there.Parse? && there.value.Num?)
  }

  lemma ScalarPrefix(buffer: string, text: string, i: nat)
    requires buffer <= text && i < |buffer| && buffer[i] != '[' && buffer[i] != '{'
    ensures Agree(buffer, text, i)
  {
    match buffer[i] {
      case '\"' => StringPrefix(buffer, text, i + 1);
      case 'n' => WordPrefix(buffer, text, i, "null");
      case 't' => WordPrefix(buffer, text, i, "true");
      case 'f' => WordPrefix(buffer, text, i, "false");
      case 'N' => WordPrefix(buffer, text, i, "NaN");
      case 'I' => WordPrefix(buffer, text, i, "Infinity");
      case _ =>
        NumberPrefix(buffer, text, i);
        WordPrefix(buffer, text, i, "-Infinity");
        InfinityIsNoNumber(buffer, i);
        InfinityIsNoNumber(text, i);
        if Number(buffer, i).Some? && Number(text, i) == Number(buffer, i) {
          assert buffer[i..Number(buffer, i).value] == text[i..Number(buffer, i).value];
        }
    }
  }

  lemma {:induction false} ValuePrefix(buffer: string, text: string, i: nat)
    requires buffer <= text && i <= |buffer|
    ensures Agree(buffer, text, i)
    decreases |buffer| - i, 0
  {
    if i < |buffer| {
      if buffer[i] == '[' {
        SpacePrefix(buffer, text, i + 1);
        ItemsPrefix(buffer, text, SkipJsonSpace(buffer, i + 1));
      } else if buffer[i] == '{' {
        SpacePrefix(buffer, text, i + 1);
        MembersPrefix(buffer, text, SkipJsonSpace(buffer, i + 1));
      } else {
        ScalarPrefix(buffer, text, i);
      }
    }
  }

  lemma InfinityIsNoNumber(s: string, i: nat)
    requires i < |s|
    ensures WordAt(s, i, "-Infinity") ==> Number(s, i) == None
  {
    if WordAt(s, i, "-Infinity") {
      assert s[i..i + 9][0] == '-' && s[i..i + 9][1] == 'I';
    }
  }

  lemma NumberStart(s: string, q: nat)
    requires q < |s|
    ensures DecodeValue(s, q).Parse? && DecodeValue(s, q).value.Num? ==> s[q] == '-' || IsDigit(s[q])
    ensures Number(s, q).Some? ==> DecodeValue(s, q) == Parse(Num(s[q..Number(s, q).value]), Number(s, q).value)
    ensures s[q] == '-' && Number(s, q).None? ==> DecodeValue(s, q) == Word(s, q, "-Infinity")
    ensures IsDigit(s[q]) ==> Number(s, q).Some?
  {
    hide Number, StringRest;
    NumberBegins(s, q);
  }

  lemma NumberBegins(s: string, q: nat)
    requires q < |s|
    ensures Number(s, q).Some? ==> s[q] == '-' || IsDigit(s[q])
    ensures IsDigit(s[q]) ==> Number(s, q).Some?
  {
  }

  /** A number and a prefix of the text that begins in front of it: nothing is
      decoded without the first digit, a shorter number when the prefix ends
      inside the number, and the number itself when it does not. */
  lemma CutNumber(text: string, q: nat, n: nat)
    requires q < n <= |text| && DecodeValue(text, q).Parse? && DecodeValue(text, q).value.Num?
    ensures var here, there := DecodeValue(text[..n], q), DecodeValue(text, q);
      && (here.Parse? <==> FirstDigit(text, q) < n)
      && (here.Parse? ==> here.value == Num(text[q..here.end]))
      && (here.Parse? && n < there.end ==> here.end <= n && Continues(text[here.end]))
      && (there.end <= n ==> here == there)
  {
    var buffer := text[..n];
    NumberStart(text, q);
    NumberStart(buffer, q);
    NumberCut(buffer, text, q);
    NumberPrefix(buffer, text, q);
    InfinityIsNoNumber(text, q);
    WordPrefix(buffer, text, q, "-Infinity");
    hide Number, DecodeValue;
    if Number(buffer, q).Some? {
      assert buffer[q..Number(buffer, q).value] == text[q..Number(buffer, q).value];
    }
  }

  lemma SeparatorPrefix(buffer: string, text: string, i: nat, close: char)
    requires buffer <= text && i <= |buffer| && (close == ']' || close == '}')
    ensures var here, there := Separator(buffer, i, close), Separator(text, i, close);
      && (here.Parse? ==> i < |buffer| && IsDelimiter(buffer[i]) && there.Parse? && there.value == here.value
                          && here.end == if there.end <= |buffer| then there.end else |buffer|)
      && (here.Parse? && here.value ==> there == here)
      && (there.Parse? && there.end <= |buffer| ==> here == there)
  {
    SpacePrefix(buffer, text, i);
    var j := SkipJsonSpace(buffer, i);
    if j < |buffer| {
      SpacePrefix(buffer, text, j + 1);
    }
  }

  lemma {:induction false} ItemsPrefix(buffer: string, text: string, i: nat)
    requires buffer <= text && i <= |buffer|
    ensures DecodeItems(buffer, i).Parse? ==> DecodeItems(text, i) == DecodeItems(buffer, i)
    ensures DecodeItems(text, i).Parse? && DecodeItems(text, i).end <= |buffer| ==>
      DecodeItems(buffer, i) == DecodeItems(text, i)
    decreases |buffer| - i, 1
  {
    hide DecodeValue, Separator;
    ValuePrefix(buffer, text, i);
    var here := DecodeValue(buffer, i);
    if here.Parse? {
      SeparatorPrefix(buffer, text, here.end, ']');
      var next := Separator(buffer, here.end, ']');
      if next.Parse? && !next.value {
        ItemsPrefix(buffer, text, next.end);
      }
    }
  }

  lemma NamePrefix(buffer: string, text: string, i: nat)
    requires buffer <= text && i <= |buffer|
    ensures DecodeName(buffer, i).Parse? ==>
      DecodeName(text, i).Parse? && DecodeName(text, i).value == DecodeName(buffer, i).value
      && DecodeName(buffer, i).end == (if DecodeName(text, i).end <= |buffer| then DecodeName(text,
        i).end else |buffer|)
    ensures DecodeName(text, i).Parse? && DecodeName(text, i).end <= |buffer| ==>
      DecodeName(buffer, i) == DecodeName(text, i)
  {
    if i < |buffer| && buffer[i] == '\"' {
      StringPrefix(buffer, text, i + 1);
      var name := StringRest(buffer, i + 1);
      if name.Parse? {
        SpacePrefix(buffer, text, name.end);
        var j := SkipJsonSpace(buffer, name.end);
        if j < |buffer| {
          SpacePrefix(buffer, text, j + 1);
        }
      }
    }
  }

  lemma {:induction false} MembersPrefix(buffer: string, text: string, i: nat)
    requires buffer <= text && i <= |buffer|
    ensures DecodeMembers(buffer, i).Parse? ==> DecodeMembers(text, i) == DecodeMembers(buffer, i)
    ensures DecodeMembers(text, i).Parse? && DecodeMembers(text, i).end <= |buffer| ==>
      DecodeMembers(buffer, i) == DecodeMembers(text, i)
    decreases |buffer| - i, 1
  {
    hide DecodeValue, DecodeName, Separator;
    NamePrefix(buffer, text, i);
    var name := DecodeName(buffer, i);
    if name.Parse? {
      ValuePrefix(buffer, text, name.end);
      var here := DecodeValue(buffer, name.end);
      if here.Parse? {
        SeparatorPrefix(buffer, text, here.end, '}');
        var next := Separator(buffer, here.end, '}');
        if next.Parse? && !next.value {
          MembersPrefix(buffer, text, next.end);
        }
      }
    }
  }
}
