/** `_StreamingJSONReader`: a reader that decodes `skills_index.json` from a
    buffer it refills in chunks (backend/app/api/skills_marketplace.py). */
module JsonReader {
  import opened Prelude
  import opened JsonGrammar

  // ---- what is read, whatever the chunks ------------------------------------

  /** What the reader finds in an array: its end, a comma, or an entry. */
  datatype Item = Close | Comma | Entry(entry: Value)

  function ReadItem(text: string, q: nat): (r: Parsed<Item>)
    requires q <= |text|
    ensures r.Parse? ==> q < r.end <= |text|
  {
    if q == |text| then NoParse
    else if text[q] == ']' then Parse(Close, q + 1)
    else if text[q] == ',' then Parse(Comma, q + 1)
    else match DecodeValue(text, q)
      case NoParse => NoParse
      case Parse(entry, e) => if entry.Obj? then Parse(Entry(entry), e) else NoParse
  }

  /** The entries from behind an opening bracket. Commas are optional and may repeat. */
  function ReadArray(text: string, i: nat): (r: Parsed<seq<Value>>)
    requires i <= |text|
    ensures r.Parse? ==> i < r.end <= |text|
    decreases |text| - i
  {
    match ReadItem(text, SkipSpace(text, i))
    case NoParse => NoParse
    case Parse(Close, e) => Parse([], e)
    case Parse(Comma, e) => ReadArray(text, e)
    case Parse(Entry(entry), e) => Prepend([entry], ReadArray(text, e))
  }

  const SKILLS: seq<int> := [115, 107, 105, 108, 108, 115]

  function Prepend(entries: seq<Value>, rest: Parsed<seq<Value>>): Parsed<seq<Value>> {
    match rest
    case NoParse => NoParse
    case Parse(more, end) => Parse(entries + more, end)
  }

  /** A member name and its colon, from a position behind white space. */
  function ReadName(text: string, q: nat): (r: Parsed<Value>)
    requires q <= |text|
    ensures r.Parse? ==> q < r.end <= |text| && r.value.Str?
  {
    match DecodeValue(text, q)
    case NoParse => NoParse
    case Parse(key, e) =>
      var c := SkipSpace(text, e);
      if !key.Str? || c == |text| || text[c] != ':' then NoParse else Parse(key, c + 1)
  }

  /** What follows the colon of a member. The result carries the entries it
      contributes and whether the reader goes on without looking for a comma,
      which it does behind a `skills` member that is no array. */
  function ReadMemberValue(text: string, key: Value, p: nat): (r: Parsed<(seq<Value>, bool)>)
    requires p <= |text| && key.Str?
    ensures r.Parse? ==> p < r.end <= |text|
  {
    var v := SkipSpace(text, p);
    if key.units == SKILLS && v < |text| && text[v] == '[' then
      match ReadArray(text, v + 1)
      case NoParse => NoParse
      case Parse(entries, e) => Parse((entries, false), e)
    else match DecodeValue(text, v)
      case NoParse => NoParse
      case Parse(_, e) => Parse(([], key.units == SKILLS), e)
  }

  /** One member. */
  function ReadMember(text: string, q: nat): (r: Parsed<(seq<Value>, bool)>)
    requires q <= |text|
    ensures r.Parse? ==> q < r.end <= |text|
  {
    match ReadName(text, q)
    case NoParse => NoParse
    case Parse(key, p) => ReadMemberValue(text, key, p)
  }

  /** Behind the value of a member: whether the object ends, and where to go on. */
  function ReadSeparator(text: string, i: nat): (r: (bool, nat))
    requires i <= |text|
    ensures i <= r.1 <= |text|
  {
    var q := SkipSpace(text, i);
    if q < |text| && text[q] == ',' then (false, q + 1)
    else if q < |text| && text[q] == '}' then (true, q + 1)
    else (false, q)
  }

  /** The entries of all `skills` members, from behind an opening brace. */
  function ReadObject(text: string, i: nat): Parsed<seq<Value>>
    requires i <= |text|
    decreases |text| - i
  {
    var q := SkipSpace(text, i);
    if q < |text| && text[q] == '}' then Parse([], q + 1)
    else match ReadMember(text, q)
      case NoParse => NoParse
      case Parse((entries, bare), e) =>
        var next := ReadSeparator(text, e);
        if bare then Prepend(entries, ReadObject(text, e))
        else if next.0 then Parse(entries, next.1)
        else Prepend(entries, ReadObject(text, next.1))
  }

  function ReadTop(text: string): Option<seq<Value>> {
    var q := SkipSpace(text, 0);
    if q == |text| then None
    else
      var r := if text[q] == '[' then ReadArray(text, q + 1)
               else if text[q] == '{' then ReadObject(text, q + 1) else NoParse;
      if r.Parse? then Some(r.value) else None
  }

  // ---- when the chunks do not matter ----------------------------------------

  /** No run of white space is longer than a chunk. */
  ghost predicate ShortSpaces(text: string, chunk: nat) {
    forall i: nat :: i <= |text| ==> SkipSpace(text, i) - i <= chunk
  }

  /** A position at which a chunk ends: a multiple of the chunk size. */
  predicate IsChunkEnd(chunk: nat, n: nat)
    requires chunk > 0
  {
    n == 0 || (n >= chunk && IsChunkEnd(chunk, n - chunk))
  }

  lemma {:induction false} ChunkEndsApart(chunk: nat, a: nat, b: nat)
    requires chunk > 0 && a < b && IsChunkEnd(chunk, a) && IsChunkEnd(chunk, b)
    ensures a + chunk <= b
    decreases b
  {
    if chunk <= a {
      ChunkEndsApart(chunk, a - chunk, b - chunk);
    }
  }

  /** How far the buffer reaches at least when the value behind a colon at p is
      decoded. When the buffer ends in the white space behind the colon and the
      next chunk begins with a blank, the reader loads one chunk more, because
      decoding the blank fails. */
  ghost function Loaded(text: string, p: nat, chunk: nat, low: nat): nat
    requires p <= |text| && chunk > 0
  {
    if b: nat :| p <= b < SkipSpace(text, p) && low <= b && IsChunkEnd(chunk, b) then b + 2 * chunk else low
  }

  /** The same behind a whole member; white space in front of a `skills` value
      is skipped twice and loads nothing. */
  ghost function MemberLoaded(text: string, q: nat, chunk: nat, low: nat): nat
    requires q <= |text| && chunk > 0
  {
    match ReadName(text, q)
    case NoParse => low
    case Parse(key, p) => LoadedBehind(text, key, p, chunk, low)
  }

  ghost function LoadedBehind(text: string, key: Value, p: nat, chunk: nat, low: nat): nat
    requires p <= |text| && chunk > 0 && key.Str?
  {
    if key.units == SKILLS then low else Loaded(text, p, chunk, low)
  }

  /** The end of a chunk at which a number from its first digit d to e is cut. */
  ghost predicate CutsAt(chunk: nat, d: nat, e: nat, low: nat, n: nat)
    requires chunk > 0
  {
    low <= n && d < n < e && IsChunkEnd(chunk, n)
  }

  ghost predicate IsCut(chunk: nat, d: nat, e: nat, low: nat)
    requires chunk > 0
  {
    exists n: nat :: CutsAt(chunk, d, e, low, n)
  }

  /** The value at v is no number that is cut. */
  ghost predicate Uncut(text: string, v: nat, chunk: nat, low: nat)
    requires v <= |text| && chunk > 0
  {
    var value := DecodeValue(text, v);
    value.Parse? && value.value.Num? ==> !IsCut(chunk, FirstDigit(text, v), value.end, low)
  }

  /** What is decoded instead of a number that is cut: as much of it as lies in
      front of the first end of a chunk that cuts it. */
  ghost predicate MisreadAt(text: string, v: nat, chunk: nat, low: nat, value: Value, end: nat)
    requires v < |text| && chunk > 0
  {
    var d, e := FirstDigit(text, v), (match DecodeValue(text, v) case Parse(_, e) => e case NoParse => v);
    exists n: nat :: n <= |text| && CutsAt(chunk, d, e, low, n)
      && (forall m: nat :: CutsAt(chunk, d, e, low, m) ==> n <= m)
      && DecodeValue(text[..n], v) == Parse(value, end)
  }

  ghost predicate MemberUncut(text: string, q: nat, chunk: nat, low: nat)
    requires q <= |text| && chunk > 0
  {
    match ReadName(text, q)
    case NoParse => true
    case Parse(key, p) => Uncut(text, SkipSpace(text, p), chunk, MemberLoaded(text, q, chunk, low))
  }

  /** The same for all members that the reader comes to. */
  ghost predicate NumbersUncut(text: string, i: nat, chunk: nat, low: nat)
    requires i <= |text| && chunk > 0
    decreases |text| - i
  {
    var q := SkipSpace(text, i);
    if q < |text| && text[q] == '}' then true
    else
      && MemberUncut(text, q, chunk, low)
      && match ReadMember(text, q)
         case NoParse => true
         case Parse((_, bare), e) =>
           var loaded := MemberLoaded(text, q, chunk, low);
           if bare then NumbersUncut(text, e, chunk, loaded)
           else ReadSeparator(text, e).0 || NumbersUncut(text, ReadSeparator(text, e).1, chunk, loaded)
  }

  /** No number member of an object at the top is cut. */
  ghost predicate NumbersUncutAtTop(text: string, chunk: nat)
    requires chunk > 0
  {
    var q := SkipSpace(text, 0);
    q < |text| && text[q] == '{' ==> NumbersUncut(text, q + 1, chunk, 0)
  }

  /** What the reader makes of an object: it refuses it when a number is cut. */
  ghost function Outcome(text: string, i: nat, chunk: nat, low: nat): Parsed<seq<Value>>
    requires i <= |text| && chunk > 0
  {
    if NumbersUncut(text, i, chunk, low) then ReadObject(text, i) else NoParse
  }

  ghost function OutcomeAtTop(text: string, chunk: nat): Option<seq<Value>>
    requires chunk > 0
  {
    if NumbersUncutAtTop(text, chunk) then ReadTop(text) else None
  }

  lemma {:induction false} SkipSpaceWithin(text: string, i: nat, k: nat)
    requires i <= |text| && i <= k <= SkipSpace(text, i)
    ensures SkipSpace(text, k) == SkipSpace(text, i)
    decreases k - i
  {
    if i < k {
      SkipSpaceWithin(text, i + 1, k);
    }
  }

  function Min(a: nat, b: nat): nat {
    if a < b then a else b
  }

  lemma SpaceIsNoValue(s: string, i: nat)
    requires i < |s| && IsSpace(s[i])
    ensures DecodeValue(s, i) == NoParse
  {
  }

  // ---- the reader -----------------------------------------------------------

  class StreamingJsonReader {
    const text: string  // the whole file
    const chunk: nat    // SKILLS_INDEX_READ_CHUNK_BYTES
    var buffer: string
    var position: nat
    var eof: bool
    ghost var loaded: nat  // reached by the buffer because of white space, see `Loaded`

    ghost predicate Consistent()
      reads this
    {
      && chunk > 0
      && buffer <= text && position <= |buffer|
      && (eof ==> buffer == text)
      && (buffer == text || IsChunkEnd(chunk, |buffer|))
    }

    /** No chunk has ended between a position and the end of the buffer, apart
        from those that white space made the reader load. */
    ghost predicate Reaches(k: int)
      reads this
    {
      chunk > 0 && forall b: nat :: b < |buffer| && IsChunkEnd(chunk, b) ==> b <= k || b < loaded
    }

    ghost predicate Valid()
      reads this
    {
      Consistent() && Reaches(position) && |buffer| >= Min(loaded, |text|)
    }

    constructor (text: string, chunk: nat)
      requires chunk > 0
      ensures Valid() && this.text == text && this.chunk == chunk
      ensures buffer == "" && position == 0 && !eof && loaded == 0
    {
      this.text, this.chunk := text, chunk;
      buffer, position, eof, loaded := "", 0, false, 0;
    }

    method FillBuffer()
      requires Consistent()
      modifies this`buffer, this`eof
      ensures Consistent() && |buffer| == Min(|old(buffer)| + chunk, |text|)
      ensures eof <==> old(eof) || old(buffer) == text
      ensures forall k: int :: k >= |old(buffer)| ==> Reaches(k)
    {
      if eof {
        return;
      }
      var next := text[|buffer|..Min(|buffer| + chunk, |text|)];
      if next == "" {
        eof := true;
        assert buffer == text;
        return;
      }
      forall b: nat | |buffer| < b < |buffer| + chunk ensures !IsChunkEnd(chunk, b) {
        if IsChunkEnd(chunk, b) {
          ChunkEndsApart(chunk, |buffer|, b);
        }
      }
      buffer := buffer + next;
    }

    /** Stops in front of the next character, or at the start of the next chunk,
        which may begin with white space of its own. The loop of the source
        never comes round: a refill brings a character or sets `eof`. */
    method SkipWhitespace()
      requires Consistent()
      modifies this`buffer, this`position, this`eof
      ensures Consistent() && position == Min(SkipSpace(text, old(position)), |old(buffer)|)
      ensures |buffer| == (if position < |old(buffer)| then |old(buffer)| else Min(|old(buffer)| + chunk, |text|))
      ensures position == |buffer| ==> eof
      ensures eof ==> old(eof) || position == |text|
      ensures old(eof) ==> eof
      ensures old(Valid()) ==> Valid()
      ensures position == |old(buffer)| ==> Reaches(position)
    {
      while position < |buffer| && IsSpace(buffer[position])
        invariant buffer == old(buffer) && eof == old(eof)
        invariant Consistent() && old(position) <= position <= SkipSpace(text, old(position))
      {
        position := position + 1;
      }
      if position < |buffer| {
        return;
      }
      FillBuffer();
    }

    method Peek() returns (c: Option<char>)
      requires Valid()
      modifies this`buffer, this`position, this`eof
      ensures Valid() && position == Min(SkipSpace(text, old(position)), |old(buffer)|)
      ensures |buffer| == (if position < |old(buffer)| then |old(buffer)| else Min(|old(buffer)| + chunk, |text|))
      ensures c == (if position < |text| then Some(text[position]) else None)
      ensures position == |buffer| ==> eof
    {
      SkipWhitespace();
      if position >= |buffer| {
        return None;
      }
      return Some(buffer[position]);
    }

    /** `self._position += 1`. */
    method Advance()
      requires Valid() && position < |buffer|
      modifies this`position
      ensures Valid() && position == old(position) + 1 && Reaches(position - 1)
    {
      position := position + 1;
    }

    /** `self._skip_whitespace()` and `self._peek()`: two skips, of which the
        second finishes a run of white space that goes on in the next chunk. */
    method SkipAndPeek() returns (c: Option<char>)
      requires Valid()
      modifies this`buffer, this`position, this`eof
      ensures Valid() && old(position) <= position <= SkipSpace(text, old(position))
      ensures position == Min(SkipSpace(text, old(position)), |old(buffer)| + chunk)
      ensures ShortSpaces(text, chunk) ==> position == SkipSpace(text, old(position))
      ensures c == if position < |text| then Some(text[position]) else None
      ensures position == |buffer| ==> eof
    {
      SkipWhitespace();
      SkipSpaceWithin(text, old(position), position);
      c := Peek();
    }

    /** The refill after a failed attempt, which leaves behind white space that
        begins a chunk. `tried` is a length of the buffer that was not enough. */
    method Refill(ghost q: nat) returns (ghost tried: nat)
      requires Consistent() && position <= q == SkipSpace(text, position) && position < |buffer| && !eof
      requires |buffer| >= Min(loaded, |text|)
      requires position < q ==> |buffer| == Min(position + chunk, |text|)
      modifies this
      ensures Consistent() && position <= tried <= |buffer| && Reaches(tried) && |buffer| >= Min(loaded, |text|)
      ensures position == Min(q, Min(|old(buffer)| + chunk, |text|)) && old(position) <= position
      ensures SkipSpace(text, position) == q && (position == |buffer| ==> eof) && (eof ==> position == q)
      ensures old(position) == q ==> tried == |old(buffer)| && loaded == old(loaded)
      ensures old(position) < q ==> tried == position && loaded == old(position) + 2 * chunk
      ensures position < q ==> |buffer| == Min(position + chunk, |text|)
      ensures |buffer| > |old(buffer)| || eof
    {
      hide SkipSpace, IsChunkEnd;
      tried := |buffer|;
      FillBuffer();
      if position < q {
        loaded := position + 2 * chunk;
      }
      assert Reaches(tried);
      ghost var before, filled := position, buffer;
      SkipWhitespace();
      SkipSpaceWithin(text, before, position);
      if before < q {
        tried := position;
      } else {
        assert |buffer| == |filled| ==> buffer == filled;
      }
    }

    /** `_decode_value`: refills the buffer until the value in front decodes. A
        number that a chunk cuts comes out as what the buffer held of it. */
    method DecodeNext() returns (r: Option<Value>)
      requires Valid()
      modifies this
      ensures position >= old(position) && (r.Some? ==> Valid())
      ensures r.Some? ==> position > old(position)
      ensures SkipSpace(text, old(position)) == old(position) ==> loaded == old(loaded)
      ensures ShortSpaces(text, chunk) ==>
        loaded == if |old(buffer)| < SkipSpace(text, old(position)) then |old(buffer)| + 2 * chunk else old(loaded)
      ensures var q := SkipSpace(text, old(position));
        var there := DecodeValue(text, q);
        && (there.NoParse? ==> r == None)
        && (there.Parse? && Uncut(text, q, chunk, loaded) ==> r == Some(there.value) && position == there.end)
        && (there.Parse? && !Uncut(text, q, chunk, loaded) ==>
              r.Some? && MisreadAt(text, q, chunk, loaded, r.value, position))
    {
      ghost var q := SkipSpace(text, position);
      assert ShortSpaces(text, chunk) ==> q - position <= chunk;
      hide DecodeValue, SkipSpace, IsChunkEnd, Uncut, MisreadAt, ShortSpaces, Reaches;
      SkipWhitespace();
      SkipSpaceWithin(text, old(position), position);
      r := DecodeFrom(q);
    }

    /** The loop of `_decode_value`, from behind the first skip. */
    method DecodeFrom(ghost q: nat) returns (r: Option<Value>)
      requires Valid() && position <= q == SkipSpace(text, position) && (position == |buffer| ==> eof)
      requires (eof ==> position == q) && (position < q ==> |buffer| == Min(position + chunk, |text|))
      modifies this
      ensures position >= old(position) && (r.Some? ==> Valid() && position > old(position))
      ensures old(position) == q ==> loaded == old(loaded)
      ensures old(position) < q <= old(position) + chunk ==> loaded == old(position) + 2 * chunk
      ensures var there := DecodeValue(text, q);
        && (there.NoParse? ==> r == None)
        && (there.Parse? && Uncut(text, q, chunk, loaded) ==> r == Some(there.value) && position == there.end)
        && (there.Parse? && !Uncut(text, q, chunk, loaded) ==>
              r.Some? && MisreadAt(text, q, chunk, loaded, r.value, position))
    {
      hide DecodeValue, SkipSpace, IsChunkEnd, Uncut, MisreadAt, Reaches;
      ghost var tried := position;
      ReachesTried();
      while true
        invariant Consistent() && old(position) <= position <= q && SkipSpace(text, position) == q
        invariant (position == |buffer| ==> eof) && (eof ==> position == q)
        invariant position <= tried <= |buffer| && Reaches(tried) && |buffer| >= Min(loaded, |text|)
        invariant tried > position ==> position == q && DecodeValue(text[..tried], q) == NoParse
        invariant position < q ==> |buffer| == Min(position + chunk, |text|)
        invariant old(position) == q ==> loaded == old(loaded)
        invariant old(position) < q <= old(position) + chunk ==>
          (position == old(position) && loaded == old(loaded)) || (position == q && loaded == old(position) + 2 * chunk)
        decreases |text| - |buffer|, !eof
      {
        match DecodeValue(buffer, position) {
          case Parse(value, end) =>
            DecodedHere(q, tried);
            Accept(q, tried, end);
            return Some(value);
          case NoParse =>
            assert buffer == text[..|buffer|];
            if eof {
              return None;
            }
            tried := Refill(q);
            if position >= |buffer| && eof {
              NothingAtTheEnd(text);
              return None;
            }
        }
      }
    }

    lemma ReachesTried()
      requires Valid()
      ensures Reaches(position)
    {
    }

    lemma DecodedHere(q: nat, tried: nat)
      requires Consistent() && position <= q == SkipSpace(text, position)
      requires position <= tried <= |buffer| && Reaches(tried) && |buffer| >= Min(loaded, |text|)
      requires tried > position ==> position == q && DecodeValue(text[..tried], q) == NoParse
      requires DecodeValue(buffer, position).Parse?
      ensures var here, there := DecodeValue(buffer, position), DecodeValue(text, q);
        && position == q && there.Parse? && (tried == q || tried < here.end)
        && (Uncut(text, q, chunk, loaded) ==> there == here)
        && (!Uncut(text, q, chunk, loaded) ==> MisreadAt(text, q, chunk, loaded, here.value, here.end))
    {
      hide DecodeValue, IsChunkEnd, Uncut, MisreadAt, SkipSpace;
      assert buffer == text[..|buffer|];
      NoSpaceDecodes(text, position, |buffer|);
      Decoded(text, q, chunk, loaded, |buffer|, tried);
    }

    method Accept(ghost q: nat, ghost tried: nat, end: nat)
      requires Consistent() && Reaches(tried) && |buffer| >= Min(loaded, |text|)
      requires q < end <= |buffer| && (tried == q || tried < end)
      modifies this`position
      ensures Valid() && position == end
    {
      hide IsChunkEnd;
      position := end;
    }

    /** One round of `_read_array_values`. */
    method ReadOneItem() returns (r: Option<Item>)
      requires Valid()
      modifies this
      ensures position >= old(position) && (r.Some? ==> Valid())
      ensures r.Some? ==> position > old(position)
      ensures ShortSpaces(text, chunk) ==>
        var wanted := ReadItem(text, SkipSpace(text, old(position)));
        && loaded == old(loaded)
        && (wanted.NoParse? ==> r == None)
        && (wanted.Parse? ==> r == Some(wanted.value) && position == wanted.end)
    {
      hide ShortSpaces, SkipSpace, DecodeValue, MisreadAt, Reaches;
      ghost var start := position;
      var current := SkipAndPeek();
      SkipSpaceWithin(text, start, position);
      if current.None? {
        return None;
      }
      if current.value == ']' {
        Advance();
        return Some(Close);
      }
      if current.value == ',' {
        Advance();
        return Some(Comma);
      }
      ghost var q := position;
      var entry := DecodeNext();
      if entry.Some? {
        MisreadIsNumber(text, SkipSpace(text, q), chunk, loaded, entry.value, position);
      }
      if entry.None? || !entry.value.Obj? {
        return None;
      }
      return Some(Entry(entry.value));
    }

    /** `_read_array_values`, from behind the opening bracket. */
    method ReadArrayValues() returns (r: Option<seq<Value>>)
      requires Valid()
      modifies this
      ensures position >= old(position) && (r.Some? ==> Valid())
      ensures r.Some? ==> position > old(position)
      ensures ShortSpaces(text, chunk) ==>
        var wanted := ReadArray(text, old(position));
        && loaded == old(loaded)
        && (wanted.NoParse? ==> r == None)
        && (wanted.Parse? ==> r == Some(wanted.value) && position == wanted.end)
    {
      hide ShortSpaces, SkipSpace, ReadItem, Reaches;
      var out := [];
      PrependTwice([], [], ReadArray(text, position));
      while true
        invariant Valid() && position >= old(position)
        invariant ShortSpaces(text, chunk) ==>
          loaded == old(loaded) && ReadArray(text, old(position)) == Prepend(out, ReadArray(text, position))
        decreases |text| - position
      {
        var item := ReadOneItem();
        if item.None? {
          return None;
        }
        match item.value {
          case Close =>
            assert out + [] == out;
            return Some(out);
          case Comma =>
          case Entry(entry) =>
            PrependTwice(out, [entry], ReadArray(text, position));
            out := out + [entry];
        }
      }
    }

    /** `_consume_char`, which skips white space once more before it refuses. */
    method ConsumeChar(expected: char) returns (ok: bool)
      requires Valid()
      modifies this`buffer, this`position, this`eof
      ensures Valid() && position >= old(position)
      ensures ok ==> position > old(position) && Reaches(position - 1)
      ensures SkipSpace(text, old(position)) == old(position) ==>
        (ok <==> old(position) < |text| && text[old(position)] == expected)
        && (ok ==> position == old(position) + 1)
    {
      hide SkipSpace;
      SkipWhitespace();
      if position >= |buffer| {
        FillBuffer();
        SkipWhitespace();
      }
      if position >= |buffer| {
        return false;
      }
      if buffer[position] != expected {
        return false;
      }
      Advance();
      return true;
    }

    /** The key of a member and its colon. */
    method ReadKey() returns (r: Option<Value>)
      requires Valid()
      modifies this
      ensures position >= old(position) && (r.Some? ==> Valid())
      ensures r.Some? ==> r.value.Str? && position > old(position) && Reaches(position - 1)
      ensures SkipSpace(text, old(position)) == old(position) ==> loaded == old(loaded)
      ensures ShortSpaces(text, chunk) ==>
        var wanted := ReadName(text, SkipSpace(text, old(position)));
        && (wanted.NoParse? ==> r == None)
        && (wanted.Parse? ==> r == Some(wanted.value) && position == wanted.end)
    {
      hide ShortSpaces, SkipSpace, DecodeValue, MisreadAt, Reaches;
      ghost var q := SkipSpace(text, position);
      r := DecodeNext();
      if r.Some? {
        MisreadIsNumber(text, q, chunk, loaded, r.value, position);
      }
      if r.None? || !r.value.Str? {
        return None;
      }
      ghost var start := position;
      var c := SkipAndPeek();
      SkipSpaceWithin(text, start, position);
      if c == Some(':') {
        Advance();
      } else {
        var found := ConsumeChar(':');
        if !found {
          return None;
        }
      }
    }

    /** A member whose name is not `}`; see the function of the same name. When
        its value is a number that is cut, the reader stops inside the number. */
    method ReadOneMember() returns (r: Option<(seq<Value>, bool)>)
      requires Valid()
      modifies this
      ensures position >= old(position) && (r.Some? ==> Valid())
      ensures r.Some? ==> position > old(position)
      ensures var q := old(position);
        ShortSpaces(text, chunk) && SkipSpace(text, q) == q ==>
          var wanted := ReadMember(text, q);
          if MemberUncut(text, q, chunk, old(loaded)) then
            && (wanted.NoParse? ==> r == None)
            && (wanted.Parse? ==> r == Some(wanted.value) && position == wanted.end)
            && (r.Some? ==> loaded == MemberLoaded(text, q, chunk, old(loaded)))
          else r.Some? && r.value.0 == [] && Stuck(text, position)
    {
      hide ShortSpaces, SkipSpace, ReadName, ReadMemberValue, LoadedBehind, Uncut, Reaches;
      var key := ReadKey();
      if key.None? {
        return None;
      }
      r := ReadOneValue(key.value);
    }

    /** The value of a member, from behind its colon. */
    method ReadOneValue(key: Value) returns (r: Option<(seq<Value>, bool)>)
      requires Valid() && Reaches(position - 1) && key.Str?
      modifies this
      ensures position >= old(position) && (r.Some? ==> Valid())
      ensures r.Some? ==> position > old(position)
      ensures ShortSpaces(text, chunk) ==>
        var wanted := ReadMemberValue(text, key, old(position));
        var reach := LoadedBehind(text, key, old(position), chunk, old(loaded));
        if Uncut(text, SkipSpace(text, old(position)), chunk, reach) then
          && (wanted.NoParse? ==> r == None)
          && (wanted.Parse? ==> r == Some(wanted.value) && position == wanted.end)
          && (r.Some? ==> loaded == reach)
        else r.Some? && r.value.0 == [] && Stuck(text, position)
    {
      hide ShortSpaces, SkipSpace, DecodeValue, ReadArray, MisreadAt, Uncut, Loaded, Reaches, Stuck;
      ghost var p, v, low := position, SkipSpace(text, position), loaded;
      BehindColon();
      if key.units == SKILLS {
        var current := SkipAndPeek();
        SkipSpaceWithin(text, p, position);
        if current.None? {
          NoNumberIsUncut(text, |text|, chunk, low);
          NothingAtTheEnd(text);
          return None;
        }
        if current.value == '[' {
          NoNumberIsUncut(text, position, chunk, low);
          Advance();
          var entries := ReadArrayValues();
          return if entries.None? then None else Some((entries.value, false));
        }
      }
      var value := DecodeNext();
      CutIsNumber(text, v, chunk, loaded);
      if value.None? {
        return None;
      }
      MisreadIsNumber(text, v, chunk, loaded, value.value, position);
      return Some(([], key.units == SKILLS));
    }

    lemma BehindColon()
      requires Valid() && Reaches(position - 1)
      ensures ShortSpaces(text, chunk) ==>
        var reach := if |buffer| < SkipSpace(text, position) then |buffer| + 2 * chunk else loaded;
        Loaded(text, position, chunk, loaded) == reach
    {
      hide SkipSpace, ShortSpaces, Loaded, IsChunkEnd;
      if ShortSpaces(text, chunk) {
        LoadedIs(text, position, chunk, loaded, |buffer|);
      }
    }

    /** The end of a round of `_read_skills_from_object`. */
    method ReadOneSeparator() returns (closed: bool)
      requires Valid()
      modifies this
      ensures Valid() && position >= old(position) && loaded == old(loaded)
      ensures ShortSpaces(text, chunk) ==> (closed, position) == ReadSeparator(text, old(position))
    {
      hide ShortSpaces, SkipSpace, Reaches;
      var current := SkipAndPeek();
      if current == Some(',') {
        Advance();
        return false;
      }
      if current == Some('}') {
        Advance();
        return true;
      }
      return false;
    }

    /** `_read_skills_from_object`, from behind the opening brace. */
    method ReadSkillsFromObject() returns (r: Option<seq<Value>>)
      requires Valid()
      modifies this
      ensures ShortSpaces(text, chunk) ==>
        var wanted := Outcome(text, old(position), chunk, old(loaded));
        && (wanted.NoParse? ==> r == None)
        && (wanted.Parse? ==> r == Some(wanted.value) && position == wanted.end)
    {
      hide ShortSpaces, SkipSpace, ReadMember, MemberUncut, MemberLoaded, ReadSeparator, Outcome, Reaches, Stuck;
      var out := [];
      ghost var short := ShortSpaces(text, chunk);
      ghost var wanted := Outcome(text, position, chunk, loaded);
      PrependTwice([], [], wanted);
      while true
        invariant Valid()
        invariant short ==> wanted == Prepend(out, Outcome(text, position, chunk, loaded))
        decreases |text| - position
      {
        ghost var start, low := position, loaded;
        OutcomeStep(text, position, chunk, loaded);
        var current := SkipAndPeek();
        SkipSpaceWithin(text, start, position);
        if current.None? {
          return None;
        }
        if current.value == '}' {
          Advance();
          assert out + [] == out;
          return Some(out);
        }
        ghost var q := position;
        var member := ReadOneMember();
        if member.None? {
          return None;
        }
        ghost var before := out;
        out := out + member.value.0;
        ghost var stuck := short && !MemberUncut(text, q, chunk, low);
        if stuck {
          StuckIsRefused(text, position, chunk, loaded);
        }
        if member.value.1 {
          PrependTwice(before, member.value.0, Outcome(text, position, chunk, loaded));
          continue;
        }
        var closed := ReadOneSeparator();
        if closed {
          return Some(out);
        }
        PrependTwice(before, member.value.0, Outcome(text, position, chunk, loaded));
      }
    }

    /** The entries of the file: what the text holds, or a refusal when the end
        of a chunk cuts a number member. */
    method ReadTopLevelEntries() returns (r: Option<seq<Value>>)
      requires Valid() && buffer == "" && position == 0 && !eof && loaded == 0
      modifies this
      ensures ShortSpaces(text, chunk) ==> r == OutcomeAtTop(text, chunk)
    {
      hide ShortSpaces, SkipSpace, ReadArray, ReadObject, NumbersUncut;
      FillBuffer();
      var first := SkipAndPeek();
      if first.None? {
        return None;
      }
      if first.value == '[' {
        Advance();
        r := ReadArrayValues();
      } else if first.value == '{' {
        Advance();
        r := ReadSkillsFromObject();
      } else {
        r := None;
      }
    }
  }

  /** Inside a number: neither white space nor anything that an object goes on with. */
  predicate Stuck(text: string, i: nat) {
    i < |text| && Continues(text[i])
  }

  lemma StuckIsRefused(text: string, i: nat, chunk: nat, low: nat)
    requires Stuck(text, i) && chunk > 0
    ensures Outcome(text, i, chunk, low) == NoParse
    ensures ReadSeparator(text, i) == (false, i)
  {
    assert SkipSpace(text, i) == i;
    NumberStart(text, i);
    assert ReadName(text, i) == NoParse;
    assert ReadMember(text, i) == NoParse;
  }

  lemma CutIsNumber(text: string, v: nat, chunk: nat, low: nat)
    requires v <= |text| && chunk > 0
    ensures !Uncut(text, v, chunk, low) ==> DecodeValue(text, v).Parse? && DecodeValue(text, v).value.Num?
  {
    hide DecodeValue, IsCut, FirstDigit;
  }

  /** A number that is misread is a shorter number, and the rest of it follows. */
  lemma MisreadIsNumber(text: string, v: nat, chunk: nat, low: nat, value: Value, end: nat)
    requires v <= |text| && chunk > 0
    ensures !Uncut(text, v, chunk, low) ==> DecodeValue(text, v).Parse? && DecodeValue(text, v).value.Num?
    ensures !Uncut(text, v, chunk, low) && MisreadAt(text, v, chunk, low, value, end) ==>
      value.Num? && end < DecodeValue(text, v).end && Stuck(text, end)
  {
    CutIsNumber(text, v, chunk, low);
    hide DecodeValue, IsChunkEnd;
    if !Uncut(text, v, chunk, low) && MisreadAt(text, v, chunk, low, value, end) {
      var n: nat :| n <= |text| && CutsAt(chunk, FirstDigit(text, v), DecodeValue(text, v).end, low, n)
        && DecodeValue(text[..n], v) == Parse(value, end);
      CutNumber(text, v, n);
    }
  }

  lemma NoNumberIsUncut(text: string, v: nat, chunk: nat, low: nat)
    requires v == |text| || (v < |text| && text[v] == '[')
    requires chunk > 0
    ensures Uncut(text, v, chunk, low)
  {
    if v < |text| {
      NumberStart(text, v);
    }
  }

  /** `Loaded` in terms of the buffer that the reader has behind a colon. */
  lemma LoadedIs(text: string, p: nat, chunk: nat, low: nat, n: nat)
    requires chunk > 0 && ShortSpaces(text, chunk) && p <= n <= |text|
    requires (n == |text| || IsChunkEnd(chunk, n)) && n >= Min(low, |text|)
    requires forall b: nat :: b < n && IsChunkEnd(chunk, b) ==> b <= p - 1 || b < low
    ensures Loaded(text, p, chunk, low) == if n < SkipSpace(text, p) then n + 2 * chunk else low
  {
    hide IsChunkEnd;
    var v := SkipSpace(text, p);
    forall b: nat | p <= b < v && low <= b && IsChunkEnd(chunk, b) ensures b == n {
      if n < b {
        ChunkEndsApart(chunk, n, b);
      }
    }
  }

  /** One round of the reader on an object, with the cuts. */
  lemma OutcomeStep(text: string, i: nat, chunk: nat, low: nat)
    requires i <= |text| && chunk > 0
    ensures var q := SkipSpace(text, i);
      var member := ReadMember(text, q);
      var after := MemberLoaded(text, q, chunk, low);
      && (q < |text| && text[q] == '}' ==> Outcome(text, i, chunk, low) == Parse([], q + 1))
      && (q == |text| ==> Outcome(text, i, chunk, low) == NoParse)
      && (q < |text| && text[q] != '}' ==>
            if !MemberUncut(text, q, chunk, low) || member.NoParse? then Outcome(text, i, chunk, low) == NoParse
            else
              var (entries, bare), next := member.value, ReadSeparator(text, member.end);
              if bare then Outcome(text, i, chunk, low) == Prepend(entries, Outcome(text, member.end, chunk, after))
              else if next.0 then Outcome(text, i, chunk, low) == Parse(entries, next.1)
              else Outcome(text, i, chunk, low) == Prepend(entries, Outcome(text, next.1, chunk, after)))
  {
    hide SkipSpace, ReadMember, MemberUncut, MemberLoaded, ReadSeparator;
    NothingAtTheEnd(text);
  }

  lemma NothingAtTheEnd(text: string)
    ensures ReadMember(text, |text|) == NoParse && DecodeValue(text, |text|) == NoParse
  {
  }

  lemma PrependTwice(a: seq<Value>, b: seq<Value>, rest: Parsed<seq<Value>>)
    ensures Prepend(a, Prepend(b, rest)) == Prepend(a + b, rest)
    ensures Prepend([], rest) == rest
  {
    if rest.Parse? {
      assert a + (b + rest.value) == a + b + rest.value;
      assert [] + rest.value == rest.value;
    }
  }

  lemma NoSpaceDecodes(text: string, i: nat, n: nat)
    requires i <= n <= |text| && DecodeValue(text[..n], i).Parse?
    ensures SkipSpace(text, i) == i
  {
    if i < n && IsSpace(text[i]) {
      SpaceIsNoValue(text[..n], i);
    }
  }

  /** What decoding a buffer of n characters tells about the text, when it is
      the first one, or a buffer of `tried` characters was not enough. */
  lemma Decoded(text: string, q: nat, chunk: nat, low: nat, n: nat, tried: nat)
    requires chunk > 0 && q <= tried <= n <= |text|
    requires (n == |text| || IsChunkEnd(chunk, n)) && n >= Min(low, |text|)
    requires forall b: nat :: b < n && IsChunkEnd(chunk, b) ==> b <= tried || b < low
    requires tried > q ==> DecodeValue(text[..tried], q) == NoParse
    requires DecodeValue(text[..n], q).Parse?
    ensures var here, there := DecodeValue(text[..n], q), DecodeValue(text, q);
      && there.Parse? && (tried == q || tried < here.end)
      && (Uncut(text, q, chunk, low) ==> there == here)
      && (!Uncut(text, q, chunk, low) ==> MisreadAt(text, q, chunk, low, here.value, here.end))
  {
    hide DecodeValue, IsChunkEnd;
    var here, there := DecodeValue(text[..n], q), DecodeValue(text, q);
    ValuePrefix(text[..n], text, q);
    assert text[..n][..tried] == text[..tried];
    ValuePrefix(text[..tried], text[..n], q);
    if there.value.Num? {
      CutNumber(text, q, n);
      if tried > q {
        CutNumber(text, q, tried);
      }
      var d := FirstDigit(text, q);
      assert forall m: nat :: CutsAt(chunk, d, there.end, low, m) ==> n <= m;
      if n < there.end {
        assert CutsAt(chunk, d, there.end, low, n);
      }
    }
  }
}
