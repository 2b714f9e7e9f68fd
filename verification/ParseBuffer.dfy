/** The parser as it runs over a buffer: an offset that moves forward, a nesting depth, and an output
    array for each string. Every method is proved to compute what the grammar says: the value, and as what is left the
    text from the new offset on. */
module BufferedParsing {
  import opened CStrings
  import opened JsonTree
  import opened Decimals
  import opened Pointers
  import opened Patching
  import opened Utf8
  import Grammar = ParserGrammar
  import opened ParserGrammar

  // ----- the two passes over a string -----

  /** At position i of the second pass, the next place at or behind it where the first pass began a
      character is b: the passes are at most one byte apart. */
  ghost predicate Boundary(s: string, k: nat, i: nat, b: nat) {
    i <= b <= i + 1 && b <= k <= |s| && ScanString(s[b..]) == Some(k - b)
  }

  /** From one boundary to the first at or behind a given place; the first pass reserves at least one
      byte for every two it passes. */
  lemma {:induction false} NextBoundary(s: string, k: nat, a: nat, i: nat) returns (b: nat)
    requires a <= i <= k <= |s| && ScanString(s[a..]) == Some(k - a)
    ensures Boundary(s, k, i, b)
    ensures 2 * Units(s[a..]) >= 2 * Units(s[b..]) + b - a
    ensures i == a + 1 && s[a] != '\\' ==> b == i
    decreases i - a
  {
    if a == i {
      b := i;
    } else {
      var n := if s[a] == '\\' then 2 else 1;
      assert s[a..][n..] == s[a + n..];
      if a + n < i {
        b := NextBoundary(s, k, a + n, i);
      } else {
        b := a + n;
      }
    }
  }

  /** What the bytes still to come may take: what the first pass reserved from the boundary on, and the
      one byte in front of it. */
  ghost function Reserve(s: string, i: nat, b: nat): nat
    requires i <= b <= |s|
  {
    Units(s[b..]) + (b - i)
  }

  /** One turn of the second pass writes no more than it uses up of the reserve, wherever it starts. */
  lemma {:induction false} TurnFits(s: string, k: nat, i: nat, b: nat) returns (c: nat)
    requires i < k < |s| && Boundary(s, k, i, b) && Turn(s[i..], k - i).length > 0
    ensures var t := Turn(s[i..], k - i);
            && (i + t.length > k ==> |t.bytes| <= Reserve(s, i, b))
            && (i + t.length <= k ==>
                  Boundary(s, k, i + t.length, c) && |t.bytes| + Reserve(s, i + t.length, c) <= Reserve(s, i, b))
  {
    var t := Turn(s[i..], k - i);
    c := b;
    if i + t.length <= k {
      c := NextBoundary(s, k, b, i + t.length);
    } else {
      assert s[i] == '\\' && k == i + 1;
      assert b == i ==> ScanString(s[i..]) == Further(2, ScanString(s[i..][2..]));
    }
  }

  /** So what the second pass writes in all fits in what the first reserved, for every literal the first
      pass accepts. */
  lemma TwoPassesAgree(s: string, k: nat)
    requires ScanString(s) == Some(k)
    ensures Unescape(s, k).Some? ==> |Unescape(s, k).value| <= Units(s)
  {
    assert s[0..] == s;
    RestFits(s, k, 0, 0);
  }

  lemma {:induction false} RestFits(s: string, k: nat, i: nat, b: nat)
    requires k < |s| && Boundary(s, k, i, b)
    ensures var u := Unescape(s[i..], k - i); u.Some? ==> |u.value| <= Reserve(s, i, b)
    decreases k - i
  {
    hide Boundary, Reserve, Turn;
    if i < k {
      var t := Turn(s[i..], k - i);
      if t.length > 0 {
        var c := TurnFits(s, k, i, b);
        if i + t.length <= k {
          assert s[i..][t.length..] == s[i + t.length..];
          RestFits(s, k, i + t.length, c);
        }
      }
    }
  }

  lemma NumberStep(s: string, i: nat, room: nat)
    requires i <= |s|
    ensures NumberLength(s[i..], room) == if room == 0 || i == |s| || !NumberCharacter(s[i]) then 0
        else 1 + NumberLength(s[i + 1..], room - 1)
  {
    if i < |s| {
      assert s[i..][1..] == s[i + 1..];
    }
  }

  /** Terminated text further on is there. */
  lemma RestTerminated(s: string, offset: nat, n: nat)
    requires offset <= |s| && n <= |s| - offset
    ensures s[offset..][n..] == s[offset + n..]
    ensures Terminated(s[offset..][n..]) ==> offset + n < |s|
  {
  }

  lemma StartBoundary(s: string, k: nat, i: nat)
    requires i <= k <= |s| && ScanString(s[i..]) == Some(k - i)
    ensures Boundary(s, k, i, i) && Reserve(s, i, i) == Units(s[i..])
  {
  }

  /** One turn of the second pass behind what is already written, and its end. */
  lemma UnescapeStep(s: string, k: nat, i: nat, done: string)
    requires i < k < |s|
    ensures var t := Turn(s[i..], k - i);
            var r := if i + t.length > k then Some("") else Unescape(s[i + t.length..], k - i - t.length);
            Prepend(done, Unescape(s[i..], k - i)) == if t.length == 0 then None else Prepend(done + t.bytes, r)
  {
    hide Turn;
    var t := Turn(s[i..], k - i);
    if t.length > 0 {
      var r := if i + t.length > k then Some("") else Unescape(s[i + t.length..], k - i - t.length);
      if i + t.length <= k {
        assert s[i..][t.length..] == s[i + t.length..];
      }
      assert r.Some? ==> done + (t.bytes + r.value) == (done + t.bytes) + r.value;
    }
  }

  lemma UnescapeEnd(s: string, k: nat, i: nat)
    requires k < |s| && i <= |s|
    ensures i == k ==> Unescape(s[i..], k - i) == Some("")
  {
  }

  lemma PrependNothing(r: Option<string>, done: string)
    ensures Prepend("", r) == r && Prepend(done, Some("")) == Some(done)
  {
    assert r.Some? ==> "" + r.value == r.value;
    assert done + "" == done;
  }

  lemma FailureIsEmpty(s: string, n: nat)
    requires 0 < n < |s|
    ensures Turn(s, n).length == 0 ==> Turn(s, n).bytes == ""
  {
  }

  /** Values already read, in front of what is parsed next. */
  function Behind<T>(done: seq<T>, r: Parsed<seq<T>>): Parsed<seq<T>> {
    match r case Fail => Fail case Ok(more, rest) => Ok(done + more, rest)
  }

  lemma BehindNothing<T>(r: Parsed<seq<T>>)
    ensures Behind([], r) == r
  {
    assert r.Ok? ==> [] + r.value == r.value;
  }

  lemma BehindBoth<T>(done: seq<T>, v: T, r: Parsed<seq<T>>)
    ensures Behind(done, Behind([v], r)) == Behind(done + [v], r)
  {
    assert r.Ok? ==> done + ([v] + r.value) == (done + [v]) + r.value;
  }

  /** One turn of the loops over elements and members, behind those already read. */
  lemma ElementsStep(s: string, depth: nat, done: seq<Json>)
    requires Terminated(s)
    ensures var all, e := Behind(done, Grammar.ParseElements(s, depth)), ParseElement(s, depth);
            && (e.Fail? ==> all == Fail)
            && (e.Ok? && e.rest[0] == ',' ==>
                Terminated(e.rest[1..]) && all == Behind(done + [e.value], Grammar.ParseElements(e.rest[1..], depth)))
            && (e.Ok? && e.rest[0] != ',' ==> all == if e.rest[0] == ']' then Ok(done + [e.value], e.rest[1..])
              else Fail)
  {
    hide ParseElement;
    var e := ParseElement(s, depth);
    if e.Ok? && e.rest[0] == ',' {
      TerminatedTail(e.rest, 1);
      BehindBoth(done, e.value, Grammar.ParseElements(e.rest[1..], depth));
    }
  }

  lemma MembersStep(s: string, depth: nat, done: seq<Member>)
    requires Terminated(s)
    ensures var all, e := Behind(done, Grammar.ParseMembers(s, depth)), ParseMember(s, depth);
            && (e.Fail? ==> all == Fail)
            && (e.Ok? && e.rest[0] == ',' ==>
                Terminated(e.rest[1..]) && all == Behind(done + [e.value], Grammar.ParseMembers(e.rest[1..], depth)))
            && (e.Ok? && e.rest[0] != ',' ==> all == if e.rest[0] == '}' then Ok(done + [e.value], e.rest[1..])
              else Fail)
  {
    hide ParseMember;
    var e := ParseMember(s, depth);
    if e.Ok? && e.rest[0] == ',' {
      TerminatedTail(e.rest, 1);
      BehindBoth(done, e.value, Grammar.ParseMembers(e.rest[1..], depth));
    }
  }

  /** A word read at the offset. */
  lemma AtWord(s: string, offset: nat, word: string)
    requires Terminated(s) && offset < |s| && NulFree(word)
    ensures StartsWith(s[offset..], word) <==> offset + |word| <= |s| && s[offset..offset + |word|] == word
    ensures StartsWith(s[offset..], word) ==> offset + |word| < |s| && s[offset..][|word|..] == s[offset + |word|..]
  {
    if offset + |word| <= |s| {
      assert s[offset..][..|word|] == s[offset..offset + |word|];
    }
    if StartsWith(s[offset..], word) && word != [] {
      assert word[|word| - 1] in word;
    }
  }

  /** Past a character that is not the terminator. */
  lemma StepOver(s: string, i: nat)
    requires Terminated(s) && i < |s| && s[i] != '\0'
    ensures i + 1 < |s| && s[i..][0] == s[i] && s[i..][1..] == s[i + 1..] && Terminated(s[i + 1..])
  {
  }

  class ParseBuffer {
    const content: string
    var offset: nat
    var depth: nat

    constructor (text: string)
      requires NulFree(text)
      ensures content == text + ['\0'] && offset == 0 && depth == 0 && Valid()
    {
      content, offset, depth := text + ['\0'], 0, 0;
    }

    ghost predicate Valid()
      reads this
    {
      Terminated(content) && offset < |content|
    }

    /** The text that is left. */
    ghost function Left(): string
      requires Valid()
      reads this
    {
      content[offset..]
    }

    lemma LeftTerminated()
      requires Valid()
      ensures Terminated(Left())
    {
    }

    /** buffer_skip_whitespace. */
    method SkipWhitespace()
      requires Valid()
      modifies this`offset
      ensures Valid() && Left() == Grammar.SkipWhitespace(old(Left())) && offset >= old(offset)
    {
      ghost var start := Left();
      while offset < |content| && content[offset] as int <= 32
        invariant old(offset) <= offset <= |content|
        invariant offset < |content| ==> Grammar.SkipWhitespace(start) == Grammar.SkipWhitespace(content[offset..])
        invariant offset == |content| ==> Grammar.SkipWhitespace(start) == content[offset - 1..]
      {
        assert content[offset..][1..] == content[offset + 1..];
        offset := offset + 1;
      }
      if offset == |content| {
        offset := offset - 1;
      }
    }

    /** The number is copied out for strtod, at most 63 characters of it. */
    method CopyNumber() returns (token: string)
      requires Valid()
      ensures token == Left()[..NumberLength(Left(), 63)]
    {
      hide NumberLength;
      ghost var left := Left();
      var copy, i := new char[64], 0;
      while i < 63 && offset + i < |content| && NumberCharacter(content[offset + i])
        invariant i <= 63 && offset + i <= |content|
        invariant copy[..i] == left[..i]
        invariant NumberLength(left, 63) == i + NumberLength(left[i..], 63 - i)
      {
        NumberStep(left, i, 63 - i);
        copy[i] := content[offset + i];
        i := i + 1;
      }
      NumberStep(left, i, 63 - i);
      copy[i] := '\0';
      return copy[..i];
    }

    /** parse_number. */
    method ParseNumber() returns (r: Option<int>)
      requires Valid()
      modifies this`offset
      ensures Valid() && Taken(r, Grammar.ParseNumber(old(Left())))
    {
      hide ReadNumber, NumberLength, Terminated;
      ghost var left := Left();
      TerminatedTail(content, offset);
      NumberLeavesZero(left);
      var token := CopyNumber();
      match ReadNumber(token) {
        case None => return None;
        case Some(reading) =>
          RestTerminated(content, offset, reading.length);
          offset := offset + reading.length;
          return Some(reading.value);
      }
    }

    /** The outcome the grammar has for what was left, the offset being where the rest starts. */
    ghost predicate Taken<T>(r: Option<T>, p: Parsed<T>)
      requires Valid()
      reads this
    {
      match p
      case Fail => r.None?
      case Ok(v, rest) => r == Some(v) && Left() == rest
    }

    /** First pass of parse_string: where the closing quote is and how many bytes are not needed. */
    method ScanLiteral(start: nat) returns (end: Option<nat>, skipped: nat)
      requires start <= |content|
      ensures match ScanString(content[start..])
              case None => end.None?
              case Some(n) => end == Some(start + n) && skipped + Units(content[start..]) == n
    {
      hide ScanString, Units;
      var i := start;
      skipped := 0;
      while i < |content| && content[i] != '\"'
        invariant start <= i <= |content|
        invariant ScanString(content[start..]) == Further(i - start, ScanString(content[i..]))
        invariant Units(content[start..]) + skipped == i - start + Units(content[i..])
      {
        ScanStep(content, i);
        if content[i] == '\\' {
          if i + 1 >= |content| {
            return None, skipped;
          }
          skipped := skipped + 1;
          i := i + 1;
        }
        i := i + 1;
      }
      ScanEnd(content, i);
      return if i < |content| then Some(i) else None, skipped;
    }

    /** One turn of the second pass: what it reads and writes, or failure. It may leave bytes of a failed
        turn behind the others. */
    method CopyOne(i: nat, end: nat, output: array<char>, o: nat) returns (sequence: nat, next: nat)
      requires i < end < |content| && o + |Turn(content[i..], end - i).bytes| <= output.Length
      requires o < output.Length
      modifies output
      ensures var t := Turn(content[i..], end - i);
              && sequence == t.length
              && (sequence > 0 ==> next == o + |t.bytes| && output[..next] == old(output[..o]) + t.bytes)
    {
      assert content[i..][..end - i] == content[i..end];
      ghost var before := output[..o];
      if content[i] != '\\' {
        output[o] := content[i];
        return 1, o + 1;
      }
      match SimpleEscape(content[i + 1]) {
        case Some(c) =>
          output[o] := c;
          return 2, o + 1;
        case None =>
          if content[i + 1] != 'u' {
            return 0, o;
          }
          sequence, next := ConvertLiteral(content, i, end, output, o);
          assert output[..o] == before;
          assert output[..next] == output[..o] + output[o..next];
      }
    }

    /** Second pass of parse_string: it never writes behind the bytes the first pass reserved, even when a
        later turn fails. */
    method CopyLiteral(start: nat, end: nat, output: array<char>) returns (next: Option<nat>)
      requires start <= end < |content| && ScanString(content[start..]) == Some(end - start)
      requires Units(content[start..]) < output.Length
      modifies output
      ensures match Unescape(content[start..], end - start)
              case None => next.None?
              case Some(bytes) => next == Some(|bytes|) && |bytes| < output.Length && output[..|bytes|] == bytes
    {
      hide Unescape, Turn, Boundary, Reserve;
      var i: nat, o: nat := start, 0;
      ghost var b: nat, goal := start, Unescape(content[start..], end - start);
      StartBoundary(content, end, start);
      PrependNothing(goal, "");
      assert output[..0] == "";
      while i < end
        invariant start <= i <= end + 1 && o < output.Length
        invariant i <= end ==>
          && Boundary(content, end, i, b) && i <= b <= |content|
          && o + Reserve(content, i, b) <= Units(content[start..])
          && goal == Prepend(output[..o], Unescape(content[i..], end - i))
        invariant i > end ==> o <= Units(content[start..]) && goal == Some(output[..o])
        decreases end - i
      {
        ghost var t := Turn(content[i..], end - i);
        UnescapeStep(content, end, i, output[..o]);
        FailureIsEmpty(content[i..], end - i);
        if t.length > 0 {
          b := TurnFits(content, end, i, b);
        }
        var sequence;
        sequence, o := CopyOne(i, end, output, o);
        if sequence == 0 {
          return None;
        }
        PrependNothing(goal, output[..o]);
        i := i + sequence;
      }
      UnescapeEnd(content, end, i);
      PrependNothing(goal, output[..o]);
      return Some(o);
    }

    /** parse_string. The result is read as a C string. */
    method ParseString() returns (r: Option<string>)
      requires Valid()
      modifies this`offset
      ensures Valid() && Taken(r, Grammar.ParseString(old(Left())))
    {
      hide ScanString, Units, Unescape, CString;
      if content[offset] != '\"' {
        return None;
      }
      RestTerminated(content, offset, 1);
      var end, skipped := ScanLiteral(offset + 1);
      if end.None? {
        return None;
      }
      var allocation := end.value - offset - skipped;
      var output := new char[allocation + 1];
      var next := CopyLiteral(offset + 1, end.value, output);
      if next.None? {
        return None;
      }
      output[next.value] := '\0';
      assert content[end.value] == '\"';
      RestTerminated(content, offset, end.value + 1 - offset);
      offset := end.value + 1;
      return Some(CString(output[..next.value]));
    }

    /** strncmp at the offset, within the buffer. */
    predicate At(word: string)
      reads this
    {
      offset + |word| <= |content| && content[offset..offset + |word|] == word
    }

    /** parse_value. */
    method ParseValue() returns (r: Option<Json>)
      requires Valid()
      modifies this`offset, this`depth
      ensures Valid() && Taken(r, Grammar.ParseValue(old(Left()), old(depth)))
      ensures r.Some? ==> depth == old(depth)
      decreases |content| - offset, 1
    {
      hide Grammar.ParseString, Grammar.ParseNumber, Grammar.ParseArray, Grammar.ParseObject, Terminated, StartsWith;
      AtWord(content, offset, "null");
      AtWord(content, offset, "false");
      AtWord(content, offset, "true");
      if At("null") {
        offset := offset + 4;
        return Some(Null);
      }
      if At("false") {
        offset := offset + 5;
        return Some(False);
      }
      if At("true") {
        offset := offset + 4;
        return Some(True);
      }
      if content[offset] == '\"' {
        var text := ParseString();
        return if text.Some? then Some(String(text.value)) else None;
      }
      if content[offset] == '-' || IsDigit(content[offset]) {
        var n := ParseNumber();
        return if n.Some? then Some(Number(n.value)) else None;
      }
      if content[offset] == '[' {
        r := ParseArray();
        return r;
      }
      if content[offset] == '{' {
        r := ParseObject();
        return r;
      }
      return None;
    }

    /** The loop body both lists share: whitespace, a value, whitespace. */
    method ParseElement() returns (r: Option<Json>)
      requires Valid()
      modifies this`offset, this`depth
      ensures Valid() && Taken(r, Grammar.ParseElement(old(Left()), old(depth)))
      ensures r.Some? ==> depth == old(depth)
      decreases |content| - offset, 2
    {
      hide Grammar.ParseValue, Grammar.SkipWhitespace;
      SkipTerminated(Left());
      SkipWhitespace();
      r := ParseValue();
      if r.Some? {
        SkipWhitespace();
      }
    }

    /** parse_array. */
    method ParseArray() returns (r: Option<Json>)
      requires Valid() && content[offset] == '['
      modifies this`offset, this`depth
      ensures Valid() && Taken(r, Grammar.ParseArray(old(Left()), old(depth)))
      ensures r.Some? ==> depth == old(depth)
      decreases |content| - offset, 0
    {
      hide Grammar.ParseArray, Grammar.ParseElements, Grammar.SkipWhitespace, Terminated;
      LeftTerminated();
      StepOver(content, offset);
      ArrayUnfolds(Left(), depth);
      if depth >= NESTING_LIMIT {
        return None;
      }
      depth := depth + 1;
      offset := offset + 1;
      SkipWhitespace();
      r := ArrayBody();
      if r.Some? {
        depth, offset := depth - 1, offset + 1;
      }
    }

    /** Behind the bracket and white space: what is inside, up to the closing bracket. */
    method ArrayBody() returns (r: Option<Json>)
      requires Valid() && offset > 0
      modifies this`offset, this`depth
      ensures Valid() && (r.Some? ==> content[offset] == ']' && offset + 1 < |content| && depth == old(depth))
      ensures var goal := if old(content[offset]) == ']' then Ok(Array([]), old(content[offset + 1..]))
                          else ArrayOf(Grammar.ParseElements(old(Left()), old(depth)));
              match goal case Fail => r.None? case Ok(v, rest) => r == Some(v) && content[offset + 1..] == rest
      decreases |content| - offset, 5
    {
      hide Grammar.ParseElements, Terminated;
      LeftTerminated();
      if content[offset] == ']' {
        StepOver(content, offset);
        return Some(Array([]));
      }
      var items := ParseElements();
      if items.None? {
        return None;
      }
      StepOver(content, offset);
      return Some(Array(items.value));
    }

    /** The loop of parse_array; it starts on the character in front of the first element and leaves the
        offset on the closing bracket. */
    method ParseElements() returns (r: Option<seq<Json>>)
      requires Valid() && offset > 0
      modifies this`offset, this`depth
      ensures Valid() && Closed(r, ']', Grammar.ParseElements(old(Left()), old(depth)))
      ensures r.Some? ==> depth == old(depth)
      decreases |content| - offset, 3
    {
      hide Grammar.ParseElements, Grammar.ParseElement, Terminated, Behind;
      LeftTerminated();
      ghost var goal := Grammar.ParseElements(Left(), depth);
      offset := offset - 1;
      var items, more := [], true;
      BehindNothing(goal);
      while more
        invariant Valid() && depth == old(depth) && offset >= old(offset) - 1
        invariant more ==>
          && offset + 1 < |content| && Terminated(content[offset + 1..])
          && goal == Behind(items, Grammar.ParseElements(content[offset + 1..], depth))
        invariant !more ==> goal == if content[offset] == ']' then Ok(items, content[offset + 1..]) else Fail
        decreases |content| - offset, more
      {
        offset := offset + 1;
        ElementsStep(Left(), depth, items);
        var v := ParseElement();
        if v.None? {
          return None;
        }
        items := items + [v.value];
        more := content[offset] == ',';
        if content[offset] != '\0' {
          StepOver(content, offset);
        }
      }
      return if content[offset] == ']' then Some(items) else None;
    }

    /** The outcome the grammar has for a list up to and with its closing bracket, the offset being on that
        bracket. */
    ghost predicate Closed<T>(r: Option<T>, close: char, p: Parsed<T>)
      requires Valid()
      reads this
    {
      match p
      case Fail => r.None?
      case Ok(v, rest) => r == Some(v) && content[offset] == close && content[offset + 1..] == rest
    }

    /** parse_object. */
    method ParseObject() returns (r: Option<Json>)
      requires Valid() && content[offset] == '{'
      modifies this`offset, this`depth
      ensures Valid() && Taken(r, Grammar.ParseObject(old(Left()), old(depth)))
      ensures r.Some? ==> depth == old(depth)
      decreases |content| - offset, 0
    {
      hide Grammar.ParseObject, Grammar.ParseMembers, Grammar.SkipWhitespace, Terminated;
      LeftTerminated();
      StepOver(content, offset);
      ObjectUnfolds(Left(), depth);
      if depth >= NESTING_LIMIT {
        return None;
      }
      depth := depth + 1;
      offset := offset + 1;
      SkipWhitespace();
      r := ObjectBody();
      if r.Some? {
        depth, offset := depth - 1, offset + 1;
      }
    }

    /** Behind the bracket and white space: what is inside, up to the closing bracket. */
    method ObjectBody() returns (r: Option<Json>)
      requires Valid() && offset > 0
      modifies this`offset, this`depth
      ensures Valid() && (r.Some? ==> content[offset] == '}' && offset + 1 < |content| && depth == old(depth))
      ensures var goal := if old(content[offset]) == '}' then Ok(Object([]), old(content[offset + 1..]))
                          else ObjectOf(Grammar.ParseMembers(old(Left()), old(depth)));
              match goal case Fail => r.None? case Ok(v, rest) => r == Some(v) && content[offset + 1..] == rest
      decreases |content| - offset, 5
    {
      hide Grammar.ParseMembers, Terminated;
      LeftTerminated();
      if content[offset] == '}' {
        StepOver(content, offset);
        return Some(Object([]));
      }
      var ms := ParseMembers();
      if ms.None? {
        return None;
      }
      StepOver(content, offset);
      return Some(Object(ms.value));
    }

    /** The name of a member and the colon: whitespace, a string, whitespace, ':'. */
    method ParseName() returns (r: Option<string>)
      requires Valid()
      modifies this`offset
      ensures Valid() && Taken(r, Grammar.ParseName(old(Left())))
    {
      hide Grammar.ParseString, Grammar.SkipWhitespace, Terminated;
      LeftTerminated();
      SkipTerminated(Left());
      StringLeavesZero(Grammar.SkipWhitespace(Left()));
      SkipWhitespace();
      r := ParseString();
      if r.None? {
        return None;
      }
      SkipTerminated(Left());
      SkipWhitespace();
      if content[offset] != ':' {
        return None;
      }
      StepOver(content, offset);
      offset := offset + 1;
    }

    /** One turn of the loop of parse_object. */
    method ParseMember() returns (r: Option<Member>)
      requires Valid()
      modifies this`offset, this`depth
      ensures Valid() && Taken(r, Grammar.ParseMember(old(Left()), old(depth)))
      ensures r.Some? ==> depth == old(depth)
      decreases |content| - offset, 3
    {
      hide Grammar.ParseName, Grammar.ParseElement;
      var name := ParseName();
      if name.None? {
        return None;
      }
      var v := ParseElement();
      return if v.Some? then Some(Member(name.value, v.value)) else None;
    }

    /** The loop of parse_object. */
    method ParseMembers() returns (r: Option<seq<Member>>)
      requires Valid() && offset > 0
      modifies this`offset, this`depth
      ensures Valid() && Closed(r, '}', Grammar.ParseMembers(old(Left()), old(depth)))
      ensures r.Some? ==> depth == old(depth)
      decreases |content| - offset, 4
    {
      hide Grammar.ParseMembers, Grammar.ParseMember, Terminated, Behind;
      LeftTerminated();
      ghost var goal := Grammar.ParseMembers(Left(), depth);
      offset := offset - 1;
      var ms, more := [], true;
      BehindNothing(goal);
      while more
        invariant Valid() && depth == old(depth) && offset >= old(offset) - 1
        invariant more ==>
          && offset + 1 < |content| && Terminated(content[offset + 1..])
          && goal == Behind(ms, Grammar.ParseMembers(content[offset + 1..], depth))
        invariant !more ==> goal == if content[offset] == '}' then Ok(ms, content[offset + 1..]) else Fail
        decreases |content| - offset, more
      {
        offset := offset + 1;
        MembersStep(Left(), depth, ms);
        var m := ParseMember();
        if m.None? {
          return None;
        }
        ms := ms + [m.value];
        more := content[offset] == ',';
        if content[offset] != '\0' {
          StepOver(content, offset);
        }
      }
      return if content[offset] == '}' then Some(ms) else None;
    }

    /** skip_utf8_bom. */
    method SkipBom()
      requires Valid() && offset == 0
      modifies this`offset
      ensures Valid() && Left() == Grammar.SkipBom(old(Left()))
    {
      if offset + 4 < |content| && content[..3] == BOM {
        offset := offset + 3;
      }
    }
  }

  /** cJSON_ParseWithOpts: the tree, and the parse end. When the value has been read that is where the text behind
      it starts, also if that text makes the parse fail; when it has not, it is the error position, which is in the
      text. */
  method ParseWithOpts(text: string, requireEnd: bool) returns (r: Option<Json>, end: nat)
    requires NulFree(text)
    ensures r == ParseDocument(text, requireEnd) && end <= |text|
    ensures DocumentRest(text, requireEnd).Some? ==> (text + ['\0'])[end..] == DocumentRest(text, requireEnd).value
  {
    hide Grammar.ParseValue, Grammar.SkipWhitespace;
    BomTerminated(text);
    SkipTerminated(SkipBom(text + ['\0']));
    var p := new ParseBuffer(text);
    p.SkipBom();
    p.SkipWhitespace();
    r := p.ParseValue();
    if r.Some? && requireEnd {
      p.SkipWhitespace();
      if p.content[p.offset] != '\0' {
        return None, p.offset;
      }
    }
    end := p.offset;
  }
}
