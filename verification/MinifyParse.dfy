/** Minifying does not change what a document reads as. */
module MinifiedParsing {
  import opened CStrings
  import opened JsonTree
  import opened Decimals
  import opened Pointers
  import opened Patching
  import opened Utf8
  import opened Rendering
  import opened ParserGrammar
  import opened Minifying
  import RoundTrip = PrintParseRoundTrip

  // ----- white space -----

  ghost predicate Space(w: string) {
    forall i :: 0 <= i < |w| ==> 0 < w[i] as int <= 32
  }

  /** White space the parser skips but the minifier keeps. */
  function Controls(w: string): string {
    if w == "" then "" else (if Blank(w[0]) then "" else [w[0]]) + Controls(w[1..])
  }

  lemma {:induction false} ShrinksSpace(w: string)
    requires Space(w)
    ensures Space(Controls(w)) && Shrinks(w, Controls(w))
  {
    hide Shrinks;
    if w == "" {
      ShrinksNothing();
    } else {
      ShrinksSpace(w[1..]);
      if Blank(w[0]) {
        ShrinksBlank(w[0]);
      } else {
        ShrinksCharacter(w[0]);
      }
      ShrinksBoth([w[0]], if Blank(w[0]) then "" else [w[0]], w[1..], Controls(w[1..]));
      assert [w[0]] + w[1..] == w;
    }
  }

  lemma {:induction false} SplitSpace(s: string) returns (w: string)
    requires Terminated(s)
    ensures s == w + SkipWhitespace(s) && Space(w)
    ensures Terminated(SkipWhitespace(s)) && (SkipWhitespace(s)[0] as int > 32 || SkipWhitespace(s) == "\0")
  {
    hide Terminated, Space;
    TerminatedHead(s);
    if s[0] as int <= 32 && |s| > 1 {
      TerminatedTail(s, 1);
      var v := SplitSpace(s[1..]);
      w := [s[0]] + v;
      SpaceInFront(s, v, SkipWhitespace(s[1..]));
    } else {
      w := "";
      assert w + s == s;
      NoSpace();
    }
  }

  lemma NoSpace()
    ensures Space("")
  {
  }

  lemma SpaceInFront(s: string, v: string, rest: string)
    requires s != "" && 0 < s[0] as int <= 32 && Space(v) && s[1..] == v + rest
    ensures Space([s[0]] + v) && s == ([s[0]] + v) + rest
  {
    assert s == [s[0]] + s[1..];
  }

  lemma TerminatedHead(s: string)
    requires Terminated(s)
    ensures if |s| > 1 then s[0] as int > 0 else s == "\0"
  {
  }

  lemma SkipSpace(w: string, s: string)
    requires Space(w) && s != "" && (s[0] as int > 32 || |s| == 1)
    ensures SkipWhitespace(w + s) == s
  {
    RoundTrip.SkipsBlank(w, s);
  }

  lemma SpaceTerminated(w: string, s: string)
    requires Space(w) && Terminated(s)
    ensures Terminated(w + s)
  {
  }

  /** What has been read of terminated text holds no zero. */
  lemma ReadIsClean(c: string, rest: string)
    requires Terminated(c + rest) && rest != ""
    ensures Clean(c)
  {
    assert forall i :: 0 <= i < |c| ==> (c + rest)[i] == c[i];
  }

  // ----- single tokens -----

  /** Text m reads as the value wherever it stands, whatever follows. */
  ghost predicate Reads(m: string, v: Json, depth: nat) {
    && m != "" && RoundTrip.ValueStart(m[0])
    && forall rest: string {:trigger ReadsAt(m, v, depth, rest)} :: RoundTrip.Follows(rest) ==>
      ReadsAt(m, v, depth, rest)
  }

  ghost predicate ReadsAt(m: string, v: Json, depth: nat, rest: string) {
    Terminated(m + rest) && ParseValue(m + rest, depth) == Ok(v, rest)
  }

  lemma ReadsWord(v: Json, depth: nat)
    requires v.Null? || v.False? || v.True?
    ensures Reads(Render(v, false, 0), v, depth) && Shrinks(Render(v, false, 0), Render(v, false, 0))
  {
    var m := Render(v, false, 0);
    ShrinksWord(m);
    forall rest: string | RoundTrip.Follows(rest)
      ensures ReadsAt(m, v, depth, rest)
    {
      RoundTrip.ParsePrintedWord(v, rest, depth);
    }
  }

  lemma PrefixShifted(s: string, t: string, n: nat, k: nat)
    requires k <= n < |s| && n < |t| && s[..n + 1] == t[..n + 1]
    ensures s[k..][..n - k + 1] == t[k..][..n - k + 1]
    ensures forall i :: 0 <= i <= n ==> s[i] == t[i]
  {
    assert s[k..][..n - k + 1] == s[..n + 1][k..] == t[..n + 1][k..] == t[k..][..n - k + 1];
    assert forall i :: 0 <= i <= n ==> s[..n + 1][i] == t[..n + 1][i] && s[i] == t[i];
  }

  /** The passes over a string literal look no further than its closing quote. */
  lemma {:induction false} ScanLocal(s: string, t: string, n: nat)
    requires ScanString(s) == Some(n) && n < |t| && s[..n + 1] == t[..n + 1]
    ensures ScanString(t) == Some(n)
    decreases n
  {
    if s[0] != '\"' {
      var k := if s[0] == '\\' then 2 else 1;
      PrefixShifted(s, t, n, k);
      assert ScanString(s) == Further(k, ScanString(s[k..]));
      ScanLocal(s[k..], t[k..], n - k);
    }
  }

  lemma TurnLocal(s: string, t: string, n: nat)
    requires 0 < n < |s| && n < |t| && s[..n + 1] == t[..n + 1]
    ensures Turn(s, n) == Turn(t, n)
  {
    hide Utf16LiteralToUtf8;
    assert s[..n + 1][0] == t[..n + 1][0] && s[..n + 1][1] == t[..n + 1][1];
    assert s[..n] == s[..n + 1][..n] == t[..n + 1][..n] == t[..n];
  }

  lemma {:induction false} UnescapeLocal(s: string, t: string, n: nat)
    requires n < |s| && n < |t| && s[..n + 1] == t[..n + 1]
    ensures Unescape(s, n) == Unescape(t, n)
    decreases n
  {
    hide Turn;
    if n > 0 {
      TurnLocal(s, t, n);
      var k := Turn(s, n).length;
      if 0 < k <= n {
        PrefixShifted(s, t, n, k);
        UnescapeLocal(s[k..], t[k..], n - k);
      }
    }
  }

  ghost predicate LiteralAt(c: string, text: string, other: string) {
    ParseString(c + other) == Ok(text, other)
  }

  /** A string literal that has been read is minified to itself and reads the same wherever it stands. */
  lemma LiteralToken(s: string, c: string, text: string, rest: string)
    requires ParseString(s) == Ok(text, rest) && s == c + rest
    ensures c != "" && c[0] == '\"' && Shrinks(c, c)
    ensures forall other: string {:trigger LiteralAt(c, text, other)} :: LiteralAt(c, text, other)
  {
    var n := ScanString(s[1..]).value;
    assert |c| == n + 2 && c[0] == s[0];
    forall other: string
      ensures LiteralAt(c, text, other) && Minify(c + other) == Prepend(c, Minify(other))
    {
      var t := c + other;
      assert s[1..][..n + 1] == c[1..] == t[1..][..n + 1];
      ScanLocal(s[1..], t[1..], n);
      UnescapeLocal(s[1..], t[1..], n);
      assert t[..n + 2] == c && t[n + 2..] == other;
    }
  }

  lemma ReadsLiteral(s: string, c: string, text: string, rest: string, depth: nat)
    requires ParseString(s) == Ok(text, rest) && s == c + rest && Clean(c)
    ensures Reads(c, String(text), depth) && Shrinks(c, c)
  {
    LiteralToken(s, c, text, rest);
    forall other: string | RoundTrip.Follows(other)
      ensures ReadsAt(c, String(text), depth, other)
    {
      RoundTrip.TerminatedText(c, other);
      RoundTrip.HeadOf(c, other);
      RoundTrip.Dispatch(c + other, depth);
      assert LiteralAt(c, text, other);
    }
  }

  /** A number reads the same without what follows it. */
  lemma ReadAlone(token: string)
    requires ReadNumber(token).Some?
    ensures var k := ReadNumber(token).value.length;
            && ReadNumber(token[..k]) == ReadNumber(token)
            && forall i :: 0 <= i < k ==> IsDigit(token[i]) || token[i] == '-' || token[i] == '+'
  {
    var k := ReadNumber(token).value.length;
    var digits := if token[0] == '-' || token[0] == '+' then token[1..] else token;
    var n := DigitRun(digits);
    var short := token[..k];
    assert short[0] == token[0];
    var rest := if short[0] == '-' || short[0] == '+' then short[1..] else short;
    assert rest == digits[..n];
    RoundTrip.AllDigits(rest);
    assert rest[..n] == digits[..n];
    assert forall i :: 0 <= i < k ==>
      token[i] == (if |digits| == |token| then digits[i] else if i == 0 then token[0] else digits[i - 1]);
  }

  lemma ReadsNumber(s: string, c: string, n: int, rest: string, depth: nat)
    requires ParseNumber(s) == Ok(n, rest) && s == c + rest && (s[0] == '-' || IsDigit(s[0]))
    ensures Reads(c, Number(n), depth) && Shrinks(c, c)
  {
    var token := s[..NumberLength(s, 63)];
    ReadAlone(token);
    assert |c| == ReadNumber(token).value.length && c == token[..|c|];
    assert forall i :: 0 <= i < |c| ==> c[i] == token[i];
    assert c[0] == s[0];
    ShrinksWord(c);
    forall other: string | RoundTrip.Follows(other)
      ensures ReadsAt(c, Number(n), depth, other)
    {
      RoundTrip.TerminatedText(c, other);
      RoundTrip.HeadOf(c, other);
      RoundTrip.Dispatch(c + other, depth);
      RoundTrip.NumberLengthExact(c, other, 63);
      assert (c + other)[..|c|] == c && (c + other)[|c|..] == other;
    }
  }

  // ----- lists and objects -----

  /** What may follow a value inside brackets. */
  ghost predicate Stops(rest: string) {
    Terminated(rest) && (rest[0] == ',' || rest[0] == ']' || rest[0] == '}')
  }

  ghost predicate ReadsElement(m: string, v: Json, depth: nat) {
    forall rest: string {:trigger ReadsElementAt(m, v, depth, rest)} :: Stops(rest) ==>
        ReadsElementAt(m, v, depth, rest)
  }

  ghost predicate ReadsElementAt(m: string, v: Json, depth: nat, rest: string) {
    Terminated(m + rest) && ParseElement(m + rest, depth) == Ok(v, rest)
  }

  ghost predicate ReadsElements(m: string, vs: seq<Json>, depth: nat) {
    forall rest: string {:trigger ReadsElementsAt(m, vs, depth, rest)} :: Terminated(rest) ==>
        ReadsElementsAt(m, vs, depth, rest)
  }

  ghost predicate ReadsElementsAt(m: string, vs: seq<Json>, depth: nat, rest: string) {
    Terminated(m + rest) && ParseElements(m + rest, depth) == Ok(vs, rest)
  }

  ghost predicate ReadsName(m: string, name: string) {
    forall rest: string {:trigger ReadsNameAt(m, name, rest)} :: Terminated(rest) ==> ReadsNameAt(m, name, rest)
  }

  ghost predicate ReadsNameAt(m: string, name: string, rest: string) {
    Terminated(m + rest) && ParseName(m + rest) == Ok(name, rest)
  }

  ghost predicate ReadsMember(m: string, member: Member, depth: nat) {
    forall rest: string {:trigger ReadsMemberAt(m, member, depth, rest)} :: Stops(rest) ==>
        ReadsMemberAt(m, member, depth, rest)
  }

  ghost predicate ReadsMemberAt(m: string, member: Member, depth: nat, rest: string) {
    Terminated(m + rest) && ParseMember(m + rest, depth) == Ok(member, rest)
  }

  ghost predicate ReadsMembers(m: string, ms: seq<Member>, depth: nat) {
    forall rest: string {:trigger ReadsMembersAt(m, ms, depth, rest)} :: Terminated(rest) ==>
        ReadsMembersAt(m, ms, depth, rest)
  }

  ghost predicate ReadsMembersAt(m: string, ms: seq<Member>, depth: nat, rest: string) {
    Terminated(m + rest) && ParseMembers(m + rest, depth) == Ok(ms, rest)
  }

  /** White space, a value and white space again. */
  lemma ElementAround(w: string, m: string, v: string, z: string, x: Json, depth: nat)
    requires Space(w) && Space(z) && Reads(m, x, depth) && v == w + (m + z)
    ensures ReadsElement(v, x, depth)
  {
    forall rest: string | Stops(rest)
      ensures ReadsElementAt(v, x, depth, rest)
    {
      hide ParseValue, SkipWhitespace;
      assert v + rest == w + (m + (z + rest));
      SpaceTerminated(z, rest);
      RoundTrip.HeadOf(m, z + rest);
      assert RoundTrip.Follows(z + rest) && ReadsAt(m, x, depth, z + rest);
      SpaceTerminated(w, m + (z + rest));
      SkipSpace(w, m + (z + rest));
      SkipSpace(z, rest);
    }
  }

  lemma ElementsEnd(m: string, v: string, x: Json, depth: nat)
    requires ReadsElement(m, x, depth) && v == m + "]"
    ensures ReadsElements(v, [x], depth)
  {
    forall rest: string | Terminated(rest)
      ensures ReadsElementsAt(v, [x], depth, rest)
    {
      hide ParseElement, ParseElements, Terminated;
      assert v + rest == m + ("]" + rest);
      RoundTrip.TerminatedText("]", rest);
      RoundTrip.Cons(']', rest);
      assert Stops("]" + rest) && ReadsElementAt(m, x, depth, "]" + rest);
      RoundTrip.LastElement(m + ("]" + rest), depth, true, x, rest);
    }
  }

  lemma ElementsGoOn(m: string, n: string, v: string, x: Json, xs: seq<Json>, depth: nat)
    requires ReadsElement(m, x, depth) && ReadsElements(n, xs, depth) && v == m + ("," + n)
    ensures ReadsElements(v, [x] + xs, depth)
  {
    forall rest: string | Terminated(rest)
      ensures ReadsElementsAt(v, [x] + xs, depth, rest)
    {
      hide ParseElement, ParseElements, Terminated;
      assert v + rest == m + ("," + (n + rest));
      assert ReadsElementsAt(n, xs, depth, rest);
      RoundTrip.TerminatedText(",", n + rest);
      RoundTrip.Cons(',', n + rest);
      assert Stops("," + (n + rest)) && ReadsElementAt(m, x, depth, "," + (n + rest));
      RoundTrip.OneMoreElement(m + ("," + (n + rest)), depth, true, x, n + rest, true, xs, rest);
    }
  }

  lemma MembersEnd(m: string, v: string, x: Member, depth: nat)
    requires ReadsMember(m, x, depth) && v == m + "}"
    ensures ReadsMembers(v, [x], depth)
  {
    forall rest: string | Terminated(rest)
      ensures ReadsMembersAt(v, [x], depth, rest)
    {
      hide ParseMember, ParseMembers, Terminated;
      assert v + rest == m + ("}" + rest);
      RoundTrip.TerminatedText("}", rest);
      RoundTrip.Cons('}', rest);
      assert Stops("}" + rest) && ReadsMemberAt(m, x, depth, "}" + rest);
      RoundTrip.FinalMember(m + ("}" + rest), depth, true, x, rest);
    }
  }

  lemma MembersGoOn(m: string, n: string, v: string, x: Member, xs: seq<Member>, depth: nat)
    requires ReadsMember(m, x, depth) && ReadsMembers(n, xs, depth) && v == m + ("," + n)
    ensures ReadsMembers(v, [x] + xs, depth)
  {
    forall rest: string | Terminated(rest)
      ensures ReadsMembersAt(v, [x] + xs, depth, rest)
    {
      hide ParseMember, ParseMembers, Terminated;
      assert v + rest == m + ("," + (n + rest));
      assert ReadsMembersAt(n, xs, depth, rest);
      RoundTrip.TerminatedText(",", n + rest);
      RoundTrip.Cons(',', n + rest);
      assert Stops("," + (n + rest)) && ReadsMemberAt(m, x, depth, "," + (n + rest));
      RoundTrip.OneMoreMember(m + ("," + (n + rest)), depth, true, x, n + rest, true, xs, rest);
    }
  }

  /** White space, a literal, white space and the colon. */
  lemma NameAround(w: string, c: string, z: string, v: string, name: string)
    requires Space(w) && Space(z) && v == w + (c + (z + ":")) && c != "" && c[0] == '\"' && Clean(c)
    requires forall other: string {:trigger LiteralAt(c, name, other)} :: LiteralAt(c, name, other)
    ensures ReadsName(v, name)
  {
    forall rest: string | Terminated(rest)
      ensures ReadsNameAt(v, name, rest)
    {
      hide ParseString, SkipWhitespace, Terminated;
      var q := ":" + rest;
      assert v + rest == w + (c + (z + q));
      RoundTrip.TerminatedText(":", rest);
      SpaceTerminated(z, q);
      RoundTrip.TerminatedText(c, z + q);
      RoundTrip.HeadOf(c, z + q);
      SpaceTerminated(w, c + (z + q));
      SkipSpace(w, c + (z + q));
      SkipSpace(z, q);
      assert LiteralAt(c, name, z + q);
      RoundTrip.Cons(':', rest);
    }
  }

  lemma MemberOf(m: string, n: string, v: string, name: string, x: Json, depth: nat)
    requires ReadsName(m, name) && ReadsElement(n, x, depth) && v == m + n
    ensures ReadsMember(v, Member(name, x), depth)
  {
    forall rest: string | Stops(rest)
      ensures ReadsMemberAt(v, Member(name, x), depth, rest)
    {
      hide ParseName, ParseElement;
      assert v + rest == m + (n + rest);
      assert ReadsElementAt(n, x, depth, rest);
      assert ReadsNameAt(m, name, n + rest);
    }
  }

  /** An array with nothing in it, and one with elements. */
  lemma ArrayAround(w: string, m: string, v: string, xs: seq<Json>, depth: nat)
    requires Space(w) && depth < NESTING_LIMIT && v == "[" + (w + m)
    requires if xs == [] then m == "]" else ReadsElements(m, xs, depth + 1) && m != "" && RoundTrip.ValueStart(m[0])
    ensures Reads(v, Array(xs), depth)
  {
    forall rest: string | RoundTrip.Follows(rest)
      ensures ReadsAt(v, Array(xs), depth, rest)
    {
      hide ParseElements, ParseArray, ParseValue, SkipWhitespace, Terminated;
      var t := m + rest;
      assert v + rest == "[" + (w + t);
      if xs == [] {
        RoundTrip.TerminatedText(m, rest);
      } else {
        assert ReadsElementsAt(m, xs, depth + 1, rest);
      }
      RoundTrip.HeadOf(m, rest);
      SpaceTerminated(w, t);
      RoundTrip.TerminatedText("[", w + t);
      SkipSpace(w, t);
      RoundTrip.Cons('[', w + t);
      RoundTrip.Dispatch(v + rest, depth);
      ArrayUnfolds(v + rest, depth);
      assert xs == [] ==> t[1..] == rest;
    }
  }

  lemma ObjectAround(w: string, m: string, v: string, xs: seq<Member>, depth: nat)
    requires Space(w) && depth < NESTING_LIMIT && v == "{" + (w + m)
    requires if xs == [] then m == "}" else ReadsMembers(m, xs, depth + 1) && m != "" && m[0] == '\"'
    ensures Reads(v, Object(xs), depth)
  {
    forall rest: string | RoundTrip.Follows(rest)
      ensures ReadsAt(v, Object(xs), depth, rest)
    {
      hide ParseMembers, ParseObject, ParseValue, SkipWhitespace, Terminated;
      var t := m + rest;
      assert v + rest == "{" + (w + t);
      if xs == [] {
        RoundTrip.TerminatedText(m, rest);
      } else {
        assert ReadsMembersAt(m, xs, depth + 1, rest);
      }
      RoundTrip.HeadOf(m, rest);
      SpaceTerminated(w, t);
      RoundTrip.TerminatedText("{", w + t);
      SkipSpace(w, t);
      RoundTrip.Cons('{', w + t);
      RoundTrip.Dispatch(v + rest, depth);
      ObjectUnfolds(v + rest, depth);
      assert xs == [] ==> t[1..] == rest;
    }
  }

  // ----- whatever has been read -----

  /** The branch of the parser a value has come from. */
  lemma ParsedBy(s: string, depth: nat)
    requires Terminated(s) && ParseValue(s, depth).Ok?
    ensures var p := ParseValue(s, depth);
            match p.value
            case Invalid => false
            case String(t) => ParseString(s) == Ok(t, p.rest)
            case Number(n) => ParseNumber(s) == Ok(n, p.rest) && (s[0] == '-' || IsDigit(s[0]))
            case Array(_) => s[0] == '[' && p == ParseArray(s, depth)
            case Object(_) => s[0] == '{' && p == ParseObject(s, depth)
            case _ => StartsWith(s, Render(p.value, false, 0)) && p.rest == s[|Render(p.value, false, 0)|..]
  {
    hide ParseString, ParseNumber, ParseArray, ParseObject;
    if s[0] == '[' {
      ArrayGivesArray(s, depth);
    } else if s[0] == '{' {
      ObjectGivesObject(s, depth);
    }
  }

  lemma ArrayGivesArray(s: string, depth: nat)
    requires Terminated(s) && s[0] == '['
    ensures ParseArray(s, depth).Ok? ==> ParseArray(s, depth).value.Array?
  {
  }

  lemma ObjectGivesObject(s: string, depth: nat)
    requires Terminated(s) && s[0] == '{'
    ensures ParseObject(s, depth).Ok? ==> ParseObject(s, depth).value.Object?
  {
  }

  /** Where one text is split behind another. */
  lemma SplitAt(s: string, c: string)
    requires StartsWith(s, c)
    ensures s == c + s[|c|..]
  {
  }

  lemma LiteralSplit(s: string, text: string, rest: string)
    requires ParseString(s) == Ok(text, rest)
    ensures s == s[..|s| - |rest|] + rest
  {
    hide ScanString, Unescape, CString;
  }

  lemma NumberSplit(s: string, n: int, rest: string)
    requires ParseNumber(s) == Ok(n, rest)
    ensures s == s[..|s| - |rest|] + rest
  {
    hide ReadNumber, NumberLength;
  }

  /** Text that has been read, c, is minified to m, and that reads as the same value. */
  ghost predicate ValueKept(s: string, depth: nat, c: string, m: string)
    requires Terminated(s)
  {
    var p := ParseValue(s, depth);
    p.Ok? && s == c + p.rest && Shrinks(c, m) && Reads(m, p.value, depth)
  }

  lemma {:induction false} ValueToken(s: string, depth: nat) returns (c: string, m: string)
    requires Terminated(s) && ParseValue(s, depth).Ok?
    ensures ValueKept(s, depth, c, m)
    decreases |s|, 1
  {
    hide ParseValue, ParseString, ParseNumber, ParseArray, ParseObject, Shrinks, Reads, StartsWith;
    var p := ParseValue(s, depth);
    ParsedBy(s, depth);
    if p.value.String? {
      LiteralSplit(s, p.value.s, p.rest);
      StringLeavesZero(s);
      c := s[..|s| - |p.rest|];
      ReadIsClean(c, p.rest);
      ReadsLiteral(s, c, p.value.s, p.rest, depth);
      m := c;
    } else if p.value.Number? {
      NumberSplit(s, p.value.n, p.rest);
      c := s[..|s| - |p.rest|];
      ReadsNumber(s, c, p.value.n, p.rest, depth);
      m := c;
    } else if p.value.Array? {
      c, m := ArrayToken(s, depth);
    } else if p.value.Object? {
      c, m := ObjectToken(s, depth);
    } else {
      c := Render(p.value, false, 0);
      SplitAt(s, c);
      ReadsWord(p.value, depth);
      m := c;
    }
  }

  /** An opening bracket, white space and what is inside. */
  lemma {:induction false} Opened(bracket: char, w: string, c: string, v: string, m: string)
      returns (d: string, n: string)
    requires Ordinary(bracket) && Shrinks(w, v) && Shrinks(c, m)
    ensures d == [bracket] + (w + c) && n == [bracket] + (v + m) && Shrinks(d, n)
  {
    hide Shrinks;
    d, n := [bracket] + (w + c), [bracket] + (v + m);
    ShrinksCharacter(bracket);
    ShrinksBoth(w, v, c, m);
    ShrinksBoth([bracket], [bracket], w + c, v + m);
  }

  lemma OpenedGlue(s: string, w: string, t: string, c: string, rest: string)
    requires s != "" && s[1..] == w + t && t == c + rest
    ensures s == ([s[0]] + (w + c)) + rest
  {
    assert s == [s[0]] + s[1..];
  }

  lemma {:induction false} ArrayToken(s: string, depth: nat) returns (c: string, m: string)
    requires Terminated(s) && s[0] == '[' && ParseArray(s, depth).Ok? && ParseValue(s, depth) == ParseArray(s, depth)
    ensures ValueKept(s, depth, c, m)
    decreases |s|, 0
  {
    hide ParseValue, ParseArray, ParseElements, Shrinks, Reads, ReadsElements, Controls, Space, SkipWhitespace;
    TerminatedTail(s, 1);
    ArrayUnfolds(s, depth);
    var w := SplitSpace(s[1..]);
    var t := SkipWhitespace(s[1..]);
    var rest := ParseArray(s, depth).rest;
    var c1, m1, xs := "]", "]", [];
    if t[0] == ']' {
      ShrinksWord("]");
      RoundTrip.Cons(']', t[1..]);
      assert t == "]" + rest;
    } else {
      c1, m1 := ElementsToken(t, depth + 1);
      xs := ParseElements(t, depth + 1).value;
    }
    ShrinksSpace(w);
    c, m := Opened('[', w, c1, Controls(w), m1);
    ArrayAround(Controls(w), m1, m, xs, depth);
    OpenedGlue(s, w, t, c1, rest);
  }

  lemma Glue(s: string, w: string, t: string, c: string, u: string, z: string, rest: string)
    requires s == w + t && t == c + u && u == z + rest
    ensures s == (w + (c + z)) + rest
  {
  }

  lemma {:induction false} ElementToken(s: string, depth: nat) returns (c: string, m: string)
    requires Terminated(s) && ParseElement(s, depth).Ok?
    ensures var p := ParseElement(s, depth); s == c + p.rest && Shrinks(c, m) && ReadsElement(m, p.value, depth)
    ensures s[0] as int > 32 ==> m != "" && RoundTrip.ValueStart(m[0])
    decreases |s|, 2
  {
    hide ParseValue, Shrinks, ReadsElement, Terminated, SkipWhitespace, Reads, Controls, Space;
    var w := SplitSpace(s);
    var t := SkipWhitespace(s);
    var v := ParseValue(t, depth);
    var c1, m1 := ValueToken(t, depth);
    var z := SplitSpace(v.rest);
    ShrinksSpace(w);
    ShrinksSpace(z);
    c, m := w + (c1 + z), Controls(w) + (m1 + Controls(z));
    ShrinksBoth(c1, m1, z, Controls(z));
    ShrinksBoth(w, Controls(w), c1 + z, m1 + Controls(z));
    ElementAround(Controls(w), m1, m, Controls(z), v.value, depth);
    Glue(s, w, t, c1, v.rest, z, SkipWhitespace(v.rest));
    StartKept(s, w, m1, Controls(z), v.value, depth);
  }

  /** With no white space in front the minified text starts with the value. */
  lemma StartKept(s: string, w: string, m: string, z: string, v: Json, depth: nat)
    requires s != "" && s == w + SkipWhitespace(s) && Reads(m, v, depth)
    ensures s[0] as int > 32 ==> Controls(w) + (m + z) != "" && RoundTrip.ValueStart((Controls(w) + (m + z))[0])
  {
    if s[0] as int > 32 {
      RoundTrip.SkipNothing(s);
      assert w == "" && Controls(w) + (m + z) == m + z;
      RoundTrip.HeadOf(m, z);
    }
  }

  /** One piece of a list, and what is left of the list. */
  lemma ElementsOpen(s: string, depth: nat)
    requires Terminated(s) && ParseElements(s, depth).Ok?
    ensures var p, e := ParseElements(s, depth), ParseElement(s, depth);
            && e.Ok? && (e.rest[0] == ',' || e.rest[0] == ']') && Terminated(e.rest[1..])
            && if e.rest[0] == ',' then
                 var q := ParseElements(e.rest[1..], depth);
                 q.Ok? && p == Ok([e.value] + q.value, q.rest)
               else p == Ok([e.value], e.rest[1..])
  {
    hide ParseElement;
    var e := ParseElement(s, depth);
    if e.Ok? && (e.rest[0] == ',' || e.rest[0] == ']') {
      TerminatedTail(e.rest, 1);
    }
  }

  lemma MembersOpen(s: string, depth: nat)
    requires Terminated(s) && ParseMembers(s, depth).Ok?
    ensures var p, e := ParseMembers(s, depth), ParseMember(s, depth);
            && e.Ok? && (e.rest[0] == ',' || e.rest[0] == '}') && Terminated(e.rest[1..])
            && if e.rest[0] == ',' then
                 var q := ParseMembers(e.rest[1..], depth);
                 q.Ok? && p == Ok([e.value] + q.value, q.rest)
               else p == Ok([e.value], e.rest[1..])
  {
    hide ParseMember;
    var e := ParseMember(s, depth);
    if e.Ok? && (e.rest[0] == ',' || e.rest[0] == '}') {
      TerminatedTail(e.rest, 1);
    }
  }

  lemma {:induction false} ElementsToken(s: string, depth: nat) returns (c: string, m: string)
    requires Terminated(s) && ParseElements(s, depth).Ok?
    ensures var p := ParseElements(s, depth);
            s == c + p.rest && p.value != [] && Shrinks(c, m) && ReadsElements(m, p.value, depth)
    ensures s[0] as int > 32 ==> m != "" && RoundTrip.ValueStart(m[0])
    decreases |s|, 3
  {
    hide ParseElement, ParseElements, Shrinks, ReadsElement, ReadsElements;
    ElementsOpen(s, depth);
    var e := ParseElement(s, depth);
    var c1, m1 := ElementToken(s, depth);
    var head := [e.rest[0]];
    ShrinksWord(head);
    assert e.rest == head + e.rest[1..];
    if e.rest[0] == ',' {
      var c2, m2 := ElementsToken(e.rest[1..], depth);
      c, m := c1 + ("," + c2), m1 + ("," + m2);
      ShrinksBoth(",", ",", c2, m2);
      ShrinksBoth(c1, m1, "," + c2, "," + m2);
      ElementsGoOn(m1, m2, m, e.value, ParseElements(e.rest[1..], depth).value, depth);
    } else {
      c, m := c1 + "]", m1 + "]";
      ShrinksBoth(c1, m1, "]", "]");
      ElementsEnd(m1, m, e.value, depth);
    }
  }

  lemma {:induction false} ObjectToken(s: string, depth: nat) returns (c: string, m: string)
    requires Terminated(s) && s[0] == '{' && ParseObject(s, depth).Ok? && ParseValue(s, depth) == ParseObject(s, depth)
    ensures ValueKept(s, depth, c, m)
    decreases |s|, 0
  {
    hide ParseValue, ParseObject, ParseMembers, Shrinks, Reads, ReadsMembers, Controls, Space, SkipWhitespace;
    TerminatedTail(s, 1);
    ObjectUnfolds(s, depth);
    var w := SplitSpace(s[1..]);
    var t := SkipWhitespace(s[1..]);
    var rest := ParseObject(s, depth).rest;
    var c1, m1, xs := "}", "}", [];
    if t[0] == '}' {
      ShrinksWord("}");
      RoundTrip.Cons('}', t[1..]);
      assert t == "}" + rest;
    } else {
      c1, m1 := MembersToken(t, depth + 1);
      xs := ParseMembers(t, depth + 1).value;
    }
    ShrinksSpace(w);
    c, m := Opened('{', w, c1, Controls(w), m1);
    ObjectAround(Controls(w), m1, m, xs, depth);
    OpenedGlue(s, w, t, c1, rest);
  }

  lemma {:induction false} NameToken(s: string) returns (c: string, m: string)
    requires Terminated(s) && ParseName(s).Ok?
    ensures var p := ParseName(s); s == c + p.rest && Shrinks(c, m) && ReadsName(m, p.value)
    ensures s[0] as int > 32 ==> m != "" && m[0] == '\"'
  {
    hide ParseString, Shrinks, ReadsName, Terminated, SkipWhitespace, Controls, Space, Clean, LiteralAt;
    var w := SplitSpace(s);
    var t := SkipWhitespace(s);
    var p := ParseString(t);
    LiteralSplit(t, p.value, p.rest);
    StringLeavesZero(t);
    var l := t[..|t| - |p.rest|];
    ReadIsClean(l, p.rest);
    LiteralToken(t, l, p.value, p.rest);
    var z := SplitSpace(p.rest);
    var u := SkipWhitespace(p.rest);
    assert u[0] == ':' && u == ":" + u[1..];
    ShrinksSpace(w);
    ShrinksSpace(z);
    ShrinksWord(":");
    c, m := w + (l + (z + ":")), Controls(w) + (l + (Controls(z) + ":"));
    ShrinksBoth(z, Controls(z), ":", ":");
    ShrinksBoth(l, l, z + ":", Controls(z) + ":");
    ShrinksBoth(w, Controls(w), l + (z + ":"), l + (Controls(z) + ":"));
    NameAround(Controls(w), l, Controls(z), m, p.value);
    Glue(s, w, t, l, p.rest, z, u);
    GlueColon(w, l, z, u[1..]);
    NameStartKept(s, w, l, Controls(z) + ":");
  }

  lemma GlueColon(w: string, l: string, z: string, rest: string)
    ensures (w + (l + z)) + (":" + rest) == (w + (l + (z + ":"))) + rest
  {
  }

  lemma NameStartKept(s: string, w: string, l: string, z: string)
    requires s != "" && s == w + SkipWhitespace(s) && l != "" && l[0] == '\"'
    ensures s[0] as int > 32 ==> Controls(w) + (l + z) != "" && (Controls(w) + (l + z))[0] == '\"'
  {
    if s[0] as int > 32 {
      RoundTrip.SkipNothing(s);
      assert w == "" && Controls(w) + (l + z) == l + z;
      RoundTrip.HeadOf(l, z);
    }
  }

  lemma {:induction false} MemberToken(s: string, depth: nat) returns (c: string, m: string)
    requires Terminated(s) && ParseMember(s, depth).Ok?
    ensures var p := ParseMember(s, depth); s == c + p.rest && Shrinks(c, m) && ReadsMember(m, p.value, depth)
    ensures s[0] as int > 32 ==> m != "" && m[0] == '\"'
    decreases |s|, 2
  {
    hide ParseName, ParseElement, Shrinks, ReadsName, ReadsElement, ReadsMember;
    var q := ParseName(s);
    var c1, m1 := NameToken(s);
    var c2, m2 := ElementToken(q.rest, depth);
    c, m := c1 + c2, m1 + m2;
    ShrinksBoth(c1, m1, c2, m2);
    MemberOf(m1, m2, m, q.value, ParseElement(q.rest, depth).value, depth);
    assert s == c + ParseElement(q.rest, depth).rest;
  }

  lemma {:induction false} MembersToken(s: string, depth: nat) returns (c: string, m: string)
    requires Terminated(s) && ParseMembers(s, depth).Ok?
    ensures var p := ParseMembers(s, depth);
            s == c + p.rest && p.value != [] && Shrinks(c, m) && ReadsMembers(m, p.value, depth)
    ensures s[0] as int > 32 ==> m != "" && m[0] == '\"'
    decreases |s|, 3
  {
    hide ParseMember, ParseMembers, Shrinks, ReadsMember, ReadsMembers;
    MembersOpen(s, depth);
    var e := ParseMember(s, depth);
    var c1, m1 := MemberToken(s, depth);
    var head := [e.rest[0]];
    ShrinksWord(head);
    assert e.rest == head + e.rest[1..];
    if e.rest[0] == ',' {
      var c2, m2 := MembersToken(e.rest[1..], depth);
      c, m := c1 + ("," + c2), m1 + ("," + m2);
      ShrinksBoth(",", ",", c2, m2);
      ShrinksBoth(c1, m1, "," + c2, "," + m2);
      MembersGoOn(m1, m2, m, e.value, ParseMembers(e.rest[1..], depth).value, depth);
    } else {
      c, m := c1 + "}", m1 + "}";
      ShrinksBoth(c1, m1, "}", "}");
      MembersEnd(m1, m, e.value, depth);
    }
  }

  // ----- documents -----

  /** One turn of the minifier: what it goes past, and what of that it keeps. */
  lemma {:induction false} MinifyStep(s: string) returns (n: nat, kept: string)
    requires s != "" && Minify(s).Some?
    ensures 0 < n <= |s| && Minify(s[n..]).Some? && Minify(s) == Prepend(kept, Minify(s[n..]))
    ensures kept == "" || kept == s[..n]
  {
    hide ScanString, CommentLength;
    kept := "";
    if Blank(s[0]) {
      n := 1;
    } else if s[0] == '/' && At(s, 1) == '/' {
      n := LineLength(s);
    } else if s[0] == '/' && At(s, 1) == '*' {
      n := CommentLength(s).value;
    } else if s[0] == '\"' {
      n := ScanString(s[1..]).value + 2;
      kept := s[..n];
    } else {
      n := 1;
      kept := [s[0]];
      assert kept == s[..n];
    }
    assert "" + Minify(s[n..]).value == Minify(s[n..]).value;
  }

  /** What minifying leaves consists of characters that were there. */
  lemma {:induction false} MinifyNulFree(s: string)
    requires NulFree(s) && Minify(s).Some?
    ensures NulFree(Minify(s).value)
    decreases |s|
  {
    hide Minify;
    if s == "" {
      MinifyNothing();
    } else {
      var n, kept := MinifyStep(s);
      NulFreeParts(s, n);
      MinifyNulFree(s[n..]);
    }
  }

  lemma MinifyNothing()
    ensures Minify("") == Some("")
  {
  }

  lemma NulFreeParts(s: string, n: nat)
    requires NulFree(s) && n <= |s|
    ensures NulFree(s[..n]) && NulFree(s[n..])
  {
  }

  /** How an accepted document has been read. */
  lemma DocumentOpen(text: string)
    requires NulFree(text) && ParseDocument(text, true).Some?
    ensures var s := SkipBom(text + ['\0']);
            && Terminated(s) && Terminated(SkipWhitespace(s))
            && var p := ParseValue(SkipWhitespace(s), 0);
               p.Ok? && ParseDocument(text, true) == Some(p.value) && SkipWhitespace(p.rest)[0] == '\0'
  {
    hide ParseValue, SkipWhitespace, SkipBom, Terminated;
    BomTerminated(text);
    SkipTerminated(SkipBom(text + ['\0']));
  }

  lemma {:induction false} DocumentMark(text: string) returns (mark: string)
    ensures (mark == "" || mark == BOM) && text + ['\0'] == mark + SkipBom(text + ['\0'])
  {
    var s := text + ['\0'];
    mark := if |s| > 4 && BOM <= s then BOM else "";
    assert mark == BOM ==> s == s[..3] + s[3..] && s[..3] == BOM;
  }

  lemma DocumentText(text: string, mark: string, s: string, middle: string)
    requires text + ['\0'] == mark + s && s == middle + "\0"
    ensures text == mark + middle
  {
    assert text == (text + ['\0'])[..|text|] && mark + s == (mark + middle) + "\0";
  }

  /** A document as the parser sees it: a mark or none, white space, a value, white space, the end. */
  lemma {:induction false} DocumentParts(text: string)
      returns (mark: string, w: string, c: string, m: string, z: string)
    requires NulFree(text) && ParseDocument(text, true).Some?
    ensures text == mark + (w + (c + z)) && (mark == "" || mark == BOM) && Space(w) && Space(z)
    ensures Shrinks(c, m) && Reads(m, ParseDocument(text, true).value, 0)
  {
    hide ParseDocument, ParseValue, Shrinks, Reads, SkipWhitespace, SkipBom, Space, Terminated;
    DocumentOpen(text);
    mark := DocumentMark(text);
    var s := SkipBom(text + ['\0']);
    w := SplitSpace(s);
    var t := SkipWhitespace(s);
    c, m := ValueToken(t, 0);
    var rest := ParseValue(t, 0).rest;
    z := SplitSpace(rest);
    Glue(s, w, t, c, rest, z, "\0");
    DocumentText(text, mark, s, w + (c + z));
  }

  lemma MarkShrinks()
    ensures Shrinks(BOM, BOM)
  {
    assert BOM[0] == '\U{EF}' && BOM[1] == '\U{BB}' && BOM[2] == '\U{BF}';
    ShrinksWord(BOM);
  }

  lemma EndFollows(z: string)
    requires Space(z)
    ensures RoundTrip.Follows(z + "\0")
  {
    var s := z + "\0";
    assert z != "" ==> s[0] == z[0];
    assert z == "" ==> s[0] == '\0';
    assert s[|s| - 1] == '\0';
  }

  /** Such parts, minified, read as the same document. */
  lemma DocumentReads(mark: string, w: string, m: string, z: string, v: Json)
    requires (mark == "" || mark == BOM) && Space(w) && Space(z) && Reads(m, v, 0)
    requires NulFree(mark + (w + (m + z)))
    ensures ParseDocument(mark + (w + (m + z)), true) == Some(v)
  {
    hide ParseValue, SkipWhitespace;
    var text := mark + (w + (m + z));
    var t := m + (z + "\0");
    assert text + ['\0'] == mark + (w + t);
    assert BOM[0] == '\U{EF}' && |BOM| == 3;
    RoundTrip.HeadOf(m, z + "\0");
    assert SkipBom(text + ['\0']) == w + t by {
      assert (w + t)[0] != BOM[0];
      assert mark == BOM ==> (mark + (w + t))[3..] == w + t;
    }
    SkipSpace(w, t);
    assert Terminated("\0");
    SpaceTerminated(z, "\0");
    EndFollows(z);
    assert ReadsAt(m, v, 0, z + "\0");
    SkipSpace(z, "\0");
    BomTerminated(text);
    SkipTerminated(w + t);
  }

  /** Minifying any document that is accepted to its end gives a document that reads the same. */
  lemma MinifyKeepsDocument(text: string)
    requires NulFree(text) && ParseDocument(text, true).Some?
    ensures var m := Minify(text);
            m.Some? && NulFree(m.value) && ParseDocument(m.value, true) == ParseDocument(text, true)
  {
    hide Minify, Shrinks, Reads, ParseDocument;
    var mark, w, c, m, z := DocumentParts(text);
    ShrinksSpace(w);
    ShrinksSpace(z);
    ShrinksNothing();
    MarkShrinks();
    var small := mark + (Controls(w) + (m + Controls(z)));
    ShrinksBoth(c, m, z, Controls(z));
    ShrinksBoth(w, Controls(w), c + z, m + Controls(z));
    ShrinksBoth(mark, mark, w + (c + z), Controls(w) + (m + Controls(z)));
    ShrunkAlone(text, small);
    MinifyNulFree(text);
    DocumentReads(mark, Controls(w), m, Controls(z), ParseDocument(text, true).value);
  }

  lemma ShrunkAlone(text: string, small: string)
    requires Shrinks(text, small)
    ensures Minify(text) == Some(small)
  {
    assert text + "" == text && small + "" == small;
    assert Minify("") == Some("");
  }

  /** Text behind the value does matter: two numbers can become one. */
  lemma MinifyJoinsNumbers()
    ensures ParseDocument("1 2", false) == Some(Number(1))
    ensures Minify("1 2") == Some("12") && ParseDocument("12", false) == Some(Number(12))
  {
    hide ParseDocument, Minify;
    assert Decimal(1) == "1" && Decimal(12) == "12";
    RoundTrip.PrintParse(Number(12), false, false);
    Joined();
    OneThenTwo();
  }

  lemma Joined()
    ensures Minify("1 2") == Some("12")
  {
    hide Minify, Shrinks;
    ShrinksWord("1");
    ShrinksBlank(' ');
    ShrinksWord("2");
    ShrinksBoth(" ", "", "2", "2");
    assert "" + "2" == "2" && " " + "2" == " 2" && "1" + " 2" == "1 2" && "1" + "2" == "12";
    ShrinksBoth("1", "1", " 2", "2");
    ShrunkAlone("1 2", "12");
  }

  lemma OneThenTwo()
    ensures ParseDocument("1 2", false) == Some(Number(1))
  {
    hide ParseValue;
    var s := "1 2" + ['\0'];
    assert s == "1" + " 2\0" && Terminated(" 2\0");
    assert Decimal(1) == "1" && Render(Number(1), false, 0) == "1";
    RoundTrip.ParsePrintedValue(Number(1), false, 0, " 2\0", 0);
    assert BOM[0] == '\U{EF}' && SkipBom(s) == s;
    RoundTrip.SkipNothing(s);
  }
}
