/** What the recursive-descent parser accepts and returns. The functions take the text that is left, which always ends
    in the terminating zero; that counts as readable input. */
module ParserGrammar {
  import opened CStrings
  import opened JsonTree
  import opened Decimals
  import opened Pointers
  import opened Patching
  import opened Utf8
  import opened Rendering

  const NESTING_LIMIT: nat := 1000

  datatype Parsed<+T> = Fail | Ok(value: T, rest: string)

  /** Input as the parse buffer holds it. */
  ghost predicate Terminated(s: string) {
    s != [] && s[|s| - 1] == '\0' && forall i :: 0 <= i < |s| - 1 ==> s[i] != '\0'
  }

  lemma TerminatedTail(s: string, n: nat)
    requires Terminated(s) && n < |s|
    ensures Terminated(s[n..])
  {
  }

  /** buffer_skip_whitespace: everything up to the space character counts, the terminator too, but the
      last byte is never passed. */
  function SkipWhitespace(s: string): (r: string)
    requires s != []
    ensures r != [] && |r| <= |s|
  {
    if s[0] as int <= 32 && |s| > 1 then SkipWhitespace(s[1..]) else s
  }

  lemma {:induction false} SkipTerminated(s: string)
    requires Terminated(s)
    ensures Terminated(SkipWhitespace(s))
  {
    if s[0] as int <= 32 && |s| > 1 {
      TerminatedTail(s, 1);
      SkipTerminated(s[1..]);
    }
  }

  // ----- numbers -----

  predicate NumberCharacter(c: char) {
    IsDigit(c) || c == '+' || c == '-' || c == 'e' || c == 'E' || c == '.'
  }

  /** How much of the input is copied out for strtod. */
  function NumberLength(s: string, room: nat): (n: nat)
    ensures n <= |s| && n <= room
  {
    if room == 0 || s == [] || !NumberCharacter(s[0]) then 0 else 1 + NumberLength(s[1..], room - 1)
  }

  function DigitRun(s: string): (n: nat)
    ensures n <= |s| && forall i :: 0 <= i < n ==> IsDigit(s[i])
    ensures n < |s| ==> !IsDigit(s[n])
  {
    if s == [] || !IsDigit(s[0]) then 0 else 1 + DigitRun(s[1..])
  }

  /** A number read and how many characters it took. */
  datatype Reading = Reading(value: int, length: nat)

  /** strtod on integers. Text that goes on with a fraction or an exponent is outside the model and reads
      as nothing here. */
  function ReadNumber(token: string): (r: Option<Reading>)
    ensures r.Some? ==> 0 < r.value.length <= |token|
  {
    var negative := token != [] && token[0] == '-';
    var digits := if token != [] && (token[0] == '-' || token[0] == '+') then token[1..] else token;
    var n := DigitRun(digits);
    if n == 0 || (n < |digits| && (digits[n] == '.' || digits[n] == 'e' || digits[n] == 'E')) then None
    else
      var magnitude: int := ValueFrom(0, digits[..n]);
      Some(Reading(if negative then -magnitude else magnitude, |token| - |digits| + n))
  }

  /** parse_number. */
  function ParseNumber(s: string): (r: Parsed<int>)
    ensures r.Ok? ==> |r.rest| < |s|
  {
    match ReadNumber(s[..NumberLength(s, 63)])
    case None => Fail
    case Some(reading) => Ok(reading.value, s[reading.length..])
  }

  // ----- strings -----

  /** First pass: how many characters precede the closing quote, each backslash taking the next
      character along. */
  function ScanString(s: string): (r: Option<nat>)
    ensures r.Some? ==> r.value < |s| && s[r.value] == '\"'
  {
    if s == [] then None
    else if s[0] == '\"' then Some(0)
    else if s[0] == '\\' then
      if |s| < 2 then None else Further(2, ScanString(s[2..]))
    else Further(1, ScanString(s[1..]))
  }

  /** The bytes the first pass reserves: one for each character and one for each escape. */
  function Units(s: string): nat {
    if s == [] || s[0] == '\"' then 0
    else if s[0] == '\\' then
      if |s| < 2 then 0 else 1 + Units(s[2..])
    else 1 + Units(s[1..])
  }

  function Further(n: nat, r: Option<nat>): Option<nat> {
    match r case None => None case Some(k) => Some(n + k)
  }

  /** One turn of the first pass, and its end. */
  lemma ScanStep(s: string, i: nat)
    requires i < |s| && s[i] != '\"'
    ensures var n := if s[i] == '\\' then 2 else 1;
            if i + n > |s| then ScanString(s[i..]) == None
            else ScanString(s[i..]) == Further(n, ScanString(s[i + n..])) && Units(s[i..]) == 1 + Units(s[i + n..])
  {
    var n := if s[i] == '\\' then 2 else 1;
    if i + n <= |s| {
      assert s[i..][n..] == s[i + n..];
    }
  }

  lemma ScanEnd(s: string, i: nat)
    requires i <= |s| && (i < |s| ==> s[i] == '\"')
    ensures ScanString(s[i..]) == (if i < |s| then Some(0) else None) && Units(s[i..]) == 0
  {
  }

  function SimpleEscape(c: char): Option<char> {
    if c == 'b' then Some(BACKSPACE)
    else if c == 'f' then Some(FORMFEED)
    else if c == 'n' then Some('\n')
    else if c == 'r' then Some('\r')
    else if c == 't' then Some('\t')
    else if c == '\"' || c == '\\' || c == '/' then Some(c)
    else None
  }

  function Prepend(a: string, r: Option<string>): Option<string> {
    match r case None => None case Some(b) => Some(a + b)
  }

  /** One turn of the second pass, n characters before the closing quote: how much it reads and what it
      writes. Length zero is failure. An escape may take the quote along, as the two passes need not
      agree on where escapes begin. */
  function Turn(s: string, n: nat): (r: Literal)
    requires 0 < n < |s|
    ensures r.length <= n || (n == 1 && r.length == 2)
  {
    if s[0] != '\\' then Literal(1, [s[0]])
    else
      match SimpleEscape(s[1])
      case Some(c) => Literal(2, [c])
      case None => if s[1] == 'u' then Utf16LiteralToUtf8(s[..n]) else Failure
  }

  /** Second pass over the n characters before the closing quote. */
  function Unescape(s: string, n: nat): Option<string>
    requires n < |s|
    decreases n
  {
    if n == 0 then Some("")
    else
      var t := Turn(s, n);
      if t.length == 0 then None
      else Prepend(t.bytes, if t.length > n then Some("") else Unescape(s[t.length..], n - t.length))
  }

  /** parse_string. The value is a C string: a zero byte from \u0000 ends it. */
  function ParseString(s: string): (r: Parsed<string>)
    ensures r.Ok? ==> |r.rest| < |s|
  {
    if s == [] || s[0] != '\"' then Fail
    else
      match ScanString(s[1..])
      case None => Fail
      case Some(n) =>
        match Unescape(s[1..], n)
        case None => Fail
        case Some(bytes) => Ok(CString(bytes), s[n + 2..])
  }

  // ----- values -----

  predicate StartsWith(s: string, word: string) {
    |word| <= |s| && s[..|word|] == word
  }

  /** parse_value; depth counts the arrays and objects around. */
  function ParseValue(s: string, depth: nat): (r: Parsed<Json>)
    requires Terminated(s)
    ensures r.Ok? ==> |r.rest| < |s| && Terminated(r.rest)
    decreases |s|, 1
  {
    if StartsWith(s, "null") then Word(s, 4, Null)
    else if StartsWith(s, "false") then Word(s, 5, False)
    else if StartsWith(s, "true") then Word(s, 4, True)
    else if s[0] == '\"' then
      (match ParseString(s)
       case Fail => Fail
       case Ok(text, rest) => StringLeavesZero(s); Ok(String(text), rest))
    else if s[0] == '-' || IsDigit(s[0]) then
      (match ParseNumber(s)
       case Fail => Fail
       case Ok(n, rest) => NumberLeavesZero(s); Ok(Number(n), rest))
    else if s[0] == '[' then ParseArray(s, depth)
    else if s[0] == '{' then ParseObject(s, depth)
    else Fail
  }

  function Word(s: string, n: nat, v: Json): (r: Parsed<Json>)
    requires Terminated(s) && 0 < n <= |s| && forall i :: 0 <= i < n ==> s[i] != '\0'
    ensures r.Ok? ==> |r.rest| < |s| && Terminated(r.rest)
  {
    TerminatedTail(s, n);
    Ok(v, s[n..])
  }

  /** A parsed string or number leaves at least the terminator. */
  lemma StringLeavesZero(s: string)
    requires Terminated(s)
    ensures ParseString(s).Ok? ==> Terminated(ParseString(s).rest)
  {
    var r := ParseString(s);
    if r.Ok? {
      TerminatedTail(s, |s| - |r.rest|);
    }
  }

  lemma NumberLeavesZero(s: string)
    requires Terminated(s)
    ensures ParseNumber(s).Ok? ==> Terminated(ParseNumber(s).rest)
  {
    NumberKeepsZero(s, 63);
    var r := ParseNumber(s);
    if r.Ok? {
      TerminatedTail(s, |s| - |r.rest|);
    }
  }

  lemma {:induction false} NumberKeepsZero(s: string, room: nat)
    requires s != [] && s[|s| - 1] == '\0'
    ensures NumberLength(s, room) < |s|
  {
    if |s| > 1 && room > 0 {
      NumberKeepsZero(s[1..], room - 1);
    }
  }

  function ParseArray(s: string, depth: nat): (r: Parsed<Json>)
    requires Terminated(s) && s[0] == '['
    ensures r.Ok? ==> |r.rest| < |s| && Terminated(r.rest)
    decreases |s|, 0
  {
    if depth >= NESTING_LIMIT then Fail
    else
      TerminatedTail(s, 1);
      SkipTerminated(s[1..]);
      var t := SkipWhitespace(s[1..]);
      if t[0] == ']' then TerminatedTail(t, 1); Ok(Array([]), t[1..])
      else
        match ParseElements(t, depth + 1)
        case Fail => Fail
        case Ok(items, rest) => Ok(Array(items), rest)
  }

  /** One value with the whitespace around it. */
  function ParseElement(s: string, depth: nat): (r: Parsed<Json>)
    requires Terminated(s)
    ensures r.Ok? ==> |r.rest| < |s| && Terminated(r.rest)
    decreases |s|, 2
  {
    SkipTerminated(s);
    match ParseValue(SkipWhitespace(s), depth)
    case Fail => Fail
    case Ok(v, r) => SkipTerminated(r); Ok(v, SkipWhitespace(r))
  }

  datatype Piece<+T> = Piece(value: T, more: bool)

  /** A comma after a piece announces another; the closing bracket must follow the last. */
  function Punctuated<T>(piece: Parsed<T>, close: char): (r: Parsed<Piece<T>>)
    requires piece.Ok? ==> Terminated(piece.rest)
    requires close != '\0'
    ensures r.Ok? ==> piece.Ok? && |r.rest| < |piece.rest| && Terminated(r.rest)
  {
    match piece
    case Fail => Fail
    case Ok(v, t) =>
      if t[0] == ',' || t[0] == close then TerminatedTail(t, 1); Ok(Piece(v, t[0] == ','), t[1..])
      else Fail
  }

  /** The elements after an opening bracket or a comma, with the closing bracket. */
  function ParseElements(s: string, depth: nat): (r: Parsed<seq<Json>>)
    requires Terminated(s)
    ensures r.Ok? ==> |r.rest| < |s| && Terminated(r.rest)
    decreases |s|, 3
  {
    match Punctuated(ParseElement(s, depth), ']')
    case Fail => Fail
    case Ok(piece, t) =>
      if !piece.more then Ok([piece.value], t)
      else
        match ParseElements(t, depth)
        case Fail => Fail
        case Ok(vs, rest) => Ok([piece.value] + vs, rest)
  }

  function ParseObject(s: string, depth: nat): (r: Parsed<Json>)
    requires Terminated(s) && s[0] == '{'
    ensures r.Ok? ==> |r.rest| < |s| && Terminated(r.rest)
    decreases |s|, 0
  {
    if depth >= NESTING_LIMIT then Fail
    else
      TerminatedTail(s, 1);
      SkipTerminated(s[1..]);
      var t := SkipWhitespace(s[1..]);
      if t[0] == '}' then TerminatedTail(t, 1); Ok(Object([]), t[1..])
      else
        match ParseMembers(t, depth + 1)
        case Fail => Fail
        case Ok(ms, rest) => Ok(Object(ms), rest)
  }

  /** The name of a member and its colon; what is left is past the colon. */
  function ParseName(s: string): (r: Parsed<string>)
    requires Terminated(s)
    ensures r.Ok? ==> |r.rest| < |s| && Terminated(r.rest)
  {
    SkipTerminated(s);
    match ParseString(SkipWhitespace(s))
    case Fail => Fail
    case Ok(name, r) =>
      StringLeavesZero(SkipWhitespace(s));
      SkipTerminated(r);
      var t := SkipWhitespace(r);
      if t[0] == ':' then TerminatedTail(t, 1); Ok(name, t[1..]) else Fail
  }

  /** One member, name and value. */
  function ParseMember(s: string, depth: nat): (r: Parsed<Member>)
    requires Terminated(s)
    ensures r.Ok? ==> |r.rest| < |s| && Terminated(r.rest)
    decreases |s|, 2
  {
    match ParseName(s)
    case Fail => Fail
    case Ok(name, q) =>
      match ParseElement(q, depth)
      case Fail => Fail
      case Ok(v, t) => Ok(Member(name, v), t)
  }

  /** The members after an opening brace or a comma, with the closing brace. */
  function ParseMembers(s: string, depth: nat): (r: Parsed<seq<Member>>)
    requires Terminated(s)
    ensures r.Ok? ==> |r.rest| < |s| && Terminated(r.rest)
    decreases |s|, 3
  {
    match Punctuated(ParseMember(s, depth), '}')
    case Fail => Fail
    case Ok(piece, t) =>
      if !piece.more then Ok([piece.value], t)
      else
        match ParseMembers(t, depth)
        case Fail => Fail
        case Ok(ms, rest) => Ok([piece.value] + ms, rest)
  }

  /** What an array and an object come to, bracket by bracket. */
  lemma ArrayUnfolds(s: string, depth: nat)
    requires Terminated(s) && s[0] == '[' && Terminated(s[1..])
    ensures var t := SkipWhitespace(s[1..]);
            && Terminated(t)
            && ParseArray(s, depth) ==
               if depth >= NESTING_LIMIT then Fail
               else if t[0] == ']' then Ok(Array([]), t[1..])
               else ArrayOf(ParseElements(t, depth + 1))
  {
    hide ParseElements, SkipWhitespace;
    SkipTerminated(s[1..]);
  }

  function ArrayOf(r: Parsed<seq<Json>>): Parsed<Json> {
    match r case Fail => Fail case Ok(items, rest) => Ok(Array(items), rest)
  }

  lemma ObjectUnfolds(s: string, depth: nat)
    requires Terminated(s) && s[0] == '{' && Terminated(s[1..])
    ensures var t := SkipWhitespace(s[1..]);
            && Terminated(t)
            && ParseObject(s, depth) ==
               if depth >= NESTING_LIMIT then Fail
               else if t[0] == '}' then Ok(Object([]), t[1..])
               else ObjectOf(ParseMembers(t, depth + 1))
  {
    hide ParseMembers, SkipWhitespace;
    SkipTerminated(s[1..]);
  }

  function ObjectOf(r: Parsed<seq<Member>>): Parsed<Json> {
    match r case Fail => Fail case Ok(ms, rest) => Ok(Object(ms), rest)
  }

  const BOM := "\U{EF}\U{BB}\U{BF}"

  /** skip_utf8_bom; there must be a byte to read behind the mark's two. */
  function SkipBom(s: string): string {
    if |s| > 4 && BOM <= s then s[3..] else s
  }

  /** cJSON_ParseWithOpts; unless asked for, text behind the value is ignored. */
  function ParseDocument(text: string, requireEnd: bool): Option<Json>
    requires NulFree(text)
  {
    var s := text + ['\0'];
    BomTerminated(text);
    SkipTerminated(SkipBom(s));
    match ParseValue(SkipWhitespace(SkipBom(s)), 0)
    case Fail => None
    case Ok(v, rest) =>
      if requireEnd && SkipWhitespace(rest)[0] != '\0' then None else Some(v)
  }

  /** Where a document whose value has been read ends: what is left from there on. */
  function DocumentRest(text: string, requireEnd: bool): Option<string>
    requires NulFree(text)
  {
    var s := text + ['\0'];
    BomTerminated(text);
    SkipTerminated(SkipBom(s));
    match ParseValue(SkipWhitespace(SkipBom(s)), 0)
    case Fail => None
    case Ok(_, rest) => Some(if requireEnd then SkipWhitespace(rest) else rest)
  }

  lemma BomTerminated(text: string)
    requires NulFree(text)
    ensures Terminated(SkipBom(text + ['\0']))
  {
    var s := text + ['\0'];
    assert Terminated(s);
    if |s| > 4 {
      TerminatedTail(s, 3);
    }
  }
}
