/** Parsing what was printed gives the tree back. */
module PrintParseRoundTrip {
  import opened CStrings
  import opened JsonTree
  import opened Decimals
  import opened Pointers
  import opened Patching
  import opened Utf8
  import opened Rendering
  import opened ParserGrammar

  // ----- strings -----

  /** Escaped text up to its closing quote. */
  function Quoted(t: string, rest: string): string {
    EscapedText(t) + ("\"" + rest)
  }

  lemma QuotedUnfolds(t: string, rest: string)
    requires t != []
    ensures Quoted(t, rest) == Escaped(t[0]) + Quoted(t[1..], rest)
  {
    Regroup(Escaped(t[0]), EscapedText(t[1..]), "\"" + rest);
  }

  lemma HexDigitValue(d: nat)
    requires d < 16
    ensures HexValue(HexDigit(d)) == Some(d)
    ensures HexDigit(d) != '\\' && HexDigit(d) != '\"'
  {
  }

  /** The first pass finds the closing quote. */
  lemma {:induction false} ScanEscaped(t: string, rest: string)
    ensures ScanString(Quoted(t, rest)) == Some(|EscapedText(t)|)
  {
    if t == [] {
      assert Quoted(t, rest)[0] == '\"';
    } else {
      ScanEscaped(t[1..], rest);
      QuotedUnfolds(t, rest);
      ScanCharacter(t[0], Quoted(t[1..], rest));
    }
  }

  lemma ScanCharacter(c: char, tail: string)
    requires ScanString(tail).Some?
    ensures ScanString(Escaped(c) + tail) == Further(|Escaped(c)|, ScanString(tail))
  {
    var s := Escaped(c) + tail;
    if HasShortEscape(c) {
      assert s[0] == '\\' && s[2..] == tail;
    } else if c as int < 32 {
      ScanControl(c, tail);
    } else {
      assert s[0] == c && s[1..] == tail;
    }
  }

  lemma ScanControl(c: char, tail: string)
    requires c as int < 32 && !HasShortEscape(c) && ScanString(tail).Some?
    ensures ScanString(Escaped(c) + tail) == Further(6, ScanString(tail))
  {
    hide ScanString;
    var h, l := HexDigit(c as int / 16), HexDigit(c as int % 16);
    HexDigitValue(c as int / 16);
    HexDigitValue(c as int % 16);
    var word := ['0', '0', h, l];
    ScanWord(word, tail);
    ScanPair('u', word + tail);
    assert Escaped(c) + tail == ['\\', 'u'] + (word + tail);
  }

  /** Characters that mean nothing to the first pass. */
  lemma {:induction false} ScanWord(word: string, tail: string)
    requires forall i :: 0 <= i < |word| ==> word[i] != '\\' && word[i] != '\"'
    ensures ScanString(word + tail) == Further(|word|, ScanString(tail))
  {
    if word == [] {
      assert word + tail == tail;
    } else {
      ScanWord(word[1..], tail);
      assert (word + tail)[1..] == word[1..] + tail;
    }
  }

  lemma ScanPair(c: char, tail: string)
    ensures ScanString(['\\', c] + tail) == Further(2, ScanString(tail))
  {
    assert (['\\', c] + tail)[2..] == tail;
  }

  /** The second pass gives the text back. */
  lemma {:induction false} UnescapeEscaped(t: string, rest: string)
    requires NulFree(t)
    ensures Unescape(Quoted(t, rest), |EscapedText(t)|) == Some(t)
  {
    hide Turn, Escaped;
    if t != [] {
      assert t[0] in t && NulFree(t[1..]);
      UnescapeEscaped(t[1..], rest);
      QuotedUnfolds(t, rest);
      UnescapeCharacter(t[0], Quoted(t[1..], rest), |EscapedText(t[1..])|);
      assert [t[0]] + t[1..] == t;
    }
  }

  lemma UnescapeCharacter(c: char, tail: string, n: nat)
    requires n < |tail|
    ensures Unescape(Escaped(c) + tail, |Escaped(c)| + n) == Prepend([c], Unescape(tail, n))
  {
    hide Turn, Escaped;
    TurnCharacter(c, tail, n);
    assert (Escaped(c) + tail)[|Escaped(c)|..] == tail;
  }

  lemma TurnCharacter(c: char, tail: string, n: nat)
    requires n < |tail|
    ensures Turn(Escaped(c) + tail, |Escaped(c)| + n) == Literal(|Escaped(c)|, [c])
  {
    var s := Escaped(c) + tail;
    if HasShortEscape(c) {
      assert s[0] == '\\' && s[1] == ShortEscape(c);
    } else if c as int < 32 {
      hide Utf16LiteralToUtf8;
      ControlLiteral(c, s[..6 + n]);
      assert s[0] == '\\' && s[1] == 'u';
    }
  }

  lemma ControlLiteral(c: char, s: string)
    requires c as int < 32 && !HasShortEscape(c) && |s| >= 6 && s[..6] == Escaped(c)
    ensures Utf16LiteralToUtf8(s) == Literal(6, [c])
  {
    HexDigitValue(c as int / 16);
    HexDigitValue(c as int % 16);
    var t := s[2..];
    assert t[0] == s[..6][2] && t[1] == s[..6][3] && t[2] == s[..6][4] && t[3] == s[..6][5];
    assert ParseHex4(t) == c as int;
  }

  /** parse_string undoes print_string_ptr. */
  lemma ParsePrintedString(t: string, rest: string)
    requires NulFree(t)
    ensures ParseString(StringText(t) + rest) == Ok(t, rest)
  {
    var s, n := StringText(t) + rest, |EscapedText(t)|;
    assert s[0] == '\"' && s[1..] == Quoted(t, rest);
    ScanEscaped(t, rest);
    UnescapeEscaped(t, rest);
    assert s[n + 2..] == rest;
    CStringIdentity(t);
  }

  lemma {:induction false} CStringIdentity(s: string)
    requires NulFree(s)
    ensures CString(s) == s
  {
    if s != [] {
      assert s[0] in s && NulFree(s[1..]);
      CStringIdentity(s[1..]);
    }
  }

  // ----- numbers -----

  function Power10(k: nat): nat {
    if k == 0 then 1 else 10 * Power10(k - 1)
  }

  lemma {:induction false} DecimalLength(n: nat, k: nat)
    requires k > 0 && n < Power10(k)
    ensures |Decimal(n)| <= k
  {
    if n >= 10 {
      DecimalLength(n / 10, k - 1);
    }
  }

  lemma FifteenDigits(n: nat)
    requires n < 1_000_000_000_000_000
    ensures |Decimal(n)| <= 15
  {
    assert Power10(15) == 1_000_000_000_000_000 by {
      assert Power10(5) == 100_000;
      assert Power10(10) == 10_000_000_000 by {
        assert Power10(8) == 100_000_000;
      }
      assert Power10(13) == 10_000_000_000_000;
    }
    DecimalLength(n, 15);
  }

  lemma {:induction false} NumberLengthExact(t: string, rest: string, room: nat)
    requires (forall i :: 0 <= i < |t| ==> NumberCharacter(t[i])) && |t| <= room
    requires rest == [] || !NumberCharacter(rest[0])
    ensures NumberLength(t + rest, room) == |t|
  {
    if t == [] {
      assert t + rest == rest;
    } else {
      assert (t + rest)[1..] == t[1..] + rest;
      NumberLengthExact(t[1..], rest, room - 1);
    }
  }

  lemma {:induction false} AllDigits(t: string)
    requires forall i :: 0 <= i < |t| ==> IsDigit(t[i])
    ensures DigitRun(t) == |t|
  {
    if t != [] {
      AllDigits(t[1..]);
    }
  }

  /** parse_number undoes print_number. */
  lemma ParsePrintedNumber(n: int, rest: string)
    requires -1_000_000_000_000_000 < n < 1_000_000_000_000_000
    requires rest == [] || !NumberCharacter(rest[0])
    ensures ParseNumber(SignedDecimal(n) + rest) == Ok(n, rest)
  {
    var m: nat := if n < 0 then -n else n;
    var d, t := Decimal(m), SignedDecimal(n);
    var s := t + rest;
    DecimalReadsBack(m);
    FifteenDigits(m);
    NumberLengthExact(t, rest, 63);
    AllDigits(d);
    assert s[..|t|] == t && s[|t|..] == rest;
    if n < 0 {
      assert t[0] == '-' && t[1..] == d;
    } else {
      assert t == d && IsDigit(t[0]);
    }
    assert d[..|d|] == d;
  }

  // ----- whitespace -----

  lemma {:induction false} SkipsBlank(w: string, s: string)
    requires (forall i :: 0 <= i < |w| ==> w[i] as int <= 32) && s != []
    ensures SkipWhitespace(w + s) == SkipWhitespace(s)
  {
    if w == [] {
      assert w + s == s;
    } else {
      assert (w + s)[1..] == w[1..] + s;
      SkipsBlank(w[1..], s);
    }
  }

  /** First characters of printed values. */
  predicate ValueStart(c: char) {
    c == 'n' || c == 'f' || c == 't' || c == '-' || IsDigit(c) || c == '\"' || c == '[' || c == '{'
  }

  lemma RenderStart(v: Json, format: bool, depth: nat)
    requires Printable(v)
    ensures Render(v, format, depth) != [] && ValueStart(Render(v, format, depth)[0])
  {
    if v.Number? {
      DecimalReadsBack(if v.n < 0 then -v.n else v.n);
    }
  }

  lemma TerminatedText(text: string, rest: string)
    requires Clean(text) && Terminated(rest)
    ensures Terminated(text + rest)
  {
  }

  // ----- values -----

  /** What parsing must give when the depth allows a value of this height. */
  function Expected<T>(fits: bool, v: T, rest: string): Parsed<T> {
    if fits then Ok(v, rest) else Fail
  }

  /** After a value in printed text. */
  ghost predicate Follows(rest: string) {
    Terminated(rest) && !NumberCharacter(rest[0])
  }

  lemma OtherWord(s: string, word: string)
    requires s != [] && word != [] && s[0] != word[0]
    ensures !StartsWith(s, word)
  {
  }

  /** The branch parse_value takes by the first character. */
  lemma Dispatch(s: string, depth: nat)
    requires Terminated(s) && s[0] != 'n' && s[0] != 'f' && s[0] != 't'
    ensures s[0] == '\"' ==>
      ParseValue(s, depth) == match ParseString(s) case Fail => Fail case Ok(t, r) => Ok(String(t), r)
    ensures s[0] == '-' || IsDigit(s[0]) ==>
      ParseValue(s, depth) == match ParseNumber(s) case Fail => Fail case Ok(n, r) => Ok(Number(n), r)
    ensures s[0] == '[' ==> ParseValue(s, depth) == ParseArray(s, depth)
    ensures s[0] == '{' ==> ParseValue(s, depth) == ParseObject(s, depth)
  {
    hide ParseArray, ParseObject, ParseString, ParseNumber, Word;
    OtherWord(s, "null");
    OtherWord(s, "false");
    OtherWord(s, "true");
  }

  lemma ParsePrintedWord(v: Json, rest: string, depth: nat)
    requires (v.Null? || v.False? || v.True?) && Terminated(rest)
    ensures Terminated(Render(v, false, 0) + rest) && ParseValue(Render(v, false, 0) + rest, depth) == Ok(v, rest)
  {
    hide ParseArray, ParseObject, ParseString, ParseNumber;
    var text := Render(v, false, 0);
    var s := text + rest;
    assert s[..|text|] == text && s[|text|..] == rest;
    if !v.Null? {
      OtherWord(s, "null");
    }
    if v.True? {
      OtherWord(s, "false");
    }
  }

  lemma HeadOf(text: string, rest: string)
    requires text != []
    ensures text + rest != [] && (text + rest)[0] == text[0]
  {
  }

  lemma NumberStart(n: int)
    ensures SignedDecimal(n) != [] && (SignedDecimal(n)[0] == '-' || IsDigit(SignedDecimal(n)[0]))
  {
    DecimalReadsBack(if n < 0 then -n else n);
  }

  lemma {:induction false} ParsePrintedValue(v: Json, format: bool, level: nat, rest: string, depth: nat)
    requires Representable(v) && Printable(v) && Follows(rest) && depth <= NESTING_LIMIT
    ensures Terminated(Render(v, format, level) + rest)
    ensures ParseValue(Render(v, format, level) + rest, depth) == Expected(depth + Depth(v) <= NESTING_LIMIT, v, rest)
    decreases v, 0
  {
    hide ParseValue;
    var s := Render(v, format, level) + rest;
    RenderClean(v, format, level);
    TerminatedText(Render(v, format, level), rest);
    match v {
      case Number(n) =>
        NumberStart(n);
        HeadOf(SignedDecimal(n), rest);
        Dispatch(s, depth);
        ParsePrintedNumber(n, rest);
      case String(t) =>
        HeadOf(StringText(t), rest);
        Dispatch(s, depth);
        ParsePrintedString(t, rest);
      case Array(items) => ParsePrintedArray(items, format, level, rest, depth);
      case Object(ms) => ParsePrintedObject(ms, format, level, rest, depth);
      case _ => ParsePrintedWord(v, rest, depth);
    }
  }

  lemma SkipNothing(s: string)
    requires s != [] && s[0] as int > 32
    ensures SkipWhitespace(s) == s
  {
  }

  lemma Cons(c: char, s: string)
    ensures ([c] + s)[0] == c && ([c] + s)[1..] == s
  {
  }

  /** A value with blanks around it. */
  function ElementText(v: Json, format: bool, level: nat, front: string, back: string, rest: string): string {
    front + (Render(v, format, level) + (back + rest))
  }

  lemma {:induction false} ParsePrintedElement(v: Json, format: bool, level: nat, front: string, back: string,
      rest: string, depth: nat)
    requires Representable(v) && Printable(v) && Terminated(rest) && depth <= NESTING_LIMIT && rest[0] as int > 32
    requires AllBlank(front) && AllBlank(back)
    requires Terminated(ElementText(v, format, level, front, back, rest)) && Follows(back + rest)
    ensures ParseElement(ElementText(v, format, level, front, back, rest), depth)
         == Expected(depth + Depth(v) <= NESTING_LIMIT, v, rest)
    decreases v, 1
  {
    hide ParseValue, Render;
    RenderStart(v, format, level);
    SkipsBlank(front, Render(v, format, level) + (back + rest));
    ParsePrintedValue(v, format, level, back + rest, depth);
    SkipsBlank(back, rest);
  }

  // ----- arrays -----

  /** The text of elements to the closing bracket and beyond. */
  function ItemsTail(items: seq<Json>, front: string, format: bool, level: nat, rest: string): string {
    front + (ItemsText(items, format, level) + ("]" + rest))
  }

  lemma {:induction false} ParsePrintedArray(items: seq<Json>, format: bool, level: nat, rest: string, depth: nat)
    requires Representable(Array(items)) && Printable(Array(items)) && Follows(rest) && depth <= NESTING_LIMIT
    requires Terminated(Render(Array(items), format, level) + rest)
    ensures ParseValue(Render(Array(items), format, level) + rest, depth)
         == Expected(depth + Depth(Array(items)) <= NESTING_LIMIT, Array(items), rest)
    decreases items, 2
  {
    hide ParseElements, ParseValue, ItemsTail;
    var t := ItemsTail(items, "", format, level + 1, rest);
    ArrayText(items, format, level, rest);
    Dispatch("[" + t, depth);
    Cons('[', t);
    if depth < NESTING_LIMIT {
      if items == [] {
        EmptyItems(format, level + 1, rest);
        Cons(']', rest);
        SkipNothing(t);
      } else {
        ItemsStart(items, format, level + 1, rest);
        SkipNothing(t);
        ParseItemsAfter(items, "", format, level + 1, rest, depth + 1);
      }
    }
  }

  lemma ArrayText(items: seq<Json>, format: bool, level: nat, rest: string)
    ensures Render(Array(items), format, level) + rest == "[" + ItemsTail(items, "", format, level + 1, rest)
  {
    hide ItemsText;
  }

  lemma EmptyItems(format: bool, level: nat, rest: string)
    ensures ItemsTail([], "", format, level, rest) == "]" + rest
  {
  }

  lemma ItemsStart(items: seq<Json>, format: bool, level: nat, rest: string)
    requires items != [] && Printable(items[0])
    ensures var t := ItemsTail(items, "", format, level, rest); t != [] && ValueStart(t[0])
  {
    hide Render;
    RenderStart(items[0], format, level);
    HeadOf(Render(items[0], format, level), if |items| == 1 then "" else ItemSeparator(format));
    HeadOf(ItemText(items[0], |items| == 1, format, level), ItemsText(items[1..], format, level));
    HeadOf(ItemsText(items, format, level), "]" + rest);
    assert "" + (ItemsText(items, format, level) + ("]" + rest)) == ItemsText(items, format, level) + ("]" + rest);
  }

  lemma LastElement(s: string, depth: nat, fits: bool, v: Json, rest: string)
    requires Terminated(s) && Terminated(rest) && ParseElement(s, depth) == Expected(fits, v, "]" + rest)
    ensures ParseElements(s, depth) == Expected(fits, [v], rest)
  {
    hide ParseElement;
    Cons(']', rest);
  }

  lemma OneMoreElement(s: string, depth: nat, fits: bool, v: Json, tail: string, restFits: bool, vs: seq<Json>,
      rest: string)
    requires Terminated(s) && Terminated(tail) && ParseElement(s, depth) == Expected(fits, v, "," + tail)
    requires ParseElements(tail, depth) == Expected(restFits, vs, rest)
    ensures ParseElements(s, depth) == Expected(fits && restFits, [v] + vs, rest)
  {
    hide ParseElement;
    Cons(',', tail);
  }

  /** The elements, after the blank a separator may leave in front. */
  lemma {:induction false} ParseItemsAfter(items: seq<Json>, front: string, format: bool, level: nat, rest: string,
      depth: nat)
    requires items != [] && Representable(Array(items)) && Printable(Array(items)) && Follows(rest)
        && depth <= NESTING_LIMIT
    requires front == "" || front == " "
    ensures Terminated(ItemsTail(items, front, format, level, rest))
    ensures ParseElements(ItemsTail(items, front, format, level, rest), depth)
         == Expected(depth + ItemsDepth(items) <= NESTING_LIMIT, items, rest)
    decreases items, 0
  {
    hide ParseElements, ParseElement, ParseValue, Render, ItemsTail, ElementText, Terminated;
    var s, fits := ItemsTail(items, front, format, level, rest), depth + Depth(items[0]) <= NESTING_LIMIT;
    ItemsTerminated(items, front, format, level, rest);
    if |items| == 1 {
      OneItem(items, front, format, level, rest);
      TerminatedText("]", rest);
      ParsePrintedElement(items[0], format, level, front, "", "]" + rest, depth);
      LastElement(s, depth, fits, items[0], rest);
    } else {
      var blank := if format then " " else "";
      var tail := ItemsTail(items[1..], blank, format, level, rest);
      ParseItemsAfter(items[1..], blank, format, level, rest, depth);
      ItemsSplit(items, front, format, level, rest);
      TerminatedText(",", tail);
      ParsePrintedElement(items[0], format, level, front, "", "," + tail, depth);
      OneMoreElement(s, depth, fits, items[0], tail, depth + ItemsDepth(items[1..]) <= NESTING_LIMIT, items[1..], rest);
      assert [items[0]] + items[1..] == items;
    }
  }

  lemma ItemsTerminated(items: seq<Json>, front: string, format: bool, level: nat, rest: string)
    requires Representable(Array(items)) && Terminated(rest) && Clean(front)
    ensures Terminated(ItemsTail(items, front, format, level, rest))
  {
    ItemsTextClean(items, format, level);
    TerminatedText("]", rest);
    TerminatedText(ItemsText(items, format, level), "]" + rest);
    TerminatedText(front, ItemsText(items, format, level) + ("]" + rest));
  }

  lemma OneItem(items: seq<Json>, front: string, format: bool, level: nat, rest: string)
    requires |items| == 1
    ensures "" + ("]" + rest) == "]" + rest
    ensures ItemsTail(items, front, format, level, rest) == ElementText(items[0], format, level, front, "", "]" + rest)
    ensures [items[0]] == items && ItemsDepth(items) == Depth(items[0])
  {
    hide Render;
    var r := Render(items[0], format, level);
    assert ItemsText(items[1..], format, level) == "" && (r + "") + "" == r;
    assert ItemsText(items, format, level) == r;
    assert ItemsDepth(items[1..]) == 0;
  }

  lemma ItemsSplit(items: seq<Json>, front: string, format: bool, level: nat, rest: string)
    requires |items| > 1
    ensures var tail := ItemsTail(items[1..], if format then " " else "", format, level, rest);
            && "" + ("," + tail) == "," + tail
            && ItemsTail(items, front, format, level, rest)
              == ElementText(items[0], format, level, front, "", "," + tail)
  {
    hide Render, ItemsText;
    var blank := if format then " " else "";
    FirstItem(items, format, level);
    Shuffle(Render(items[0], format, level), blank, ItemsText(items[1..], format, level), "]" + rest);
  }

  lemma FirstItem(items: seq<Json>, format: bool, level: nat)
    requires |items| > 1
    ensures ItemsText(items, format, level)
         == (Render(items[0], format, level) + ("," + (if format then " " else "")))
           + ItemsText(items[1..], format, level)
  {
    hide Render;
  }

  lemma Shuffle(a: string, b: string, c: string, d: string)
    ensures ((a + ("," + b)) + c) + d == a + ("" + ("," + (b + (c + d))))
    ensures "" + ("," + (b + (c + d))) == "," + (b + (c + d))
  {
  }

  // ----- objects -----

  ghost predicate AllBlank(w: string) {
    forall i :: 0 <= i < |w| ==> w[i] as int <= 32
  }

  lemma {:induction false} SkipTwice(s: string)
    requires s != []
    ensures SkipWhitespace(SkipWhitespace(s)) == SkipWhitespace(s)
  {
    if s[0] as int <= 32 && |s| > 1 {
      SkipTwice(s[1..]);
    }
  }

  /** Members may be read from behind leading blanks. */
  lemma SkipBeforeMembers(s: string, depth: nat)
    requires Terminated(s)
    ensures Terminated(SkipWhitespace(s)) && ParseMembers(SkipWhitespace(s), depth) == ParseMembers(s, depth)
  {
    hide ParseString, ParseElement;
    SkipTerminated(s);
    SkipTwice(s);
    assert ParseName(SkipWhitespace(s)) == ParseName(s);
    assert ParseMember(SkipWhitespace(s), depth) == ParseMember(s, depth);
  }

  /** What stands before the closing brace. */
  function Indent(format: bool, level: nat): string {
    if format then Tabs(level) else ""
  }

  function Break(format: bool): string {
    if format then "\n" else ""
  }

  function Gap(format: bool): string {
    if format then "\t" else ""
  }

  lemma KeyTextSplit(key: string, format: bool, level: nat, front: string, rest: string)
    ensures StringText(key) != [] && StringText(key)[0] == '\"'
    ensures front + (KeyText(key, format, level) + rest)
         == (front + Indent(format, level)) + (StringText(key) + (":" + (Gap(format) + rest)))
  {
    hide EscapedText;
    var colon := if format then ":\t" else ":";
    assert colon == ":" + Gap(format);
    Regroup4(front, Indent(format, level), StringText(key), ":", Gap(format), rest);
  }

  lemma Regroup4(a: string, b: string, c: string, d: string, e: string, f: string)
    ensures a + ((b + (c + (d + e))) + f) == (a + b) + (c + (d + (e + f)))
  {
  }

  lemma ParsePrintedName(key: string, format: bool, level: nat, front: string, rest: string)
    requires NulFree(key) && AllBlank(front)
    requires Terminated(front + (KeyText(key, format, level) + rest))
    ensures ParseName(front + (KeyText(key, format, level) + rest)) == Ok(key, Gap(format) + rest)
  {
    hide ParseString, StringText, Terminated, KeyText;
    var after := Gap(format) + rest;
    var s := StringText(key) + (":" + after);
    KeyTextSplit(key, format, level, front, rest);
    SkipsBlank(front + Indent(format, level), s);
    SkipNothing(s);
    ParsePrintedString(key, ":" + after);
    Cons(':', after);
    SkipNothing(":" + after);
  }

  /** One member with the blanks before and behind it. */
  lemma {:induction false} ParsePrintedMember(m: Member, format: bool, level: nat, front: string, back: string,
      rest: string, depth: nat)
    requires NulFree(m.key) && Representable(m.val) && Printable(m.val) && depth <= NESTING_LIMIT
    requires AllBlank(front) && Clean(front) && AllBlank(back) && Terminated(rest) && rest[0] as int > 32
        && Follows(back + rest)
    ensures var s := front + (KeyText(m.key, format, level) + (Render(m.val, format, level) + (back + rest)));
            Terminated(s) && ParseMember(s, depth) == Expected(depth + Depth(m.val) <= NESTING_LIMIT, m, rest)
    decreases m
  {
    hide ParseElement, ParseValue, ParseName, Render, KeyText, ParseString;
    var tail := Render(m.val, format, level) + (back + rest);
    RenderClean(m.val, format, level);
    TerminatedText(Render(m.val, format, level), back + rest);
    KeyTextClean(m.key, format, level);
    TerminatedText(KeyText(m.key, format, level), tail);
    TerminatedText(front, KeyText(m.key, format, level) + tail);
    TerminatedText(Gap(format), tail);
    ParsePrintedName(m.key, format, level, front, tail);
    ParsePrintedElement(m.val, format, level, Gap(format), back, rest, depth);
  }

  /** The text of members from a line break to the closing brace and beyond. */
  function MembersTail(ms: seq<Member>, format: bool, level: nat, rest: string): string
    requires level > 0
  {
    Break(format) + (MembersText(ms, format, level) + (Indent(format, level - 1) + ("}" + rest)))
  }

  lemma FinalMember(s: string, depth: nat, fits: bool, m: Member, rest: string)
    requires Terminated(s) && Terminated(rest) && ParseMember(s, depth) == Expected(fits, m, "}" + rest)
    ensures ParseMembers(s, depth) == Expected(fits, [m], rest)
  {
    hide ParseMember;
    Cons('}', rest);
  }

  lemma OneMoreMember(s: string, depth: nat, fits: bool, m: Member, tail: string, restFits: bool, ms: seq<Member>,
      rest: string)
    requires Terminated(s) && Terminated(tail) && ParseMember(s, depth) == Expected(fits, m, "," + tail)
    requires ParseMembers(tail, depth) == Expected(restFits, ms, rest)
    ensures ParseMembers(s, depth) == Expected(fits && restFits, [m] + ms, rest)
  {
    hide ParseMember;
    Cons(',', tail);
  }

  /** The members, after a line break. */
  lemma {:induction false} ParseMembersAfter(ms: seq<Member>, format: bool, level: nat, rest: string, depth: nat)
    requires ms != [] && RepresentableMembers(ms) && Printable(Object(ms)) && Follows(rest) && depth <= NESTING_LIMIT
        && level > 0
    ensures Terminated(MembersTail(ms, format, level, rest))
    ensures ParseMembers(MembersTail(ms, format, level, rest), depth)
         == Expected(depth + MembersDepth(ms) <= NESTING_LIMIT, ms, rest)
    decreases ms, 1
  {
    hide ParseMembers, ParseMember, MembersTail, Render, KeyText, Terminated, Indent;
    var s, fits := MembersTail(ms, format, level, rest), depth + Depth(ms[0].val) <= NESTING_LIMIT;
    if |ms| == 1 {
      var back := Break(format) + Indent(format, level - 1);
      LastMember(ms, format, level, rest);
      TerminatedText("}", rest);
      TerminatedText(back, "}" + rest);
      ParsePrintedMember(ms[0], format, level, Break(format), back, "}" + rest, depth);
      FinalMember(s, depth, fits, ms[0], rest);
    } else {
      var next := MembersTail(ms[1..], format, level, rest);
      ParseMembersAfter(ms[1..], format, level, rest, depth);
      TerminatedText(",", next);
      FirstMember(ms, format, level, rest);
      ParsePrintedMember(ms[0], format, level, Break(format), "", "," + next, depth);
      OneMoreMember(s, depth, fits, ms[0], next, depth + MembersDepth(ms[1..]) <= NESTING_LIMIT, ms[1..], rest);
      assert [ms[0]] + ms[1..] == ms;
    }
  }

  lemma LastMember(ms: seq<Member>, format: bool, level: nat, rest: string)
    requires |ms| == 1 && level > 0
    ensures var back := Break(format) + Indent(format, level - 1);
            && MembersTail(ms, format, level, rest)
               == Break(format) + (KeyText(ms[0].key, format, level)
                 + (Render(ms[0].val, format, level) + (back + ("}" + rest))))
            && ((back + ("}" + rest))[0] == '}' || (back + ("}" + rest))[0] == '\n')
            && AllBlank(back) && Clean(back)
    ensures [ms[0]] == ms && MembersDepth(ms) == Depth(ms[0].val)
  {
    hide Render, KeyText;
    assert MembersText(ms[1..], format, level) == "" && MembersDepth(ms[1..]) == 0;
    assert MemberEnd(true, format) == Break(format);
    assert MembersText(ms, format, level) == MemberText(ms[0], true, format, level);
  }

  lemma FirstMember(ms: seq<Member>, format: bool, level: nat, rest: string)
    requires |ms| > 1 && level > 0
    ensures var next := MembersTail(ms[1..], format, level, rest);
            && "" + ("," + next) == "," + next
            && MembersTail(ms, format, level, rest)
            == Break(format) + (KeyText(ms[0].key, format, level)
              + (Render(ms[0].val, format, level) + ("" + ("," + next))))
  {
    hide Render, KeyText, MembersText;
    var r, k := Render(ms[0].val, format, level), KeyText(ms[0].key, format, level);
    var texts, end := MembersText(ms[1..], format, level), Indent(format, level - 1) + ("}" + rest);
    MembersUnfold(ms, format, level);
    Shuffle(r, Break(format), texts, end);
    Move(k, r + ("," + Break(format)), texts, end);
  }

  lemma MembersUnfold(ms: seq<Member>, format: bool, level: nat)
    requires |ms| > 1
    ensures MembersText(ms, format, level)
         == (KeyText(ms[0].key, format, level) + (Render(ms[0].val, format, level) + ("," + Break(format))))
            + MembersText(ms[1..], format, level)
  {
    hide Render, KeyText;
  }

  lemma {:induction false} ParsePrintedObject(ms: seq<Member>, format: bool, level: nat, rest: string, depth: nat)
    requires RepresentableMembers(ms) && Printable(Object(ms)) && Follows(rest) && depth <= NESTING_LIMIT
    requires Terminated(Render(Object(ms), format, level) + rest)
    ensures ParseValue(Render(Object(ms), format, level) + rest, depth)
         == Expected(depth + Depth(Object(ms)) <= NESTING_LIMIT, Object(ms), rest)
    decreases ms, 2
  {
    hide ParseMembers, ParseValue, MembersTail;
    var u := MembersTail(ms, format, level + 1, rest);
    ObjectText(ms, format, level, rest);
    Dispatch("{" + u, depth);
    Cons('{', u);
    if depth < NESTING_LIMIT {
      if ms == [] {
        EmptyMembers(format, level, rest);
        Cons('}', rest);
      } else {
        ParseMembersAfter(ms, format, level + 1, rest, depth + 1);
        SkipBeforeMembers(u, depth + 1);
        MembersStart(ms, format, level + 1, rest);
      }
    }
  }

  lemma ObjectText(ms: seq<Member>, format: bool, level: nat, rest: string)
    ensures Render(Object(ms), format, level) + rest == "{" + MembersTail(ms, format, level + 1, rest)
  {
    hide MembersText;
    assert OpenBrace(format) == "{" + Break(format);
  }

  lemma EmptyMembers(format: bool, level: nat, rest: string)
    ensures MembersTail([], format, level + 1, rest) != []
    ensures SkipWhitespace(MembersTail([], format, level + 1, rest)) == "}" + rest
  {
    var blanks := Break(format) + Indent(format, level);
    assert MembersTail([], format, level + 1, rest) == blanks + ("}" + rest);
    SkipsBlank(blanks, "}" + rest);
    SkipNothing("}" + rest);
  }

  lemma MembersStart(ms: seq<Member>, format: bool, level: nat, rest: string)
    requires ms != [] && level > 0
    ensures MembersTail(ms, format, level, rest) != []
    ensures SkipWhitespace(MembersTail(ms, format, level, rest))[0] == '\"'
  {
    var after := Render(ms[0].val, format, level) + MemberEnd(|ms| == 1, format)
                 + MembersText(ms[1..], format, level) + (Indent(format, level - 1) + ("}" + rest));
    MembersHead(ms, format, level, rest, after);
    var s := StringText(ms[0].key) + (":" + (Gap(format) + after));
    KeyTextSplit(ms[0].key, format, level, Break(format), after);
    SkipsBlank(Break(format) + Indent(format, level), s);
    SkipNothing(s);
  }

  lemma MembersHead(ms: seq<Member>, format: bool, level: nat, rest: string, after: string)
    requires ms != [] && level > 0
    requires after == Render(ms[0].val, format, level) + MemberEnd(|ms| == 1, format)
                      + MembersText(ms[1..], format, level) + (Indent(format, level - 1) + ("}" + rest))
    ensures MembersTail(ms, format, level, rest) == Break(format) + (KeyText(ms[0].key, format, level) + after)
  {
    hide Render, KeyText;
    var k, value := KeyText(ms[0].key, format, level), Render(ms[0].val, format, level) + MemberEnd(|ms| == 1, format);
    assert MembersText(ms, format, level) == (k + value) + MembersText(ms[1..], format, level);
    Move(k, value, MembersText(ms[1..], format, level), Indent(format, level - 1) + ("}" + rest));
  }

  lemma Move(a: string, b: string, c: string, d: string)
    ensures ((a + b) + c) + d == a + ((b + c) + d)
  {
  }

  // ----- documents -----

  lemma CleanIsNulFree(s: string)
    requires Clean(s)
    ensures NulFree(s)
  {
  }

  /** The law printing and parsing are for, with its exact condition. For every printable tree the text
      of cJSON_Print or cJSON_PrintUnformatted parses back to the same tree, members in the same order,
      when it is nested at most CJSON_NESTING_LIMIT deep, and is rejected when it is nested deeper. */
  lemma PrintParse(v: Json, format: bool, requireEnd: bool)
    requires Representable(v) && Printable(v)
    ensures NulFree(Render(v, format, 0))
    ensures ParseDocument(Render(v, format, 0), requireEnd) == if Depth(v) <= NESTING_LIMIT then Some(v) else None
  {
    hide ParseValue, Render;
    var text := Render(v, format, 0);
    RenderClean(v, format, 0);
    CleanIsNulFree(text);
    RenderStart(v, format, 0);
    ParsePrintedValue(v, format, 0, "\0", 0);
    var s := text + ['\0'];
    assert s[0] == text[0] && BOM[0] == '\U{EF}';
    assert SkipBom(s) == s;
    SkipNothing(s);
    assert SkipWhitespace("\0") == "\0";
  }
}
