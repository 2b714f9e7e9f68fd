/** Every JSON text within the limits reads as the tree it stands for. */
module TextReading {
  import opened CStrings
  import opened JsonTree
  import opened Decimals
  import opened Pointers
  import opened Patching
  import opened Utf8
  import opened Rendering
  import opened ParserGrammar
  import opened Minifying
  import opened MinifiedParsing
  import opened JsonText
  import RoundTrip = PrintParseRoundTrip

  // ----- strings -----

  lemma HexReads(h: Hex)
    requires h.value < 16
    ensures HexValue(HexText(h)) == Some(h.value)
    ensures HexText(h) != '\\' && HexText(h) != '\"' && HexText(h) != '\0'
  {
  }

  function Digits(unit: seq<Hex>): string {
    seq(|unit|, i requires 0 <= i < |unit| => HexText(unit[i]))
  }

  lemma UnitParts(unit: seq<Hex>, tail: string)
    requires ProperUnit(unit)
    ensures |UnitText(unit)| == 6 && Clean(UnitText(unit))
    ensures UnitText(unit) + tail == ['\\', 'u'] + (Digits(unit) + tail)
    ensures forall i :: 0 <= i < 4 ==> Digits(unit)[i] != '\\' && Digits(unit)[i] != '\"'
  {
    forall i | 0 <= i < 4
      ensures Digits(unit)[i] == HexText(unit[i]) && Digits(unit)[i] != '\\' && Digits(unit)[i] != '\"'
      ensures Digits(unit)[i] != '\0'
    {
      HexReads(unit[i]);
    }
    assert UnitText(unit) == ['\\', 'u'] + Digits(unit);
  }

  lemma ScanUnit(unit: seq<Hex>, tail: string)
    requires ProperUnit(unit) && ScanString(tail).Some?
    ensures ScanString(UnitText(unit) + tail) == Further(6, ScanString(tail))
  {
    hide ScanString;
    UnitParts(unit, tail);
    RoundTrip.ScanWord(Digits(unit), tail);
    RoundTrip.ScanPair('u', Digits(unit) + tail);
  }

  lemma ScanMark(m: Mark, tail: string)
    requires ProperMark(m) && ScanString(tail).Some?
    ensures MarkText(m) != "" && ScanString(MarkText(m) + tail) == Further(|MarkText(m)|, ScanString(tail))
  {
    hide UnitText, UnitValue;
    match m {
      case Plain(c) => assert ([c] + tail)[1..] == tail;
      case Short(letter) =>
        RoundTrip.ScanPair(letter, tail);
        assert "\\" + [letter] == ['\\', letter];
      case Code(unit) =>
        UnitParts(unit, tail);
        ScanUnit(unit, tail);
      case Pair(high, low) => ScanTwoUnits(high, low, tail);
    }
  }

  lemma ScanTwoUnits(high: seq<Hex>, low: seq<Hex>, tail: string)
    requires ProperUnit(high) && ProperUnit(low) && ScanString(tail).Some?
    ensures |UnitText(high) + UnitText(low)| == 12
    ensures ScanString((UnitText(high) + UnitText(low)) + tail) == Further(12, ScanString(tail))
  {
    hide UnitText, ScanString;
    UnitParts(high, tail);
    UnitParts(low, tail);
    ScanUnit(low, tail);
    ScanUnit(high, UnitText(low) + tail);
    Regroup(UnitText(high), UnitText(low), tail);
  }

  /** What stands for a unit reads as its value. */
  lemma UnitReads(unit: seq<Hex>, tail: string)
    requires ProperUnit(unit)
    ensures var s := UnitText(unit) + tail;
      |s| >= 6 && s[0] == '\\' && s[1] == 'u' && HexDigits(s, 2) && ParseHex4(s[2..]) == UnitValue(unit)
  {
    UnitParts(unit, tail);
    var s := UnitText(unit) + tail;
    forall i | 0 <= i < 4
      ensures HexValue(s[2 + i]) == Some(unit[i].value) && s[2..][i] == s[2 + i]
    {
      HexReads(unit[i]);
      assert s[2 + i] == Digits(unit)[i];
    }
    assert HexDigits(s, 2) by {
      forall k | 2 <= k < 6
        ensures HexValue(s[k]).Some?
      {
        assert s[k] == s[2 + (k - 2)];
      }
    }
  }

  lemma OneForm(cp: nat, b: string)
    requires ScalarValue(cp) && DecodeBytes(b) == Some(cp)
    ensures b == Utf8Form(cp)
  {
    EncodeIsUtf8(cp, b);
    EncodeIsUtf8(cp, Utf8Form(cp));
  }

  lemma TurnCode(unit: seq<Hex>, tail: string, n: nat)
    requires ProperMark(Code(unit)) && n < |tail|
    ensures Turn(UnitText(unit) + tail, 6 + n) == Utf8.Literal(6, MarkBytes(Code(unit)))
  {
    hide UnitText, UnitValue, Utf16LiteralToUtf8, ParseHex4, HexDigits, DecodeBytes, Utf8Form;
    var s := UnitText(unit) + tail;
    UnitParts(unit, tail);
    UnitReads(unit, tail);
    var t := UnitText(unit) + tail[..n];
    assert s[..6 + n] == t;
    UnitReads(unit, tail[..n]);
    HexBound(t[2..]);
    LiteralIsUtf8(t);
    OneForm(UnitValue(unit), Utf16LiteralToUtf8(t).bytes);
  }

  lemma TurnPair(high: seq<Hex>, low: seq<Hex>, tail: string, n: nat)
    requires ProperMark(Pair(high, low)) && n < |tail|
    ensures Turn(UnitText(high) + (UnitText(low) + tail), 12 + n) == Utf8.Literal(12, MarkBytes(Pair(high, low)))
  {
    hide UnitText, UnitValue, Utf16LiteralToUtf8, ParseHex4, DecodeBytes, Utf8Form;
    UnitParts(high, "");
    UnitParts(low, "");
    UnitReads(high, UnitText(low) + tail);
    var second := UnitText(low) + tail[..n];
    var t := UnitText(high) + second;
    assert (UnitText(high) + (UnitText(low) + tail))[..12 + n] == t;
    UnitReads(high, second);
    UnitReads(low, tail[..n]);
    assert t[8..] == second[2..] && t[6] == second[0] && t[7] == second[1];
    assert HexDigits(t, 8) by {
      assert forall k :: 8 <= k < 12 ==> t[k] == second[k - 6];
    }
    LiteralIsUtf8(t);
    OneForm(0x10000 + 0x400 * (UnitValue(high) - 0xD800) + (UnitValue(low) - 0xDC00), Utf16LiteralToUtf8(t).bytes);
  }

  lemma TurnMark(m: Mark, tail: string, n: nat)
    requires ProperMark(m) && n < |tail|
    ensures |MarkText(m)| > 0 && Turn(MarkText(m) + tail, |MarkText(m)| + n)
        == Utf8.Literal(|MarkText(m)|, MarkBytes(m))
  {
    hide UnitText, UnitValue, Utf16LiteralToUtf8, Utf8Form;
    match m {
      case Plain(c) =>
      case Short(letter) =>
        var s := "\\" + [letter] + tail;
        assert s[0] == '\\' && s[1] == letter;
      case Code(unit) =>
        UnitParts(unit, tail);
        TurnCode(unit, tail, n);
      case Pair(high, low) =>
        UnitParts(high, tail);
        UnitParts(low, tail);
        TurnPair(high, low, tail, n);
        Regroup(UnitText(high), UnitText(low), tail);
    }
  }

  /** Which escapes are refused: a letter that is none of the eight, and of \u those cut short by the end of the string
      and lone or mismatched surrogates. */
  lemma EscapeRefused(s: string, n: nat)
    requires 0 < n < |s|
    ensures Turn(s, n).length == 0 <==>
      && s[0] == '\\' && s[1] !in "\"\\/bfnrt"
      && (s[1] != 'u' || n < 6 || (HexDigits(s, 2) && Denotes(s[..n]).None?))
  {
    hide Utf16LiteralToUtf8, Denotes, DecodeBytes, ParseHex4, HexValue;
    if n >= 6 {
      var t := s[..n];
      assert HexDigits(s, 2) <==> HexDigits(t, 2) by {
        assert forall k :: 2 <= k < 6 ==> s[k] == t[k];
      }
      LiteralIsUtf8(t);
    }
    assert n < 6 ==> Utf16LiteralToUtf8(s[..n]) == Failure by {
      if n < 6 {
        ShortLiteral(s[..n]);
      }
    }
  }

  lemma ShortLiteral(s: string)
    requires |s| < 6
    ensures Utf16LiteralToUtf8(s) == Failure
  {
  }

  /** Characters up to the closing quote, and what follows it. */
  function Closed(marks: seq<Mark>, rest: string): string {
    MarksText(marks) + ("\"" + rest)
  }

  lemma ClosedUnfolds(marks: seq<Mark>, rest: string)
    requires marks != []
    ensures Closed(marks, rest) == MarkText(marks[0]) + Closed(marks[1..], rest)
  {
    Regroup(MarkText(marks[0]), MarksText(marks[1..]), "\"" + rest);
  }

  lemma {:induction false} ScanMarks(marks: seq<Mark>, rest: string)
    requires ProperMarks(marks)
    ensures ScanString(Closed(marks, rest)) == Some(|MarksText(marks)|)
  {
    hide MarkText, ProperMark;
    if marks == [] {
      assert Closed(marks, rest)[0] == '\"';
    } else {
      assert ProperMarks(marks[1..]);
      ScanMarks(marks[1..], rest);
      ClosedUnfolds(marks, rest);
      ScanMark(marks[0], Closed(marks[1..], rest));
    }
  }

  lemma {:induction false} UnescapeMarks(marks: seq<Mark>, rest: string)
    requires ProperMarks(marks)
    ensures Unescape(Closed(marks, rest), |MarksText(marks)|) == Some(MarksBytes(marks))
  {
    hide MarkText, ProperMark, Turn, MarkBytes;
    if marks != [] {
      assert ProperMarks(marks[1..]);
      UnescapeMarks(marks[1..], rest);
      ClosedUnfolds(marks, rest);
      var tail, m := Closed(marks[1..], rest), MarkText(marks[0]);
      TurnMark(marks[0], tail, |MarksText(marks[1..])|);
      assert (m + tail)[|m|..] == tail;
    }
  }

  lemma {:induction false} MarksClean(marks: seq<Mark>)
    requires ProperMarks(marks)
    ensures Clean(MarksText(marks))
  {
    hide ProperMark, MarkText;
    if marks != [] {
      assert ProperMarks(marks[1..]);
      MarkClean(marks[0]);
      MarksClean(marks[1..]);
      CleanAppend(MarkText(marks[0]), MarksText(marks[1..]));
    }
  }

  lemma MarkClean(m: Mark)
    requires ProperMark(m)
    ensures Clean(MarkText(m))
  {
    hide UnitText, UnitValue;
    match m {
      case Plain(_) =>
      case Short(_) =>
      case Code(unit) => UnitParts(unit, "");
      case Pair(high, low) =>
        UnitParts(high, "");
        UnitParts(low, "");
        CleanAppend(UnitText(high), UnitText(low));
    }
  }

  /** A string literal reads as the bytes of its characters, up to the first zero. */
  lemma LiteralReads(marks: seq<Mark>)
    requires ProperMarks(marks)
    ensures var c := LiteralText(marks);
      ParseString(c) == Ok(CString(MarksBytes(marks)), "") && c[0] == '\"' && Clean(c)
  {
    hide ScanString, Unescape, MarksText, MarksBytes, CString;
    var c := LiteralText(marks);
    assert c[1..] == Closed(marks, "") && c[|MarksText(marks)| + 2..] == "";
    ScanMarks(marks, "");
    UnescapeMarks(marks, "");
    MarksClean(marks);
  }

  lemma LiteralAnywhere(marks: seq<Mark>)
    requires ProperMarks(marks)
    ensures var c := LiteralText(marks); c != "" && c[0] == '\"' && Clean(c) && Shrinks(c, c)
    ensures forall other: string {:trigger LiteralAt(LiteralText(marks), CString(MarksBytes(marks)), other)} ::
      LiteralAt(LiteralText(marks), CString(MarksBytes(marks)), other)
  {
    hide LiteralText, MarksBytes, CString, Shrinks, LiteralAt, Clean;
    LiteralReads(marks);
    var c := LiteralText(marks);
    assert c == c + "";
    LiteralToken(c, c, CString(MarksBytes(marks)), "");
  }

  // ----- numbers -----

  lemma {:induction false} DigitsRead(digits: seq<nat>)
    requires forall i :: 0 <= i < |digits| ==> digits[i] < 10
    ensures forall i :: 0 <= i < |digits| ==> IsDigit(DigitsText(digits)[i]) && DigitsText(digits)[i] >= '0'
    ensures ValueFrom(0, DigitsText(digits)) == DigitsValue(digits)
  {
    if digits != [] {
      var front, last := digits[..|digits| - 1], digits[|digits| - 1];
      DigitsRead(front);
      assert DigitsText(digits) == DigitsText(front) + [('0' as int + last) as char];
      ValueFromAppend(0, DigitsText(front), ('0' as int + last) as char);
    }
  }

  lemma NumeralReads(negative: bool, digits: seq<nat>)
    requires Proper(Numeral(negative, digits))
    ensures var c := Text(Numeral(negative, digits));
      ParseNumber(c) == Ok(Signed(negative, DigitsValue(digits)), "") && (c[0] == '-' || IsDigit(c[0]))
  {
    hide ValueFrom, DigitsValue;
    var d, c := DigitsText(digits), Text(Numeral(negative, digits));
    DigitsRead(digits);
    RoundTrip.AllDigits(d);
    assert c + "" == c;
    RoundTrip.NumberLengthExact(c, "", 63);
    assert c[..|c|] == c && c[|c|..] == "" && d[..|d|] == d;
    assert negative ==> c[0] == '-' && c[1..] == d;
    assert !negative ==> c == d;
  }

  // ----- gaps -----

  lemma {:induction false} BlanksSpace(gap: seq<Filler>)
    requires Blanks(gap)
    ensures Space(GapText(gap))
  {
    if gap != [] {
      assert Blanks(gap[1..]);
      BlanksSpace(gap[1..]);
    }
  }

  lemma EmptyGap()
    ensures GapText([]) == ""
  {
  }

  // ----- values -----

  lemma NothingInside(elements: seq<Element>, fields: seq<Field>)
    ensures (Trees(elements) == [] <==> elements == []) && ElementsText([]) == "]"
    ensures (Members(fields) == [] <==> fields == []) && FieldsText([]) == "}"
  {
  }

  lemma {:induction false} ReadsText(s: Spelling, depth: nat)
    requires Proper(s) && Bare(s) && depth + Depth(Tree(s)) <= NESTING_LIMIT
    ensures Reads(Text(s), Tree(s), depth)
    decreases s, 0
  {
    hide Reads, Shrinks, ElementsText, FieldsText, Trees, Members, GapText;
    match s {
      case WordNull => ReadsWord(Null, depth);
      case WordFalse => ReadsWord(False, depth);
      case WordTrue => ReadsWord(True, depth);
      case Numeral(negative, digits) =>
        NumeralReads(negative, digits);
        assert Text(s) == Text(s) + "";
        ReadsNumber(Text(s), Text(s), Signed(negative, DigitsValue(digits)), "", depth);
      case Characters(marks) =>
        LiteralReads(marks);
        assert Text(s) == Text(s) + "";
        ReadsLiteral(Text(s), Text(s), CString(MarksBytes(marks)), "", depth);
      case List(open, elements) => ReadsList(open, elements, depth);
      case Record(open, fields) => ReadsRecord(open, fields, depth);
    }
  }

  lemma {:induction false} ReadsList(open: seq<Filler>, elements: seq<Element>, depth: nat)
    requires Blanks(open) && forall i :: 0 <= i < |elements| ==> ProperElement(elements[i]) && BareElement(elements[i])
    requires depth + 1 + ItemsDepth(Trees(elements)) <= NESTING_LIMIT
    ensures Reads(Text(List(open, elements)), Array(Trees(elements)), depth)
    decreases elements, 4
  {
    hide Reads, ReadsElements, ElementsText, Trees, GapText;
    BlanksSpace(open);
    NothingInside(elements, []);
    if elements != [] {
      ReadsElementsText(elements, depth + 1);
    }
    Bracketed(GapText(open), ElementsText(elements), Text(List(open, elements)), Trees(elements), depth);
  }

  lemma {:induction false} ReadsRecord(open: seq<Filler>, fields: seq<Field>, depth: nat)
    requires Blanks(open) && forall i :: 0 <= i < |fields| ==> ProperField(fields[i]) && BareField(fields[i])
    requires depth + 1 + MembersDepth(Members(fields)) <= NESTING_LIMIT
    ensures Reads(Text(Record(open, fields)), Object(Members(fields)), depth)
    decreases fields, 4
  {
    hide Reads, ReadsMembers, FieldsText, Members, GapText;
    BlanksSpace(open);
    NothingInside([], fields);
    if fields != [] {
      ReadsFieldsText(fields, depth + 1);
    }
    Braced(GapText(open), FieldsText(fields), Text(Record(open, fields)), Members(fields), depth);
  }

  lemma {:induction false} SkipTwice(s: string)
    requires s != ""
    ensures SkipWhitespace(SkipWhitespace(s)) == SkipWhitespace(s)
  {
    if s[0] as int <= 32 && |s| > 1 {
      SkipTwice(s[1..]);
    }
  }

  lemma NoValue(t: string, depth: nat)
    requires Terminated(t) && t[0] == ']'
    ensures ParseValue(t, depth) == Fail
  {
    RoundTrip.OtherWord(t, "null");
    RoundTrip.OtherWord(t, "false");
    RoundTrip.OtherWord(t, "true");
  }

  /** Elements and members may begin with white space, and do not begin with a closing bracket. */
  lemma ElementsSkip(s: string, depth: nat)
    requires Terminated(s) && ParseElements(s, depth).Ok?
    ensures var t := SkipWhitespace(s);
      Terminated(t) && ParseElements(t, depth) == ParseElements(s, depth) && t[0] != ']'
  {
    hide ParseValue, SkipWhitespace;
    var t := SkipWhitespace(s);
    SkipTwice(s);
    SkipTerminated(s);
    assert ParseElement(t, depth) == ParseElement(s, depth);
    if t[0] == ']' {
      NoValue(t, depth);
    }
  }

  lemma MembersSkip(s: string, depth: nat)
    requires Terminated(s) && ParseMembers(s, depth).Ok?
    ensures var t := SkipWhitespace(s);
      Terminated(t) && ParseMembers(t, depth) == ParseMembers(s, depth) && t[0] != '}'
  {
    hide ParseElement, SkipWhitespace, ScanString, Unescape;
    var t := SkipWhitespace(s);
    SkipTwice(s);
    SkipTerminated(s);
    assert ParseName(t) == ParseName(s);
  }

  /** Brackets, a gap and what they hold. */
  lemma Bracketed(w: string, m: string, v: string, xs: seq<Json>, depth: nat)
    requires Space(w) && depth < NESTING_LIMIT && v == "[" + (w + m)
    requires if xs == [] then m == "]" else ReadsElements(m, xs, depth + 1)
    ensures Reads(v, Array(xs), depth)
  {
    if xs == [] {
      ArrayAround(w, m, v, xs, depth);
    } else {
      forall rest: string | RoundTrip.Follows(rest)
        ensures ReadsAt(v, Array(xs), depth, rest)
      {
        hide ParseElements, ParseArray, ParseValue, SkipWhitespace, Terminated;
        assert ReadsElementsAt(m, xs, depth + 1, rest);
        var t := m + rest;
        assert v + rest == "[" + (w + t);
        ElementsSkip(t, depth + 1);
        RoundTrip.SkipsBlank(w, t);
        SpaceTerminated(w, t);
        RoundTrip.TerminatedText("[", w + t);
        RoundTrip.Cons('[', w + t);
        RoundTrip.Dispatch(v + rest, depth);
        ArrayUnfolds(v + rest, depth);
      }
    }
  }

  lemma Braced(w: string, m: string, v: string, xs: seq<Member>, depth: nat)
    requires Space(w) && depth < NESTING_LIMIT && v == "{" + (w + m)
    requires if xs == [] then m == "}" else ReadsMembers(m, xs, depth + 1)
    ensures Reads(v, Object(xs), depth)
  {
    if xs == [] {
      ObjectAround(w, m, v, xs, depth);
    } else {
      forall rest: string | RoundTrip.Follows(rest)
        ensures ReadsAt(v, Object(xs), depth, rest)
      {
        hide ParseMembers, ParseObject, ParseValue, SkipWhitespace, Terminated;
        assert ReadsMembersAt(m, xs, depth + 1, rest);
        var t := m + rest;
        assert v + rest == "{" + (w + t);
        MembersSkip(t, depth + 1);
        RoundTrip.SkipsBlank(w, t);
        SpaceTerminated(w, t);
        RoundTrip.TerminatedText("{", w + t);
        RoundTrip.Cons('{', w + t);
        RoundTrip.Dispatch(v + rest, depth);
        ObjectUnfolds(v + rest, depth);
      }
    }
  }

  lemma {:induction false} ReadsElementText(e: Element, depth: nat)
    requires ProperElement(e) && BareElement(e) && depth + Depth(Tree(e.value)) <= NESTING_LIMIT
    ensures ReadsElement(ElementText(e), Tree(e.value), depth)
    decreases e, 1
  {
    hide Reads, ReadsElement, Text, Tree, GapText, Space;
    BlanksSpace(e.before);
    BlanksSpace(e.after);
    ReadsText(e.value, depth);
    ElementAround(GapText(e.before), Text(e.value), ElementText(e), GapText(e.after), Tree(e.value), depth);
  }

  lemma {:induction false} ReadsElementsText(elements: seq<Element>, depth: nat)
    requires elements != [] && forall i :: 0 <= i < |elements| ==>
        ProperElement(elements[i]) && BareElement(elements[i])
    requires depth + ItemsDepth(Trees(elements)) <= NESTING_LIMIT
    ensures ReadsElements(ElementsText(elements), Trees(elements), depth)
    decreases elements, 3
  {
    hide ReadsElement, ReadsElements, Tree, ElementText, ProperElement, BareElement;
    var e := elements[0];
    assert Trees(elements)[0] == Tree(e.value) && Trees(elements)[1..] == Trees(elements[1..]);
    ReadsElementText(e, depth);
    if |elements| == 1 {
      ElementsEnd(ElementText(e), ElementsText(elements), Tree(e.value), depth);
      assert Trees(elements) == [Tree(e.value)];
    } else {
      ReadsElementsText(elements[1..], depth);
      ElementsGoOn(ElementText(e), ElementsText(elements[1..]), ElementsText(elements), Tree(e.value),
        Trees(elements[1..]), depth);
    }
  }

  lemma ReadsNameText(f: Field)
    requires ProperField(f) && BareField(f)
    ensures ReadsName(NameText(f), CString(MarksBytes(f.name)))
  {
    hide ReadsName, LiteralText, MarksBytes, GapText, Space, Clean, CString, LiteralAt, Shrinks;
    BlanksSpace(f.before);
    BlanksSpace(f.between);
    LiteralAnywhere(f.name);
    NameAround(GapText(f.before), LiteralText(f.name), GapText(f.between), NameText(f), CString(MarksBytes(f.name)));
  }

  lemma {:induction false} ReadsFieldText(f: Field, depth: nat)
    requires ProperField(f) && BareField(f) && depth + Depth(Tree(f.element.value)) <= NESTING_LIMIT
    ensures ReadsMember(FieldText(f), MemberOfField(f), depth)
    decreases f, 2
  {
    hide ReadsName, ReadsElement, ReadsMember, Tree, NameText, ElementText, ProperElement, BareElement;
    ReadsNameText(f);
    ReadsElementText(f.element, depth);
    MemberOf(NameText(f), ElementText(f.element), FieldText(f), CString(MarksBytes(f.name)), Tree(f.element.value),
      depth);
  }

  lemma {:induction false} ReadsFieldsText(fields: seq<Field>, depth: nat)
    requires fields != [] && forall i :: 0 <= i < |fields| ==> ProperField(fields[i]) && BareField(fields[i])
    requires depth + MembersDepth(Members(fields)) <= NESTING_LIMIT
    ensures ReadsMembers(FieldsText(fields), Members(fields), depth)
    decreases fields, 3
  {
    hide ReadsMember, ReadsMembers, Tree, FieldText, ProperField, BareField;
    var f := fields[0];
    assert Members(fields)[0] == MemberOfField(f) && Members(fields)[1..] == Members(fields[1..]);
    ReadsFieldText(f, depth);
    if |fields| == 1 {
      MembersEnd(FieldText(f), FieldsText(fields), MemberOfField(f), depth);
      assert Members(fields) == [MemberOfField(f)];
    } else {
      ReadsFieldsText(fields[1..], depth);
      MembersGoOn(FieldText(f), FieldsText(fields[1..]), FieldsText(fields), MemberOfField(f), Members(fields[1..]),
        depth);
    }
  }

  // ----- documents -----

  /** Any text of the standard's grammar within the limits, however it is spelled, is accepted and read as the tree it
      stands for. */
  lemma ReadsDocument(mark: bool, before: seq<Filler>, s: Spelling, after: seq<Filler>)
    requires Proper(s) && Bare(s) && Blanks(before) && Blanks(after) && Depth(Tree(s)) <= NESTING_LIMIT
    ensures var text := WholeText(mark, before, s, after);
      NulFree(text) && ParseDocument(text, true) == Some(Tree(s))
  {
    hide ParseDocument, Reads, Text, Tree, GapText, Space;
    BlanksSpace(before);
    BlanksSpace(after);
    ReadsText(s, 0);
    var bom := if mark then BOM else "";
    ReadIsNulFree(bom, GapText(before), Text(s), GapText(after), Tree(s));
    DocumentReads(bom, GapText(before), Text(s), GapText(after), Tree(s));
  }

  lemma ReadIsNulFree(mark: string, w: string, m: string, z: string, v: Json)
    requires (mark == "" || mark == BOM) && Space(w) && Space(z) && Reads(m, v, 0)
    ensures NulFree(mark + (w + (m + z)))
  {
    hide ParseValue;
    assert BOM[0] == '\U{EF}' && BOM[1] == '\U{BB}' && BOM[2] == '\U{BF}' && |BOM| == 3;
    assert RoundTrip.Follows("\0") && ReadsAt(m, v, 0, "\0");
    ReadIsClean(m, "\0");
  }

  // ----- the nesting limit -----

  /** Whatever text is accepted, no value in it is nested deeper than the limit. */
  lemma {:induction false} AcceptedDepth(s: string, depth: nat)
    requires Terminated(s) && depth <= NESTING_LIMIT && ParseValue(s, depth).Ok?
    ensures depth + Depth(ParseValue(s, depth).value) <= NESTING_LIMIT
    decreases |s|, 1
  {
    hide ParseElements, ParseMembers, ParseArray, ParseObject;
    ParsedBy(s, depth);
    if s[0] == '[' {
      TerminatedTail(s, 1);
      ArrayUnfolds(s, depth);
      if SkipWhitespace(s[1..])[0] != ']' {
        AcceptedElements(SkipWhitespace(s[1..]), depth + 1);
      }
    } else if s[0] == '{' {
      TerminatedTail(s, 1);
      ObjectUnfolds(s, depth);
      if SkipWhitespace(s[1..])[0] != '}' {
        AcceptedMembers(SkipWhitespace(s[1..]), depth + 1);
      }
    }
  }

  lemma {:induction false} AcceptedElement(s: string, depth: nat)
    requires Terminated(s) && depth <= NESTING_LIMIT && ParseElement(s, depth).Ok?
    ensures depth + Depth(ParseElement(s, depth).value) <= NESTING_LIMIT
    decreases |s|, 2
  {
    hide ParseValue, Depth;
    SkipTerminated(s);
    AcceptedDepth(SkipWhitespace(s), depth);
  }

  lemma {:induction false} AcceptedElements(s: string, depth: nat)
    requires Terminated(s) && depth <= NESTING_LIMIT && ParseElements(s, depth).Ok?
    ensures depth + ItemsDepth(ParseElements(s, depth).value) <= NESTING_LIMIT
    decreases |s|, 3
  {
    hide ParseElement, ParseElements;
    ElementsOpen(s, depth);
    var e := ParseElement(s, depth);
    AcceptedElement(s, depth);
    if e.rest[0] == ',' {
      AcceptedElements(e.rest[1..], depth);
      var vs := ParseElements(e.rest[1..], depth).value;
      assert ([e.value] + vs)[1..] == vs;
    }
  }

  lemma {:induction false} AcceptedMembers(s: string, depth: nat)
    requires Terminated(s) && depth <= NESTING_LIMIT && ParseMembers(s, depth).Ok?
    ensures depth + MembersDepth(ParseMembers(s, depth).value) <= NESTING_LIMIT
    decreases |s|, 3
  {
    hide ParseMember, ParseMembers;
    MembersOpen(s, depth);
    var e := ParseMember(s, depth);
    AcceptedMember(s, depth);
    if e.rest[0] == ',' {
      AcceptedMembers(e.rest[1..], depth);
      var ms := ParseMembers(e.rest[1..], depth).value;
      assert ([e.value] + ms)[1..] == ms;
    }
  }

  lemma {:induction false} AcceptedMember(s: string, depth: nat)
    requires Terminated(s) && depth <= NESTING_LIMIT && ParseMember(s, depth).Ok?
    ensures depth + Depth(ParseMember(s, depth).value.val) <= NESTING_LIMIT
    decreases |s|, 2
  {
    hide ParseElement, Depth, ParseString, SkipWhitespace;
    AcceptedElement(ParseName(s).rest, depth);
  }

  lemma AcceptedDocument(text: string, requireEnd: bool)
    requires NulFree(text) && ParseDocument(text, requireEnd).Some?
    ensures Depth(ParseDocument(text, requireEnd).value) <= NESTING_LIMIT
  {
    hide ParseValue, SkipBom, SkipWhitespace, Depth;
    var s := SkipBom(text + ['\0']);
    BomTerminated(text);
    SkipTerminated(s);
    AcceptedDepth(SkipWhitespace(s), 0);
  }

  // ----- minified -----

  lemma {:induction false} LineEnds(t: string, rest: string)
    requires '\n' !in t
    ensures LineLength(t + ("\n" + rest)) == |t|
  {
    if t == "" {
      assert t + ("\n" + rest) == "\n" + rest;
    } else {
      assert (t + ("\n" + rest))[1..] == t[1..] + ("\n" + rest);
      LineEnds(t[1..], rest);
    }
  }

  /** The first asterisk and slash are the ones at the end. */
  lemma {:induction false} BlockEnds(t: string, rest: string)
    requires forall i :: 0 <= i < |t| - 1 ==> !(t[i] == '*' && t[i + 1] == '/')
    ensures CommentLength(t + ("*/" + rest)) == Some(|t| + 2)
  {
    var s := t + ("*/" + rest);
    if t == "" {
      assert s == "*/" + rest;
    } else {
      assert s[1..] == t[1..] + ("*/" + rest);
      assert |t| > 1 ==> s[1] == t[1];
      BlockEnds(t[1..], rest);
    }
  }

  lemma ShrinksLine(t: string)
    requires '\n' !in t
    ensures Shrinks("//" + (t + "\n"), "")
  {
    forall rest: string
      ensures Minify(("//" + (t + "\n")) + rest) == Prepend("", Minify(rest))
    {
      hide LineLength;
      var s := ("//" + (t + "\n")) + rest;
      assert s == ("//" + t) + ("\n" + rest);
      LineEnds("//" + t, rest);
      assert s[|t| + 2..] == "\n" + rest;
      ShrinksBlank('\n');
      assert Minify("\n" + rest) == Prepend("", Minify(rest));
    }
  }

  lemma ShrinksBlock(t: string)
    requires ProperFiller(Block(t))
    ensures Shrinks("/*" + (t + "*/"), "")
  {
    forall rest: string
      ensures Minify(("/*" + (t + "*/")) + rest) == Prepend("", Minify(rest))
    {
      hide CommentLength;
      var s := ("/*" + (t + "*/")) + rest;
      assert s == ("/*" + t) + ("*/" + rest);
      BlockEnds("/*" + t, rest);
      assert s[|t| + 4..] == rest;
      assert Minify(rest).Some? ==> "" + Minify(rest).value == Minify(rest).value;
    }
  }

  lemma {:induction false} ShrinksGap(gap: seq<Filler>)
    requires ProperGap(gap)
    ensures Shrinks(GapText(gap), "")
  {
    hide Shrinks, FillerText;
    if gap == [] {
      ShrinksNothing();
    } else {
      assert ProperGap(gap[1..]);
      ShrinksFiller(gap[0]);
      ShrinksGap(gap[1..]);
      ShrinksBoth(FillerText(gap[0]), "", GapText(gap[1..]), "");
      assert "" + "" == "";
    }
  }

  lemma ShrinksFiller(f: Filler)
    requires ProperFiller(f)
    ensures Shrinks(FillerText(f), "")
  {
    hide Shrinks;
    match f {
      case White(c) => ShrinksBlank(c);
      case Line(t) => ShrinksLine(t);
      case Block(t) => ShrinksBlock(t);
    }
  }

  /** Something between gaps. */
  lemma ShrinksBetween(a: seq<Filler>, m: string, n: string, b: seq<Filler>)
    requires ProperGap(a) && ProperGap(b) && Shrinks(m, n)
    ensures Shrinks(GapText(a) + (m + GapText(b)), GapText([]) + (n + GapText([])))
  {
    hide Shrinks;
    ShrinksGap(a);
    ShrinksGap(b);
    ShrinksBoth(m, n, GapText(b), "");
    ShrinksBoth(GapText(a), "", m + GapText(b), n + "");
  }

  /** Any text with comments and blanks in its gaps shrinks to the same text without gaps. */
  lemma {:induction false} ShrinksText(s: Spelling)
    requires Proper(s)
    ensures Shrinks(Text(s), Text(Compact(s)))
    decreases s, 0
  {
    hide Shrinks, ElementsText, FieldsText, GapText, LiteralText, ProperGap, ProperMarks;
    match s {
      case WordNull => ShrinksWord("null");
      case WordFalse => ShrinksWord("false");
      case WordTrue => ShrinksWord("true");
      case Numeral(negative, digits) =>
        DigitsRead(digits);
        ShrinksWord(Text(s));
      case Characters(marks) => LiteralAnywhere(marks);
      case List(open, elements) =>
        ShrinksElements(elements);
        ShrinksOpened("[", open, ElementsText(elements), ElementsText(CompactElements(elements)));
      case Record(open, fields) =>
        ShrinksFields(fields);
        ShrinksOpened("{", open, FieldsText(fields), FieldsText(CompactFields(fields)));
    }
  }

  lemma ShrinksOpened(bracket: string, gap: seq<Filler>, m: string, n: string)
    requires (bracket == "[" || bracket == "{") && ProperGap(gap) && Shrinks(m, n)
    ensures Shrinks(bracket + (GapText(gap) + m), bracket + (GapText([]) + n))
  {
    hide Shrinks;
    ShrinksGap(gap);
    ShrinksWord(bracket);
    ShrinksBoth(GapText(gap), "", m, n);
    ShrinksBoth(bracket, bracket, GapText(gap) + m, "" + n);
  }

  lemma {:induction false} ShrinksElement(e: Element)
    requires ProperElement(e)
    ensures Shrinks(ElementText(e), ElementText(CompactElement(e)))
    decreases e, 1
  {
    hide Shrinks, Text, GapText, ProperGap, Compact;
    ShrinksText(e.value);
    ShrinksBetween(e.before, Text(e.value), Text(Compact(e.value)), e.after);
  }

  lemma {:induction false} ShrinksElements(elements: seq<Element>)
    requires forall i :: 0 <= i < |elements| ==> ProperElement(elements[i])
    ensures Shrinks(ElementsText(elements), ElementsText(CompactElements(elements)))
    decreases elements
  {
    hide Shrinks, ElementText, ProperElement, CompactElement;
    ShrinksWord("]");
    if elements != [] {
      var m, n := ElementText(elements[0]), ElementText(CompactElement(elements[0]));
      ShrinksElement(elements[0]);
      assert CompactElements(elements)[0] == CompactElement(elements[0]);
      assert CompactElements(elements)[1..] == CompactElements(elements[1..]);
      if |elements| == 1 {
        ShrinksBoth(m, n, "]", "]");
      } else {
        var p, q := ElementsText(elements[1..]), ElementsText(CompactElements(elements[1..]));
        ShrinksElements(elements[1..]);
        ShrinksWord(",");
        ShrinksBoth(",", ",", p, q);
        ShrinksBoth(m, n, "," + p, "," + q);
      }
    }
  }

  lemma {:induction false} ShrinksField(f: Field)
    requires ProperField(f)
    ensures Shrinks(FieldText(f), FieldText(CompactField(f)))
    decreases f, 2
  {
    hide Shrinks, GapText, ProperGap, ProperMarks, ElementText, LiteralText, CompactElement, LiteralAt;
    var l := LiteralText(f.name);
    LiteralAnywhere(f.name);
    ShrinksGap(f.before);
    ShrinksGap(f.between);
    ShrinksWord(":");
    ShrinksBoth(GapText(f.between), "", ":", ":");
    ShrinksBoth(l, l, GapText(f.between) + ":", "" + ":");
    ShrinksBoth(GapText(f.before), "", l + (GapText(f.between) + ":"), l + ("" + ":"));
    EmptyGap();
    ShrinksElement(f.element);
    ShrinksBoth(NameText(f), NameText(CompactField(f)), ElementText(f.element), ElementText(CompactElement(f.element)));
  }

  lemma {:induction false} ShrinksFields(fields: seq<Field>)
    requires forall i :: 0 <= i < |fields| ==> ProperField(fields[i])
    ensures Shrinks(FieldsText(fields), FieldsText(CompactFields(fields)))
    decreases fields
  {
    hide Shrinks, FieldText, ProperField, CompactField;
    ShrinksWord("}");
    if fields != [] {
      var m, n := FieldText(fields[0]), FieldText(CompactField(fields[0]));
      ShrinksField(fields[0]);
      assert CompactFields(fields)[0] == CompactField(fields[0]);
      assert CompactFields(fields)[1..] == CompactFields(fields[1..]);
      if |fields| == 1 {
        ShrinksBoth(m, n, "}", "}");
      } else {
        var p, q := FieldsText(fields[1..]), FieldsText(CompactFields(fields[1..]));
        ShrinksFields(fields[1..]);
        ShrinksWord(",");
        ShrinksBoth(",", ",", p, q);
        ShrinksBoth(m, n, "," + p, "," + q);
      }
    }
  }

  /** What is left is spelled without gaps, and stands for the same tree. */
  lemma {:induction false} CompactTree(s: Spelling)
    requires Proper(s)
    ensures Proper(Compact(s)) && Bare(Compact(s)) && Tree(Compact(s)) == Tree(s)
    decreases s, 0
  {
    match s {
      case List(_, elements) => CompactTrees(elements);
      case Record(_, fields) => CompactMembers(fields);
      case _ =>
    }
  }

  lemma {:induction false} CompactTrees(elements: seq<Element>)
    requires forall i :: 0 <= i < |elements| ==> ProperElement(elements[i])
    ensures var c := CompactElements(elements);
      Trees(c) == Trees(elements) && forall i :: 0 <= i < |c| ==> ProperElement(c[i]) && BareElement(c[i])
    decreases elements
  {
    hide Tree, Compact, Proper, Bare;
    if elements != [] {
      CompactTree(elements[0].value);
      CompactTrees(elements[1..]);
      assert CompactElements(elements)[1..] == CompactElements(elements[1..]);
    }
  }

  lemma {:induction false} CompactMembers(fields: seq<Field>)
    requires forall i :: 0 <= i < |fields| ==> ProperField(fields[i])
    ensures var c := CompactFields(fields);
      Members(c) == Members(fields) && forall i :: 0 <= i < |c| ==> ProperField(c[i]) && BareField(c[i])
    decreases fields
  {
    hide ProperField, BareField, MemberOfField, CompactField;
    if fields != [] {
      CompactOneField(fields[0]);
      CompactMembers(fields[1..]);
      assert CompactFields(fields)[0] == CompactField(fields[0]);
      assert CompactFields(fields)[1..] == CompactFields(fields[1..]);
    }
  }

  lemma {:induction false} CompactOneField(f: Field)
    requires ProperField(f)
    ensures var c := CompactField(f); ProperField(c) && BareField(c) && MemberOfField(c) == MemberOfField(f)
    decreases f, 2
  {
    hide Tree, Compact, Proper, Bare, ProperMarks, MarksBytes, CString;
    assert ProperElement(f.element);
    CompactTree(f.element.value);
  }

  /** Minifying a text with white space and comments in its gaps gives just the text without gaps, and that reads as the
      tree the commented text stands for. */
  lemma MinifiesDocument(before: seq<Filler>, s: Spelling, after: seq<Filler>)
    requires Proper(s) && ProperGap(before) && ProperGap(after)
    ensures Minify(WholeText(false, before, s, after)) == Some(Text(Compact(s)))
    ensures Depth(Tree(s)) <= NESTING_LIMIT ==>
      NulFree(Text(Compact(s))) && ParseDocument(Text(Compact(s)), true) == Some(Tree(s))
  {
    hide Minify, Shrinks, ParseDocument, Text, Tree, Compact, ProperGap, GapText;
    ShrinksText(s);
    var text, small := GapText(before) + (Text(s) + GapText(after)), Text(Compact(s));
    ShrinksBetween(before, Text(s), small, after);
    NoGap(small);
    assert "" + text == text;
    ShrunkAlone(text, small);
    CompactTree(s);
    if Depth(Tree(s)) <= NESTING_LIMIT {
      ReadsDocument(false, [], Compact(s), []);
      assert WholeText(false, [], Compact(s), []) == "" + (GapText([]) + (small + GapText([])));
      assert "" + (GapText([]) + (small + GapText([]))) == small;
    }
  }

  lemma NoGap(m: string)
    ensures GapText([]) + (m + GapText([])) == m
  {
  }
}
