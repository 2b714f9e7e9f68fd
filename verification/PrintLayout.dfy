/** The layout of printed text. */
module PrintLayouts {
  // It is the text of one spelling of the tree, which says what is escaped and what the gaps hold.

  import opened CStrings
  import opened JsonTree
  import opened Decimals
  import opened Pointers
  import opened Patching
  import opened Utf8
  import opened Rendering
  import opened JsonText
  import opened TextReading
  import RoundTrip = PrintParseRoundTrip

  /** Quotes and backslashes have a short escape, and so have five control characters; the others are written as a unit
      in lower case, and all else stands for itself. */
  function PrintedMark(c: char): Mark {
    if c == '\"' || c == '\\' then Short(c)
    else if c == 8 as char then Short('b')
    else if c == 9 as char then Short('t')
    else if c == 10 as char then Short('n')
    else if c == 12 as char then Short('f')
    else if c == 13 as char then Short('r')
    else if c as int < 32 then Code([Hex(0, false), Hex(0, false), Hex(c as int / 16, false),
      Hex(c as int % 16, false)])
    else Plain(c)
  }

  function PrintedMarks(s: string): seq<Mark> {
    if s == "" then [] else [PrintedMark(s[0])] + PrintedMarks(s[1..])
  }

  /** Digits without leading zeros. */
  function PrintedDigits(n: nat): seq<nat> {
    if n < 10 then [n] else PrintedDigits(n / 10) + [n % 10]
  }

  function Indent(level: nat): seq<Filler> {
    if level == 0 then [] else [White('\t')] + Indent(level - 1)
  }

  /** A line break and a tab for each bracket that is open. */
  function Break(level: nat): seq<Filler> {
    [White('\n')] + Indent(level)
  }

  /** Formatted, every member has a line of its own and a tab behind its colon, the closing brace is on the next line,
      and elements have a blank between them. Unformatted, no gap holds anything. */
  function Laid(v: Json, format: bool, level: nat): Spelling
    decreases v, 0
  {
    match v
    case Invalid => WordNull
    case Null => WordNull
    case False => WordFalse
    case True => WordTrue
    case Number(n) => Numeral(n < 0, PrintedDigits(if n < 0 then -n else n))
    case String(s) => Characters(PrintedMarks(s))
    case Array(items) => List([], LaidItems(items, true, format, level + 1))
    case Object(ms) => Record(if format && ms == [] then Break(level) else [], LaidMembers(ms, format, level + 1))
  }

  function LaidItems(items: seq<Json>, first: bool, format: bool, level: nat): seq<Element>
    decreases items
  {
    if items == [] then []
    else
      [Element(if first || !format then [] else [White(' ')], Laid(items[0], format, level), [])]
        + LaidItems(items[1..], false, format, level)
  }

  function LaidMembers(ms: seq<Member>, format: bool, level: nat): seq<Field>
    requires level > 0
    decreases ms
  {
    if ms == [] then [] else [LaidMember(ms[0], |ms| == 1, format, level)] + LaidMembers(ms[1..], format, level)
  }

  function LaidMember(m: Member, last: bool, format: bool, level: nat): Field
    requires level > 0
    decreases m, 1
  {
    Field(if format then Break(level) else [], PrintedMarks(m.key), [],
          Element(if format then [White('\t')] else [], Laid(m.val, format, level),
                  if format && last then Break(level - 1) else []))
  }

  // ----- strings and numbers -----

  lemma HexDigitText(d: nat)
    requires d < 16
    ensures HexText(Hex(d, false)) == HexDigit(d)
  {
  }

  lemma PrintedMarkText(c: char)
    ensures MarkText(PrintedMark(c)) == Escaped(c)
  {
    if c as int < 32 && PrintedMark(c).Code? {
      var unit := PrintedMark(c).unit;
      HexDigitText(0);
      HexDigitText(c as int / 16);
      HexDigitText(c as int % 16);
      assert UnitText(unit) == "\\u" + [HexText(unit[0]), HexText(unit[1]), HexText(unit[2]), HexText(unit[3])];
      assert UnitText(unit) == Escaped(c);
    }
  }

  lemma {:induction false} PrintedMarksText(s: string)
    ensures MarksText(PrintedMarks(s)) == EscapedText(s)
  {
    hide PrintedMark, MarkText, Escaped;
    if s != "" {
      PrintedMarkText(s[0]);
      PrintedMarksText(s[1..]);
      assert PrintedMarks(s)[0] == PrintedMark(s[0]) && PrintedMarks(s)[1..] == PrintedMarks(s[1..]);
    }
  }

  lemma PrintedLiteral(s: string)
    ensures LiteralText(PrintedMarks(s)) == StringText(s)
  {
    PrintedMarksText(s);
    Regroup("\"", EscapedText(s), "\"");
  }

  lemma {:induction false} PrintedDigitsText(n: nat)
    ensures PrintedDigits(n) != [] && DigitsText(PrintedDigits(n)) == Decimal(n)
  {
    if n >= 10 {
      PrintedDigitsText(n / 10);
      assert DigitsText(PrintedDigits(n)) == DigitsText(PrintedDigits(n / 10)) + [Digit(n % 10)];
    } else {
      assert DigitsText([n]) == [Digit(n)];
    }
  }

  // ----- gaps -----

  lemma {:induction false} IndentText(level: nat)
    ensures GapText(Indent(level)) == Tabs(level)
  {
    if level > 0 {
      IndentText(level - 1);
      assert Indent(level)[0] == White('\t') && Indent(level)[1..] == Indent(level - 1);
    }
  }

  lemma BreakText(level: nat)
    ensures GapText(Break(level)) == "\n" + Tabs(level)
  {
    IndentText(level);
    assert Break(level)[0] == White('\n') && Break(level)[1..] == Indent(level);
  }

  lemma WhiteText(c: char)
    ensures GapText([White(c)]) == [c] && GapText([]) == ""
  {
    assert [White(c)][1..] == [];
    assert [c] + "" == [c];
  }

  // ----- values -----

  /** What cJSON_Print and cJSON_PrintUnformatted write is the text of this spelling. */
  lemma {:induction false} PrintedAsLaid(v: Json, format: bool, level: nat)
    requires Printable(v)
    ensures Text(Laid(v, format, level)) == Render(v, format, level)
    decreases v, 0
  {
    hide ElementsText, FieldsText, ItemsText, MembersText, StringText, LiteralText, LaidItems, LaidMembers, GapText,
        Break;
    match v {
      case Invalid =>
      case Null =>
      case False =>
      case True =>
      case Number(n) => PrintedDigitsText(if n < 0 then -n else n);
      case String(s) => PrintedLiteral(s);
      case Array(items) =>
        WhiteText(' ');
        PrintedItems(items, true, format, level + 1);
      case Object(ms) => PrintedObject(ms, format, level);
    }
  }

  function Lead(first: bool, format: bool): string {
    if first || !format then "" else " "
  }

  lemma {:induction false} PrintedItems(items: seq<Json>, first: bool, format: bool, level: nat)
    requires forall i :: 0 <= i < |items| ==> Printable(items[i])
    ensures ElementsText(LaidItems(items, first, format, level)) ==
            (if items == [] then "" else Lead(first, format)) + (ItemsText(items, format, level) + "]")
    decreases items
  {
    hide Laid, Text, Render, Printable;
    if items != [] {
      var laid, e := LaidItems(items, first, format, level), LaidItems(items, first, format, level)[0];
      var value := Render(items[0], format, level);
      WhiteText(' ');
      PrintedAsLaid(items[0], format, level);
      PrintedItems(items[1..], false, format, level);
      assert laid[1..] == LaidItems(items[1..], false, format, level);
      assert ElementText(e) == Lead(first, format) + (value + "");
      if |items| == 1 {
        LastItem(Lead(first, format), value);
        assert ItemsText(items[1..], format, level) == "";
      } else {
        NextItem(Lead(first, format), value, Lead(false, format), ItemsText(items[1..], format, level));
        assert "," + Lead(false, format) == ItemSeparator(format);
      }
    }
  }

  lemma LastItem(lead: string, value: string)
    ensures (lead + (value + "")) + "]" == lead + (((value + "") + "") + "]")
  {
  }

  lemma NextItem(lead: string, value: string, gap: string, rest: string)
    ensures (lead + (value + "")) + ("," + (gap + (rest + "]"))) == lead + (((value + ("," + gap)) + rest) + "]")
  {
  }

  lemma {:induction false} PrintedObject(ms: seq<Member>, format: bool, level: nat)
    requires Printable(Object(ms))
    ensures Text(Laid(Object(ms), format, level)) == Render(Object(ms), format, level)
    decreases ms, 1
  {
    hide FieldsText, MembersText, LaidMembers, GapText, Break;
    WhiteText(' ');
    BreakText(level);
    PrintedMembers(ms, format, level + 1);
    NoMembers(format, level);
    ObjectText(MembersText(ms, format, level + 1), Tabs(level));
  }

  lemma NoMembers(format: bool, level: nat)
    ensures LaidMembers([], format, level + 1) == [] && FieldsText([]) == "}"
        && MembersText([], format, level + 1) == ""
  {
  }

  lemma ObjectText(m: string, tabs: string)
    ensures "{" + ("" + ("\n" + (m + (tabs + "}")))) == "{\n" + (m + (tabs + "}"))
    ensures "{" + (("\n" + tabs) + "}") == "{\n" + ("" + (tabs + "}"))
    ensures "{" + ("" + (m + "}")) == "{" + (m + ("" + "}")) && "{" + ("" + "}") == "{" + ("" + ("" + "}"))
  {
  }

  /** What stands behind the opening brace, the line break included. */
  lemma {:induction false} PrintedMembers(ms: seq<Member>, format: bool, level: nat)
    requires level > 0 && Printable(Object(ms))
    ensures ms != [] ==>
      FieldsText(LaidMembers(ms, format, level)) ==
      (if format then "\n" + (MembersText(ms, format, level) + (Tabs(level - 1) + "}"))
       else MembersText(ms, format, level) + "}")
    decreases ms, 0
  {
    hide LaidMember, FieldText, MemberText, Printable, Tabs;
    if ms != [] {
      assert forall i :: 0 <= i < |ms[1..]| ==> ms[1..][i] == ms[i + 1];
      PrintableMembers(ms);
      var last := |ms| == 1;
      var laid, f := LaidMembers(ms, format, level), LaidMember(ms[0], last, format, level);
      assert laid[0] == f && laid[1..] == LaidMembers(ms[1..], format, level);
      PrintedMember(ms[0], last, format, level);
      var m, text := FieldText(f), MemberText(ms[0], last, format, level);
      if last {
        assert MembersText(ms[1..], format, level) == "";
        LastMember(m, text, Tabs(level - 1));
      } else {
        PrintedMembers(ms[1..], format, level);
        NextMember(m, text, MembersText(ms[1..], format, level), if format then Tabs(level - 1) + "}" else "}");
      }
    }
  }

  lemma PrintableMembers(ms: seq<Member>)
    requires ms != [] && Printable(Object(ms))
    ensures Printable(ms[0].val) && Printable(Object(ms[1..]))
  {
  }

  lemma LastMember(m: string, text: string, tabs: string)
    ensures m == "\n" + (text + tabs) ==> m + "}" == "\n" + ((text + "") + (tabs + "}"))
    ensures m == text ==> m + "}" == (text + "") + "}"
  {
  }

  lemma NextMember(m: string, text: string, rest: string, end: string)
    ensures "\n" + text == (m + ",") + "\n" ==> m + ("," + ("\n" + (rest + end))) == "\n" + ((text + rest) + end)
    ensures text == m + "," ==> m + ("," + (rest + end)) == (text + rest) + end
  {
    if "\n" + text == (m + ",") + "\n" {
      assert m + ("," + ("\n" + (rest + end))) == ((m + ",") + "\n") + (rest + end);
      assert ("\n" + text) + (rest + end) == "\n" + ((text + rest) + end);
    }
  }

  /** One member against its line. */
  lemma {:induction false} PrintedMember(m: Member, last: bool, format: bool, level: nat)
    requires level > 0 && Printable(m.val)
    ensures var a, b := FieldText(LaidMember(m, last, format, level)), MemberText(m, last, format, level);
      && (format && last ==> a == "\n" + (b + Tabs(level - 1)))
      && (format && !last ==> "\n" + b == (a + ",") + "\n")
      && (!format && last ==> a == b)
      && (!format && !last ==> b == a + ",")
    decreases m, 1
  {
    hide Laid, Text, Render, LiteralText, StringText, Tabs, GapText, Break;
    PrintedAsLaid(m.val, format, level);
    PrintedLiteral(m.key);
    BreakText(level);
    BreakText(level - 1);
    WhiteText('\t');
    MemberParts(StringText(m.key), Render(m.val, format, level), Tabs(level), Tabs(level - 1));
  }

  lemma MemberParts(key: string, value: string, tabs: string, fewer: string)
    ensures (("\n" + tabs) + (key + ("" + ":"))) + ("\t" + (value + ("\n" + fewer)))
         == "\n" + ((tabs + (key + ":\t")) + (value + ("" + "\n")) + fewer)
    ensures "\n" + ((tabs + (key + ":\t")) + (value + ("," + "\n")))
         == (((("\n" + tabs) + (key + ("" + ":"))) + ("\t" + (value + ""))) + ",") + "\n"
    ensures ("" + (key + ("" + ":"))) + ("" + (value + "")) == ("" + (key + ":")) + (value + ("" + ""))
    ensures ("" + (key + ":")) + (value + ("," + ""))
         == (("" + (key + ("" + ":"))) + ("" + (value + ""))) + ","
  {
  }

  // ----- what the spelling stands for -----

  lemma PrintedMarkMeans(c: char)
    requires c != '\0'
    ensures ProperMark(PrintedMark(c)) && MarkBytes(PrintedMark(c)) == [c]
  {
    if PrintedMark(c).Code? {
      var cp := c as int;
      assert UnitValue(PrintedMark(c).unit) == cp;
      OneForm(cp, [c]);
    }
  }

  lemma {:induction false} PrintedMarksMean(s: string)
    requires NulFree(s)
    ensures ProperMarks(PrintedMarks(s)) && MarksBytes(PrintedMarks(s)) == s
  {
    hide ProperMark, MarkBytes, PrintedMark;
    if s != "" {
      assert s[0] in s && NulFree(s[1..]);
      PrintedMarkMeans(s[0]);
      PrintedMarksMean(s[1..]);
      assert PrintedMarks(s)[0] == PrintedMark(s[0]) && PrintedMarks(s)[1..] == PrintedMarks(s[1..]);
      assert [s[0]] + s[1..] == s;
    }
  }

  lemma {:induction false} PrintedDigitsMean(n: nat)
    ensures forall i :: 0 <= i < |PrintedDigits(n)| ==> PrintedDigits(n)[i] < 10
    ensures PrintedDigits(n) != [] && DigitsValue(PrintedDigits(n)) == n
  {
    if n >= 10 {
      PrintedDigitsMean(n / 10);
      var d := PrintedDigits(n);
      assert d[..|d| - 1] == PrintedDigits(n / 10);
    } else {
      assert DigitsValue([n][..0]) == 0;
    }
  }

  lemma {:induction false} IndentBlanks(level: nat)
    ensures Blanks(Indent(level)) && Blanks(Break(level)) && ProperGap(Indent(level)) && ProperGap(Break(level))
  {
    if level > 0 {
      IndentBlanks(level - 1);
    }
  }

  /** Printed text is JSON by the standard, and stands for the tree it was printed from. */
  lemma {:induction false} PrintedIsJson(v: Json, format: bool, level: nat)
    requires Printable(v) && Representable(v)
    ensures var s := Laid(v, format, level); Proper(s) && Bare(s) && Tree(s) == v
    decreases v, 0
  {
    hide LaidItems, LaidMembers, Trees, Members, ProperMarks, Break, PrintedDigits, PrintedMarks, DigitsValue,
        MarksBytes,
        CString;
    match v {
      case Null =>
      case False =>
      case True =>
      case Number(n) => NumberIsJson(n, format, level);
      case String(s) => StringIsJson(s, format, level);
      case Array(items) => ItemsAreJson(items, true, format, level + 1);
      case Object(ms) =>
        IndentBlanks(level);
        MembersAreJson(ms, format, level + 1);
    }
  }

  lemma NumberIsJson(n: int, format: bool, level: nat)
    requires Representable(Number(n))
    ensures var s := Laid(Number(n), format, level); Proper(s) && Bare(s) && Tree(s) == Number(n)
  {
    hide PrintedDigits, DigitsValue, Decimal;
    var m: nat := if n < 0 then -n else n;
    PrintedDigitsMean(m);
    PrintedDigitsText(m);
    RoundTrip.FifteenDigits(m);
    assert |DigitsText(PrintedDigits(m))| == |PrintedDigits(m)|;
  }

  lemma StringIsJson(t: string, format: bool, level: nat)
    requires NulFree(t)
    ensures var s := Laid(String(t), format, level); Proper(s) && Bare(s) && Tree(s) == String(t)
  {
    hide PrintedMarks, ProperMarks, MarksBytes, CString;
    PrintedMarksMean(t);
    RoundTrip.CStringIdentity(t);
  }

  lemma {:induction false} ItemsAreJson(items: seq<Json>, first: bool, format: bool, level: nat)
    requires forall i :: 0 <= i < |items| ==> Printable(items[i]) && Representable(items[i])
    ensures var es := LaidItems(items, first, format, level);
      Trees(es) == items && forall i :: 0 <= i < |es| ==> ProperElement(es[i]) && BareElement(es[i])
    decreases items
  {
    hide Laid, Proper, Bare, Tree, Printable, Representable;
    if items != [] {
      PrintedIsJson(items[0], format, level);
      ItemsAreJson(items[1..], false, format, level);
      var es := LaidItems(items, first, format, level);
      assert es[1..] == LaidItems(items[1..], false, format, level);
      assert items == [items[0]] + items[1..];
      assert ProperElement(es[0]) && BareElement(es[0]);
    }
  }

  lemma {:induction false} MembersAreJson(ms: seq<Member>, format: bool, level: nat)
    requires level > 0 && Printable(Object(ms)) && RepresentableMembers(ms)
    ensures var fs := LaidMembers(ms, format, level);
      Members(fs) == ms && forall i :: 0 <= i < |fs| ==> ProperField(fs[i]) && BareField(fs[i])
    decreases ms, 2
  {
    hide LaidMember, ProperField, BareField, MemberOfField, Printable, Representable;
    if ms != [] {
      PrintableMembers(ms);
      var last := |ms| == 1;
      MemberIsJson(ms[0], last, format, level);
      MembersAreJson(ms[1..], format, level);
      var fs := LaidMembers(ms, format, level);
      assert fs[0] == LaidMember(ms[0], last, format, level) && fs[1..] == LaidMembers(ms[1..], format, level);
      assert ms == [ms[0]] + ms[1..];
    }
  }

  lemma {:induction false} MemberIsJson(m: Member, last: bool, format: bool, level: nat)
    requires level > 0 && NulFree(m.key) && Printable(m.val) && Representable(m.val)
    ensures var f := LaidMember(m, last, format, level); ProperField(f) && BareField(f) && MemberOfField(f) == m
    decreases m, 1
  {
    hide Laid, Proper, Bare, Tree, ProperMarks, MarksBytes, CString, Break;
    PrintedIsJson(m.val, format, level);
    PrintedMarksMean(m.key);
    RoundTrip.CStringIdentity(m.key);
    IndentBlanks(level);
    IndentBlanks(level - 1);
    var e := LaidMember(m, last, format, level).element;
    assert ProperElement(e) && BareElement(e);
  }
}
