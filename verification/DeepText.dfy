/** JSON text nested beyond the limit is refused. */
module NestingRefused {
  import opened CStrings
  import opened JsonTree
  import opened Decimals
  import opened Pointers
  import opened Patching
  import opened Rendering
  import opened ParserGrammar
  import opened MinifiedParsing
  import opened JsonText
  import opened TextReading
  import RoundTrip = PrintParseRoundTrip

  // ----- what texts consist of -----

  lemma BlanksClean(gap: seq<Filler>)
    requires Blanks(gap)
    ensures Space(GapText(gap)) && Clean(GapText(gap))
  {
    BlanksSpace(gap);
  }

  lemma {:induction false} TextClean(s: Spelling)
    requires Proper(s) && Bare(s)
    ensures Clean(Text(s)) && Text(s) != "" && RoundTrip.ValueStart(Text(s)[0])
    decreases s, 0
  {
    hide ElementsText, FieldsText, GapText, MarksText, DigitsText, Space;
    match s {
      case WordNull =>
      case WordFalse =>
      case WordTrue =>
      case Numeral(_, digits) => DigitsClean(digits);
      case Characters(marks) => MarksClean(marks);
      case List(open, elements) =>
        BlanksClean(open);
        ElementsClean(elements);
        CleanAppend(GapText(open), ElementsText(elements));
      case Record(open, fields) =>
        BlanksClean(open);
        FieldsClean(fields);
        CleanAppend(GapText(open), FieldsText(fields));
    }
  }

  lemma DigitsClean(digits: seq<nat>)
    requires digits != [] && forall i :: 0 <= i < |digits| ==> digits[i] < 10
    ensures Clean(DigitsText(digits)) && DigitsText(digits) != "" && IsDigit(DigitsText(digits)[0])
  {
    DigitsRead(digits);
  }

  lemma {:induction false} ElementClean(e: Element)
    requires ProperElement(e) && BareElement(e)
    ensures Clean(ElementText(e))
    decreases e, 1
  {
    hide Text, GapText, Space;
    BlanksClean(e.before);
    BlanksClean(e.after);
    TextClean(e.value);
    CleanAppend(Text(e.value), GapText(e.after));
    CleanAppend(GapText(e.before), Text(e.value) + GapText(e.after));
  }

  lemma {:induction false} ElementsClean(elements: seq<Element>)
    requires forall i :: 0 <= i < |elements| ==> ProperElement(elements[i]) && BareElement(elements[i])
    ensures Clean(ElementsText(elements))
    decreases elements, 3
  {
    hide ElementText, ProperElement, BareElement;
    if elements != [] {
      ElementClean(elements[0]);
      ElementsClean(elements[1..]);
    }
  }

  lemma {:induction false} FieldClean(f: Field)
    requires ProperField(f) && BareField(f)
    ensures Clean(FieldText(f)) && Clean(NameText(f))
    decreases f, 2
  {
    hide ElementText, MarksText, GapText, Space;
    BlanksClean(f.before);
    BlanksClean(f.between);
    MarksClean(f.name);
    ElementClean(f.element);
  }

  lemma {:induction false} FieldsClean(fields: seq<Field>)
    requires forall i :: 0 <= i < |fields| ==> ProperField(fields[i]) && BareField(fields[i])
    ensures Clean(FieldsText(fields))
    decreases fields, 3
  {
    hide FieldText, ProperField, BareField;
    if fields != [] {
      FieldClean(fields[0]);
      FieldsClean(fields[1..]);
    }
  }

  // ----- refusing -----

  /** A value nested too deeply is refused whatever follows. */
  lemma {:induction false} RefusesText(s: Spelling, depth: nat, rest: string)
    requires Proper(s) && Bare(s) && Terminated(rest) && depth <= NESTING_LIMIT < depth + Depth(Tree(s))
    ensures Terminated(Text(s) + rest) && ParseValue(Text(s) + rest, depth) == Fail
    decreases s, 0
  {
    hide ParseValue, ParseArray, ParseObject, ElementsText, FieldsText, GapText, Trees, Members, Terminated, Clean;
    TextClean(s);
    RoundTrip.TerminatedText(Text(s), rest);
    if s.List? {
      RefusesList(s.open, s.elements, depth, rest);
    } else if s.Record? {
      RefusesRecord(s.open, s.fields, depth, rest);
    }
  }

  /** A list with elements, from the bracket to the first of them. */
  lemma ListOpens(open: seq<Filler>, elements: seq<Element>, rest: string)
    requires Blanks(open) && elements != [] && Terminated(rest)
    requires forall i :: 0 <= i < |elements| ==> ProperElement(elements[i]) && BareElement(elements[i])
    ensures var x, s := ElementsText(elements) + rest, Text(List(open, elements)) + rest;
      && s == "[" + (GapText(open) + x) && s[0] == '[' && s[1..] == GapText(open) + x
      && Terminated(x) && Terminated(s) && Terminated(s[1..])
      && SkipWhitespace(s[1..]) == SkipWhitespace(x) && SkipWhitespace(x)[0] != ']'
  {
    hide ElementsText, ElementText, GapText, SkipWhitespace, Text, Space, Clean;
    var x, s := ElementsText(elements) + rest, Text(List(open, elements)) + rest;
    assert Text(List(open, elements)) == "[" + (GapText(open) + ElementsText(elements)) by {
      ListText(open, elements);
    }
    assert s == "[" + (GapText(open) + x);
    RoundTrip.Cons('[', GapText(open) + x);
    BlanksClean(open);
    ElementsClean(elements);
    RoundTrip.TerminatedText(ElementsText(elements), rest);
    RoundTrip.TerminatedText(GapText(open), x);
    RoundTrip.TerminatedText("[", GapText(open) + x);
    RoundTrip.SkipsBlank(GapText(open), x);
    FirstElement(elements, rest);
  }

  lemma ListText(open: seq<Filler>, elements: seq<Element>)
    ensures Text(List(open, elements)) == "[" + (GapText(open) + ElementsText(elements))
  {
  }

  lemma FirstElement(elements: seq<Element>, rest: string)
    requires elements != [] && ProperElement(elements[0]) && BareElement(elements[0])
    ensures SkipWhitespace(ElementsText(elements) + rest)[0] != ']'
  {
    hide SkipWhitespace, Text, GapText, Space, Clean;
    var e := elements[0];
    var after := if |elements| == 1 then "]" else "," + ElementsText(elements[1..]);
    var t := Text(e.value) + (GapText(e.after) + (after + rest));
    assert ElementsText(elements) + rest == GapText(e.before) + t;
    BlanksClean(e.before);
    TextClean(e.value);
    RoundTrip.HeadOf(Text(e.value), GapText(e.after) + (after + rest));
    RoundTrip.SkipsBlank(GapText(e.before), t);
    RoundTrip.SkipNothing(t);
  }

  lemma {:induction false} RefusesList(open: seq<Filler>, elements: seq<Element>, depth: nat, rest: string)
    requires Blanks(open) && Terminated(rest) && depth <= NESTING_LIMIT < depth + 1 + ItemsDepth(Trees(elements))
    requires forall i :: 0 <= i < |elements| ==> ProperElement(elements[i]) && BareElement(elements[i])
    requires Terminated(Text(List(open, elements)) + rest)
    ensures ParseValue(Text(List(open, elements)) + rest, depth) == Fail
    decreases elements, 4
  {
    hide ParseValue, ParseArray, ParseElements, ElementsText, GapText, SkipWhitespace, Terminated, ProperElement,
        BareElement, Text;
    var s := Text(List(open, elements)) + rest;
    if depth == NESTING_LIMIT {
      TooDeep(open, elements, [], rest);
    } else {
      NothingInside(elements, []);
      ListOpens(open, elements, rest);
      RoundTrip.Dispatch(s, depth);
      ArrayUnfolds(s, depth);
      RefusesElements(elements, depth + 1, rest);
      ElementsSkipAll(ElementsText(elements) + rest, depth + 1);
    }
  }

  /** At the limit every bracket is refused. */
  lemma TooDeep(open: seq<Filler>, elements: seq<Element>, fields: seq<Field>, rest: string)
    ensures Terminated(Text(List(open, elements)) + rest) ==>
      ParseValue(Text(List(open, elements)) + rest, NESTING_LIMIT) == Fail
    ensures Terminated(Text(Record(open, fields)) + rest) ==>
      ParseValue(Text(Record(open, fields)) + rest, NESTING_LIMIT) == Fail
  {
    hide ParseValue, ElementsText, FieldsText, GapText, Terminated;
    var s, t := Text(List(open, elements)) + rest, Text(Record(open, fields)) + rest;
    assert s[0] == '[' && t[0] == '{';
    if Terminated(s) {
      RoundTrip.Dispatch(s, NESTING_LIMIT);
    }
    if Terminated(t) {
      RoundTrip.Dispatch(t, NESTING_LIMIT);
    }
  }

  /** White space in front makes no difference. */
  lemma ElementsSkipAll(s: string, depth: nat)
    requires Terminated(s)
    ensures Terminated(SkipWhitespace(s)) && ParseElements(SkipWhitespace(s), depth) == ParseElements(s, depth)
  {
    hide ParseValue, SkipWhitespace;
    SkipTwice(s);
    SkipTerminated(s);
    assert ParseElement(SkipWhitespace(s), depth) == ParseElement(s, depth);
  }

  lemma MembersSkipAll(s: string, depth: nat)
    requires Terminated(s)
    ensures Terminated(SkipWhitespace(s)) && ParseMembers(SkipWhitespace(s), depth) == ParseMembers(s, depth)
  {
    hide ParseElement, SkipWhitespace, ParseString;
    SkipTwice(s);
    SkipTerminated(s);
    assert ParseName(SkipWhitespace(s)) == ParseName(s);
  }

  lemma {:induction false} RefusesElement(e: Element, depth: nat, rest: string)
    requires ProperElement(e) && BareElement(e) && Terminated(rest)
    requires depth <= NESTING_LIMIT < depth + Depth(Tree(e.value))
    ensures Terminated(ElementText(e) + rest) && ParseElement(ElementText(e) + rest, depth) == Fail
    decreases e, 1
  {
    hide ParseValue, SkipWhitespace, Text, GapText, Space, Terminated, Tree, Clean;
    var z := GapText(e.after) + rest;
    var t := Text(e.value) + z;
    assert ElementText(e) + rest == GapText(e.before) + t;
    BlanksClean(e.before);
    BlanksClean(e.after);
    RoundTrip.TerminatedText(GapText(e.after), rest);
    RefusesText(e.value, depth, z);
    RoundTrip.TerminatedText(GapText(e.before), t);
    TextClean(e.value);
    RoundTrip.HeadOf(Text(e.value), z);
    RoundTrip.SkipsBlank(GapText(e.before), t);
    RoundTrip.SkipNothing(t);
  }

  lemma {:induction false} RefusesElements(elements: seq<Element>, depth: nat, rest: string)
    requires forall i :: 0 <= i < |elements| ==> ProperElement(elements[i]) && BareElement(elements[i])
    requires Terminated(rest) && elements != []
    requires depth <= NESTING_LIMIT < depth + ItemsDepth(Trees(elements))
    ensures Terminated(ElementsText(elements) + rest) && ParseElements(ElementsText(elements) + rest, depth) == Fail
    decreases elements, 3
  {
    hide ParseElement, ParseElements, ElementText, ProperElement, BareElement, Tree, Terminated, ReadsElement, Clean;
    var e, others := elements[0], elements[1..];
    assert Trees(elements)[0] == Tree(e.value) && Trees(elements)[1..] == Trees(others);
    var tail := ElementsText(others) + rest;
    var after := if others == [] then "]" + rest else "," + tail;
    assert ElementsText(elements) + rest == ElementText(e) + after;
    ElementsClean(others);
    RoundTrip.TerminatedText(ElementsText(others), rest);
    RoundTrip.TerminatedText("]", rest);
    RoundTrip.TerminatedText(",", tail);
    RoundTrip.Cons(']', rest);
    RoundTrip.Cons(',', tail);
    if depth + Depth(Tree(e.value)) > NESTING_LIMIT {
      RefusesElement(e, depth, after);
      ElementsFail(ElementText(e) + after, depth);
    } else {
      ReadsElementText(e, depth);
      RefusesElements(others, depth, rest);
      ElementRead(ElementText(e), Tree(e.value), depth, after);
      RoundTrip.OneMoreElement(ElementText(e) + after, depth, true, Tree(e.value), tail, false, [], rest);
    }
  }

  lemma ElementRead(m: string, v: Json, depth: nat, rest: string)
    requires ReadsElement(m, v, depth) && Stops(rest)
    ensures Terminated(m + rest) && ParseElement(m + rest, depth) == Ok(v, rest)
  {
    hide ParseElement;
    assert ReadsElementAt(m, v, depth, rest);
  }

  lemma ElementsFail(s: string, depth: nat)
    requires Terminated(s)
    ensures ParseElement(s, depth) == Fail ==> ParseElements(s, depth) == Fail
    ensures ParseMember(s, depth) == Fail ==> ParseMembers(s, depth) == Fail
  {
    hide ParseElement, ParseMember;
  }

  // ----- objects -----

  lemma RecordOpens(open: seq<Filler>, fields: seq<Field>, rest: string)
    requires Blanks(open) && fields != [] && Terminated(rest)
    requires forall i :: 0 <= i < |fields| ==> ProperField(fields[i]) && BareField(fields[i])
    ensures var x, s := FieldsText(fields) + rest, Text(Record(open, fields)) + rest;
      && s == "{" + (GapText(open) + x) && s[0] == '{' && s[1..] == GapText(open) + x
      && Terminated(x) && Terminated(s) && Terminated(s[1..])
      && SkipWhitespace(s[1..]) == SkipWhitespace(x) && SkipWhitespace(x)[0] != '}'
  {
    hide FieldsText, FieldText, GapText, SkipWhitespace, Text, Space, Clean;
    var x, s := FieldsText(fields) + rest, Text(Record(open, fields)) + rest;
    assert Text(Record(open, fields)) == "{" + (GapText(open) + FieldsText(fields)) by {
      RecordText(open, fields);
    }
    assert s == "{" + (GapText(open) + x);
    RoundTrip.Cons('{', GapText(open) + x);
    BlanksClean(open);
    FieldsClean(fields);
    RoundTrip.TerminatedText(FieldsText(fields), rest);
    RoundTrip.TerminatedText(GapText(open), x);
    RoundTrip.TerminatedText("{", GapText(open) + x);
    RoundTrip.SkipsBlank(GapText(open), x);
    FirstField(fields, rest);
  }

  lemma RecordText(open: seq<Filler>, fields: seq<Field>)
    ensures Text(Record(open, fields)) == "{" + (GapText(open) + FieldsText(fields))
  {
  }

  lemma FirstField(fields: seq<Field>, rest: string)
    requires fields != [] && BareField(fields[0])
    ensures SkipWhitespace(FieldsText(fields) + rest)[0] != '}'
  {
    hide SkipWhitespace, GapText, Space, MarksText, ElementText;
    var f := fields[0];
    var after := if |fields| == 1 then "}" else "," + FieldsText(fields[1..]);
    var tail := MarksText(f.name) + ("\"" + (GapText(f.between) + (":" + (ElementText(f.element) + (after + rest)))));
    NameInFront(GapText(f.before), MarksText(f.name), GapText(f.between), ElementText(f.element), after, rest);
    assert FieldsText(fields) + rest == GapText(f.before) + ("\"" + tail);
    BlanksClean(f.before);
    RoundTrip.Cons('\"', tail);
    RoundTrip.SkipsBlank(GapText(f.before), "\"" + tail);
    RoundTrip.SkipNothing("\"" + tail);
  }

  lemma NameInFront(w: string, name: string, z: string, e: string, after: string, rest: string)
    ensures (((w + (("\"" + (name + "\"")) + (z + ":"))) + e) + after) + rest
         == w + ("\"" + (name + ("\"" + (z + (":" + (e + (after + rest)))))))
  {
  }

  lemma {:induction false} RefusesRecord(open: seq<Filler>, fields: seq<Field>, depth: nat, rest: string)
    requires Blanks(open) && Terminated(rest) && depth <= NESTING_LIMIT < depth + 1 + MembersDepth(Members(fields))
    requires forall i :: 0 <= i < |fields| ==> ProperField(fields[i]) && BareField(fields[i])
    requires Terminated(Text(Record(open, fields)) + rest)
    ensures ParseValue(Text(Record(open, fields)) + rest, depth) == Fail
    decreases fields, 4
  {
    hide ParseValue, ParseObject, ParseMembers, FieldsText, GapText, SkipWhitespace, Terminated, ProperField, BareField,
        Text;
    var s := Text(Record(open, fields)) + rest;
    if depth == NESTING_LIMIT {
      TooDeep(open, [], fields, rest);
    } else {
      NothingInside([], fields);
      RecordOpens(open, fields, rest);
      RoundTrip.Dispatch(s, depth);
      ObjectUnfolds(s, depth);
      RefusesFields(fields, depth + 1, rest);
      MembersSkipAll(FieldsText(fields) + rest, depth + 1);
    }
  }

  lemma {:induction false} RefusesField(f: Field, depth: nat, rest: string)
    requires ProperField(f) && BareField(f) && Terminated(rest)
    requires depth <= NESTING_LIMIT < depth + Depth(Tree(f.element.value))
    ensures Terminated(FieldText(f) + rest) && ParseMember(FieldText(f) + rest, depth) == Fail
    decreases f, 2
  {
    hide ParseName, ParseElement, NameText, ElementText, Terminated, Tree, Clean, ReadsName;
    var q := ElementText(f.element) + rest;
    assert FieldText(f) + rest == NameText(f) + q;
    RefusesElement(f.element, depth, rest);
    ReadsNameText(f);
    NameRead(NameText(f), CString(MarksBytes(f.name)), q);
  }

  lemma NameRead(m: string, name: string, rest: string)
    requires ReadsName(m, name) && Terminated(rest)
    ensures Terminated(m + rest) && ParseName(m + rest) == Ok(name, rest)
  {
    hide ParseName;
    assert ReadsNameAt(m, name, rest);
  }

  lemma MemberRead(m: string, x: Member, depth: nat, rest: string)
    requires ReadsMember(m, x, depth) && Stops(rest)
    ensures Terminated(m + rest) && ParseMember(m + rest, depth) == Ok(x, rest)
  {
    hide ParseMember;
    assert ReadsMemberAt(m, x, depth, rest);
  }

  lemma {:induction false} RefusesFields(fields: seq<Field>, depth: nat, rest: string)
    requires forall i :: 0 <= i < |fields| ==> ProperField(fields[i]) && BareField(fields[i])
    requires Terminated(rest) && fields != []
    requires depth <= NESTING_LIMIT < depth + MembersDepth(Members(fields))
    ensures Terminated(FieldsText(fields) + rest) && ParseMembers(FieldsText(fields) + rest, depth) == Fail
    decreases fields, 3
  {
    hide ParseMember, ParseMembers, FieldText, ProperField, BareField, Tree, Terminated, ReadsMember, Clean;
    var f, others := fields[0], fields[1..];
    assert Members(fields)[0] == MemberOfField(f) && Members(fields)[1..] == Members(others);
    var tail := FieldsText(others) + rest;
    var after := if others == [] then "}" + rest else "," + tail;
    assert FieldsText(fields) + rest == FieldText(f) + after;
    FieldsClean(others);
    RoundTrip.TerminatedText(FieldsText(others), rest);
    RoundTrip.TerminatedText("}", rest);
    RoundTrip.TerminatedText(",", tail);
    RoundTrip.Cons('}', rest);
    RoundTrip.Cons(',', tail);
    if depth + Depth(Tree(f.element.value)) > NESTING_LIMIT {
      RefusesField(f, depth, after);
      ElementsFail(FieldText(f) + after, depth);
    } else {
      ReadsFieldText(f, depth);
      RefusesFields(others, depth, rest);
      MemberRead(FieldText(f), MemberOfField(f), depth, after);
      RoundTrip.OneMoreMember(FieldText(f) + after, depth, true, MemberOfField(f), tail, false, [], rest);
    }
  }

  // ----- documents -----

  /** Every text of the standard's grammar, with integers for numbers: it is accepted exactly if it is nested within the
      limit, and then read as the tree it stands for. */
  lemma ReadsExactly(mark: bool, before: seq<Filler>, s: Spelling, after: seq<Filler>)
    requires Proper(s) && Bare(s) && Blanks(before) && Blanks(after)
    ensures var text := WholeText(mark, before, s, after);
      && NulFree(text)
      && ParseDocument(text, true) == if Depth(Tree(s)) <= NESTING_LIMIT then Some(Tree(s)) else None
  {
    hide ParseDocument, Text, Tree, GapText, Blanks;
    if Depth(Tree(s)) <= NESTING_LIMIT {
      ReadsDocument(mark, before, s, after);
    } else {
      RefusesDocument(mark, before, s, after);
    }
  }

  lemma RefusesDocument(mark: bool, before: seq<Filler>, s: Spelling, after: seq<Filler>)
    requires Proper(s) && Bare(s) && Blanks(before) && Blanks(after) && Depth(Tree(s)) > NESTING_LIMIT
    ensures var text := WholeText(mark, before, s, after); NulFree(text) && ParseDocument(text, true) == None
  {
    hide ParseValue, SkipWhitespace, Text, Tree, GapText, SkipBom, Terminated, NulFree;
    var text, bom := WholeText(mark, before, s, after), if mark then BOM else "";
    var m, z := Text(s), GapText(after) + "\0";
    var t := m + z;
    BlanksClean(before);
    BlanksClean(after);
    TextClean(s);
    CleanTexts(bom, GapText(before), m, GapText(after));
    RefusesText(s, 0, z);
    RoundTrip.HeadOf(m, z);
    MarkSkipped(bom, GapText(before), t);
    RoundTrip.SkipsBlank(GapText(before), t);
    RoundTrip.SkipNothing(t);
    BomTerminated(text);
    SkipTerminated(GapText(before) + t);
  }

  lemma CleanTexts(bom: string, w: string, m: string, z: string)
    requires (bom == "" || bom == BOM) && Clean(w) && Clean(m) && Clean(z)
    ensures NulFree(bom + (w + (m + z))) && Terminated(z + "\0")
    ensures (bom + (w + (m + z))) + ['\0'] == bom + (w + (m + (z + "\0")))
  {
    assert BOM[0] == '\U{EF}' && BOM[1] == '\U{BB}' && BOM[2] == '\U{BF}' && |BOM| == 3;
    CleanAppend(m, z);
    CleanAppend(w, m + z);
    CleanAppend(bom, w + (m + z));
  }

  lemma MarkSkipped(bom: string, w: string, t: string)
    requires (bom == "" || bom == BOM) && Space(w) && |t| >= 2 && RoundTrip.ValueStart(t[0])
    ensures SkipBom(bom + (w + t)) == w + t
  {
    assert BOM[0] == '\U{EF}' && |BOM| == 3;
    assert (w + t)[0] != BOM[0];
    assert bom == BOM ==> (bom + (w + t))[3..] == w + t;
    assert bom == "" ==> bom + (w + t) == w + t;
  }
}
