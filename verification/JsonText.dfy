/** JSON text as RFC 8259 describes it, and what it stands for. */
module JsonText {
  // A spelling is the syntax tree of a text: it says which of the ways to write a value, a character or a gap was
  // chosen. Neither its text nor its tree is defined by way of the parser.

  import opened JsonTree
  import opened Pointers
  import opened Patching
  import opened Utf8

  // ----- strings, section 7 -----

  /** A hexadecimal digit and the case it is written in. */
  datatype Hex = Hex(value: nat, upper: bool)

  /** One character of a string: itself, the letter behind a backslash, a code unit, or a surrogate pair. */
  datatype Mark = Plain(c: char) | Short(letter: char) | Code(unit: seq<Hex>) | Pair(high: seq<Hex>, low: seq<Hex>)

  function HexText(h: Hex): char {
    if h.value < 16 then (if h.upper then "0123456789ABCDEF" else "0123456789abcdef")[h.value] else '?'
  }

  function UnitText(unit: seq<Hex>): string {
    "\\u" + seq(|unit|, i requires 0 <= i < |unit| => HexText(unit[i]))
  }

  /** The number four digits write. */
  function UnitValue(unit: seq<Hex>): nat {
    if |unit| == 4 then 4096 * unit[0].value + 256 * unit[1].value + 16 * unit[2].value + unit[3].value else 0
  }

  predicate ProperUnit(unit: seq<Hex>) {
    |unit| == 4 && forall i :: 0 <= i < 4 ==> unit[i].value < 16
  }

  /** Control characters may stand for themselves here, which the standard does not allow; lone surrogates may not. */
  predicate ProperMark(m: Mark) {
    match m
    case Plain(c) => c != '\"' && c != '\\' && c != '\0'
    case Short(letter) => letter in "\"\\/bfnrt"
    case Code(unit) => ProperUnit(unit) && !(0xD800 <= UnitValue(unit) <= 0xDFFF)
    case Pair(high, low) =>
      && ProperUnit(high) && 0xD800 <= UnitValue(high) <= 0xDBFF
      && ProperUnit(low) && 0xDC00 <= UnitValue(low) <= 0xDFFF
  }

  function MarkText(m: Mark): string {
    match m
    case Plain(c) => [c]
    case Short(letter) => "\\" + [letter]
    case Code(unit) => UnitText(unit)
    case Pair(high, low) => UnitText(high) + UnitText(low)
  }

  /** The byte sequence that section 3 of RFC 3629 decodes to a code point. */
  ghost function Utf8Form(cp: int): (b: string)
    ensures cp >= 0 && ScalarValue(cp) ==> DecodeBytes(b) == Some(cp)
  {
    if cp >= 0 && ScalarValue(cp) then
      EncodeIsUtf8(cp, Encode(cp));
      var b :| DecodeBytes(b) == Some(cp); b
    else ""
  }

  /** The bytes a character stands for. */
  ghost function MarkBytes(m: Mark): string {
    match m
    case Plain(c) => [c]
    case Short(letter) =>
      [if letter == 'b' then 8 as char else if letter == 't' then 9 as char else if letter == 'n' then 10 as char
       else if letter == 'f' then 12 as char else if letter == 'r' then 13 as char else letter]
    case Code(unit) => Utf8Form(UnitValue(unit))
    case Pair(high, low) => Utf8Form(0x10000 + 0x400 * (UnitValue(high) - 0xD800) + (UnitValue(low) - 0xDC00))
  }

  predicate ProperMarks(marks: seq<Mark>) {
    forall i :: 0 <= i < |marks| ==> ProperMark(marks[i])
  }

  function MarksText(marks: seq<Mark>): string {
    if marks == [] then "" else MarkText(marks[0]) + MarksText(marks[1..])
  }

  ghost function MarksBytes(marks: seq<Mark>): string {
    if marks == [] then "" else MarkBytes(marks[0]) + MarksBytes(marks[1..])
  }

  function LiteralText(marks: seq<Mark>): string {
    "\"" + (MarksText(marks) + "\"")
  }

  // ----- gaps, section 2 -----

  /** White space, and the comments that only the minifier knows. */
  datatype Filler = White(c: char) | Line(t: string) | Block(t: string)

  /** A comment goes on to the first end of a line, or to the first asterisk and slash; the asterisk it begins with
      counts for that. */
  predicate ProperFiller(f: Filler) {
    match f
    case White(c) => c in " \t\r\n"
    case Line(t) => '\n' !in t
    case Block(t) => (t != "" ==> t[0] != '/') && forall i :: 0 <= i < |t| - 1 ==> !(t[i] == '*' && t[i + 1] == '/')
  }

  function FillerText(f: Filler): string {
    match f case White(c) => [c] case Line(t) => "//" + (t + "\n") case Block(t) => "/*" + (t + "*/")
  }

  predicate ProperGap(gap: seq<Filler>) {
    forall i :: 0 <= i < |gap| ==> ProperFiller(gap[i])
  }

  /** A gap the standard allows. */
  predicate Blanks(gap: seq<Filler>) {
    forall i :: 0 <= i < |gap| ==> gap[i].White? && ProperFiller(gap[i])
  }

  function GapText(gap: seq<Filler>): string {
    if gap == [] then "" else FillerText(gap[0]) + GapText(gap[1..])
  }

  // ----- values, sections 3 to 6 -----

  datatype Spelling =
    | WordNull
    | WordFalse
    | WordTrue
    | Numeral(negative: bool, digits: seq<nat>)
    | Characters(marks: seq<Mark>)
    | List(open: seq<Filler>, elements: seq<Element>)
    | Record(open: seq<Filler>, fields: seq<Field>)

  datatype Element = Element(before: seq<Filler>, value: Spelling, after: seq<Filler>)

  datatype Field = Field(before: seq<Filler>, name: seq<Mark>, between: seq<Filler>, element: Element)

  function DigitsText(digits: seq<nat>): string {
    seq(|digits|, i requires 0 <= i < |digits| => if digits[i] < 10 then ('0' as int + digits[i]) as char else '?')
  }

  /** Positional notation. */
  function DigitsValue(digits: seq<nat>): nat {
    if digits == [] then 0 else 10 * DigitsValue(digits[..|digits| - 1]) + digits[|digits| - 1]
  }

  function Signed(negative: bool, n: int): int {
    if negative then -n else n
  }

  /** Numbers are integers of at most 63 characters, which may begin with zeros. */
  predicate Proper(s: Spelling) {
    match s
    case Numeral(negative, digits) =>
      0 < |digits| <= (if negative then 62 else 63) && forall i :: 0 <= i < |digits| ==> digits[i] < 10
    case Characters(marks) => ProperMarks(marks)
    case List(open, elements) => ProperGap(open) && forall i :: 0 <= i < |elements| ==> ProperElement(elements[i])
    case Record(open, fields) => ProperGap(open) && forall i :: 0 <= i < |fields| ==> ProperField(fields[i])
    case _ => true
  }

  predicate ProperElement(e: Element) {
    ProperGap(e.before) && Proper(e.value) && ProperGap(e.after)
  }

  predicate ProperField(f: Field) {
    ProperGap(f.before) && ProperMarks(f.name) && ProperGap(f.between) && ProperElement(f.element)
  }

  /** No comments anywhere. */
  predicate Bare(s: Spelling) {
    match s
    case List(open, elements) => Blanks(open) && forall i :: 0 <= i < |elements| ==> BareElement(elements[i])
    case Record(open, fields) => Blanks(open) && forall i :: 0 <= i < |fields| ==> BareField(fields[i])
    case _ => true
  }

  predicate BareElement(e: Element) {
    Blanks(e.before) && Bare(e.value) && Blanks(e.after)
  }

  predicate BareField(f: Field) {
    Blanks(f.before) && Blanks(f.between) && BareElement(f.element)
  }

  function Text(s: Spelling): string {
    match s
    case WordNull => "null"
    case WordFalse => "false"
    case WordTrue => "true"
    case Numeral(negative, digits) => (if negative then "-" else "") + DigitsText(digits)
    case Characters(marks) => LiteralText(marks)
    case List(open, elements) => "[" + (GapText(open) + ElementsText(elements))
    case Record(open, fields) => "{" + (GapText(open) + FieldsText(fields))
  }

  function ElementText(e: Element): string {
    GapText(e.before) + (Text(e.value) + GapText(e.after))
  }

  /** The elements of an array with the commas between them and the closing bracket. */
  function ElementsText(elements: seq<Element>): string {
    if elements == [] then "]"
    else if |elements| == 1 then ElementText(elements[0]) + "]"
    else ElementText(elements[0]) + ("," + ElementsText(elements[1..]))
  }

  function NameText(f: Field): string {
    GapText(f.before) + (LiteralText(f.name) + (GapText(f.between) + ":"))
  }

  function FieldText(f: Field): string {
    NameText(f) + ElementText(f.element)
  }

  function FieldsText(fields: seq<Field>): string {
    if fields == [] then "}"
    else if |fields| == 1 then FieldText(fields[0]) + "}"
    else FieldText(fields[0]) + ("," + FieldsText(fields[1..]))
  }

  /** A byte order mark or none, and a value between gaps. */
  function WholeText(mark: bool, before: seq<Filler>, s: Spelling, after: seq<Filler>): string {
    (if mark then "\U{EF}\U{BB}\U{BF}" else "") + (GapText(before) + (Text(s) + GapText(after)))
  }

  /** The tree a text stands for. Strings and names are C strings: a zero byte, which only \u0000 can bring in, ends
      them. */
  ghost function Tree(s: Spelling): Json {
    match s
    case WordNull => Null
    case WordFalse => False
    case WordTrue => True
    case Numeral(negative, digits) => Number(Signed(negative, DigitsValue(digits)))
    case Characters(marks) => String(CString(MarksBytes(marks)))
    case List(_, elements) => Array(Trees(elements))
    case Record(_, fields) => Object(Members(fields))
  }

  ghost function Trees(elements: seq<Element>): seq<Json> {
    if elements == [] then [] else [Tree(elements[0].value)] + Trees(elements[1..])
  }

  ghost function MemberOfField(f: Field): Member {
    Member(CString(MarksBytes(f.name)), Tree(f.element.value))
  }

  ghost function Members(fields: seq<Field>): seq<Member> {
    if fields == [] then [] else [MemberOfField(fields[0])] + Members(fields[1..])
  }

  // ----- without gaps -----

  /** The same text with nothing in its gaps. */
  function Compact(s: Spelling): Spelling {
    match s
    case List(_, elements) => List([], CompactElements(elements))
    case Record(_, fields) => Record([], CompactFields(fields))
    case _ => s
  }

  function CompactElement(e: Element): Element {
    Element([], Compact(e.value), [])
  }

  function CompactElements(elements: seq<Element>): seq<Element> {
    if elements == [] then [] else [CompactElement(elements[0])] + CompactElements(elements[1..])
  }

  function CompactField(f: Field): Field {
    Field([], f.name, [], CompactElement(f.element))
  }

  function CompactFields(fields: seq<Field>): seq<Field> {
    if fields == [] then [] else [CompactField(fields[0])] + CompactFields(fields[1..])
  }
}
