/** The text of a tree, as cJSON_Print (formatted) and cJSON_PrintUnformatted write it. */
module Rendering {
  import opened CStrings
  import opened JsonTree
  import opened Decimals

  const BACKSPACE := '\U{8}'
  const FORMFEED := '\U{C}'

  /** Letter after the backslash of a two-character escape. */
  function ShortEscape(c: char): char {
    if c == BACKSPACE then 'b'
    else if c == FORMFEED then 'f'
    else if c == '\n' then 'n'
    else if c == '\r' then 'r'
    else if c == '\t' then 't'
    else c
  }

  predicate HasShortEscape(c: char) {
    c == '\"' || c == '\\' || c == BACKSPACE || c == FORMFEED || c == '\n' || c == '\r' || c == '\t'
  }

  function HexDigit(d: nat): char
    requires d < 16
  {
    if d < 10 then (d + '0' as int) as char else (d - 10 + 'a' as int) as char
  }

  /** How one character of a string is written. */
  function Escaped(c: char): (r: string)
    ensures |r| == 1 + EscapeCharacters(c)
  {
    if HasShortEscape(c) then ['\\', ShortEscape(c)]
    else if (c as int) < 32 then ['\\', 'u', '0', '0', HexDigit(c as int / 16), HexDigit(c as int % 16)]
    else [c]
  }

  /** The additional bytes the first pass of print_string_ptr counts for a character. */
  function EscapeCharacters(c: char): nat {
    if HasShortEscape(c) then 1 else if (c as int) < 32 then 5 else 0
  }

  function EscapedText(s: string): string {
    if s == [] then "" else Escaped(s[0]) + EscapedText(s[1..])
  }

  function StringText(s: string): string {
    "\"" + EscapedText(s) + "\""
  }

  function Tabs(n: nat): (r: string)
    ensures |r| == n && forall i :: 0 <= i < n ==> r[i] == '\t'
  {
    if n == 0 then "" else "\t" + Tabs(n - 1)
  }

  /** The text of a node; depth is the nesting level its closing bracket is indented to. */
  function Render(v: Json, format: bool, depth: nat): string
    decreases v, 0
  {
    match v
    case Invalid => ""
    case Null => "null"
    case False => "false"
    case True => "true"
    case Number(n) => SignedDecimal(n)
    case String(s) => StringText(s)
    case Array(items) => "[" + (ItemsText(items, format, depth + 1) + "]")
    case Object(ms) =>
      OpenBrace(format) + (MembersText(ms, format, depth + 1) + ((if format then Tabs(depth) else "") + "}"))
  }

  function OpenBrace(format: bool): string {
    if format then "{\n" else "{"
  }

  function ItemSeparator(format: bool): string {
    if format then ", " else ","
  }

  /** An element and, unless it is the last, the separator behind it. */
  function ItemText(v: Json, last: bool, format: bool, depth: nat): string
    decreases v, 1
  {
    Render(v, format, depth) + (if last then "" else ItemSeparator(format))
  }

  function ItemsText(items: seq<Json>, format: bool, depth: nat): string
    decreases items
  {
    if items == [] then ""
    else ItemText(items[0], |items| == 1, format, depth) + ItemsText(items[1..], format, depth)
  }

  /** After a member: a comma if another follows, a line break when formatting. */
  function MemberEnd(last: bool, format: bool): string {
    (if last then "" else ",") + (if format then "\n" else "")
  }

  function KeyText(key: string, format: bool, depth: nat): string {
    (if format then Tabs(depth) else "") + (StringText(key) + (if format then ":\t" else ":"))
  }

  function MemberText(m: Member, last: bool, format: bool, depth: nat): string
    decreases m
  {
    KeyText(m.key, format, depth) + (Render(m.val, format, depth) + MemberEnd(last, format))
  }

  function MembersText(ms: seq<Member>, format: bool, depth: nat): string
    decreases ms
  {
    if ms == [] then ""
    else MemberText(ms[0], |ms| == 1, format, depth) + MembersText(ms[1..], format, depth)
  }

  /** Trees the model's printing covers: C strings hold no zero byte, and numbers are integers that
      "%1.15g" writes without an exponent. */
  ghost predicate Representable(v: Json) {
    match v
    case Number(n) => -1_000_000_000_000_000 < n < 1_000_000_000_000_000
    case String(s) => NulFree(s)
    case Array(items) => forall i :: 0 <= i < |items| ==> Representable(items[i])
    case Object(ms) => RepresentableMembers(ms)
    case _ => true
  }

  ghost predicate RepresentableMembers(ms: seq<Member>) {
    forall i :: 0 <= i < |ms| ==> NulFree(ms[i].key) && Representable(ms[i].val)
  }

  /** No node of the tree has the type tag zero. */
  ghost predicate Printable(v: Json) {
    match v
    case Invalid => false
    case Array(items) => forall i :: 0 <= i < |items| ==> Printable(items[i])
    case Object(ms) => forall i :: 0 <= i < |ms| ==> Printable(ms[i].val)
    case _ => true
  }

  /** No zero byte, so that strlen finds the end. */
  ghost predicate Clean(s: string) {
    forall i :: 0 <= i < |s| ==> s[i] != '\0'
  }

  lemma CleanAppend(a: string, b: string)
    requires Clean(a) && Clean(b)
    ensures Clean(a + b)
  {
  }

  lemma {:induction false} EscapedTextClean(s: string)
    requires NulFree(s)
    ensures Clean(EscapedText(s))
  {
    if s != [] {
      assert s[0] in s && NulFree(s[1..]);
      EscapedTextClean(s[1..]);
      assert Clean(Escaped(s[0]));
      CleanAppend(Escaped(s[0]), EscapedText(s[1..]));
    }
  }

  lemma StringTextClean(s: string)
    requires NulFree(s)
    ensures Clean(StringText(s))
  {
    EscapedTextClean(s);
    CleanAppend("\"" + EscapedText(s), "\"");
  }

  lemma SignedDecimalClean(n: int)
    ensures Clean(SignedDecimal(n))
  {
    var m := if n < 0 then -n else n;
    DecimalReadsBack(m);
  }

  /** The text of a representable tree is a C string. */
  lemma {:induction false} RenderClean(v: Json, format: bool, depth: nat)
    requires Representable(v)
    ensures Clean(Render(v, format, depth))
    decreases v
  {
    match v {
      case Number(n) => SignedDecimalClean(n);
      case String(s) => StringTextClean(s);
      case Array(items) =>
        ItemsTextClean(items, format, depth + 1);
        CleanAppend(ItemsText(items, format, depth + 1), "]");
        CleanAppend("[", ItemsText(items, format, depth + 1) + "]");
      case Object(ms) =>
        MembersTextClean(ms, format, depth + 1);
        var end := (if format then Tabs(depth) else "") + "}";
        CleanAppend(MembersText(ms, format, depth + 1), end);
        CleanAppend(OpenBrace(format), MembersText(ms, format, depth + 1) + end);
      case _ =>
    }
  }

  lemma {:induction false} ItemsTextClean(items: seq<Json>, format: bool, depth: nat)
    requires forall i :: 0 <= i < |items| ==> Representable(items[i])
    ensures Clean(ItemsText(items, format, depth))
    decreases items
  {
    if items != [] {
      RenderClean(items[0], format, depth);
      ItemsTextClean(items[1..], format, depth);
      var last := |items| == 1;
      CleanAppend(Render(items[0], format, depth), if last then "" else ItemSeparator(format));
      CleanAppend(ItemText(items[0], last, format, depth), ItemsText(items[1..], format, depth));
    }
  }

  lemma KeyTextClean(key: string, format: bool, depth: nat)
    requires NulFree(key)
    ensures Clean(KeyText(key, format, depth))
  {
    StringTextClean(key);
    CleanAppend(StringText(key), if format then ":\t" else ":");
    CleanAppend(if format then Tabs(depth) else "", StringText(key) + (if format then ":\t" else ":"));
  }

  lemma {:induction false} MembersTextClean(ms: seq<Member>, format: bool, depth: nat)
    requires RepresentableMembers(ms)
    ensures Clean(MembersText(ms, format, depth))
    decreases ms
  {
    if ms != [] {
      KeyTextClean(ms[0].key, format, depth);
      RenderClean(ms[0].val, format, depth);
      MembersTextClean(ms[1..], format, depth);
      var last := |ms| == 1;
      CleanAppend(Render(ms[0].val, format, depth), MemberEnd(last, format));
      CleanAppend(KeyText(ms[0].key, format, depth), Render(ms[0].val, format, depth) + MemberEnd(last, format));
      CleanAppend(MemberText(ms[0], last, format, depth), MembersText(ms[1..], format, depth));
    }
  }
}
