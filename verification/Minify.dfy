/** cJSON_Minify: the text without blanks and comments, written over itself. The minified text is a function of the
    text; what it does to formatted and unformatted text is worked out piece by piece, and the loops over the array are
    proved to leave it in front. */
module Minifying {
  import opened CStrings
  import opened JsonTree
  import opened Decimals
  import opened Pointers
  import opened Rendering
  import opened ParserGrammar
  import opened BufferedPrinting
  import opened PrintParseRoundTrip

  predicate Blank(c: char) {
    c == ' ' || c == '\t' || c == '\r' || c == '\n'
  }

  /** How far a comment to the end of the line goes. */
  function LineLength(s: string): (n: nat)
    ensures n <= |s|
  {
    if s == "" || s[0] == '\n' then 0 else 1 + LineLength(s[1..])
  }

  /** How far it is to the end of a multiline comment. */
  function CommentLength(s: string): (n: Option<nat>)
    ensures n.Some? ==> 2 <= n.value <= |s|
  {
    if s == "" then None
    else if s[0] == '*' && At(s, 1) == '/' then Some(2)
    else Further(1, CommentLength(s[1..]))
  }

  /** The minified text; None where the loops would run past the terminator, in an unfinished comment or
      string. */
  function Minify(s: string): Option<string> {
    if s == "" then Some("")
    else if Blank(s[0]) then Minify(s[1..])
    else if s[0] == '/' && At(s, 1) == '/' then Minify(s[LineLength(s)..])
    else if s[0] == '/' && At(s, 1) == '*' then
      match CommentLength(s)
      case None => None
      case Some(n) => Minify(s[n..])
    else if s[0] == '\"' then
      match ScanString(s[1..])
      case None => None
      case Some(n) => Prepend(s[..n + 2], Minify(s[n + 2..]))
    else Prepend([s[0]], Minify(s[1..]))
  }

  // ----- minified and formatted text -----

  /** Text a can be minified to b wherever it stands. */
  ghost predicate Shrinks(a: string, b: string) {
    forall rest: string {:trigger Minify(a + rest)} :: Minify(a + rest) == Prepend(b, Minify(rest))
  }

  lemma ShrinksBoth(a: string, b: string, c: string, d: string)
    requires Shrinks(a, b) && Shrinks(c, d)
    ensures Shrinks(a + c, b + d)
  {
    hide Minify;
    forall rest: string
      ensures Minify((a + c) + rest) == Prepend(b + d, Minify(rest))
    {
      Regroup(a, c, rest);
      assert Minify(a + (c + rest)) == Prepend(b, Minify(c + rest));
      if Minify(rest).Some? {
        Regroup(b, d, Minify(rest).value);
      }
    }
  }

  lemma ShrinksNothing()
    ensures Shrinks("", "")
  {
    forall rest: string
      ensures Minify("" + rest) == Prepend("", Minify(rest))
    {
      assert "" + rest == rest;
      assert Minify(rest).Some? ==> "" + Minify(rest).value == Minify(rest).value;
    }
  }

  lemma ShrinksBlank(c: char)
    requires Blank(c)
    ensures Shrinks([c], "")
  {
    forall rest: string
      ensures Minify([c] + rest) == Prepend("", Minify(rest))
    {
      assert ([c] + rest)[1..] == rest;
      assert Minify(rest).Some? ==> "" + Minify(rest).value == Minify(rest).value;
    }
  }

  lemma {:induction false} ShrinksBlanks(w: string)
    requires forall i :: 0 <= i < |w| ==> Blank(w[i])
    ensures Shrinks(w, "")
  {
    if w == "" {
      ShrinksNothing();
    } else {
      ShrinksBlank(w[0]);
      ShrinksBlanks(w[1..]);
      ShrinksBoth([w[0]], "", w[1..], "");
      assert [w[0]] + w[1..] == w && "" + "" == "";
    }
  }

  predicate Ordinary(c: char) {
    !Blank(c) && c != '/' && c != '\"'
  }

  lemma ShrinksCharacter(c: char)
    requires Ordinary(c)
    ensures Shrinks([c], [c])
  {
    forall rest: string
      ensures Minify([c] + rest) == Prepend([c], Minify(rest))
    {
      assert ([c] + rest)[1..] == rest;
    }
  }

  lemma {:induction false} ShrinksWord(w: string)
    requires forall i :: 0 <= i < |w| ==> Ordinary(w[i])
    ensures Shrinks(w, w)
  {
    if w == "" {
      ShrinksNothing();
    } else {
      ShrinksCharacter(w[0]);
      ShrinksWord(w[1..]);
      ShrinksBoth([w[0]], [w[0]], w[1..], w[1..]);
      assert [w[0]] + w[1..] == w;
    }
  }

  lemma ShrinksString(t: string)
    ensures Shrinks(StringText(t), StringText(t))
  {
    hide ScanString, EscapedText;
    forall rest: string
      ensures Minify(StringText(t) + rest) == Prepend(StringText(t), Minify(rest))
    {
      var s := StringText(t) + rest;
      ScanEscaped(t, rest);
      assert s[1..] == Quoted(t, rest);
      assert s[..|EscapedText(t)| + 2] == StringText(t) && s[|EscapedText(t)| + 2..] == rest;
    }
  }

  lemma ShrinksNumber(n: int)
    ensures Shrinks(SignedDecimal(n), SignedDecimal(n))
  {
    DecimalReadsBack(if n < 0 then -n else n);
    ShrinksWord(SignedDecimal(n));
  }

  /** A node formatted at one level shrinks to the same node unformatted at any other. */
  lemma {:induction false} ShrinksRender(v: Json, d: nat, e: nat)
    ensures Shrinks(Render(v, true, d), Render(v, false, e))
    decreases v, 0
  {
    match v {
      case Invalid => ShrinksNothing();
      case Null => ShrinksWord("null");
      case False => ShrinksWord("false");
      case True => ShrinksWord("true");
      case Number(n) => ShrinksNumber(n);
      case String(s) => ShrinksString(s);
      case Array(items) =>
        ShrinksItems(items, d + 1, e + 1);
        ShrinksWord("[");
        ShrinksWord("]");
        ShrinksBoth(ItemsText(items, true, d + 1), ItemsText(items, false, e + 1), "]", "]");
        ShrinksBoth("[", "[", ItemsText(items, true, d + 1) + "]", ItemsText(items, false, e + 1) + "]");
      case Object(ms) =>
        ShrinksMembers(ms, d + 1, e + 1);
        ShrinksBraces(ms, d, e);
    }
  }

  lemma ShrinksBraces(ms: seq<Member>, d: nat, e: nat)
    requires Shrinks(MembersText(ms, true, d + 1), MembersText(ms, false, e + 1))
    ensures Shrinks(Render(Object(ms), true, d), Render(Object(ms), false, e))
  {
    hide Shrinks, Minify, MembersText;
    var a, b := MembersText(ms, true, d + 1), MembersText(ms, false, e + 1);
    ShrinksWord("{");
    ShrinksBlanks("\n");
    ShrinksBoth("{", "{", "\n", "");
    assert "{" + "\n" == "{\n" && "{" + "" == "{";
    ShrinksBlanks(Tabs(d));
    ShrinksWord("}");
    ShrinksBoth(Tabs(d), "", "}", "}");
    ShrinksBoth(a, b, Tabs(d) + "}", "" + "}");
    ShrinksBoth("{\n", "{", a + (Tabs(d) + "}"), b + ("" + "}"));
  }

  lemma {:induction false} ShrinksItems(items: seq<Json>, d: nat, e: nat)
    ensures Shrinks(ItemsText(items, true, d), ItemsText(items, false, e))
    decreases items
  {
    hide Shrinks, Minify, Render;
    if items == [] {
      ShrinksNothing();
    } else {
      var last := |items| == 1;
      ShrinksRender(items[0], d, e);
      ShrinksItems(items[1..], d, e);
      ShrinksSeparator(last);
      var x, y := if last then "" else ItemSeparator(true), if last then "" else ItemSeparator(false);
      ShrinksBoth(Render(items[0], true, d), Render(items[0], false, e), x, y);
      ShrinksBoth(ItemText(items[0], last, true, d), ItemText(items[0], last, false, e),
                  ItemsText(items[1..], true, d), ItemsText(items[1..], false, e));
    }
  }

  lemma ShrinksSeparator(last: bool)
    ensures Shrinks(if last then "" else ItemSeparator(true), if last then "" else ItemSeparator(false))
    ensures Shrinks(MemberEnd(last, true), MemberEnd(last, false))
  {
    hide Shrinks, Minify;
    ShrinksNothing();
    ShrinksWord(",");
    ShrinksBlanks(" ");
    ShrinksBlanks("\n");
    ShrinksBoth(",", ",", " ", "");
    ShrinksBoth(if last then "" else ",", if last then "" else ",", "\n", "");
    assert "," + " " == ", " && "," + "" == ",";
  }

  lemma {:induction false} ShrinksMembers(ms: seq<Member>, d: nat, e: nat)
    ensures Shrinks(MembersText(ms, true, d), MembersText(ms, false, e))
    decreases ms
  {
    hide Shrinks, Minify, Render;
    if ms == [] {
      ShrinksNothing();
    } else {
      var m, last := ms[0], |ms| == 1;
      ShrinksKey(m.key, d, e);
      ShrinksRender(m.val, d, e);
      ShrinksMembers(ms[1..], d, e);
      ShrinksSeparator(last);
      ShrinksBoth(Render(m.val, true, d), Render(m.val, false, e), MemberEnd(last, true), MemberEnd(last, false));
      ShrinksBoth(KeyText(m.key, true, d), KeyText(m.key, false, e),
                  Render(m.val, true, d) + MemberEnd(last, true), Render(m.val, false, e) + MemberEnd(last, false));
      ShrinksBoth(MemberText(m, last, true, d), MemberText(m, last, false, e),
                  MembersText(ms[1..], true, d), MembersText(ms[1..], false, e));
    }
  }

  lemma ShrinksKey(key: string, d: nat, e: nat)
    ensures Shrinks(KeyText(key, true, d), KeyText(key, false, e))
  {
    hide Shrinks, Minify, StringText;
    ShrinksString(key);
    ShrinksWord(":");
    ShrinksBlanks("\t");
    ShrinksBoth(":", ":", "\t", "");
    assert ":" + "\t" == ":\t" && ":" + "" == ":";
    ShrinksBoth(StringText(key), StringText(key), ":\t", ":");
    ShrinksBlanks(Tabs(d));
    ShrinksBoth(Tabs(d), "", StringText(key) + ":\t", StringText(key) + ":");
  }

  /** Minifying formatted text gives, byte for byte, the unformatted text. */
  lemma MinifyUndoesFormat(v: Json)
    ensures Minify(Render(v, true, 0)) == Some(Render(v, false, 0))
  {
    var f := Render(v, true, 0);
    ShrinksRender(v, 0, 0);
    assert f + "" == f && Render(v, false, 0) + "" == Render(v, false, 0);
    assert Minify("") == Some("");
  }

  // ----- in place -----

  /** From an index on, memory still holds the text and its terminator. */
  ghost predicate Ahead(mem: string, text: string, from: nat) {
    from <= |text| < |mem| && mem[from..|text|] == text[from..] && mem[|text|] == '\0'
  }

  /** Memory `now` is memory `was` with the text from `from` to `to` put behind the first `into` bytes; what
      is behind the text's terminator has not changed. */
  ghost predicate Extends(was: string, now: string, into: nat, text: string, from: nat, to: nat) {
    && from <= to <= |text| < |was| == |now| && into + (to - from) <= |text|
    && now[..into + (to - from)] == was[..into] + text[from..to]
    && now[|text| + 1..] == was[|text| + 1..]
  }

  lemma ExtendsBoth(a: string, b: string, c: string, into: nat, text: string, from: nat, mid: nat, to: nat)
    requires Extends(a, b, into, text, from, mid) && Extends(b, c, into + (mid - from), text, mid, to)
    ensures Extends(a, c, into, text, from, to)
  {
    assert text[from..to] == text[from..mid] + text[mid..to];
    assert a[..into] + (text[from..mid] + text[mid..to]) == (a[..into] + text[from..mid]) + text[mid..to];
  }

  /** One byte moved down to an index that has been read. */
  method MoveByte(json: array<char>, into: nat, from: nat, ghost text: string)
    requires Ahead(json[..], text, from) && into <= from < |text|
    modifies json
    ensures Ahead(json[..], text, from + 1) && Extends(old(json[..]), json[..], into, text, from, from + 1)
  {
    assert json[..][from..|text|][0] == json[from];
    json[into] := json[from];
    assert json[..][from + 1..|text|] == old(json[..])[from..|text|][1..];
    assert json[..][..into + 1] == old(json[..])[..into] + text[from..from + 1];
  }

  lemma AheadAt(mem: string, text: string, from: nat)
    requires Ahead(mem, text, from) && Clean(text)
    ensures from <= |text| < |mem| && mem[from] == At(text, from) && (mem[from] == '\0' <==> from == |text|)
    ensures from < |text| ==> Ahead(mem, text, from + 1) && mem[from + 1] == At(text[from..], 1)
  {
    if from < |text| {
      assert mem[from..|text|][0] == text[from..][0];
      assert mem[from + 1..|text|] == mem[from..|text|][1..];
      if from + 1 < |text| {
        assert mem[from..|text|][1] == text[from..][1];
      }
    }
  }

  method SkipLine(json: array<char>, from: nat, ghost text: string) returns (next: nat)
    requires Ahead(json[..], text, from) && Clean(text)
    ensures next == from + LineLength(text[from..]) && Ahead(json[..], text, next)
  {
    next := from;
    AheadAt(json[..], text, next);
    while json[next] != '\0' && json[next] != '\n'
      invariant from <= next && Ahead(json[..], text, next) && json[next] == At(text, next)
      invariant next - from + LineLength(text[next..]) == LineLength(text[from..])
      decreases |text| - next
    {
      AheadAt(json[..], text, next);
      assert text[next..][1..] == text[next + 1..];
      next := next + 1;
      AheadAt(json[..], text, next);
    }
    AheadAt(json[..], text, next);
  }

  method SkipComment(json: array<char>, from: nat, ghost text: string) returns (next: nat)
    requires Ahead(json[..], text, from) && Clean(text) && CommentLength(text[from..]).Some?
    ensures next == from + CommentLength(text[from..]).value && Ahead(json[..], text, next)
  {
    next := from;
    AheadAt(json[..], text, next);
    while json[next] != '\0' && !(json[next] == '*' && json[next + 1] == '/')
      invariant from <= next && Ahead(json[..], text, next) && json[next] == At(text, next)
      invariant CommentLength(text[from..]) == Further(next - from, CommentLength(text[next..]))
      decreases |text| - next
    {
      AheadAt(json[..], text, next);
      assert text[next..][1..] == text[next + 1..];
      next := next + 1;
      AheadAt(json[..], text, next);
    }
    AheadAt(json[..], text, next);
    next := next + 2;
    assert json[..][next..|text|] == json[..][next - 2..|text|][2..];
  }

  /** One character of a string literal moved down, with the one behind a backslash. */
  method MoveUnit(json: array<char>, into: nat, from: nat, ghost text: string) returns (n: nat)
    requires Ahead(json[..], text, from) && Clean(text) && into <= from < |text|
    requires text[from] == '\\' ==> from + 1 < |text|
    modifies json
    ensures n == (if text[from] == '\\' then 2 else 1) && Ahead(json[..], text, from + n)
    ensures Extends(old(json[..]), json[..], into, text, from, from + n)
  {
    hide Ahead, Extends;
    AheadAt(json[..], text, from);
    n := 1;
    ghost var before := json[..];
    if json[from] == '\\' {
      MoveByte(json, into, from, text);
      n := 2;
    }
    ghost var between := json[..];
    MoveByte(json, into + n - 1, from + n - 1, text);
    if n == 2 {
      ExtendsBoth(before, between, json[..], into, text, from, from + 1, from + 2);
    }
  }

  /** The first pass over the literal that starts at `from` gets to `next`. */
  ghost predicate Inside(text: string, from: nat, next: nat) {
    from < next <= |text| && ScanString(text[from + 1..]) == Further(next - from - 1, ScanString(text[next..]))
  }

  lemma InsideStarts(text: string, from: nat)
    requires from < |text|
    ensures Inside(text, from, from + 1)
  {
    assert forall r: Option<nat> :: Further(0, r) == r;
  }

  lemma InsideStep(text: string, from: nat, next: nat)
    requires Inside(text, from, next) && next < |text| && text[next] != '\"' && ScanString(text[from + 1..]).Some?
    ensures Inside(text, from, next + if text[next] == '\\' then 2 else 1)
  {
    ScanStep(text, next);
  }

  lemma InsideEnds(text: string, from: nat, next: nat)
    requires Inside(text, from, next) && ScanString(text[from + 1..]).Some? && (next < |text| ==> text[next] == '\"')
    ensures next < |text| && ScanString(text[from + 1..]) == Some(next - from - 1)
  {
    ScanEnd(text, next);
  }

  /** The literal that starts at `from` is moved down to `into` as far as `next`. */
  ghost predicate Moved(was: string, now: string, into: nat, text: string, from: nat, next: nat) {
    Inside(text, from, next) && Extends(was, now, into, text, from, next) && Ahead(now, text, next)
  }

  lemma MovedAt(was: string, now: string, into: nat, text: string, from: nat, next: nat)
    requires Moved(was, now, into, text, from, next) && Clean(text) && ScanString(text[from + 1..]).Some?
    ensures from < next < |text| < |now| && into + (next - from) <= |text|
    ensures now[next] == text[next] && now[next] != '\0'
    ensures now[next] == '\"' ==> ScanString(text[from + 1..]) == Some(next - from - 1)
    ensures now[next] == '\\' ==> next + 1 < |text|
  {
    if next == |text| || text[next] == '\"' {
      InsideEnds(text, from, next);
    } else {
      InsideStep(text, from, next);
    }
    AheadAt(now, text, next);
  }

  /** One turn of the loop over the literal. */
  method MoveTurn(json: array<char>, into: nat, from: nat, next: nat, ghost text: string, ghost was: string)
      returns (after: nat)
    requires Moved(was, json[..], into, text, from, next) && into <= from && Clean(text)
        && ScanString(text[from + 1..]).Some?
    requires next < json.Length && json[next] != '\"'
    modifies json
    ensures next < after && Moved(was, json[..], into, text, from, after)
  {
    hide ScanString, Inside, Extends, Ahead;
    MovedAt(was, json[..], into, text, from, next);
    InsideStep(text, from, next);
    ghost var before := json[..];
    var n := MoveUnit(json, into + (next - from), next, text);
    ExtendsBoth(was, before, json[..], into, text, from, next, next + n);
    after := next + n;
  }

  /** A string literal moved down as it is. */
  method MoveString(json: array<char>, into: nat, from: nat, ghost text: string) returns (end: nat, next: nat)
    requires Ahead(json[..], text, from) && Clean(text) && into <= from < |text| && text[from] == '\"'
    requires ScanString(text[from + 1..]).Some?
    modifies json
    ensures next == from + ScanString(text[from + 1..]).value + 2 && end - into == next - from
    ensures Ahead(json[..], text, next) && Extends(old(json[..]), json[..], into, text, from, next)
  {
    hide ScanString, Inside, Extends, Ahead, Clean;
    InsideStarts(text, from);
    ghost var was := json[..];
    MoveByte(json, into, from, text);
    next := from + 1;
    MovedAt(was, json[..], into, text, from, next);
    while json[next] != '\0' && json[next] != '\"'
      invariant Moved(was, json[..], into, text, from, next) && from < next < |text| < json.Length
      decreases |text| - next
    {
      next := MoveTurn(json, into, from, next, text, was);
      MovedAt(was, json[..], into, text, from, next);
    }
    MovedAt(was, json[..], into, text, from, next);
    ghost var before := json[..];
    end := into + (next - from);
    MoveByte(json, end, next, text);
    ExtendsBoth(was, before, json[..], into, text, from, next, next + 1);
    end, next := end + 1, next + 1;
  }

  /** The loop has read the text up to `from` and written its minified form up to `into`, never ahead of
      where it reads. */
  ghost predicate Progress(was: string, now: string, text: string, into: nat, from: nat) {
    && Ahead(now, text, from) && into <= from
    && |now| == |was| && now[|text| + 1..] == was[|text| + 1..]
    && Minify(text) == Prepend(now[..into], Minify(text[from..]))
  }

  lemma ProgressSkips(was: string, now: string, text: string, into: nat, from: nat, next: nat)
    requires Progress(was, now, text, into, from) && from <= next && Ahead(now, text, next)
    requires Minify(text[from..]) == Minify(text[next..])
    ensures Progress(was, now, text, into, next)
  {
  }

  lemma ProgressMoves(was: string, before: string, now: string, text: string, into: nat, from: nat, next: nat)
    requires Progress(was, before, text, into, from) && Extends(before, now, into, text, from, next)
        && Ahead(now, text, next)
    requires Minify(text[from..]) == Prepend(text[from..next], Minify(text[next..]))
    ensures Progress(was, now, text, into + (next - from), next)
  {
    hide Minify;
    if Minify(text[next..]).Some? {
      Regroup(before[..into], text[from..next], Minify(text[next..]).value);
    }
  }

  /** The cases of the loop, by position in the text. */
  lemma MinifyAt(text: string, from: nat)
    requires from < |text|
    ensures var c, d, m := text[from], At(text[from..], 1), Minify(text[from..]);
            if Blank(c) then m == Minify(text[from + 1..])
            else if c == '/' && d == '/' then m == Minify(text[from + LineLength(text[from..])..])
            else if c == '/' && d == '*' then
              m == match CommentLength(text[from..]) case None => None case Some(n) => Minify(text[from + n..])
            else if c == '\"' then
              m == match ScanString(text[from + 1..])
                   case None => None
                   case Some(n) => Prepend(text[from..from + n + 2], Minify(text[from + n + 2..]))
            else m == Prepend(text[from..from + 1], Minify(text[from + 1..]))
  {
    var s := text[from..];
    assert s[1..] == text[from + 1..] && [s[0]] == text[from..from + 1];
    match ScanString(s[1..]) {
      case None =>
      case Some(n) => assert s[..n + 2] == text[from..from + n + 2] && s[n + 2..] == text[from + n + 2..];
    }
  }

  lemma ProgressAt(was: string, now: string, text: string, into: nat, from: nat)
    requires Progress(was, now, text, into, from) && Clean(text) && Minify(text).Some?
    ensures into <= from <= |text| < |now| == |was| && Ahead(now, text, from) && now[|text| + 1..] == was[|text| + 1..]
    ensures now[from] == At(text, from) && (now[from] == '\0' <==> from == |text|)
    ensures from < |text| ==> now[from + 1] == At(text[from..], 1) && now[from] == text[from]
    ensures Minify(text[from..]).Some?
    ensures from == |text| ==> Minify(text).value == now[..into]
  {
    AheadAt(now, text, from);
    if from == |text| {
      assert now[..into] + "" == now[..into];
    }
  }

  /** One turn of the main loop. */
  method MinifyTurn(json: array<char>, into: nat, from: nat, ghost text: string, ghost was: string)
      returns (end: nat, next: nat)
    requires Progress(was, json[..], text, into, from) && Clean(text) && Minify(text).Some?
    requires from < json.Length && json[from] != '\0'
    modifies json
    ensures from < next && Progress(was, json[..], text, end, next)
  {
    hide Progress, Minify, Ahead, Extends, ScanString, LineLength, CommentLength, Clean;
    ProgressAt(was, json[..], text, into, from);
    MinifyAt(text, from);
    AheadAt(json[..], text, from);
    ghost var before := json[..];
    end := into;
    if Blank(json[from]) {
      next := from + 1;
      ProgressSkips(was, json[..], text, into, from, next);
    } else if json[from] == '/' && json[from + 1] == '/' {
      LineNotEmpty(text[from..]);
      next := SkipLine(json, from, text);
      ProgressSkips(was, json[..], text, into, from, next);
    } else if json[from] == '/' && json[from + 1] == '*' {
      next := SkipComment(json, from, text);
      ProgressSkips(was, json[..], text, into, from, next);
    } else if json[from] == '\"' {
      end, next := MoveString(json, into, from, text);
      ProgressMoves(was, before, json[..], text, into, from, next);
    } else {
      MoveByte(json, into, from, text);
      end, next := into + 1, from + 1;
      ProgressMoves(was, before, json[..], text, into, from, next);
    }
  }

  lemma LineNotEmpty(s: string)
    requires s != "" && s[0] == '/'
    ensures LineLength(s) > 0
  {
  }

  /** cJSON_Minify over the memory that holds the text: afterwards it holds the minified text, and what was
      behind the text is as before. */
  method MinifyInPlace(json: array<char>, ghost text: string)
    requires Clean(text) && Holds(json[..], 0, text) && Minify(text).Some?
    modifies json
    ensures |Minify(text).value| <= |text| && Holds(json[..], 0, Minify(text).value)
    ensures json[|text| + 1..] == old(json[|text| + 1..])
  {
    hide Progress, Minify;
    ghost var was := json[..];
    var into: nat, from: nat := 0, 0;
    ProgressStarts(was, text);
    ProgressAt(was, json[..], text, into, from);
    while json[from] != '\0'
      invariant from < json.Length && Progress(was, json[..], text, into, from)
      decreases |text| - from
    {
      ProgressAt(was, json[..], text, into, from);
      into, from := MinifyTurn(json, into, from, text, was);
      ProgressAt(was, json[..], text, into, from);
    }
    ProgressAt(was, json[..], text, into, from);
    ghost var now := json[..];
    json[into] := '\0';
    assert json[..][0..into] == now[..into];
  }

  lemma ProgressStarts(was: string, text: string)
    requires Holds(was, 0, text)
    ensures Progress(was, was, text, 0, 0)
  {
    assert text[0..] == text && was[..0] == "";
    assert Minify(text).Some? ==> "" + Minify(text).value == Minify(text).value;
  }
}
