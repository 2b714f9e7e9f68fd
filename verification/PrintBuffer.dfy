/** Printing into a buffer that grows on demand, or into one of fixed size (ensure, update_offset and the
    print_* functions). Allocation itself does not fail here. The buffer's contents up to the offset are what has been
    printed; every method says how far the offset moves and what stands there then. */
module BufferedPrinting {
  import opened CStrings
  import opened JsonTree
  import opened Decimals
  import opened Pointers
  import opened Rendering

  const INT_MAX: nat := 0x7FFF_FFFF

  /** Memory holds a terminated text at an offset. */
  ghost predicate Holds(mem: string, start: nat, text: string) {
    start + |text| < |mem| && mem[start..start + |text|] == text && mem[start + |text|] == '\0'
  }

  class PrintBuffer {
    var buffer: array<char>
    var offset: nat
    var depth: nat
    const noalloc: bool
    const format: bool

    constructor (buffer: array<char>, noalloc: bool, format: bool)
      requires buffer.Length <= INT_MAX
      ensures this.buffer == buffer && offset == 0 && depth == 0
      ensures this.noalloc == noalloc && this.format == format && Valid()
    {
      this.buffer, this.offset, this.depth := buffer, 0, 0;
      this.noalloc, this.format := noalloc, format;
    }

    /** The offset stays inside the buffer; only an empty buffer has none inside. */
    ghost predicate Valid()
      reads this
    {
      buffer.Length <= INT_MAX && (offset < buffer.Length || offset == buffer.Length == 0)
    }

    /** How large the buffer can get. */
    ghost function Capacity(): nat
      reads this
    {
      if noalloc then buffer.Length else INT_MAX
    }

    /** What has been written up to the offset. */
    ghost function Done(): string
      requires Valid()
      reads this, buffer
    {
      buffer[..offset]
    }

    /** What every step keeps: the place it was at, what was written before, and the capacity. */
    twostate predicate Grown()
      reads this, buffer
    {
      && Valid() && Capacity() == old(Capacity())
      && (buffer == old(buffer) || (!noalloc && fresh(buffer)))
    }

    /** ensure: room for `needed` bytes and one more behind the offset, by growing to twice the need. */
    method Ensure(needed: nat) returns (ok: bool)
      requires Valid()
      modifies this`buffer
      ensures Grown()
      ensures ok <==> offset + needed + 1 <= Capacity()
      ensures ok ==> offset + needed + 1 <= buffer.Length
      ensures Done() == old(Done())
    {
      if buffer.Length > 0 && offset >= buffer.Length {
        return false;
      }
      if needed > INT_MAX {
        return false;
      }
      var total := needed + offset + 1;
      if total <= buffer.Length {
        return true;
      }
      if noalloc {
        return false;
      }
      var newsize;
      if total > INT_MAX / 2 {
        if total <= INT_MAX {
          newsize := INT_MAX;
        } else {
          return false;
        }
      } else {
        newsize := total * 2;
      }
      var newbuffer := new char[newsize];
      forall i | 0 <= i < offset {
        newbuffer[i] := buffer[i];
      }
      assert newbuffer[..offset] == buffer[..offset];
      buffer := newbuffer;
      return true;
    }

    /** Copies bytes to the offset. */
    method Copy(text: string)
      requires Valid() && offset + |text| <= buffer.Length
      modifies buffer
      ensures buffer[..] == old(buffer[..offset]) + text + old(buffer[offset + |text|..])
    {
      ghost var before := buffer[..];
      forall i | 0 <= i < |text| {
        buffer[offset + i] := text[i];
      }
      assert buffer[..] == before[..offset] + text + before[offset + |text|..];
    }

    /** ensure, copy and step past the text. */
    method Append(text: string, needed: nat) returns (ok: bool)
      requires Valid() && |text| <= needed
      modifies this`buffer, this`offset, buffer
      ensures Grown() && depth == old(depth)
      ensures ok <==> old(offset) + needed + 1 <= Capacity()
      ensures ok ==> Done() == old(Done()) + text
    {
      ok := Ensure(needed);
      if ok {
        Copy(text);
        offset := offset + |text|;
      }
    }

    /** ensure, copy with a terminator, and step past the text. */
    method AppendTerminated(text: string) returns (ok: bool)
      requires Valid()
      modifies this`buffer, this`offset, buffer
      ensures Grown() && depth == old(depth)
      ensures ok <==> old(offset) + |text| + 2 <= Capacity()
      ensures ok ==> Done() == old(Done()) + text
    {
      ok := Append(text + ['\0'], |text| + 1);
      if ok {
        offset := offset - 1;
      }
    }

    /** ensure, copy with a terminator, and stay. */
    method Put(text: string, needed: nat) returns (ok: bool)
      requires Valid() && |text| < needed
      modifies this`buffer, buffer
      ensures Grown() && offset == old(offset) && depth == old(depth)
      ensures ok <==> offset + needed + 1 <= Capacity()
      ensures ok ==> Done() == old(Done()) && Holds(buffer[..], offset, text)
    {
      ok := Ensure(needed);
      if ok {
        ghost var before := buffer[..];
        Copy(text + ['\0']);
        assert buffer[..] == before[..offset] + (text + ['\0']) + before[offset + |text| + 1..];
        assert buffer[..][offset..offset + |text|] == text;
        assert Done() == before[..offset];
      }
    }

    /** update_offset: on to the terminator. */
    method UpdateOffset(ghost start: nat, ghost text: string)
      requires Valid() && Clean(text) && Holds(buffer[..], start, text) && start <= offset <= start + |text|
      modifies this`offset
      ensures Grown() && offset == start + |text|
    {
      var length := 0;
      while buffer[offset + length] != '\0'
        invariant offset + length <= start + |text|
        decreases start + |text| - offset - length
      {
        assert buffer[start + |text|] == '\0';
        length := length + 1;
      }
      FirstZero(buffer[..], start, text, offset + length);
      offset := offset + length;
    }

    /** print_string_ptr. */
    method PrintString(input: string) returns (ok: bool)
      requires Valid() && NulFree(input)
      modifies this`buffer, buffer
      ensures Grown() && offset == old(offset) && depth == old(depth)
      ensures ok <==> offset + |StringText(input)| + 2 <= Capacity()
      ensures ok ==> Done() == old(Done()) && Holds(buffer[..], offset, StringText(input))
    {
      var escapes, i := 0, 0;
      while i < |input|
        invariant i <= |input|
        invariant |EscapedText(input)| == i + escapes + |EscapedText(input[i..])|
      {
        assert input[i..][1..] == input[i + 1..];
        escapes := escapes + EscapeCharacters(input[i]);
        i := i + 1;
      }
      var length := |input| + escapes;
      assert length == |EscapedText(input)|;
      ok := Ensure(length + 3);
      if ok && escapes == 0 {
        NothingToEscape(input);
        var text := "\"" + input + "\"" + ['\0'];
        ghost var before := buffer[..];
        Copy(text);
        assert buffer[..][..offset] == before[..offset];
        assert buffer[..][offset..offset + length + 2] == StringText(input);
      } else if ok {
        WriteString(input, length);
      }
    }

    /** The copying pass: it fills exactly the bytes the first pass counted. */
    method WriteString(input: string, length: nat)
      requires Valid() && length == |EscapedText(input)| && offset + length + 3 <= buffer.Length
      modifies buffer
      ensures Done() == old(Done()) && Holds(buffer[..], offset, StringText(input))
    {
      hide EscapedText;
      ghost var before := buffer[..];
      buffer[offset] := '\"';
      assert buffer[..offset + 1] == before[..offset] + "\"";
      var o := WriteEscapedText(input, offset + 1);
      ghost var front := buffer[..o];
      buffer[o], buffer[o + 1] := '\"', '\0';
      assert buffer[..o] == front == (before[..offset] + "\"") + EscapedText(input);
      assert buffer[..][offset..offset + length + 2] == StringText(input);
    }

    method WriteEscapedText(input: string, start: nat) returns (o: nat)
      requires start + |EscapedText(input)| < buffer.Length
      modifies buffer
      ensures o == start + |EscapedText(input)| && buffer[..o] == old(buffer[..start]) + EscapedText(input)
    {
      o := start;
      var i := 0;
      while i < |input|
        invariant i <= |input| && o <= buffer.Length
        invariant buffer[..o] + EscapedText(input[i..]) == old(buffer[..start]) + EscapedText(input)
      {
        assert input[i..][1..] == input[i + 1..];
        Regroup(buffer[..o], Escaped(input[i]), EscapedText(input[i + 1..]));
        o := WriteEscaped(input[i], o);
        i := i + 1;
      }
    }

    /** One character of the copying pass; sprintf also leaves a terminator behind a \u escape. */
    method WriteEscaped(c: char, o: nat) returns (next: nat)
      requires o + |Escaped(c)| < buffer.Length
      modifies buffer
      ensures next == o + |Escaped(c)| && buffer[..next] == old(buffer[..o]) + Escaped(c)
    {
      if c as int > 31 && c != '\"' && c != '\\' {
        buffer[o] := c;
        next := o + 1;
      } else {
        buffer[o] := '\\';
        if HasShortEscape(c) {
          buffer[o + 1] := ShortEscape(c);
          next := o + 2;
        } else {
          buffer[o + 1], buffer[o + 2], buffer[o + 3] := 'u', '0', '0';
          buffer[o + 4], buffer[o + 5], buffer[o + 6] := HexDigit(c as int / 16), HexDigit(c as int % 16), '\0';
          next := o + 6;
        }
      }
    }

    /** What printing a node gives: it fails exactly when an invalid node is in it or the buffer cannot
        hold its text, the terminator and one more byte; otherwise the text stands, terminated, where
        the offset was. The offset itself is somewhere in that text. */
    twostate predicate Printed(ok: bool, printable: bool, text: string)
      requires old(Valid())
      reads this, buffer
    {
      && Grown()
      && (ok <==> printable && old(offset) + |text| + 2 <= Capacity())
      && (ok ==> && depth == old(depth) && old(offset) <= offset <= old(offset) + |text|
                 && Holds(buffer[..], old(offset), text)
                 && buffer[..old(offset)] == old(Done()))
    }

    /** print_value. */
    method PrintValue(item: Json) returns (ok: bool)
      requires Valid() && Representable(item)
      modifies this`buffer, this`offset, this`depth, buffer
      ensures Printed(ok, Printable(item), Render(item, format, old(depth)))
      decreases item, 0
    {
      match item {
        case Invalid => return false;
        case Null => ok := Put("null", 5);
        case False => ok := Put("false", 6);
        case True => ok := Put("true", 5);
        case Number(n) => ok := PrintNumber(n);
        case String(s) => ok := PrintString(s);
        case Array(items) => ok := PrintArray(items);
        case Object(ms) => ok := PrintObject(ms);
      }
    }

    /** print_number, which steps over its text itself. */
    method PrintNumber(n: int) returns (ok: bool)
      requires Valid() && -1_000_000_000_000_000 < n < 1_000_000_000_000_000
      modifies this`buffer, this`offset, buffer
      ensures Printed(ok, true, SignedDecimal(n))
    {
      var text := SignedDecimal(n);
      ok := Put(text, |text| + 1);
      if ok {
        offset := offset + |text|;
      }
    }

    /** What printing a piece and stepping past it gives. */
    twostate predicate Advanced(ok: bool, printable: bool, text: string)
      requires old(Valid())
      reads this, buffer
    {
      && Grown()
      && (ok <==> printable && old(offset) + |text| + 2 <= Capacity())
      && (ok ==> depth == old(depth) && Done() == old(Done()) + text)
    }

    /** A child node, and update_offset after it. */
    method PrintChild(item: Json) returns (ok: bool)
      requires Valid() && Representable(item)
      modifies this`buffer, this`offset, this`depth, buffer
      ensures Advanced(ok, Printable(item), Render(item, format, old(depth)))
      decreases item, 1
    {
      hide Render, Printable;
      ghost var text, start := Render(item, format, depth), offset;
      RenderClean(item, format, depth);
      ok := PrintValue(item);
      if ok {
        UpdateOffset(start, text);
        assert buffer[..offset] == buffer[..start] + buffer[..][start..offset];
      }
    }

    /** A key, and update_offset after it. */
    method PrintKey(key: string) returns (ok: bool)
      requires Valid() && NulFree(key)
      modifies this`buffer, this`offset, buffer
      ensures Advanced(ok, true, StringText(key)) && depth == old(depth)
    {
      ghost var start := offset;
      StringTextClean(key);
      ok := PrintString(key);
      if ok {
        UpdateOffset(start, StringText(key));
        assert buffer[..offset] == buffer[..start] + buffer[..][start..offset];
      }
    }

    /** print_array. */
    method PrintArray(items: seq<Json>) returns (ok: bool)
      requires Valid() && Representable(Array(items))
      modifies this`buffer, this`offset, this`depth, buffer
      ensures Printed(ok, Printable(Array(items)), Render(Array(items), format, old(depth)))
      decreases items, 3
    {
      ghost var before, inner := Done(), ItemsText(items, format, depth + 1);
      ok := Append("[", 1);
      if !ok {
        return;
      }
      depth := depth + 1;
      ok := PrintItems(items);
      if !ok {
        return;
      }
      Regroup(before, "[", inner);
      Regroup("[", inner, "]");
      ok := Close("]", 2, before, "[" + inner);
    }

    /** The closing bracket, behind everything else the node's text has. */
    method Close(end: string, needed: nat, ghost before: string, ghost front: string) returns (ok: bool)
      requires Valid() && |end| + 1 == needed && depth > 0 && Done() == before + front
      modifies this`buffer, this`depth, buffer
      ensures Grown() && depth == old(depth) - 1 && offset == old(offset)
      ensures ok <==> |before| + |front + end| + 2 <= Capacity()
      ensures ok ==> Holds(buffer[..], |before|, front + end) && buffer[..|before|] == before
    {
      ok := Put(end, needed);
      depth := depth - 1;
      if ok {
        Joined(buffer[..], before, front, end);
      }
    }

    /** The element loop. */
    method PrintItems(items: seq<Json>) returns (ok: bool)
      requires Valid() && Representable(Array(items))
      modifies this`buffer, this`offset, this`depth, buffer
      ensures Grown()
      ensures ok <==>
        && Printable(Array(items))
        && (items == [] || old(offset) + |ItemsText(items, format, old(depth))| + 2 <= Capacity())
      ensures ok ==> depth == old(depth) && Done() == old(Done()) + ItemsText(items, format, old(depth))
      decreases items, 2
    {
      hide Render, ItemText;
      var i := 0;
      ghost var goal := Done() + ItemsText(items, format, depth);
      while i < |items|
        invariant i <= |items| && Grown() && depth == old(depth)
        invariant Done() + ItemsText(items[i..], format, depth) == goal
        invariant forall k :: 0 <= k < i ==> Printable(items[k])
        invariant i == |items| > 0 ==> offset + 2 <= Capacity()
      {
        ghost var rest := ItemsText(items[i + 1..], format, depth);
        assert items[i..][1..] == items[i + 1..];
        Regroup(Done(), ItemText(items[i], i + 1 == |items|, format, depth), rest);
        ok := PrintItem(items[i], i + 1 == |items|);
        if !ok {
          return;
        }
        i := i + 1;
      }
      ok := true;
    }

    /** One turn of that loop. */
    method PrintItem(item: Json, last: bool) returns (ok: bool)
      requires Valid() && Representable(item)
      modifies this`buffer, this`offset, this`depth, buffer
      ensures Advanced(ok, Printable(item), ItemText(item, last, format, old(depth)))
      decreases item, 2
    {
      ghost var before, text := Done(), Render(item, format, depth);
      ok := PrintChild(item);
      if ok && !last {
        Regroup(before, text, ItemSeparator(format));
        ok := AppendTerminated(ItemSeparator(format));
      }
    }

    /** print_object. */
    method PrintObject(ms: seq<Member>) returns (ok: bool)
      requires Valid() && RepresentableMembers(ms)
      modifies this`buffer, this`offset, this`depth, buffer
      ensures Printed(ok, Printable(Object(ms)), Render(Object(ms), format, old(depth)))
      decreases ms, 3
    {
      hide MembersText, OpenBrace, Tabs, Holds;
      ghost var before, inner := Done(), MembersText(ms, format, depth + 1);
      ghost var open := OpenBrace(format);
      ok := Append(OpenBrace(format), |OpenBrace(format)| + 1);
      if !ok {
        return;
      }
      depth := depth + 1;
      ok := PrintMembers(ms);
      if !ok {
        return;
      }
      var end := (if format then Tabs(depth - 1) else "") + "}";
      Regroup(before, open, inner);
      Regroup(open, inner, end);
      ok := Close(end, if format then depth + 1 else 2, before, open + inner);
    }

    /** The member loop. */
    method PrintMembers(ms: seq<Member>) returns (ok: bool)
      requires Valid() && RepresentableMembers(ms)
      modifies this`buffer, this`offset, this`depth, buffer
      ensures Grown()
      ensures ok <==>
        && Printable(Object(ms))
        && (ms == [] || old(offset) + |MembersText(ms, format, old(depth))| + 2 <= Capacity())
      ensures ok ==> depth == old(depth) && Done() == old(Done()) + MembersText(ms, format, old(depth))
      decreases ms, 2
    {
      hide Render, MemberText;
      var i := 0;
      ghost var goal := Done() + MembersText(ms, format, depth);
      while i < |ms|
        invariant i <= |ms| && Grown() && depth == old(depth)
        invariant Done() + MembersText(ms[i..], format, depth) == goal
        invariant forall k :: 0 <= k < i ==> Printable(ms[k].val)
        invariant i == |ms| > 0 ==> offset + 2 <= Capacity()
      {
        ghost var rest := MembersText(ms[i + 1..], format, depth);
        assert ms[i..][1..] == ms[i + 1..];
        Regroup(Done(), MemberText(ms[i], i + 1 == |ms|, format, depth), rest);
        ok := PrintMember(ms[i], i + 1 == |ms|);
        if !ok {
          return;
        }
        i := i + 1;
      }
      ok := true;
    }

    /** One turn of that loop: indentation, key, colon, value, comma and line break. */
    method PrintMember(m: Member, last: bool) returns (ok: bool)
      requires Valid() && NulFree(m.key) && Representable(m.val)
      modifies this`buffer, this`offset, this`depth, buffer
      ensures Advanced(ok, Printable(m.val), MemberText(m, last, format, old(depth)))
      decreases m, 2
    {
      ghost var before, key, text := Done(), KeyText(m.key, format, depth), Render(m.val, format, depth);
      ok := PrintKeyAndColon(m.key);
      if !ok {
        return;
      }
      Regroup3(before, key, text, MemberEnd(last, format));
      ok := PrintChild(m.val);
      if !ok {
        return;
      }
      ok := AppendTerminated(MemberEnd(last, format));
    }

    method PrintKeyAndColon(key: string) returns (ok: bool)
      requires Valid() && NulFree(key)
      modifies this`buffer, this`offset, buffer
      ensures Grown() && depth == old(depth)
      ensures ok ==> Done() == old(Done()) + KeyText(key, format, depth)
      ensures !ok ==> old(offset) + |KeyText(key, format, depth)| + 1 > Capacity()
    {
      ghost var before := Done();
      ghost var tabs, colon := if format then Tabs(depth) else "", if format then ":\t" else ":";
      Regroup(before, tabs, StringText(key) + colon);
      Regroup(before + tabs, StringText(key), colon);
      if format {
        ok := Append(Tabs(depth), depth);
        if !ok {
          return;
        }
      } else {
        assert before + "" == before;
      }
      ok := PrintKey(key);
      if !ok {
        return;
      }
      ok := Append(if format then ":\t" else ":", if format then 2 else 1);
    }
  }

  /** cJSON_Print and cJSON_PrintUnformatted: the text itself, copied out of a buffer that starts at 256
      bytes. */
  method Print(item: Json, format: bool) returns (r: Option<string>)
    requires Representable(item)
    ensures r == if Printable(item) && |Render(item, format, 0)| + 2 <= INT_MAX then Some(Render(item, format, 0))
        else None
  {
    var first := new char[256];
    var p := new PrintBuffer(first, false, format);
    RenderClean(item, format, 0);
    var ok := p.PrintValue(item);
    if !ok {
      return None;
    }
    p.UpdateOffset(0, Render(item, format, 0));
    return Some(p.buffer[..p.offset]);
  }

  /** cJSON_PrintBuffered: the first buffer's size makes no difference to the text. */
  method PrintBuffered(item: Json, prebuffer: int, format: bool) returns (r: Option<array<char>>)
    requires Representable(item) && prebuffer <= INT_MAX
    ensures r.Some? <==> prebuffer >= 0 && Printable(item) && |Render(item, format, 0)| + 2 <= INT_MAX
    ensures r.Some? ==> fresh(r.value) && Holds(r.value[..], 0, Render(item, format, 0))
  {
    if prebuffer < 0 {
      return None;
    }
    var first := new char[prebuffer];
    var p := new PrintBuffer(first, false, format);
    var ok := p.PrintValue(item);
    return if ok then Some(p.buffer) else None;
  }

  /** cJSON_PrintPreallocated into a buffer of its exact length: it returns true exactly when the buffer
      has two bytes more than the text, and then holds the text cJSON_Print would give. */
  method PrintPreallocated(item: Json, buffer: array<char>, format: bool) returns (ok: bool)
    requires Representable(item) && buffer.Length <= INT_MAX
    modifies buffer
    ensures ok <==> Printable(item) && |Render(item, format, 0)| + 2 <= buffer.Length
    ensures ok ==> Holds(buffer[..], 0, Render(item, format, 0))
  {
    var p := new PrintBuffer(buffer, true, format);
    ok := p.PrintValue(item);
  }

  lemma Regroup3(a: string, b: string, c: string, d: string)
    ensures a + (b + (c + d)) == ((a + b) + c) + d
  {
  }

  /** A text behind another is one text. */
  lemma Joined(mem: string, before: string, a: string, b: string)
    requires |before| + |a| <= |mem| && mem[..|before| + |a|] == before + a && Holds(mem, |before| + |a|, b)
    ensures Holds(mem, |before|, a + b) && mem[..|before|] == before
  {
    var n := |before| + |a|;
    assert mem[|before|..n + |b|] == mem[..n][|before|..] + mem[n..n + |b|];
  }

  lemma FirstZero(mem: string, start: nat, text: string, p: nat)
    requires Clean(text) && Holds(mem, start, text) && start <= p <= start + |text| && mem[p] == '\0'
    ensures p == start + |text|
  {
  }

  /** A string whose length the escapes do not change has none. */
  lemma {:induction false} NothingToEscape(s: string)
    requires |EscapedText(s)| == |s|
    ensures EscapedText(s) == s
  {
    if s != [] {
      EscapedTextLonger(s[1..]);
      NothingToEscape(s[1..]);
    }
  }

  lemma {:induction false} EscapedTextLonger(s: string)
    ensures |EscapedText(s)| >= |s|
  {
    if s != [] {
      EscapedTextLonger(s[1..]);
    }
  }
}
