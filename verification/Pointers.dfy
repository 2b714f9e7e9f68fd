/** JSON Pointer (RFC 6901): tokens, indices, following and building. */
module Pointers {
  // Matching one token against a key, reading an array index, following a pointer, and building the pointer to a node.
  // A node of a tree is named by its position, the child indices on the way down to it.

  import opened CStrings
  import opened JsonTree
  import opened Decimals

  datatype Option<+T> = None | Some(value: T)

  // ----- tokens -----

  /** Length of the reference token a pointer (past its '/') starts with. */
  function TokenLength(p: string): (n: nat)
    ensures n <= |p| && (n < |p| ==> p[n] == '/')
    ensures forall i :: 0 <= i < n ==> p[i] != '/'
  {
    if p == [] || p[0] == '/' then 0 else 1 + TokenLength(p[1..])
  }

  /** Section 4 of RFC 6901: "~1" stands for '/', "~0" for '~', any other '~' is an error. */
  function Decode(token: string): Option<string> {
    if token == [] then Some("")
    else if token[0] != '~' then
      (match Decode(token[1..])
       case None => None
       case Some(rest) => Some([token[0]] + rest))
    else if |token| < 2 || (token[1] != '0' && token[1] != '1') then None
    else
      match Decode(token[2..])
      case None => None
      case Some(rest) => Some([if token[1] == '0' then '~' else '/'] + rest)
  }

  /** Section 3 of RFC 6901: how a key is written as a token. */
  function Escape(key: string): string {
    if key == [] then ""
    else (if key[0] == '~' then "~0" else if key[0] == '/' then "~1" else [key[0]]) + Escape(key[1..])
  }

  /** Whether the pointer's next token names this key. */
  function ComparePointers(name: string, pointer: string, caseSensitive: bool): bool
    decreases |name|
  {
    if name == [] || pointer == [] || pointer[0] == '/' then
      (pointer != [] && pointer[0] != '/') == (name != [])
    else if pointer[0] == '~' then
      if (At(pointer, 1) != '0' || name[0] != '~') && (At(pointer, 1) != '1' || name[0] != '/') then false
      else ComparePointers(name[1..], pointer[2..], caseSensitive)
    else if Fold(name[0], caseSensitive) != Fold(pointer[0], caseSensitive) then false
    else ComparePointers(name[1..], pointer[1..], caseSensitive)
  }

  /** The loop that walks key and pointer together. */
  method ComparePointersLoop(name: string, pointer: string, caseSensitive: bool) returns (r: bool)
    requires NulFree(name) && NulFree(pointer)
    ensures r == ComparePointers(name, pointer, caseSensitive)
  {
    var i, j := 0, 0;
    while At(name, i) != '\0' && At(pointer, j) != '\0' && At(pointer, j) != '/'
      invariant i <= |name| && j <= |pointer|
      invariant ComparePointers(name, pointer, caseSensitive) == ComparePointers(name[i..], pointer[j..], caseSensitive)
      decreases |name| - i
    {
      assert pointer[j..][0] == At(pointer, j) && name[i..][0] == At(name, i);
      assert name[i..][1..] == name[i + 1..] && pointer[j..][1..] == pointer[j + 1..];
      assert j + 2 <= |pointer| ==> pointer[j..][2..] == pointer[j + 2..];
      assert At(pointer[j..], 1) == At(pointer, j + 1);
      if At(pointer, j) == '~' {
        if (At(pointer, j + 1) != '0' || At(name, i) != '~') && (At(pointer, j + 1) != '1' || At(name, i) != '/') {
          return false;
        }
        j := j + 1;
      } else if Fold(At(name, i), caseSensitive) != Fold(At(pointer, j), caseSensitive) {
        return false;
      }
      i, j := i + 1, j + 1;
    }
    assert i < |name| ==> name[i] in name;
    assert j < |pointer| ==> pointer[j] in pointer && pointer[j..][0] == pointer[j];
    return (At(pointer, j) != '\0' && At(pointer, j) != '/') == (At(name, i) != '\0');
  }

  /** A token matches a key exactly when it is validly escaped and decodes to that key, letter case
      aside unless asked for. */
  lemma {:induction false} ComparePointersDecodes(name: string, pointer: string, caseSensitive: bool)
    ensures ComparePointers(name, pointer, caseSensitive) <==>
            var d := Decode(pointer[..TokenLength(pointer)]);
            d.Some? && FoldAll(d.value, caseSensitive) == FoldAll(name, caseSensitive)
    decreases |pointer|
  {
    var token := pointer[..TokenLength(pointer)];
    if pointer == [] || pointer[0] == '/' {
      assert token == [];
    } else if pointer[0] != '~' {
      assert token[1..] == pointer[1..][..TokenLength(pointer[1..])];
      if name != [] {
        ComparePointersDecodes(name[1..], pointer[1..], caseSensitive);
      }
      HeadTail(Decode(token[1..]), token[0], name, caseSensitive);
    } else if |token| >= 2 && (token[1] == '0' || token[1] == '1') {
      assert pointer[1..][0] != '/';
      assert token[2..] == pointer[2..][..TokenLength(pointer[2..])];
      if name != [] {
        ComparePointersDecodes(name[1..], pointer[2..], caseSensitive);
      }
      HeadTail(Decode(token[2..]), if token[1] == '0' then '~' else '/', name, caseSensitive);
    } else {
      assert |pointer| >= 2 && pointer[1] != '/' ==> |token| >= 2 && token[1] == pointer[1];
    }
  }

  lemma HeadTail(rest: Option<string>, c: char, name: string, caseSensitive: bool)
    ensures rest.Some? && FoldAll([c] + rest.value, caseSensitive) == FoldAll(name, caseSensitive) <==>
            rest.Some? && name != [] && Fold(c, caseSensitive) == Fold(name[0], caseSensitive)
            && FoldAll(rest.value, caseSensitive) == FoldAll(name[1..], caseSensitive)
  {
    if rest.Some? {
      var s := [c] + rest.value;
      assert s[1..] == rest.value;
      assert FoldAll(s, caseSensitive) == [Fold(c, caseSensitive)] + FoldAll(rest.value, caseSensitive);
      if name != [] {
        var l, r := FoldAll(s, caseSensitive), FoldAll(name, caseSensitive);
        assert l == r ==> l[0] == r[0] && l[1..] == r[1..];
      }
    }
  }

  // ----- array indices -----

  /** How many characters the index loop takes: its range test looks at the first character only for
      the upper bound, so after a digit it goes on over anything from '0' up. */
  function IndexRun(p: string): (n: nat)
    ensures n <= |p| && forall i :: 0 <= i < n ==> p[i] >= '0'
    ensures n < |p| && p[0] <= '9' ==> p[n] < '0'
  {
    if p == [] || p[0] > '9' then 0 else AtLeastZero(p)
  }

  function AtLeastZero(p: string): (n: nat)
    ensures n <= |p| && forall i :: 0 <= i < n ==> p[i] >= '0'
    ensures n < |p| ==> p[n] < '0'
  {
    if p == [] || p[0] < '0' then 0 else 1 + AtLeastZero(p[1..])
  }

  function DecodeArrayIndex(p: string): Option<nat> {
    if At(p, 0) == '0' && |p| > 1 && p[1] != '/' then None
    else
      var n := IndexRun(p);
      if n < |p| && p[n] != '/' then None else Some(ValueFrom(0, p[..n]))
  }

  method DecodeArrayIndexLoop(p: string) returns (r: Option<nat>)
    requires NulFree(p)
    ensures r == DecodeArrayIndex(p)
  {
    if At(p, 0) == '0' && At(p, 1) != '\0' && At(p, 1) != '/' {
      return None;
    }
    assert |p| > 1 ==> p[1] in p;
    var parsed: nat, position := 0, 0;
    while At(p, position) >= '0' && At(p, 0) <= '9'
      invariant position <= |p| && forall i :: 0 <= i < position ==> p[i] >= '0'
      invariant position > 0 ==> p[0] <= '9'
      invariant ValueFrom(0, p[..position]) == parsed
      decreases |p| - position
    {
      ValueFromAppend(0, p[..position], p[position]);
      assert p[..position] + [p[position]] == p[..position + 1];
      parsed := 10 * parsed + (At(p, position) as int - '0' as int);
      position := position + 1;
    }
    RunStops(p, position);
    if At(p, position) != '\0' && At(p, position) != '/' {
      return None;
    }
    assert position < |p| ==> p[position] in p;
    return Some(parsed);
  }

  lemma RunStops(p: string, n: nat)
    requires n <= |p| && forall i :: 0 <= i < n ==> p[i] >= '0'
    requires n > 0 ==> p[0] <= '9'
    requires n < |p| ==> p[n] < '0' || p[0] > '9'
    ensures IndexRun(p) == n
  {
  }

  /** Section 4 of RFC 6901: "0", or digits without a leading zero. */
  function StandardIndex(token: string): Option<nat> {
    if token == "" || (exists i :: 0 <= i < |token| && !IsDigit(token[i])) then None
    else if token[0] == '0' && |token| > 1 then None
    else Some(ValueFrom(0, token))
  }

  /** The code reads an index where the standard has one and nothing where it has none, except for the
      empty token (read as 0) and a token whose digit is followed by a character above '9'. */
  lemma DecodeIndexExact(p: string)
    ensures var token := p[..TokenLength(p)];
            DecodeArrayIndex(p) == StandardIndex(token) <==> RegularIndex(token)
  {
    var n := TokenLength(p);
    var token := p[..n];
    if token == "" {
      assert IndexRun(p) == 0;
    } else if RegularIndex(token) {
      RegularCase(p);
    } else {
      assert IndexRun(p) == n by {
        assert '/' < '0';
        RunStops(p, n);
      }
      assert DecodeArrayIndex(p).Some?;
      assert StandardIndex(token).None?;
    }
  }

  lemma RegularCase(p: string)
    requires TokenLength(p) > 0 && RegularIndex(p[..TokenLength(p)])
    ensures DecodeArrayIndex(p) == StandardIndex(p[..TokenLength(p)])
  {
    var n := TokenLength(p);
    var token := p[..n];
    var k := IndexRun(p);
    assert '/' < '0';
    assert k <= n;
    if k < n {
      assert p[k] == token[k] != '/' by {
        assert token[k] in token;
      }
      assert !IsDigit(token[k]);
    } else {
      assert token == p[..k];
      assert token[0] <= '9';
    }
  }

  /** Where the code's reading of an index is the standard's. */
  predicate RegularIndex(token: string) {
    && token != ""
    && !('1' <= token[0] <= '9'
         && (forall i :: 0 <= i < |token| ==> token[i] >= '0')
         && (exists i :: 0 <= i < |token| && token[i] > '9'))
  }

  /** The text of an index reads back as that index. */
  lemma DecimalIndex(i: nat, rest: string)
    requires rest == [] || rest[0] == '/'
    ensures DecodeArrayIndex(Decimal(i) + rest) == Some(i)
  {
    var d := Decimal(i);
    var p := d + rest;
    DecimalReadsBack(i);
    assert '/' < '0';
    assert p[0] == d[0] && (|d| == 1 && |p| > 1 ==> p[1] == rest[0]);
    assert |d| < |p| ==> p[|d|] == rest[0];
    RunStops(p, |d|);
    assert p[..|d|] == d;
  }

  // ----- following a pointer -----

  function Children(v: Json): (n: nat) {
    match v
    case Array(items) => |items|
    case Object(members) => |members|
    case _ => 0
  }

  function Child(v: Json, i: nat): (c: Json)
    requires i < Children(v)
    ensures c < v
  {
    match v
    case Array(items) => items[i]
    case Object(members) => members[i].val
  }

  ghost predicate ValidPosition(v: Json, pos: seq<nat>)
    decreases |pos|
  {
    pos == [] || (pos[0] < Children(v) && ValidPosition(Child(v, pos[0]), pos[1..]))
  }

  function NodeAt(v: Json, pos: seq<nat>): Json
    requires ValidPosition(v, pos)
    decreases |pos|
  {
    if pos == [] then v else NodeAt(Child(v, pos[0]), pos[1..])
  }

  /** First member whose key the pointer's next token names. */
  function FirstMatch(ms: seq<Member>, p: string, caseSensitive: bool): (i: nat)
    ensures i <= |ms|
    ensures i < |ms| ==> ComparePointers(ms[i].key, p, caseSensitive)
    ensures forall j :: 0 <= j < i ==> !ComparePointers(ms[j].key, p, caseSensitive)
  {
    if ms == [] || ComparePointers(ms[0].key, p, caseSensitive) then 0
    else 1 + FirstMatch(ms[1..], p, caseSensitive)
  }

  /** The child the next token (p is past its '/') selects. */
  function Step(v: Json, p: string, caseSensitive: bool): (r: Option<nat>)
    ensures r.Some? ==> r.value < Children(v)
  {
    match v
    case Array(items) =>
      (match DecodeArrayIndex(p)
       case Some(i) => if i < |items| then Some(i) else None
       case None => None)
    case Object(members) =>
      var i := FirstMatch(members, p, caseSensitive);
      if i < |members| then Some(i) else None
    case _ => None
  }

  /** Position of the node a pointer leads to. Text that does not go on with '/' ends the walk. */
  function Locate(v: Json, pointer: string, caseSensitive: bool): (r: Option<seq<nat>>)
    ensures r.Some? ==> ValidPosition(v, r.value)
    decreases |pointer|
  {
    if pointer == [] || pointer[0] != '/' then Some([])
    else
      var p := pointer[1..];
      match Step(v, p, caseSensitive)
      case None => None
      case Some(i) => Under(i, Locate(Child(v, i), p[TokenLength(p)..], caseSensitive))
  }

  function Under(i: nat, r: Option<seq<nat>>): Option<seq<nat>> {
    match r
    case None => None
    case Some(pos) => Some([i] + pos)
  }

  function UnderAll(here: seq<nat>, r: Option<seq<nat>>): Option<seq<nat>> {
    match r
    case None => None
    case Some(pos) => Some(here + pos)
  }

  lemma UnderNothing(r: Option<seq<nat>>)
    ensures UnderAll([], r) == r
  {
    assert r.Some? ==> [] + r.value == r.value;
  }

  method SkipToken(pointer: string, start: nat) returns (j: nat)
    requires NulFree(pointer) && start <= |pointer|
    ensures j == start + TokenLength(pointer[start..])
  {
    j := start;
    while At(pointer, j) != '\0' && At(pointer, j) != '/'
      invariant start <= j <= |pointer|
      invariant start + TokenLength(pointer[start..]) == j + TokenLength(pointer[j..])
      decreases |pointer| - j
    {
      assert pointer[j..][1..] == pointer[j + 1..];
      j := j + 1;
    }
    assert j < |pointer| ==> pointer[j] in pointer;
  }

  /** The inner search: the child the token at j selects. */
  method SelectChild(current: Json, pointer: string, j: nat, caseSensitive: bool) returns (r: Option<nat>)
    requires NulFree(pointer) && j <= |pointer|
    ensures r == Step(current, pointer[j..], caseSensitive)
  {
    if current.Array? {
      var index := DecodeArrayIndexLoop(pointer[j..]);
      if index.None? || index.value >= |current.items| {
        return None;
      }
      return index;
    } else if current.Object? {
      var i := 0;
      while i < |current.members| && !ComparePointers(current.members[i].key, pointer[j..], caseSensitive)
        invariant i <= |current.members|
        invariant forall k :: 0 <= k < i ==> !ComparePointers(current.members[k].key, pointer[j..], caseSensitive)
      {
        i := i + 1;
      }
      return if i < |current.members| then Some(i) else None;
    } else {
      return None;
    }
  }

  /** The walk itself: one turn of the loop a token. */
  method GetItemFromPointer(root: Json, pointer: string, caseSensitive: bool) returns (r: Option<seq<nat>>)
    requires NulFree(pointer)
    ensures r == Locate(root, pointer, caseSensitive)
  {
    hide Locate, Step, TokenLength, UnderAll;
    var here: seq<nat>, current, j := [], root, 0;
    UnderNothing(Locate(root, pointer, caseSensitive));
    assert pointer[0..] == pointer;
    while At(pointer, j) == '/'
      invariant j <= |pointer|
      invariant Locate(root, pointer, caseSensitive) == UnderAll(here, Locate(current, pointer[j..], caseSensitive))
      decreases |pointer| - j
    {
      LocateAt(current, pointer, j, here, caseSensitive);
      var i := SelectChild(current, pointer, j + 1, caseSensitive);
      if i.None? {
        return None;
      }
      j := SkipToken(pointer, j + 1);
      here, current := here + [i.value], Child(current, i.value);
    }
    LocateAt(current, pointer, j, here, caseSensitive);
    return Some(here);
  }

  /** The walk from a place in the pointer on. */
  lemma LocateAt(v: Json, pointer: string, j: nat, here: seq<nat>, caseSensitive: bool)
    requires j <= |pointer|
    ensures var all := UnderAll(here, Locate(v, pointer[j..], caseSensitive));
            if At(pointer, j) != '/' || j == |pointer| then all == Some(here)
            else
              match Step(v, pointer[j + 1..], caseSensitive)
              case None => all == None
              case Some(i) =>
                all == UnderAll(here + [i], Locate(Child(v, i), pointer[j + 1 + TokenLength(pointer[j + 1..])..],
                    caseSensitive))
  {
    hide Step, TokenLength, Locate;
    if j < |pointer| && pointer[j] == '/' {
      assert pointer[j..] == "/" + pointer[j + 1..];
      LocateUnder(v, pointer[j + 1..], here, caseSensitive);
      var n := TokenLength(pointer[j + 1..]);
      assert pointer[j + 1..][n..] == pointer[j + 1 + n..];
    } else {
      LocateNothing(v, pointer[j..], caseSensitive);
      assert here + [] == here;
    }
  }

  lemma LocateNothing(v: Json, pointer: string, caseSensitive: bool)
    requires pointer == "" || pointer[0] != '/'
    ensures Locate(v, pointer, caseSensitive) == Some([])
  {
  }

  lemma LocateUnder(v: Json, p: string, here: seq<nat>, caseSensitive: bool)
    ensures UnderAll(here, Locate(v, "/" + p, caseSensitive)) ==
            match Step(v, p, caseSensitive)
            case None => None
            case Some(i) => UnderAll(here + [i], Locate(Child(v, i), p[TokenLength(p)..], caseSensitive))
  {
    hide Step, TokenLength, Locate;
    LocateUnfolds(v, p, caseSensitive);
    var i := Step(v, p, caseSensitive);
    if i.Some? {
      UnderDeeper(here, i.value, Locate(Child(v, i.value), p[TokenLength(p)..], caseSensitive));
    }
  }

  lemma UnderDeeper(here: seq<nat>, i: nat, r: Option<seq<nat>>)
    ensures UnderAll(here, Under(i, r)) == UnderAll(here + [i], r)
  {
    assert r.Some? ==> here + ([i] + r.value) == (here + [i]) + r.value;
  }

  // ----- building a pointer -----

  function EncodedLength(s: string): nat {
    if s == [] then 0 else (if s[0] == '~' || s[0] == '/' then 2 else 1) + EncodedLength(s[1..])
  }

  /** What encode_string_as_pointer leaves in memory that held `was`: for '/' only the second byte of
      the escape is written, and '~' gets the escape of '/'. */
  function Encoded(s: string, was: string): (r: string)
    requires |was| == EncodedLength(s)
    ensures |r| == |was|
  {
    if s == [] then ""
    else if s[0] == '/' then [was[0], '1'] + Encoded(s[1..], was[2..])
    else if s[0] == '~' then "~1" + Encoded(s[1..], was[2..])
    else [s[0]] + Encoded(s[1..], was[1..])
  }

  method EncodeStringAsPointer(destination: array<char>, start: nat, source: string)
    requires start + EncodedLength(source) < destination.Length
    modifies destination
    ensures var end := start + EncodedLength(source);
            && destination[..][start..end] == Encoded(source, old(destination[..])[start..end])
            && destination[end] == '\0'
            && destination[..][..start] == old(destination[..])[..start]
            && destination[..][end + 1..] == old(destination[..])[end + 1..]
  {
    hide Encoded, Progress;
    var i, d := 0, start;
    ghost var end := start + EncodedLength(source);
    ghost var left, was, mem := source, destination[..], destination[..];
    ghost var goal, done, ahead := Encoded(source, mem[start..end]), "", mem[start..end];
    ProgressStarts(mem, start, end);
    while i < |source|
      invariant i <= |source| && left == source[i..]
      invariant start <= d && end == d + EncodedLength(left) && |ahead| == EncodedLength(left)
      invariant mem == destination[..] && Progress(was, mem, start, d, end, done, ahead)
      invariant goal == done + Encoded(left, ahead)
      decreases |source| - i
    {
      ProgressParts(was, mem, start, d, end, done, ahead);
      EncodeTurn(goal, done, left, ahead);
      ghost var a, d0, head := mem, d, EncodedHead(left[0], ahead[0]);
      d := EncodeOne(destination, d, source[i]);
      mem := destination[..];
      ProgressStep(was, a, mem, start, d0, d, end, done, ahead, head);
      i, left, done, ahead := i + 1, left[1..], done + head, ahead[|head|..];
    }
    destination[d] := '\0';
    ProgressEnds(was, mem, destination[..], start, end, done, ahead);
  }

  /** Memory between start and d holds what has been written, up to end what it held before, and outside nothing has
      changed. */
  ghost predicate Progress(was: string, mem: string, start: nat, d: nat, end: nat, done: string, ahead: string) {
    && start <= d <= end <= |mem| == |was| && mem[start..d] == done && mem[d..end] == ahead
    && mem[..start] == was[..start] && mem[end..] == was[end..]
  }

  lemma ProgressStarts(mem: string, start: nat, end: nat)
    requires start <= end <= |mem|
    ensures Progress(mem, mem, start, start, end, "", mem[start..end])
  {
  }

  lemma ProgressParts(was: string, mem: string, start: nat, d: nat, end: nat, done: string, ahead: string)
    requires Progress(was, mem, start, d, end, done, ahead)
    ensures d <= end <= |mem| && |ahead| == end - d && (d < end ==> ahead[0] == mem[d])
  {
  }

  lemma ProgressStep(was: string, a: string, b: string, start: nat, d: nat, e: nat, end: nat, done: string,
      ahead: string, head: string)
    requires Progress(was, a, start, d, end, done, ahead)
    requires start <= d <= e <= end <= |a| == |b| && b[d..e] == head
    requires forall k :: 0 <= k < d || e <= k < |a| ==> b[k] == a[k]
    ensures Progress(was, b, start, e, end, done + head, ahead[|head|..])
  {
    Written(a, b, start, d, e, end, head);
  }

  lemma ProgressEnds(was: string, a: string, b: string, start: nat, end: nat, done: string, ahead: string)
    requires Progress(was, a, start, end, end, done, ahead) && end < |a| && b == a[end := '\0']
    ensures b[start..end] == done + Encoded("", ahead) && b[..start] == was[..start] && b[end + 1..] == was[end + 1..]
  {
    EncodedEmpty(ahead);
    assert b[end + 1..] == b[end..][1..] && a[end..][1..] == was[end..][1..] == was[end + 1..];
    assert b[start..end] == a[start..end] && b[..start] == a[..start] && b[end + 1..] == a[end + 1..];
  }

  /** One turn of the encoding loop: returns where the next character goes. */
  method EncodeOne(destination: array<char>, d: nat, c: char) returns (next: nat)
    requires d + (if c == '/' || c == '~' then 1 else 0) < destination.Length
    modifies destination
    ensures next == d + |EncodedHead(c, old(destination[d]))| <= destination.Length
    ensures destination[..][d..next] == EncodedHead(c, old(destination[d]))
    ensures forall k :: 0 <= k < d || next <= k < destination.Length ==> destination[..][k] == old(destination[..])[k]
  {
    next := d;
    if c == '/' {
      destination[next + 1] := '1';
      next := next + 1;
    } else if c == '~' {
      destination[next] := '~';
      destination[next + 1] := '1';
      next := next + 1;
    } else {
      destination[next] := c;
    }
    next := next + 1;
  }

  /** b is a with the stretch from d to e rewritten. */
  lemma Written(a: string, b: string, start: nat, d: nat, e: nat, end: nat, head: string)
    requires start <= d <= e <= end <= |a| == |b| && b[d..e] == head
    requires forall k :: 0 <= k < d || e <= k < |a| ==> b[k] == a[k]
    ensures b[start..e] == a[start..d] + head && b[e..end] == a[d..end][e - d..]
    ensures b[..start] == a[..start] && b[end..] == a[end..]
  {
  }

  lemma EncodedEmpty(was: string)
    requires was == ""
    ensures Encoded("", was) == ""
  {
  }

  lemma EncodeTurn(goal: string, done: string, left: string, ahead: string)
    requires left != [] && |ahead| == EncodedLength(left) && goal == done + Encoded(left, ahead)
    ensures var head := EncodedHead(left[0], ahead[0]);
            && |head| <= |ahead| && |ahead| - |head| == EncodedLength(left[1..])
            && goal == (done + head) + Encoded(left[1..], ahead[|head|..])
  {
    var head := EncodedHead(left[0], ahead[0]);
    EncodedUnfolds(left, ahead);
    Regroup(done, head, Encoded(left[1..], ahead[|head|..]));
  }

  /** What encoding one character leaves. */
  function EncodedHead(c: char, was: char): string {
    if c == '/' then [was, '1'] else if c == '~' then "~1" else [c]
  }

  lemma Regroup(a: string, b: string, c: string)
    ensures a + (b + c) == (a + b) + c
  {
  }

  lemma EncodedUnfolds(s: string, was: string)
    requires s != [] && |was| == EncodedLength(s)
    ensures var h := EncodedHead(s[0], was[0]);
            && EncodedLength(s) == |h| + EncodedLength(s[1..])
            && Encoded(s, was) == h + Encoded(s[1..], was[|h|..])
  {
  }

  function ZeroBytes(n: nat): (r: string)
    ensures |r| == n
  {
    if n == 0 then "" else "\0" + ZeroBytes(n - 1)
  }

  /** The text a key gets in a pointer, in memory that was zero. */
  function Token(key: string): string {
    Encoded(key, ZeroBytes(EncodedLength(key)))
  }

  ghost predicate EscapeFree(s: string) {
    '~' !in s && '/' !in s
  }

  /** The encoder writes the standard's escape, whatever memory held before, exactly for keys that
      need no escaping; those it copies. */
  lemma EncodeExact(s: string)
    ensures (forall was: string | |was| == EncodedLength(s) :: Encoded(s, was) == Escape(s)) <==> EscapeFree(s)
    ensures EscapeFree(s) ==> Escape(s) == s && Token(s) == s
  {
    EncodeBlank(s);
    if EscapeFree(s) {
      forall was: string | |was| == EncodedLength(s)
        ensures Encoded(s, was) == Escape(s)
      {
        EncodeCopies(s, was);
      }
      EncodeCopies(s, ZeroBytes(EncodedLength(s)));
    } else {
      assert Encoded(s, ZeroBytes(EncodedLength(s))) != Escape(s);
    }
  }

  lemma {:induction false} EncodeCopies(s: string, was: string)
    requires EscapeFree(s) && |was| == EncodedLength(s)
    ensures Encoded(s, was) == s == Escape(s)
  {
    if s != [] {
      assert s[0] in s && EscapeFree(s[1..]);
      EncodeCopies(s[1..], was[1..]);
    }
  }

  lemma {:induction false} EncodeBlank(s: string)
    ensures Encoded(s, ZeroBytes(EncodedLength(s))) == Escape(s) ==> EscapeFree(s)
  {
    if s != [] {
      var b := ZeroBytes(EncodedLength(s));
      EncodeBlank(s[1..]);
      if s[0] != '~' && s[0] != '/' {
        assert b[1..] == ZeroBytes(EncodedLength(s[1..]));
        assert Encoded(s, b)[1..] == Encoded(s[1..], b[1..]) && Escape(s)[1..] == Escape(s[1..]);
      } else {
        assert Encoded(s, b)[..2] != Escape(s)[..2] by {
          assert Encoded(s, b)[0] != '~' || Encoded(s, b)[1] != Escape(s)[1];
        }
      }
    }
  }

  /** The pointer built for the node at a position. */
  function PointerTo(v: Json, pos: seq<nat>): string
    requires ValidPosition(v, pos)
    decreases |pos|
  {
    if pos == [] then ""
    else "/" + (StepText(v, pos[0]) + PointerTo(Child(v, pos[0]), pos[1..]))
  }

  function StepText(v: Json, i: nat): string
    requires i < Children(v)
  {
    if v.Array? then Decimal(i) else Token(v.members[i].key)
  }

  /** The search: depth first through all children for the node at `target`; `here` is the position of
      `object`. */
  method FindPointerFromObjectTo(object_: Json, here: seq<nat>, target: seq<nat>) returns (r: Option<string>)
    ensures r == if here <= target && ValidPosition(object_, target[|here|..])
                 then Some(PointerTo(object_, target[|here|..])) else None
    decreases object_
  {
    hide StepText;
    if here == target {
      return Some("");
    }
    var i := 0;
    while i < Children(object_)
      invariant i <= Children(object_)
      invariant here < target && target[|here|] < i ==> !ValidPosition(object_, target[|here|..])
    {
      var found := FindPointerFromObjectTo(Child(object_, i), here + [i], target);
      PrefixStep(here, i, target);
      if found.Some? {
        return Some("/" + (StepText(object_, i) + found.value));
      }
      i := i + 1;
    }
    return None;
  }

  lemma PrefixStep(here: seq<nat>, i: nat, target: seq<nat>)
    ensures here + [i] <= target <==> here < target && target[|here|] == i
    ensures here < target ==> target[|here|..] == [target[|here|]] + target[|here| + 1..]
  {
    if here < target && target[|here|] == i {
      assert here + [i] == target[..|here| + 1];
    }
  }

  /** No two members of one object share a key, letter case aside unless it counts. */
  ghost predicate Separated(v: Json, caseSensitive: bool) {
    match v
    case Array(items) => forall i :: 0 <= i < |items| ==> Separated(items[i], caseSensitive)
    case Object(ms) =>
      && (forall i, j :: 0 <= i < j < |ms| ==> FoldAll(ms[i].key, caseSensitive) != FoldAll(ms[j].key, caseSensitive))
      && forall i :: 0 <= i < |ms| ==> Separated(ms[i].val, caseSensitive)
    case _ => true
  }

  /** A character that no key on the way to a position contains. */
  ghost predicate Avoids(v: Json, pos: seq<nat>, c: char)
    requires ValidPosition(v, pos)
    decreases |pos|
  {
    pos == [] || ((v.Object? ==> c !in v.members[pos[0]].key) && Avoids(Child(v, pos[0]), pos[1..], c))
  }

  /** The key a slash-free key's token decodes to. */
  function Slashed(s: string): (r: string)
    ensures |r| == |s|
    ensures forall i :: 0 <= i < |s| ==> r[i] == if s[i] == '~' then '/' else s[i]
  {
    if s == [] then "" else [if s[0] == '~' then '/' else s[0]] + Slashed(s[1..])
  }

  lemma TokenUnfolds(key: string)
    requires key != [] && key[0] != '/'
    ensures Token(key) == EncodedHead(key[0], '\0') + Token(key[1..])
  {
    var b := ZeroBytes(EncodedLength(key));
    EncodedUnfolds(key, b);
    assert b[1..] == ZeroBytes(EncodedLength(key) - 1);
    if key[0] == '~' {
      assert b[2..] == b[1..][1..] == ZeroBytes(EncodedLength(key[1..]));
    }
  }

  lemma {:induction false} TokenDecodes(key: string)
    requires '/' !in key
    ensures '/' !in Token(key) && Decode(Token(key)) == Some(Slashed(key))
  {
    if key != [] {
      assert key[0] in key && '/' !in key[1..];
      TokenDecodes(key[1..]);
      TokenUnfolds(key);
      var t, tail := Token(key), Token(key[1..]);
      if key[0] == '~' {
        assert t[0] == '~' && t[1] == '1' && t[2..] == tail;
      } else {
        assert t[0] == key[0] && t[1..] == tail;
      }
    }
  }

  /** Following the pointer built for a node returns that node exactly when no key on the way
      contains '~' (keys with '/' apart, whose token is partly unwritten memory). */
  lemma {:induction false} PointerRoundTrip(v: Json, pos: seq<nat>, caseSensitive: bool)
    requires ValidPosition(v, pos) && Separated(v, caseSensitive) && Avoids(v, pos, '/')
    ensures Locate(v, PointerTo(v, pos), caseSensitive) == Some(pos) <==> Avoids(v, pos, '~')
    decreases |pos|
  {
    if pos != [] {
      var i, c := pos[0], Child(v, pos[0]);
      var rest := PointerTo(c, pos[1..]);
      PointerRoundTrip(c, pos[1..], caseSensitive);
      OneStep(v, i, rest, caseSensitive);
      LocateUnfolds(v, StepText(v, i) + rest, caseSensitive);
      OneLevel(i, pos, Locate(c, rest, caseSensitive));
    }
  }

  lemma LocateUnfolds(v: Json, p: string, caseSensitive: bool)
    ensures Locate(v, "/" + p, caseSensitive) ==
            match Step(v, p, caseSensitive)
            case None => None
            case Some(i) => Under(i, Locate(Child(v, i), p[TokenLength(p)..], caseSensitive))
  {
    assert ("/" + p)[1..] == p;
  }

  lemma OneLevel(i: nat, pos: seq<nat>, r: Option<seq<nat>>)
    requires pos != [] && pos[0] == i
    ensures Under(i, r) == Some(pos) <==> r == Some(pos[1..])
    ensures forall k :: k != i ==> Under(k, r) != Some(pos)
  {
    assert pos == [i] + pos[1..];
    assert r.Some? ==> ([i] + r.value)[1..] == r.value;
    forall k | k != i
      ensures Under(k, r) != Some(pos)
    {
      assert r.Some? ==> ([k] + r.value)[0] == k;
    }
  }

  /** The text of one step leads to the child it was made for, unless its key has a '~'; and what
      remains after the token is what follows the text. */
  lemma OneStep(v: Json, i: nat, rest: string, caseSensitive: bool)
    requires i < Children(v) && Separated(v, caseSensitive) && (rest == [] || rest[0] == '/')
    requires v.Object? ==> '/' !in v.members[i].key
    ensures var p := StepText(v, i) + rest;
            && p[TokenLength(p)..] == rest
            && (Step(v, p, caseSensitive) == Some(i) <==> (v.Object? ==> '~' !in v.members[i].key))
  {
    var p := StepText(v, i) + rest;
    if v.Array? {
      DecimalIndex(i, rest);
      DecimalReadsBack(i);
      SlashFreeToken(Decimal(i), rest);
    } else {
      TokenDecodes(v.members[i].key);
      SlashFreeToken(Token(v.members[i].key), rest);
      assert p[..TokenLength(p)] == Token(v.members[i].key);
      KeyStep(v.members, i, p, caseSensitive);
    }
  }

  lemma {:induction false} SlashFreeToken(t: string, rest: string)
    requires (forall i :: 0 <= i < |t| ==> t[i] != '/') && (rest == [] || rest[0] == '/')
    ensures TokenLength(t + rest) == |t|
  {
    if t == [] {
      assert t + rest == rest;
    } else {
      assert (t + rest)[1..] == t[1..] + rest;
      SlashFreeToken(t[1..], rest);
    }
  }

  lemma KeyStep(ms: seq<Member>, i: nat, p: string, caseSensitive: bool)
    requires i < |ms| && Decode(p[..TokenLength(p)]) == Some(Slashed(ms[i].key)) && '/' !in ms[i].key
    requires forall a, b :: 0 <= a < b < |ms| ==> FoldAll(ms[a].key, caseSensitive) != FoldAll(ms[b].key, caseSensitive)
    ensures FirstMatch(ms, p, caseSensitive) == i <==> '~' !in ms[i].key
  {
    var k := FirstMatch(ms, p, caseSensitive);
    var key := ms[i].key;
    ComparePointersDecodes(key, p, caseSensitive);
    if '~' in key {
      var x :| 0 <= x < |key| && key[x] == '~';
      assert FoldAll(Slashed(key), caseSensitive)[x] == '/' && FoldAll(key, caseSensitive)[x] == '~';
    } else {
      assert Slashed(key) == key;
      assert k <= i;
      ComparePointersDecodes(ms[k].key, p, caseSensitive);
    }
  }
}
