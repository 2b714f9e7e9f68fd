/** JSON Patch as RFC 6902 describes it, on meanings. */
module PatchStandard {
  // Objects are maps and a path is a list of tokens. The reading of an array index is a parameter, so that the
  // standard's and the code's can be told apart.

  import opened JsonTree
  import opened Pointers

  type IndexReader = string -> Option<nat>

  /** The value a token selects in a container. */
  function Select(v: Value, token: string, ix: IndexReader): Option<Value> {
    match v
    case VArray(items) =>
      (match ix(token)
       case Some(i) => if i < |items| then Some(items[i]) else None
       case None => None)
    case VObject(m) => if token in m then Some(m[token]) else None
    case _ => None
  }

  /** The container with the value a token selects exchanged. */
  function Exchange(v: Value, token: string, x: Value, ix: IndexReader): Value
    requires Select(v, token, ix).Some?
  {
    match v
    case VArray(items) => VArray(items[ix(token).value := x])
    case VObject(m) => VObject(m[token := x])
  }

  /** Section 4 of RFC 6901. */
  function Get(v: Value, path: seq<string>, ix: IndexReader): Option<Value>
    decreases |path|
  {
    if path == [] then Some(v)
    else
      match Select(v, path[0], ix)
      case None => None
      case Some(c) => Get(c, path[1..], ix)
  }

  datatype Change = Add(x: Value) | Remove | Replace(x: Value)

  /** Sections 4.1 to 4.3 of RFC 6902, at the container that holds the target. */
  function ChangeMember(v: Value, token: string, e: Change, ix: IndexReader): Option<Value> {
    match v
    case VArray(items) =>
      (match e
       case Add(x) =>
         if token == "-" then Some(VArray(items + [x]))
         else
           (match ix(token)
            case Some(i) => if i <= |items| then Some(VArray(items[..i] + [x] + items[i..])) else None
            case None => None)
       case Remove =>
         (match ix(token)
          case Some(i) => if i < |items| then Some(VArray(items[..i] + items[i + 1..])) else None
          case None => None)
       case Replace(x) =>
         if Select(v, token, ix).Some? then Some(Exchange(v, token, x, ix)) else None)
    case VObject(m) =>
      (match e
       case Add(x) => Some(VObject(m[token := x]))
       case Remove => if token in m then Some(VObject(m - {token})) else None
       case Replace(x) => if token in m then Some(VObject(m[token := x])) else None)
    case _ => None
  }

  /** The same anywhere below a value. At the root itself adding and replacing put the new value, and
      removing leaves no document (the library's invalid item). */
  function ChangeAt(v: Value, path: seq<string>, e: Change, ix: IndexReader): Option<Value>
    decreases |path|
  {
    if path == [] then Some(if e.Remove? then VInvalid else e.x)
    else if |path| == 1 then ChangeMember(v, path[0], e, ix)
    else
      match Select(v, path[0], ix)
      case None => None
      case Some(c) =>
        match ChangeAt(c, path[1..], e, ix)
        case None => None
        case Some(d) => Some(Exchange(v, path[0], d, ix))
  }

  datatype Operation =
    | Edit(path: seq<string>, e: Change)
    | Move(from: seq<string>, path: seq<string>)
    | Copy(from: seq<string>, path: seq<string>)
    | Test(path: seq<string>, x: Value)

  /** A value taken out of one place and put in another. */
  function Relocate(v: Value, from: seq<string>, path: seq<string>, ix: IndexReader): Option<Value> {
    match (Get(v, from, ix), ChangeAt(v, from, Remove, ix))
    case (Some(x), Some(rest)) => ChangeAt(rest, path, Add(x), ix)
    case _ => None
  }

  /** Section 4 of RFC 6902; None is the error that ends the patch. A location cannot be moved into one of
      its children (section 4.4). */
  function Perform(v: Value, op: Operation, ix: IndexReader): Option<Value> {
    match op
    case Edit(path, e) => ChangeAt(v, path, e, ix)
    case Move(from, path) => if from < path then None else Relocate(v, from, path, ix)
    case Copy(from, path) =>
      (match Get(v, from, ix)
       case Some(x) => ChangeAt(v, path, Add(x), ix)
       case None => None)
    case Test(path, x) => if Get(v, path, ix) == Some(x) then Some(v) else None
  }

  // ----- moving a value into itself -----

  /** What a token selects once the value it selected is taken out: in an array, the next element. */
  function Behind(v: Value, token: string, ix: IndexReader): Option<Value> {
    match v
    case VArray(items) =>
      (match ix(token)
       case Some(i) => if i + 1 < |items| then Some(items[i + 1]) else None
       case None => None)
    case _ => None
  }

  /** `path` goes on from `from`, which names an array element, and the rest of it is a place in the element
      behind where a value can be added. */
  ghost predicate MovesIntoNext(v: Value, from: seq<string>, path: seq<string>, ix: IndexReader) {
    && from != [] && from < path
    && var c := Get(v, from[..|from| - 1], ix);
       && c.Some?
       && var x, b := Select(c.value, from[|from| - 1], ix), Behind(c.value, from[|from| - 1], ix);
          x.Some? && b.Some? && ChangeAt(b.value, path[|from|..], Add(x.value), ix).Some?
  }

  lemma RelocateHere(v: Value, from: seq<string>, path: seq<string>, ix: IndexReader)
    requires from < path && |from| == 1
    ensures Relocate(v, from, path, ix).Some? <==> MovesIntoNext(v, from, path, ix)
  {
    var t := from[0];
    assert path[0] == t && from[..0] == [] && from[1..] == [];
    var x, w := Select(v, t, ix), ChangeAt(v, from, Remove, ix);
    assert Get(v, from, ix) == (if x.Some? then Get(x.value, [], ix) else None) == x;
    if x.Some? && w.Some? {
      assert Select(w.value, t, ix) == Behind(v, t, ix);
    }
  }

  /** Taking a value out and putting it below where it was works in this case only. */
  lemma {:induction false} RelocateInto(v: Value, from: seq<string>, path: seq<string>, ix: IndexReader)
    requires from < path
    ensures Relocate(v, from, path, ix).Some? <==> MovesIntoNext(v, from, path, ix)
    decreases |from|
  {
    if |from| == 1 {
      RelocateHere(v, from, path, ix);
    } else if |from| > 1 {
      var c := Select(v, from[0], ix);
      var init := from[..|from| - 1];
      assert path[0] == from[0] && from[1..] < path[1..];
      assert init[0] == from[0] && init[1..] == from[1..][..|from| - 2];
      assert path[1..][|from| - 1..] == path[|from|..];
      if c.Some? {
        RelocateInto(c.value, from[1..], path[1..], ix);
        var d := ChangeAt(c.value, from[1..], Remove, ix);
        if d.Some? {
          assert Select(Exchange(v, from[0], d.value, ix), from[0], ix) == d;
        }
      }
    }
  }

  /** What can be found can be taken out. */
  lemma {:induction false} FoundRemovable(v: Value, path: seq<string>, ix: IndexReader)
    requires Get(v, path, ix).Some?
    ensures ChangeAt(v, path, Remove, ix).Some?
    decreases |path|
  {
    if |path| > 1 {
      FoundRemovable(Select(v, path[0], ix).value, path[1..], ix);
    } else if |path| == 1 {
      assert Get(v, path, ix) == Get(Select(v, path[0], ix).value, path[1..], ix);
    }
  }

  /** The operations the library carries out otherwise than the standard: it moves an array element into the
      one behind it, and it does not put anything in place of the whole document. */
  ghost predicate Departs(v: Value, op: Operation, ix: IndexReader) {
    match op
    case Move(from, path) => (path == [] && Get(v, from, ix).Some?) || MovesIntoNext(v, from, path, ix)
    case Copy(from, path) => path == [] && Get(v, from, ix).Some?
    case _ => false
  }

  /** Where every array on the way along a path meets a token the code reads as the standard does. */
  ghost predicate RegularPath(v: Value, path: seq<string>)
    decreases |path|
  {
    path != [] ==>
      && (v.VArray? ==> RegularIndex(path[0]) && '/' !in path[0])
      && (Select(v, path[0], StandardIndex).Some? ==> RegularPath(Select(v, path[0], StandardIndex).value, path[1..]))
  }

  lemma ReadersAgree(token: string)
    requires RegularIndex(token) && '/' !in token
    ensures DecodeArrayIndex(token) == StandardIndex(token)
  {
    var n := TokenLength(token);
    assert n == |token|;
    assert token[..n] == token;
    DecodeIndexExact(token);
  }

  /** On a regular path the code's index reader gives what the standard's gives. */
  lemma {:induction false} RegularGet(v: Value, path: seq<string>)
    requires RegularPath(v, path)
    ensures Get(v, path, DecodeArrayIndex) == Get(v, path, StandardIndex)
    decreases |path|
  {
    if path != [] {
      if v.VArray? {
        ReadersAgree(path[0]);
      }
      var c := Select(v, path[0], StandardIndex);
      if c.Some? {
        RegularGet(c.value, path[1..]);
      }
    }
  }

  lemma {:induction false} RegularChange(v: Value, path: seq<string>, e: Change)
    requires RegularPath(v, path)
    ensures ChangeAt(v, path, e, DecodeArrayIndex) == ChangeAt(v, path, e, StandardIndex)
    decreases |path|
  {
    if path != [] {
      if v.VArray? {
        ReadersAgree(path[0]);
      }
      var c := Select(v, path[0], StandardIndex);
      if |path| > 1 && c.Some? {
        RegularChange(c.value, path[1..], e);
      }
    }
  }

  /** An operation whose every path is regular where it is followed: for a move, `path` in what is left. */
  ghost predicate RegularOperation(v: Value, op: Operation) {
    match op
    case Edit(path, _) => RegularPath(v, path)
    case Move(from, path) =>
      && RegularPath(v, from)
      && (match ChangeAt(v, from, Remove, StandardIndex) case Some(w) => RegularPath(w, path) case None => true)
    case Copy(from, path) => RegularPath(v, from) && RegularPath(v, path)
    case Test(path, _) => RegularPath(v, path)
  }

  lemma RegularRelocate(v: Value, from: seq<string>, path: seq<string>)
    requires RegularOperation(v, Move(from, path))
    ensures Relocate(v, from, path, DecodeArrayIndex) == Relocate(v, from, path, StandardIndex)
    ensures Get(v, from, DecodeArrayIndex) == Get(v, from, StandardIndex)
  {
    RegularGet(v, from);
    RegularChange(v, from, Remove);
    var x, w := Get(v, from, StandardIndex), ChangeAt(v, from, Remove, StandardIndex);
    if x.Some? && w.Some? {
      RegularChange(w.value, path, Add(x.value));
    }
  }

  lemma RegularPerform(v: Value, op: Operation)
    requires RegularOperation(v, op)
    ensures Perform(v, op, DecodeArrayIndex) == Perform(v, op, StandardIndex)
    ensures Departs(v, op, DecodeArrayIndex) <==> Departs(v, op, StandardIndex)
  {
    hide Get, ChangeAt, Relocate, MovesIntoNext, RegularPath;
    match op {
      case Edit(path, e) => RegularChange(v, path, e);
      case Test(path, _) => RegularGet(v, path);
      case Copy(from, path) =>
        RegularGet(v, from);
        var x := Get(v, from, StandardIndex);
        if x.Some? {
          RegularChange(v, path, Add(x.value));
        }
      case Move(from, path) =>
        RegularRelocate(v, from, path);
        if from < path {
          RelocateInto(v, from, path, DecodeArrayIndex);
          RelocateInto(v, from, path, StandardIndex);
        } else {
          NotInside(v, from, path);
        }
    }
  }

  lemma NotInside(v: Value, from: seq<string>, path: seq<string>)
    requires !(from < path)
    ensures !MovesIntoNext(v, from, path, DecodeArrayIndex) && !MovesIntoNext(v, from, path, StandardIndex)
  {
  }

  /** A change below a value is a change to its container, put back where the container was. */
  lemma {:induction false} ChangeInContainer(v: Value, path: seq<string>, e: Change, ix: IndexReader)
    requires path != []
    ensures ChangeAt(v, path, e, ix) ==
            match Get(v, path[..|path| - 1], ix)
            case None => None
            case Some(c) =>
              match ChangeMember(c, path[|path| - 1], e, ix)
              case None => None
              case Some(d) => Some(Rebuild(v, path[..|path| - 1], d, ix))
    decreases |path|
  {
    if |path| == 1 {
      assert path[..0] == [];
    } else {
      var c := Select(v, path[0], ix);
      var init := path[..|path| - 1];
      assert init[0] == path[0] && init[1..] == path[1..][..|path| - 2];
      if c.Some? {
        ChangeInContainer(c.value, path[1..], e, ix);
      }
    }
  }

  /** The value with the one at a path exchanged (unchanged if there is none). */
  function Rebuild(v: Value, path: seq<string>, x: Value, ix: IndexReader): Value
    decreases |path|
  {
    if path == [] then x
    else
      match Select(v, path[0], ix)
      case None => v
      case Some(c) => Exchange(v, path[0], Rebuild(c, path[1..], x, ix), ix)
  }
}
