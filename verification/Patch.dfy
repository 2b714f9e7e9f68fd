/** Applying JSON Patch documents (apply_patch and the helpers it calls). */
module Patching {
  // Trees are values: a method that changes a node in place becomes a function from the old root to the new one.

  import opened CStrings
  import opened JsonTree
  import opened KeySort
  import opened Comparison
  import opened Pointers

  // ----- in-place helpers -----

  /** The tree with the node at a position exchanged. */
  function PutAt(v: Json, pos: seq<nat>, x: Json): Json
    requires ValidPosition(v, pos)
    decreases |pos|
  {
    if pos == [] then x else SetChild(v, pos[0], PutAt(Child(v, pos[0]), pos[1..], x))
  }

  function SetChild(v: Json, i: nat, x: Json): Json
    requires i < Children(v)
  {
    match v
    case Array(items) => Array(items[i := x])
    case Object(ms) => Object(ms[i := Member(ms[i].key, x)])
  }

  /** get_object_item; nodes other than objects have no named children. */
  function GetObjectItem(v: Json, name: string, caseSensitive: bool): Option<Json> {
    if v.Object? then
      var i := FindKey(v.members, name, caseSensitive);
      if i < |v.members| then Some(v.members[i].val) else None
    else None
  }

  /** Offset of the last '/', as strrchr finds it. */
  function LastSlash(path: string): (r: Option<nat>)
    ensures r.Some? ==> r.value < |path| && path[r.value] == '/'
    ensures r.Some? ==> forall i :: r.value < i < |path| ==> path[i] != '/'
    ensures r.None? ==> forall i :: 0 <= i < |path| ==> path[i] != '/'
  {
    if path == [] then None
    else if path[|path| - 1] == '/' then Some(|path| - 1)
    else LastSlash(path[..|path| - 1])
  }

  /** Memory after decode_pointer_inplace's loop has come to read offset i and write offset d: an
      escape for '~' is written where it belongs, one for '/' a byte further on, and other bytes are
      not moved at all. */
  function DecodeLoop(mem: string, i: nat, d: nat): (r: string)
    requires mem != [] && mem[|mem| - 1] == '\0' && d <= i < |mem|
    ensures |r| == |mem| && r[|r| - 1] == '\0'
    decreases |mem| - i
  {
    if mem[i] == '\0' then mem[d := '\0']
    else if mem[i] == '~' then
      if mem[i + 1] == '0' then DecodeLoop(mem[d := '~'], i + 2, d + 1)
      else if mem[i + 1] == '1' then DecodeLoop(mem[d + 1 := '/'], i + 2, d + 1)
      else mem
    else DecodeLoop(mem, i + 1, d + 1)
  }

  /** The loop over the bytes, in place. */
  method DecodePointerInPlace(a: array<char>)
    requires a.Length > 0 && a[a.Length - 1] == '\0'
    modifies a
    ensures a[..] == DecodeLoop(old(a[..]), 0, 0)
  {
    var i, d := 0, 0;
    while a[i] != '\0'
      invariant d <= i < a.Length && a[a.Length - 1] == '\0'
      invariant DecodeLoop(old(a[..]), 0, 0) == DecodeLoop(a[..], i, d)
      decreases a.Length - i
    {
      ghost var m := a[..];
      if a[i] == '~' {
        if a[i + 1] == '0' {
          a[d] := '~';
          assert a[..] == m[d := '~'];
        } else if a[i + 1] == '1' {
          a[d + 1] := '/';
          assert a[..] == m[d + 1 := '/'];
        } else {
          return;
        }
        i := i + 1;
      }
      i, d := i + 1, d + 1;
    }
    ghost var m := a[..];
    a[d] := '\0';
    assert a[..] == m[d := '\0'];
  }

  /** The C string a piece of memory holds. */
  function CString(mem: string): string {
    if mem == [] || mem[0] == '\0' then "" else [mem[0]] + CString(mem[1..])
  }

  function DecodedInPlace(s: string): string {
    CString(DecodeLoop(s + ['\0'], 0, 0))
  }

  /** detach_item_from_array: the item is unlinked, or nothing happens. */
  function RemoveAt<T>(s: seq<T>, i: nat): seq<T>
    requires i < |s|
  {
    s[..i] + s[i + 1..]
  }

  function InsertAt<T>(s: seq<T>, i: nat, x: T): seq<T>
    requires i <= |s|
  {
    s[..i] + [x] + s[i..]
  }

  datatype Detached = Detached(item: Option<Json>, root: Json)

  /** detach_path. An object's child is looked up without regard to case, whatever the caller's flag. */
  function DetachPath(root: Json, path: string, caseSensitive: bool): Detached {
    match LastSlash(path)
    case None => Detached(None, root)
    case Some(slash) =>
      match Locate(root, path[..slash], caseSensitive)
      case None => Detached(None, root)
      case Some(pos) => DetachChild(root, pos, DecodedInPlace(path[slash + 1..]))
  }

  function DetachChild(root: Json, pos: seq<nat>, child: string): Detached
    requires ValidPosition(root, pos)
  {
    match NodeAt(root, pos)
    case Array(items) =>
      (match DecodeArrayIndex(child)
       case None => Detached(None, root)
       case Some(i) =>
         if i < |items| then Detached(Some(items[i]), PutAt(root, pos, Array(RemoveAt(items, i))))
         else Detached(None, root))
    case Object(ms) =>
      var i := FindKey(ms, child, false);
      if i < |ms| then Detached(Some(ms[i].val), PutAt(root, pos, Object(RemoveAt(ms, i))))
      else Detached(None, root)
    case _ => Detached(None, root)
  }

  // ----- apply_patch -----

  datatype Opcode = BadOp | AddOp | RemoveOp | ReplaceOp | MoveOp | CopyOp | TestOp

  function DecodePatchOperation(patch: Json, caseSensitive: bool): Opcode {
    match GetObjectItem(patch, "op", caseSensitive)
    case Some(String(s)) =>
      if s == "add" then AddOp
      else if s == "remove" then RemoveOp
      else if s == "replace" then ReplaceOp
      else if s == "move" then MoveOp
      else if s == "copy" then CopyOp
      else if s == "test" then TestOp
      else BadOp
    case _ => BadOp
  }

  datatype Applied = Applied(root: Json, status: nat)

  /** One patch. A step that fails after an earlier one changed the tree leaves it changed. */
  function ApplyPatch(root: Json, patch: Json, caseSensitive: bool): Applied {
    match GetObjectItem(patch, "path", caseSensitive)
    case Some(String(path)) =>
      ApplyOperation(root, DecodePatchOperation(patch, caseSensitive), path, patch, caseSensitive)
    case _ => Applied(root, 2)
  }

  function ApplyOperation(root: Json, opcode: Opcode, path: string, patch: Json, caseSensitive: bool): Applied {
    match opcode
    case BadOp => Applied(root, 3)
    case TestOp => Applied(root, if TestHolds(root, path, patch, caseSensitive) then 0 else 1)
    case RemoveOp => if path == "" then Applied(Invalid, 0) else ApplyRemove(root, path, caseSensitive)
    case ReplaceOp =>
      if path == "" then ApplyRoot(root, patch, caseSensitive)
      else
        var r := ApplyRemove(root, path, caseSensitive);
        if r.status != 0 then r else ApplyAdd(r.root, path, patch, caseSensitive)
    case AddOp =>
      if path == "" then ApplyRoot(root, patch, caseSensitive) else ApplyAdd(root, path, patch, caseSensitive)
    case MoveOp => ApplyMove(root, path, patch, caseSensitive)
    case CopyOp => ApplyCopy(root, path, patch, caseSensitive)
  }

  function TestHolds(root: Json, path: string, patch: Json, caseSensitive: bool): bool {
    match (Locate(root, path, caseSensitive), GetObjectItem(patch, "value", caseSensitive))
    case (Some(pos), Some(value)) => CompareJson(NodeAt(root, pos), value, caseSensitive)
    case _ => false
  }

  /** Adding or replacing the document itself. */
  function ApplyRoot(root: Json, patch: Json, caseSensitive: bool): Applied {
    match GetObjectItem(patch, "value", caseSensitive)
    case None => Applied(root, 7)
    case Some(value) => Applied(value, 0)
  }

  function ApplyRemove(root: Json, path: string, caseSensitive: bool): Applied {
    var d := DetachPath(root, path, caseSensitive);
    if d.item.None? then Applied(root, 13) else Applied(d.root, 0)
  }

  function ApplyAdd(root: Json, path: string, patch: Json, caseSensitive: bool): Applied {
    match GetObjectItem(patch, "value", caseSensitive)
    case None => Applied(root, 7)
    case Some(value) => AddAt(root, path, value, caseSensitive)
  }

  function ApplyMove(root: Json, path: string, patch: Json, caseSensitive: bool): Applied {
    match GetObjectItem(patch, "from", caseSensitive)
    case None => Applied(root, 4)
    case Some(String(from)) =>
      var d := DetachPath(root, from, caseSensitive);
      if d.item.None? then Applied(root, 5) else AddAt(d.root, path, d.item.value, caseSensitive)
    case Some(_) => Applied(root, 5)
  }

  function ApplyCopy(root: Json, path: string, patch: Json, caseSensitive: bool): Applied {
    match GetObjectItem(patch, "from", caseSensitive)
    case None => Applied(root, 4)
    case Some(String(from)) =>
      (match Locate(root, from, caseSensitive)
       case None => Applied(root, 5)
       case Some(pos) => AddAt(root, path, NodeAt(root, pos), caseSensitive))
    case Some(_) => Applied(root, 5)
  }

  /** The common tail: put the value where the path says. */
  function AddAt(root: Json, path: string, value: Json, caseSensitive: bool): Applied {
    match LastSlash(path)
    case None => Applied(root, 9)
    case Some(slash) =>
      match Locate(root, path[..slash], caseSensitive)
      case None => Applied(root, 9)
      case Some(pos) => AddChild(root, pos, DecodedInPlace(path[slash + 1..]), value, caseSensitive)
  }

  function AddChild(root: Json, pos: seq<nat>, child: string, value: Json, caseSensitive: bool): Applied
    requires ValidPosition(root, pos)
  {
    match NodeAt(root, pos)
    case Array(items) =>
      if child == "-" then Applied(PutAt(root, pos, Array(items + [value])), 0)
      else
        (match DecodeArrayIndex(child)
         case None => Applied(root, 11)
         case Some(i) =>
           if i <= |items| then Applied(PutAt(root, pos, Array(InsertAt(items, i, value))), 0)
           else Applied(root, 10))
    case Object(ms) =>
      var i := FindKey(ms, child, caseSensitive);
      var kept := if i < |ms| then RemoveAt(ms, i) else ms;
      Applied(PutAt(root, pos, Object(kept + [Member(child, value)])), 0)
    case _ => Applied(root, 9)
  }

  /** All patches of an array, up to the first that fails. */
  function ApplyAll(root: Json, patches: seq<Json>, caseSensitive: bool): Applied
    decreases |patches|
  {
    if patches == [] then Applied(root, 0)
    else
      var r := ApplyPatch(root, patches[0], caseSensitive);
      if r.status != 0 then r else ApplyAll(r.root, patches[1..], caseSensitive)
  }

  /** A document changed in place by patches. */
  class Document {
    var root: Json

    constructor (root: Json)
      ensures this.root == root
    {
      this.root := root;
    }

    /** cJSONUtils_ApplyPatches and its case-sensitive twin, on values. On nodes a test sorts what it looks at, which
        `StaleHeads` follows up. */
    method ApplyPatches(patches: Json, caseSensitive: bool) returns (status: nat)
      modifies this
      ensures patches.Array? ==> Applied(root, status) == ApplyAll(old(root), patches.items, caseSensitive)
      ensures !patches.Array? ==> root == old(root) && status == 1
    {
      if !patches.Array? {
        return 1;
      }
      var i := 0;
      while i < |patches.items|
        invariant i <= |patches.items|
        invariant ApplyAll(old(root), patches.items, caseSensitive) == ApplyAll(root, patches.items[i..], caseSensitive)
      {
        assert patches.items[i..][1..] == patches.items[i + 1..];
        var r := ApplyPatch(root, patches.items[i], caseSensitive);
        root, status := r.root, r.status;
        if status != 0 {
          return;
        }
        i := i + 1;
      }
      return 0;
    }
  }

  /** Text without '~' decodes to itself. */
  lemma {:induction false} DecodedPlain(s: string)
    requires forall i :: 0 <= i < |s| ==> s[i] != '~' && s[i] != '\0'
    ensures DecodedInPlace(s) == s
  {
    DecodeLoopPlain(s + ['\0'], 0);
    CStringOfText(s);
  }

  lemma {:induction false} DecodeLoopPlain(mem: string, i: nat)
    requires i < |mem| && mem[|mem| - 1] == '\0' && forall k :: 0 <= k < |mem| - 1 ==> mem[k] != '~' && mem[k] != '\0'
    ensures DecodeLoop(mem, i, i) == mem
    decreases |mem| - i
  {
    if i < |mem| - 1 {
      DecodeLoopPlain(mem, i + 1);
    }
  }

  lemma {:induction false} CStringOfText(s: string)
    requires forall i :: 0 <= i < |s| ==> s[i] != '\0'
    ensures CString(s + ['\0']) == s
  {
    if s != [] {
      assert (s + ['\0'])[1..] == s[1..] + ['\0'];
      CStringOfText(s[1..]);
    }
  }

  /** Where a '~' occurs the decoder is not RFC 6901's: an escaped '/' is lost, and text after an
      escape is not moved up. */
  lemma DecoderDeparts()
    ensures Decode("~1") == Some("/") && DecodedInPlace("~1") == "~"
    ensures Decode("~0b") == Some("~b") && DecodedInPlace("~0b") == "~0"
  {
    DecodeOf("1", "");
    DecodeOf("0", "b");
    assert "~" + "1" + "" == "~1" && "~" + "0" + "b" == "~0b" && ['/'] + "" == "/" && ['~'] + "b" == "~b";
    assert Decode("b") == Some("b") by {
      assert "b"[1..] == "" && Decode("") == Some("") && ['b'] + "" == "b";
    }
    assert DecodedInPlace("~1") == "~" by {
      var m := "~1" + ['\0'];
      var r := m[1 := '/'][1 := '\0'];
      assert DecodeLoop(m, 0, 0) == DecodeLoop(m[1 := '/'], 2, 1) == r;
      CStringEnds("~", r);
    }
    assert DecodedInPlace("~0b") == "~0" by {
      var m := "~0b" + ['\0'];
      assert m[0 := '~'] == m;
      assert DecodeLoop(m, 0, 0) == DecodeLoop(m, 2, 1) == DecodeLoop(m, 3, 2) == m[2 := '\0'];
      CStringEnds("~0", m[2 := '\0']);
    }
  }

  lemma DecodeOf(c: string, rest: string)
    requires c == "0" || c == "1"
    ensures Decode("~" + c + rest)
        == match Decode(rest) case None => None case Some(d) => Some([if c == "0" then '~' else '/'] + d)
  {
    var t := "~" + c + rest;
    assert t[0] == '~' && t[1] == c[0] && t[2..] == rest;
  }

  lemma {:induction false} CStringEnds(s: string, mem: string)
    requires |s| < |mem| && mem[..|s|] == s && mem[|s|] == '\0'
    requires forall i :: 0 <= i < |s| ==> s[i] != '\0'
    ensures CString(mem) == s
  {
    if s != [] {
      assert mem[0] == s[0] && mem[1..][..|s| - 1] == s[1..];
      CStringEnds(s[1..], mem[1..]);
    }
  }
}
