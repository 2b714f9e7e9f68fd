/** Arrays of patches. */
module PatchRuns {
  // Their success, the first failure, what it leaves, and patches that say nothing.

  import opened CStrings
  import opened JsonTree
  import opened KeySort
  import opened Comparison
  import opened Decimals
  import opened Pointers
  import opened Patching
  import opened PatchStandard
  import opened PatchRefinement

  /** Section 3 of RFC 6902: the operations in turn, each on what the one before gives. */
  function PerformAll(v: Value, ops: seq<Operation>, ix: IndexReader): Option<Value>
    decreases |ops|
  {
    if ops == [] then Some(v)
    else
      match Perform(v, ops[0], ix)
      case None => None
      case Some(w) => PerformAll(w, ops[1..], ix)
  }

  /** The patch objects say these operations, in order. */
  ghost predicate EncodesAll(patches: seq<Json>, ops: seq<Operation>) {
    |patches| == |ops| && forall i :: 0 <= i < |ops| ==> Encodes(patches[i], ops[i])
  }

  /** None of the operations that get their turn is one the library carries out otherwise. */
  ghost predicate NoneDeparts(v: Value, ops: seq<Operation>, ix: IndexReader)
    decreases |ops|
  {
    ops != [] ==>
      && !Departs(v, ops[0], ix)
      && (Perform(v, ops[0], ix).Some? ==> NoneDeparts(Perform(v, ops[0], ix).value, ops[1..], ix))
  }

  /** Every operation that gets its turn has array indices the code reads as the standard does. */
  ghost predicate AllRegular(v: Value, ops: seq<Operation>)
    decreases |ops|
  {
    ops != [] ==>
      && RegularOperation(v, ops[0])
      && (Perform(v, ops[0], StandardIndex).Some? ==> AllRegular(Perform(v, ops[0], StandardIndex).value, ops[1..]))
  }

  // ----- what a patch that fails says and leaves -----

  /** The error for a value that cannot be put at a path: no container there, no index, an index too large. */
  function AddStatus(v: Value, path: seq<string>, ix: IndexReader): nat {
    if path == [] then 9
    else
      match Get(v, path[..|path| - 1], ix)
      case Some(VObject(_)) => 0
      case Some(VArray(items)) =>
        var last := path[|path| - 1];
        if last == "-" then 0
        else (match ix(last) case None => 11 case Some(i) => if i <= |items| then 0 else 10)
      case _ => 9
  }

  /** The error for an operation, zero if there is none: 1 for a test, 13 for nothing to remove or replace, 5 for
      nothing to move or copy. The whole document can be tested, edited and copied, but not moved. */
  function StatusOf(v: Value, op: Operation, ix: IndexReader): nat {
    match op
    case Test(path, x) => if Get(v, path, ix) == Some(x) then 0 else 1
    case Edit(path, e) =>
      if path == [] then 0
      else if e.Add? then AddStatus(v, path, ix)
      else if Get(v, path, ix).Some? then 0 else 13
    case Copy(from, path) => if Get(v, from, ix).Some? then AddStatus(v, path, ix) else 5
    case Move(from, path) =>
      if from == [] || Get(v, from, ix).None? then 5 else AddStatus(Taken(v, from, ix), path, ix)
  }

  /** What is left when a value has been taken out. */
  function Taken(v: Value, from: seq<string>, ix: IndexReader): Value {
    match ChangeAt(v, from, Remove, ix) case Some(w) => w case None => v
  }

  /** What an operation that fails leaves: everything, except that a move has already taken out what it found. */
  function LeftBy(v: Value, op: Operation, ix: IndexReader): Value {
    if op.Move? && op.from != [] && Get(v, op.from, ix).Some? then Taken(v, op.from, ix) else v
  }

  /** What there is can be removed and replaced, and nothing else can. */
  lemma {:induction false} TargetNeeded(v: Value, path: seq<string>, e: Change, ix: IndexReader)
    requires path != [] && !e.Add?
    ensures ChangeAt(v, path, e, ix).Some? <==> Get(v, path, ix).Some?
    decreases |path|
  {
    var c := Select(v, path[0], ix);
    if |path| > 1 {
      if c.Some? {
        TargetNeeded(c.value, path[1..], e, ix);
      }
    } else {
      assert path[1..] == [] && Get(v, path, ix) == c;
    }
  }

  lemma AddSays(root: Json, path: seq<string>, value: Json, caseSensitive: bool)
    requires PlainTree(root) && PlainPath(path)
    ensures var a := AddAt(root, PathText(path), value, caseSensitive);
            a.status == AddStatus(Meaning(root), path, DecodeArrayIndex) && (a.status != 0 ==> a.root == root)
  {
    hide PlainTree, PathText, Walk, AddAt, NodeAt, PutAt, Get;
    if path == [] {
      NothingAtRoot(root, value, caseSensitive);
    } else {
      AddAtIsAddChild(root, path, value, caseSensitive);
      WalkMeaning(root, path[..|path| - 1]);
    }
  }

  /** The status of a patch and the document as a pair of claims. */
  ghost predicate Says(root: Json, a: Applied, op: Operation) {
    && a.status == StatusOf(Meaning(root), op, DecodeArrayIndex)
    && (a.status != 0 ==> PlainTree(a.root) && Meaning(a.root) == LeftBy(Meaning(root), op, DecodeArrayIndex))
  }

  /** Whether or not the standard agrees, the status of every patch is exactly this, and one that fails leaves exactly
      this. */
  lemma ApplyPatchSays(root: Json, patch: Json, op: Operation, caseSensitive: bool)
    requires PlainTree(root) && Encodes(patch, op)
    ensures Says(root, ApplyPatch(root, patch, caseSensitive), op)
  {
    hide ApplyOperation, Encodes, Says, PlainTree;
    ReadPatch(patch, op, caseSensitive);
    match op {
      case Edit(path, e) => EditSays(root, patch, path, e, caseSensitive);
      case Move(from, path) => MoveSays(root, patch, from, path, caseSensitive);
      case Copy(from, path) => CopySays(root, patch, from, path, caseSensitive);
      case Test(path, x) => TestSays(root, patch, path, x, caseSensitive);
    }
  }

  lemma TestSays(root: Json, patch: Json, path: seq<string>, x: Value, caseSensitive: bool)
    requires PlainTree(root) && Encodes(patch, Test(path, x))
    ensures Says(root, ApplyOperation(root, TestOp, PathText(path), patch, caseSensitive), Test(path, x))
  {
    hide TestHolds, Encodes, PlainTree;
    TestMatches(root, patch, path, x, caseSensitive);
  }

  lemma CopySays(root: Json, patch: Json, from: seq<string>, path: seq<string>, caseSensitive: bool)
    requires PlainTree(root) && Encodes(patch, Copy(from, path))
    ensures Says(root, ApplyOperation(root, CopyOp, PathText(path), patch, caseSensitive), Copy(from, path))
  {
    hide AddAt, Locate, Walk, PathText, GetObjectItem, Get, AddStatus, PlainTree;
    ItemOfPatch(patch, "from", VString(PathText(from)), caseSensitive);
    LocateIsWalk(root, from, caseSensitive);
    WalkMeaning(root, from);
    var pos := Walk(root, from);
    if pos.Some? {
      AddSays(root, path, NodeAt(root, pos.value), caseSensitive);
    }
  }

  lemma MoveSays(root: Json, patch: Json, from: seq<string>, path: seq<string>, caseSensitive: bool)
    requires PlainTree(root) && Encodes(patch, Move(from, path))
    ensures Says(root, ApplyOperation(root, MoveOp, PathText(path), patch, caseSensitive), Move(from, path))
  {
    hide AddAt, DetachPath, PathText, GetObjectItem, Get, ChangeAt, AddStatus, PlainTree;
    ItemOfPatch(patch, "from", VString(PathText(from)), caseSensitive);
    var d := DetachPath(root, PathText(from), caseSensitive);
    if from == [] {
      NothingDetached(root, caseSensitive);
    } else {
      DetachMatches(root, from, caseSensitive);
      TargetNeeded(Meaning(root), from, Remove, DecodeArrayIndex);
      if d.item.Some? {
        AddSays(d.root, path, d.item.value, caseSensitive);
      }
    }
  }

  lemma NothingDetached(root: Json, caseSensitive: bool)
    ensures DetachPath(root, PathText([]), caseSensitive).item == None
  {
  }

  lemma EditSays(root: Json, patch: Json, path: seq<string>, e: Change, caseSensitive: bool)
    requires PlainTree(root) && Encodes(patch, Edit(path, e))
    ensures Says(root, ApplyOperation(root, OpcodeOf(Edit(path, e)), PathText(path), patch, caseSensitive),
        Edit(path, e))
  {
    hide AddAt, DetachPath, PathText, GetObjectItem, Get, ChangeAt, AddStatus, PlainTree, Meaning;
    PathIsRoot(path);
    if !e.Remove? {
      ItemOfPatch(patch, "value", e.x, caseSensitive);
    }
    if path != [] {
      if e.Add? {
        AddSays(root, path, GetObjectItem(patch, "value", caseSensitive).value, caseSensitive);
      } else {
        DetachMatches(root, path, caseSensitive);
        TargetNeeded(Meaning(root), path, Remove, DecodeArrayIndex);
        if e.Replace? {
          ReplaceMatches(root, path, patch, e.x, caseSensitive);
          TargetNeeded(Meaning(root), path, e, DecodeArrayIndex);
        }
      }
    }
  }

  // ----- whole arrays -----

  /** For patches of every kind, tests, moves and copies included: the array succeeds exactly when the standard's
      sequence of operations does, and then the document means its result. */
  lemma {:induction false} ApplyAllMatches(root: Json, patches: seq<Json>, ops: seq<Operation>, caseSensitive: bool)
    requires PlainTree(root) && EncodesAll(patches, ops) && NoneDeparts(Meaning(root), ops, DecodeArrayIndex)
    ensures Matches(ApplyAll(root, patches, caseSensitive), PerformAll(Meaning(root), ops, DecodeArrayIndex))
    decreases |ops|
  {
    if ops != [] {
      hide ApplyPatch, Perform, PlainTree, Encodes, Departs;
      ApplyPatchMatches(root, patches[0], ops[0], caseSensitive);
      var r := ApplyPatch(root, patches[0], caseSensitive);
      if r.status == 0 {
        ApplyAllMatches(r.root, patches[1..], ops[1..], caseSensitive);
      }
    }
  }

  /** The same with the standard's own reading of array indices. */
  lemma ApplyAllConforms(root: Json, patches: seq<Json>, ops: seq<Operation>, caseSensitive: bool)
    requires PlainTree(root) && EncodesAll(patches, ops)
    requires NoneDeparts(Meaning(root), ops, StandardIndex) && AllRegular(Meaning(root), ops)
    ensures Matches(ApplyAll(root, patches, caseSensitive), PerformAll(Meaning(root), ops, StandardIndex))
  {
    hide Matches, PerformAll, NoneDeparts, AllRegular;
    RegularRun(Meaning(root), ops);
    ApplyAllMatches(root, patches, ops, caseSensitive);
  }

  lemma {:induction false} RegularRun(v: Value, ops: seq<Operation>)
    requires AllRegular(v, ops)
    ensures PerformAll(v, ops, DecodeArrayIndex) == PerformAll(v, ops, StandardIndex)
    ensures NoneDeparts(v, ops, DecodeArrayIndex) <==> NoneDeparts(v, ops, StandardIndex)
    decreases |ops|
  {
    if ops != [] {
      hide Perform, Departs, RegularOperation;
      RegularPerform(v, ops[0]);
      var w := Perform(v, ops[0], StandardIndex);
      if w.Some? {
        RegularRun(w.value, ops[1..]);
      }
    }
  }

  /** The first patch that fails ends the run. Where the operations before the k-th give `w` and the k-th is an error,
      the status is the one for that operation, no later patch matters, and the document is what it leaves of `w`: all
      of it, unless it is a move. */
  lemma {:induction false} FirstFailure(root: Json, patches: seq<Json>, ops: seq<Operation>, k: nat, w: Value,
      caseSensitive: bool)
    requires PlainTree(root) && EncodesAll(patches, ops) && NoneDeparts(Meaning(root), ops, DecodeArrayIndex)
    requires k < |ops| && PerformAll(Meaning(root), ops[..k], DecodeArrayIndex) == Some(w)
    requires Perform(w, ops[k], DecodeArrayIndex).None?
    ensures var r := ApplyAll(root, patches, caseSensitive);
            && r.status == StatusOf(w, ops[k], DecodeArrayIndex) && r.status != 0
            && PlainTree(r.root) && Meaning(r.root) == LeftBy(w, ops[k], DecodeArrayIndex)
    decreases k
  {
    hide ApplyPatch, Perform, PlainTree, Encodes, Departs, StatusOf, LeftBy;
    ApplyPatchMatches(root, patches[0], ops[0], caseSensitive);
    if k == 0 {
      ApplyPatchSays(root, patches[0], ops[0], caseSensitive);
    } else {
      assert ops[..k][0] == ops[0] && ops[..k][1..] == ops[1..][..k - 1];
      FirstFailure(ApplyPatch(root, patches[0], caseSensitive).root, patches[1..], ops[1..], k - 1, w, caseSensitive);
    }
  }

  /** So for a test: status 1 and the document the patches before it give. */
  lemma FailedTest(root: Json, patches: seq<Json>, ops: seq<Operation>, k: nat, w: Value, caseSensitive: bool)
    requires PlainTree(root) && EncodesAll(patches, ops) && NoneDeparts(Meaning(root), ops, DecodeArrayIndex)
    requires k < |ops| && PerformAll(Meaning(root), ops[..k], DecodeArrayIndex) == Some(w)
    requires ops[k].Test? && Get(w, ops[k].path, DecodeArrayIndex) != Some(ops[k].x)
    ensures var r := ApplyAll(root, patches, caseSensitive); r.status == 1 && Meaning(r.root) == w
  {
    hide PerformAll, NoneDeparts, EncodesAll;
    FirstFailure(root, patches, ops, k, w, caseSensitive);
  }

  /** A patch that succeeds takes one document to the next. */
  ghost predicate StepAt(documents: seq<Json>, patches: seq<Json>, i: nat, caseSensitive: bool)
    requires i + 1 < |documents| && i < |patches|
  {
    ApplyPatch(documents[i], patches[i], caseSensitive) == Applied(documents[i + 1], 0)
  }

  /** Patches of any shape, well-formed or not, on any tree: through documents that each come of the one before, up to
      the first patch with a status other than zero. */
  lemma {:induction false} RunOfPatches(documents: seq<Json>, patches: seq<Json>, caseSensitive: bool)
    requires 0 < |documents| <= |patches| + 1
    requires forall i :: 0 <= i < |documents| - 1 ==> StepAt(documents, patches, i, caseSensitive)
    ensures var k := |documents| - 1;
      ApplyAll(documents[0], patches, caseSensitive) ==
      (if k == |patches| then Applied(documents[k], 0)
       else
         var r := ApplyPatch(documents[k], patches[k], caseSensitive);
         if r.status != 0 then r else ApplyAll(r.root, patches[k + 1..], caseSensitive))
    decreases |documents|
  {
    hide ApplyPatch;
    if |documents| > 1 {
      var rest := documents[1..];
      assert StepAt(documents, patches, 0, caseSensitive);
      forall i | 0 <= i < |rest| - 1
        ensures StepAt(rest, patches[1..], i, caseSensitive)
      {
        assert StepAt(documents, patches, i + 1, caseSensitive);
      }
      RunOfPatches(rest, patches[1..], caseSensitive);
    }
  }

  // ----- patches that say no operation -----

  /** A member of a patch object, by what the object means. */
  function Part(patch: Value, key: string): Option<Value> {
    if patch.VObject? && key in patch.members then Some(patch.members[key]) else None
  }

  lemma PartRead(patch: Json, key: string, caseSensitive: bool)
    requires PlainTree(patch) && Plain(key)
    ensures Part(Meaning(patch), key) ==
            match GetObjectItem(patch, key, caseSensitive) case None => None case Some(x) => Some(Meaning(x))
  {
    if patch.Object? {
      FindKeyPlain(patch.members, key, caseSensitive);
      MeaningOfMember(patch.members, key);
    }
  }

  predicate Word(v: Option<Value>) {
    v.Some? && v.value.VString?
  }

  const OPERATIONS: set<string> := {"add", "remove", "replace", "move", "copy", "test"}

  /** What is said of a patch that lacks a part, or has a wrong one: no path (2), no operation (3), nothing to compare
      with (1), no value (7), no source (4) or one that is no string (5). */
  function Complaint(patch: Value): Option<nat> {
    if !Word(Part(patch, "path")) then Some(2)
    else if !Word(Part(patch, "op")) || Part(patch, "op").value.s !in OPERATIONS then Some(3)
    else
      var op := Part(patch, "op").value.s;
      if op == "test" && Part(patch, "value").None? then Some(1)
      else if (op == "add" || op == "replace") && Part(patch, "value").None? then Some(7)
      else if (op == "move" || op == "copy") && Part(patch, "from").None? then Some(4)
      else if (op == "move" || op == "copy") && !Word(Part(patch, "from")) then Some(5)
      else None
  }

  ghost predicate Refused(root: Json, patch: Json, caseSensitive: bool)
    requires Complaint(Meaning(patch)).Some?
  {
    var r, c := ApplyPatch(root, patch, caseSensitive), Complaint(Meaning(patch)).value;
    if c == 7 && Part(Meaning(patch), "op") == Some(VString("replace"))
        && Part(Meaning(patch), "path").value.s != "" then
      var d := DetachPath(root, Part(Meaning(patch), "path").value.s, caseSensitive);
      r == if d.item.None? then Applied(root, 13) else Applied(d.root, 7)
    else r == Applied(root, c)
  }

  /** Such a patch is refused with the document unchanged, except that a replacement without a value below the root
      first takes the old value out, if there is one. */
  lemma MalformedPatch(root: Json, patch: Json, caseSensitive: bool)
    requires PlainTree(patch) && Complaint(Meaning(patch)).Some?
    ensures Refused(root, patch, caseSensitive)
  {
    hide GetObjectItem, Meaning, PlainTree, ApplyOperation, Complaint, Part, Refused;
    PlainParts();
    PartRead(patch, "path", caseSensitive);
    MeaningKinds();
    var path := GetObjectItem(patch, "path", caseSensitive);
    if path.Some? && path.value.String? {
      MalformedOperation(root, patch, path.value.s, caseSensitive);
    } else {
      NoPath(root, patch, caseSensitive);
    }
  }

  lemma NoPath(root: Json, patch: Json, caseSensitive: bool)
    requires !Word(Part(Meaning(patch), "path"))
    requires var path := GetObjectItem(patch, "path", caseSensitive); path.None? || !path.value.String?
    ensures Refused(root, patch, caseSensitive)
  {
    hide GetObjectItem, Meaning, ApplyOperation;
  }

  function OpcodeNamed(op: Option<Value>): Opcode {
    if !Word(op) then BadOp
    else if op.value.s == "add" then AddOp
    else if op.value.s == "remove" then RemoveOp
    else if op.value.s == "replace" then ReplaceOp
    else if op.value.s == "move" then MoveOp
    else if op.value.s == "copy" then CopyOp
    else if op.value.s == "test" then TestOp
    else BadOp
  }

  lemma OpcodeRead(patch: Json, caseSensitive: bool)
    requires PlainTree(patch)
    ensures DecodePatchOperation(patch, caseSensitive) == OpcodeNamed(Part(Meaning(patch), "op"))
  {
    hide GetObjectItem, Meaning, PlainTree, Part;
    MeaningKinds();
    PlainParts();
    PartRead(patch, "op", caseSensitive);
  }

  /** Where the complaint comes in. */
  lemma ComplaintByOpcode(patch: Value)
    requires Word(Part(patch, "path"))
    ensures var opcode, value, from := OpcodeNamed(Part(patch, "op")), Part(patch, "value"), Part(patch, "from");
      Complaint(patch) ==
      if opcode == BadOp then Some(3)
      else if opcode == TestOp && value.None? then Some(1)
      else if (opcode == AddOp || opcode == ReplaceOp) && value.None? then Some(7)
      else if (opcode == MoveOp || opcode == CopyOp) && !Word(from) then Some(if from.None? then 4 else 5)
      else None
    ensures OpcodeNamed(Part(patch, "op")) == ReplaceOp <==> Part(patch, "op") == Some(VString("replace"))
  {
    hide Part;
  }

  lemma ComplaintRead(patch: Json, caseSensitive: bool)
    requires PlainTree(patch) && Word(Part(Meaning(patch), "path"))
    ensures var opcode, value, from := DecodePatchOperation(patch, caseSensitive),
          GetObjectItem(patch, "value", caseSensitive), GetObjectItem(patch, "from", caseSensitive);
      && Complaint(Meaning(patch)) ==
         (if opcode == BadOp then Some(3)
          else if opcode == TestOp && value.None? then Some(1)
          else if (opcode == AddOp || opcode == ReplaceOp) && value.None? then Some(7)
          else if (opcode == MoveOp || opcode == CopyOp) && (from.None? || !from.value.String?) then
            Some(if from.None? then 4 else 5)
          else None)
      && (opcode == ReplaceOp <==> Part(Meaning(patch), "op") == Some(VString("replace")))
  {
    hide GetObjectItem, Meaning, PlainTree, Part, OpcodeNamed, Complaint, DecodePatchOperation, Plain;
    OpcodeRead(patch, caseSensitive);
    ComplaintByOpcode(Meaning(patch));
    PlainParts();
    PartRead(patch, "from", caseSensitive);
    PartRead(patch, "value", caseSensitive);
    MeaningKinds();
  }

  lemma MalformedOperation(root: Json, patch: Json, path: string, caseSensitive: bool)
    requires PlainTree(patch) && Complaint(Meaning(patch)).Some? && Part(Meaning(patch), "path") == Some(VString(path))
    requires GetObjectItem(patch, "path", caseSensitive) == Some(String(path))
    ensures Refused(root, patch, caseSensitive)
  {
    hide GetObjectItem, Meaning, PlainTree, Part, Complaint, ApplyOperation, DecodePatchOperation;
    ComplaintRead(patch, caseSensitive);
    var opcode := DecodePatchOperation(patch, caseSensitive);
    if opcode == MoveOp || opcode == CopyOp {
      NoSource(root, path, patch, opcode, caseSensitive);
    } else if opcode == BadOp {
      NoOperation(root, path, patch, caseSensitive);
    } else {
      NoValue(root, path, patch, opcode, caseSensitive);
    }
  }

  lemma NoOperation(root: Json, path: string, patch: Json, caseSensitive: bool)
    ensures ApplyOperation(root, BadOp, path, patch, caseSensitive) == Applied(root, 3)
  {
  }

  lemma NoSource(root: Json, path: string, patch: Json, opcode: Opcode, caseSensitive: bool)
    requires opcode == MoveOp || opcode == CopyOp
    requires var from := GetObjectItem(patch, "from", caseSensitive); from.None? || !from.value.String?
    ensures ApplyOperation(root, opcode, path, patch, caseSensitive) ==
            Applied(root, if GetObjectItem(patch, "from", caseSensitive).None? then 4 else 5)
  {
    hide GetObjectItem, DetachPath, AddAt, Locate;
  }

  lemma NoValue(root: Json, path: string, patch: Json, opcode: Opcode, caseSensitive: bool)
    requires opcode == TestOp || opcode == AddOp || opcode == ReplaceOp
    requires GetObjectItem(patch, "value", caseSensitive).None?
    ensures var d := DetachPath(root, path, caseSensitive);
      ApplyOperation(root, opcode, path, patch, caseSensitive) ==
      if opcode == TestOp then Applied(root, 1)
      else if opcode == AddOp || path == "" then Applied(root, 7)
      else if d.item.None? then Applied(root, 13) else Applied(d.root, 7)
  {
    hide GetObjectItem, DetachPath, AddAt, Locate;
  }

  lemma PlainParts()
    ensures Plain("path") && Plain("op") && Plain("value") && Plain("from")
  {
  }

  lemma MeaningKinds()
    ensures forall v: Json {:trigger Meaning(v)} :: Meaning(v).VString? <==> v.String?
    ensures forall v: Json {:trigger Meaning(v)} :: v.String? ==> Meaning(v) == VString(v.s)
  {
  }
}
