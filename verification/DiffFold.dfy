/** Generating and applying patches without regard to case, on keys of any case. Everything is the same as on the
    documents with every key in lower case, which have plain keys: the two sorts, the comparison, the patches generated
    and each step of applying them are carried over from there. */
module FoldedRoundTrip {
  import opened CStrings
  import opened JsonTree
  import opened KeySort
  import opened Comparison
  import opened Decimals
  import opened Pointers
  import opened Patching
  import opened PatchStandard
  import opened PatchRefinement
  import opened PatchRuns
  import opened PatchGeneration
  import opened PatchRoundTrip

  // ----- lower case -----

  function Lowered(s: string): (r: string)
    ensures |r| == |s|
  {
    FoldAll(s, false)
  }

  /** The tree with every key in lower case. */
  function Folded(v: Json): Json {
    match v
    case Array(items) => Array(FoldedItems(items))
    case Object(ms) => Object(FoldedMembers(ms))
    case _ => v
  }

  function FoldedItems(items: seq<Json>): (r: seq<Json>)
    ensures |r| == |items| && forall i {:trigger r[i]} :: 0 <= i < |r| ==> r[i] == Folded(items[i])
  {
    if items == [] then [] else [Folded(items[0])] + FoldedItems(items[1..])
  }

  function FoldedMember(m: Member): Member {
    Member(Lowered(m.key), Folded(m.val))
  }

  function FoldedMembers(ms: seq<Member>): (r: seq<Member>)
    ensures |r| == |ms| && forall i {:trigger r[i]} :: 0 <= i < |r| ==> r[i] == FoldedMember(ms[i])
  {
    if ms == [] then [] else [FoldedMember(ms[0])] + FoldedMembers(ms[1..])
  }

  lemma LoweredSlices(s: string, k: nat)
    requires k <= |s|
    ensures Lowered(s[..k]) == Lowered(s)[..k] && Lowered(s[k..]) == Lowered(s)[k..]
  {
  }

  lemma LoweredJoin(a: string, b: string)
    ensures Lowered(a + b) == Lowered(a) + Lowered(b)
  {
  }

  lemma FoldedRest(ms: seq<Member>, k: nat)
    requires k <= |ms|
    ensures FoldedMembers(ms[k..]) == FoldedMembers(ms)[k..] && FoldedMembers(ms[..k]) == FoldedMembers(ms)[..k]
  {
    hide FoldedMembers, FoldedMember;
  }

  lemma FoldedJoin(a: seq<Member>, b: seq<Member>)
    ensures FoldedMembers(a + b) == FoldedMembers(a) + FoldedMembers(b)
  {
    hide FoldedMembers, FoldedMember;
  }

  /** Comparing without regard to case does not see the folding. */
  lemma {:induction false} CompareLowered(a: string, b: string)
    ensures Compare(Lowered(a), Lowered(b), false) == Compare(a, b, false)
  {
    if a != [] && b != [] {
      LoweredSlices(a, 1);
      LoweredSlices(b, 1);
      CompareLowered(a[1..], b[1..]);
    }
  }

  // ----- sorting and comparing -----

  lemma {:induction false} MergeFolded(a: seq<Member>, b: seq<Member>)
    ensures Merge(FoldedMembers(a), FoldedMembers(b), MemberKey) == FoldedMembers(Merge(a, b, MemberKey))
    decreases |a| + |b|
  {
    if a != [] && b != [] {
      CompareLowered(a[0].key, b[0].key);
      FoldedRest(a, 1);
      FoldedRest(b, 1);
      if Compare(a[0].key, b[0].key, false) < 0 {
        MergeFolded(a[1..], b);
        FoldedJoin([a[0]], Merge(a[1..], b, MemberKey));
      } else {
        MergeFolded(a, b[1..]);
        FoldedJoin([b[0]], Merge(a, b[1..], MemberKey));
      }
    }
  }

  lemma {:induction false} SortFolded(ms: seq<Member>)
    ensures Sort(FoldedMembers(ms), MemberKey, false) == FoldedMembers(Sort(ms, MemberKey, false))
    decreases |ms|
  {
    var fs := FoldedMembers(ms);
    forall i | 0 <= i < |ms| - 1
      ensures Compare(MemberKey(fs[i]), MemberKey(fs[i + 1]), false)
          == Compare(MemberKey(ms[i]), MemberKey(ms[i + 1]), false)
    {
      CompareLowered(ms[i].key, ms[i + 1].key);
    }
    assert StrictlyAscending(fs, MemberKey, false) == StrictlyAscending(ms, MemberKey, false);
    if |ms| >= 2 && !StrictlyAscending(ms, MemberKey, false) {
      var mid := (|ms| + 1) / 2;
      FoldedRest(ms, mid);
      SortFolded(ms[..mid]);
      SortFolded(ms[mid..]);
      MergeFolded(Sort(ms[..mid], MemberKey, false), Sort(ms[mid..], MemberKey, false));
    }
  }

  /** compare_json without regard to case does not see the folding either. */
  lemma {:induction false} CompareFolded(a: Json, b: Json)
    ensures CompareJson(Folded(a), Folded(b), false) == CompareJson(a, b, false)
    decreases Depth(a), 0, 0
  {
    hide Sort, ItemsInStep, MembersInStep, FoldedItems, FoldedMembers;
    if a.Array? && b.Array? {
      ItemsFolded(a.items, b.items);
    } else if a.Object? && b.Object? {
      SortFolded(a.members);
      SortFolded(b.members);
      InStepFolded(SortMembers(a.members, false), SortMembers(b.members, false));
    }
  }

  lemma {:induction false} ItemsFolded(a: seq<Json>, b: seq<Json>)
    ensures ItemsInStep(FoldedItems(a), FoldedItems(b), false) == ItemsInStep(a, b, false)
    decreases ItemsDepth(a), 1, |a|
  {
    if a != [] && b != [] {
      CompareFolded(a[0], b[0]);
      ItemsFolded(a[1..], b[1..]);
    }
  }

  lemma {:induction false} InStepFolded(a: seq<Member>, b: seq<Member>)
    ensures MembersInStep(FoldedMembers(a), FoldedMembers(b), false) == MembersInStep(a, b, false)
    decreases MembersDepth(a), 1, |a|
  {
    if a != [] && b != [] {
      CompareLowered(a[0].key, b[0].key);
      CompareFolded(a[0].val, b[0].val);
      InStepFolded(a[1..], b[1..]);
    }
  }

  // ----- generating -----

  /** A patch as the generator composes it. */
  ghost predicate Composed(p: Json) {
    && p.Object? && 2 <= |p.members| <= 3 && p.members[0].val.String? && p.members[1].val.String?
    && p == PatchObject(OperationOf(p), PathOf(p), ValueOf(p))
  }

  function OperationOf(p: Json): string
    requires p.Object? && 2 <= |p.members| && p.members[0].val.String?
  {
    p.members[0].val.s
  }

  function PathOf(p: Json): string
    requires p.Object? && 2 <= |p.members| && p.members[1].val.String?
  {
    p.members[1].val.s
  }

  function ValueOf(p: Json): Option<Json>
    requires p.Object? && 2 <= |p.members|
  {
    if |p.members| > 2 then Some(p.members[2].val) else None
  }

  function FoldedValue(v: Option<Json>): Option<Json> {
    match v case None => None case Some(x) => Some(Folded(x))
  }

  /** The patch for the documents in lower case. */
  function FoldedPatch(p: Json): Json
    requires Composed(p)
  {
    PatchObject(OperationOf(p), Lowered(PathOf(p)), FoldedValue(ValueOf(p)))
  }

  ghost predicate AllComposed(ps: seq<Json>) {
    forall i :: 0 <= i < |ps| ==> Composed(ps[i])
  }

  function FoldedPatches(ps: seq<Json>): (r: seq<Json>)
    requires AllComposed(ps)
    ensures |r| == |ps| && forall i {:trigger r[i]} :: 0 <= i < |r| ==> r[i] == FoldedPatch(ps[i])
  {
    if ps == [] then [] else [FoldedPatch(ps[0])] + FoldedPatches(ps[1..])
  }

  lemma ComposedParts(operation: string, path: string, value: Option<Json>)
    ensures var p := PatchObject(operation, path, value);
            && Composed(p) && OperationOf(p) == operation && PathOf(p) == path && ValueOf(p) == value
  {
  }

  /** The second patches are the first in lower case. */
  ghost predicate Alike(ps: seq<Json>, qs: seq<Json>) {
    AllComposed(ps) && qs == FoldedPatches(ps)
  }

  lemma AlikeJoin(ps: seq<Json>, qs: seq<Json>, ps2: seq<Json>, qs2: seq<Json>)
    requires Alike(ps, qs) && Alike(ps2, qs2)
    ensures Alike(ps + ps2, qs + qs2)
  {
    hide Composed, FoldedPatch;
  }

  lemma OneAlike(operation: string, path: string, value: Option<Json>)
    ensures Alike([PatchObject(operation, path, value)], [PatchObject(operation, Lowered(path), FoldedValue(value))])
  {
    hide Composed, PatchObject, Lowered;
    ComposedParts(operation, path, value);
  }

  lemma LoweredToken(key: string)
    requires Plain(Lowered(key))
    ensures Token(key) == key && Token(Lowered(key)) == Lowered(key)
  {
    forall i | 0 <= i < |key|
      ensures key[i] != '~' && key[i] != '/'
    {
      assert PlainChar(Lowered(key)[i]);
    }
    EncodeExact(key);
    PlainToken(Lowered(key));
  }

  lemma LoweredPath(path: string, key: string)
    requires Plain(Lowered(key))
    ensures Lowered(path + ("/" + Token(key))) == Lowered(path) + ("/" + Token(Lowered(key)))
  {
    hide Token, Lowered;
    LoweredToken(key);
    LoweredJoin("/", key);
    LoweredJoin(path, "/" + key);
    SlashLowered();
  }

  lemma SlashLowered()
    ensures Lowered("/") == "/"
  {
  }

  lemma DecimalLowered(i: nat)
    ensures Lowered(Decimal(i)) == Decimal(i) && Plain(Decimal(i))
  {
    PlainDecimal(i);
    PlainFold(Decimal(i), false);
  }

  lemma {:induction false} CreateFolded(path: string, from: Json, to: Json)
    requires PlainTree(Folded(from)) && PlainTree(Folded(to))
    ensures Alike(CreatePatches(path, from, to, false), CreatePatches(Lowered(path), Folded(from), Folded(to), false))
    decreases Depth(from), 0, 0
  {
    hide Alike, PatchItems, PatchMembers, Sort, FoldedItems, FoldedMembers, Lowered;
    OneAlike("replace", path, Some(to));
    NothingAlike();
    if from.Array? && to.Array? {
      CreateItemsFolded(path, from.items, to.items, 0);
    } else if from.Object? && to.Object? {
      SortFolded(from.members);
      SortFolded(to.members);
      SortPlain(FoldedMembers(from.members), false);
      SortPlain(FoldedMembers(to.members), false);
      CreateMembersFolded(path, SortMembers(from.members, false), SortMembers(to.members, false));
    }
  }

  lemma NothingAlike()
    ensures Alike([], [])
  {
  }

  lemma FirstItem(items: seq<Json>)
    requires items != [] && PlainTree(Array(FoldedItems(items)))
    ensures PlainTree(Folded(items[0])) && PlainTree(Array(FoldedItems(items[1..])))
  {
    var fs := FoldedItems(items);
    assert fs[0] == Folded(items[0]) && fs[1..] == FoldedItems(items[1..]);
    assert forall i :: 0 <= i < |fs| - 1 ==> fs[1..][i] == fs[i + 1];
  }

  lemma FirstMember(ms: seq<Member>)
    requires ms != [] && PlainMembers(FoldedMembers(ms))
    ensures Plain(Lowered(ms[0].key)) && PlainTree(Folded(ms[0].val)) && PlainMembers(FoldedMembers(ms[1..]))
  {
    hide FoldedMembers, PlainMembers, PlainTree, Plain, Folded, Lowered;
    FoldedRest(ms, 1);
    PlainHead(FoldedMembers(ms));
  }

  lemma PlainHead(fs: seq<Member>)
    requires fs != [] && PlainMembers(fs)
    ensures Plain(fs[0].key) && PlainTree(fs[0].val) && PlainMembers(fs[1..])
  {
    hide PlainTree, Plain;
  }

  lemma {:induction false} CreateItemsFolded(path: string, from: seq<Json>, to: seq<Json>, index: nat)
    requires PlainTree(Array(FoldedItems(from))) && PlainTree(Array(FoldedItems(to)))
    ensures Alike(PatchItems(path, from, to, index, false),
                  PatchItems(Lowered(path), FoldedItems(from), FoldedItems(to), index, false))
    decreases ItemsDepth(from), 1, |from| + |to|
  {
    hide Alike, CreatePatches, Lowered, Token, PlainTree;
    if from != [] {
      FirstItem(from);
    }
    if to != [] {
      FirstItem(to);
    }
    DecimalLowered(index);
    LoweredPath(path, Decimal(index));
    PlainToken(Decimal(index));
    if from != [] && to != [] {
      CreateFolded(path + ("/" + Decimal(index)), from[0], to[0]);
      CreateItemsFolded(path, from[1..], to[1..], index + 1);
      AlikeJoin(CreatePatches(path + ("/" + Decimal(index)), from[0], to[0], false),
                CreatePatches(Lowered(path) + ("/" + Decimal(index)), Folded(from[0]), Folded(to[0]), false),
                PatchItems(path, from[1..], to[1..], index + 1, false),
                PatchItems(Lowered(path), FoldedItems(from[1..]), FoldedItems(to[1..]), index + 1, false));
    } else if from != [] {
      CreateItemsFolded(path, from[1..], to, index);
      OneAlike("remove", path + ("/" + Token(Decimal(index))), None);
      AlikeJoin([ComposePatch("remove", path, Decimal(index), None)],
                [ComposePatch("remove", Lowered(path), Decimal(index), None)],
                PatchItems(path, from[1..], to, index, false),
                PatchItems(Lowered(path), FoldedItems(from[1..]), FoldedItems(to), index, false));
    } else if to != [] {
      CreateItemsFolded(path, from, to[1..], index + 1);
      DashLowered();
      LoweredPath(path, "-");
      OneAlike("add", path + ("/" + Token("-")), Some(to[0]));
      AlikeJoin([ComposePatch("add", path, "-", Some(to[0]))],
                [ComposePatch("add", Lowered(path), "-", Some(Folded(to[0])))],
                PatchItems(path, from, to[1..], index + 1, false),
                PatchItems(Lowered(path), FoldedItems(from), FoldedItems(to[1..]), index + 1, false));
    } else {
      NothingAlike();
    }
  }

  lemma DashLowered()
    ensures Lowered("-") == "-" && Plain("-")
  {
  }

  lemma {:induction false} CreateMembersFolded(path: string, from: seq<Member>, to: seq<Member>)
    requires PlainMembers(FoldedMembers(from)) && PlainMembers(FoldedMembers(to))
    ensures Alike(PatchMembers(path, from, to, false),
        PatchMembers(Lowered(path), FoldedMembers(from), FoldedMembers(to), false))
    decreases MembersDepth(from), 1, |from| + |to|
  {
    hide Alike, CreatePatches, Lowered, Token, Compare, PlainMembers, PlainTree, Plain;
    if from != [] {
      FirstMember(from);
    }
    if to != [] {
      FirstMember(to);
    }
    if from == [] && to == [] {
      NothingAlike();
    } else {
      JoinOrderFolded(from, to);
      var diff := JoinOrder(from, to, false);
      if diff == 0 {
        var key := from[0].key;
        LoweredPath(path, key);
        CreateFolded(path + ("/" + Token(key)), from[0].val, to[0].val);
        CreateMembersFolded(path, from[1..], to[1..]);
        AlikeJoin(CreatePatches(path + ("/" + Token(key)), from[0].val, to[0].val, false),
                  CreatePatches(Lowered(path) + ("/" + Token(Lowered(key))), Folded(from[0].val), Folded(to[0].val),
                  false),
                  PatchMembers(path, from[1..], to[1..], false),
                  PatchMembers(Lowered(path), FoldedMembers(from[1..]), FoldedMembers(to[1..]), false));
      } else if diff < 0 {
        var key := from[0].key;
        LoweredPath(path, key);
        CreateMembersFolded(path, from[1..], to);
        OneAlike("remove", path + ("/" + Token(key)), None);
        AlikeJoin([ComposePatch("remove", path, key, None)],
            [ComposePatch("remove", Lowered(path), Lowered(key), None)],
                  PatchMembers(path, from[1..], to, false),
                  PatchMembers(Lowered(path), FoldedMembers(from[1..]), FoldedMembers(to), false));
      } else {
        var key := to[0].key;
        LoweredPath(path, key);
        CreateMembersFolded(path, from, to[1..]);
        OneAlike("add", path + ("/" + Token(key)), Some(to[0].val));
        AlikeJoin([ComposePatch("add", path, key, Some(to[0].val))],
                  [ComposePatch("add", Lowered(path), Lowered(key), Some(Folded(to[0].val)))],
                  PatchMembers(path, from, to[1..], false),
                  PatchMembers(Lowered(path), FoldedMembers(from), FoldedMembers(to[1..]), false));
      }
    }
  }

  lemma JoinOrderFolded(from: seq<Member>, to: seq<Member>)
    requires from != [] || to != []
    ensures JoinOrder(FoldedMembers(from), FoldedMembers(to), false) == JoinOrder(from, to, false)
  {
    if from != [] && to != [] {
      CompareLowered(from[0].key, to[0].key);
    }
  }

  // ----- following a path -----

  lemma {:induction false} MatchLowered(name: string, p: string)
    ensures ComparePointers(Lowered(name), Lowered(p), false) == ComparePointers(name, p, false)
    decreases |name|
  {
    if name != [] && p != [] && p[0] != '/' {
      var k := if p[0] == '~' && |p| >= 2 then 2 else 1;
      LoweredSlices(name, 1);
      LoweredSlices(p, k);
      MatchLowered(name[1..], p[k..]);
    }
  }

  lemma {:induction false} FirstMatchFolded(ms: seq<Member>, p: string)
    ensures FirstMatch(FoldedMembers(ms), Lowered(p), false) == FirstMatch(ms, p, false)
  {
    if ms != [] {
      MatchLowered(ms[0].key, p);
      FirstMatchFolded(ms[1..], p);
    }
  }

  lemma {:induction false} TokenLengthLowered(p: string)
    ensures TokenLength(Lowered(p)) == TokenLength(p)
  {
    if p != [] && p[0] != '/' {
      LoweredSlices(p, 1);
      TokenLengthLowered(p[1..]);
    }
  }

  /** Folding makes no index. */
  lemma IndexAsWritten(token: string)
    requires StandardIndex(Lowered(token)).Some?
    ensures token == Lowered(token) && DecodeArrayIndex(token) == StandardIndex(token)
  {
    var t := Lowered(token);
    assert forall i :: 0 <= i < |t| ==> IsDigit(t[i]) && t[i] == Lower(token[i]);
    assert token == t;
    ReadersAgree(t);
  }

  lemma SelectAgrees(v: Value, token: string)
    requires Select(v, token, StandardIndex).Some? && Plain(token)
    ensures Select(v, token, DecodeArrayIndex) == Select(v, token, StandardIndex)
    ensures v.VArray? ==> DecodeArrayIndex(token) == StandardIndex(token)
  {
    PlainFold(token, false);
    if v.VArray? {
      IndexAsWritten(token);
    }
  }

  /** One step of the walk, in the tree and in its folded twin. */
  lemma StepFolded(v: Json, p: string, token: string, rest: string)
    requires PlainTree(Folded(v)) && Plain(token) && (rest == [] || rest[0] == '/') && Lowered(p) == token + rest
    requires Select(Meaning(Folded(v)), token, StandardIndex).Some?
    ensures TokenLength(p) == |token| == TokenLength(token + rest)
    ensures var i := Step(v, p, false);
            && i == Step(Folded(v), token + rest, false) && i.Some?
            && Child(Folded(v), i.value) == Folded(Child(v, i.value))
            && Select(Meaning(Folded(v)), token, StandardIndex) == Some(Meaning(Folded(Child(v, i.value))))
  {
    hide Lowered, PlainTree, FoldedItems, FoldedMembers, FirstMatch;
    StepIsChildIndex(Folded(v), token, rest, false);
    TokenLengthLowered(p);
    SelectAgrees(Meaning(Folded(v)), token);
    StepMeaning(Folded(v), token);
    if v.Array? {
      IndexFolded(p, token, rest);
    } else if v.Object? {
      FirstMatchFolded(v.members, p);
    }
  }

  lemma IndexFolded(p: string, token: string, rest: string)
    requires Plain(token) && (rest == [] || rest[0] == '/') && Lowered(p) == token + rest && StandardIndex(token).Some?
    ensures DecodeArrayIndex(p) == DecodeArrayIndex(token + rest)
  {
    hide Lowered, DecodeArrayIndex, StandardIndex, Plain;
    var n := |token|;
    LoweredSlices(p, n);
    assert Lowered(p)[..n] == token && Lowered(p)[n..] == rest;
    IndexAsWritten(p[..n]);
    assert p == token + p[n..];
    SlashAtHead(p[n..], rest);
    IndexStopsAtSlash(token, p[n..]);
    IndexStopsAtSlash(token, rest);
  }

  lemma SlashAtHead(p: string, rest: string)
    requires Lowered(p) == rest && (rest == [] || rest[0] == '/')
    ensures p == [] || p[0] == '/'
  {
  }

  /** The first token of a pointer. */
  lemma FirstToken(text: string, path: seq<string>)
    requires path != [] && Lowered(text) == PathText(path)
    ensures var rest := PathText(path[1..]);
            && |path[0]| < |text| && text == "/" + text[1..] && PathText(path) == "/" + (path[0] + rest)
              && Lowered(text[1..]) == path[0] + rest
            && Lowered(text[1..][|path[0]|..]) == rest && (path[0] + rest)[|path[0]|..] == rest
  {
    var rest := PathText(path[1..]);
    assert PathText(path) == "/" + (path[0] + rest) && Lowered(text)[0] == Lower(text[0]) == '/';
    LoweredSlices(text, 1);
    assert PathText(path)[1..] == path[0] + rest;
    LoweredSlices(text[1..], |path[0]|);
  }

  lemma NothingToFollow(v: Json, w: Json, text: string)
    requires Lowered(text) == PathText([])
    ensures Locate(v, text, false) == Some([]) == Locate(w, PathText([]), false)
  {
  }

  lemma GetUnfolds(v: Value, path: seq<string>)
    requires path != [] && Get(v, path, StandardIndex).Some?
    ensures var c := Select(v, path[0], StandardIndex);
            c.Some? && Get(v, path, StandardIndex) == Get(c.value, path[1..], StandardIndex)
  {
  }

  lemma {:induction false} LocateFolded(v: Json, text: string, path: seq<string>)
    requires PlainTree(Folded(v)) && PlainPath(path) && Lowered(text) == PathText(path)
    requires Get(Meaning(Folded(v)), path, StandardIndex).Some?
    ensures Locate(v, text, false) == Locate(Folded(v), PathText(path), false)
    ensures Locate(v, text, false).Some?
    decreases |path|
  {
    hide Step, Meaning, Lowered, Folded, PlainTree, StandardIndex, Select, Plain, Locate, PathText;
    if path == [] {
      NothingToFollow(v, Folded(v), text);
    } else {
      GetUnfolds(Meaning(Folded(v)), path);
      FirstToken(text, path);
      var p, rest := text[1..], PathText(path[1..]);
      PathTextShape(path[1..]);
      StepFolded(v, p, path[0], rest);
      LocateUnfolds(v, p, false);
      LocateUnfolds(Folded(v), path[0] + rest, false);
      PlainChild(Folded(v), Step(v, p, false).value);
      LocateFolded(Child(v, Step(v, p, false).value), p[|path[0]|..], path[1..]);
    }
  }

  lemma PlainChild(v: Json, i: nat)
    requires PlainTree(v) && i < Children(v)
    ensures PlainTree(Child(v, i))
  {
  }

  // ----- applying -----

  /** The first result, folded, is the second. */
  ghost predicate FoldsTo(a: Applied, b: Applied) {
    a.status == b.status && Folded(a.root) == b.root
  }

  lemma {:induction false} NodeFolded(v: Json, pos: seq<nat>)
    requires ValidPosition(v, pos)
    ensures ValidPosition(Folded(v), pos) && NodeAt(Folded(v), pos) == Folded(NodeAt(v, pos))
    decreases |pos|
  {
    if pos != [] {
      NodeFolded(Child(v, pos[0]), pos[1..]);
    }
  }

  lemma {:induction false} PutFolded(v: Json, pos: seq<nat>, x: Json)
    requires ValidPosition(v, pos)
    ensures ValidPosition(Folded(v), pos) && Folded(PutAt(v, pos, x)) == PutAt(Folded(v), pos, Folded(x))
    decreases |pos|
  {
    if pos != [] {
      PutFolded(Child(v, pos[0]), pos[1..], x);
      SetFolded(v, pos[0], PutAt(Child(v, pos[0]), pos[1..], x));
    }
  }

  lemma SetFolded(v: Json, i: nat, x: Json)
    requires i < Children(v)
    ensures Folded(SetChild(v, i, x)) == SetChild(Folded(v), i, Folded(x))
  {
    hide FoldedItems, FoldedMembers;
    if v.Array? {
      assert FoldedItems(v.items[i := x]) == FoldedItems(v.items)[i := Folded(x)];
    } else {
      assert FoldedMembers(v.members[i := Member(v.members[i].key, x)])
          == FoldedMembers(v.members)[i := Member(Lowered(v.members[i].key), Folded(x))];
    }
  }

  lemma ItemRemoved(items: seq<Json>, i: nat)
    requires i < |items|
    ensures FoldedItems(RemoveAt(items, i)) == RemoveAt(FoldedItems(items), i)
  {
    hide FoldedItems, Folded;
    var l, r := FoldedItems(RemoveAt(items, i)), RemoveAt(FoldedItems(items), i);
    forall k | 0 <= k < |l|
      ensures l[k] == r[k]
    {
      assert RemoveAt(items, i)[k] == if k < i then items[k] else items[k + 1];
    }
  }

  lemma ItemAppended(items: seq<Json>, x: Json)
    ensures FoldedItems(items + [x]) == FoldedItems(items) + [Folded(x)]
  {
    hide FoldedItems, Folded;
  }

  lemma ItemInserted(items: seq<Json>, i: nat, x: Json)
    requires i <= |items|
    ensures FoldedItems(InsertAt(items, i, x)) == InsertAt(FoldedItems(items), i, Folded(x))
  {
    hide FoldedItems, Folded;
    var l, r := FoldedItems(InsertAt(items, i, x)), InsertAt(FoldedItems(items), i, Folded(x));
    forall k | 0 <= k < |l|
      ensures l[k] == r[k]
    {
      assert InsertAt(items, i, x)[k] == if k < i then items[k] else if k == i then x else items[k - 1];
    }
  }

  lemma MemberRemoved(ms: seq<Member>, i: nat)
    requires i < |ms|
    ensures FoldedMembers(RemoveAt(ms, i)) == RemoveAt(FoldedMembers(ms), i)
  {
    hide FoldedMembers;
    FoldedJoin(ms[..i], ms[i + 1..]);
    FoldedRest(ms, i);
    FoldedRest(ms, i + 1);
  }

  lemma OneFolded(m: Member)
    ensures FoldedMembers([m]) == [FoldedMember(m)]
  {
  }

  lemma {:induction false} FindFolded(ms: seq<Member>, name: string)
    ensures FindKey(FoldedMembers(ms), Lowered(name), false) == FindKey(ms, name, false)
  {
    if ms != [] {
      CompareLowered(name, ms[0].key);
      FindFolded(ms[1..], name);
    }
  }

  lemma {:induction false} LastSlashLowered(text: string)
    ensures LastSlash(Lowered(text)) == LastSlash(text)
  {
    if text != [] && text[|text| - 1] != '/' {
      LoweredSlices(text, |text| - 1);
      LastSlashLowered(text[..|text| - 1]);
    }
  }

  /** Where the last token of a path begins. */
  function Init(path: seq<string>): seq<string>
    requires path != []
  {
    path[..|path| - 1]
  }

  lemma SplitText(text: string, path: seq<string>)
    requires path != [] && PlainPath(path) && Lowered(text) == PathText(path)
    ensures var k := |PathText(Init(path))|;
            && LastSlash(text) == Some(k) && Lowered(text[..k]) == PathText(Init(path))
            && Lowered(text[k + 1..]) == path[|path| - 1] && DecodedInPlace(text[k + 1..]) == text[k + 1..]
  {
    hide PathText, LastSlash;
    var k := |PathText(Init(path))|;
    SplitPath(path);
    LastSlashLowered(text);
    LoweredSlices(text, k);
    LoweredSlices(text, k + 1);
    assert PathText(path)[..k] == PathText(Init(path)) && PathText(path)[k + 1..] == path[|path| - 1];
    var child, last := text[k + 1..], path[|path| - 1];
    forall i | 0 <= i < |child|
      ensures child[i] != '~' && child[i] != '\0'
    {
      assert PlainChar(last[i]) && last[i] == Lower(child[i]);
    }
    DecodedPlain(child);
  }

  lemma {:induction false} GetAgrees(v: Value, path: seq<string>)
    requires PlainPath(path) && Get(v, path, StandardIndex).Some?
    ensures Get(v, path, DecodeArrayIndex) == Get(v, path, StandardIndex)
    decreases |path|
  {
    if path != [] {
      SelectAgrees(v, path[0]);
      GetAgrees(Select(v, path[0], StandardIndex).value, path[1..]);
    }
  }

  /** Where a change takes place, in the tree and in its folded twin. */
  lemma {:induction false} ContainerFolded(v: Json, text: string, path: seq<string>, e: Change) returns (pos: seq<nat>)
    requires PlainTree(Folded(v)) && path != [] && PlainPath(path) && Lowered(text) == PathText(path)
    requires ChangeAt(Meaning(Folded(v)), path, e, StandardIndex).Some?
    ensures var init := PathText(Init(path));
            && LastSlash(text) == Some(|init|) && Locate(v, text[..|init|], false) == Some(pos)
              == Locate(Folded(v), init, false)
    ensures ValidPosition(v, pos) && ValidPosition(Folded(v), pos) && NodeAt(Folded(v), pos) == Folded(NodeAt(v, pos))
    ensures ChangeMember(Meaning(NodeAt(Folded(v), pos)), path[|path| - 1], e, StandardIndex).Some?
  {
    hide Locate, PathText, ChangeMember, PlainTree, Lowered, LastSlash;
    var init, k := Init(path), |PathText(Init(path))|;
    SplitText(text, path);
    ChangeInContainer(Meaning(Folded(v)), path, e, StandardIndex);
    LocateFolded(v, text[..k], init);
    pos := Locate(v, text[..k], false).value;
    NodeFolded(v, pos);
    LocateIsWalk(Folded(v), init, false);
    WalkMeaning(Folded(v), init);
    GetAgrees(Meaning(Folded(v)), init);
  }

  ghost predicate DetachedAlike(a: Detached, b: Detached) {
    (a.item.Some? <==> b.item.Some?) && Folded(a.root) == b.root
        && (a.item.Some? ==> Folded(a.item.value) == b.item.value)
  }

  lemma DetachFolded(v: Json, text: string, path: seq<string>)
    requires PlainTree(Folded(v)) && path != [] && PlainPath(path) && Lowered(text) == PathText(path)
    requires ChangeAt(Meaning(Folded(v)), path, Remove, StandardIndex).Some?
    ensures FoldsTo(ApplyRemove(v, text, false), ApplyRemove(Folded(v), PathText(path), false))
  {
    hide Locate, PathText, ChangeAt, PlainTree, Lowered, LastSlash, DetachChild, Folded, Meaning;
    var pos := ContainerFolded(v, text, path, Remove);
    SplitText(text, path);
    SplitPath(path);
    TextOfPath(path);
    DetachChildFolded(v, pos, text[|PathText(Init(path))| + 1..], path[|path| - 1]);
  }

  lemma TextOfPath(path: seq<string>)
    requires path != [] && PlainPath(path)
    ensures var text, k := PathText(path), |PathText(Init(path))|;
            && LastSlash(text) == Some(k) && text[..k] == PathText(Init(path))
            && text[k + 1..] == path[|path| - 1] && DecodedInPlace(text[k + 1..]) == path[|path| - 1]
  {
    hide PathText, LastSlash;
    SplitPath(path);
    DecodedPlain(path[|path| - 1]);
  }

  lemma DetachChildFolded(v: Json, pos: seq<nat>, child: string, last: string)
    requires ValidPosition(v, pos) && ValidPosition(Folded(v), pos) && NodeAt(Folded(v), pos) == Folded(NodeAt(v, pos))
    requires Lowered(child) == last
    requires ChangeMember(Meaning(NodeAt(Folded(v), pos)), last, Remove, StandardIndex).Some?
    ensures DetachedAlike(DetachChild(v, pos, child), DetachChild(Folded(v), pos, last))
  {
    hide NodeAt, PutAt, Lowered, FoldedItems, FoldedMembers, DecodeArrayIndex, StandardIndex, FindKey, RemoveAt,
        InsertAt;
    var node := NodeAt(v, pos);
    if node.Array? {
      DetachItemFolded(v, pos, child);
    } else if node.Object? {
      FindFolded(node.members, child);
      var i := FindKey(node.members, child, false);
      if i < |node.members| {
        MemberRemoved(node.members, i);
        PutFolded(v, pos, Object(RemoveAt(node.members, i)));
      }
    }
  }

  lemma DetachItemFolded(v: Json, pos: seq<nat>, child: string)
    requires ValidPosition(v, pos) && ValidPosition(Folded(v), pos) && NodeAt(Folded(v), pos) == Folded(NodeAt(v, pos))
    requires NodeAt(v, pos).Array? && StandardIndex(Lowered(child)).Some?
    ensures DetachedAlike(DetachChild(v, pos, child), DetachChild(Folded(v), pos, Lowered(child)))
  {
    hide NodeAt, PutAt, Lowered, FoldedItems, DecodeArrayIndex, StandardIndex, RemoveAt;
    var items := NodeAt(v, pos).items;
    IndexAsWritten(child);
    var i := DecodeArrayIndex(child).value;
    if i < |items| {
      ItemRemoved(items, i);
      PutFolded(v, pos, Array(RemoveAt(items, i)));
    }
  }

  lemma AddFolded(v: Json, text: string, path: seq<string>, x: Json, y: Value)
    requires PlainTree(Folded(v)) && path != [] && PlainPath(path) && Lowered(text) == PathText(path)
    requires ChangeAt(Meaning(Folded(v)), path, Add(y), StandardIndex).Some?
    ensures FoldsTo(AddAt(v, text, x, false), AddAt(Folded(v), PathText(path), Folded(x), false))
  {
    hide Locate, PathText, ChangeAt, PlainTree, Lowered, LastSlash, AddChild, Folded, Meaning;
    var pos := ContainerFolded(v, text, path, Add(y));
    SplitText(text, path);
    TextOfPath(path);
    AddChildFolded(v, pos, text[|PathText(Init(path))| + 1..], path[|path| - 1], x, y);
  }

  lemma AddChildFolded(v: Json, pos: seq<nat>, child: string, last: string, x: Json, y: Value)
    requires ValidPosition(v, pos) && ValidPosition(Folded(v), pos) && NodeAt(Folded(v), pos) == Folded(NodeAt(v, pos))
    requires Lowered(child) == last
    requires ChangeMember(Meaning(NodeAt(Folded(v), pos)), last, Add(y), StandardIndex).Some?
    ensures FoldsTo(AddChild(v, pos, child, x, false), AddChild(Folded(v), pos, last, Folded(x), false))
  {
    hide NodeAt, PutAt, Lowered, FoldedItems, FoldedMembers, DecodeArrayIndex, StandardIndex, FindKey, RemoveAt,
        InsertAt;
    var node := NodeAt(v, pos);
    if node.Array? {
      AddItemFolded(v, pos, child, last, x);
    } else if node.Object? {
      FindFolded(node.members, child);
      var i := FindKey(node.members, child, false);
      if i < |node.members| {
        MemberRemoved(node.members, i);
      }
      var kept := if i < |node.members| then RemoveAt(node.members, i) else node.members;
      FoldedJoin(kept, [Member(child, x)]);
      OneFolded(Member(child, x));
      PutFolded(v, pos, Object(kept + [Member(child, x)]));
    }
  }

  lemma AddItemFolded(v: Json, pos: seq<nat>, child: string, last: string, x: Json)
    requires ValidPosition(v, pos) && ValidPosition(Folded(v), pos) && NodeAt(Folded(v), pos) == Folded(NodeAt(v, pos))
    requires NodeAt(v, pos).Array? && Lowered(child) == last && (last == "-" || StandardIndex(last).Some?)
    ensures FoldsTo(AddChild(v, pos, child, x, false), AddChild(Folded(v), pos, last, Folded(x), false))
  {
    hide NodeAt, PutAt, FoldedItems, FoldedMembers, DecodeArrayIndex, StandardIndex, RemoveAt, InsertAt;
    var items := NodeAt(v, pos).items;
    if last == "-" {
      assert Lower(child[0]) == '-' && child == "-";
      ItemAppended(items, x);
      PutFolded(v, pos, Array(items + [x]));
    } else {
      IndexAsWritten(child);
      var i := DecodeArrayIndex(child).value;
      if i <= |items| {
        ItemInserted(items, i, x);
        PutFolded(v, pos, Array(InsertAt(items, i, x)));
      }
    }
  }

  lemma {:induction false} ChangeAgrees(v: Value, path: seq<string>, e: Change)
    requires PlainPath(path) && ChangeAt(v, path, e, StandardIndex).Some?
    ensures ChangeAt(v, path, e, DecodeArrayIndex) == ChangeAt(v, path, e, StandardIndex)
    decreases |path|
  {
    if |path| == 1 {
      ChangeMemberAgrees(v, path[0], e);
    } else if |path| > 1 {
      SelectAgrees(v, path[0]);
      ChangeAgrees(Select(v, path[0], StandardIndex).value, path[1..], e);
    }
  }

  lemma ChangeMemberAgrees(v: Value, token: string, e: Change)
    requires Plain(token) && ChangeMember(v, token, e, StandardIndex).Some?
    ensures ChangeMember(v, token, e, DecodeArrayIndex) == ChangeMember(v, token, e, StandardIndex)
  {
    PlainFold(token, false);
    if v.VArray? && !(e.Add? && token == "-") {
      IndexAsWritten(token);
    }
  }

  /** What apply_patch reads off a patch that has been composed. */
  lemma ReadComposed(operation: string, path: string, value: Option<Json>, caseSensitive: bool)
    ensures var p := PatchObject(operation, path, value);
            && GetObjectItem(p, "op", caseSensitive) == Some(String(operation))
            && GetObjectItem(p, "path", caseSensitive) == Some(String(path))
            && (value.Some? ==> GetObjectItem(p, "value", caseSensitive) == value)
  {
    var ms := PatchObject(operation, path, value).members;
    KeysOfPatch(caseSensitive);
    assert ms[0].key == "op" && ms[1..][0] == Member("path", String(path));
    assert FindKey(ms, "op", caseSensitive) == 0 && FindKey(ms, "path", caseSensitive) == 1;
    if value.Some? {
      assert ms[1..][1..][0] == Member("value", value.value);
      assert FindKey(ms, "value", caseSensitive) == 2;
    }
  }

  lemma KeysOfPatch(caseSensitive: bool)
    ensures Compare("op", "op", caseSensitive) == 0 && Compare("path", "path", caseSensitive) == 0
    ensures Compare("value", "value", caseSensitive) == 0 && Compare("path", "op", caseSensitive) != 0
    ensures Compare("value", "op", caseSensitive) != 0 && Compare("value", "path", caseSensitive) != 0
  {
    CompareZero("op", "op", caseSensitive);
    CompareZero("path", "path", caseSensitive);
    CompareZero("value", "value", caseSensitive);
    assert "op"[0] == 'o' && "path"[0] == 'p' && "value"[0] == 'v';
  }

  /** What apply_patch does with it. */
  lemma ApplyComposed(root: Json, operation: string, path: string, value: Option<Json>, caseSensitive: bool)
    requires path != [] && (operation == "remove" || (value.Some? && (operation == "add" || operation == "replace")))
    ensures var r := ApplyRemove(root, path, caseSensitive);
            ApplyPatch(root, PatchObject(operation, path, value), caseSensitive) ==
            if operation == "remove" then r
            else if operation == "add" then AddAt(root, path, value.value, caseSensitive)
            else if r.status != 0 then r
            else AddAt(r.root, path, value.value, caseSensitive)
  {
    hide GetObjectItem, PatchObject, DetachPath, AddAt;
    ReadComposed(operation, path, value, caseSensitive);
  }

  lemma ComposedIs(p: Json)
    requires Composed(p)
    ensures p == PatchObject(OperationOf(p), PathOf(p), ValueOf(p))
  {
  }

  lemma ReplaceFolded(v: Json, text: string, path: seq<string>, x: Json, y: Value)
    requires PlainTree(Folded(v)) && path != [] && PlainPath(path) && Lowered(text) == PathText(path)
    requires ChangeAt(Meaning(Folded(v)), path, Replace(y), StandardIndex).Some?
    ensures var r, s := ApplyRemove(v, text, false), ApplyRemove(Folded(v), PathText(path), false);
            && r.status == 0 && s.status == 0
            && FoldsTo(AddAt(r.root, text, x, false), AddAt(s.root, PathText(path), Folded(x), false))
  {
    hide PlainTree, Lowered, Folded, Meaning, ChangeAt, DetachPath, AddAt, PathText;
    assert StandardIndex("-") == None by { assert !IsDigit("-"[0]); }
    RemoveThenAdd(Meaning(Folded(v)), path, y, StandardIndex);
    ChangeAgrees(Meaning(Folded(v)), path, Remove);
    DetachFolded(v, text, path);
    DetachMatches(Folded(v), path, false);
    AddFolded(DetachPath(v, text, false).root, text, path, x, y);
  }

  /** One edit, in the document and in its folded twin. */
  lemma EditFolded(v: Json, p: Json, path: seq<string>, e: Change)
    requires PlainTree(Folded(v)) && Composed(p) && PlainPath(path) && Lowered(PathOf(p)) == PathText(path)
    requires OperationOf(p) == OpName(Edit(path, e)) && (!e.Remove? ==> ValueOf(p).Some?) && (path == [] ==> e.Replace?)
    requires ChangeAt(Meaning(Folded(v)), path, e, StandardIndex).Some?
    ensures FoldsTo(ApplyPatch(v, p, false), ApplyPatch(Folded(v), FoldedPatch(p), false))
  {
    hide PlainTree, Lowered, Folded, Meaning, ChangeAt, GetObjectItem, DetachPath, AddAt, PathText, PatchObject;
    var text, value := PathOf(p), ValueOf(p);
    ReadComposed(OperationOf(p), text, value, false);
    ReadComposed(OperationOf(p), PathText(path), FoldedValue(value), false);
    EmptyText(text, path);
    ComposedIs(p);
    if path != [] {
      match e {
        case Remove => DetachFolded(v, text, path);
        case Add(y) => AddFolded(v, text, path, value.value, y);
        case Replace(y) => ReplaceFolded(v, text, path, value.value, y);
      }
    }
  }

  lemma EmptyText(text: string, path: seq<string>)
    requires Lowered(text) == PathText(path)
    ensures (text == "") == (path == []) && (PathText(path) == "") == (path == [])
  {
  }

  lemma EncodedParts(p: Json, op: Operation)
    requires Composed(p) && Encodes(FoldedPatch(p), op) && op.Edit?
    ensures Lowered(PathOf(p)) == PathText(op.path) && OperationOf(p) == OpName(op)
    ensures !op.e.Remove? ==> ValueOf(p).Some?
  {
    hide GetObjectItem, PathText, Lowered, PlainTree;
    var q := FoldedPatch(p);
    ReadComposed(OperationOf(p), Lowered(PathOf(p)), FoldedValue(ValueOf(p)), false);
    ItemOfPatch(q, "op", VString(OpName(op)), false);
    ItemOfPatch(q, "path", VString(PathText(op.path)), false);
    if !op.e.Remove? && ValueOf(p).None? {
      NoValue(OperationOf(p), Lowered(PathOf(p)));
    }
  }

  lemma NoValue(operation: string, path: string)
    ensures "value" !in MembersMeaning(PatchObject(operation, path, None).members)
  {
    var ms := PatchObject(operation, path, None).members;
    assert "op"[0] == 'o' && "path"[0] == 'p' && "value"[0] == 'v';
    assert ms[0].key == "op" && ms[1].key == "path";
    MeaningOfMember(ms, "value");
  }

  /** A whole run of edits. */
  lemma {:induction false} ApplyAllFolded(v: Json, ps: seq<Json>, ops: seq<Operation>)
    requires PlainTree(Folded(v)) && AllComposed(ps) && Edits(ops) && EncodesAll(FoldedPatches(ps), ops)
    requires PerformAll(Meaning(Folded(v)), ops, StandardIndex).Some?
    ensures FoldsTo(ApplyAll(v, ps, false), ApplyAll(Folded(v), FoldedPatches(ps), false))
    decreases |ops|
  {
    hide PlainTree, Meaning, Composed, FoldedPatch, ApplyPatch, Folded, Encodes, Perform, ApplyAll, PerformAll;
    if ops == [] {
      AppliedNothing(v, Folded(v));
    } else {
      FoldedPatchesRest(ps);
      PerformFirst(Meaning(Folded(v)), ops);
      StepFolds(v, ps[0], ops[0]);
      ApplyFirst(v, ps);
      ApplyFirst(Folded(v), FoldedPatches(ps));
      ApplyAllFolded(ApplyPatch(v, ps[0], false).root, ps[1..], ops[1..]);
    }
  }

  lemma AppliedNothing(v: Json, w: Json)
    ensures ApplyAll(v, [], false) == Applied(v, 0) && ApplyAll(w, [], false) == Applied(w, 0)
  {
  }

  lemma ApplyFirst(v: Json, ps: seq<Json>)
    requires ps != [] && ApplyPatch(v, ps[0], false).status == 0
    ensures ApplyAll(v, ps, false) == ApplyAll(ApplyPatch(v, ps[0], false).root, ps[1..], false)
  {
    hide ApplyPatch;
  }

  lemma PerformFirst(v: Value, ops: seq<Operation>)
    requires ops != [] && PerformAll(v, ops, StandardIndex).Some?
    ensures var w := Perform(v, ops[0], StandardIndex);
            w.Some? && PerformAll(v, ops, StandardIndex) == PerformAll(w.value, ops[1..], StandardIndex)
  {
    hide Perform;
  }

  lemma FoldedPatchesRest(ps: seq<Json>)
    requires AllComposed(ps) && ps != []
    ensures AllComposed(ps[1..]) && FoldedPatches(ps)[1..] == FoldedPatches(ps[1..])
  {
    hide Composed, FoldedPatch;
  }

  lemma StepFolds(v: Json, p: Json, op: Operation)
    requires PlainTree(Folded(v)) && Composed(p) && Encodes(FoldedPatch(p), op) && op.Edit?
        && (op.path == [] ==> op.e.Replace?)
    requires Perform(Meaning(Folded(v)), op, StandardIndex).Some?
    ensures var r := ApplyPatch(v, p, false);
            && r.status == 0 && FoldsTo(r, ApplyPatch(Folded(v), FoldedPatch(p), false))
            && PlainTree(Folded(r.root)) && Perform(Meaning(Folded(v)), op, StandardIndex)
              == Some(Meaning(Folded(r.root)))
  {
    hide PlainTree, Meaning, FoldedPatch, ApplyPatch, Folded, ChangeAt;
    assert PlainPath(op.path);
    EncodedParts(p, op);
    ChangeAgrees(Meaning(Folded(v)), op.path, op.e);
    EditFolded(v, p, op.path, op.e);
    EditMeets(Folded(v), FoldedPatch(p), op, false);
  }

  /** Diff and apply, both without regard to case: for all documents whose keys stay distinct in lower case and hold
      no '~' and no '/', applying the patches generated from `from` to `to` to any document equal to `from` succeeds
      and gives a document equal to `to`, where equal is what compare_json says. */
  lemma DiffApplyAnyCase(document: Json, from: Json, to: Json)
    requires PlainTree(Folded(document)) && PlainTree(Folded(from)) && PlainTree(Folded(to))
    requires CompareJson(document, from, false)
    ensures var r := ApplyAll(document, CreatePatches("", from, to, false), false);
            r.status == 0 && CompareJson(r.root, to, false) && PlainTree(Folded(r.root))
  {
    hide PlainTree, Meaning, ApplyAll, PerformAll, EncodesAll, ReadsDecimals, Edits, CreatePatches, Folded,
        CompareJson, Plan;
    var d, f, t := Folded(document), Folded(from), Folded(to);
    var ps, ops := CreatePatches("", from, to, false), Plan(f, t, false);
    CompareFolded(document, from);
    CompareJsonDecides(d, f, false);
    CreateFolded("", from, to);
    CreatePatchesEncode([], f, t, false);
    InsideNothing(ops);
    ReadersReadDecimals();
    PlanReaches(f, t, false, StandardIndex);
    ApplyAllFolded(document, ps, ops);
    DiffApplyRoundTrip(d, f, t, false, false);
    var r := ApplyAll(document, ps, false);
    CompareFolded(r.root, to);
    CompareJsonDecides(Folded(r.root), t, false);
  }
}
