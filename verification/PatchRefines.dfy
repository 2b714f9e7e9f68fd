/** apply_patch does what RFC 6902 says. */
module PatchRefinement {
  // On plain trees it succeeds exactly when the standard operation does, with the same result.

  import opened CStrings
  import opened JsonTree
  import opened KeySort
  import opened Comparison
  import opened Decimals
  import opened Pointers
  import opened Patching
  import opened PatchStandard

  ghost predicate PlainPath(path: seq<string>) {
    forall i :: 0 <= i < |path| ==> Plain(path[i])
  }

  /** The text of a pointer made of plain tokens. */
  function PathText(path: seq<string>): string {
    if path == [] then "" else "/" + (path[0] + PathText(path[1..]))
  }

  // ----- walking by tokens -----

  function ChildIndex(v: Json, token: string): (r: Option<nat>)
    ensures r.Some? ==> r.value < Children(v)
  {
    match v
    case Array(items) =>
      (match DecodeArrayIndex(token)
       case Some(i) => if i < |items| then Some(i) else None
       case None => None)
    case Object(ms) => if Find(ms, token) < |ms| then Some(Find(ms, token)) else None
    case _ => None
  }

  function Walk(v: Json, path: seq<string>): (r: Option<seq<nat>>)
    ensures r.Some? ==> ValidPosition(v, r.value)
    decreases |path|
  {
    if path == [] then Some([])
    else
      match ChildIndex(v, path[0])
      case None => None
      case Some(i) => Under(i, Walk(Child(v, i), path[1..]))
  }

  lemma PlainFold(s: string, caseSensitive: bool)
    requires Plain(s)
    ensures FoldAll(s, caseSensitive) == s
  {
  }

  lemma {:induction false} PlainDecode(token: string)
    requires Plain(token)
    ensures Decode(token) == Some(token)
  {
    if token != [] {
      assert PlainChar(token[0]);
      PlainDecode(token[1..]);
      assert token == [token[0]] + token[1..];
    }
  }

  lemma IndexStopsAtSlash(token: string, rest: string)
    requires Plain(token) && (rest == [] || rest[0] == '/')
    ensures DecodeArrayIndex(token + rest) == DecodeArrayIndex(token)
  {
    var p, k := token + rest, IndexRun(token);
    assert forall i :: 0 <= i < |token| ==> p[i] == token[i];
    assert '/' < '0';
    assert |token| < |p| ==> p[|token|] == '/';
    assert p != [] && token == [] ==> p[0] == '/';
    RunStops(p, k);
    assert p[..k] == token[..k];
  }

  lemma {:induction false} MatchIsFind(ms: seq<Member>, token: string, p: string, caseSensitive: bool)
    requires Plain(token) && p[..TokenLength(p)] == token && forall i :: 0 <= i < |ms| ==> Plain(ms[i].key)
    ensures FirstMatch(ms, p, caseSensitive) == Find(ms, token)
  {
    if ms != [] {
      PlainDecode(token);
      ComparePointersDecodes(ms[0].key, p, caseSensitive);
      PlainFold(token, caseSensitive);
      PlainFold(ms[0].key, caseSensitive);
      MatchIsFind(ms[1..], token, p, caseSensitive);
    }
  }

  lemma PathTextShape(path: seq<string>)
    ensures PathText(path) == [] || PathText(path)[0] == '/'
  {
  }

  lemma StepIsChildIndex(v: Json, token: string, rest: string, caseSensitive: bool)
    requires PlainTree(v) && Plain(token) && (rest == [] || rest[0] == '/')
    ensures Step(v, token + rest, caseSensitive) == ChildIndex(v, token) && TokenLength(token + rest) == |token|
  {
    hide FirstMatch, DecodeArrayIndex, Find;
    var p := token + rest;
    SlashFreeToken(token, rest);
    assert p[TokenLength(p)..] == rest && p[..TokenLength(p)] == token;
    if v.Array? {
      IndexStopsAtSlash(token, rest);
    } else if v.Object? {
      MatchIsFind(v.members, token, p, caseSensitive);
    }
  }

  /** Following the text of a plain path in a plain tree is walking by its tokens. */
  lemma {:induction false} LocateIsWalk(v: Json, path: seq<string>, caseSensitive: bool)
    requires PlainTree(v) && PlainPath(path)
    ensures Locate(v, PathText(path), caseSensitive) == Walk(v, path)
    decreases |path|
  {
    if path != [] {
      var rest := PathText(path[1..]);
      var p := path[0] + rest;
      PathTextShape(path[1..]);
      StepIsChildIndex(v, path[0], rest, caseSensitive);
      assert p[TokenLength(p)..] == rest;
      LocateUnfolds(v, p, caseSensitive);
      var i := ChildIndex(v, path[0]);
      if i.Some? {
        LocateIsWalk(Child(v, i.value), path[1..], caseSensitive);
      }
    }
  }

  /** What a step by token means. */
  lemma StepMeaning(v: Json, token: string)
    ensures Select(Meaning(v), token, DecodeArrayIndex) ==
            match ChildIndex(v, token) case None => None case Some(i) => Some(Meaning(Child(v, i)))
  {
    if v.Object? {
      MeaningOfMember(v.members, token);
    }
  }

  lemma {:induction false} WalkMeaning(v: Json, path: seq<string>)
    ensures Get(Meaning(v), path, DecodeArrayIndex) ==
            match Walk(v, path) case None => None case Some(pos) => Some(Meaning(NodeAt(v, pos)))
    decreases |path|
  {
    if path != [] {
      StepMeaning(v, path[0]);
      var i := ChildIndex(v, path[0]);
      if i.Some? {
        var c := Child(v, i.value);
        WalkMeaning(c, path[1..]);
        var tail := Walk(c, path[1..]);
        if tail.Some? {
          assert ([i.value] + tail.value)[1..] == tail.value;
        }
      }
    }
  }

  lemma {:induction false} MeaningOfUpdate(ms: seq<Member>, i: nat, x: Json)
    requires i < |ms| && UniqueKeys(ms)
    ensures MembersMeaning(ms[i := Member(ms[i].key, x)]) == MembersMeaning(ms)[ms[i].key := Meaning(x)]
  {
    var m := ms[i := Member(ms[i].key, x)];
    if i > 0 {
      assert m[1..] == ms[1..][i - 1 := Member(ms[i].key, x)];
      MeaningOfUpdate(ms[1..], i - 1, x);
      assert ms[0].key != ms[i].key;
    }
  }

  lemma SetChildMeaning(v: Json, token: string, x: Json)
    requires PlainTree(v) && PlainTree(x) && ChildIndex(v, token).Some?
    ensures PlainTree(SetChild(v, ChildIndex(v, token).value, x))
    ensures Select(Meaning(v), token, DecodeArrayIndex).Some?
    ensures Meaning(SetChild(v, ChildIndex(v, token).value, x))
         == Exchange(Meaning(v), token, Meaning(x), DecodeArrayIndex)
  {
    var i := ChildIndex(v, token).value;
    StepMeaning(v, token);
    if v.Array? {
      assert ItemsMeaning(v.items[i := x]) == ItemsMeaning(v.items)[i := Meaning(x)];
    } else {
      MeaningOfUpdate(v.members, i, x);
    }
  }

  /** Exchanging the node at a walked position exchanges the value at the path, and keeps the tree
      plain. */
  lemma {:induction false} PutMeaning(v: Json, path: seq<string>, x: Json)
    requires PlainTree(v) && PlainTree(x) && Walk(v, path).Some?
    ensures PlainTree(PutAt(v, Walk(v, path).value, x)) && PlainTree(NodeAt(v, Walk(v, path).value))
    ensures Meaning(PutAt(v, Walk(v, path).value, x)) == Rebuild(Meaning(v), path, Meaning(x), DecodeArrayIndex)
    decreases |path|
  {
    if path != [] {
      var i := ChildIndex(v, path[0]).value;
      var c := Child(v, i);
      var tail := Walk(c, path[1..]).value;
      assert Walk(v, path).value[1..] == tail;
      PutMeaning(c, path[1..], x);
      StepMeaning(v, path[0]);
      SetChildMeaning(v, path[0], PutAt(c, tail, x));
    }
  }

  // ----- the container that holds the target -----

  /** The last token splits off at the last '/'. */
  lemma {:induction false} SplitPath(path: seq<string>)
    requires path != [] && PlainPath(path)
    ensures var text, init, last := PathText(path), PathText(path[..|path| - 1]), path[|path| - 1];
            text == init + "/" + last && LastSlash(text) == Some(|init|)
  {
    var last := path[|path| - 1];
    InitAndLast(path);
    var init := PathText(path[..|path| - 1]);
    SlashBefore(init + "/", last);
    assert (init + "/")[|init|] == '/' && (init + "/")[..|init|] == init;
  }

  lemma {:induction false} InitAndLast(path: seq<string>)
    requires path != []
    ensures PathText(path) == PathText(path[..|path| - 1]) + "/" + path[|path| - 1]
  {
    if |path| == 1 {
      assert path[..0] == [] && path[1..] == [];
      assert PathText(path[1..]) == "";
    } else {
      InitAndLast(path[1..]);
      var init := path[..|path| - 1];
      assert init[1..] == path[1..][..|path| - 2] && init[0] == path[0];
    }
  }

  lemma {:induction false} SlashBefore(front: string, last: string)
    requires front != [] && front[|front| - 1] == '/' && forall i :: 0 <= i < |last| ==> last[i] != '/'
    ensures LastSlash(front + last) == Some(|front| - 1)
    decreases |last|
  {
    var s := front + last;
    if last == [] {
      assert s == front;
    } else {
      assert s[..|s| - 1] == front + last[..|last| - 1];
      SlashBefore(front, last[..|last| - 1]);
    }
  }

  lemma RemovalPlain(ms: seq<Member>, i: nat)
    requires i < |ms| && PlainMembers(ms)
    ensures PlainMembers(RemoveAt(ms, i))
    ensures forall j :: 0 <= j < |ms| - 1 ==> RemoveAt(ms, i)[j].key != ms[i].key
  {
    var r := RemoveAt(ms, i);
    assert forall j :: 0 <= j < |r| ==> r[j] == ms[if j < i then j else j + 1];
  }

  /** Unlinking a member takes its key out of the meaning. */
  lemma {:induction false} MeaningOfRemoval(ms: seq<Member>, i: nat)
    requires i < |ms| && UniqueKeys(ms)
    ensures MembersMeaning(RemoveAt(ms, i)) == MembersMeaning(ms) - {ms[i].key}
  {
    hide Meaning;
    if i == 0 {
      assert RemoveAt(ms, 0) == ms[1..];
      MeaningOfMember(ms[1..], ms[0].key);
      assert Find(ms[1..], ms[0].key) == |ms| - 1;
    } else {
      MeaningOfRemoval(ms[1..], i - 1);
      var r := RemoveAt(ms, i);
      assert r[0] == ms[0] && r[1..] == RemoveAt(ms[1..], i - 1);
      assert ms[0].key != ms[i].key;
    }
  }

  lemma AppendPlain(ms: seq<Member>, m: Member)
    requires PlainMembers(ms) && Plain(m.key) && PlainTree(m.val)
    requires forall j :: 0 <= j < |ms| ==> ms[j].key != m.key
    ensures PlainMembers(ms + [m])
  {
  }

  lemma MeaningOfAppend(ms: seq<Member>, m: Member)
    requires forall j :: 0 <= j < |ms| ==> ms[j].key != m.key
    ensures MembersMeaning(ms + [m]) == MembersMeaning(ms)[m.key := Meaning(m.val)]
  {
    MeaningAppend(ms, [m]);
    MeaningOfMember(ms, m.key);
    assert MembersMeaning([m]) == map[m.key := Meaning(m.val)] by {
      assert [m][1..] == [];
    }
  }

  lemma ItemsAppend(a: seq<Json>, b: seq<Json>)
    ensures ItemsMeaning(a + b) == ItemsMeaning(a) + ItemsMeaning(b)
  {
  }

  lemma ItemsSlice(s: seq<Json>, i: nat)
    requires i <= |s|
    ensures ItemsMeaning(s[..i]) == ItemsMeaning(s)[..i] && ItemsMeaning(s[i..]) == ItemsMeaning(s)[i..]
  {
    hide ItemsMeaning;
    ItemsAppend(s[..i], s[i..]);
    assert s == s[..i] + s[i..];
    Parts(ItemsMeaning(s[..i]), ItemsMeaning(s[i..]), i);
  }

  lemma Parts<T>(a: seq<T>, b: seq<T>, i: nat)
    requires |a| == i
    ensures (a + b)[..i] == a && (a + b)[i..] == b
  {
  }

  lemma ItemsOfRemoval(items: seq<Json>, i: nat)
    requires i < |items|
    ensures ItemsMeaning(RemoveAt(items, i)) == ItemsMeaning(items)[..i] + ItemsMeaning(items)[i + 1..]
  {
    ItemsAppend(items[..i], items[i + 1..]);
    ItemsSlice(items, i);
    ItemsSlice(items, i + 1);
  }

  lemma ItemsOfInsertion(items: seq<Json>, i: nat, x: Json)
    requires i <= |items|
    ensures ItemsMeaning(InsertAt(items, i, x)) == ItemsMeaning(items)[..i] + [Meaning(x)] + ItemsMeaning(items)[i..]
  {
    ItemsAppend(items[..i] + [x], items[i..]);
    ItemsAppend(items[..i], [x]);
    ItemsSlice(items, i);
    assert ItemsMeaning([x]) == [Meaning(x)];
  }

  /** The outcome of a step against the standard's: success together, and then the same value. */
  ghost predicate Matches(a: Applied, r: Option<Value>) {
    && (a.status == 0 <==> r.Some?)
    && (a.status == 0 ==> Meaning(a.root) == r.value && PlainTree(a.root))
  }

  /** detach_path removes what the standard's remove does. */
  lemma DetachMatches(root: Json, path: seq<string>, caseSensitive: bool)
    requires PlainTree(root) && PlainPath(path) && path != []
    ensures var d := DetachPath(root, PathText(path), caseSensitive);
            && (d.item.Some? <==> ChangeAt(Meaning(root), path, Remove, DecodeArrayIndex).Some?)
            && (d.item.Some? ==>
                  && PlainTree(d.root) && PlainTree(d.item.value)
                  && ChangeAt(Meaning(root), path, Remove, DecodeArrayIndex) == Some(Meaning(d.root))
                  && Get(Meaning(root), path, DecodeArrayIndex) == Some(Meaning(d.item.value)))
  {
    var init, last := path[..|path| - 1], path[|path| - 1];
    SplitPath(path);
    var text := PathText(path);
    assert text[..|PathText(init)|] == PathText(init) && text[|PathText(init)| + 1..] == last;
    LocateIsWalk(root, init, caseSensitive);
    WalkMeaning(root, init);
    ChangeInContainer(Meaning(root), path, Remove, DecodeArrayIndex);
    GetInContainer(Meaning(root), path, DecodeArrayIndex);
    DecodedPlain(last);
    var pos := Walk(root, init);
    if pos.Some? {
      PutMeaning(root, init, Null);
      DetachChildMatches(root, init, pos.value, last);
    }
  }

  lemma {:induction false} GetInContainer(v: Value, path: seq<string>, ix: IndexReader)
    requires path != []
    ensures Get(v, path, ix) ==
            match Get(v, path[..|path| - 1], ix)
            case None => None
            case Some(c) => Select(c, path[|path| - 1], ix)
    decreases |path|
  {
    if |path| == 1 {
      assert path[..0] == [];
    } else {
      var c := Select(v, path[0], ix);
      var init := path[..|path| - 1];
      assert init[0] == path[0] && init[1..] == path[1..][..|path| - 2];
      if c.Some? {
        GetInContainer(c.value, path[1..], ix);
      }
    }
  }

  /** What detaching at a container must give. */
  ghost predicate DetachedAsRemoved(root: Json, init: seq<string>, pos: seq<nat>, last: string)
    requires Walk(root, init) == Some(pos)
  {
    var d := DetachChild(root, pos, last);
    var c := Meaning(NodeAt(root, pos));
    var r := ChangeMember(c, last, Remove, DecodeArrayIndex);
    && (d.item.Some? <==> r.Some?)
    && (d.item.Some? ==>
          && PlainTree(d.root) && PlainTree(d.item.value)
          && Meaning(d.root) == Rebuild(Meaning(root), init, r.value, DecodeArrayIndex)
          && Select(c, last, DecodeArrayIndex) == Some(Meaning(d.item.value)))
  }

  lemma DetachChildMatches(root: Json, init: seq<string>, pos: seq<nat>, last: string)
    requires PlainTree(root) && Plain(last) && Walk(root, init) == Some(pos) && PlainTree(NodeAt(root, pos))
    ensures DetachedAsRemoved(root, init, pos, last)
  {
    var node := NodeAt(root, pos);
    if node.Array? {
      DetachItemMatches(root, init, pos, last);
    } else if node.Object? {
      DetachMemberMatches(root, init, pos, last);
    }
  }

  lemma DetachItemMatches(root: Json, init: seq<string>, pos: seq<nat>, last: string)
    requires PlainTree(root) && Walk(root, init) == Some(pos) && NodeAt(root, pos).Array?
        && PlainTree(NodeAt(root, pos))
    ensures DetachedAsRemoved(root, init, pos, last)
  {
    hide DetachedAsRemoved, NodeAt, Walk, DecodeArrayIndex, PlainTree;
    var items, i := NodeAt(root, pos).items, DecodeArrayIndex(last);
    if i.Some? && i.value < |items| {
      DetachIndex(root, init, pos, last, i.value);
    } else {
      DetachNothing(root, init, pos, last);
    }
  }

  lemma DetachIndex(root: Json, init: seq<string>, pos: seq<nat>, last: string, i: nat)
    requires PlainTree(root) && Walk(root, init) == Some(pos) && NodeAt(root, pos).Array?
        && PlainTree(NodeAt(root, pos))
    requires DecodeArrayIndex(last) == Some(i) && i < |NodeAt(root, pos).items|
    ensures DetachedAsRemoved(root, init, pos, last)
  {
    hide NodeAt, PutAt, Rebuild, Walk, DecodeArrayIndex, RemoveAt;
    var left := RemovedItem(NodeAt(root, pos).items, i);
    PutMeaning(root, init, left);
  }

  lemma DetachNothing(root: Json, init: seq<string>, pos: seq<nat>, last: string)
    requires Walk(root, init) == Some(pos) && NodeAt(root, pos).Array?
    requires DecodeArrayIndex(last).Some? ==> DecodeArrayIndex(last).value >= |NodeAt(root, pos).items|
    ensures DetachedAsRemoved(root, init, pos, last)
  {
    hide NodeAt, PutAt, Rebuild, Walk, DecodeArrayIndex, PlainTree;
  }

  lemma DetachMemberMatches(root: Json, init: seq<string>, pos: seq<nat>, last: string)
    requires PlainTree(root) && Plain(last) && Walk(root, init) == Some(pos)
    requires NodeAt(root, pos).Object? && PlainTree(NodeAt(root, pos))
    ensures DetachedAsRemoved(root, init, pos, last)
  {
    hide DetachedAsRemoved, NodeAt, Walk, PlainTree, Find;
    var ms := NodeAt(root, pos).members;
    if Find(ms, last) < |ms| {
      DetachFound(root, init, pos, last);
    } else {
      DetachMissing(root, init, pos, last);
    }
  }

  lemma DetachFound(root: Json, init: seq<string>, pos: seq<nat>, last: string)
    requires PlainTree(root) && Plain(last) && Walk(root, init) == Some(pos)
    requires NodeAt(root, pos).Object? && PlainTree(NodeAt(root, pos))
    requires Find(NodeAt(root, pos).members, last) < |NodeAt(root, pos).members|
    ensures DetachedAsRemoved(root, init, pos, last)
  {
    hide NodeAt, PutAt, Rebuild, MembersMeaning, Walk, RemoveAt, UniqueKeys;
    var ms := NodeAt(root, pos).members;
    FindKeyPlain(ms, last, false);
    MeaningOfMember(ms, last);
    var left := RemovedMember(ms, Find(ms, last));
    PutMeaning(root, init, left);
  }

  lemma DetachMissing(root: Json, init: seq<string>, pos: seq<nat>, last: string)
    requires Plain(last) && Walk(root, init) == Some(pos)
    requires NodeAt(root, pos).Object? && PlainTree(NodeAt(root, pos))
    requires Find(NodeAt(root, pos).members, last) == |NodeAt(root, pos).members|
    ensures DetachedAsRemoved(root, init, pos, last)
  {
    hide NodeAt, PutAt, Rebuild, MembersMeaning, Walk;
    var ms := NodeAt(root, pos).members;
    FindKeyPlain(ms, last, false);
    MeaningOfMember(ms, last);
  }

  lemma {:induction false} RemovedItem(items: seq<Json>, i: nat) returns (left: Json)
    requires i < |items| && PlainTree(Array(items))
    ensures left == Array(RemoveAt(items, i)) && PlainTree(left)
    ensures Meaning(left) == VArray(ItemsMeaning(items)[..i] + ItemsMeaning(items)[i + 1..])
  {
    left := Array(RemoveAt(items, i));
    ItemsOfRemoval(items, i);
  }

  lemma {:induction false} RemovedMember(ms: seq<Member>, i: nat) returns (left: Json)
    requires i < |ms| && PlainMembers(ms)
    ensures left == Object(RemoveAt(ms, i)) && PlainTree(left)
    ensures Meaning(left) == VObject(MembersMeaning(ms) - {ms[i].key})
  {
    left := Object(RemoveAt(ms, i));
    MeaningOfRemoval(ms, i);
    RemovalPlain(ms, i);
  }

  /** The common tail of add, replace, move and copy is the standard's add. */
  lemma AddMatches(root: Json, path: seq<string>, value: Json, caseSensitive: bool)
    requires PlainTree(root) && PlainTree(value) && PlainPath(path) && path != []
    ensures Matches(AddAt(root, PathText(path), value, caseSensitive),
                    ChangeAt(Meaning(root), path, Add(Meaning(value)), DecodeArrayIndex))
  {
    hide PlainTree, Meaning, PathText, Walk, ChangeMember, AddAt, NodeAt, PutAt, Rebuild, Get, AddChild;
    var init, last := path[..|path| - 1], path[|path| - 1];
    var pos := Walk(root, init);
    AddAtIsAddChild(root, path, value, caseSensitive);
    WalkMeaning(root, init);
    ChangeInContainer(Meaning(root), path, Add(Meaning(value)), DecodeArrayIndex);
    if pos.Some? {
      PutMeaning(root, init, Null);
      AddChildMatches(root, init, pos.value, last, value, caseSensitive);
    }
  }

  lemma AddAtIsAddChild(root: Json, path: seq<string>, value: Json, caseSensitive: bool)
    requires PlainTree(root) && PlainPath(path) && path != []
    ensures AddAt(root, PathText(path), value, caseSensitive) ==
            match Walk(root, path[..|path| - 1])
            case None => Applied(root, 9)
            case Some(pos) => AddChild(root, pos, path[|path| - 1], value, caseSensitive)
  {
    var init, last := path[..|path| - 1], path[|path| - 1];
    SplitPath(path);
    var text := PathText(path);
    assert text[..|PathText(init)|] == PathText(init) && text[|PathText(init)| + 1..] == last;
    LocateIsWalk(root, init, caseSensitive);
    DecodedPlain(last);
  }

  ghost predicate AddedAsAsked(root: Json, init: seq<string>, pos: seq<nat>, last: string, value: Json,
      caseSensitive: bool)
    requires Walk(root, init) == Some(pos)
  {
    var a := AddChild(root, pos, last, value, caseSensitive);
    var r := ChangeMember(Meaning(NodeAt(root, pos)), last, Add(Meaning(value)), DecodeArrayIndex);
    && (a.status == 0 <==> r.Some?)
    && (a.status == 0 ==>
          PlainTree(a.root) && Meaning(a.root) == Rebuild(Meaning(root), init, r.value, DecodeArrayIndex))
  }

  lemma AddChildMatches(root: Json, init: seq<string>, pos: seq<nat>, last: string, value: Json, caseSensitive: bool)
    requires PlainTree(root) && PlainTree(value) && Plain(last)
    requires Walk(root, init) == Some(pos) && PlainTree(NodeAt(root, pos))
    ensures AddedAsAsked(root, init, pos, last, value, caseSensitive)
  {
    hide PlainTree, Walk, NodeAt, Rebuild;
    var node := NodeAt(root, pos);
    if node.Array? {
      AddItemMatches(root, init, pos, last, value, caseSensitive);
    } else if node.Object? {
      AddMemberMatches(root, init, pos, last, value, caseSensitive);
    }
  }

  lemma AddItemMatches(root: Json, init: seq<string>, pos: seq<nat>, last: string, value: Json, caseSensitive: bool)
    requires PlainTree(root) && PlainTree(value) && Walk(root, init) == Some(pos)
    requires NodeAt(root, pos).Array? && PlainTree(NodeAt(root, pos))
    ensures AddedAsAsked(root, init, pos, last, value, caseSensitive)
  {
    hide AddedAsAsked, NodeAt, Walk, DecodeArrayIndex, PlainTree;
    var items, i := NodeAt(root, pos).items, DecodeArrayIndex(last);
    if last == "-" {
      AddDash(root, init, pos, value, caseSensitive);
    } else if i.Some? && i.value <= |items| {
      AddIndex(root, init, pos, last, i.value, value, caseSensitive);
    } else {
      AddNowhere(root, init, pos, last, value, caseSensitive);
    }
  }

  lemma AddNowhere(root: Json, init: seq<string>, pos: seq<nat>, last: string, value: Json, caseSensitive: bool)
    requires Walk(root, init) == Some(pos) && NodeAt(root, pos).Array? && last != "-"
    requires DecodeArrayIndex(last).Some? ==> DecodeArrayIndex(last).value > |NodeAt(root, pos).items|
    ensures AddedAsAsked(root, init, pos, last, value, caseSensitive)
  {
    hide NodeAt, PutAt, Rebuild, Walk, DecodeArrayIndex, PlainTree;
  }

  lemma AddDash(root: Json, init: seq<string>, pos: seq<nat>, value: Json, caseSensitive: bool)
    requires PlainTree(root) && PlainTree(value) && Walk(root, init) == Some(pos)
    requires NodeAt(root, pos).Array? && PlainTree(NodeAt(root, pos))
    ensures AddedAsAsked(root, init, pos, "-", value, caseSensitive)
  {
    hide NodeAt, PutAt, Rebuild, Walk, DecodeArrayIndex, PlainTree, ItemsMeaning;
    var items := NodeAt(root, pos).items;
    var left := InsertedItem(items, |items|, value);
    PutMeaning(root, init, left);
  }

  lemma AddIndex(root: Json, init: seq<string>, pos: seq<nat>, last: string, i: nat, value: Json, caseSensitive: bool)
    requires PlainTree(root) && PlainTree(value) && Walk(root, init) == Some(pos)
    requires NodeAt(root, pos).Array? && PlainTree(NodeAt(root, pos))
    requires last != "-" && DecodeArrayIndex(last) == Some(i) && i <= |NodeAt(root, pos).items|
    ensures AddedAsAsked(root, init, pos, last, value, caseSensitive)
  {
    hide NodeAt, PutAt, Rebuild, Walk, DecodeArrayIndex, PlainTree, ItemsMeaning;
    var left := InsertedItem(NodeAt(root, pos).items, i, value);
    PutMeaning(root, init, left);
  }

  lemma AddMemberMatches(root: Json, init: seq<string>, pos: seq<nat>, last: string, value: Json, caseSensitive: bool)
    requires PlainTree(root) && PlainTree(value) && Plain(last) && Walk(root, init) == Some(pos)
    requires NodeAt(root, pos).Object? && PlainTree(NodeAt(root, pos))
    ensures AddedAsAsked(root, init, pos, last, value, caseSensitive)
  {
    hide NodeAt, PutAt, Rebuild, Walk, MembersMeaning;
    var node := NodeAt(root, pos);
    FindKeyPlain(node.members, last, caseSensitive);
    var left := StoredMember(node.members, last, value);
    PutMeaning(root, init, left);
  }

  lemma {:induction false} InsertedItem(items: seq<Json>, i: nat, x: Json) returns (left: Json)
    requires i <= |items| && PlainTree(Array(items)) && PlainTree(x)
    ensures left == Array(InsertAt(items, i, x)) && PlainTree(left)
    ensures Meaning(left) == VArray(ItemsMeaning(items)[..i] + [Meaning(x)] + ItemsMeaning(items)[i..])
    ensures i == |items| ==> left == Array(items + [x]) && Meaning(left) == VArray(ItemsMeaning(items) + [Meaning(x)])
  {
    left := Array(InsertAt(items, i, x));
    ItemsOfInsertion(items, i, x);
    if i == |items| {
      assert InsertAt(items, i, x) == items + [x];
      ItemsAppend(items, [x]);
    }
  }

  lemma {:induction false} StoredMember(ms: seq<Member>, key: string, x: Json) returns (left: Json)
    requires PlainMembers(ms) && Plain(key) && PlainTree(x)
    ensures var i := Find(ms, key);
            left == Object((if i < |ms| then RemoveAt(ms, i) else ms) + [Member(key, x)])
    ensures PlainTree(left) && Meaning(left) == VObject(MembersMeaning(ms)[key := Meaning(x)])
  {
    var i := Find(ms, key);
    var kept := if i < |ms| then RemoveAt(ms, i) else ms;
    if i < |ms| {
      RemovalPlain(ms, i);
      MeaningOfRemoval(ms, i);
      assert (MembersMeaning(ms) - {key})[key := Meaning(x)] == MembersMeaning(ms)[key := Meaning(x)];
    }
    left := Object(kept + [Member(key, x)]);
    AppendPlain(kept, Member(key, x));
    MeaningOfAppend(kept, Member(key, x));
  }

  // ----- whole patches -----

  function OpName(op: Operation): string {
    match op
    case Edit(_, Add(_)) => "add"
    case Edit(_, Remove) => "remove"
    case Edit(_, Replace(_)) => "replace"
    case Move(_, _) => "move"
    case Copy(_, _) => "copy"
    case Test(_, _) => "test"
  }

  ghost predicate Has(m: map<string, Value>, key: string, x: Value) {
    key in m && m[key] == x
  }

  /** The JSON object says this operation: its members may come in any order and others beside them. */
  ghost predicate Encodes(patch: Json, op: Operation) {
    && patch.Object? && PlainTree(patch)
    && var m := MembersMeaning(patch.members);
       && Has(m, "op", VString(OpName(op))) && PlainPath(op.path) && Has(m, "path", VString(PathText(op.path)))
       && (op.Edit? && !op.e.Remove? ==> Has(m, "value", op.e.x))
       && (op.Test? ==> Has(m, "value", op.x))
       && (op.Move? || op.Copy? ==> PlainPath(op.from) && Has(m, "from", VString(PathText(op.from))))
  }

  lemma ItemOfPatch(patch: Json, key: string, x: Value, caseSensitive: bool)
    requires patch.Object? && PlainTree(patch) && Plain(key) && Has(MembersMeaning(patch.members), key, x)
    ensures var v := GetObjectItem(patch, key, caseSensitive); v.Some? && Meaning(v.value) == x && PlainTree(v.value)
  {
    FindKeyPlain(patch.members, key, caseSensitive);
    MeaningOfMember(patch.members, key);
  }

  lemma PathIsRoot(path: seq<string>)
    ensures PathText(path) == "" <==> path == []
  {
  }

  /** apply_patch against RFC 6902: for every plain document and every patch of plain tokens it succeeds
      exactly when the standard operation does, and then leaves the document the standard asks for, if and
      only if the operation is none of those the library carries out otherwise. */
  lemma ApplyPatchMatches(root: Json, patch: Json, op: Operation, caseSensitive: bool)
    requires PlainTree(root) && Encodes(patch, op)
    ensures Matches(ApplyPatch(root, patch, caseSensitive), Perform(Meaning(root), op, DecodeArrayIndex))
            <==> !Departs(Meaning(root), op, DecodeArrayIndex)
  {
    hide Perform, Departs, ApplyOperation;
    ReadPatch(patch, op, caseSensitive);
    OperationMatches(root, patch, op, caseSensitive);
  }

  function OpcodeOf(op: Operation): Opcode {
    match op
    case Edit(_, Add(_)) => AddOp
    case Edit(_, Remove) => RemoveOp
    case Edit(_, Replace(_)) => ReplaceOp
    case Move(_, _) => MoveOp
    case Copy(_, _) => CopyOp
    case Test(_, _) => TestOp
  }

  /** What the code reads off the patch object. */
  lemma ReadPatch(patch: Json, op: Operation, caseSensitive: bool)
    requires Encodes(patch, op)
    ensures GetObjectItem(patch, "path", caseSensitive) == Some(String(PathText(op.path)))
    ensures DecodePatchOperation(patch, caseSensitive) == OpcodeOf(op)
  {
    hide GetObjectItem, PathText;
    ItemOfPatch(patch, "op", VString(OpName(op)), caseSensitive);
    ItemOfPatch(patch, "path", VString(PathText(op.path)), caseSensitive);
  }

  /** What carrying out an operation must give. */
  ghost predicate CarriedOut(root: Json, patch: Json, op: Operation, caseSensitive: bool) {
    Matches(ApplyOperation(root, OpcodeOf(op), PathText(op.path), patch, caseSensitive),
            Perform(Meaning(root), op, DecodeArrayIndex))
  }

  lemma OperationMatches(root: Json, patch: Json, op: Operation, caseSensitive: bool)
    requires PlainTree(root) && Encodes(patch, op)
    ensures CarriedOut(root, patch, op, caseSensitive) <==> !Departs(Meaning(root), op, DecodeArrayIndex)
  {
    hide CarriedOut, MovesIntoNext, Get, PlainTree;
    match op {
      case Edit(path, e) =>
        if path == [] {
          RootMatches(root, patch, e, caseSensitive);
        } else {
          EditMatches(root, patch, path, e, caseSensitive);
        }
      case Move(from, path) => MoveMatches(root, patch, from, path, caseSensitive);
      case Copy(from, path) => CopyMatches(root, patch, from, path, caseSensitive);
      case Test(path, x) => TestMatches(root, patch, path, x, caseSensitive);
    }
  }

  lemma RootMatches(root: Json, patch: Json, e: Change, caseSensitive: bool)
    requires Encodes(patch, Edit([], e))
    ensures CarriedOut(root, patch, Edit([], e), caseSensitive)
  {
    if !e.Remove? {
      ItemOfPatch(patch, "value", e.x, caseSensitive);
    }
  }

  lemma EditMatches(root: Json, patch: Json, path: seq<string>, e: Change, caseSensitive: bool)
    requires PlainTree(root) && Encodes(patch, Edit(path, e)) && path != []
    ensures CarriedOut(root, patch, Edit(path, e), caseSensitive)
  {
    hide DetachPath, AddAt, PathText, GetObjectItem, ChangeAt;
    PathIsRoot(path);
    match e {
      case Remove => DetachMatches(root, path, caseSensitive);
      case Add(x) =>
        ItemOfPatch(patch, "value", x, caseSensitive);
        AddMatches(root, path, GetObjectItem(patch, "value", caseSensitive).value, caseSensitive);
      case Replace(x) =>
        ItemOfPatch(patch, "value", x, caseSensitive);
        ReplaceMatches(root, path, patch, x, caseSensitive);
    }
  }

  lemma CopyMatches(root: Json, patch: Json, from: seq<string>, path: seq<string>, caseSensitive: bool)
    requires PlainTree(root) && Encodes(patch, Copy(from, path))
    ensures CarriedOut(root, patch, Copy(from, path), caseSensitive)
            <==> !Departs(Meaning(root), Copy(from, path), DecodeArrayIndex)
  {
    hide AddAt, Locate, Walk, PathText, GetObjectItem, Get, ChangeAt;
    ItemOfPatch(patch, "from", VString(PathText(from)), caseSensitive);
    LocateIsWalk(root, from, caseSensitive);
    WalkMeaning(root, from);
    var pos := Walk(root, from);
    if pos.Some? {
      PutMeaning(root, from, Null);
      var x := NodeAt(root, pos.value);
      if path == [] {
        NothingAtRoot(root, x, caseSensitive);
        ChangeRoot(Meaning(root), Meaning(x));
      } else {
        AddMatches(root, path, x, caseSensitive);
      }
    }
  }

  /** The common tail has no place to put a new document in. */
  lemma NothingAtRoot(root: Json, value: Json, caseSensitive: bool)
    ensures AddAt(root, PathText([]), value, caseSensitive) == Applied(root, 9)
  {
  }

  lemma ChangeRoot(v: Value, x: Value)
    ensures ChangeAt(v, [], Add(x), DecodeArrayIndex) == Some(x)
  {
  }

  lemma TestMatches(root: Json, patch: Json, path: seq<string>, x: Value, caseSensitive: bool)
    requires PlainTree(root) && Encodes(patch, Test(path, x))
    ensures CarriedOut(root, patch, Test(path, x), caseSensitive)
  {
    hide CompareJson, Locate, Walk, PathText, GetObjectItem, Get, PlainTree, MembersMeaning, Meaning, PlainPath,
        NodeAt, PutAt, Rebuild;
    ItemOfPatch(patch, "value", x, caseSensitive);
    LocateIsWalk(root, path, caseSensitive);
    WalkMeaning(root, path);
    var pos := Walk(root, path);
    if pos.Some? {
      PutMeaning(root, path, Null);
      CompareJsonDecides(NodeAt(root, pos.value), GetObjectItem(patch, "value", caseSensitive).value, caseSensitive);
    }
  }

  lemma MoveMatches(root: Json, patch: Json, from: seq<string>, path: seq<string>, caseSensitive: bool)
    requires PlainTree(root) && Encodes(patch, Move(from, path))
    ensures CarriedOut(root, patch, Move(from, path), caseSensitive)
            <==> !Departs(Meaning(root), Move(from, path), DecodeArrayIndex)
  {
    hide DetachPath, AddAt, PathText, GetObjectItem, Relocate, MovesIntoNext, Get, PlainTree;
    ItemOfPatch(patch, "from", VString(PathText(from)), caseSensitive);
    if path == [] {
      MoveOntoRoot(root, from, caseSensitive);
    } else {
      DetachThenAdd(root, from, path, caseSensitive);
      if from < path {
        RelocateInto(Meaning(root), from, path, DecodeArrayIndex);
      } else {
        NotInside(Meaning(root), from, path);
      }
    }
  }

  lemma MoveOntoRoot(root: Json, from: seq<string>, caseSensitive: bool)
    ensures var d := DetachPath(root, PathText(from), caseSensitive);
            d.item.Some? ==> AddAt(d.root, PathText([]), d.item.value, caseSensitive).status != 0
    ensures Relocate(Meaning(root), from, [], DecodeArrayIndex) == Get(Meaning(root), from, DecodeArrayIndex)
    ensures !MovesIntoNext(Meaning(root), from, [], DecodeArrayIndex)
  {
    hide DetachPath, Get;
    var d := DetachPath(root, PathText(from), caseSensitive);
    if d.item.Some? {
      NothingAtRoot(d.root, d.item.value, caseSensitive);
    }
    var x := Get(Meaning(root), from, DecodeArrayIndex);
    if x.Some? {
      FoundRemovable(Meaning(root), from, DecodeArrayIndex);
      ChangeRoot(ChangeAt(Meaning(root), from, Remove, DecodeArrayIndex).value, x.value);
    }
  }

  lemma DetachThenAdd(root: Json, from: seq<string>, path: seq<string>, caseSensitive: bool)
    requires PlainTree(root) && PlainPath(from) && PlainPath(path) && path != []
    ensures var d := DetachPath(root, PathText(from), caseSensitive);
            Matches(if d.item.None? then Applied(root, 5)
                else AddAt(d.root, PathText(path), d.item.value, caseSensitive),
                    Relocate(Meaning(root), from, path, DecodeArrayIndex))
  {
    if from == [] {
      assert LastSlash("") == None;
      assert ChangeAt(Meaning(root), [], Remove, DecodeArrayIndex) == Some(VInvalid);
    } else {
      DetachMatches(root, from, caseSensitive);
      var d := DetachPath(root, PathText(from), caseSensitive);
      if d.item.Some? {
        AddMatches(d.root, path, d.item.value, caseSensitive);
      }
    }
  }

  /** Removing and then adding at one place is replacing. */
  lemma ReplaceMatches(root: Json, path: seq<string>, patch: Json, x: Value, caseSensitive: bool)
    requires PlainTree(root) && PlainPath(path) && path != []
    requires var v := GetObjectItem(patch, "value", caseSensitive);
             v.Some? && Meaning(v.value) == x && PlainTree(v.value)
    ensures var r := ApplyRemove(root, PathText(path), caseSensitive);
            Matches(if r.status != 0 then r else ApplyAdd(r.root, PathText(path), patch, caseSensitive),
                    ChangeAt(Meaning(root), path, Replace(x), DecodeArrayIndex))
  {
    DetachMatches(root, path, caseSensitive);
    var d := DetachPath(root, PathText(path), caseSensitive);
    RemoveThenAdd(Meaning(root), path, x, DecodeArrayIndex);
    if d.item.Some? {
      AddMatches(d.root, path, GetObjectItem(patch, "value", caseSensitive).value, caseSensitive);
    }
  }

  lemma {:induction false} RemoveThenAdd(v: Value, path: seq<string>, x: Value, ix: IndexReader)
    requires path != [] && ix("-") == None
    ensures ChangeAt(v, path, Replace(x), ix) ==
            match ChangeAt(v, path, Remove, ix)
            case None => None
            case Some(w) => ChangeAt(w, path, Add(x), ix)
    decreases |path|
  {
    if |path| == 1 {
      RemoveThenAddHere(v, path[0], x, ix);
    } else {
      hide ChangeMember;
      var c := Select(v, path[0], ix);
      if c.Some? {
        RemoveThenAdd(c.value, path[1..], x, ix);
        var d := ChangeAt(c.value, path[1..], Remove, ix);
        if d.Some? {
          var w := Exchange(v, path[0], d.value, ix);
          assert Select(w, path[0], ix) == Some(d.value);
          var e := ChangeAt(d.value, path[1..], Add(x), ix);
          if e.Some? {
            assert Exchange(w, path[0], e.value, ix) == Exchange(v, path[0], e.value, ix);
          }
        }
      }
    }
  }

  lemma RemoveThenAddHere(v: Value, token: string, x: Value, ix: IndexReader)
    requires ix("-") == None
    ensures ChangeMember(v, token, Replace(x), ix) ==
            match ChangeMember(v, token, Remove, ix)
            case None => None
            case Some(w) => ChangeMember(w, token, Add(x), ix)
  {
    if v.VArray? {
      var i := ix(token);
      if i.Some? && i.value < |v.items| {
        var w := v.items[..i.value] + v.items[i.value + 1..];
        assert w[..i.value] + [x] + w[i.value..] == v.items[i.value := x];
      }
    } else if v.VObject? && token in v.members {
      assert (v.members - {token})[token := x] == v.members[token := x];
    }
  }

  /** Conformance in the standard's own terms: along paths whose array indices the code reads right. */
  lemma ApplyPatchConforms(root: Json, patch: Json, op: Operation, caseSensitive: bool)
    requires PlainTree(root) && Encodes(patch, op) && RegularOperation(Meaning(root), op)
    ensures Matches(ApplyPatch(root, patch, caseSensitive), Perform(Meaning(root), op, StandardIndex))
            <==> !Departs(Meaning(root), op, StandardIndex)
  {
    hide Perform, Departs, ApplyPatch;
    ApplyPatchMatches(root, patch, op, caseSensitive);
    RegularPerform(Meaning(root), op);
  }

  /** Whatever the standard says to it, a move is carried out as a removal and an addition. */
  lemma MoveRelocates(root: Json, patch: Json, from: seq<string>, path: seq<string>, caseSensitive: bool)
    requires PlainTree(root) && Encodes(patch, Move(from, path)) && path != []
    ensures Matches(ApplyPatch(root, patch, caseSensitive), Relocate(Meaning(root), from, path, DecodeArrayIndex))
  {
    hide DetachPath, AddAt, PathText, GetObjectItem, Relocate, PlainTree, Matches;
    ItemOfPatch(patch, "from", VString(PathText(from)), caseSensitive);
    ReadPatch(patch, Move(from, path), caseSensitive);
    DetachThenAdd(root, from, path, caseSensitive);
  }

  /** Moving an element into the one behind it: an error by the standard, carried out by the library. */
  lemma MoveIntoNext(patch: Json, caseSensitive: bool)
    requires Encodes(patch, Move(["0"], ["0", "x"]))
    ensures var root := Array([Number(1), Object([])]);
            var r := ApplyPatch(root, patch, caseSensitive);
            && r.status == 0 && Meaning(r.root) == VArray([VObject(map["x" := VNumber(1)])])
            && Perform(Meaning(root), Move(["0"], ["0", "x"]), StandardIndex) == None
  {
    hide Relocate, Encodes, ApplyPatch;
    MoveRelocates(Array([Number(1), Object([])]), patch, ["0"], ["0", "x"], caseSensitive);
    FirstIntoSecond();
  }

  lemma FirstIntoSecond()
    ensures Relocate(Meaning(Array([Number(1), Object([])])), ["0"], ["0", "x"], DecodeArrayIndex)
         == Some(VArray([VObject(map["x" := VNumber(1)])]))
  {
    hide DecodeArrayIndex, ChangeAt, Get;
    var v := VArray([VNumber(1), VObject(map[])]);
    assert Meaning(Array([Number(1), Object([])])) == v;
    ZeroIndex();
    TakeFirst(v.items);
    AddInFirst(VObject(map[]), "x", VNumber(1));
    assert map[]["x" := VNumber(1)] == map["x" := VNumber(1)];
  }

  lemma ZeroIndex()
    ensures DecodeArrayIndex("0") == Some(0)
  {
    DecimalIndex(0, "");
    assert Decimal(0) + "" == "0";
  }

  lemma TakeFirst(items: seq<Value>)
    requires items != [] && DecodeArrayIndex("0") == Some(0)
    ensures Get(VArray(items), ["0"], DecodeArrayIndex) == Some(items[0])
    ensures ChangeAt(VArray(items), ["0"], Remove, DecodeArrayIndex) == Some(VArray(items[1..]))
  {
    hide DecodeArrayIndex;
    assert ["0"][1..] == [] && items[..0] + items[1..] == items[1..];
  }

  lemma AddInFirst(c: Value, key: string, x: Value)
    requires c.VObject? && DecodeArrayIndex("0") == Some(0)
    ensures ChangeAt(VArray([c]), ["0", key], Add(x), DecodeArrayIndex) == Some(VArray([VObject(c.members[key := x])]))
  {
    hide DecodeArrayIndex;
    assert ["0", key][1..] == [key];
    var d := ChangeAt(c, [key], Add(x), DecodeArrayIndex);
    assert d == Some(VObject(c.members[key := x]));
    assert [c][0 := d.value] == [d.value];
  }
}
