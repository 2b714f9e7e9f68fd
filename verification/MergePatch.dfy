/** JSON Merge Patch (RFC 7396): applying and generating. */
module MergePatching {
  // The functions are merge_patch and generate_merge_patch.

  import opened CStrings
  import opened JsonTree
  import opened KeySort
  import opened Comparison
  import opened Pointers
  import opened Patching
  import opened PatchRefinement
  import opened PatchGeneration

  // ----- the standard -----

  /** The members of a target; a target that is no object counts as an empty one. */
  function MapOf(target: Option<Value>): map<string, Value> {
    match target
    case Some(VObject(m)) => m
    case _ => map[]
  }

  function Entry(m: map<string, Value>, k: string): Option<Value> {
    if k in m then Some(m[k]) else None
  }

  /** MergePatch of section 2 of RFC 7396, all members of the patch taken at once. */
  function MergeValue(target: Option<Value>, patch: Value): Value
    decreases patch
  {
    if !patch.VObject? then patch
    else
      var t := MapOf(target);
      VObject(map k | k in t.Keys + patch.members.Keys && !(k in patch.members && patch.members[k].VNull?) ::
                if k in patch.members then MergeValue(Entry(t, k), patch.members[k]) else t[k])
  }

  /** The same on the members of two objects. */
  function MergeMaps(t: map<string, Value>, p: map<string, Value>): (r: map<string, Value>)
    ensures forall k :: k in r <==> if k in p then !p[k].VNull? else k in t
    ensures forall k :: k in r ==> r[k] == (if k in p then MergeValue(Entry(t, k), p[k]) else t[k])
  {
    assert MapOf(Some(VObject(t))) == t;
    MergeValue(Some(VObject(t)), VObject(p)).members
  }

  lemma MergeObjects(target: Option<Value>, p: map<string, Value>)
    ensures MergeValue(target, VObject(p)) == VObject(MergeMaps(MapOf(target), p))
  {
  }

  /** Applying a merge patch twice is applying it once. */
  lemma {:induction false} MergeIdempotent(target: Option<Value>, patch: Value)
    ensures MergeValue(Some(MergeValue(target, patch)), patch) == MergeValue(target, patch)
    decreases patch
  {
    if patch.VObject? {
      var t, p := MapOf(target), patch.members;
      var once := MergeMaps(t, p);
      MergeObjects(target, p);
      MergeObjects(Some(VObject(once)), p);
      forall k | k in p && !p[k].VNull?
        ensures MergeValue(Some(once[k]), p[k]) == once[k]
      {
        MergeIdempotent(Entry(t, k), p[k]);
      }
      assert MergeMaps(once, p) == once;
    }
  }

  // ----- merge_patch -----

  /** merge_patch on a target that may be missing. */
  function MergePatch(target: Option<Json>, patch: Json, caseSensitive: bool): Json
    decreases patch
  {
    if !patch.Object? then patch
    else Object(MergeMembers(MembersOf(target), patch.members, caseSensitive))
  }

  function MembersOf(target: Option<Json>): seq<Member> {
    match target
    case Some(Object(ms)) => ms
    case _ => []
  }

  /** The target's members without the first one a key finds, and that one's node. */
  function Without(ms: seq<Member>, key: string, caseSensitive: bool): seq<Member> {
    var i := FindKey(ms, key, caseSensitive);
    if i < |ms| then RemoveAt(ms, i) else ms
  }

  function Item(ms: seq<Member>, key: string, caseSensitive: bool): Option<Json> {
    var i := FindKey(ms, key, caseSensitive);
    if i < |ms| then Some(ms[i].val) else None
  }

  /** One patch member: null deletes; anything else is detached, merged and appended again. */
  function MergeMembers(ms: seq<Member>, ps: seq<Member>, caseSensitive: bool): seq<Member>
    decreases ps
  {
    if ps == [] then ms
    else
      var p := ps[0];
      var rest := Without(ms, p.key, caseSensitive);
      if p.val.Null? then MergeMembers(rest, ps[1..], caseSensitive)
      else
        var merged := MergePatch(Item(ms, p.key, caseSensitive), p.val, caseSensitive);
        MergeMembers(rest + [Member(p.key, merged)], ps[1..], caseSensitive)
  }

  /** The loop over the patch's children. */
  method MergePatchLoop(target: Option<Json>, patch: Json, caseSensitive: bool) returns (r: Json)
    ensures r == MergePatch(target, patch, caseSensitive)
    decreases patch
  {
    if !patch.Object? {
      return patch;
    }
    var members := MembersOf(target);
    var i := 0;
    while i < |patch.members|
      invariant i <= |patch.members|
      invariant MergeMembers(MembersOf(target), patch.members, caseSensitive)
             == MergeMembers(members, patch.members[i..], caseSensitive)
    {
      var p := patch.members[i];
      assert patch.members[i..][1..] == patch.members[i + 1..];
      var detached := Item(members, p.key, caseSensitive);
      members := Without(members, p.key, caseSensitive);
      if !p.val.Null? {
        var replacement := MergePatchLoop(detached, p.val, caseSensitive);
        members := members + [Member(p.key, replacement)];
      }
      i := i + 1;
    }
    return Object(members);
  }

  /** A key that lookups under this case mode take for itself only. */
  ghost predicate ExactKey(s: string, caseSensitive: bool) {
    NulFree(s) && FoldAll(s, caseSensitive) == s
  }

  /** Every object has distinct keys, exact under the case mode: any keys when case counts, keys
      without capitals when it does not. */
  ghost predicate Keyed(v: Json, caseSensitive: bool) {
    match v
    case Array(items) => forall i :: 0 <= i < |items| ==> Keyed(items[i], caseSensitive)
    case Object(ms) => KeyedMembers(ms, caseSensitive)
    case _ => true
  }

  ghost predicate KeyedMembers(ms: seq<Member>, caseSensitive: bool) {
    && UniqueKeys(ms)
    && forall i :: 0 <= i < |ms| ==> ExactKey(ms[i].key, caseSensitive) && Keyed(ms[i].val, caseSensitive)
  }

  lemma {:induction false} FindKeyKeyed(ms: seq<Member>, key: string, caseSensitive: bool)
    requires ExactKey(key, caseSensitive) && KeyedMembers(ms, caseSensitive)
    ensures FindKey(ms, key, caseSensitive) == Find(ms, key)
  {
    if ms != [] {
      CompareZero(key, ms[0].key, caseSensitive);
      FindKeyKeyed(ms[1..], key, caseSensitive);
    }
  }

  lemma RemovalKeyed(ms: seq<Member>, i: nat, caseSensitive: bool)
    requires i < |ms| && KeyedMembers(ms, caseSensitive)
    ensures KeyedMembers(RemoveAt(ms, i), caseSensitive)
    ensures forall j :: 0 <= j < |ms| - 1 ==> RemoveAt(ms, i)[j].key != ms[i].key
  {
    var r := RemoveAt(ms, i);
    assert forall j :: 0 <= j < |r| ==> r[j] == ms[if j < i then j else j + 1];
  }

  lemma WithoutMeaning(ms: seq<Member>, key: string, caseSensitive: bool)
    requires KeyedMembers(ms, caseSensitive) && ExactKey(key, caseSensitive)
    ensures var r := Without(ms, key, caseSensitive);
            && KeyedMembers(r, caseSensitive) && MembersMeaning(r) == MembersMeaning(ms) - {key}
            && forall j :: 0 <= j < |r| ==> r[j].key != key
    ensures match Item(ms, key, caseSensitive)
            case None => Entry(MembersMeaning(ms), key) == None
            case Some(v) => Entry(MembersMeaning(ms), key) == Some(Meaning(v)) && Keyed(v, caseSensitive)
  {
    FindKeyKeyed(ms, key, caseSensitive);
    MeaningOfMember(ms, key);
    var i := Find(ms, key);
    if i < |ms| {
      RemovalKeyed(ms, i, caseSensitive);
      MeaningOfRemoval(ms, i);
    }
  }

  lemma AppendKeyed(ms: seq<Member>, m: Member, caseSensitive: bool)
    requires KeyedMembers(ms, caseSensitive) && ExactKey(m.key, caseSensitive) && Keyed(m.val, caseSensitive)
    requires forall j :: 0 <= j < |ms| ==> ms[j].key != m.key
    ensures KeyedMembers(ms + [m], caseSensitive)
  {
  }

  ghost function MeaningOf(v: Option<Json>): Option<Value> {
    match v case None => None case Some(x) => Some(Meaning(x))
  }

  /** merge_patch computes the standard's MergePatch, for every target and patch with distinct keys. */
  lemma {:induction false} MergePatchConforms(target: Option<Json>, patch: Json, caseSensitive: bool)
    requires Keyed(patch, caseSensitive) && (target.Some? ==> Keyed(target.value, caseSensitive))
    ensures Keyed(MergePatch(target, patch, caseSensitive), caseSensitive)
    ensures Meaning(MergePatch(target, patch, caseSensitive)) == MergeValue(MeaningOf(target), Meaning(patch))
    decreases patch
  {
    if patch.Object? {
      MergeMembersConform(MembersOf(target), patch.members, caseSensitive);
      MergeObjects(MeaningOf(target), MembersMeaning(patch.members));
    }
  }

  lemma {:induction false} MergeMembersConform(ms: seq<Member>, ps: seq<Member>, caseSensitive: bool)
    requires KeyedMembers(ms, caseSensitive) && KeyedMembers(ps, caseSensitive)
    ensures KeyedMembers(MergeMembers(ms, ps, caseSensitive), caseSensitive)
    ensures MembersMeaning(MergeMembers(ms, ps, caseSensitive)) == MergeMaps(MembersMeaning(ms), MembersMeaning(ps))
    decreases ps
  {
    if ps == [] {
      assert MergeMaps(MembersMeaning(ms), map[]) == MembersMeaning(ms);
    } else {
      var p := ps[0];
      var rest := Without(ms, p.key, caseSensitive);
      WithoutMeaning(ms, p.key, caseSensitive);
      if p.val.Null? {
        MergeMembersConform(rest, ps[1..], caseSensitive);
        DeleteFirst(MembersMeaning(ms), ps);
      } else {
        var item := Item(ms, p.key, caseSensitive);
        MergePatchConforms(item, p.val, caseSensitive);
        var m := Member(p.key, MergePatch(item, p.val, caseSensitive));
        AppendKeyed(rest, m, caseSensitive);
        MeaningOfAppend(rest, m);
        MergeMembersConform(rest + [m], ps[1..], caseSensitive);
        MergeFirst(MembersMeaning(ms), ps);
      }
    }
  }

  lemma HeadIsNew(ps: seq<Member>)
    requires ps != [] && UniqueKeys(ps)
    ensures ps[0].key !in MembersMeaning(ps[1..])
  {
    MeaningOfMember(ps[1..], ps[0].key);
    assert Find(ps[1..], ps[0].key) == |ps| - 1;
  }

  /** Taking a deletion first. */
  lemma DeleteFirst(t: map<string, Value>, ps: seq<Member>)
    requires ps != [] && UniqueKeys(ps) && ps[0].val.Null?
    ensures MergeMaps(t, MembersMeaning(ps)) == MergeMaps(t - {ps[0].key}, MembersMeaning(ps[1..]))
  {
    HeadIsNew(ps);
    var p, q, k := MembersMeaning(ps), MembersMeaning(ps[1..]), ps[0].key;
    var u := t - {k};
    var a, b := MergeMaps(t, p), MergeMaps(u, q);
    assert Meaning(ps[0].val) == VNull;
    assert p == q[k := VNull] && k !in q;
    forall x: string
      ensures x in a <==> x in b
      ensures x in a ==> a[x] == b[x]
    {
      assert x != k ==> Entry(t, x) == Entry(u, x);
    }
  }

  /** Taking a merge first. */
  lemma MergeFirst(t: map<string, Value>, ps: seq<Member>)
    requires ps != [] && UniqueKeys(ps) && !ps[0].val.Null?
    ensures var k := ps[0].key;
            var merged := MergeValue(Entry(t, k), Meaning(ps[0].val));
            MergeMaps(t, MembersMeaning(ps)) == MergeMaps((t - {k})[k := merged], MembersMeaning(ps[1..]))
  {
    HeadIsNew(ps);
    var p, q, k := MembersMeaning(ps), MembersMeaning(ps[1..]), ps[0].key;
    var u := (t - {k})[k := MergeValue(Entry(t, k), Meaning(ps[0].val))];
    var a, b := MergeMaps(t, p), MergeMaps(u, q);
    assert p == q[k := Meaning(ps[0].val)] && k !in q;
    forall x: string
      ensures x in a <==> x in b
      ensures x in a ==> a[x] == b[x]
    {
      assert x != k ==> Entry(t, x) == Entry(u, x);
    }
  }

  /** So merging a patch in twice changes nothing the second time. */
  lemma MergeTwice(target: Option<Json>, patch: Json, caseSensitive: bool)
    requires Keyed(patch, caseSensitive) && (target.Some? ==> Keyed(target.value, caseSensitive))
    ensures var once := MergePatch(target, patch, caseSensitive);
            Meaning(MergePatch(Some(once), patch, caseSensitive)) == Meaning(once)
  {
    var once := MergePatch(target, patch, caseSensitive);
    MergePatchConforms(target, patch, caseSensitive);
    MergePatchConforms(Some(once), patch, caseSensitive);
    MergeIdempotent(MeaningOf(target), Meaning(patch));
  }

  // ----- generate_merge_patch -----

  /** None is the null pointer: there is nothing to change. The recursion goes on without regard to
      case, whatever the flag. */
  function GenerateMergePatch(from: Json, to: Json, caseSensitive: bool): Option<Json>
    decreases Depth(from), 0, 0
  {
    if !to.Object? || !from.Object? then Some(to)
    else
      var ms := PatchJoin(SortMembers(from.members, caseSensitive), SortMembers(to.members, caseSensitive),
          caseSensitive);
      if ms == [] then None else Some(Object(ms))
  }

  /** The members of the patch; this join always compares with strcmp. */
  function PatchJoin(from: seq<Member>, to: seq<Member>, caseSensitive: bool): seq<Member>
    decreases MembersDepth(from), 1, |from| + |to|
  {
    if from == [] && to == [] then []
    else
      var diff := JoinOrder(from, to, true);
      if diff < 0 then [Member(from[0].key, Null)] + PatchJoin(from[1..], to, caseSensitive)
      else if diff > 0 then [to[0]] + PatchJoin(from, to[1..], caseSensitive)
      else Difference(from[0].val, to[0], caseSensitive) + PatchJoin(from[1..], to[1..], caseSensitive)
  }

  /** What a key that both objects have contributes; a missing patch adds no member. */
  function Difference(from: Json, to: Member, caseSensitive: bool): seq<Member>
    decreases Depth(from), 1, 0
  {
    if CompareJson(from, to.val, caseSensitive) then []
    else
      match GenerateMergePatch(from, to.val, false)
      case None => []
      case Some(patch) => [Member(to.key, patch)]
  }

  method GenerateMergePatchLoop(from: Json, to: Json, caseSensitive: bool) returns (r: Option<Json>)
    ensures r == GenerateMergePatch(from, to, caseSensitive)
    decreases Depth(from), 0
  {
    if !to.Object? || !from.Object? {
      return Some(to);
    }
    hide CompareJson, SortMembers, PatchJoin, JoinOrder, Difference;
    var fs, ts := SortMembers(from.members, caseSensitive), SortMembers(to.members, caseSensitive);
    var i, j, patch := 0, 0, [];
    ghost var goal := PatchJoin(fs, ts, caseSensitive);
    while i < |fs| || j < |ts|
      invariant i <= |fs| && j <= |ts| && goal == patch + PatchJoin(fs[i..], ts[j..], caseSensitive)
      decreases |fs| - i + |ts| - j
    {
      JoinTurn(fs, ts, i, j, caseSensitive);
      ghost var before := patch;
      var diff, one := JoinOrder(fs[i..], ts[j..], true), [];
      if diff < 0 {
        one := [Member(fs[i].key, Null)];
        i := i + 1;
      } else if diff > 0 {
        one := [ts[j]];
        j := j + 1;
      } else {
        one := DifferenceLoop(fs[i].val, ts[j], caseSensitive);
        i, j := i + 1, j + 1;
      }
      patch := patch + one;
      AssociateMembers(before, one, PatchJoin(fs[i..], ts[j..], caseSensitive));
    }
    JoinedNothing(patch, fs[i..], ts[j..], caseSensitive);
    return if patch == [] then None else Some(Object(patch));
  }

  /** A key that both objects have. */
  method DifferenceLoop(from: Json, to: Member, caseSensitive: bool) returns (one: seq<Member>)
    ensures one == Difference(from, to, caseSensitive)
    decreases Depth(from), 1
  {
    hide CompareJson;
    if CompareJson(from, to.val, caseSensitive) {
      return [];
    }
    var p := GenerateMergePatchLoop(from, to.val, false);
    return if p.Some? then [Member(to.key, p.value)] else [];
  }

  /** One turn of the join. */
  lemma JoinTurn(fs: seq<Member>, ts: seq<Member>, i: nat, j: nat, caseSensitive: bool)
    requires i <= |fs| && j <= |ts| && (i < |fs| || j < |ts|)
    ensures var diff := JoinOrder(fs[i..], ts[j..], true);
            PatchJoin(fs[i..], ts[j..], caseSensitive) ==
            if diff < 0 then [Member(fs[i].key, Null)] + PatchJoin(fs[i + 1..], ts[j..], caseSensitive)
            else if diff > 0 then [ts[j]] + PatchJoin(fs[i..], ts[j + 1..], caseSensitive)
            else Difference(fs[i].val, ts[j], caseSensitive) + PatchJoin(fs[i + 1..], ts[j + 1..], caseSensitive)
    ensures i < |fs| ==> Depth(fs[i].val) <= MembersDepth(fs)
  {
    hide Difference, Compare, MembersDepth;
    assert i < |fs| ==> fs[i..][1..] == fs[i + 1..];
    assert j < |ts| ==> ts[j..][1..] == ts[j + 1..];
  }

  lemma JoinedNothing(patch: seq<Member>, fs: seq<Member>, ts: seq<Member>, caseSensitive: bool)
    requires fs == [] && ts == []
    ensures patch + PatchJoin(fs, ts, caseSensitive) == patch
  {
  }

  lemma AssociateMembers(a: seq<Member>, b: seq<Member>, c: seq<Member>)
    ensures a + (b + c) == (a + b) + c
  {
  }

  // ----- what a generated patch means -----

  /** The difference of two values as a patch, on meanings; an empty object where both are equal
      objects. */
  function DifferenceValue(f: Value, t: Value): Value
    decreases t
  {
    if !f.VObject? || !t.VObject? then t
    else
      VObject(map k | k in f.members.Keys + t.members.Keys && Entry(f.members, k) != Entry(t.members, k) ::
                if k !in t.members then VNull
                else if k !in f.members then t.members[k]
                else DifferenceValue(f.members[k], t.members[k]))
  }

  function DifferenceMaps(f: map<string, Value>, t: map<string, Value>): (r: map<string, Value>)
    ensures forall k :: k in r <==> Entry(f, k) != Entry(t, k)
    ensures forall k :: k in r ==>
      r[k] == (if k !in t then VNull else if k !in f then t[k] else DifferenceValue(f[k], t[k]))
  {
    DifferenceValue(VObject(f), VObject(t)).members
  }

  /** There is nothing to say exactly when the objects are equal. */
  lemma NoDifference(f: map<string, Value>, t: map<string, Value>)
    ensures DifferenceMaps(f, t) == map[] <==> f == t
  {
    var d := DifferenceMaps(f, t);
    if d == map[] {
      forall k: string
        ensures k in f <==> k in t
        ensures k in f ==> f[k] == t[k]
      {
        assert k !in d;
        assert Entry(f, k) == Entry(t, k);
      }
    }
  }

  /** generate_merge_patch on plain trees: the null pointer for equal objects, else the difference. */
  lemma {:induction false} GeneratedMeaning(from: Json, to: Json, caseSensitive: bool)
    requires PlainTree(from) && PlainTree(to)
    ensures var g := GenerateMergePatch(from, to, caseSensitive);
            && (g.None? <==> from.Object? && Meaning(from) == Meaning(to))
            && (g.Some? ==> PlainTree(g.value) && Meaning(g.value) == DifferenceValue(Meaning(from), Meaning(to)))
    decreases Depth(from), 0, 0
  {
    if from.Object? && to.Object? {
      var f, t := SortMembers(from.members, caseSensitive), SortMembers(to.members, caseSensitive);
      SortPlain(from.members, caseSensitive);
      SortPlain(to.members, caseSensitive);
      JoinMeaning(f, t, caseSensitive);
      NoDifference(MembersMeaning(f), MembersMeaning(t));
      NonemptyMeaning(PatchJoin(f, t, caseSensitive));
    }
  }

  lemma {:induction false} JoinMeaning(from: seq<Member>, to: seq<Member>, caseSensitive: bool)
    requires PlainMembers(from) && PlainMembers(to) && InOrder(from) && InOrder(to)
    ensures PlainMembers(PatchJoin(from, to, caseSensitive))
    ensures MembersMeaning(PatchJoin(from, to, caseSensitive))
        == DifferenceMaps(MembersMeaning(from), MembersMeaning(to))
    decreases MembersDepth(from), 1, |from| + |to|
  {
    hide CompareJson, GenerateMergePatch;
    if from != [] || to != [] {
      var diff := JoinOrder(from, to, true);
      AbsentKey(from, to, true);
      if diff < 0 {
        JoinMeaning(from[1..], to, caseSensitive);
        HeadOfMeaning(from);
        DifferenceWithFirst(MembersMeaning(from[1..]), MembersMeaning(to), from[0].key, Meaning(from[0].val));
        PrependMeaning([Member(from[0].key, Null)], PatchJoin(from[1..], to, caseSensitive), from[0].key);
      } else if diff > 0 {
        JoinMeaning(from, to[1..], caseSensitive);
        HeadOfMeaning(to);
        DifferenceWithSecond(MembersMeaning(from), MembersMeaning(to[1..]), to[0].key, Meaning(to[0].val));
        PrependMeaning([to[0]], PatchJoin(from, to[1..], caseSensitive), to[0].key);
      } else {
        JoinMeaning(from[1..], to[1..], caseSensitive);
        CompareJsonDecides(from[0].val, to[0].val, caseSensitive);
        if !CompareJson(from[0].val, to[0].val, caseSensitive) {
          GeneratedMeaning(from[0].val, to[0].val, false);
        }
        JoinBoth(from, to, caseSensitive);
      }
    } else {
      NoDifference(map[], map[]);
    }
  }

  /** The step of the join on a key both objects have. */
  lemma JoinBoth(from: seq<Member>, to: seq<Member>, caseSensitive: bool)
    requires PlainMembers(from) && PlainMembers(to) && InOrder(from) && InOrder(to)
    requires (from != [] || to != []) && JoinOrder(from, to, true) == 0
    requires PlainMembers(PatchJoin(from[1..], to[1..], caseSensitive))
    requires MembersMeaning(PatchJoin(from[1..], to[1..], caseSensitive))
        == DifferenceMaps(MembersMeaning(from[1..]), MembersMeaning(to[1..]))
    requires var f, t := from[0].val, to[0].val;
             && (CompareJson(f, t, caseSensitive) <==> Meaning(f) == Meaning(t))
             && var g := GenerateMergePatch(f, t, false);
             Meaning(f) != Meaning(t) ==>
               g.Some? && PlainTree(g.value) && Meaning(g.value) == DifferenceValue(Meaning(f), Meaning(t))
    ensures PlainMembers(PatchJoin(from, to, caseSensitive))
    ensures MembersMeaning(PatchJoin(from, to, caseSensitive))
        == DifferenceMaps(MembersMeaning(from), MembersMeaning(to))
  {
    hide CompareJson, GenerateMergePatch, DifferenceMaps, DifferenceValue, MembersMeaning, PlainTree, InOrder, Compare,
         Difference, Meaning;
    var key, f, t := to[0].key, from[0].val, to[0].val;
    ComparePlain(from[0].key, key, true);
    OneDifference(f, to[0], caseSensitive);
    JoinUnfolds(from, to, caseSensitive);
    HeadEntry(from);
    HeadEntry(to);
    DifferenceWithBoth(MembersMeaning(from[1..]), MembersMeaning(to[1..]), key, Meaning(f), Meaning(t));
    PrependMeaning(Difference(f, to[0], caseSensitive), PatchJoin(from[1..], to[1..], caseSensitive), key);
  }

  lemma JoinUnfolds(from: seq<Member>, to: seq<Member>, caseSensitive: bool)
    requires (from != [] || to != []) && JoinOrder(from, to, true) == 0
    ensures PatchJoin(from, to, caseSensitive)
         == Difference(from[0].val, to[0], caseSensitive) + PatchJoin(from[1..], to[1..], caseSensitive)
  {
  }

  lemma HeadEntry(ms: seq<Member>)
    requires ms != [] && PlainMembers(ms)
    ensures ms[0].key !in MembersMeaning(ms[1..])
    ensures MembersMeaning(ms) == MembersMeaning(ms[1..])[ms[0].key := Meaning(ms[0].val)]
  {
    HeadOfMeaning(ms);
  }

  /** What a key that both objects have contributes, in terms of the values. */
  lemma OneDifference(f: Json, m: Member, caseSensitive: bool)
    requires Plain(m.key) && (CompareJson(f, m.val, caseSensitive) <==> Meaning(f) == Meaning(m.val))
    requires var g := GenerateMergePatch(f, m.val, false);
             Meaning(f) != Meaning(m.val) ==>
               g.Some? && PlainTree(g.value) && Meaning(g.value) == DifferenceValue(Meaning(f), Meaning(m.val))
    ensures var one := Difference(f, m, caseSensitive);
            && |one| <= 1 && PlainMembers(one) && (one == [] <==> Meaning(f) == Meaning(m.val))
            && (one != [] ==> one[0].key == m.key && Meaning(one[0].val) == DifferenceValue(Meaning(f), Meaning(m.val)))
  {
    hide CompareJson, GenerateMergePatch, DifferenceValue, Plain, Meaning;
  }

  /** At most one member put before others that do not have its key. */
  lemma PrependMeaning(one: seq<Member>, rest: seq<Member>, key: string)
    requires |one| <= 1 && PlainMembers(one) && PlainMembers(rest) && key !in MembersMeaning(rest)
    requires one != [] ==> one[0].key == key
    ensures PlainMembers(one + rest)
    ensures MembersMeaning(one + rest) == if one == [] then MembersMeaning(rest)
        else MembersMeaning(rest)[key := Meaning(one[0].val)]
  {
    MeaningOfMember(rest, key);
    if one == [] {
      assert one + rest == rest;
    } else {
      var s := one + rest;
      assert s[0] == one[0] && s[1..] == rest;
      assert forall i :: 1 <= i < |s| ==> s[i] == rest[i - 1];
    }
  }

  /** The difference when one key is given to the first, to the second, or to both maps. */
  lemma DifferenceWithFirst(g: map<string, Value>, u: map<string, Value>, k: string, a: Value)
    requires k !in g && k !in u
    ensures k !in DifferenceMaps(g, u) && DifferenceMaps(g[k := a], u) == DifferenceMaps(g, u)[k := VNull]
  {
    var d, rest := DifferenceMaps(g[k := a], u), DifferenceMaps(g, u)[k := VNull];
    forall x: string
      ensures x in d <==> x in rest
      ensures x in d ==> d[x] == rest[x]
    {
      assert x != k ==> Entry(g[k := a], x) == Entry(g, x);
    }
  }

  lemma DifferenceWithSecond(g: map<string, Value>, u: map<string, Value>, k: string, b: Value)
    requires k !in g && k !in u
    ensures k !in DifferenceMaps(g, u) && DifferenceMaps(g, u[k := b]) == DifferenceMaps(g, u)[k := b]
  {
    var d, rest := DifferenceMaps(g, u[k := b]), DifferenceMaps(g, u)[k := b];
    forall x: string
      ensures x in d <==> x in rest
      ensures x in d ==> d[x] == rest[x]
    {
      assert x != k ==> Entry(u[k := b], x) == Entry(u, x);
    }
  }

  lemma DifferenceWithBoth(g: map<string, Value>, u: map<string, Value>, k: string, a: Value, b: Value)
    requires k !in g && k !in u
    ensures k !in DifferenceMaps(g, u)
    ensures DifferenceMaps(g[k := a], u[k := b])
         == if a == b then DifferenceMaps(g, u) else DifferenceMaps(g, u)[k := DifferenceValue(a, b)]
  {
    hide DifferenceMaps, DifferenceValue;
    var d := DifferenceMaps(g[k := a], u[k := b]);
    var rest := if a == b then DifferenceMaps(g, u) else DifferenceMaps(g, u)[k := DifferenceValue(a, b)];
    forall x: string
      ensures x in d <==> x in rest
      ensures x in d ==> d[x] == rest[x]
    {
      assert x != k ==> Entry(g[k := a], x) == Entry(g, x) && Entry(u[k := b], x) == Entry(u, x);
    }
  }

  // ----- the round trip -----

  /** No null member reachable through objects only. */
  ghost predicate NullFree(v: Value) {
    v.VObject? ==> forall k :: k in v.members ==> !v.members[k].VNull? && NullFree(v.members[k])
  }

  /** A merge patch from f can reach t: nulls of t are where f already has the same member. */
  ghost predicate Reachable(f: Value, t: Value)
    decreases t
  {
    if !f.VObject? || !t.VObject? then NullFree(t)
    else
      forall k :: k in t.members ==>
        Entry(f.members, k) == Some(t.members[k])
        || (!t.members[k].VNull?
            && if k in f.members then Reachable(f.members[k], t.members[k]) else NullFree(t.members[k]))
  }

  /** Merging a value into something that is no object gives the value back unless it has a null to
      lose. */
  lemma {:induction false} MergeFresh(target: Option<Value>, v: Value)
    requires target.None? || !target.value.VObject?
    ensures MergeValue(target, v) == v <==> NullFree(v)
    decreases v
  {
    if v.VObject? {
      MergeObjects(target, v.members);
      var r := MergeMaps(map[], v.members);
      forall k | k in v.members
        ensures MergeValue(None, v.members[k]) == v.members[k] <==> NullFree(v.members[k])
      {
        MergeFresh(None, v.members[k]);
      }
      if r == v.members {
        forall k | k in v.members
          ensures !v.members[k].VNull? && NullFree(v.members[k])
        {
          assert k in r;
          assert Entry(map[], k) == None;
        }
      }
      if NullFree(v) {
        assert forall k :: k in v.members ==> Entry(map[], k) == None;
        assert r == v.members;
      }
    }
  }

  /** On meanings: merging the difference in reaches the goal exactly when it is reachable. */
  lemma {:induction false} DifferenceReaches(f: Value, t: Value)
    ensures MergeValue(Some(f), DifferenceValue(f, t)) == t <==> Reachable(f, t)
    decreases t, 0
  {
    if !f.VObject? || !t.VObject? {
      if t.VObject? {
        MergeFresh(Some(f), t);
      }
    } else {
      var fm, tm := f.members, t.members;
      var d := DifferenceMaps(fm, tm);
      MergeObjects(Some(f), d);
      var r := MergeMaps(fm, d);
      forall k | k in tm
        ensures (k in r && r[k] == tm[k]) <==>
                Entry(fm, k) == Some(tm[k])
                || (!tm[k].VNull? && if k in fm then Reachable(fm[k], tm[k]) else NullFree(tm[k]))
      {
        MemberReaches(fm, tm, k);
      }
      forall k | k !in tm
        ensures k !in r
      {
        assert k in fm ==> Entry(fm, k) != Entry(tm, k);
      }
      if Reachable(f, t) {
        assert r == tm;
      }
      assert r == tm ==> forall k :: k in tm ==> k in r && r[k] == tm[k];
    }
  }

  lemma {:induction false} MemberReaches(fm: map<string, Value>, tm: map<string, Value>, k: string)
    requires k in tm
    ensures var r := MergeMaps(fm, DifferenceMaps(fm, tm));
            (k in r && r[k] == tm[k]) <==>
            Entry(fm, k) == Some(tm[k])
            || (!tm[k].VNull? && if k in fm then Reachable(fm[k], tm[k]) else NullFree(tm[k]))
    decreases tm[k], 1
  {
    var d := DifferenceMaps(fm, tm);
    if Entry(fm, k) != Some(tm[k]) {
      assert Entry(tm, k) == Some(tm[k]);
      if k in fm {
        DifferenceReaches(fm[k], tm[k]);
        assert d[k].VNull? <==> tm[k].VNull?;
      } else {
        MergeFresh(None, tm[k]);
      }
    } else {
      assert k !in d;
    }
  }

  /** The law generate and merge are for, with its exact condition: the generated patch, merged into
      any document that means what `from` means, gives `to` up to member order exactly when the two
      are not equal objects and every null member of `to` (through objects) is already in `from`. On nodes
      the document's child lists must be well-formed. */
  lemma MergeRoundTrip(document: Json, from: Json, to: Json, generateSensitive: bool, mergeSensitive: bool)
    requires PlainTree(document) && PlainTree(from) && PlainTree(to) && Meaning(document) == Meaning(from)
    ensures var g := GenerateMergePatch(from, to, generateSensitive);
            (g.Some? && Meaning(MergePatch(Some(document), g.value, mergeSensitive)) == Meaning(to))
            <==> !(from.Object? && Meaning(from) == Meaning(to)) && Reachable(Meaning(from), Meaning(to))
  {
    var g := GenerateMergePatch(from, to, generateSensitive);
    GeneratedMeaning(from, to, generateSensitive);
    if g.Some? {
      PlainIsKeyed(document, mergeSensitive);
      PlainIsKeyed(g.value, mergeSensitive);
      MergePatchConforms(Some(document), g.value, mergeSensitive);
      DifferenceReaches(Meaning(from), Meaning(to));
    }
  }

  lemma {:induction false} PlainIsKeyed(v: Json, caseSensitive: bool)
    requires PlainTree(v)
    ensures Keyed(v, caseSensitive)
  {
    match v {
      case Array(items) =>
        forall i | 0 <= i < |items|
          ensures Keyed(items[i], caseSensitive)
        {
          PlainIsKeyed(items[i], caseSensitive);
        }
      case Object(ms) =>
        forall i | 0 <= i < |ms|
          ensures ExactKey(ms[i].key, caseSensitive) && Keyed(ms[i].val, caseSensitive)
        {
          PlainFold(ms[i].key, caseSensitive);
          PlainIsKeyed(ms[i].val, caseSensitive);
        }
      case _ =>
    }
  }
}
