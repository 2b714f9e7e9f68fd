/** Generating patches (create_patches and compose_patch). */
module PatchGeneration {
  import opened CStrings
  import opened JsonTree
  import opened KeySort
  import opened Comparison
  import opened Decimals
  import opened Pointers

  /** One patch object: "op", "path" and, if there is one, "value". */
  function PatchObject(operation: string, path: string, value: Option<Json>): Json {
    Object([Member("op", String(operation)), Member("path", String(path))]
           + (if value.Some? then [Member("value", value.value)] else []))
  }

  /** compose_patch with a suffix: the suffix becomes a further token. */
  function ComposePatch(operation: string, path: string, suffix: string, value: Option<Json>): Json {
    PatchObject(operation, path + ("/" + Token(suffix)), value)
  }

  function Replacement(path: string, value: Json): seq<Json> {
    [PatchObject("replace", path, Some(value))]
  }

  /** The patches create_patches appends for a pair of nodes. */
  function CreatePatches(path: string, from: Json, to: Json, caseSensitive: bool): seq<Json>
    decreases Depth(from), 0, 0
  {
    if !SameTag(from, to) then Replacement(path, to)
    else
      match from
      case Number(n) => if n != to.n then Replacement(path, to) else []
      case String(s) => if s != to.s then Replacement(path, to) else []
      case Array(items) => PatchItems(path, items, to.items, 0, caseSensitive)
      case Object(ms) =>
        PatchMembers(path, SortMembers(ms, caseSensitive), SortMembers(to.members, caseSensitive), caseSensitive)
      case _ => []
  }

  /** Elements both arrays have are compared in place; what `from` has more is removed at one and the
      same index, what `to` has more is appended. */
  function PatchItems(path: string, from: seq<Json>, to: seq<Json>, index: nat, caseSensitive: bool): seq<Json>
    decreases ItemsDepth(from), 1, |from| + |to|
  {
    if from != [] && to != [] then
      CreatePatches(path + ("/" + Decimal(index)), from[0], to[0], caseSensitive)
      + PatchItems(path, from[1..], to[1..], index + 1, caseSensitive)
    else if from != [] then
      [ComposePatch("remove", path, Decimal(index), None)] + PatchItems(path, from[1..], to, index, caseSensitive)
    else if to != [] then
      [ComposePatch("add", path, "-", Some(to[0]))] + PatchItems(path, from, to[1..], index + 1, caseSensitive)
    else []
  }

  /** The join of two sorted member lists. */
  function PatchMembers(path: string, from: seq<Member>, to: seq<Member>, caseSensitive: bool): seq<Json>
    decreases MembersDepth(from), 1, |from| + |to|
  {
    if from == [] && to == [] then []
    else
      var diff := JoinOrder(from, to, caseSensitive);
      if diff == 0 then
        CreatePatches(path + ("/" + Token(from[0].key)), from[0].val, to[0].val, caseSensitive)
        + PatchMembers(path, from[1..], to[1..], caseSensitive)
      else if diff < 0 then
        [ComposePatch("remove", path, from[0].key, None)] + PatchMembers(path, from[1..], to, caseSensitive)
      else
        [ComposePatch("add", path, to[0].key, Some(to[0].val))] + PatchMembers(path, from, to[1..], caseSensitive)
  }

  /** Which list's head comes first; the end of a list comes after every key. */
  function JoinOrder(from: seq<Member>, to: seq<Member>, caseSensitive: bool): (diff: int)
    requires from != [] || to != []
    ensures diff <= 0 ==> from != []
    ensures diff >= 0 ==> to != []
  {
    if from == [] then 1 else if to == [] then -1 else Compare(from[0].key, to[0].key, caseSensitive)
  }

  /** The smaller head of two sorted lists is not a key of the other list. */
  lemma AbsentKey(from: seq<Member>, to: seq<Member>, caseSensitive: bool)
    requires PlainMembers(from) && PlainMembers(to) && InOrder(from) && InOrder(to) && (from != [] || to != [])
    ensures JoinOrder(from, to, caseSensitive) < 0 ==> from[0].key !in MembersMeaning(to)
    ensures JoinOrder(from, to, caseSensitive) > 0 ==> to[0].key !in MembersMeaning(from)
  {
    if from != [] && to != [] {
      var a, b := from[0].key, to[0].key;
      ComparePlain(a, b, caseSensitive);
      CompareAntisymmetric(a, b, true);
      MeaningOfMember(to, a);
      MeaningOfMember(from, b);
      if Compare(a, b, true) < 0 {
        LeastIsFirst(to, a);
      } else if Compare(b, a, true) < 0 {
        LeastIsFirst(from, b);
      }
    }
  }

  /** The growing array of patches, filled by the recursive walk. */
  class PatchList {
    var items: seq<Json>

    constructor ()
      ensures items == []
    {
      items := [];
    }

    method Add(patch: Json)
      modifies this
      ensures items == old(items) + [patch]
    {
      items := items + [patch];
    }

    method Create(path: string, from: Json, to: Json, caseSensitive: bool)
      modifies this
      ensures items == old(items) + CreatePatches(path, from, to, caseSensitive)
      decreases Depth(from), 0
    {
      if !SameTag(from, to) {
        Add(PatchObject("replace", path, Some(to)));
        return;
      }
      match from {
        case Number(n) =>
          if n != to.n {
            Add(PatchObject("replace", path, Some(to)));
          }
        case String(s) =>
          if s != to.s {
            Add(PatchObject("replace", path, Some(to)));
          }
        case Array(list) =>
          CreateForItems(path, list, to.items, caseSensitive);
        case Object(ms) =>
          CreateForMembers(path, SortMembers(ms, caseSensitive), SortMembers(to.members, caseSensitive), caseSensitive);
        case _ =>
      }
    }

    /** The three loops over array elements: those both have, those left over, those still missing. */
    method CreateForItems(path: string, from: seq<Json>, to: seq<Json>, caseSensitive: bool)
      modifies this
      ensures items == old(items) + PatchItems(path, from, to, 0, caseSensitive)
      decreases ItemsDepth(from), 1
    {
      var index := 0;
      ghost var goal := old(items) + PatchItems(path, from, to, 0, caseSensitive);
      while index < |from| && index < |to|
        invariant index <= |from| && index <= |to|
        invariant goal == items + PatchItems(path, from[index..], to[index..], index, caseSensitive)
      {
        ghost var before := items;
        assert from[index..][1..] == from[index + 1..] && to[index..][1..] == to[index + 1..];
        Create(path + ("/" + Decimal(index)), from[index], to[index], caseSensitive);
        index := index + 1;
        Associate(before, items[|before|..], PatchItems(path, from[index..], to[index..], index, caseSensitive));
      }
      RemoveRest(path, from[index..], to[index..], index, caseSensitive);
      AppendRest(path, to[index..], index, caseSensitive);
    }

    method RemoveRest(path: string, from: seq<Json>, ghost to: seq<Json>, index: nat, caseSensitive: bool)
      requires from == [] || to == []
      modifies this
      ensures items + PatchItems(path, [], to, index, caseSensitive)
           == old(items) + PatchItems(path, from, to, index, caseSensitive)
    {
      var i := 0;
      while i < |from|
        invariant i <= |from|
        invariant old(items) + PatchItems(path, from, to, index, caseSensitive)
               == items + PatchItems(path, from[i..], to, index, caseSensitive)
      {
        assert from[i..][1..] == from[i + 1..];
        var p := ComposePatch("remove", path, Decimal(index), None);
        Associate(items, [p], PatchItems(path, from[i + 1..], to, index, caseSensitive));
        Add(p);
        i := i + 1;
      }
    }

    method AppendRest(path: string, to: seq<Json>, index: nat, caseSensitive: bool)
      modifies this
      ensures items == old(items) + PatchItems(path, [], to, index, caseSensitive)
    {
      var j := 0;
      while j < |to|
        invariant j <= |to|
        invariant old(items) + PatchItems(path, [], to, index, caseSensitive)
               == items + PatchItems(path, [], to[j..], index + j, caseSensitive)
      {
        assert to[j..][1..] == to[j + 1..];
        var p := ComposePatch("add", path, "-", Some(to[j]));
        Associate(items, [p], PatchItems(path, [], to[j + 1..], index + j + 1, caseSensitive));
        Add(p);
        j := j + 1;
      }
    }

    /** The join loop over sorted members. */
    method CreateForMembers(path: string, from: seq<Member>, to: seq<Member>, caseSensitive: bool)
      modifies this
      ensures items == old(items) + PatchMembers(path, from, to, caseSensitive)
      decreases MembersDepth(from), 1
    {
      var i, j := 0, 0;
      ghost var goal := old(items) + PatchMembers(path, from, to, caseSensitive);
      while i < |from| || j < |to|
        invariant i <= |from| && j <= |to|
        invariant goal == items + PatchMembers(path, from[i..], to[j..], caseSensitive)
        decreases |from| - i + |to| - j
      {
        ghost var before := items;
        assert i < |from| ==> from[i..][1..] == from[i + 1..];
        assert j < |to| ==> to[j..][1..] == to[j + 1..];
        var diff := JoinOrder(from[i..], to[j..], caseSensitive);
        if diff == 0 {
          Create(path + ("/" + Token(from[i].key)), from[i].val, to[j].val, caseSensitive);
          i, j := i + 1, j + 1;
        } else if diff < 0 {
          Add(ComposePatch("remove", path, from[i].key, None));
          i := i + 1;
        } else {
          Add(ComposePatch("add", path, to[j].key, Some(to[j].val)));
          j := j + 1;
        }
        Associate(before, items[|before|..], PatchMembers(path, from[i..], to[j..], caseSensitive));
      }
    }
  }

  lemma Associate(a: seq<Json>, b: seq<Json>, c: seq<Json>)
    ensures a + (b + c) == (a + b) + c
  {
  }
}
