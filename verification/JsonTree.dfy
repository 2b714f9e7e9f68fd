/** The cJSON tree, and what a tree means once the order of object members is forgotten. */
module JsonTree {
  import opened CStrings

  /** An object member: the node's `string` together with the node itself. */
  datatype Member = Member(key: string, val: Json)

  /** A node and everything below it. `Invalid` is the type tag zero, which only a removal of the
      document root leaves behind. */
  datatype Json =
    | Invalid
    | Null
    | False
    | True
    | Number(n: int)
    | String(s: string)
    | Array(items: seq<Json>)
    | Object(members: seq<Member>)

  /** Trees up to the order of object members. */
  datatype Value =
    | VInvalid
    | VNull
    | VFalse
    | VTrue
    | VNumber(n: int)
    | VString(s: string)
    | VArray(items: seq<Value>)
    | VObject(members: map<string, Value>)

  function Meaning(v: Json): Value {
    match v
    case Invalid => VInvalid
    case Null => VNull
    case False => VFalse
    case True => VTrue
    case Number(n) => VNumber(n)
    case String(s) => VString(s)
    case Array(items) => VArray(ItemsMeaning(items))
    case Object(members) => VObject(MembersMeaning(members))
  }

  function ItemsMeaning(items: seq<Json>): (r: seq<Value>)
    ensures |r| == |items|
    ensures forall i {:trigger r[i]} {:trigger Meaning(items[i])} :: 0 <= i < |items| ==> r[i] == Meaning(items[i])
  {
    if items == [] then [] else [Meaning(items[0])] + ItemsMeaning(items[1..])
  }

  /** Of several members with one key the first counts, as a lookup finds that one. */
  function MembersMeaning(ms: seq<Member>): map<string, Value> {
    if ms == [] then map[] else MembersMeaning(ms[1..])[ms[0].key := Meaning(ms[0].val)]
  }

  ghost predicate UniqueKeys(ms: seq<Member>) {
    forall i, j :: 0 <= i < j < |ms| ==> ms[i].key != ms[j].key
  }

  /** Every object in the tree has distinct keys. */
  ghost predicate Unique(v: Json) {
    match v
    case Array(items) => forall i :: 0 <= i < |items| ==> Unique(items[i])
    case Object(members) => UniqueKeys(members) && forall i :: 0 <= i < |members| ==> Unique(members[i].val)
    case _ => true
  }

  /** Every object in the tree has distinct keys and all of them are plain. */
  ghost predicate PlainTree(v: Json) {
    match v
    case Array(items) => forall i :: 0 <= i < |items| ==> PlainTree(items[i])
    case Object(members) => PlainMembers(members)
    case _ => true
  }

  ghost predicate PlainMembers(ms: seq<Member>) {
    && UniqueKeys(ms)
    && forall i :: 0 <= i < |ms| ==> Plain(ms[i].key) && PlainTree(ms[i].val)
  }

  /** Position of the first member with exactly this key, the number of members if there is none. */
  function Find(ms: seq<Member>, key: string): (i: nat)
    ensures i <= |ms|
    ensures i < |ms| ==> ms[i].key == key
    ensures forall j :: 0 <= j < i ==> ms[j].key != key
  {
    if ms == [] || ms[0].key == key then 0 else 1 + Find(ms[1..], key)
  }

  lemma {:induction false} MeaningOfMember(ms: seq<Member>, key: string)
    ensures key in MembersMeaning(ms) <==> Find(ms, key) < |ms|
    ensures key in MembersMeaning(ms) ==> MembersMeaning(ms)[key] == Meaning(ms[Find(ms, key)].val)
  {
    if ms != [] && ms[0].key != key {
      MeaningOfMember(ms[1..], key);
    }
  }

  /** With distinct keys every member shows in the meaning. */
  lemma MeaningAt(ms: seq<Member>, i: nat)
    requires i < |ms| && UniqueKeys(ms)
    ensures ms[i].key in MembersMeaning(ms)
    ensures MembersMeaning(ms)[ms[i].key] == Meaning(ms[i].val)
  {
    MeaningOfMember(ms, ms[i].key);
    var j := Find(ms, ms[i].key);
    assert j >= i ==> j == i;
  }

  lemma {:induction false} MeaningAppend(a: seq<Member>, b: seq<Member>)
    ensures MembersMeaning(a + b) == MembersMeaning(b) + MembersMeaning(a)
  {
    if a == [] {
      assert a + b == b;
    } else {
      assert (a + b)[1..] == a[1..] + b;
      MeaningAppend(a[1..], b);
    }
  }

  /** Reordering members with distinct keys keeps them distinct and keeps the meaning. */
  lemma MeaningOfPermutation(a: seq<Member>, b: seq<Member>)
    requires UniqueKeys(a) && multiset(a) == multiset(b)
    ensures UniqueKeys(b) && MembersMeaning(a) == MembersMeaning(b)
  {
    UniqueOfPermutation(a, b);
    forall k: string
      ensures k in MembersMeaning(a) ==> k in MembersMeaning(b) && MembersMeaning(a)[k] == MembersMeaning(b)[k]
    {
      PermutedLookup(a, b, k);
    }
    forall k: string
      ensures k in MembersMeaning(b) ==> k in MembersMeaning(a)
    {
      PermutedLookup(b, a, k);
    }
  }

  lemma PermutedLookup(a: seq<Member>, b: seq<Member>, k: string)
    requires UniqueKeys(b) && multiset(a) == multiset(b)
    ensures k in MembersMeaning(a) ==> k in MembersMeaning(b) && MembersMeaning(a)[k] == MembersMeaning(b)[k]
  {
    MeaningOfMember(a, k);
    if k in MembersMeaning(a) {
      var m := a[Find(a, k)];
      assert m in multiset(a);
      assert m in b;
      var j :| 0 <= j < |b| && b[j] == m;
      MeaningAt(b, j);
    }
  }

  lemma UniqueOfPermutation(a: seq<Member>, b: seq<Member>)
    requires UniqueKeys(a) && multiset(a) == multiset(b)
    ensures UniqueKeys(b)
  {
    forall i, j | 0 <= i < j < |b|
      ensures b[i].key != b[j].key
    {
      assert b[i] in multiset(a) && b[j] in multiset(a);
      var x :| 0 <= x < |a| && a[x] == b[i];
      var y :| 0 <= y < |a| && a[y] == b[j];
      if b[i].key == b[j].key {
        assert x == y;
        OccursTwice(b, i, j);
        OccursOnce(a, x);
      }
    }
  }

  lemma OccursTwice<T>(s: seq<T>, i: nat, j: nat)
    requires i < j < |s| && s[i] == s[j]
    ensures multiset(s)[s[i]] >= 2
  {
    assert s == s[..j] + s[j..];
    assert s[..j][i] in multiset(s[..j]) && s[j..][0] in multiset(s[j..]);
  }

  lemma OccursOnce(ms: seq<Member>, i: nat)
    requires i < |ms| && UniqueKeys(ms)
    ensures multiset(ms)[ms[i]] == 1
  {
    assert ms == ms[..i] + [ms[i]] + ms[i + 1..];
    assert ms[i] !in ms[..i] && ms[i] !in ms[i + 1..];
  }

  /** Height of a tree: arrays and objects nested in one another. */
  function Depth(v: Json): nat {
    match v
    case Array(items) => 1 + ItemsDepth(items)
    case Object(members) => 1 + MembersDepth(members)
    case _ => 0
  }

  function ItemsDepth(items: seq<Json>): (d: nat)
    ensures forall i {:trigger Depth(items[i])} :: 0 <= i < |items| ==> Depth(items[i]) <= d
  {
    if items == [] then 0
    else
      var d := ItemsDepth(items[1..]);
      if Depth(items[0]) <= d then d else Depth(items[0])
  }

  function MembersDepth(ms: seq<Member>): (d: nat)
    ensures forall i {:trigger Depth(ms[i].val)} :: 0 <= i < |ms| ==> Depth(ms[i].val) <= d
  {
    if ms == [] then 0
    else
      var d := MembersDepth(ms[1..]);
      if Depth(ms[0].val) <= d then d else Depth(ms[0].val)
  }

  /** The depth of a member list is the least bound on its members' depths. */
  lemma {:induction false} MembersDepthLeast(ms: seq<Member>, d: nat)
    requires forall i :: 0 <= i < |ms| ==> Depth(ms[i].val) <= d
    ensures MembersDepth(ms) <= d
  {
    if ms != [] {
      MembersDepthLeast(ms[1..], d);
    }
  }
}
