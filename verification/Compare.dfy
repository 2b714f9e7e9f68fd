/** The two tree comparisons, cJSON_Compare and compare_json. */
module Comparison {
  // The first looks every key up; the second, of cJSON_Utils.c, sorts both objects and then walks them in step.

  import opened CStrings
  import opened JsonTree
  import opened KeySort

  /** First member whose key compares equal to the name, as get_object_item finds it. */
  function FindKey(ms: seq<Member>, name: string, caseSensitive: bool): (i: nat)
    ensures i <= |ms|
    ensures i < |ms| ==> Compare(name, ms[i].key, caseSensitive) == 0
    ensures forall j :: 0 <= j < i ==> Compare(name, ms[j].key, caseSensitive) != 0
  {
    if ms == [] || Compare(name, ms[0].key, caseSensitive) == 0 then 0
    else 1 + FindKey(ms[1..], name, caseSensitive)
  }

  /** On plain keys the lookup finds the exact key. */
  lemma {:induction false} FindKeyPlain(ms: seq<Member>, name: string, caseSensitive: bool)
    requires Plain(name) && forall i :: 0 <= i < |ms| ==> Plain(ms[i].key)
    ensures FindKey(ms, name, caseSensitive) == Find(ms, name)
  {
    if ms != [] {
      ComparePlain(name, ms[0].key, caseSensitive);
      FindKeyPlain(ms[1..], name, caseSensitive);
    }
  }

  // ----- cJSON_Compare, case sensitive -----

  /** Type tags differ. */
  predicate SameTag(a: Json, b: Json) {
    match a
    case Invalid => b.Invalid?
    case Null => b.Null?
    case False => b.False?
    case True => b.True?
    case Number(_) => b.Number?
    case String(_) => b.String?
    case Array(_) => b.Array?
    case Object(_) => b.Object?
  }

  /** cJSON_Compare with case_sensitive set, on two different nodes. */
  predicate CompareTrees(a: Json, b: Json)
    decreases Depth(a) + Depth(b), 0, 0
  {
    && SameTag(a, b) && !a.Invalid?
    && match a
       case Number(n) => n == b.n
       case String(s) => s == b.s
       case Array(items) => CompareItems(items, b.items)
       case Object(ms) => Covers(ms, b.members) && Covers(b.members, ms)
       case _ => true
  }

  /** The element loop: both lists must end together. */
  predicate CompareItems(a: seq<Json>, b: seq<Json>)
    decreases ItemsDepth(a) + ItemsDepth(b), 1, |a|
  {
    if a == [] || b == [] then a == b
    else CompareTrees(a[0], b[0]) && CompareItems(a[1..], b[1..])
  }

  /** One of the two member loops: every member of a has an equal in b. */
  predicate Covers(a: seq<Member>, b: seq<Member>)
    decreases MembersDepth(a) + MembersDepth(b), 1, |a|
  {
    a == [] ||
    (var i := FindKey(b, a[0].key, true);
     i < |b| && CompareTrees(a[0].val, b[i].val) && Covers(a[1..], b))
  }

  /** A tree built by the parser or the constructors: distinct keys without a zero byte and no invalid node. */
  ghost predicate WellFormed(v: Json) {
    match v
    case Invalid => false
    case Array(items) => forall i :: 0 <= i < |items| ==> WellFormed(items[i])
    case Object(ms) => UniqueKeys(ms) && WellFormedMembers(ms)
    case _ => true
  }

  ghost predicate WellFormedMembers(ms: seq<Member>) {
    forall i :: 0 <= i < |ms| ==> NulFree(ms[i].key) && WellFormed(ms[i].val)
  }

  lemma FoldSensitive(s: string)
    ensures FoldAll(s, true) == s
  {
  }

  lemma CompareExact(a: string, b: string)
    requires NulFree(a) && NulFree(b)
    ensures Compare(a, b, true) == 0 <==> a == b
  {
    CompareZero(a, b, true);
    FoldSensitive(a);
    FoldSensitive(b);
  }

  lemma {:induction false} FindKeyExact(ms: seq<Member>, name: string)
    requires NulFree(name) && forall i :: 0 <= i < |ms| ==> NulFree(ms[i].key)
    ensures FindKey(ms, name, true) == Find(ms, name)
  {
    if ms != [] {
      CompareExact(name, ms[0].key);
      FindKeyExact(ms[1..], name);
    }
  }

  /** cJSON_Compare decides equality up to the order of object members; so it is an equivalence
      relation on well-formed trees. */
  lemma {:induction false} CompareDecidesMeaning(a: Json, b: Json)
    requires WellFormed(a) && WellFormed(b)
    ensures CompareTrees(a, b) <==> Meaning(a) == Meaning(b)
    decreases Depth(a) + Depth(b), 0, 0
  {
    if a.Array? && b.Array? {
      ItemsDecide(a.items, b.items);
    } else if a.Object? && b.Object? {
      CoversDecides(a.members, b.members);
      CoversDecides(b.members, a.members);
      MapsEqual(MembersMeaning(a.members), MembersMeaning(b.members));
    }
  }

  lemma {:induction false} ItemsDecide(a: seq<Json>, b: seq<Json>)
    requires (forall i :: 0 <= i < |a| ==> WellFormed(a[i])) && (forall i :: 0 <= i < |b| ==> WellFormed(b[i]))
    ensures CompareItems(a, b) <==> ItemsMeaning(a) == ItemsMeaning(b)
    decreases ItemsDepth(a) + ItemsDepth(b), 1, |a|
  {
    if a != [] && b != [] {
      CompareDecidesMeaning(a[0], b[0]);
      ItemsDecide(a[1..], b[1..]);
      var x, y := ItemsMeaning(a), ItemsMeaning(b);
      assert x[1..] == ItemsMeaning(a[1..]) && y[1..] == ItemsMeaning(b[1..]);
      assert x == y <==> x[0] == y[0] && x[1..] == y[1..] by {
        assert x == [x[0]] + x[1..] && y == [y[0]] + y[1..];
      }
    }
  }

  /** Every entry of m is an entry of n. */
  ghost predicate Within(m: map<string, Value>, n: map<string, Value>) {
    forall k :: k in m ==> k in n && m[k] == n[k]
  }

  lemma MapsEqual(m: map<string, Value>, n: map<string, Value>)
    ensures Within(m, n) && Within(n, m) <==> m == n
  {
  }

  lemma {:induction false} CoversDecides(a: seq<Member>, b: seq<Member>)
    requires UniqueKeys(a) && WellFormedMembers(a) && WellFormedMembers(b)
    ensures Covers(a, b) <==> Within(MembersMeaning(a), MembersMeaning(b))
    decreases MembersDepth(a) + MembersDepth(b), 1, |a|
  {
    if a != [] {
      var k := a[0].key;
      FindKeyExact(b, k);
      MeaningOfMember(b, k);
      var i := Find(b, k);
      if i < |b| {
        CompareDecidesMeaning(a[0].val, b[i].val);
      }
      CoversDecides(a[1..], b);
      MeaningOfMember(a[1..], k);
      assert Find(a[1..], k) == |a| - 1;
      var m, n := MembersMeaning(a[1..]), MembersMeaning(b);
      assert MembersMeaning(a) == m[k := Meaning(a[0].val)] && k !in m;
      assert Within(m[k := Meaning(a[0].val)], n) <==> k in n && n[k] == Meaning(a[0].val) && Within(m, n) by {
        WithinUpdate(m, n, k, Meaning(a[0].val));
      }
    }
  }

  lemma WithinUpdate(m: map<string, Value>, n: map<string, Value>, k: string, v: Value)
    requires k !in m
    ensures Within(m[k := v], n) <==> k in n && n[k] == v && Within(m, n)
  {
    var u := m[k := v];
    if Within(u, n) {
      assert k in u;
      forall j | j in m
        ensures j in n && m[j] == n[j]
      {
        assert j in u && u[j] == m[j];
      }
    }
  }

  /** The equivalence laws, spelled out. */
  lemma CompareIsEquivalence(a: Json, b: Json, c: Json)
    requires WellFormed(a) && WellFormed(b) && WellFormed(c)
    ensures CompareTrees(a, a)
    ensures CompareTrees(a, b) ==> CompareTrees(b, a)
    ensures CompareTrees(a, b) && CompareTrees(b, c) ==> CompareTrees(a, c)
  {
    CompareDecidesMeaning(a, a);
    CompareDecidesMeaning(a, b);
    CompareDecidesMeaning(b, a);
    CompareDecidesMeaning(b, c);
    CompareDecidesMeaning(a, c);
  }

  // ----- compare_json -----

  /** compare_json: objects are sorted first, then walked in step. */
  predicate CompareJson(a: Json, b: Json, caseSensitive: bool)
    decreases Depth(a), 0, 0
  {
    && SameTag(a, b)
    && match a
       case Number(n) => n == b.n
       case String(s) => s == b.s
       case Array(items) => ItemsInStep(items, b.items, caseSensitive)
       case Object(ms) => MembersInStep(SortMembers(ms, caseSensitive), SortMembers(b.members, caseSensitive),
         caseSensitive)
       case _ => true
  }

  predicate ItemsInStep(a: seq<Json>, b: seq<Json>, caseSensitive: bool)
    decreases ItemsDepth(a), 1, |a|
  {
    if a == [] || b == [] then a == b
    else CompareJson(a[0], b[0], caseSensitive) && ItemsInStep(a[1..], b[1..], caseSensitive)
  }

  predicate MembersInStep(a: seq<Member>, b: seq<Member>, caseSensitive: bool)
    decreases MembersDepth(a), 1, |a|
  {
    if a == [] || b == [] then a == b
    else
      && Compare(a[0].key, b[0].key, caseSensitive) == 0
      && CompareJson(a[0].val, b[0].val, caseSensitive)
      && MembersInStep(a[1..], b[1..], caseSensitive)
  }

  /** On plain trees compare_json decides equality up to member order, whatever its flag. */
  lemma {:induction false} CompareJsonDecides(a: Json, b: Json, caseSensitive: bool)
    requires PlainTree(a) && PlainTree(b)
    ensures CompareJson(a, b, caseSensitive) <==> Meaning(a) == Meaning(b)
    decreases Depth(a), 0, 0
  {
    if a.Array? && b.Array? {
      ItemsInStepDecides(a.items, b.items, caseSensitive);
    } else if a.Object? && b.Object? {
      SortPlain(a.members, caseSensitive);
      SortPlain(b.members, caseSensitive);
      MembersInStepDecides(SortMembers(a.members, caseSensitive), SortMembers(b.members, caseSensitive), caseSensitive);
    }
  }

  lemma {:induction false} ItemsInStepDecides(a: seq<Json>, b: seq<Json>, caseSensitive: bool)
    requires (forall i :: 0 <= i < |a| ==> PlainTree(a[i])) && (forall i :: 0 <= i < |b| ==> PlainTree(b[i]))
    ensures ItemsInStep(a, b, caseSensitive) <==> ItemsMeaning(a) == ItemsMeaning(b)
    decreases ItemsDepth(a), 1, |a|
  {
    if a != [] && b != [] {
      CompareJsonDecides(a[0], b[0], caseSensitive);
      ItemsInStepDecides(a[1..], b[1..], caseSensitive);
      var x, y := ItemsMeaning(a), ItemsMeaning(b);
      assert x[1..] == ItemsMeaning(a[1..]) && y[1..] == ItemsMeaning(b[1..]);
      assert x == y <==> x[0] == y[0] && x[1..] == y[1..] by {
        assert x == [x[0]] + x[1..] && y == [y[0]] + y[1..];
      }
    }
  }

  /** In key order, the first key is the least: no later member has it, and any key of the meaning that
      is not the first comes later. */
  lemma HeadOfMeaning(ms: seq<Member>)
    requires ms != [] && PlainMembers(ms)
    ensures ms[0].key in MembersMeaning(ms) && MembersMeaning(ms)[ms[0].key] == Meaning(ms[0].val)
    ensures MembersMeaning(ms) - {ms[0].key} == MembersMeaning(ms[1..])
    ensures PlainMembers(ms[1..]) && ms[0].key !in MembersMeaning(ms[1..])
  {
    MeaningOfMember(ms[1..], ms[0].key);
    assert Find(ms[1..], ms[0].key) == |ms| - 1;
  }

  lemma {:induction false} MembersInStepDecides(a: seq<Member>, b: seq<Member>, caseSensitive: bool)
    requires PlainMembers(a) && PlainMembers(b) && InOrder(a) && InOrder(b)
    ensures MembersInStep(a, b, caseSensitive) <==> MembersMeaning(a) == MembersMeaning(b)
    decreases MembersDepth(a), 1, |a|
  {
    if a == [] || b == [] {
      assert a != [] ==> a[0].key in MembersMeaning(a);
      assert b != [] ==> b[0].key in MembersMeaning(b);
    } else {
      ComparePlain(a[0].key, b[0].key, caseSensitive);
      HeadOfMeaning(a);
      HeadOfMeaning(b);
      CompareJsonDecides(a[0].val, b[0].val, caseSensitive);
      MembersInStepDecides(a[1..], b[1..], caseSensitive);
      if MembersMeaning(a) == MembersMeaning(b) {
        LeastKeysAgree(a, b);
      } else if a[0].key == b[0].key && Meaning(a[0].val) == Meaning(b[0].val) {
        assert MembersMeaning(a) == MembersMeaning(a[1..])[a[0].key := Meaning(a[0].val)];
        assert MembersMeaning(b) == MembersMeaning(b[1..])[a[0].key := Meaning(a[0].val)];
      }
    }
  }

  lemma LeastKeysAgree(a: seq<Member>, b: seq<Member>)
    requires PlainMembers(a) && PlainMembers(b) && InOrder(a) && InOrder(b) && a != [] && b != []
    requires MembersMeaning(a) == MembersMeaning(b)
    ensures a[0].key == b[0].key
  {
    MeaningOfMember(b, a[0].key);
    MeaningOfMember(a, b[0].key);
    assert a[0].key in MembersMeaning(a) && b[0].key in MembersMeaning(b);
    CompareAntisymmetric(a[0].key, b[0].key, true);
  }

  lemma LeastIsFirst(ms: seq<Member>, key: string)
    requires PlainMembers(ms) && InOrder(ms) && ms != [] && Plain(key) && Compare(key, ms[0].key, true) < 0
    ensures Find(ms, key) == |ms|
  {
    var i := Find(ms, key);
    CompareAntisymmetric(key, ms[0].key, true);
  }

  lemma NonemptyMeaning(ms: seq<Member>)
    ensures MembersMeaning(ms) == map[] <==> ms == []
  {
    if ms != [] {
      assert ms[0].key in MembersMeaning(ms);
    }
  }
}
