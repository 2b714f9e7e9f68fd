/** Documents on which generating patches and applying them does not reach the goal. */
module PatchLimits {
  import opened CStrings
  import opened JsonTree
  import opened KeySort
  import opened Comparison
  import opened Pointers
  import opened Patching
  import opened PatchGeneration
  import opened FoldedRoundTrip

  function One(key: string, v: Json): Json {
    Object([Member(key, v)])
  }

  lemma OneChanged(path: string, key: string, a: Json, b: Json)
    requires NulFree(key)
    ensures CreatePatches(path, One(key, a), One(key, b), true) == CreatePatches(path + ("/" + Token(key)), a, b, true)
  {
    CompareExact(key, key);
    var ms, ns := [Member(key, a)], [Member(key, b)];
    assert SortMembers(ms, true) == ms && SortMembers(ns, true) == ns;
    assert PatchMembers(path, ms[1..], ns[1..], true) == [];
    assert PatchMembers(path, ms, ns, true) == CreatePatches(path + ("/" + Token(key)), a, b, true) + [];
  }

  /** A change below a key "~": the path written for it leads nowhere, and the patch fails with status 13. */
  lemma TildeStopsPatch()
    ensures var from, to := One("~", One("a", Number(1))), One("~", One("a", Number(2)));
            ApplyAll(from, CreatePatches("", from, to, true), true) == Applied(from, 13)
  {
    hide CreatePatches, ApplyPatch;
    BelowTilde();
    TildeNotFound(One("a", Number(1)));
  }

  lemma BelowTilde()
    ensures CreatePatches("", One("~", One("a", Number(1))), One("~", One("a", Number(2))), true)
         == [PatchObject("replace", "/~1/a", Some(Number(2)))]
  {
    hide One, SortMembers;
    OneChanged("", "~", One("a", Number(1)), One("a", Number(2)));
    assert Token("~") == "~1" && "" + ("/" + "~1") == "/~1";
    OneChanged("/~1", "a", Number(1), Number(2));
    assert Token("a") == "a" && "/~1" + ("/" + "a") == "/~1/a";
  }

  lemma TildeNotFound(v: Json)
    ensures ApplyPatch(One("~", v), PatchObject("replace", "/~1/a", Some(Number(2))), true) == Applied(One("~", v), 13)
  {
    hide ApplyPatch, PatchObject, One, Locate;
    ApplyComposed(One("~", v), "replace", "/~1/a", Some(Number(2)), true);
    TildeUnreachable(v);
    assert "/~1/a"[..3] == "/~1";
    assert LastSlash("/~1/a") == Some(3);
  }

  lemma TildeUnreachable(v: Json)
    ensures Locate(One("~", v), "/~1", true) == None
  {
    LocateUnfolds(One("~", v), "~1", true);
    assert "/" + "~1" == "/~1";
    var ms := [Member("~", v)];
    assert !ComparePointers("~", "~1", true);
    assert FirstMatch(ms, "~1", true) == 1 + FirstMatch(ms[1..], "~1", true);
  }

  /** Two keys that differ in case only: the removal of the second takes out the first, with status 0. */
  lemma CaseMisdirectsPatch()
    ensures var from, to := Object([Member("A", Number(1)), Member("a", Number(2))]), One("A", Number(1));
            var r := ApplyAll(from, CreatePatches("", from, to, true), true);
            r == Applied(One("a", Number(2)), 0) && Meaning(r.root) != Meaning(to)
  {
    hide CreatePatches, ApplyPatch;
    var patch := PatchObject("remove", "/a", None);
    SecondKeyRemoved();
    FirstKeyDetached();
    assert [patch][1..] == [];
    assert "a" in MembersMeaning([Member("a", Number(2))]) && "a" !in MembersMeaning([Member("A", Number(1))]);
  }

  lemma SecondKeyRemoved()
    ensures CreatePatches("", Object([Member("A", Number(1)), Member("a", Number(2))]), One("A", Number(1)), true)
         == [PatchObject("remove", "/a", None)]
  {
    var ms, ns := [Member("A", Number(1)), Member("a", Number(2))], [Member("A", Number(1))];
    CompareExact("A", "A");
    assert Compare("A", "a", true) < 0;
    assert SortMembers(ms, true) == ms && SortMembers(ns, true) == ns;
    var patch := PatchObject("remove", "/a", None);
    assert Token("a") == "a" && "" + ("/" + "a") == "/a";
    assert PatchMembers("", ms[1..], [], true) == [patch] + PatchMembers("", ms[1..][1..], [], true);
    assert PatchMembers("", ms, ns, true) == [] + PatchMembers("", ms[1..], ns[1..], true);
  }

  lemma FirstKeyDetached()
    ensures ApplyPatch(Object([Member("A", Number(1)), Member("a", Number(2))]), PatchObject("remove", "/a", None),
        true)
         == Applied(One("a", Number(2)), 0)
  {
    hide ApplyPatch, PatchObject;
    var ms := [Member("A", Number(1)), Member("a", Number(2))];
    ApplyComposed(Object(ms), "remove", "/a", None, true);
    assert LastSlash("/a") == Some(0) && "/a"[..0] == "" && "/a"[1..] == "a";
    DecodedPlain("a");
    FirstOfTwo(ms);
  }

  lemma FirstOfTwo(ms: seq<Member>)
    requires ms == [Member("A", Number(1)), Member("a", Number(2))]
    ensures FindKey(ms, "a", false) == 0 && RemoveAt(ms, 0) == [Member("a", Number(2))]
  {
    assert Compare("a", "A", false) == 0;
  }

  /** The same two members in two orders, generated and applied with case: the sort takes one list for sorted by
      case and puts the other in order without case, so the join adds "B" and then removes it. */
  lemma OrdersDisagree()
    ensures var from, to := Object([Member("a", Number(1)), Member("B", Number(2))]),
                            Object([Member("B", Number(2)), Member("a", Number(1))]);
            && Meaning(from) == Meaning(to)
            && ApplyAll(from, CreatePatches("", from, to, true), true) == Applied(One("a", Number(1)), 0)
  {
    hide CreatePatches, ApplyPatch;
    var ms, add, remove := [Member("a", Number(1)), Member("B", Number(2))],
                           PatchObject("add", "/B", Some(Number(2))), PatchObject("remove", "/B", None);
    AddsAndRemoves();
    AddedAgain();
    RemovedAgain();
    assert [add, remove][1..] == [remove] && [remove][1..] == [];
    assert ApplyAll(Object(ms), [add, remove], true) == ApplyAll(Object(ms), [remove], true);
    assert ApplyAll(Object(ms), [remove], true) == ApplyAll(One("a", Number(1)), [], true);
    SameMembers();
  }

  lemma SameMembers()
    ensures Meaning(Object([Member("a", Number(1)), Member("B", Number(2))]))
         == Meaning(Object([Member("B", Number(2)), Member("a", Number(1))]))
  {
    var a, b := Member("a", Number(1)), Member("B", Number(2));
    assert "a"[0] == 'a' && "B"[0] == 'B';
    TwoMembers(a, b);
    TwoMembers(b, a);
  }

  lemma TwoMembers(a: Member, b: Member)
    requires a.key != b.key
    ensures MembersMeaning([a, b]) == map[a.key := Meaning(a.val), b.key := Meaning(b.val)]
  {
    assert [a, b][1..] == [b] && [b][1..] == [];
    assert MembersMeaning([b]) == map[b.key := Meaning(b.val)];
  }

  lemma AddsAndRemoves()
    ensures CreatePatches("", Object([Member("a", Number(1)), Member("B", Number(2))]),
                          Object([Member("B", Number(2)), Member("a", Number(1))]), true)
         == [PatchObject("add", "/B", Some(Number(2))), PatchObject("remove", "/B", None)]
  {
    hide Compare, Sort, PatchObject, Token;
    var a, b := Member("a", Number(1)), Member("B", Number(2));
    OrderOfKeys();
    SortsApart(a, b);
    assert Token("B") == "B" by { EncodeExact("B"); }
    assert "" + ("/" + "B") == "/B";
    assert [a, b][1..] == [b] && [b, a][1..] == [a] && [a][1..] == [] && [b][1..] == [];
    JoinAdds([a, b], [b, a]);
    JoinSkips([a, b], [a]);
    JoinRemoves([b]);
  }

  lemma OrderOfKeys()
    ensures Compare("a", "B", true) > 0 && Compare("B", "a", true) < 0 && Compare("a", "B", false) < 0
    ensures Compare("a", "a", true) == 0
  {
    CompareExact("a", "a");
  }

  lemma SortsApart(a: Member, b: Member)
    requires Compare(a.key, b.key, true) > 0 && Compare(b.key, a.key, true) < 0 && Compare(a.key, b.key, false) < 0
    ensures SortMembers([a, b], true) == [a, b] && SortMembers([b, a], true) == [b, a]
  {
    hide Compare, Merge, Sort;
    InOrderStays(b, a);
    OutOfOrder(a, b);
  }

  lemma InOrderStays(b: Member, a: Member)
    requires Compare(b.key, a.key, true) < 0
    ensures Sort([b, a], MemberKey, true) == [b, a]
  {
    hide Compare, Merge;
    assert StrictlyAscending([b, a], MemberKey, true);
  }

  lemma OutOfOrder(a: Member, b: Member)
    requires Compare(a.key, b.key, true) > 0 && Compare(a.key, b.key, false) < 0
    ensures Sort([a, b], MemberKey, true) == [a, b]
  {
    hide Compare, Merge;
    var s := [a, b];
    assert Compare(MemberKey(s[0]), MemberKey(s[1]), true) > 0;
    assert Sort(s[..1], MemberKey, true) == s[..1] == [a] && Sort(s[1..], MemberKey, true) == s[1..] == [b];
    MergeInOrder(a, b);
  }

  lemma MergeInOrder(a: Member, b: Member)
    requires Compare(a.key, b.key, false) < 0
    ensures Merge([a], [b], MemberKey) == [a, b]
  {
    hide Compare;
    assert [a][1..] == [] && Merge([], [b], MemberKey) == [b];
  }

  lemma JoinAdds(ms: seq<Member>, ns: seq<Member>)
    requires ms != [] && ns != [] && Compare(ms[0].key, ns[0].key, true) > 0
    ensures PatchMembers("", ms, ns, true)
         == [ComposePatch("add", "", ns[0].key, Some(ns[0].val))] + PatchMembers("", ms, ns[1..], true)
  {
    hide Compare, ComposePatch;
  }

  lemma JoinSkips(ms: seq<Member>, ns: seq<Member>)
    requires ms != [] && ns != [] && Compare(ms[0].key, ns[0].key, true) == 0 && ms[0].val == ns[0].val
        && ms[0].val.Number?
    ensures PatchMembers("", ms, ns, true) == PatchMembers("", ms[1..], ns[1..], true)
  {
    hide Compare, ComposePatch;
    assert CreatePatches("" + ("/" + Token(ms[0].key)), ms[0].val, ns[0].val, true) == [];
  }

  lemma JoinRemoves(ms: seq<Member>)
    requires |ms| == 1
    ensures PatchMembers("", ms, [], true) == [ComposePatch("remove", "", ms[0].key, None)]
  {
    hide ComposePatch;
    assert ms[1..] == [] && PatchMembers("", [], [], true) == [];
  }

  lemma PathToB()
    ensures LastSlash("/B") == Some(0) && "/B"[..0] == "" && "/B"[1..] == "B" && DecodedInPlace("B") == "B"
  {
    DecodedPlain("B");
  }

  lemma AddedAgain()
    ensures var from := Object([Member("a", Number(1)), Member("B", Number(2))]);
            ApplyPatch(from, PatchObject("add", "/B", Some(Number(2))), true) == Applied(from, 0)
  {
    hide ApplyPatch, PatchObject, Compare;
    var a, b := Member("a", Number(1)), Member("B", Number(2));
    ApplyComposed(Object([a, b]), "add", "/B", Some(Number(2)), true);
    PathToB();
    FindsSecond(a, b, true);
    assert RemoveAt([a, b], 1) + [b] == [a, b];
  }

  lemma FindsSecond(a: Member, b: Member, caseSensitive: bool)
    requires a.key == "a" && b.key == "B"
    ensures FindKey([a, b], "B", caseSensitive) == 1
  {
    CompareZero("B", "B", caseSensitive);
    assert Compare("B", "a", caseSensitive) != 0 && [a, b][1..][0] == b;
  }

  lemma RemovedAgain()
    ensures ApplyPatch(Object([Member("a", Number(1)), Member("B", Number(2))]), PatchObject("remove", "/B", None),
        true)
         == Applied(One("a", Number(1)), 0)
  {
    hide ApplyPatch, PatchObject, Compare;
    var a, b := Member("a", Number(1)), Member("B", Number(2));
    ApplyComposed(Object([a, b]), "remove", "/B", None, true);
    PathToB();
    FindsSecond(a, b, false);
    assert RemoveAt([a, b], 1) == [a];
  }

  // ----- keys with a tilde -----

  /** What the generator writes for a key without '/'. */
  function Tilded(key: string): string {
    if key == "" then "" else (if key[0] == '~' then "~1" else [key[0]]) + Tilded(key[1..])
  }

  lemma {:induction false} EncodedIsTilded(key: string, was: string)
    requires '/' !in key && |was| == EncodedLength(key)
    ensures Encoded(key, was) == Tilded(key)
  {
    if key != "" {
      EncodedIsTilded(key[1..], was[if key[0] == '~' then 2 else 1..]);
    }
  }

  lemma {:induction false} TildedJoin(a: string, b: string)
    ensures Tilded(a + b) == Tilded(a) + Tilded(b)
  {
    if a == "" {
      assert a + b == b;
    } else {
      assert (a + b)[1..] == a[1..] + b;
      TildedJoin(a[1..], b);
    }
  }

  lemma {:induction false} TildedPlain(a: string)
    requires '~' !in a
    ensures Tilded(a) == a
  {
    if a != "" {
      TildedPlain(a[1..]);
    }
  }

  lemma {:induction false} DecodeSkips(mem: string, i: nat, n: nat)
    requires mem != [] && mem[|mem| - 1] == '\0' && i <= n < |mem| && forall k :: i <= k < n ==>
        mem[k] != '~' && mem[k] != '\0'
    ensures DecodeLoop(mem, i, i) == DecodeLoop(mem, n, n)
    decreases n - i
  {
    if i < n {
      DecodeSkips(mem, i + 1, n);
    }
  }

  lemma {:induction false} DecodeKeeps(mem: string, i: nat, d: nat, p: nat)
    requires mem != [] && mem[|mem| - 1] == '\0' && p < d <= i < |mem|
    ensures DecodeLoop(mem, i, d)[p] == mem[p]
    decreases |mem| - i
  {
    if mem[i] != '\0' {
      if mem[i] != '~' {
        DecodeKeeps(mem, i + 1, d + 1, p);
      } else if mem[i + 1] == '0' {
        DecodeKeeps(mem[d := '~'], i + 2, d + 1, p);
      } else if mem[i + 1] == '1' {
        DecodeKeeps(mem[d + 1 := '/'], i + 2, d + 1, p);
      }
    }
  }

  lemma {:induction false} CStringAt(mem: string, p: nat)
    requires p < |mem| && forall q :: 0 <= q <= p ==> mem[q] != '\0'
    ensures p < |CString(mem)| && CString(mem)[p] == mem[p]
  {
    if p > 0 {
      CStringAt(mem[1..], p - 1);
    }
  }

  /** The path written for a key without '/' adds or removes that very key exactly if no '~' stands before its last
      character. */
  lemma TokenNamesKey(key: string)
    requires NulFree(key) && '/' !in key
    ensures DecodedInPlace(Token(key)) == key <==> '~' !in key[..if key == "" then 0 else |key| - 1]
  {
    hide DecodedInPlace, Tilded, Encoded;
    EncodedIsTilded(key, ZeroBytes(EncodedLength(key)));
    if '~' !in key {
      TildedPlain(key);
      DecodedPlain(key);
    } else {
      var n := FirstTilde(key);
      if n == |key| - 1 {
        assert key == key[..n] + "~";
        TildeLast(key[..n]);
      } else {
        TildeInside(key, n);
        assert key[..|key| - 1][n] == '~';
      }
    }
  }

  lemma {:induction false} FirstTilde(key: string) returns (n: nat)
    requires '~' in key
    ensures n < |key| && key[n] == '~' && '~' !in key[..n]
  {
    n := 0;
    while key[n] != '~'
      invariant n < |key| && '~' !in key[..n] && '~' in key[n..]
      decreases |key| - n
    {
      n := n + 1;
    }
  }

  lemma TildeLast(front: string)
    requires NulFree(front) && '~' !in front
    ensures DecodedInPlace(Tilded(front + "~")) == front + "~"
  {
    hide CString, Tilded, DecodeLoop;
    TildedJoin(front, "~");
    TildedPlain(front);
    TildeAlone();
    var mem := (front + "~1") + ['\0'];
    DecodedEnd(front, mem);
    CStringEnds(front + "~", DecodeLoop(mem, 0, 0));
  }

  lemma TildeAlone()
    ensures Tilded("~") == "~1"
  {
    assert "~"[1..] == "" && "~1" + "" == "~1";
  }

  lemma DecodedEnd(front: string, mem: string)
    requires mem == (front + "~1") + ['\0'] && forall k :: 0 <= k < |front| ==> front[k] != '~' && front[k] != '\0'
    ensures var r := DecodeLoop(mem, 0, 0);
            |r| == |mem| && r[..|front| + 1] == front + "~" && r[|front| + 1] == '\0'
  {
    var n := |front|;
    assert forall k :: 0 <= k < n ==> mem[k] == front[k];
    assert mem[n] == '~' && mem[n + 1] == '1' && mem[n + 2] == '\0';
    DecodeSkips(mem, 0, n);
    var m := mem[n + 1 := '/'];
    assert DecodeLoop(mem, n, n) == DecodeLoop(m, n + 2, n + 1) == m[n + 1 := '\0'];
  }

  /** The text around a tilde. */
  lemma TildedAround(key: string, n: nat)
    requires n < |key| && key[n] == '~' && '~' !in key[..n]
    ensures Tilded(key) == key[..n] + "~1" + Tilded(key[n + 1..])
  {
    var rest := key[n..];
    assert key == key[..n] + rest && rest[1..] == key[n + 1..];
    TildedJoin(key[..n], rest);
    TildedPlain(key[..n]);
  }

  lemma TildeInside(key: string, n: nat)
    requires NulFree(key) && '/' !in key && n < |key| - 1 && key[n] == '~' && '~' !in key[..n]
    ensures DecodedInPlace(Tilded(key)) != key
  {
    hide CString, Tilded, DecodeLoop;
    TildedAround(key, n);
    var mem := Tilded(key) + ['\0'];
    SlashStays(key, n, mem);
    ReadsSlash(key, n, DecodeLoop(mem, 0, 0));
  }

  lemma ReadsSlash(key: string, n: nat, mem: string)
    requires NulFree(key) && '/' !in key && n < |key| - 1 && n + 1 < |mem| && mem[n + 1] == '/'
    requires forall q :: 0 <= q <= n ==> mem[q] == key[q]
    ensures CString(mem) != key
  {
    hide CString;
    assert forall q :: 0 <= q <= n ==> key[q] in key;
    CStringAt(mem, n + 1);
    assert key[n + 1] in key;
  }

  /** The '/' written behind the '~' is still there at the end. */
  lemma SlashStays(key: string, n: nat, mem: string)
    requires NulFree(key) && n < |key| - 1 && key[n] == '~' && '~' !in key[..n]
    requires mem == (key[..n] + "~1" + Tilded(key[n + 1..])) + ['\0']
    ensures var r := DecodeLoop(mem, 0, 0); r[n + 1] == '/' && forall q :: 0 <= q <= n ==> r[q] == key[q]
  {
    hide Tilded;
    var rest := Tilded(key[n + 1..]);
    TildedHead(key[n + 1..]);
    assert key[n + 1..][0] == key[n + 1] && key[n + 1] in key;
    assert forall k :: 0 <= k < n ==> mem[k] == key[k] && key[k] in key[..n] && key[k] in key;
    assert mem[n] == '~' && mem[n + 1] == '1' && mem[n + 2] == rest[0];
    DecodeSkips(mem, 0, n);
    var m := mem[n + 1 := '/'];
    assert DecodeLoop(mem, n, n) == DecodeLoop(m, n + 2, n + 1);
    if key[n + 1] == '~' {
      assert m[n + 2] == '~' && m[n + 3] == '1';
      assert DecodeLoop(m, n + 2, n + 1) == DecodeLoop(m[n + 2 := '/'], n + 4, n + 2);
      KeepsFront(m[n + 2 := '/'], n + 4, n + 2);
    } else {
      assert m[n + 2] == key[n + 1] && m[n + 2] != '~' && m[n + 2] != '\0';
      assert DecodeLoop(m, n + 2, n + 1) == DecodeLoop(m, n + 3, n + 2);
      KeepsFront(m, n + 3, n + 2);
    }
  }

  lemma TildedHead(key: string)
    requires key != ""
    ensures Tilded(key) != "" && Tilded(key)[0] == key[0]
        && (key[0] == '~' ==> |Tilded(key)| > 1 && Tilded(key)[1] == '1')
  {
  }

  lemma KeepsFront(mem: string, i: nat, d: nat)
    requires mem != [] && mem[|mem| - 1] == '\0' && d <= i < |mem|
    ensures forall p :: 0 <= p < d ==> DecodeLoop(mem, i, d)[p] == mem[p]
  {
    forall p | 0 <= p < d
      ensures DecodeLoop(mem, i, d)[p] == mem[p]
    {
      DecodeKeeps(mem, i, d, p);
    }
  }
}
