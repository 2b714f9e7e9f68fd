/** The mergesort that brings object members into key order, on sequences. */
module KeySort {
  // It is generic in the element: a list of members here, a chain of heap nodes in `ListSort`.

  import opened CStrings
  import opened JsonTree

  predicate StrictlyAscending<T>(s: seq<T>, key: T -> string, caseSensitive: bool) {
    forall i :: 0 <= i < |s| - 1 ==> Compare(key(s[i]), key(s[i + 1]), caseSensitive) < 0
  }

  /** What sorting does to a list: nothing when it is already strictly ascending; otherwise sort both
      halves (the first the longer one) and merge them, always ignoring case. */
  function Sort<T>(s: seq<T>, key: T -> string, caseSensitive: bool): (r: seq<T>)
    ensures multiset(r) == multiset(s) && |r| == |s|
    decreases |s|
  {
    if |s| < 2 || StrictlyAscending(s, key, caseSensitive) then s
    else
      var mid := (|s| + 1) / 2;
      assert s == s[..mid] + s[mid..];
      Merge(Sort(s[..mid], key, caseSensitive), Sort(s[mid..], key, caseSensitive), key)
  }

  /** The first list's head goes first only if it is smaller. */
  function Merge<T>(a: seq<T>, b: seq<T>, key: T -> string): (r: seq<T>)
    ensures multiset(r) == multiset(a) + multiset(b) && |r| == |a| + |b|
  {
    if a == [] then b
    else if b == [] then a
    else if Compare(key(a[0]), key(b[0]), false) < 0 then
      assert a == [a[0]] + a[1..];
      [a[0]] + Merge(a[1..], b, key)
    else
      assert b == [b[0]] + b[1..];
      [b[0]] + Merge(a, b[1..], key)
  }

  /** Sorted: no key is smaller than one before it. */
  ghost predicate Ascending<T>(s: seq<T>, key: T -> string, caseSensitive: bool) {
    forall i, j :: 0 <= i < j < |s| ==> Compare(key(s[i]), key(s[j]), caseSensitive) <= 0
  }

  ghost predicate NulFreeKeys<T>(s: seq<T>, key: T -> string) {
    forall i :: 0 <= i < |s| ==> NulFree(key(s[i]))
  }

  /** Neighbours in strict order put every pair in strict order. */
  lemma {:induction false} StrictlyAscendingPairs<T>(s: seq<T>, key: T -> string, caseSensitive: bool, i: nat, j: nat)
    requires NulFreeKeys(s, key) && StrictlyAscending(s, key, caseSensitive) && i < j < |s|
    ensures Compare(key(s[i]), key(s[j]), caseSensitive) < 0
    decreases j - i
  {
    if i + 1 < j {
      StrictlyAscendingPairs(s, key, caseSensitive, i + 1, j);
      CompareTransitive(key(s[i]), key(s[i + 1]), key(s[j]), caseSensitive);
    }
  }

  /** x bounds s from below. */
  ghost predicate Below<T>(x: T, s: seq<T>, key: T -> string) {
    forall j :: 0 <= j < |s| ==> Compare(key(x), key(s[j]), false) <= 0
  }

  lemma AscendingCons<T>(x: T, s: seq<T>, key: T -> string)
    requires Below(x, s, key) && Ascending(s, key, false)
    ensures Ascending([x] + s, key, false)
  {
  }

  lemma BelowTransitive<T>(x: T, s: seq<T>, key: T -> string)
    requires NulFree(key(x)) && NulFreeKeys(s, key) && Ascending(s, key, false)
    requires s != [] ==> Compare(key(x), key(s[0]), false) <= 0
    ensures Below(x, s, key)
  {
    forall j | 0 <= j < |s|
      ensures Compare(key(x), key(s[j]), false) <= 0
    {
      if j > 0 {
        CompareTransitive(key(x), key(s[0]), key(s[j]), false);
      }
    }
  }

  lemma BelowMembers<T>(x: T, s: seq<T>, t: seq<T>, u: seq<T>, key: T -> string)
    requires Below(x, s, key) && Below(x, t, key) && multiset(u) == multiset(s) + multiset(t)
    ensures Below(x, u, key)
  {
    forall j | 0 <= j < |u|
      ensures Compare(key(x), key(u[j]), false) <= 0
    {
      assert u[j] in multiset(u);
      assert u[j] in s || u[j] in t;
    }
  }

  lemma {:induction false} MergeAscends<T>(a: seq<T>, b: seq<T>, key: T -> string)
    requires NulFreeKeys(a, key) && NulFreeKeys(b, key)
    requires Ascending(a, key, false) && Ascending(b, key, false)
    ensures Ascending(Merge(a, b, key), key, false)
    decreases |a| + |b|
  {
    if a != [] && b != [] {
      CompareAntisymmetric(key(a[0]), key(b[0]), false);
      if Compare(key(a[0]), key(b[0]), false) < 0 {
        MergeAscends(a[1..], b, key);
        BelowTransitive(a[0], b, key);
        BelowMembers(a[0], a[1..], b, Merge(a[1..], b, key), key);
        AscendingCons(a[0], Merge(a[1..], b, key), key);
      } else {
        MergeAscends(a, b[1..], key);
        BelowTransitive(b[0], a, key);
        BelowMembers(b[0], a, b[1..], Merge(a, b[1..], key), key);
        AscendingCons(b[0], Merge(a, b[1..], key), key);
      }
    }
  }

  lemma SameElements<T>(s: seq<T>, t: seq<T>, key: T -> string)
    requires multiset(s) == multiset(t) && NulFreeKeys(s, key)
    ensures NulFreeKeys(t, key)
  {
    forall i | 0 <= i < |t|
      ensures NulFree(key(t[i]))
    {
      assert t[i] in multiset(s);
    }
  }

  /** Without case sensitivity the result is sorted, for every list of keys. */
  lemma {:induction false} SortAscends<T>(s: seq<T>, key: T -> string)
    requires NulFreeKeys(s, key)
    ensures Ascending(Sort(s, key, false), key, false)
    decreases |s|
  {
    if |s| < 2 {
    } else if StrictlyAscending(s, key, false) {
      forall i, j | 0 <= i < j < |s|
        ensures Compare(key(s[i]), key(s[j]), false) <= 0
      {
        StrictlyAscendingPairs(s, key, false, i, j);
      }
    } else {
      var mid := (|s| + 1) / 2;
      SortAscends(s[..mid], key);
      SortAscends(s[mid..], key);
      SameElements(s[..mid], Sort(s[..mid], key, false), key);
      SameElements(s[mid..], Sort(s[mid..], key, false), key);
      MergeAscends(Sort(s[..mid], key, false), Sort(s[mid..], key, false), key);
    }
  }

  /** x comes strictly before everything else in s. */
  ghost predicate StrictlyFirst<T>(s: seq<T>, key: T -> string)
    requires s != []
  {
    forall i :: 0 < i < |s| ==> Compare(key(s[0]), key(s[i]), false) < 0
  }

  /** The first element stays first exactly when its key is smaller than every other; on a tie the later
      one is put in front. */
  lemma {:induction false} FirstStays<T>(s: seq<T>, key: T -> string)
    requires s != [] && NulFreeKeys(s, key) && forall i :: 0 < i < |s| ==> s[i] != s[0]
    ensures Sort(s, key, false)[0] == s[0] <==> StrictlyFirst(s, key)
    decreases |s|
  {
    if |s| < 2 {
    } else if StrictlyAscending(s, key, false) {
      forall i | 0 < i < |s|
        ensures Compare(key(s[0]), key(s[i]), false) < 0
      {
        StrictlyAscendingPairs(s, key, false, 0, i);
      }
    } else {
      var mid := (|s| + 1) / 2;
      FirstStays(s[..mid], key);
      FirstOfHalves(s, key, mid, Sort(s[..mid], key, false), Sort(s[mid..], key, false));
    }
  }

  lemma FirstOfHalves<T>(s: seq<T>, key: T -> string, mid: nat, a: seq<T>, b: seq<T>)
    requires 0 < mid < |s| && NulFreeKeys(s, key) && forall i :: 0 < i < |s| ==> s[i] != s[0]
    requires a == Sort(s[..mid], key, false) && b == Sort(s[mid..], key, false)
    requires a[0] == s[0] <==> StrictlyFirst(s[..mid], key)
    ensures Merge(a, b, key)[0] == s[0] <==> StrictlyFirst(s, key)
  {
    hide Compare, Sort, NulFree;
    SortAscends(s[mid..], key);
    SameElements(s[mid..], b, key);
    FromPermutation(b, s[mid..], 0);
    var j :| mid <= j < |s| && s[j] == b[0];
    if a[0] == s[0] && Compare(key(s[0]), key(b[0]), false) < 0 {
      forall i | mid <= i < |s|
        ensures Compare(key(s[0]), key(s[i]), false) < 0
      {
        assert s[mid..][i - mid] == s[i];
        FromPermutation(s[mid..], b, i - mid);
        var k :| 0 <= k < |b| && b[k] == s[i];
        if k > 0 {
          CompareTransitive(key(s[0]), key(b[0]), key(b[k]), false);
        }
      }
      forall i | 0 < i < mid
        ensures Compare(key(s[0]), key(s[i]), false) < 0
      {
        assert s[..mid][i] == s[i];
      }
    }
    if StrictlyFirst(s, key) {
      assert forall i :: 0 < i < mid ==> s[..mid][i] == s[i];
    }
  }

  lemma FromPermutation<T>(a: seq<T>, b: seq<T>, i: nat)
    requires i < |a| && multiset(a) == multiset(b)
    ensures a[i] in b
  {
    assert a[i] in multiset(a);
  }

  function MemberKey(m: Member): string {
    m.key
  }

  /** The members of an object as a sort leaves them. */
  function SortMembers(ms: seq<Member>, caseSensitive: bool): (r: seq<Member>)
    ensures multiset(r) == multiset(ms)
    ensures MembersDepth(r) <= MembersDepth(ms)
  {
    var r := Sort(ms, MemberKey, caseSensitive);
    DepthOfPermutation(ms, r);
    r
  }

  lemma DepthOfPermutation(a: seq<Member>, b: seq<Member>)
    requires multiset(a) == multiset(b)
    ensures MembersDepth(b) <= MembersDepth(a)
  {
    forall i | 0 <= i < |b|
      ensures Depth(b[i].val) <= MembersDepth(a)
    {
      assert b[i] in multiset(a);
    }
    MembersDepthLeast(b, MembersDepth(a));
  }

  ghost predicate PlainKeys<T>(s: seq<T>, key: T -> string) {
    forall i :: 0 <= i < |s| ==> Plain(key(s[i]))
  }

  /** On plain keys the flag makes no difference to the sort. */
  lemma {:induction false} SortIgnoresCaseFlag<T>(s: seq<T>, key: T -> string, caseSensitive: bool)
    requires PlainKeys(s, key)
    ensures Sort(s, key, caseSensitive) == Sort(s, key, false)
    decreases |s|
  {
    if |s| >= 2 {
      forall i | 0 <= i < |s| - 1
        ensures (Compare(key(s[i]), key(s[i + 1]), caseSensitive) < 0) == (Compare(key(s[i]), key(s[i + 1]), false) < 0)
      {
        ComparePlain(key(s[i]), key(s[i + 1]), caseSensitive);
        ComparePlain(key(s[i]), key(s[i + 1]), false);
      }
      assert StrictlyAscending(s, key, caseSensitive) == StrictlyAscending(s, key, false);
      var mid := (|s| + 1) / 2;
      SortIgnoresCaseFlag(s[..mid], key, caseSensitive);
      SortIgnoresCaseFlag(s[mid..], key, caseSensitive);
    }
  }

  /** Members in strict key order. */
  ghost predicate InOrder(ms: seq<Member>) {
    forall i, j :: 0 <= i < j < |ms| ==> Compare(ms[i].key, ms[j].key, true) < 0
  }

  /** Sorting plain members gives plain members in strict key order, with the meaning they had. */
  lemma SortPlain(ms: seq<Member>, caseSensitive: bool)
    requires PlainMembers(ms)
    ensures PlainMembers(SortMembers(ms, caseSensitive)) && InOrder(SortMembers(ms, caseSensitive))
    ensures MembersMeaning(SortMembers(ms, caseSensitive)) == MembersMeaning(ms)
  {
    var r := SortMembers(ms, caseSensitive);
    SortIgnoresCaseFlag(ms, MemberKey, caseSensitive);
    SortAscends(ms, MemberKey);
    MeaningOfPermutation(ms, r);
    forall i | 0 <= i < |r|
      ensures Plain(r[i].key) && PlainTree(r[i].val)
    {
      assert r[i] in multiset(ms);
    }
    forall i, j | 0 <= i < j < |r|
      ensures Compare(r[i].key, r[j].key, true) < 0
    {
      assert Compare(MemberKey(r[i]), MemberKey(r[j]), false) <= 0;
      ComparePlain(r[i].key, r[j].key, false);
    }
  }
}
