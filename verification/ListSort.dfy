/** sort_list: the mergesort of `KeySort`, done by relinking the nodes of a list. The sequences of nodes are ghost
    parameters: what the list is before, and what the merge has strung together so far. The last link of a half is set
    when the halves are put together. */
module ListSort {
  import opened CStrings
  import opened ChildLists
  import opened KeySort

  function ItemKey(n: Item): string {
    n.key
  }

  /** The test for a list that is in strict order already. */
  method IsSorted(list: Item, caseSensitive: bool, ghost s: seq<Item>) returns (sorted: bool)
    requires Linked(list, s)
    ensures sorted == StrictlyAscending(s, ItemKey, caseSensitive)
  {
    var current := list;
    ghost var i := 0;
    while current.next != null && Compare(current.key, current.next.key, caseSensitive) < 0
      invariant i < |s| && current == s[i]
      invariant forall k :: 0 <= k < i ==> Compare(ItemKey(s[k]), ItemKey(s[k + 1]), caseSensitive) < 0
      decreases |s| - i
    {
      current := current.next;
      i := i + 1;
    }
    return current.next == null;
  }

  /** Two pointers, one twice as fast, find where the second half starts. */
  method FindMiddle(list: Item, ghost s: seq<Item>) returns (second: Item)
    requires Linked(list, s) && |s| >= 2
    ensures second == s[(|s| + 1) / 2]
  {
    var slow: Item?, current: Item? := list, list;
    ghost var i := 0;
    while current != null
      invariant 0 <= i <= (|s| + 1) / 2 && slow == s[i]
      invariant current == if 2 * i < |s| then s[2 * i] else null
      decreases |s| - i
    {
      slow := slow.next;
      current := current.next;
      if current != null {
        current := current.next;
      }
      i := i + 1;
    }
    return slow;
  }

  /** Nodes in a row, the last one's `next` not yet set: what a merge has so far. */
  ghost predicate Strung(head: Item?, tail: Item?, r: seq<Item>)
    reads r
  {
    && (if r == [] then head == null && tail == null else head == r[0] && tail == r[|r| - 1])
    && (forall i {:trigger r[i].next} :: 0 <= i < |r| - 1 ==> r[i].next == r[i + 1])
    && (forall i {:trigger r[i].prev} :: 0 < i < |r| ==> r[i].prev == r[i - 1])
    && Distinct(r)
  }

  ghost predicate Apart(a: seq<Item>, b: seq<Item>) {
    forall i, j :: 0 <= i < |a| && 0 <= j < |b| ==> a[i] != b[j]
  }

  /** The next node goes behind the others. */
  method LinkBehind(head: Item?, tail: Item?, node: Item, ghost r: seq<Item>)
    requires Strung(head, tail, r) && node !in r
    modifies if tail == null then {} else {tail}`next, if tail == null then {} else {node}`prev
    ensures Strung(if head == null then node else head, node, r + [node])
  {
    if tail != null {
      tail.next := node;
      node.prev := tail;
    }
  }

  /** The first node of one list goes behind the merged ones; the other list is left alone. */
  method TakeFirst(head: Item?, tail: Item?, node: Item, other: Item?, ghost r: seq<Item>, ghost x: seq<Item>,
      ghost y: seq<Item>)
    returns (next: Item?)
    requires Strung(head, tail, r) && Linked(node, x) && Linked(other, y) && Apart(r, x) && Apart(r, y) && Apart(x, y)
    modifies if tail == null then {} else {tail}`next, if tail == null then {} else {node}`prev
    ensures Strung(if head == null then node else head, node, r + [node])
    ensures Linked(next, x[1..]) && Linked(other, y)
    ensures Apart(r + [node], x[1..]) && Apart(r + [node], y) && Apart(x[1..], y)
    ensures head != null ==> head.prev == old(head.prev)
  {
    LinkBehind(head, tail, node, r);
    next := node.next;
  }

  ghost predicate Among(a: seq<Item>, b: seq<Item>, s: seq<Item>) {
    (forall n :: n in a ==> n in s) && (forall n :: n in b ==> n in s)
  }

  /** Merged nodes and what is left of the two lists. */
  ghost predicate Merging(head: Item?, tail: Item?, first: Item?, second: Item?, r: seq<Item>, x: seq<Item>,
      y: seq<Item>)
    reads r, x, y
  {
    Strung(head, tail, r) && Linked(first, x) && Linked(second, y) && Apart(r, x) && Apart(r, y) && Apart(x, y)
  }

  /** The nodes are those of a and b, and the goal is their merge. */
  ghost predicate Within(head: Item?, r: seq<Item>, x: seq<Item>, y: seq<Item>, a: seq<Item>, b: seq<Item>) {
    && a != [] && b != [] && Merge(a, b, ItemKey) == r + Merge(x, y, ItemKey)
    && if head == null then x == a && y == b else head == a[0] || head == b[0]
  }

  lemma WithinMembers(head: Item?, r: seq<Item>, x: seq<Item>, y: seq<Item>, a: seq<Item>, b: seq<Item>, n: Item)
    requires Within(head, r, x, y, a, b) && (n in r || n in x || n in y)
    ensures n in a || n in b
  {
    assert multiset(a) + multiset(b) == multiset(r + Merge(x, y, ItemKey)) == multiset(r) + (multiset(x) + multiset(y));
    assert n in multiset(r) + (multiset(x) + multiset(y));
    assert n in multiset(a) || n in multiset(b);
  }

  lemma WithinAfter(head: Item?, r: seq<Item>, x: seq<Item>, y: seq<Item>, a: seq<Item>, b: seq<Item>)
    requires Within(head, r, x, y, a, b) && x != [] && y != []
    ensures var one := Compare(x[0].key, y[0].key, false) < 0;
            var node, u, v := if one then x[0] else y[0], if one then x[1..] else x, if one then y else y[1..];
            Within(if head == null then node else head, r + [node], u, v, a, b)
  {
    hide Merge, Compare;
    MergeHead(x, y);
    if Compare(x[0].key, y[0].key, false) < 0 {
      Regroup(r, x[0], Merge(x[1..], y, ItemKey));
    } else {
      Regroup(r, y[0], Merge(x, y[1..], ItemKey));
    }
  }

  lemma Regroup<T>(a: seq<T>, x: T, b: seq<T>)
    ensures a + ([x] + b) == (a + [x]) + b
  {
  }

  lemma MergingNodes(head: Item?, tail: Item?, first: Item?, second: Item?, r: seq<Item>, x: seq<Item>, y: seq<Item>,
                     a: seq<Item>, b: seq<Item>, s: seq<Item>)
    requires Merging(head, tail, first, second, r, x, y) && Within(head, r, x, y, a, b) && Among(a, b, s)
    ensures first != null ==> x != [] && first == x[0] && first in s
    ensures second != null ==> y != [] && second == y[0] && second in s
    ensures tail != null ==> tail in s
    ensures head == null <==> tail == null
    ensures first == null <==> x == []
    ensures second == null <==> y == []
  {
    if tail != null {
      WithinMembers(head, r, x, y, a, b, tail);
    }
    if first != null {
      WithinMembers(head, r, x, y, a, b, first);
    }
    if second != null {
      WithinMembers(head, r, x, y, a, b, second);
    }
  }

  /** One turn of the merge loop. */
  method MergeTurn(head: Item?, tail: Item?, first: Item, second: Item, ghost r: seq<Item>, ghost x: seq<Item>,
      ghost y: seq<Item>,
                   ghost a: seq<Item>, ghost b: seq<Item>, ghost s: seq<Item>)
    returns (node: Item, next1: Item?, next2: Item?, ghost u: seq<Item>, ghost v: seq<Item>)
    requires Merging(head, tail, first, second, r, x, y) && Within(head, r, x, y, a, b) && Among(a, b, s)
    modifies s`next, s`prev
    ensures var h := if head == null then node else head;
            && Merging(h, node, next1, next2, r + [node], u, v) && Within(h, r + [node], u, v, a, b)
            && h.prev == old(h.prev)
    ensures |u| + |v| < |x| + |y| && (next1 != null || next2 != null)
    ensures node == first || node == second
  {
    hide Merge, Strung, Linked, Within;
    MergingNodes(head, tail, first, second, r, x, y, a, b, s);
    WithinAfter(head, r, x, y, a, b);
    next1, next2, u, v := first, second, x, y;
    if Compare(first.key, second.key, false) < 0 {
      node, u := first, x[1..];
      next1 := TakeFirst(head, tail, first, second, r, x, y);
    } else {
      node, v := second, y[1..];
      next2 := TakeFirst(head, tail, second, first, r, y, x);
    }
  }

  lemma MergeHead(x: seq<Item>, y: seq<Item>)
    requires x != [] && y != []
    ensures Merge(x, y, ItemKey) == if Compare(x[0].key, y[0].key, false) < 0 then [x[0]] + Merge(x[1..], y, ItemKey)
                                    else [y[0]] + Merge(x, y[1..], ItemKey)
  {
  }

  /** The merge loop, always ignoring case. */
  method MergeLists(firstHalf: Item?, secondHalf: Item?, ghost a: seq<Item>, ghost b: seq<Item>, ghost s: seq<Item>)
    returns (result: Item?)
    requires Linked(firstHalf, a) && Linked(secondHalf, b) && Apart(a, b) && a != [] && b != [] && Among(a, b, s)
    modifies s`next, s`prev
    ensures Linked(result, Merge(a, b, ItemKey))
    ensures (result == a[0] || result == b[0]) && result in s && result.prev == old(result.prev)
  {
    hide Merge, Merging, Within;
    assert a[0] in a && b[0] in b;
    var first, second, tail: Item? := firstHalf, secondHalf, null;
    result := null;
    ghost var x, y := a, b;
    ghost var r: seq<Item> := [];
    MergingStarts(first, second, a, b);
    while first != null && second != null
      invariant Merging(result, tail, first, second, r, x, y) && Within(result, r, x, y, a, b)
      invariant first != null || second != null
      invariant if result == null then first == a[0] && second == b[0] && first.prev == old(a[0].prev)
          && second.prev == old(b[0].prev)
                else (result == a[0] || result == b[0]) && result.prev == old(result.prev)
      decreases |x| + |y|
    {
      var node, next1, next2;
      ghost var u, v;
      node, next1, next2, u, v := MergeTurn(result, tail, first, second, r, x, y, a, b, s);
      result, tail := if result == null then node else result, node;
      first, second, r, x, y := next1, next2, r + [node], u, v;
    }
    result := MergeRest(result, tail, first, second, r, x, y, a, b, s);
  }

  lemma MergingStarts(first: Item?, second: Item?, a: seq<Item>, b: seq<Item>)
    requires Linked(first, a) && Linked(second, b) && Apart(a, b) && a != [] && b != []
    ensures Merging(null, null, first, second, [], a, b) && Within(null, [], a, b, a, b)
    ensures first == a[0] && second == b[0]
  {
  }

  /** After the loop: the rest of the list that is not used up. */
  method MergeRest(head: Item?, tail: Item?, first: Item?, second: Item?, ghost r: seq<Item>, ghost x: seq<Item>,
      ghost y: seq<Item>,
                   ghost a: seq<Item>, ghost b: seq<Item>, ghost s: seq<Item>) returns (result: Item?)
    requires Merging(head, tail, first, second, r, x, y) && Within(head, r, x, y, a, b) && Among(a, b, s)
        && head != null
    requires (first == null) != (second == null)
    modifies s`next, s`prev
    ensures Linked(result, Merge(a, b, ItemKey)) && result == head && head.prev == old(head.prev)
  {
    hide Merge, Strung, Linked;
    MergingNodes(head, tail, first, second, r, x, y, a, b, s);
    MergeEnds(x, y);
    result := head;
    if first != null {
      result := AppendRest(head, tail, first, r, x);
    } else if second != null {
      result := AppendRest(head, tail, second, r, y);
    }
  }

  lemma MergeEnds(x: seq<Item>, y: seq<Item>)
    requires x == [] || y == []
    ensures Merge(x, y, ItemKey) == if x == [] then y else x
  {
  }

  /** What is left of one list goes behind the merged nodes. */
  method AppendRest(head: Item?, tail: Item?, rest: Item, ghost r: seq<Item>, ghost x: seq<Item>) returns (result: Item)
    requires Strung(head, tail, r) && Linked(rest, x) && Apart(r, x)
    modifies if tail == null then {} else {tail}`next, if tail == null then {} else {rest}`prev
    ensures Linked(result, r + x) && result == (r + x)[0]
    ensures head != null ==> result == head && head.prev == old(head.prev)
  {
    if head == null {
      assert r + x == x;
      return rest;
    }
    tail.next := rest;
    rest.prev := tail;
    return head;
  }

  /** The two halves have no node in common, sorted or not, and all their nodes are in the list. */
  lemma HalvesApart(s: seq<Item>, k: nat, a: seq<Item>, b: seq<Item>)
    requires Distinct(s) && k <= |s| && multiset(a) == multiset(s[..k]) && multiset(b) == multiset(s[k..])
    ensures Apart(s[k..], s[..k]) && Apart(a, s[k..]) && Apart(a, b) && Among(a, b, s)
    ensures forall n :: n in s[..k] ==> n in s
    ensures forall n :: n in s[k..] ==> n in s
  {
    forall n | n in a
      ensures n in s[..k]
    {
      assert n in multiset(a);
    }
    forall n | n in b
      ensures n in s[k..]
    {
      assert n in multiset(b);
    }
    assert forall i :: 0 <= i < |a| ==> a[i] in a;
    assert forall i :: 0 <= i < |b| ==> b[i] in b;
  }

  /** The list is cut in front of its middle. */
  method Split(list: Item, second: Item, ghost s: seq<Item>, ghost mid: nat)
    requires Linked(list, s) && 0 < mid < |s| && second == s[mid]
    modifies s`next
    ensures Linked(list, s[..mid]) && Linked(second, s[mid..])
  {
    second.prev.next := null;
  }

  lemma ListEnds(list: Item?, s: seq<Item>)
    requires Linked(list, s)
    ensures list == null <==> s == []
    ensures list != null ==> list == s[0] && (list.next == null <==> |s| == 1) && Distinct(s)
  {
  }

  method SortList(list: Item?, caseSensitive: bool, ghost s: seq<Item>) returns (result: Item?)
    requires Linked(list, s)
    modifies s`next, s`prev
    ensures Linked(result, Sort(s, ItemKey, caseSensitive))
    ensures result != null ==> result in s && result.prev == old(result.prev)
    decreases |s|, 0
  {
    hide Sort, Merge, Linked, Apart, Distinct, StrictlyAscending, Among;
    SortEnds(s, caseSensitive);
    ListEnds(list, s);
    if list == null || list.next == null {
      return list;
    }
    var sorted := IsSorted(list, caseSensitive, s);
    if sorted {
      return list;
    }
    var second: Item? := FindMiddle(list, s);
    ghost var mid := (|s| + 1) / 2;
    ghost var a, b := Sort(s[..mid], ItemKey, caseSensitive), Sort(s[mid..], ItemKey, caseSensitive);
    HalvesApart(s, mid, a, b);
    Split(list, second, s, mid);
    var first := SortOther(list, caseSensitive, s[..mid], second, s[mid..]);
    second := SortOther(second, caseSensitive, s[mid..], first, a);
    result := MergeLists(first, second, a, b, s);
  }

  /** Sorting one list leaves another alone. */
  method SortOther(list: Item?, caseSensitive: bool, ghost s: seq<Item>, other: Item?, ghost t: seq<Item>)
      returns (result: Item?)
    requires Linked(list, s) && Linked(other, t) && Apart(t, s)
    modifies s`next, s`prev
    ensures Linked(result, Sort(s, ItemKey, caseSensitive)) && Linked(other, t)
    ensures result != null ==> result in s && result.prev == old(result.prev)
    ensures other != null ==> other.prev == old(other.prev)
    decreases |s|, 1
  {
    result := SortList(list, caseSensitive, s);
  }

  lemma SortEnds(s: seq<Item>, caseSensitive: bool)
    ensures Sort(s, ItemKey, caseSensitive)
         == if |s| < 2 || StrictlyAscending(s, ItemKey, caseSensitive) then s
            else Merge(Sort(s[..(|s| + 1) / 2], ItemKey, caseSensitive),
              Sort(s[(|s| + 1) / 2..], ItemKey, caseSensitive), ItemKey)
  {
  }

  /** sort_object. The children are put in order, but `prev` of the first is not cleared: a first child that has
      moved there still has the one before it that it had. So a well-formed list stays well-formed exactly
      when the first child is still the first. */
  method SortObject(parent: Item, caseSensitive: bool)
    requires parent.Loose()
    modifies parent`child, parent`children, parent.children`next, parent.children`prev
    ensures parent.Loose() && parent.children == Sort(old(parent.children), ItemKey, caseSensitive)
    ensures parent.children != [] ==>
      if parent.children[0] == old(parent.children)[0] then parent.children[0].prev == old(parent.children[0].prev)
      else parent.children[0].prev in parent.children[1..]
    ensures old(parent.Valid()) ==>
        (parent.Valid() <==> parent.children == [] || parent.children[0] == old(parent.children)[0])
    ensures var s := old(parent.children);
            !caseSensitive && old(parent.Valid()) && s != [] && NulFreeKeys(s, ItemKey) ==>
              (parent.Valid() <==> StrictlyFirst(s, ItemKey))
  {
    hide Sort, Linked, StrictlyFirst, Distinct;
    ghost var s, t := parent.children, Sort(parent.children, ItemKey, caseSensitive);
    ListEnds(parent.child, s);
    if s != [] {
      HeadBefore(s, t);
      if NulFreeKeys(s, ItemKey) {
        OthersDiffer(s);
        FirstStays(s, ItemKey);
      }
    }
    parent.child := SortList(parent.child, caseSensitive, s);
    parent.children := t;
    InPermutation(s, t, parent);
    ListEnds(parent.child, t);
  }

  lemma OthersDiffer(s: seq<Item>)
    requires Distinct(s) && s != []
    ensures forall i :: 0 < i < |s| ==> s[i] != s[0]
  {
  }

  /** A node that comes to the front from further back has another node of the list before it. */
  lemma HeadBefore(s: seq<Item>, t: seq<Item>)
    requires s != [] && Linked(s[0], s) && multiset(s) == multiset(t) && |t| == |s|
    ensures t[0] != s[0] ==> t[0].prev in t[1..]
  {
    assert t[0] in multiset(s);
    if t[0] != s[0] {
      var j :| 0 < j < |s| && s[j] == t[0];
      assert s[j].prev == s[j - 1] && s[j - 1] != t[0];
      assert s[j - 1] in multiset(t);
    }
  }

  lemma InPermutation(a: seq<Item>, b: seq<Item>, n: Item)
    requires multiset(a) == multiset(b)
    ensures n in b ==> n in a
  {
    assert n in b ==> n in multiset(b);
  }
}
