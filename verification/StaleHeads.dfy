/** What sorting in place does to the operations that come after it. The test of a JSON patch sorts the object it
    looks at; the first child can then have another before it, and detaching that child breaks the list. A run of tests,
    removals and additions is followed up here with a mark for such a first child. */
module StaleHeads {
  import opened CStrings
  import opened JsonTree
  import opened KeySort
  import opened ChildLists
  import opened ListSort

  /** What patches do to one object: test it, detach a child by its name, append a child. */
  datatype Step = Test(caseSensitive: bool) | Detach(name: string) | Append(item: Item)

  /** An object's children, and whether the first of them has another node before it. */
  datatype View = View(children: seq<Item>, stale: bool)

  function After(v: View, step: Step): View {
    match step
    case Test(caseSensitive) =>
      var t := Sort(v.children, ItemKey, caseSensitive);
      View(t, v.stale || (t != [] && t[0] != v.children[0]))
    case Detach(name) =>
      var i := FindItem(v.children, name, false);
      if i < |v.children| then View(v.children[..i] + v.children[i + 1..], v.stale && i > 0) else v
    case Append(item) => View(v.children + [item], v.stale)
  }

  /** The step does not detach a first child with another node before it. */
  predicate Sound(v: View, step: Step) {
    step.Detach? && v.stale ==> FindItem(v.children, step.name, false) > 0
  }

  predicate SoundRun(v: View, steps: seq<Step>)
    decreases |steps|
  {
    steps != [] ==> Sound(v, steps[0]) && SoundRun(After(v, steps[0]), steps[1..])
  }

  function AfterAll(v: View, steps: seq<Step>): View
    decreases |steps|
  {
    if steps == [] then v else AfterAll(After(v, steps[0]), steps[1..])
  }

  /** The object has these children, in a list that is sound but for the node before the first. */
  ghost predicate Shows(parent: Item, v: View)
    reads parent, parent.children
  {
    && parent.Loose() && parent.children == v.children
    && if v.children == [] then !v.stale else v.stale <==> v.children[0].prev != null
  }

  /** A node that can be appended. */
  ghost predicate Ready(parent: Item, step: Step)
    reads parent, if step.Append? then {step.item} else {}
  {
    step.Append? ==> step.item.Detached() && step.item !in parent.children && step.item != parent
  }

  method Perform(parent: Item, step: Step, ghost v: View)
    requires Shows(parent, v) && Sound(v, step) && Ready(parent, step)
    modifies parent`child, parent`children, parent.children`next, parent.children`prev
    modifies (if step.Append? then {step.item} else {})`next, (if step.Append? then {step.item} else {})`prev
    ensures Shows(parent, After(v, step))
  {
    hide Linked, Sort, FindItem;
    match step {
      case Test(caseSensitive) => SortObject(parent, caseSensitive);
      case Detach(name) =>
        var r := parent.DetachItemFromObject(name, false);
      case Append(item) => parent.AddItemToArray(item);
    }
  }

  ghost function Items(steps: seq<Step>): set<Item> {
    set s | s in steps && s.Append? :: s.item
  }

  ghost predicate AllReady(parent: Item, steps: seq<Step>)
    reads parent, Items(steps)
  {
    && (forall k :: 0 <= k < |steps| ==> Ready(parent, steps[k]))
    && (forall j, k :: 0 <= j < k < |steps| && steps[j].Append? && steps[k].Append? ==> steps[j].item != steps[k].item)
  }

  /** Any run of such steps keeps the children as it should, if and as long as no step detaches a first child with
      another before it. */
  method Run(parent: Item, steps: seq<Step>)
    requires parent.Valid() && AllReady(parent, steps) && SoundRun(View(parent.children, false), steps)
    modifies parent`child, parent`children, parent.children`next, parent.children`prev, Items(steps)`next,
        Items(steps)`prev
    ensures Shows(parent, AfterAll(View(old(parent.children), false), steps))
  {
    hide Linked, After, Sound, SoundRun, AfterAll;
    ghost var v, nodes := View(parent.children, false), Items(steps) + set n | n in parent.children;
    var i: nat := 0;
    assert steps[0..] == steps;
    while i < |steps|
      invariant i <= |steps| && Shows(parent, v) && SoundRun(v, steps[i..]) && AllReady(parent, steps[i..])
      invariant AfterAll(View(old(parent.children), false), steps) == AfterAll(v, steps[i..])
      invariant forall n :: n in parent.children ==> n in nodes
    {
      OneStep(v, steps, i);
      assert steps[i..][0] == steps[i] && steps[i..][1..] == steps[i + 1..];
      Perform(parent, steps[i], v);
      AfterNodes(v, steps[i]);
      v, i := After(v, steps[i]), i + 1;
    }
    assert steps[i..] == [];
    NoStep(v);
  }

  lemma OneStep(v: View, steps: seq<Step>, i: nat)
    requires i < |steps| && SoundRun(v, steps[i..])
    ensures Sound(v, steps[i]) && SoundRun(After(v, steps[i]), steps[i + 1..])
    ensures AfterAll(v, steps[i..]) == AfterAll(After(v, steps[i]), steps[i + 1..])
  {
    hide Sound, After;
    assert steps[i..][1..] == steps[i + 1..];
  }

  lemma NoStep(v: View)
    ensures AfterAll(v, []) == v
  {
  }

  lemma AfterNodes(v: View, step: Step)
    ensures forall n :: n in After(v, step).children ==> n in v.children || (step.Append? && n == step.item)
  {
    if step.Test? {
      forall n | n in After(v, step).children
        ensures n in v.children
      {
        InPermutation(v.children, After(v, step).children, n);
      }
    }
  }

  /** A test and then the removal of a member: the list is still a list exactly if the member is not one that the
      sort has brought to the front, and ignoring case that is when the old first child has the smallest key or
      another child is removed. */
  method TestThenDetach(parent: Item, name: string, caseSensitive: bool)
    requires parent.Valid()
    modifies parent`child, parent`children, parent.children`next, parent.children`prev
    ensures var s, t := old(parent.children), Sort(old(parent.children), ItemKey, caseSensitive);
            var i := FindItem(t, name, false);
            && parent.children == (if i < |t| then t[..i] + t[i + 1..] else t)
            && (Linked(parent.child, parent.children) <==>
              SoundRun(View(s, false), [Test(caseSensitive), Detach(name)]))
            && (!caseSensitive && s != [] && NulFreeKeys(s, ItemKey) ==>
                 (Linked(parent.child, parent.children) <==> i > 0 || StrictlyFirst(s, ItemKey)))
  {
    hide Linked, Sort, FindItem, StrictlyFirst, SoundRun, NulFreeKeys;
    ghost var s := parent.children;
    SortObject(parent, caseSensitive);
    SoundAfterTest(s, name, caseSensitive);
    var r := parent.GetObjectItem(name, false);
    if r != null {
      ghost var i := FindItem(parent.children, name, false);
      PrevInside(parent, s, i);
      parent.DetachItemViaPointer(r, i);
    }
  }

  lemma SoundAfterTest(s: seq<Item>, name: string, caseSensitive: bool)
    ensures var t := Sort(s, ItemKey, caseSensitive);
            SoundRun(View(s, false), [Test(caseSensitive), Detach(name)])
            <==> t == [] || t[0] == s[0] || FindItem(t, name, false) > 0
  {
    hide Sort, FindItem;
    var v, a, b := View(s, false), Test(caseSensitive), Detach(name);
    assert [a, b][1..] == [b] && [b][1..] == [];
    assert SoundRun(After(v, a), [b]) == Sound(After(v, a), b);
  }

  lemma PrevInside(parent: Item, s: seq<Item>, i: nat)
    requires parent.Loose() && i < |parent.children| && multiset(parent.children) == multiset(s)
    requires parent.children[0].prev != null ==> parent.children[0].prev in parent.children[1..]
    ensures parent.children[i].prev != null ==> parent.children[i].prev in s
    ensures forall k :: 0 <= k < |parent.children| ==> parent.children[k] in s
  {
    forall k | 0 <= k < |parent.children|
      ensures parent.children[k] in s
    {
      InPermutation(s, parent.children, parent.children[k]);
    }
    var p := parent.children[i].prev;
    if p != null {
      assert i > 0 ==> p == parent.children[i - 1];
    }
  }

  /** The document {"b":1,"a":2}. */
  method Pair() returns (parent: Item, b: Item, a: Item)
    ensures b.key == "b" && a.key == "a" && parent.Valid() && parent.children == [b, a]
    ensures fresh(parent) && fresh(b) && fresh(a)
  {
    hide Linked;
    parent := new Item(ObjectKind, "");
    b := new Item(Leaf(Number(1)), "b");
    a := new Item(Leaf(Number(2)), "a");
    parent.AddItemToArray(b);
    parent.AddItemToArray(a);
  }

  /** A test of it, then the removal of "a", and "b" is left behind itself. */
  method CircleAfterTest(caseSensitive: bool) returns (parent: Item, b: Item)
    ensures b.key == "b" && parent.child == b && b.next == b && b.prev == b
  {
    hide Sort, FindItem;
    var a;
    parent, b, a := Pair();
    SortedPair(b, a, caseSensitive);
    SortObject(parent, caseSensitive);
    assert a.next == b && b.prev == a && a.prev == b;
    var r := parent.GetObjectItem("a", false);
    parent.DetachItemViaPointer(r, 0);
  }

  lemma SortedPair(b: Item, a: Item, caseSensitive: bool)
    requires b.key == "b" && a.key == "a"
    ensures Sort([b, a], ItemKey, caseSensitive) == [a, b] && FindItem([a, b], "a", false) == 0
  {
    hide Compare, Sort, Merge, FindItem;
    KeysApart(caseSensitive);
    KeysApart(false);
    FindFirst([a, b], "a");
    var s := [b, a];
    assert Compare(ItemKey(s[0]), ItemKey(s[1]), caseSensitive) > 0;
    SortEnds(s, caseSensitive);
    SortOne(s[..1], b, caseSensitive);
    SortOne(s[1..], a, caseSensitive);
    MergePair(b, a);
  }

  lemma SortOne(s: seq<Item>, n: Item, caseSensitive: bool)
    requires s == [n]
    ensures Sort(s, ItemKey, caseSensitive) == [n]
  {
  }

  lemma MergePair(b: Item, a: Item)
    requires Compare(b.key, a.key, false) >= 0
    ensures Merge([b], [a], ItemKey) == [a, b]
  {
    hide Compare;
    assert [a][1..] == [] && [a] + [b] == [a, b];
    assert Merge([b], [], ItemKey) == [b];
  }

  lemma FindFirst(s: seq<Item>, name: string)
    requires s != [] && Compare(name, s[0].key, false) == 0
    ensures FindItem(s, name, false) == 0
  {
  }

  lemma KeysApart(caseSensitive: bool)
    ensures Compare("b", "a", caseSensitive) > 0 && Compare("a", "a", caseSensitive) == 0
  {
  }
}
