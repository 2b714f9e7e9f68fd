/** cJSON_Duplicate: a copy of a node, or of a whole tree of nodes. A tree in the heap is described by its shape, the
    nodes and how they hang together; `Stands` says that the lists are well-formed and nothing is in two places,
    `Spells` what a traversal along `next` sees. */
module Duplication {
  import opened CStrings
  import opened JsonTree
  import opened ChildLists
  import opened Comparison

  /** The nodes of a tree: a node and the trees of its children. */
  datatype Shape = Shape(node: Item, below: seq<Shape>)

  ghost function Nodes(t: Shape): (r: set<Item>)
    ensures t.node in r
  {
    {t.node} + NodesOf(t.below)
  }

  ghost function NodesOf(ts: seq<Shape>): (r: set<Item>)
    ensures forall i {:trigger ts[i]} :: 0 <= i < |ts| ==> Nodes(ts[i]) <= r
  {
    if ts == [] then {} else Nodes(ts[0]) + NodesOf(ts[1..])
  }

  ghost function Roots(ts: seq<Shape>): (r: seq<Item>)
    ensures |r| == |ts| && forall i {:trigger r[i]} :: 0 <= i < |ts| ==> r[i] == ts[i].node && r[i] in NodesOf(ts)
  {
    if ts == [] then [] else [ts[0].node] + Roots(ts[1..])
  }

  /** The nodes that are no roots. */
  ghost function Inner(ts: seq<Shape>): (r: set<Item>)
    ensures r <= NodesOf(ts)
  {
    if ts == [] then {} else NodesOf(ts[0].below) + Inner(ts[1..])
  }

  /** The heap holds this tree: every child list is well linked, with nothing before its first node, and no
      node is in two places. */
  ghost predicate Stands(t: Shape)
    reads t.node`child, NodesOf(t.below)
  {
    && Linked(t.node.child, Roots(t.below)) && (t.below != [] ==> t.below[0].node.prev == null)
    && t.node !in NodesOf(t.below) && StandApart(t.below)
  }

  ghost predicate StandApart(ts: seq<Shape>)
    reads Roots(ts)`child, Inner(ts)
  {
    ts != [] ==> Stands(ts[0]) && Nodes(ts[0]) !! NodesOf(ts[1..]) && StandApart(ts[1..])
  }

  /** The `next` chains give this tree, whatever `prev` says: what a traversal sees. */
  ghost predicate Spells(t: Shape)
    reads t.node`child, NodesOf(t.below)
  {
    && Chained(t.node.child, Roots(t.below))
    && forall i {:trigger t.below[i]} :: 0 <= i < |t.below| ==> Spells(t.below[i])
  }

  ghost predicate Chained(head: Item?, s: seq<Item>)
    reads s
  {
    && (if s == [] then head == null else head == s[0] && s[|s| - 1].next == null)
    && (forall i {:trigger s[i].next} :: 0 <= i < |s| - 1 ==> s[i].next == s[i + 1])
  }

  /** The JSON tree the nodes spell. */
  ghost function TreeOf(t: Shape): Json {
    match t.node.kind
    case Leaf(v) => v
    case ArrayKind => Array(ItemsOf(t.below))
    case ObjectKind => Object(MembersOf(t.below))
  }

  ghost function ItemsOf(ts: seq<Shape>): seq<Json> {
    if ts == [] then [] else [TreeOf(ts[0])] + ItemsOf(ts[1..])
  }

  ghost function MembersOf(ts: seq<Shape>): (r: seq<Member>)
    ensures |r| == |ts| && forall i {:trigger r[i]} :: 0 <= i < |ts| ==> r[i] == Member(ts[i].node.key, TreeOf(ts[i]))
  {
    if ts == [] then [] else [Member(ts[0].node.key, TreeOf(ts[0]))] + MembersOf(ts[1..])
  }

  /** No zero byte in a key, and no container written as a leaf. */
  ghost predicate Proper(t: Shape) {
    && NulFree(t.node.key) && (t.node.kind.Leaf? ==> !t.node.kind.v.Array? && !t.node.kind.v.Object?)
    && AllProper(t.below)
  }

  ghost predicate AllProper(ts: seq<Shape>) {
    forall i {:trigger ts[i]} :: 0 <= i < |ts| ==> Proper(ts[i])
  }

  lemma {:induction false} RootsOutside(ts: seq<Shape>, i: nat)
    requires StandApart(ts) && i < |ts|
    ensures ts[i].node !in Inner(ts)
  {
    if i == 0 {
      assert ts[0].node in Nodes(ts[0]);
    } else {
      RootsOutside(ts[1..], i - 1);
      assert ts[i].node in Nodes(ts[1..][i - 1]) && NodesOf(ts[0].below) <= Nodes(ts[0]);
    }
  }

  lemma {:induction false} AppendShape(ts: seq<Shape>, t: Shape)
    ensures NodesOf(ts + [t]) == NodesOf(ts) + Nodes(t)
    ensures Roots(ts + [t]) == Roots(ts) + [t.node]
    ensures Inner(ts + [t]) == Inner(ts) + NodesOf(t.below)
    ensures ItemsOf(ts + [t]) == ItemsOf(ts) + [TreeOf(t)]
    ensures MembersOf(ts + [t]) == MembersOf(ts) + [Member(t.node.key, TreeOf(t))]
  {
    if ts == [] {
      assert [] + [t] == [t];
    } else {
      AppendShape(ts[1..], t);
      assert (ts + [t])[1..] == ts[1..] + [t];
    }
  }

  lemma {:induction false} AppendStands(ts: seq<Shape>, t: Shape)
    requires StandApart(ts) && Stands(t) && Nodes(t) !! NodesOf(ts)
    ensures StandApart(ts + [t])
  {
    if ts == [] {
      assert [] + [t] == [t];
    } else {
      AppendStands(ts[1..], t);
      AppendShape(ts[1..], t);
      assert (ts + [t])[1..] == ts[1..] + [t];
    }
  }

  lemma {:induction false} StandsAt(ts: seq<Shape>, i: nat)
    requires StandApart(ts) && i < |ts|
    ensures Stands(ts[i])
  {
    if i > 0 {
      StandsAt(ts[1..], i - 1);
    }
  }

  /** The children copied so far hang off the copy, the last of them being `last`. */
  ghost predicate Copied(copy: Item, last: Item?, done: seq<Shape>)
    reads copy`child, NodesOf(done)
  {
    && StandApart(done) && copy !in NodesOf(done)
    && Linked(copy.child, Roots(done)) && (done != [] ==> done[0].node.prev == null)
    && last == (if done == [] then null else done[|done| - 1].node)
  }

  /** A new child goes behind the last. */
  method Hang(copy: Item, last: Item?, node: Item, ghost roots: seq<Item>)
    requires Linked(copy.child, roots) && last == (if roots == [] then null else roots[|roots| - 1])
    requires node.Detached() && node !in roots && (roots != [] ==> roots[0].prev == null)
    modifies if last == null then {copy} else {}`child, if last == null then {} else {last}`next, {node}`prev
    ensures Linked(copy.child, roots + [node]) && (roots + [node])[0].prev == null
  {
    if last != null {
      last.next := node;
      node.prev := last;
    } else {
      copy.child := node;
    }
  }

  /** So the copy has one more child tree. */
  method AttachCopy(copy: Item, last: Item?, node: Item, ghost done: seq<Shape>, ghost t: Shape)
    requires Copied(copy, last, done) && Stands(t) && t.node == node && node.Detached()
    requires Nodes(t) !! NodesOf(done) && copy !in Nodes(t)
    modifies copy`child, NodesOf(done)`next, {node}`prev
    ensures Copied(copy, node, done + [t])
  {
    hide StandApart, Stands, Linked, Nodes, NodesOf, Roots, Inner;
    AppendShape(done, t);
    CopiedApart(copy, last, node, done, t);
    ghost var inside, inner, roots := NodesOf(t.below), Inner(done), Roots(done);
    assert allocated(inside) && allocated(inner) && allocated(roots);
    Hang(copy, last, node, roots);
    assert unchanged(inside) && unchanged(inner) && unchanged(roots`child);
    assert Stands(t) && StandApart(done);
    AppendStands(done, t);
  }

  /** Where the links that change are. */
  lemma CopiedApart(copy: Item, last: Item?, node: Item, done: seq<Shape>, t: Shape)
    requires Copied(copy, last, done) && Stands(t) && t.node == node
    requires Nodes(t) !! NodesOf(done) && copy !in Nodes(t)
    ensures node !in Roots(done) && node !in NodesOf(t.below) && node !in Inner(done)
    ensures copy != node && copy !in Roots(done) && copy !in NodesOf(t.below) && copy !in Inner(done)
    ensures last == (if Roots(done) == [] then null else Roots(done)[|done| - 1])
    ensures last != null ==> last in NodesOf(done) && last !in Inner(done) && last !in NodesOf(t.below) && last != node
    ensures done != [] ==> Roots(done)[0] == done[0].node
  {
    assert node in Nodes(t);
    if last != null {
      RootsOutside(done, |done| - 1);
      assert last in Nodes(done[|done| - 1]);
    }
    forall i | 0 <= i < |done|
      ensures Roots(done)[i] in NodesOf(done)
    {
      assert Roots(done)[i] == done[i].node;
    }
    assert NodesOf(t.below) <= Nodes(t);
  }

  /** The node at place i of a row of trees, none behind the last. */
  ghost function NodeAt(ts: seq<Shape>, i: nat): Item? {
    if i < |ts| then ts[i].node else null
  }

  lemma SpellsAt(t: Shape, i: nat)
    requires Spells(t)
    ensures t.node.child == NodeAt(t.below, 0)
    ensures i < |t.below| ==> Spells(t.below[i]) && t.below[i].node.next == NodeAt(t.below, i + 1)
  {
    if i < |t.below| {
      assert Roots(t.below)[i] == t.below[i].node;
      if i + 1 < |t.below| {
        assert Roots(t.below)[i + 1] == t.below[i + 1].node;
      }
    }
    if t.below != [] {
      assert Roots(t.below)[0] == t.below[0].node;
    }
  }

  lemma CopiedNothing(copy: Item)
    requires copy.child == null
    ensures Copied(copy, null, []) && NodesOf([]) == {}
  {
  }

  lemma CopiedStands(copy: Item, last: Item?, done: seq<Shape>)
    requires Copied(copy, last, done)
    ensures Stands(Shape(copy, done)) && Nodes(Shape(copy, done)) == {copy} + NodesOf(done)
  {
  }

  /** cJSON_Duplicate: the copy is made of fresh nodes in well-formed lists, and with recursion it spells the
      same tree. */
  method Duplicate(item: Item, recurse: bool, ghost t: Shape) returns (copy: Item, ghost c: Shape)
    requires item == t.node && Spells(t)
    ensures c.node == copy && fresh(Nodes(c)) && Stands(c) && copy.Detached()
    ensures copy.kind == item.kind && copy.key == item.key
    ensures if recurse then TreeOf(c) == TreeOf(t) else c.below == []
    ensures recurse && WellFormed(TreeOf(t)) ==> CompareTrees(TreeOf(t), TreeOf(c))
    ensures recurse && Proper(t) ==> Proper(c)
    decreases t, 1
  {
    hide Spells, Copied, Stands, StandApart, Linked, Nodes, NodesOf, Roots, Inner;
    ghost var tree := NodesOf(t.below);
    assert allocated(tree);
    copy := new Item(item.kind, item.key);
    assert unchanged(tree);
    CopiedNothing(copy);
    var last: Item? := null;
    ghost var done: seq<Shape> := [];
    if recurse {
      last, done := CopyChildren(copy, item.child, t);
    }
    CopiedStands(copy, last, done);
    c := Shape(copy, done);
    if recurse && WellFormed(TreeOf(t)) {
      CompareIsEquivalence(TreeOf(t), TreeOf(t), TreeOf(t));
    }
  }

  /** The loop over the children. */
  method CopyChildren(copy: Item, first: Item?, ghost t: Shape) returns (last: Item?, ghost done: seq<Shape>)
    requires Spells(t) && first == t.node.child && copy.child == null && copy != t.node && copy !in NodesOf(t.below)
    modifies copy`child
    ensures Copied(copy, last, done) && fresh(NodesOf(done))
    ensures ItemsOf(done) == ItemsOf(t.below) && MembersOf(done) == MembersOf(t.below)
    ensures AllProper(t.below) ==> AllProper(done)
    decreases t, 0
  {
    hide Spells, Copied, Stands, StandApart, Linked, Nodes, NodesOf, Roots, Inner, TreeOf, ItemsOf, MembersOf, Proper;
    ghost var tree := NodesOf(t.below);
    assert allocated(tree);
    SpellsAt(t, 0);
    CopiedNothing(copy);
    var child := first;
    last := null;
    ghost var i: nat := 0;
    done := [];
    while child != null
      invariant i <= |t.below| && child == NodeAt(t.below, i)
      invariant unchanged(tree) && Spells(t) && Copied(copy, last, done) && fresh(NodesOf(done))
      invariant ItemsOf(done) == ItemsOf(t.below[..i]) && MembersOf(done) == MembersOf(t.below[..i])
      invariant AllProper(t.below) ==> AllProper(done)
      decreases |t.below| - i
    {
      SpellsAt(t, i);
      var node;
      ghost var n;
      ghost var mine := NodesOf(done);
      assert allocated(mine);
      node, n := Duplicate(child, true, t.below[i]);
      AttachCopy(copy, last, node, done, n);
      AppendShape(done, n);
      AppendShape(t.below[..i], t.below[i]);
      assert t.below[..i] + [t.below[i]] == t.below[..i + 1];
      assert unchanged(tree);
      SpellsAt(t, i);
      last, child, done, i := node, child.next, done + [n], i + 1;
    }
    assert t.below[..i] == t.below;
  }
}
