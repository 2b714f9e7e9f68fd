/** merge_patch over nodes: members are detached from the target's list of children, merged and appended again. The
    mode is the case-sensitive one, in which a member keeps its key. Target and patch are trees of nodes that have no
    node in common; the result is built from the target's nodes and fresh ones. */
module NodeMerging {
  import opened CStrings
  import opened JsonTree
  import opened Pointers
  import opened Comparison
  import opened Patching
  import opened ChildLists
  import Trees = Duplication
  import opened Duplication
  import Values = MergePatching

  // ----- trees of nodes with one child more or less -----

  lemma {:induction false} NodesJoin(a: seq<Shape>, b: seq<Shape>)
    ensures NodesOf(a + b) == NodesOf(a) + NodesOf(b)
  {
    if a == [] {
      assert a + b == b;
    } else {
      assert (a + b)[1..] == a[1..] + b;
      NodesJoin(a[1..], b);
    }
  }

  lemma RootsJoin(a: seq<Shape>, b: seq<Shape>)
    ensures Roots(a + b) == Roots(a) + Roots(b)
  {
    hide Roots;
  }

  lemma MembersJoin(a: seq<Shape>, b: seq<Shape>)
    ensures Trees.MembersOf(a + b) == Trees.MembersOf(a) + Trees.MembersOf(b)
  {
    hide Trees.MembersOf, TreeOf;
  }

  lemma {:induction false} StandApartParts(a: seq<Shape>, b: seq<Shape>)
    requires StandApart(a + b)
    ensures StandApart(a) && StandApart(b) && NodesOf(a) !! NodesOf(b)
  {
    if a == [] {
      assert a + b == b;
    } else {
      assert (a + b)[0] == a[0] && (a + b)[1..] == a[1..] + b;
      StandApartParts(a[1..], b);
      NodesJoin(a[1..], b);
    }
  }

  lemma {:induction false} StandApartJoin(a: seq<Shape>, b: seq<Shape>)
    requires StandApart(a) && StandApart(b) && NodesOf(a) !! NodesOf(b)
    ensures StandApart(a + b)
  {
    if a == [] {
      assert a + b == b;
    } else {
      assert (a + b)[0] == a[0] && (a + b)[1..] == a[1..] + b;
      StandApartJoin(a[1..], b);
      NodesJoin(a[1..], b);
    }
  }

  /** The row of trees without one. */
  ghost function Rest(ts: seq<Shape>, i: nat): seq<Shape>
    requires i < |ts|
  {
    ts[..i] + ts[i + 1..]
  }

  lemma OneOut(ts: seq<Shape>, i: nat)
    requires StandApart(ts) && i < |ts|
    ensures StandApart(Rest(ts, i)) && Stands(ts[i]) && Nodes(ts[i]) !! NodesOf(Rest(ts, i))
    ensures NodesOf(ts) == NodesOf(Rest(ts, i)) + Nodes(ts[i])
  {
    hide StandApart, Stands, Nodes, NodesOf;
    var a, b, c := ts[..i], [ts[i]], ts[i + 1..];
    assert ts == a + (b + c);
    StandApartParts(a, b + c);
    StandApartParts(b, c);
    StandsAt(ts, i);
    NodesJoin(a, b + c);
    NodesJoin(b, c);
    NodesJoin(a, c);
    OneShape(ts[i]);
    StandApartJoin(a, c);
  }

  lemma OneShape(t: Shape)
    ensures NodesOf([t]) == Nodes(t)
  {
  }

  lemma RootsOut(ts: seq<Shape>, i: nat)
    requires i < |ts|
    ensures Roots(Rest(ts, i)) == Roots(ts)[..i] + Roots(ts)[i + 1..] && ts[i].node == Roots(ts)[i]
    ensures Trees.MembersOf(Rest(ts, i)) == RemoveAt(Trees.MembersOf(ts), i)
  {
    hide Roots, Trees.MembersOf;
    RootsJoin(ts[..i], ts[i + 1..]);
    MembersJoin(ts[..i], ts[i + 1..]);
    RootsSlice(ts, i);
    RootsSlice(ts, i + 1);
    MembersSlice(ts, i);
    MembersSlice(ts, i + 1);
  }

  lemma RootsSlice(ts: seq<Shape>, k: nat)
    requires k <= |ts|
    ensures Roots(ts[..k]) == Roots(ts)[..k] && Roots(ts[k..]) == Roots(ts)[k..]
  {
    hide Roots;
  }

  lemma MembersSlice(ts: seq<Shape>, k: nat)
    requires k <= |ts|
    ensures Trees.MembersOf(ts[..k]) == Trees.MembersOf(ts)[..k] && Trees.MembersOf(ts[k..]) == Trees.MembersOf(ts)[k..]
  {
    hide Trees.MembersOf, TreeOf;
  }

  /** Looking a key up among nodes is looking it up among members. */
  lemma {:induction false} FindShape(ts: seq<Shape>, name: string, caseSensitive: bool)
    ensures FindItem(Roots(ts), name, caseSensitive) == FindKey(Trees.MembersOf(ts), name, caseSensitive)
    ensures |Roots(ts)| == |ts| == |Trees.MembersOf(ts)|
  {
    if ts != [] {
      FindShape(ts[1..], name, caseSensitive);
    }
  }

  // ----- one member -----

  /** The nodes of a tree that may be missing, and what it spells. */
  ghost function NodesIn(t: Option<Shape>): set<Item> {
    if t.Some? then Nodes(t.value) else {}
  }

  ghost function Spelled(t: Option<Shape>): Option<Json> {
    if t.Some? then Some(TreeOf(t.value)) else None
  }

  /** The first tree with this name is taken out of the row, if there is one. */
  ghost predicate TakenOut(below: seq<Shape>, name: string, rest: seq<Shape>, d: Option<Shape>) {
    var i := FindKey(Trees.MembersOf(below), name, true);
    if i < |below| then d == Some(below[i]) && rest == Rest(below, i) else d == None && rest == below
  }

  /** The member with this name leaves the target's list. */
  method Detach(o: Item, name: string, ghost below: seq<Shape>)
    returns (r: Item?, ghost rest: seq<Shape>, ghost d: Option<Shape>)
    requires Stands(Shape(o, below))
    modifies o`child, o`children, Roots(below)`next, Roots(below)`prev
    ensures Stands(Shape(o, rest)) && TakenOut(below, name, rest, d)
    ensures if d.Some? then r == d.value.node && Stands(d.value) && r.Detached() else r == null
    ensures NodesIn(d) !! NodesOf(rest) && NodesOf(below) == NodesOf(rest) + NodesIn(d)
  {
    hide StandApart, Stands, Linked, Nodes, NodesOf, Roots, Inner, FindItem, FindKey, TreeOf, Trees.MembersOf, Rest,
         TakenOut;
    ghost var roots, inner := Roots(below), Inner(below);
    assert allocated(roots) && allocated(inner);
    ReadyToDetach(o, below);
    o.children := roots;
    r := o.DetachItemFromObject(name, true);
    assert StandApart(below);
    rest, d := Parting(below, name);
    DetachedStands(o, rest);
  }

  /** What is left of the row, and what was taken out. */
  lemma {:induction false} Parting(below: seq<Shape>, name: string) returns (rest: seq<Shape>, d: Option<Shape>)
    requires StandApart(below)
    ensures TakenOut(below, name, rest, d) && StandApart(rest)
    ensures NodesIn(d) !! NodesOf(rest) && NodesOf(below) == NodesOf(rest) + NodesIn(d)
    ensures var i := FindItem(Roots(below), name, true);
            if i < |Roots(below)| then
              d.Some? && d.value.node == Roots(below)[i] && Stands(d.value)
              && Roots(rest) == Roots(below)[..i] + Roots(below)[i + 1..]
            else d == None && rest == below
  {
    hide StandApart, Stands, Nodes, NodesOf, Roots, Inner, FindItem, FindKey, TreeOf, Trees.MembersOf;
    FindShape(below, name, true);
    var i := FindItem(Roots(below), name, true);
    rest, d := below, None;
    if i < |below| {
      OneOut(below, i);
      RootsOut(below, i);
      rest, d := Rest(below, i), Some(below[i]);
    }
  }

  lemma ReadyToDetach(o: Item, below: seq<Shape>)
    requires Stands(Shape(o, below))
    ensures Linked(o.child, Roots(below)) && o !in Roots(below) && StandApart(below) && o !in Inner(below)
    ensures Roots(below) != [] ==> Roots(below)[0].prev == null
    ensures forall n :: n in Roots(below) ==> n !in Inner(below)
    ensures o !in NodesOf(below)
  {
    forall n | n in Roots(below)
      ensures n !in Inner(below)
    {
      var i :| 0 <= i < |below| && Roots(below)[i] == n;
      RootsOutside(below, i);
    }
  }

  lemma DetachedStands(o: Item, rest: seq<Shape>)
    requires StandApart(rest) && o !in NodesOf(rest) && Linked(o.child, Roots(rest))
    requires Roots(rest) != [] ==> Roots(rest)[0].prev == null
    ensures Stands(Shape(o, rest))
  {
  }

  /** A detached node goes behind the target's other members. */
  method Append(o: Item, node: Item, ghost rest: seq<Shape>, ghost c: Shape)
    requires Stands(Shape(o, rest)) && Stands(c) && c.node == node && node.Detached()
    requires Nodes(c) !! NodesOf(rest) && o !in Nodes(c)
    modifies o`child, o`children, Roots(rest)`next, Roots(rest)`prev, node`next, node`prev
    ensures Stands(Shape(o, rest + [c]))
  {
    hide StandApart, Stands, Linked, Nodes, NodesOf, Roots, Inner;
    ghost var roots, inner, inside := Roots(rest), Inner(rest), NodesOf(c.below);
    assert allocated(roots) && allocated(inner) && allocated(inside);
    ReadyToDetach(o, rest);
    ReadyToAppend(o, node, rest, c);
    o.children := roots;
    o.AddItemToArray(node);
    assert StandApart(rest) && Stands(c);
    AppendStands(rest, c);
    AppendShape(rest, c);
    DetachedStands(o, rest + [c]);
  }

  lemma ReadyToAppend(o: Item, node: Item, rest: seq<Shape>, c: Shape)
    requires Stands(Shape(o, rest)) && Stands(c) && c.node == node
    requires Nodes(c) !! NodesOf(rest) && o !in Nodes(c)
    ensures node !in Roots(rest) && node != o && node !in Inner(rest) && node !in NodesOf(c.below)
    ensures o !in NodesOf(c.below) && forall n :: n in Roots(rest) ==> n !in NodesOf(c.below)
    ensures o !in NodesOf(rest + [c])
  {
    AppendShape(rest, c);
    forall i | 0 <= i < |rest|
      ensures Roots(rest)[i] in NodesOf(rest)
    {
      assert Roots(rest)[i] == rest[i].node;
    }
    assert NodesOf(c.below) <= Nodes(c);
  }

  // ----- the merge -----

  /** One patch member's effect on the target's members. */
  ghost function Turned(ms: seq<Member>, key: string, q: Json): seq<Member> {
    var rest := Values.Without(ms, key, true);
    if q.Null? then rest else rest + [Member(key, Values.MergePatch(Values.Item(ms, key, true), q, true))]
  }

  lemma TurnFirst(ms: seq<Member>, ps: seq<Member>, i: nat)
    requires i < |ps|
    ensures Values.MergeMembers(ms, ps[i..], true)
         == Values.MergeMembers(Turned(ms, ps[i].key, ps[i].val), ps[i + 1..], true)
  {
    hide Values.Without, Values.Item, Values.MergePatch;
    assert ps[i..][1..] == ps[i + 1..];
  }

  lemma TurnNone(ms: seq<Member>)
    ensures Values.MergeMembers(ms, [], true) == ms
  {
  }

  /** That effect, in terms of the tree taken out and those left. */
  lemma TurnedTrees(below: seq<Shape>, s: Shape, rest: seq<Shape>, d: Option<Shape>)
    requires TakenOut(below, s.node.key, rest, d) && AllProper(below) && Proper(s)
    ensures var key, q := s.node.key, TreeOf(s);
            && Turned(Trees.MembersOf(below), key, q)
            == (if q.Null? then Trees.MembersOf(rest)
                else Trees.MembersOf(rest) + [Member(key, Values.MergePatch(Spelled(d), q, true))])
    ensures d.Some? ==> d.value.node.key == s.node.key && Proper(d.value)
    ensures AllProper(rest)
  {
    hide TreeOf, Values.MergePatch, Trees.MembersOf, FindKey, Proper;
    var ms, key := Trees.MembersOf(below), s.node.key;
    var i := FindKey(ms, key, true);
    if i < |below| {
      RootsOut(below, i);
      KeyFound(below[i], s);
    }
  }

  lemma KeyFound(d: Shape, s: Shape)
    requires Proper(d) && Proper(s) && Compare(s.node.key, d.node.key, true) == 0
    ensures d.node.key == s.node.key
  {
    CompareExact(s.node.key, d.node.key);
  }

  /** A null member is a null leaf. */
  lemma LeafNull(s: Shape)
    ensures TreeOf(s).Null? <==> s.node.kind.Leaf? && s.node.kind.v.Null?
  {
  }

  lemma NodesParts(t: Shape)
    ensures Nodes(t) == {t.node} + NodesOf(t.below)
  {
  }

  /** A target as the merge takes it. */
  ghost predicate Target(target: Item?, t: Option<Shape>)
    reads if target == null then {} else {target}, NodesIn(t)
  {
    if t.None? then target == null
    else target == t.value.node && Stands(t.value) && target.Detached() && Proper(t.value)
  }

  /** merge_patch. The result stands in nodes of the target and fresh ones, and the patch is not touched. */
  method Merge(target: Item?, patch: Item, ghost t: Option<Shape>, ghost p: Shape) returns (r: Item, ghost c: Shape)
    requires Target(target, t) && patch == p.node && Spells(p) && Proper(p) && NodesIn(t) !! Nodes(p)
    modifies NodesIn(t)
    ensures c.node == r && Stands(c) && r.Detached() && Proper(c)
    ensures forall n :: n in Nodes(c) ==> n in NodesIn(t) || fresh(n)
    ensures TreeOf(c) == Values.MergePatch(Spelled(t), TreeOf(p), true)
    ensures r.key ==
            if patch.kind.ObjectKind? && target != null && target.kind.ObjectKind? then target.key else patch.key
    decreases p, 2
  {
    hide StandApart, Stands, Linked, Nodes, NodesOf, Roots, Inner, Spells, TreeOf, Proper, Trees.MembersOf,
         Values.MergePatch;
    MergedTree(t, p);
    if !patch.kind.ObjectKind? {
      r, c := Duplicate(patch, true, p);
      return;
    }
    var o: Item;
    ghost var below, inside := [], NodesOf(p.below);
    NodesParts(p);
    assert allocated(inside);
    if target == null || !target.kind.ObjectKind? {
      o := new Item(ObjectKind, patch.key);
      EmptyObject(o);
      assert unchanged(inside);
    } else {
      o, below := target, t.value.below;
      NodesParts(t.value);
    }
    ProperParts(o, below, t, p);
    ReadyToDetach(o, below);
    ghost var now := MergeChildren(o, patch.child, below, p);
    r, c := o, Shape(o, now);
    NodesParts(c);
    ObjectTree(c);
  }

  /** The loop over the patch's children. */
  method MergeChildren(o: Item, first: Item?, ghost below: seq<Shape>, ghost p: Shape) returns (ghost now: seq<Shape>)
    requires Stands(Shape(o, below)) && AllProper(below) && Spells(p) && AllProper(p.below) && first == p.node.child
    requires ({o} + NodesOf(below)) !! Nodes(p)
    modifies o`child, o`children, NodesOf(below)
    ensures Stands(Shape(o, now)) && AllProper(now)
    ensures forall n :: n in NodesOf(now) ==> n in NodesOf(below) || fresh(n)
    ensures Trees.MembersOf(now) == Values.MergeMembers(Trees.MembersOf(below), Trees.MembersOf(p.below), true)
    decreases p, 1
  {
    hide StandApart, Stands, Linked, Nodes, NodesOf, Roots, Inner, Spells, TreeOf, Proper, Trees.MembersOf,
         Values.MergeMembers, Turned;
    var child := first;
    ghost var i: nat, ms, ps := 0, Trees.MembersOf(below), Trees.MembersOf(p.below);
    ghost var tree := Nodes(p);
    assert allocated(tree) && ps[0..] == ps;
    now := below;
    SpellsAt(p, 0);
    NodesParts(p);
    while child != null
      invariant i <= |p.below| && child == Trees.NodeAt(p.below, i) && Spells(p)
      invariant Stands(Shape(o, now)) && AllProper(now)
      invariant forall n :: n in NodesOf(now) ==> n in NodesOf(below) || fresh(n)
      invariant Values.MergeMembers(ms, ps, true) == Values.MergeMembers(Trees.MembersOf(now), ps[i..], true)
      decreases |p.below| - i
    {
      SpellsAt(p, i);
      TurnFirst(Trees.MembersOf(now), ps, i);
      now := MergeChild(o, child, now, p.below[i]);
      SpellsAt(p, i);
      child, i := child.next, i + 1;
    }
    assert ps[i..] == [];
    TurnNone(Trees.MembersOf(now));
  }

  /** One turn: null deletes; anything else is merged into the member with its key, and appended. */
  method MergeChild(o: Item, q: Item, ghost below: seq<Shape>, ghost s: Shape) returns (ghost now: seq<Shape>)
    requires Stands(Shape(o, below)) && AllProper(below) && Spells(s) && Proper(s) && q == s.node
    requires ({o} + NodesOf(below)) !! Nodes(s)
    modifies o`child, o`children, NodesOf(below)
    ensures Stands(Shape(o, now)) && AllProper(now)
    ensures forall n :: n in NodesOf(now) ==> n in NodesOf(below) || fresh(n)
    ensures Trees.MembersOf(now) == Turned(Trees.MembersOf(below), q.key, TreeOf(s))
    decreases s, 3
  {
    hide StandApart, Stands, Linked, Nodes, NodesOf, Roots, Inner, Spells, TreeOf, Proper, Trees.MembersOf,
         Values.MergePatch, Turned, TakenOut;
    NodesParts(s);
    ghost var tree := Nodes(s);
    assert allocated(tree);
    ReadyToDetach(o, below);
    var r;
    ghost var rest, d;
    r, rest, d := Detach(o, q.key, below);
    TurnedTrees(below, s, rest, d);
    LeafNull(s);
    if q.kind.Leaf? && q.kind.v.Null? {
      return rest;
    }
    ghost var left := NodesOf(rest);
    assert allocated(left);
    var node;
    ghost var c;
    node, c := Merge(r, q, d, s);
    Append(o, node, rest, c);
    now := rest + [c];
    AppendShape(rest, c);
  }

  /** What the merge must spell. */
  lemma MergedTree(t: Option<Shape>, p: Shape)
    requires Proper(p) && (t.Some? ==> Proper(t.value))
    ensures Values.MergePatch(Spelled(t), TreeOf(p), true) ==
            if !p.node.kind.ObjectKind? then TreeOf(p)
            else
              var ms := if t.Some? && t.value.node.kind.ObjectKind? then Trees.MembersOf(t.value.below) else [];
              Object(Values.MergeMembers(ms, Trees.MembersOf(p.below), true))
  {
    hide Values.MergeMembers, Trees.MembersOf;
  }

  lemma EmptyObject(o: Item)
    requires o.child == null
    ensures Stands(Shape(o, [])) && NodesOf([]) == {} && Trees.MembersOf([]) == []
  {
  }

  lemma ProperParts(o: Item, below: seq<Shape>, t: Option<Shape>, p: Shape)
    requires Proper(p) && (t.Some? ==> Proper(t.value))
    requires if below == [] then o.key == p.node.key || (t.Some? && o == t.value.node)
             else t.Some? && t.value == Shape(o, below)
    ensures AllProper(p.below) && AllProper(below) && NulFree(o.key)
  {
  }

  lemma ObjectTree(c: Shape)
    requires c.node.kind.ObjectKind? && NulFree(c.node.key) && AllProper(c.below)
    ensures TreeOf(c) == Object(Trees.MembersOf(c.below)) && Proper(c)
  {
  }
}
