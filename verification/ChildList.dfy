/** The doubly linked list of a node's children, as the library's list operations relink it. The children are also kept
    as a ghost sequence, which every operation is specified by; the chain of `next` visits exactly these nodes, and
    `prev` of each but the first names the one before it. */
module ChildLists {
  import opened CStrings
  import opened JsonTree

  /** What a node is, apart from its links and children. */
  datatype Kind = Leaf(v: Json) | ArrayKind | ObjectKind

  /** The chain that starts at head visits exactly these nodes, each once, and ends; every node behind the
      first names the one before it. */
  ghost predicate Linked(head: Item?, s: seq<Item>)
    reads s
  {
    && (if s == [] then head == null else head == s[0] && s[|s| - 1].next == null)
    && (forall i {:trigger s[i].next} :: 0 <= i < |s| - 1 ==> s[i].next == s[i + 1])
    && (forall i {:trigger s[i].prev} :: 0 < i < |s| ==> s[i].prev == s[i - 1])
    && Distinct(s)
  }

  ghost predicate Distinct(s: seq<Item>) {
    forall i, j :: 0 <= i < j < |s| ==> s[i] != s[j]
  }

  /** Place of the first node whose key compares equal, the number of nodes if there is none. */
  function FindItem(s: seq<Item>, name: string, caseSensitive: bool): (i: nat)
    ensures i <= |s| && (i < |s| ==> Compare(name, s[i].key, caseSensitive) == 0)
    ensures forall k :: 0 <= k < i ==> Compare(name, s[k].key, caseSensitive) != 0
  {
    if s == [] || Compare(name, s[0].key, caseSensitive) == 0 then 0 else 1 + FindItem(s[1..], name, caseSensitive)
  }

  /** The nodes around a gap name each other, and the others their neighbours, so the rest is a list. */
  lemma GapClosed(head: Item?, s: seq<Item>, i: nat)
    requires Distinct(s) && i < |s|
    requires head == if i > 0 then s[0] else if |s| > 1 then s[1] else null
    requires forall k {:trigger s[k].next} :: 0 <= k < |s| - 1 && k != i && k + 1 != i ==> s[k].next == s[k + 1]
    requires i + 1 < |s| ==> s[|s| - 1].next == null
    requires i > 0 ==> s[i - 1].next == if i + 1 < |s| then s[i + 1] else null
    requires forall k {:trigger s[k].prev} :: 0 < k < |s| && k != i && k != i + 1 ==> s[k].prev == s[k - 1]
    requires 0 < i && i + 1 < |s| ==> s[i + 1].prev == s[i - 1]
    ensures Linked(head, s[..i] + s[i + 1..])
  {
    var r := s[..i] + s[i + 1..];
    assert forall k :: 0 <= k < |r| ==> r[k] == if k < i then s[k] else s[k + 1];
  }

  /** A node between two others that names them and that they name. */
  lemma Inserted(head: Item?, s: seq<Item>, i: nat, item: Item)
    requires Distinct(s) && i < |s| && item !in s && head == if i == 0 then item else s[0]
    requires item.next == s[i] && s[i].prev == item && s[|s| - 1].next == null
    requires i > 0 ==> item.prev == s[i - 1] && s[i - 1].next == item
    requires forall k {:trigger s[k].next} :: 0 <= k < |s| - 1 && k + 1 != i ==> s[k].next == s[k + 1]
    requires forall k {:trigger s[k].prev} :: 0 < k < |s| && k != i ==> s[k].prev == s[k - 1]
    ensures Linked(head, s[..i] + [item] + s[i..])
  {
    var r := s[..i] + [item] + s[i..];
    assert forall k :: 0 <= k < |r| ==> r[k] == if k < i then s[k] else if k == i then item else s[k - 1];
  }

  /** A node in the place of another, named by its neighbours. */
  lemma Replaced(head: Item?, s: seq<Item>, i: nat, item: Item)
    requires Distinct(s) && i < |s| && item !in s && head == s[i := item][0]
    requires item.next == if i + 1 < |s| then s[i + 1] else null
    requires i > 0 ==> item.prev == s[i - 1] && s[i - 1].next == item
    requires i + 1 < |s| ==> s[i + 1].prev == item && s[|s| - 1].next == null
    requires forall k {:trigger s[k].next} :: 0 <= k < |s| - 1 && k + 1 != i && k != i ==> s[k].next == s[k + 1]
    requires forall k {:trigger s[k].prev} :: 0 < k < |s| && k != i && k != i + 1 ==> s[k].prev == s[k - 1]
    ensures Linked(head, s[i := item])
  {
  }

  lemma CircleAt(head: Item?, s: seq<Item>, k: nat)
    requires Distinct(s) && 0 < k < |s| && head == s[1] && s[k].next == head
    ensures !Linked(head, s[1..])
  {
    var r := s[1..];
    assert r[k - 1] == s[k] && r[k - 1].next == s[1];
    assert k < |r| ==> r[k] == s[k + 1] && r[k - 1].next != r[k];
  }

  lemma CircleClosed(head: Item?, s: seq<Item>, before: Item)
    requires Distinct(s) && |s| > 1 && before in s[1..] && head == s[1] && before.next == head
    ensures !Linked(head, s[..0] + s[1..])
  {
    hide Linked, Distinct;
    var k :| 0 <= k < |s[1..]| && s[1..][k] == before;
    CircleAt(head, s, k + 1);
    NoFront(s);
  }

  lemma NoFront<T>(s: seq<T>)
    requires s != []
    ensures s[..0] + s[1..] == s[1..]
  {
  }

  class Item {
    const kind: Kind
    const key: string
    var next: Item?
    var prev: Item?
    var child: Item?
    ghost var children: seq<Item>

    constructor (kind: Kind, key: string)
      ensures this.kind == kind && this.key == key
      ensures Valid() && children == [] && child == null && Detached()
    {
      this.kind, this.key, next, prev, child, children := kind, key, null, null, null, [];
    }

    /** The children are in a list; the first may have another node before it, as sorting can leave it. */
    ghost predicate Loose()
      reads this, children
    {
      Linked(child, children) && this !in children
    }

    /** The children are in a well-formed list: the first has no node before it. */
    ghost predicate Valid()
      reads this, children
    {
      Loose() && (children != [] ==> children[0].prev == null)
    }

    /** The node before this one, if there is one. */
    ghost function Previous(): set<Item>
      reads this
    {
      if prev == null then {} else {prev}
    }

    /** In no list. */
    ghost predicate Detached()
      reads this
    {
      next == null && prev == null
    }

    /** Along the list while there are steps to take: the child so many places on, and the steps left. */
    method Walk(steps: nat) returns (current: Item?, left: nat)
      requires Loose()
      ensures current == if steps < |children| then children[steps] else null
      ensures left == if steps <= |children| then 0 else steps - |children|
    {
      current, left := child, steps;
      ghost var i := 0;
      while current != null && left > 0
        invariant i + left == steps && i <= |children|
        invariant current == if i < |children| then children[i] else null
        decreases left
      {
        left := left - 1;
        current := current.next;
        i := i + 1;
      }
    }

    /** get_array_item. */
    method GetArrayItem(index: nat) returns (r: Item?)
      requires Loose()
      ensures r == if index < |children| then children[index] else null
    {
      var left;
      r, left := Walk(index);
    }

    /** get_object_item: the first child whose key compares equal. */
    method GetObjectItem(name: string, caseSensitive: bool) returns (r: Item?)
      requires Loose()
      ensures var i := FindItem(children, name, caseSensitive); r == if i < |children| then children[i] else null
    {
      r := child;
      ghost var i := 0;
      while r != null && Compare(name, r.key, caseSensitive) != 0
        invariant i <= |children| && r == if i < |children| then children[i] else null
        invariant forall k :: 0 <= k < i ==> Compare(name, children[k].key, caseSensitive) != 0
        decreases |children| - i
      {
        r := r.next;
        i := i + 1;
      }
    }

    /** add_item_to_array. */
    method AddItemToArray(item: Item)
      requires Loose() && item.Detached() && item !in children && item != this
      modifies this`child, this`children, children`next, children`prev, item`next, item`prev
      ensures Loose() && children == old(children) + [item] && children[0].prev == old((children + [item])[0].prev)
      ensures old(Valid()) ==> Valid()
    {
      if child == null {
        child := item;
      } else {
        var last := child;
        ghost var i := 0;
        while last.next != null
          invariant i < |children| && last == children[i]
          decreases |children| - i
        {
          last := last.next;
          i := i + 1;
        }
        last.next := item;
        item.prev := last;
      }
      children := children + [item];
    }

    /** insert_item_in_array: in front of the child at this place, at the end just behind the last, and not
        at all further back. */
    method InsertItemInArray(which: nat, item: Item) returns (ok: bool)
      requires Valid() && item.Detached() && item !in children && item != this
      modifies this`child, this`children, children`next, children`prev, item`next, item`prev
      ensures Valid() && (ok <==> which <= |old(children)|)
      ensures children == if ok then old(children)[..which] + [item] + old(children)[which..] else old(children)
      ensures !ok ==> item.Detached()
    {
      hide Linked;
      var current, left := Walk(which);
      if left > 0 {
        return false;
      }
      if current == null {
        AddItemToArray(item);
        return true;
      }
      LinkBefore(current, item, which);
      return true;
    }

    /** cJSON_InsertItemInArray: a place behind the last child means the end. */
    method InsertAt(which: int, item: Item)
      requires Valid() && item.Detached() && item !in children && item != this
      modifies this`child, this`children, children`next, children`prev, item`next, item`prev
      ensures Valid()
      ensures which < 0 ==> children == old(children) && item.Detached()
      ensures which >= 0 ==> var n := if which <= |old(children)| then which else |old(children)|;
                             children == old(children)[..n] + [item] + old(children)[n..]
    {
      hide Linked;
      if which < 0 {
        return;
      }
      var after := GetArrayItem(which);
      if after == null {
        AddItemToArray(item);
        return;
      }
      LinkBefore(after, item, which);
    }

    /** The relinking both insertions do in front of a child. */
    method LinkBefore(current: Item, item: Item, ghost i: nat)
      requires Valid() && item.Detached() && item !in children && item != this
      requires i < |children| && current == children[i]
      modifies this`child, this`children, children`next, children`prev, item`next, item`prev
      ensures Valid() && children == old(children)[..i] + [item] + old(children)[i..]
    {
      ghost var s := children;
      item.next := current;
      item.prev := current.prev;
      current.prev := item;
      if current == child {
        child := item;
      } else {
        item.prev.next := item;
      }
      children := s[..i] + [item] + s[i..];
      Inserted(child, s, i, item);
    }

    /** cJSON_DetachItemViaPointer for a child. A first child with another before it is the one case that goes
        wrong: that other node is made to point to the new first child, which closes a circle if it is a child
        as well. */
    method DetachItemViaPointer(item: Item, ghost i: nat)
      requires Loose() && i < |children| && item == children[i]
      modifies this`child, this`children, children`next, children`prev, item.Previous()`next
      ensures children == old(children)[..i] + old(children)[i + 1..] && this !in children && item.Detached()
      ensures Linked(child, children) <==> !(i == 0 && old(item.prev) in old(children)[1..])
      ensures i == 0 && old(item.prev) in old(children)[1..] ==> child in children && old(item.prev).next == child
      ensures old(Valid()) ==> Valid()
      ensures children != [] ==> children[0].prev == old(children[0].prev)
    {
      ghost var s := children;
      ghost var before := item.prev;
      if item.prev != null {
        item.prev.next := item.next;
      }
      if item.next != null {
        item.next.prev := item.prev;
      }
      if item == child {
        child := item.next;
      }
      item.prev, item.next := null, null;
      children := s[..i] + s[i + 1..];
      if i > 0 || before !in s[1..] {
        GapClosed(child, s, i);
      } else {
        CircleClosed(child, s, before);
      }
    }

    /** cJSON_DetachItemFromArray: null when there is no such child. */
    method DetachItemFromArray(which: int) returns (r: Item?)
      requires Valid()
      modifies this`child, this`children, children`next, children`prev
      ensures Valid() && (r == null <==> !(0 <= which < |old(children)|))
      ensures r == null ==> children == old(children)
      ensures r != null ==> r == old(children)[which] && r.Detached()
      ensures r != null ==> children == old(children)[..which] + old(children)[which + 1..]
    {
      if which < 0 {
        return null;
      }
      r := GetArrayItem(which);
      if r != null {
        DetachItemViaPointer(r, which);
      }
    }

    lemma NodeBefore(i: nat)
      requires Loose() && 0 < i < |children|
      ensures children[i].prev == children[i - 1]
    {
    }

    /** cJSON_DetachItemFromObject and its case-sensitive twin, from a list whose first child may have another
        node before it. */
    method DetachItemFromObject(name: string, caseSensitive: bool) returns (r: Item?)
      requires Loose() && !(children != [] && children[0].prev != null && FindItem(children, name, caseSensitive) == 0)
      modifies this`child, this`children, children`next, children`prev
      ensures Loose() && (r == null <==> FindItem(old(children), name, caseSensitive) == |old(children)|)
      ensures r == null ==> children == old(children)
      ensures r != null ==>
        var i := FindItem(old(children), name, caseSensitive);
        r == old(children)[i] && r.Detached() && children == old(children)[..i] + old(children)[i + 1..]
      ensures old(Valid()) ==> Valid()
      ensures children != [] && old(children) != [] && children[0] == old(children)[0] ==>
        children[0].prev == old(children[0].prev)
      ensures children != [] && old(children) != [] && children[0] != old(children)[0] ==> children[0].prev == null
    {
      hide Linked, FindItem;
      r := GetObjectItem(name, caseSensitive);
      if r != null {
        ghost var i := FindItem(children, name, caseSensitive);
        if i > 0 {
          NodeBefore(i);
        }
        DetachItemViaPointer(r, i);
      }
    }

    /** cJSON_ReplaceItemViaPointer for a child; what it replaced is left detached. */
    method ReplaceItemViaPointer(item: Item, replacement: Item, ghost i: nat)
      requires Valid() && i < |children| && item == children[i]
      requires replacement != item ==> replacement.Detached() && replacement !in children && replacement != this
      modifies this`child, this`children, children`next, children`prev, replacement`next, replacement`prev
      ensures Valid() && children == old(children)[i := replacement]
      ensures replacement != item ==> item.Detached()
    {
      if replacement == item {
        return;
      }
      ghost var s := children;
      replacement.next := item.next;
      replacement.prev := item.prev;
      if replacement.next != null {
        replacement.next.prev := replacement;
      }
      if replacement.prev != null {
        replacement.prev.next := replacement;
      }
      if child == item {
        child := replacement;
      }
      item.next, item.prev := null, null;
      children := s[i := replacement];
      Replaced(child, s, i, replacement);
    }
  }
}
