/** Diff and apply on plain documents. */
module PatchRoundTrip {
  import opened CStrings
  import opened JsonTree
  import opened KeySort
  import opened Comparison
  import opened Decimals
  import opened Pointers
  import opened Patching
  import opened PatchStandard
  import opened PatchRefinement
  import opened PatchRuns
  import opened PatchGeneration

  // ----- the generated patches as standard operations -----

  /** A list of edits; at the root they may only replace. */
  ghost predicate Edits(ops: seq<Operation>) {
    forall i :: 0 <= i < |ops| ==> ops[i].Edit? && (ops[i].path == [] ==> ops[i].e.Replace?)
  }

  /** The same edits, one container further out. */
  function Inside(base: seq<string>, ops: seq<Operation>): (r: seq<Operation>)
    requires Edits(ops)
    ensures Edits(r)
  {
    if ops == [] then []
    else
      assert Edits(ops[1..]);
      [Edit(base + ops[0].path, ops[0].e)] + Inside(base, ops[1..])
  }

  function Plan(from: Json, to: Json, caseSensitive: bool): (r: seq<Operation>)
    ensures Edits(r)
    decreases Depth(from), 0, 0
  {
    var replacement := [Edit([], Replace(Meaning(to)))];
    if !SameTag(from, to) then replacement
    else
      match from
      case Number(n) => if n != to.n then replacement else []
      case String(s) => if s != to.s then replacement else []
      case Array(items) => PlanItems(items, to.items, 0, caseSensitive)
      case Object(ms) => PlanMembers(SortMembers(ms, caseSensitive), SortMembers(to.members, caseSensitive),
        caseSensitive)
      case _ => []
  }

  function PlanItems(from: seq<Json>, to: seq<Json>, index: nat, caseSensitive: bool): (r: seq<Operation>)
    ensures Edits(r)
    decreases ItemsDepth(from), 1, |from| + |to|
  {
    if from != [] && to != [] then
      Inside([Decimal(index)], Plan(from[0], to[0], caseSensitive))
          + PlanItems(from[1..], to[1..], index + 1, caseSensitive)
    else if from != [] then
      [Edit([Decimal(index)], Remove)] + PlanItems(from[1..], to, index, caseSensitive)
    else if to != [] then
      [Edit(["-"], Add(Meaning(to[0])))] + PlanItems(from, to[1..], index + 1, caseSensitive)
    else []
  }

  function PlanMembers(from: seq<Member>, to: seq<Member>, caseSensitive: bool): (r: seq<Operation>)
    ensures Edits(r)
    decreases MembersDepth(from), 1, |from| + |to|
  {
    if from == [] && to == [] then []
    else
      var diff := JoinOrder(from, to, caseSensitive);
      if diff == 0 then
        Inside([from[0].key], Plan(from[0].val, to[0].val, caseSensitive))
            + PlanMembers(from[1..], to[1..], caseSensitive)
      else if diff < 0 then
        [Edit([from[0].key], Remove)] + PlanMembers(from[1..], to, caseSensitive)
      else
        [Edit([to[0].key], Add(Meaning(to[0].val)))] + PlanMembers(from, to[1..], caseSensitive)
  }

  // ----- the patch objects encode that plan -----

  lemma PatchEncodes(operation: string, path: seq<string>, value: Option<Json>, e: Change)
    requires PlainPath(path) && operation == OpName(Edit(path, e))
    requires if e.Remove? then value.None? else value.Some? && PlainTree(value.value) && e.x == Meaning(value.value)
    ensures Encodes(PatchObject(operation, PathText(path), value), Edit(path, e))
  {
    hide PathText, PlainMembers, MembersMeaning;
    var patch := PatchObject(operation, PathText(path), value);
    PatchPlain(operation, PathText(path), value);
    var ms := patch.members;
    MeaningAt(ms, 0);
    MeaningAt(ms, 1);
    if value.Some? {
      MeaningAt(ms, 2);
    }
  }

  lemma PatchPlain(operation: string, path: string, value: Option<Json>)
    requires value.Some? ==> PlainTree(value.value)
    ensures PlainMembers(PatchObject(operation, path, value).members)
    ensures UniqueKeys(PatchObject(operation, path, value).members)
  {
    var ms := PatchObject(operation, path, value).members;
    assert ms[0].key == "op" && ms[1].key == "path" && (|ms| == 3 ==> ms[2].key == "value");
    assert Plain("op") && Plain("path") && Plain("value");
    assert "op"[0] == 'o' && "path"[0] == 'p' && "value"[0] == 'v';
  }

  lemma {:induction false} PathTextAppend(base: seq<string>, token: string)
    ensures PathText(base + [token]) == PathText(base) + ("/" + token)
  {
    InitAndLast(base + [token]);
    assert (base + [token])[..|base|] == base;
    assert PathText(base) + "/" + token == PathText(base) + ("/" + token);
  }

  lemma PlainToken(key: string)
    requires Plain(key)
    ensures Token(key) == key
  {
    EncodeExact(key);
  }

  lemma PlainDecimal(i: nat)
    ensures Plain(Decimal(i))
  {
    DecimalReadsBack(i);
    assert '/' < '0' && '9' < 'A' && '9' < '~';
  }

  lemma PlainPathAppend(base: seq<string>, token: string)
    requires PlainPath(base) && Plain(token)
    ensures PlainPath(base + [token])
  {
  }

  lemma {:induction false} InsideTwice(base: seq<string>, token: string, ops: seq<Operation>)
    requires Edits(ops)
    ensures Inside(base, Inside([token], ops)) == Inside(base + [token], ops)
  {
    if ops != [] {
      assert Edits(ops[1..]);
      InsideTwice(base, token, ops[1..]);
      assert base + ([token] + ops[0].path) == (base + [token]) + ops[0].path;
      assert Inside([token], ops)[1..] == Inside([token], ops[1..]);
    }
  }

  lemma {:induction false} InsideAppend(base: seq<string>, a: seq<Operation>, b: seq<Operation>)
    requires Edits(a) && Edits(b)
    ensures Edits(a + b) && Inside(base, a + b) == Inside(base, a) + Inside(base, b)
  {
    if a == [] {
      assert a + b == b;
    } else {
      assert Edits(a[1..]);
      InsideAppend(base, a[1..], b);
      assert (a + b)[1..] == a[1..] + b && (a + b)[0] == a[0];
    }
  }

  lemma EncodesAppend(p: seq<Json>, q: seq<Json>, a: seq<Operation>, b: seq<Operation>)
    requires EncodesAll(p, a) && EncodesAll(q, b)
    ensures EncodesAll(p + q, a + b)
  {
    hide Encodes;
  }

  lemma {:induction false} CreatePatchesEncode(base: seq<string>, from: Json, to: Json, caseSensitive: bool)
    requires PlainTree(from) && PlainTree(to) && PlainPath(base)
    ensures EncodesAll(CreatePatches(PathText(base), from, to, caseSensitive),
        Inside(base, Plan(from, to, caseSensitive)))
    decreases Depth(from), 0, 0
  {
    if from.Array? && to.Array? {
      PatchItemsEncode(base, from.items, to.items, 0, caseSensitive);
    } else if from.Object? && to.Object? {
      SortPlain(from.members, caseSensitive);
      SortPlain(to.members, caseSensitive);
      PatchMembersEncode(base, SortMembers(from.members, caseSensitive), SortMembers(to.members, caseSensitive),
          caseSensitive);
    } else if Plan(from, to, caseSensitive) != [] {
      var op := Edit([], Replace(Meaning(to)));
      assert Plan(from, to, caseSensitive) == [op];
      assert base + [] == base && Inside(base, [op]) == [Edit(base, op.e)] by {
        assert [op][1..] == [];
      }
      PatchEncodes("replace", base, Some(to), Replace(Meaning(to)));
    }
  }

  /** A patch of one further token, and the patches after it. */
  lemma OneThenRest(base: seq<string>, token: string, operation: string, value: Option<Json>, e: Change,
                    rest: seq<Json>, ops: seq<Operation>)
    requires PlainPath(base) && Plain(token) && operation == OpName(Edit([token], e))
    requires if e.Remove? then value.None? else value.Some? && PlainTree(value.value) && e.x == Meaning(value.value)
    requires Edits(ops) && EncodesAll(rest, Inside(base, ops))
    ensures Edits([Edit([token], e)] + ops)
    ensures EncodesAll([ComposePatch(operation, PathText(base), token, value)] + rest,
                       Inside(base, [Edit([token], e)] + ops))
  {
    PlainToken(token);
    PathTextAppend(base, token);
    PlainPathAppend(base, token);
    PatchEncodes(operation, base + [token], value, e);
    assert ([Edit([token], e)] + ops)[1..] == ops;
    EncodesAppend([ComposePatch(operation, PathText(base), token, value)], rest,
                  [Edit(base + [token], e)], Inside(base, ops));
  }

  /** The patches for one child, and the patches after them. */
  lemma ChildThenRest(base: seq<string>, token: string, p: seq<Json>, a: seq<Operation>, rest: seq<Json>,
      ops: seq<Operation>)
    requires Edits(a) && Edits(ops)
    requires EncodesAll(p, Inside(base + [token], a)) && EncodesAll(rest, Inside(base, ops))
    ensures Edits(Inside([token], a) + ops)
    ensures EncodesAll(p + rest, Inside(base, Inside([token], a) + ops))
  {
    InsideTwice(base, token, a);
    InsideAppend(base, Inside([token], a), ops);
    EncodesAppend(p, rest, Inside(base + [token], a), Inside(base, ops));
  }

  lemma {:induction false} PatchItemsEncode(base: seq<string>, from: seq<Json>, to: seq<Json>, index: nat,
      caseSensitive: bool)
    requires PlainTree(Array(from)) && PlainTree(Array(to)) && PlainPath(base)
    ensures EncodesAll(PatchItems(PathText(base), from, to, index, caseSensitive),
                       Inside(base, PlanItems(from, to, index, caseSensitive)))
    decreases ItemsDepth(from), 1, |from| + |to|
  {
    var path, token := PathText(base), Decimal(index);
    PlainDecimal(index);
    if from != [] && to != [] {
      PathTextAppend(base, token);
      PlainPathAppend(base, token);
      CreatePatchesEncode(base + [token], from[0], to[0], caseSensitive);
      PatchItemsEncode(base, from[1..], to[1..], index + 1, caseSensitive);
      ChildThenRest(base, token, CreatePatches(path + ("/" + token), from[0], to[0], caseSensitive),
          Plan(from[0], to[0], caseSensitive),
                    PatchItems(path, from[1..], to[1..], index + 1, caseSensitive),
                    PlanItems(from[1..], to[1..], index + 1, caseSensitive));
    } else if from != [] {
      PatchItemsEncode(base, from[1..], to, index, caseSensitive);
      OneThenRest(base, token, "remove", None, Remove,
                  PatchItems(path, from[1..], to, index, caseSensitive),
                  PlanItems(from[1..], to, index, caseSensitive));
    } else if to != [] {
      PatchItemsEncode(base, from, to[1..], index + 1, caseSensitive);
      assert Plain("-");
      OneThenRest(base, "-", "add", Some(to[0]), Add(Meaning(to[0])),
                  PatchItems(path, from, to[1..], index + 1, caseSensitive),
                  PlanItems(from, to[1..], index + 1, caseSensitive));
    }
  }

  lemma {:induction false} PatchMembersEncode(base: seq<string>, from: seq<Member>, to: seq<Member>,
      caseSensitive: bool)
    requires PlainMembers(from) && PlainMembers(to) && PlainPath(base)
    ensures EncodesAll(PatchMembers(PathText(base), from, to, caseSensitive),
                       Inside(base, PlanMembers(from, to, caseSensitive)))
    decreases MembersDepth(from), 1, |from| + |to|
  {
    if from != [] || to != [] {
      var path := PathText(base);
      var diff := JoinOrder(from, to, caseSensitive);
      if diff == 0 {
        var key := from[0].key;
        PlainToken(key);
        PathTextAppend(base, key);
        PlainPathAppend(base, key);
        CreatePatchesEncode(base + [key], from[0].val, to[0].val, caseSensitive);
        PatchMembersEncode(base, from[1..], to[1..], caseSensitive);
        ChildThenRest(base, key, CreatePatches(path + ("/" + key), from[0].val, to[0].val, caseSensitive),
                      Plan(from[0].val, to[0].val, caseSensitive),
                      PatchMembers(path, from[1..], to[1..], caseSensitive),
                      PlanMembers(from[1..], to[1..], caseSensitive));
      } else if diff < 0 {
        PatchMembersEncode(base, from[1..], to, caseSensitive);
        OneThenRest(base, from[0].key, "remove", None, Remove,
                    PatchMembers(path, from[1..], to, caseSensitive), PlanMembers(from[1..], to, caseSensitive));
      } else {
        PatchMembersEncode(base, from, to[1..], caseSensitive);
        OneThenRest(base, to[0].key, "add", Some(to[0].val), Add(Meaning(to[0].val)),
                    PatchMembers(path, from, to[1..], caseSensitive), PlanMembers(from, to[1..], caseSensitive));
      }
    }
  }

  // ----- performing the plan -----

  lemma {:induction false} PerformAppend(v: Value, a: seq<Operation>, b: seq<Operation>, ix: IndexReader)
    ensures PerformAll(v, a + b, ix) ==
            match PerformAll(v, a, ix) case None => None case Some(w) => PerformAll(w, b, ix)
    decreases |a|
  {
    if a == [] {
      assert a + b == b;
    } else {
      assert (a + b)[1..] == a[1..] + b && (a + b)[0] == a[0];
      var w := Perform(v, a[0], ix);
      if w.Some? {
        PerformAppend(w.value, a[1..], b, ix);
      }
    }
  }

  lemma ExchangeLaws(v: Value, token: string, x: Value, y: Value, ix: IndexReader)
    requires Select(v, token, ix).Some?
    ensures Select(Exchange(v, token, x, ix), token, ix) == Some(x)
    ensures Exchange(Exchange(v, token, x, ix), token, y, ix) == Exchange(v, token, y, ix)
    ensures Exchange(v, token, Select(v, token, ix).value, ix) == v
  {
    match v {
      case VArray(items) => assert items[ix(token).value := items[ix(token).value]] == items;
      case VObject(m) => assert m[token := m[token]] == m;
      case _ =>
    }
  }

  /** Edits inside a child act on the child alone. */
  lemma {:induction false} PerformInside(v: Value, token: string, ops: seq<Operation>, ix: IndexReader)
    requires Edits(ops) && Select(v, token, ix).Some?
    ensures PerformAll(v, Inside([token], ops), ix) ==
            match PerformAll(Select(v, token, ix).value, ops, ix)
            case None => None
            case Some(d) => Some(Exchange(v, token, d, ix))
    decreases |ops|
  {
    var c := Select(v, token, ix).value;
    ExchangeLaws(v, token, c, c, ix);
    if ops != [] {
      assert Edits(ops[1..]);
      var op := Inside([token], ops)[0];
      assert op.path == [token] + ops[0].path && op.path[1..] == ops[0].path;
      assert Inside([token], ops)[1..] == Inside([token], ops[1..]);
      var d := Perform(c, ops[0], ix);
      if d.Some? {
        ExchangeLaws(v, token, d.value, d.value, ix);
        assert Perform(v, op, ix) == Some(Exchange(v, token, d.value, ix));
        PerformInside(Exchange(v, token, d.value, ix), token, ops[1..], ix);
        var r := PerformAll(d.value, ops[1..], ix);
        if r.Some? {
          ExchangeLaws(v, token, d.value, r.value, ix);
        }
      } else {
        assert Perform(v, op, ix) == None;
      }
    }
  }

  /** A reader that takes the decimal text of an index for that index, and "-" for none. */
  ghost predicate ReadsDecimals(ix: IndexReader) {
    ix("-") == None && forall i: nat :: ix(Decimal(i)) == Some(i)
  }

  /** Carrying out the plan for two trees turns the meaning of the first into that of the second. */
  lemma {:induction false} PlanReaches(from: Json, to: Json, caseSensitive: bool, ix: IndexReader)
    requires ReadsDecimals(ix)
    requires PlainTree(from) && PlainTree(to)
    ensures PerformAll(Meaning(from), Plan(from, to, caseSensitive), ix) == Some(Meaning(to))
    decreases Depth(from), 0, 0
  {
    hide PlanItems, PlanMembers, ItemsMeaning, MembersMeaning, SortMembers, InOrder, UniqueKeys;
    if from.Array? && to.Array? {
      PlanItemsReach([], from.items, to.items, caseSensitive, ix);
      assert [] + ItemsMeaning(from.items) == ItemsMeaning(from.items);
      assert [] + ItemsMeaning(to.items) == ItemsMeaning(to.items);
    } else if from.Object? && to.Object? {
      var fs, ts := SortMembers(from.members, caseSensitive), SortMembers(to.members, caseSensitive);
      SortPlain(from.members, caseSensitive);
      SortPlain(to.members, caseSensitive);
      var m := MembersMeaning(fs);
      assert forall k :: k in m ==> k in m.Keys;
      PlanMembersReach(m, fs, ts, caseSensitive, ix);
      assert (m - m.Keys) + MembersMeaning(ts) == MembersMeaning(ts);
    } else if Plan(from, to, caseSensitive) != [] {
      var op := Edit([], Replace(Meaning(to)));
      assert Plan(from, to, caseSensitive) == [op] && [op][1..] == [];
    }
  }

  lemma SelectDecimal(i: nat, ix: IndexReader)
    requires ReadsDecimals(ix)
    ensures ix(Decimal(i)) == Some(i) && ix("-") == None
  {
  }

  /** Both readers do. */
  lemma ReadersReadDecimals()
    ensures ReadsDecimals(DecodeArrayIndex) && ReadsDecimals(StandardIndex)
  {
    forall i: nat
      ensures DecodeArrayIndex(Decimal(i)) == Some(i) && StandardIndex(Decimal(i)) == Some(i)
    {
      DecimalIndex(i, "");
      assert Decimal(i) + "" == Decimal(i);
      DecimalReadsBack(i);
    }
    assert "-"[0] == '-';
  }

  /** With the first elements already as they should be, the rest of the plan does the rest. */
  lemma {:induction false} PlanItemsReach(done: seq<Value>, from: seq<Json>, to: seq<Json>, caseSensitive: bool,
      ix: IndexReader)
    requires ReadsDecimals(ix)
    requires PlainTree(Array(from)) && PlainTree(Array(to))
    ensures PerformAll(VArray(done + ItemsMeaning(from)), PlanItems(from, to, |done|, caseSensitive), ix)
         == Some(VArray(done + ItemsMeaning(to)))
    decreases ItemsDepth(from), 1, |from| + |to|
  {
    if from != [] || to != [] {
      if from != [] && to != [] {
        PlanReaches(from[0], to[0], caseSensitive, ix);
      }
      var d, f, t := ItemStep(done, from, to, caseSensitive, ix);
      PlanItemsReach(d, f, t, caseSensitive, ix);
    }
  }

  /** One turn of the array loops: the state it leads to, from which the same array is to be reached. */
  lemma {:induction false} ItemStep(done: seq<Value>, from: seq<Json>, to: seq<Json>, caseSensitive: bool,
      ix: IndexReader)
    returns (d: seq<Value>, f: seq<Json>, t: seq<Json>)
    requires ReadsDecimals(ix)
    requires PlainTree(Array(from)) && PlainTree(Array(to)) && (from != [] || to != [])
    requires from != [] && to != [] ==>
      PerformAll(Meaning(from[0]), Plan(from[0], to[0], caseSensitive), ix) == Some(Meaning(to[0]))
    ensures PlainTree(Array(f)) && PlainTree(Array(t))
    ensures ItemsDepth(f) <= ItemsDepth(from) && |f| + |t| < |from| + |to|
    ensures d + ItemsMeaning(t) == done + ItemsMeaning(to)
    ensures PerformAll(VArray(done + ItemsMeaning(from)), PlanItems(from, to, |done|, caseSensitive), ix)
         == PerformAll(VArray(d + ItemsMeaning(f)), PlanItems(f, t, |d|, caseSensitive), ix)
  {
    hide PerformAll, PlanItems, Plan, ItemsMeaning;
    if from != [] && to != [] {
      BothItems(done, from, to, caseSensitive, ix);
      MoveOver(done, to);
      d, f, t := done + [Meaning(to[0])], from[1..], to[1..];
    } else if from != [] {
      LeftoverItem(done, from, to, caseSensitive, ix);
      d, f, t := done, from[1..], to;
    } else {
      MissingItem(done, from, to, caseSensitive, ix);
      MoveOver(done, to);
      d, f, t := done + [Meaning(to[0])], from, to[1..];
    }
  }

  lemma MoveOver(done: seq<Value>, to: seq<Json>)
    requires to != []
    ensures done + ItemsMeaning(to) == (done + [Meaning(to[0])]) + ItemsMeaning(to[1..])
  {
  }

  /** One element only the first array still has. */
  lemma LeftoverItem(done: seq<Value>, from: seq<Json>, to: seq<Json>, caseSensitive: bool, ix: IndexReader)
    requires ReadsDecimals(ix)
    requires from != [] && to == []
    ensures PerformAll(VArray(done + ItemsMeaning(from)), PlanItems(from, to, |done|, caseSensitive), ix)
         == PerformAll(VArray(done + ItemsMeaning(from[1..])), PlanItems(from[1..], to, |done|, caseSensitive), ix)
  {
    var index, items, w := |done|, done + ItemsMeaning(from), done + ItemsMeaning(from[1..]);
    SelectDecimal(index, ix);
    assert items[..index] + items[index + 1..] == w;
    FirstThenRest(VArray(items), Edit([Decimal(index)], Remove), PlanItems(from[1..], to, index, caseSensitive),
        VArray(w), ix);
  }

  /** One element only the second array still has. */
  lemma MissingItem(done: seq<Value>, from: seq<Json>, to: seq<Json>, caseSensitive: bool, ix: IndexReader)
    requires ReadsDecimals(ix)
    requires from == [] && to != []
    ensures PerformAll(VArray(done + ItemsMeaning(from)), PlanItems(from, to, |done|, caseSensitive), ix)
         == PerformAll(VArray((done + [Meaning(to[0])]) + ItemsMeaning(from)),
           PlanItems(from, to[1..], |done| + 1, caseSensitive), ix)
  {
    var x, items := Meaning(to[0]), done + ItemsMeaning(from);
    assert items + [x] == (done + [x]) + ItemsMeaning(from);
    FirstThenRest(VArray(items), Edit(["-"], Add(x)), PlanItems(from, to[1..], |done| + 1, caseSensitive),
        VArray(items + [x]), ix);
  }

  /** One element both arrays have. */
  lemma BothItems(done: seq<Value>, from: seq<Json>, to: seq<Json>, caseSensitive: bool, ix: IndexReader)
    requires ReadsDecimals(ix)
    requires from != [] && to != []
    requires PerformAll(Meaning(from[0]), Plan(from[0], to[0], caseSensitive), ix) == Some(Meaning(to[0]))
    ensures PerformAll(VArray(done + ItemsMeaning(from)), PlanItems(from, to, |done|, caseSensitive), ix)
         == PerformAll(VArray((done + [Meaning(to[0])]) + ItemsMeaning(from[1..])),
                       PlanItems(from[1..], to[1..], |done| + 1, caseSensitive), ix)
  {
    var v, token, x := VArray(done + ItemsMeaning(from)), Decimal(|done|), Meaning(to[0]);
    var ops := Plan(from[0], to[0], caseSensitive);
    SelectDecimal(|done|, ix);
    PerformInside(v, token, ops, ix);
    PerformAppend(v, Inside([token], ops), PlanItems(from[1..], to[1..], |done| + 1, caseSensitive), ix);
    PutAtBoundary(done, ItemsMeaning(from), x);
    assert ItemsMeaning(from)[1..] == ItemsMeaning(from[1..]);
  }

  lemma PutAtBoundary<T>(a: seq<T>, b: seq<T>, x: T)
    requires b != []
    ensures (a + b)[|a| := x] == (a + [x]) + b[1..]
  {
  }

  lemma FirstThenRest(v: Value, op: Operation, rest: seq<Operation>, w: Value, ix: IndexReader)
    requires Perform(v, op, ix) == Some(w)
    ensures PerformAll(v, [op] + rest, ix) == PerformAll(w, rest, ix)
  {
    assert ([op] + rest)[1..] == rest;
  }

  /** The state of the join: what is still to come of `from` is in the object as it was, and what is
      still to come of `to` is not there unless `from` has it too. */
  ghost predicate Pending(m: map<string, Value>, from: seq<Member>, to: seq<Member>) {
    && (forall k :: k in MembersMeaning(from) ==> k in m && m[k] == MembersMeaning(from)[k])
    && (forall k :: k in MembersMeaning(to) && k !in MembersMeaning(from) ==> k !in m)
  }

  /** What the rest of the join must reach. */
  function JoinGoal(m: map<string, Value>, from: seq<Member>, to: seq<Member>): Value {
    VObject((m - MembersMeaning(from).Keys) + MembersMeaning(to))
  }

  lemma {:induction false} PlanMembersReach(m: map<string, Value>, from: seq<Member>, to: seq<Member>,
      caseSensitive: bool, ix: IndexReader)
    requires ReadsDecimals(ix)
    requires PlainMembers(from) && PlainMembers(to) && InOrder(from) && InOrder(to) && Pending(m, from, to)
    ensures PerformAll(VObject(m), PlanMembers(from, to, caseSensitive), ix) == Some(JoinGoal(m, from, to))
    decreases MembersDepth(from), 1, |from| + |to|
  {
    if from == [] && to == [] {
      assert (m - MembersMeaning(from).Keys) + MembersMeaning(to) == m;
    } else {
      if JoinOrder(from, to, caseSensitive) == 0 {
        PlanReaches(from[0].val, to[0].val, caseSensitive, ix);
      }
      var n, f, t := JoinStep(m, from, to, caseSensitive, ix);
      PlanMembersReach(n, f, t, caseSensitive, ix);
    }
  }

  /** One turn of the join: the state it leads to, from which the same goal is to be reached. */
  lemma {:induction false} JoinStep(m: map<string, Value>, from: seq<Member>, to: seq<Member>, caseSensitive: bool,
      ix: IndexReader)
    returns (n: map<string, Value>, f: seq<Member>, t: seq<Member>)
    requires PlainMembers(from) && PlainMembers(to) && InOrder(from) && InOrder(to) && Pending(m, from, to)
    requires from != [] || to != []
    requires JoinOrder(from, to, caseSensitive) == 0 ==>
      PerformAll(Meaning(from[0].val), Plan(from[0].val, to[0].val, caseSensitive), ix) == Some(Meaning(to[0].val))
    ensures PlainMembers(f) && PlainMembers(t) && InOrder(f) && InOrder(t) && Pending(n, f, t)
    ensures MembersDepth(f) <= MembersDepth(from) && |f| + |t| < |from| + |to|
    ensures JoinGoal(n, f, t) == JoinGoal(m, from, to)
    ensures PerformAll(VObject(m), PlanMembers(from, to, caseSensitive), ix)
         == PerformAll(VObject(n), PlanMembers(f, t, caseSensitive), ix)
  {
    hide PlanMembers, PerformAll, JoinGoal, Pending, Plan;
    var diff := JoinOrder(from, to, caseSensitive);
    if diff == 0 {
      ComparePlain(from[0].key, to[0].key, caseSensitive);
      SharedKey(m, from, to, caseSensitive, ix);
      BothAdvance(m, from, to, Meaning(to[0].val));
      n, f, t := m[from[0].key := Meaning(to[0].val)], from[1..], to[1..];
    } else if diff < 0 {
      RemovedKey(m, from, to, caseSensitive, ix);
      n, f, t := m - {from[0].key}, from[1..], to;
    } else {
      AddedKey(m, from, to, caseSensitive, ix);
      n, f, t := m[to[0].key := Meaning(to[0].val)], from, to[1..];
    }
  }

  /** A key both objects have: its member's plan runs inside it. */
  lemma SharedKey(m: map<string, Value>, from: seq<Member>, to: seq<Member>, caseSensitive: bool, ix: IndexReader)
    requires PlainMembers(from) && PlainMembers(to) && Pending(m, from, to) && from != [] && to != []
    requires JoinOrder(from, to, caseSensitive) == 0 && from[0].key == to[0].key
    requires PerformAll(Meaning(from[0].val), Plan(from[0].val, to[0].val, caseSensitive), ix)
        == Some(Meaning(to[0].val))
    ensures var n := m[from[0].key := Meaning(to[0].val)];
            && Pending(n, from[1..], to[1..])
            && PerformAll(VObject(m), PlanMembers(from, to, caseSensitive), ix)
            == PerformAll(VObject(n), PlanMembers(from[1..], to[1..], caseSensitive), ix)
  {
    var key, ops := from[0].key, Plan(from[0].val, to[0].val, caseSensitive);
    HeadOfMeaning(from);
    HeadOfMeaning(to);
    PerformInside(VObject(m), key, ops, ix);
    PerformAppend(VObject(m), Inside([key], ops), PlanMembers(from[1..], to[1..], caseSensitive), ix);
  }

  lemma RemovedKey(m: map<string, Value>, from: seq<Member>, to: seq<Member>, caseSensitive: bool, ix: IndexReader)
    requires PlainMembers(from) && PlainMembers(to) && InOrder(from) && InOrder(to) && Pending(m, from, to)
    requires (from != [] || to != []) && JoinOrder(from, to, caseSensitive) < 0
    ensures from[0].key in m && Pending(m - {from[0].key}, from[1..], to)
    ensures JoinGoal(m - {from[0].key}, from[1..], to) == JoinGoal(m, from, to)
    ensures PerformAll(VObject(m), PlanMembers(from, to, caseSensitive), ix)
         == PerformAll(VObject(m - {from[0].key}), PlanMembers(from[1..], to, caseSensitive), ix)
  {
    hide Meaning, Plan, MembersMeaning, InOrder, PerformAll;
    AbsentKey(from, to, caseSensitive);
    HeadOfMeaning(from);
    var key := from[0].key;
    assert MembersMeaning(from)[key] == Meaning(from[0].val);
    RemoveEntry(m, MembersMeaning(from), MembersMeaning(to), key);
    FirstThenRest(VObject(m), Edit([key], Remove), PlanMembers(from[1..], to, caseSensitive), VObject(m - {key}), ix);
  }

  lemma RemoveEntry(m: map<string, Value>, a: map<string, Value>, b: map<string, Value>, key: string)
    requires key in a && key !in b
    ensures ((m - {key}) - (a - {key}).Keys) + b == (m - a.Keys) + b
  {
  }

  lemma AddedKey(m: map<string, Value>, from: seq<Member>, to: seq<Member>, caseSensitive: bool, ix: IndexReader)
    requires PlainMembers(from) && PlainMembers(to) && InOrder(from) && InOrder(to) && Pending(m, from, to)
    requires (from != [] || to != []) && JoinOrder(from, to, caseSensitive) > 0
    ensures Pending(m[to[0].key := Meaning(to[0].val)], from, to[1..])
    ensures JoinGoal(m[to[0].key := Meaning(to[0].val)], from, to[1..]) == JoinGoal(m, from, to)
    ensures PerformAll(VObject(m), PlanMembers(from, to, caseSensitive), ix)
         == PerformAll(VObject(m[to[0].key := Meaning(to[0].val)]), PlanMembers(from, to[1..], caseSensitive), ix)
  {
    hide Meaning, Plan, MembersMeaning, InOrder, PerformAll;
    AbsentKey(from, to, caseSensitive);
    HeadOfMeaning(to);
    var key, x := to[0].key, Meaning(to[0].val);
    assert MembersMeaning(to)[key] == x;
    AddEntry(m, MembersMeaning(from), MembersMeaning(to), key);
    FirstThenRest(VObject(m), Edit([key], Add(x)), PlanMembers(from, to[1..], caseSensitive), VObject(m[key := x]), ix);
  }

  lemma AddEntry(m: map<string, Value>, a: map<string, Value>, b: map<string, Value>, key: string)
    requires key in b && key !in a
    ensures (m[key := b[key]] - a.Keys) + (b - {key}) == (m - a.Keys) + b
  {
  }

  lemma BothAdvance(m: map<string, Value>, from: seq<Member>, to: seq<Member>, x: Value)
    requires from != [] && to != [] && PlainMembers(from) && PlainMembers(to)
    requires from[0].key == to[0].key && x == Meaning(to[0].val)
    ensures JoinGoal(m[to[0].key := x], from[1..], to[1..]) == JoinGoal(m, from, to)
  {
    HeadOfMeaning(from);
    HeadOfMeaning(to);
  }

  // ----- the round trip -----

  lemma EditMeets(root: Json, patch: Json, op: Operation, caseSensitive: bool)
    requires PlainTree(root) && Encodes(patch, op) && op.Edit?
    ensures Matches(ApplyPatch(root, patch, caseSensitive), Perform(Meaning(root), op, DecodeArrayIndex))
  {
    hide ApplyPatch, Perform;
    ApplyPatchMatches(root, patch, op, caseSensitive);
  }

  /** No edit is carried out otherwise than the standard says. */
  lemma {:induction false} EditsConform(v: Value, ops: seq<Operation>, ix: IndexReader)
    requires Edits(ops)
    ensures NoneDeparts(v, ops, ix)
    decreases |ops|
  {
    if ops != [] {
      hide Perform;
      var w := Perform(v, ops[0], ix);
      if w.Some? {
        EditsConform(w.value, ops[1..], ix);
      }
    }
  }

  lemma {:induction false} InsideNothing(ops: seq<Operation>)
    requires Edits(ops)
    ensures Inside([], ops) == ops
  {
    if ops != [] {
      assert Edits(ops[1..]);
      InsideNothing(ops[1..]);
      assert [] + ops[0].path == ops[0].path;
      assert ops == [ops[0]] + ops[1..];
    }
  }

  /** The law diff and apply are for. For all plain trees, applying the patches generated from `from` to
      `to` to any document that means what `from` means succeeds and gives a document that means what
      `to` means; generator and applier may use either case mode. On nodes the document's child lists must be
      well-formed, which those of `from` need not be once generating has sorted it (`StaleHeads`). */
  lemma DiffApplyRoundTrip(document: Json, from: Json, to: Json, generateSensitive: bool, applySensitive: bool)
    requires PlainTree(document) && PlainTree(from) && PlainTree(to) && Meaning(document) == Meaning(from)
    ensures var r := ApplyAll(document, CreatePatches("", from, to, generateSensitive), applySensitive);
            r.status == 0 && Meaning(r.root) == Meaning(to) && PlainTree(r.root)
  {
    hide PlainTree, Meaning, ApplyAll, PerformAll, EncodesAll, ReadsDecimals, Edits, NoneDeparts;
    ReadersReadDecimals();
    var ops := Plan(from, to, generateSensitive);
    CreatePatchesEncode([], from, to, generateSensitive);
    InsideNothing(ops);
    EditsConform(Meaning(document), ops, DecodeArrayIndex);
    ApplyAllMatches(document, CreatePatches("", from, to, generateSensitive), ops, applySensitive);
    PlanReaches(from, to, generateSensitive, DecodeArrayIndex);
  }

  /** There are no patches exactly when there is no difference. */
  lemma NoPatchesIffEqual(from: Json, to: Json, caseSensitive: bool)
    requires PlainTree(from) && PlainTree(to)
    ensures CreatePatches("", from, to, caseSensitive) == [] <==> Meaning(from) == Meaning(to)
  {
    if CreatePatches("", from, to, caseSensitive) == [] {
      DiffApplyRoundTrip(from, from, to, caseSensitive, caseSensitive);
    }
    if Meaning(from) == Meaning(to) {
      EqualGivesNothing("", from, to, caseSensitive);
    }
  }

  lemma {:induction false} EqualGivesNothing(path: string, from: Json, to: Json, caseSensitive: bool)
    requires PlainTree(from) && PlainTree(to) && Meaning(from) == Meaning(to)
    ensures CreatePatches(path, from, to, caseSensitive) == []
    decreases Depth(from), 0, 0
  {
    match from {
      case Array(items) => EqualItemsGiveNothing(path, items, to.items, 0, caseSensitive);
      case Object(ms) =>
        SortPlain(ms, caseSensitive);
        SortPlain(to.members, caseSensitive);
        EqualMembersGiveNothing(path, SortMembers(ms, caseSensitive), SortMembers(to.members, caseSensitive),
            caseSensitive);
      case _ =>
    }
  }

  lemma {:induction false} EqualItemsGiveNothing(path: string, from: seq<Json>, to: seq<Json>, index: nat,
      caseSensitive: bool)
    requires PlainTree(Array(from)) && PlainTree(Array(to)) && ItemsMeaning(from) == ItemsMeaning(to)
    ensures PatchItems(path, from, to, index, caseSensitive) == []
    decreases ItemsDepth(from), 1, |from|
  {
    if from != [] {
      var a, b := ItemsMeaning(from), ItemsMeaning(to);
      assert |from| == |to| && a[0] == b[0] && a[1..] == ItemsMeaning(from[1..]) && b[1..] == ItemsMeaning(to[1..]);
      EqualGivesNothing(path + ("/" + Decimal(index)), from[0], to[0], caseSensitive);
      EqualItemsGiveNothing(path, from[1..], to[1..], index + 1, caseSensitive);
    } else {
      assert |ItemsMeaning(to)| == 0;
    }
  }

  lemma {:induction false} EqualMembersGiveNothing(path: string, from: seq<Member>, to: seq<Member>,
      caseSensitive: bool)
    requires PlainMembers(from) && PlainMembers(to) && InOrder(from) && InOrder(to)
    requires MembersMeaning(from) == MembersMeaning(to)
    ensures PatchMembers(path, from, to, caseSensitive) == []
    decreases MembersDepth(from), 1, |from|
  {
    if from != [] && to != [] {
      LeastKeysAgree(from, to);
      HeadOfMeaning(from);
      HeadOfMeaning(to);
      ComparePlain(from[0].key, to[0].key, caseSensitive);
      EqualGivesNothing(path + ("/" + Token(from[0].key)), from[0].val, to[0].val, caseSensitive);
      EqualMembersGiveNothing(path, from[1..], to[1..], caseSensitive);
    } else {
      NonemptyMeaning(from);
      NonemptyMeaning(to);
    }
  }
}
