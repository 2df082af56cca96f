// save_X and load_X in their own form: a pointer set filled in post-order, a growing write buffer,
// a read cursor, and a heap into which load allocates.
module GraphSaveLoad {
  import opened Bytes
  import opened BinaryIO
  import opened ObjectGraph
  import opened GraphRoundTrip
  import opened CollectOrder
  import opened Wrappers

  class NrPtrSet {
    var ptrs: seq<Ptr>
    var types: seq<Tag>

    constructor ()
      ensures ptrs == [] && types == []
    {
      ptrs, types := [], [];
    }

    method Find(p: Ptr) returns (i: int)
      ensures i == ObjectGraph.Find(ptrs, p)
    {
      i := 0;
      while i < |ptrs|
        invariant 0 <= i <= |ptrs|
        invariant forall k :: 0 <= k < i ==> ptrs[k] != p
      {
        if ptrs[i] == p { return; }
        i := i + 1;
      }
      i := -1;
    }

    method Add(p: Ptr, t: Tag) returns (idx: int)
      modifies this
      ensures p in old(ptrs) ==> ptrs == old(ptrs) && types == old(types)
      ensures p !in old(ptrs) ==> ptrs == old(ptrs) + [p] && types == old(types) + [t]
      ensures idx == ObjectGraph.Find(ptrs, p)
    {
      idx := Find(p);
      if idx >= 0 { return; }
      idx := |ptrs|;
      ptrs, types := ptrs + [p], types + [t];
    }
  }

  // ---- Collect ------------------------------------------------------------------------------

  ghost predicate TypesMatch(h: Heap, order: seq<Ptr>, types: seq<Tag>, schema: Schema) {
    && Table(h, order, schema)
    && |types| == |order| && forall i :: 0 <= i < |order| ==> types[i] == h[order[i]].tag
  }

  ghost predicate SeenOk(h: Heap, schema: Schema, ptrs: seq<Ptr>, types: seq<Tag>) {
    ChildrenFirst(h, ptrs, schema) && TypesMatch(h, ptrs, types, schema)
  }

  /** _collect_graph_X: the children first, then the object itself. */
  method Collect(h: Heap, schema: Schema, p: Ptr, t: Tag, seen: NrPtrSet, ghost rank: map<Ptr, nat>)
    requires WellTyped(h, schema) && Acyclic(h, rank)
    requires p != NULL ==> p in h && h[p].tag == t
    requires SeenOk(h, schema, seen.ptrs, seen.types)
    modifies seen
    ensures seen.ptrs == Visit(h, rank, p, old(seen.ptrs)) && SeenOk(h, schema, seen.ptrs, seen.types)
    decreases if p in rank then rank[p] + 1 else 0
  {
    if p == NULL { return; }
    var found := seen.Find(p);
    if found >= 0 { return; }
    var kids := Kids(h[p].fields, true);
    for i := 0 to |kids|
      invariant SeenOk(h, schema, seen.ptrs, seen.types)
      invariant VisitedKids(h, rank, p, kids, i, old(seen.ptrs), seen.ptrs)
    {
      KidIsObject(h, schema, p, kids, i);
      VisitedMore(h, rank, p, kids, i, old(seen.ptrs), seen.ptrs);
      Collect(h, schema, kids[i].1, kids[i].0, seen, rank);
    }
    SelfAfterKids(h, schema, rank, p, kids, old(seen.ptrs), seen.ptrs, seen.types);
    var _ := seen.Add(p, t);
  }

  ghost predicate VisitedKids(h: Heap, rank: map<Ptr, nat>, p: Ptr, kids: seq<(Tag, Ptr)>, i: int, before: seq<Ptr>,
                              now: seq<Ptr>)
    requires Acyclic(h, rank)
  {
    && p in h && h[p].Struct? && kids == Kids(h[p].fields, true) && 0 <= i <= |kids|
    && now == VisitKids(h, rank, kids[..i], rank[p], before)
  }

  lemma VisitedMore(h: Heap, rank: map<Ptr, nat>, p: Ptr, kids: seq<(Tag, Ptr)>, i: nat, before: seq<Ptr>,
                    now: seq<Ptr>)
    requires Acyclic(h, rank) && VisitedKids(h, rank, p, kids, i, before, now) && i < |kids|
    ensures VisitedKids(h, rank, p, kids, i + 1, before, Visit(h, rank, kids[i].1, now))
  {
    assert kids[..i + 1][..i] == kids[..i];
  }

  lemma SelfAfterKids(h: Heap, schema: Schema, rank: map<Ptr, nat>, p: Ptr, kids: seq<(Tag, Ptr)>, before: seq<Ptr>,
                      now: seq<Ptr>, types: seq<Tag>)
    requires WellTyped(h, schema) && Acyclic(h, rank) && p in h && p !in before && ChildrenFirst(h, before, schema)
    requires VisitedKids(h, rank, p, kids, |kids|, before, now) && SeenOk(h, schema, now, types)
    ensures p !in now && now + [p] == Visit(h, rank, p, before)
    ensures SeenOk(h, schema, now + [p], types + [h[p].tag])
  {
    assert kids[..|kids|] == kids;
    VisitKeeps(h, schema, rank, p, before);
    LastIsNew(now, p);
  }

  lemma LastIsNew(s: seq<Ptr>, p: Ptr)
    requires NoDup(s + [p])
    ensures p !in s
  {
    forall i | 0 <= i < |s| ensures s[i] != p { assert (s + [p])[i] != (s + [p])[|s|]; }
  }

  // ---- Save ---------------------------------------------------------------------------------

  /** _serialize_graph_X: the type hash, then field by field; pointers as table indices. */
  method SerializeGraph(w: NrWriter, v: Val, seen: NrPtrSet)
    modifies w
    ensures w.data == old(w.data) + Enc(v, seen.ptrs)
    decreases v, 0
  {
    match v
    case Raw(b) => w.WriteBytes(b);
    case Text(s) =>
      w.WriteBytes(SignedLE(|s|, 4));
      w.WriteBytes(s);
    case Ref(_, p) =>
      var idx := -1;
      if p != NULL { idx := seen.Find(p); }
      w.WriteBytes(SignedLE(idx, 4));
    case Struct(tag, fs) =>
      w.WriteBytes(LE(tag, 4));
      SerializeAll(w, fs, seen);
    case Elems(items) => SerializeAll(w, items, seen);
  }

  method SerializeAll(w: NrWriter, vs: seq<Val>, seen: NrPtrSet)
    modifies w
    ensures w.data == old(w.data) + EncAll(vs, seen.ptrs)
    decreases vs, 1
  {
    if vs != [] {
      SerializeGraph(w, vs[0], seen);
      SerializeAll(w, vs[1..], seen);
    }
  }

  lemma {:induction false} DistinctFit(s: seq<Ptr>, m: Heap)
    requires NoDup(s) && forall q :: q in s ==> q in m
    ensures |s| <= |m|
  {
    if s != [] {
      var last := s[|s| - 1];
      assert forall q :: q in s[..|s| - 1] ==> q in m - {last};
      DistinctFit(s[..|s| - 1], m - {last});
    }
  }

  method CollectAll(h: Heap, schema: Schema, root: Ptr, rootTag: Tag, ghost rank: map<Ptr, nat>)
    returns (seen: NrPtrSet)
    requires WellTyped(h, schema) && Acyclic(h, rank)
    requires root != NULL ==> root in h && h[root].tag == rootTag
    ensures fresh(seen) && TypesMatch(h, seen.ptrs, seen.types, schema) && |seen.ptrs| <= |h|
    ensures seen.ptrs == Visit(h, rank, root, [])
    ensures if root == NULL then seen.ptrs == [] else PostOrder(h, root, seen.ptrs, schema)
  {
    seen := new NrPtrSet();
    Collect(h, schema, root, rootTag, seen, rank);
    if root != NULL { OrderIsPostOrder(h, schema, rank, root); }
    DistinctFit(seen.ptrs, h);
  }

  method Save(h: Heap, schema: Schema, root: Ptr, rootTag: Tag, ghost rank: map<Ptr, nat>)
    returns (file: seq<Byte>, ghost order: seq<Ptr>)
    requires WellTyped(h, schema) && Acyclic(h, rank)
    requires root != NULL ==> root in h && h[root].tag == rootTag
    ensures order == Visit(h, rank, root, []) && (root != NULL ==> PostOrder(h, root, order, schema))
    ensures |order| <= |h| && Table(h, order, schema)
    ensures file == EncodeFile(h, Visit(h, rank, root, []), rootTag, schema)
  {
    var seen := CollectAll(h, schema, root, rootTag, rank);
    order := seen.ptrs;
    var w := new NrWriter();
    WriteHeader(w, rootTag, |seen.ptrs|);
    WriteObjects(w, h, schema, seen);
    file := w.data;
  }

  method WriteHeader(w: NrWriter, rootTag: Tag, count: nat)
    requires w.data == []
    modifies w
    ensures w.data == LE(MAGIC, 4) + LE(rootTag, 4) + SignedLE(count, 4)
  {
    w.WriteBytes(LE(MAGIC, 4));
    w.WriteBytes(LE(rootTag, 4));
    w.WriteBytes(SignedLE(count, 4));
  }

  method WriteObjects(w: NrWriter, h: Heap, schema: Schema, seen: NrPtrSet)
    requires TypesMatch(h, seen.ptrs, seen.types, schema)
    modifies w
    ensures w.data == old(w.data) + EncObjs(h, seen.ptrs, 0, schema)
  {
    var i := 0;
    while i < |seen.ptrs|
      invariant 0 <= i <= |seen.ptrs|
      invariant w.data + EncObjs(h, seen.ptrs, i, schema) == old(w.data) + EncObjs(h, seen.ptrs, 0, schema)
    {
      ghost var before := w.data;
      w.WriteBytes(LE(seen.types[i], 4));
      SerializeGraph(w, h[seen.ptrs[i]], seen);
      assert before + EncObjs(h, seen.ptrs, i, schema) == w.data + EncObjs(h, seen.ptrs, i + 1, schema);
      i := i + 1;
    }
    assert w.data + [] == w.data;
  }

  // ---- Load ---------------------------------------------------------------------------------

  /** _deserialize_graph_X, where `objs` are the slots filled so far. */
  method DeserializeGraph(r: NrReader, ft: FieldType, objs: seq<Ptr>) returns (res: Option<Val>)
    requires r.Valid()
    modifies r
    ensures r.Valid()
    ensures match Read(ft, old(r.Rest()), objs)
            case None => res == None
            case Some((v, rest)) => res == Some(v) && r.Rest() == rest
    decreases ft, 0, 0
  {
    match ft
    case Scalar(w) =>
      var b := r.ReadBytes(w);
      res := if b.None? then None else Some(Raw(b.value));
    case Str =>
      var l := r.ReadBytes(4);
      if l.None? { return None; }
      var s := r.ReadBytes(SignedNum(l.value));
      res := if s.None? then None else Some(Text(s.value));
    case Pointer(t) =>
      var l := r.ReadBytes(4);
      if l.None? { return None; }
      var idx := SignedNum(l.value);
      res := if idx < 0 then Some(Ref(t, NULL)) else if idx < |objs| then Some(Ref(t, objs[idx])) else None;
    case Value(tag, fts) =>
      var l := r.ReadBytes(4);
      if l.None? || Num(l.value) != tag { return None; }
      var fs := DeserializeFields(r, fts, objs);
      res := if fs.None? then None else Some(Struct(tag, fs.value));
    case Array(elem, n) =>
      ghost var start := r.Rest();
      var items: seq<Val> := [];
      PrependNothing(ReadElems(elem, n, start, objs));
      var i := 0;
      while i < n
        invariant 0 <= i <= n && r.Valid()
        invariant ReadElems(elem, n, start, objs) == Prepend(items, ReadElems(elem, n - i, r.Rest(), objs))
      {
        var v := DeserializeGraph(r, elem, objs);
        if v.None? { return None; }
        PrependStep(items, v.value, ReadElems(elem, n - i - 1, r.Rest(), objs));
        items := items + [v.value];
        i := i + 1;
      }
      PrependStep(items, Raw([]), Some(([], r.Rest())));
      res := Some(Elems(items));
  }

  method DeserializeFields(r: NrReader, fts: seq<FieldType>, objs: seq<Ptr>) returns (res: Option<seq<Val>>)
    requires r.Valid()
    modifies r
    ensures r.Valid()
    ensures match ReadFields(fts, old(r.Rest()), objs)
            case None => res == None
            case Some((vs, rest)) => res == Some(vs) && r.Rest() == rest
    decreases fts, 1, 0
  {
    if fts == [] { return Some([]); }
    var v := DeserializeGraph(r, fts[0], objs);
    if v.None? { return None; }
    var vs := DeserializeFields(r, fts[1..], objs);
    res := if vs.None? then None else Some([v.value] + vs.value);
  }

  /** An allocator's answers: non-null, unused and pairwise different addresses. */
  ghost predicate FreshSupply(h: Heap, supply: nat -> Ptr) {
    forall i: nat :: supply(i) != NULL && supply(i) !in h && forall j: nat :: j != i ==> supply(i) != supply(j)
  }

  ghost function Placed(vals: seq<Val>, supply: nat -> Ptr, i: nat, h: Heap): Heap
    requires i <= |vals|
  {
    if i == 0 then h else Placed(vals, supply, i - 1, h)[supply(i - 1) := vals[i - 1]]
  }

  class ObjectStore {
    var mem: Heap

    /** load_X: allocates and fills one object per table entry and returns the last. */
    method Load(schema: Schema, rootTag: Tag, file: seq<Byte>, supply: nat -> Ptr) returns (root: Option<Ptr>)
      modifies this
      ensures match DecodeFile(schema, rootTag, file, supply)
              case None => root == None
              case Some(vals) =>
                root == Some(supply(|vals| - 1)) && mem == Placed(vals, supply, |vals|, old(mem))
    {
      var r := new NrReader(file);
      assert r.Rest() == file;
      var n := ReadHeader(r, rootTag);
      if n.None? { return None; }
      var objs := ReadObjects(schema, r, n.value, supply);
      root := if objs.None? then None else Some(objs.value[n.value - 1]);
    }

    method ReadHeader(r: NrReader, rootTag: Tag) returns (n: Option<nat>)
      requires r.Valid()
      modifies r
      ensures r.Valid()
      ensures match DecodeHeader(rootTag, old(r.Rest()))
              case None => n == None
              case Some((count, rest)) => n == Some(count) && r.Rest() == rest
    {
      var m := r.ReadBytes(4);
      if m.None? || Num(m.value) != MAGIC { return None; }
      var t := r.ReadBytes(4);
      if t.None? || Num(t.value) != rootTag { return None; }
      var c := r.ReadBytes(4);
      n := if c.None? || SignedNum(c.value) < 1 then None else Some(SignedNum(c.value));
    }

    method ReadObjects(schema: Schema, r: NrReader, n: nat, supply: nat -> Ptr) returns (objs: Option<seq<Ptr>>)
      requires r.Valid()
      modifies this, r
      ensures match DecodeObjs(schema, old(r.Rest()), 0, n, Addresses(supply, n))
              case None => objs == None
              case Some((vals, _)) =>
                |vals| == n && objs == Some(Addresses(supply, n)) && mem == Placed(vals, supply, n, old(mem))
    {
      ghost var body := r.Rest();
      ghost var alloc := Addresses(supply, n);
      var slots: seq<Ptr> := [];
      ghost var vals: seq<Val> := [];
      PrependNothing(DecodeObjs(schema, body, 0, n, alloc));
      var i := 0;
      while i < n
        invariant 0 <= i <= n && r.Valid()
        invariant |vals| == i && slots == alloc[..i]
        invariant mem == Placed(vals, supply, i, old(mem))
        invariant DecodeObjs(schema, body, 0, n, alloc) == Prepend(vals, DecodeObjs(schema, r.Rest(), i, n, alloc))
      {
        var tag := r.ReadBytes(4);
        if tag.None? || Num(tag.value) !in schema { return None; }
        SlotFilled(alloc, slots, i);
        slots := slots + [supply(i)];
        var v := DeserializeGraph(r, Value(Num(tag.value), schema[Num(tag.value)]), slots);
        if v.None? { return None; }
        mem := mem[supply(i) := v.value];
        PrependStep(vals, v.value, DecodeObjs(schema, r.Rest(), i + 1, n, alloc));
        PlacedMore(vals, v.value, supply, old(mem));
        vals := vals + [v.value];
        i := i + 1;
      }
      PrependStep(vals, Raw([]), Some(([], r.Rest())));
      assert alloc[..n] == alloc;
      objs := Some(slots);
    }
  }

  lemma SlotFilled(alloc: seq<Ptr>, slots: seq<Ptr>, i: nat)
    requires i < |alloc| && slots == alloc[..i]
    ensures slots + [alloc[i]] == alloc[..i + 1]
  {
  }

  lemma PlacedMore(vals: seq<Val>, v: Val, supply: nat -> Ptr, h: Heap)
    ensures Placed(vals + [v], supply, |vals| + 1, h) == Placed(vals, supply, |vals|, h)[supply(|vals|) := v]
  {
    PlacedPrefix(vals, v, supply, |vals|, h);
  }

  lemma {:induction false} PlacedPrefix(vals: seq<Val>, v: Val, supply: nat -> Ptr, i: nat, h: Heap)
    requires i <= |vals|
    ensures Placed(vals + [v], supply, i, h) == Placed(vals, supply, i, h)
  {
    if i > 0 { PlacedPrefix(vals, v, supply, i - 1, h); }
  }

  lemma {:induction false} PlacedAt(vals: seq<Val>, supply: nat -> Ptr, n: nat, h: Heap)
    requires n <= |vals| && FreshSupply(h, supply)
    ensures forall j: nat :: j < n ==>
              supply(j) in Placed(vals, supply, n, h) && Placed(vals, supply, n, h)[supply(j)] == vals[j]
    ensures forall a :: a in h ==> a in Placed(vals, supply, n, h) && Placed(vals, supply, n, h)[a] == h[a]
    ensures forall a :: a in Placed(vals, supply, n, h) ==> a in h || exists j: nat :: j < n && a == supply(j)
  {
    if n > 0 { PlacedAt(vals, supply, n - 1, h); }
  }

  // ---- The round trip -----------------------------------------------------------------------

  /** In a schema whose pointers are all in sight of collect, children-first order is enough. */
  lemma FlatGraphsPointBack(h: Heap, schema: Schema, order: seq<Ptr>)
    requires FlatSchema(schema) && ChildrenFirst(h, order, schema)
    ensures PointsBack(h, order, schema)
  {
    forall i | 0 <= i < |order|
      ensures forall r :: r in Refs(h[order[i]]) ==> r.1 in order[..i + 1]
    {
      ObjectPointsBack(h, schema, order, i);
    }
  }

  /** The store after a load holds the old objects unchanged and, at new addresses, an isomorphic
      copy of everything collect reached from root. */
  ghost predicate LoadedCopy(before: Heap, after: Heap, root: Ptr, newRoot: Ptr, order: seq<Ptr>, alloc: seq<Ptr>,
                             schema: Schema)
    requires Table(before, order, schema) && |order| == |alloc| > 0
  {
    && (forall a :: a in before ==> a in after && after[a] == before[a])
    && (forall a :: a in after <==> a in before || a in alloc)
    && (forall a :: a in alloc ==> a !in before && a in after)
    && order[|order| - 1] == root && alloc[|alloc| - 1] == newRoot
    && Isomorphic(before, order, Slots(after, alloc), alloc, schema)
  }

  /** save_X, then load_X, into the same store. */
  method SaveThenLoad(store: ObjectStore, schema: Schema, root: Ptr, rootTag: Tag, supply: nat -> Ptr,
                      ghost rank: map<Ptr, nat>)
    returns (newRoot: Option<Ptr>, ghost order: seq<Ptr>)
    requires WellTyped(store.mem, schema) && Acyclic(store.mem, rank) && |store.mem| <= INT32_MAX
    requires root in store.mem && store.mem[root].tag == rootTag && FreshSupply(store.mem, supply)
    modifies store
    ensures order == Visit(old(store.mem), rank, root, []) && PostOrder(old(store.mem), root, order, schema)
    ensures (&& newRoot.Some?
             && LoadedCopy(old(store.mem), store.mem, root, newRoot.value, order, Addresses(supply, |order|), schema))
            <==> PointsBack(old(store.mem), order, schema)
    ensures FlatSchema(schema) ==> PointsBack(old(store.mem), order, schema)
  {
    var file;
    file, order := Save(store.mem, schema, root, rootTag, rank);
    newRoot := store.Load(schema, rootTag, file, supply);
    CopyIsIsomorphic(old(store.mem), schema, order, root, rootTag, supply, store.mem, newRoot);
    if FlatSchema(schema) { FlatGraphsPointBack(old(store.mem), schema, order); }
  }

  ghost function Slots(after: Heap, alloc: seq<Ptr>): (r: seq<Val>)
    ensures |r| == |alloc|
  {
    seq(|alloc|, i requires 0 <= i < |alloc| => if alloc[i] in after then after[alloc[i]] else Raw([]))
  }

  lemma PlacedSlots(vals: seq<Val>, supply: nat -> Ptr, h: Heap)
    requires FreshSupply(h, supply)
    ensures var alloc := Addresses(supply, |vals|);
            var after := Placed(vals, supply, |vals|, h);
            && Slots(after, alloc) == vals
            && (forall a :: a in h ==> a in after && after[a] == h[a])
            && (forall a :: a in after <==> a in h || a in alloc)
            && (forall a :: a in alloc ==> a !in h)
  {
    var alloc, after := Addresses(supply, |vals|), Placed(vals, supply, |vals|, h);
    PlacedAt(vals, supply, |vals|, h);
    forall a ensures a in after <==> a in h || a in alloc {
      if a in after && a !in h { var j: nat :| j < |vals| && a == supply(j); assert alloc[j] == a; }
    }
    assert Slots(after, alloc) == vals;
  }

  lemma CopyIsIsomorphic(h: Heap, schema: Schema, order: seq<Ptr>, root: Ptr, rootTag: Tag, supply: nat -> Ptr,
                         after: Heap, newRoot: Option<Ptr>)
    requires PostOrder(h, root, order, schema) && |order| <= INT32_MAX && FreshSupply(h, supply)
    requires match DecodeFile(schema, rootTag, EncodeFile(h, order, rootTag, schema), supply)
             case None => newRoot == None
             case Some(vals) => newRoot == Some(supply(|vals| - 1)) && after == Placed(vals, supply, |vals|, h)
    ensures (newRoot.Some? && LoadedCopy(h, after, root, newRoot.value, order, Addresses(supply, |order|), schema))
            <==> PointsBack(h, order, schema)
  {
    RoundTripExactly(h, schema, order, rootTag, supply);
    LoadedLength(h, schema, order, rootTag, supply);
    var r := DecodeFile(schema, rootTag, EncodeFile(h, order, rootTag, schema), supply);
    if r.Some? { PlacedIsCopy(h, schema, order, root, supply, after, r.value); }
  }

  /** Objects placed at fresh addresses are a loaded copy as soon as they are isomorphic. */
  lemma PlacedIsCopy(h: Heap, schema: Schema, order: seq<Ptr>, root: Ptr, supply: nat -> Ptr, after: Heap,
                     vals: seq<Val>)
    requires PostOrder(h, root, order, schema) && FreshSupply(h, supply) && |vals| == |order|
    requires after == Placed(vals, supply, |vals|, h)
    ensures LoadedCopy(h, after, root, supply(|vals| - 1), order, Addresses(supply, |order|), schema) <==>
            Isomorphic(h, order, vals, Addresses(supply, |order|), schema)
  {
    PlacedSlots(vals, supply, h);
  }

  lemma LoadedLength(h: Heap, schema: Schema, order: seq<Ptr>, rootTag: Tag, supply: nat -> Ptr)
    requires Table(h, order, schema) && 0 < |order| <= INT32_MAX
    ensures var r := DecodeFile(schema, rootTag, EncodeFile(h, order, rootTag, schema), supply);
            r.Some? ==> |r.value| == |order|
  {
    LoadOfSave(h, schema, order, rootTag, supply);
  }

  /** A null root is saved as an empty table, which load cannot read back. */
  lemma NullRootDoesNotLoad(h: Heap, schema: Schema, rootTag: Tag, supply: nat -> Ptr)
    ensures DecodeFile(schema, rootTag, EncodeFile(h, [], rootTag, schema), supply) == None
  {
    assert EncodeFile(h, [], rootTag, schema) == LE(MAGIC, 4) + (LE(rootTag, 4) + (SignedLE(0, 4) + []));
    TakePrefix(LE(MAGIC, 4), LE(rootTag, 4) + (SignedLE(0, 4) + []));
    TakePrefix(LE(rootTag, 4), SignedLE(0, 4) + []);
    TakePrefix(SignedLE(0, 4), []);
    NumOfLE(MAGIC, 4);
    NumOfLE(rootTag, 4);
    SignedRoundTrip(0, 4);
  }

  // A struct type (tag 7) with a pointer and a one-element array of structs (tag 8) holding a pointer,
  // and an object of it that points to another object (tag 9) only from inside the array.
  const HOLDER: FieldType := Value(8, [Pointer(9)])

  function HiddenSchema(): Schema { map[7 := [Pointer(9), Array(HOLDER, 1)], 8 := [Pointer(9)], 9 := []] }

  function Holder(p: Ptr): Val { Struct(7, [Ref(9, NULL), Elems([Struct(8, [Ref(9, p)])])]) }

  function HiddenHeap(): Heap { map[1 := Holder(2), 2 := Struct(9, [])] }

  lemma Singletons(v: Val, ft: FieldType, order: seq<Ptr>, alloc: seq<Ptr>)
    requires |order| == |alloc|
    ensures HasType(v, ft) ==> HasTypes([v], [ft]) && ElemsHaveType([v], ft)
    ensures RefsAll([v]) == Refs(v) && RelocateAll([v], order, alloc) == [Relocate(v, order, alloc)]
  {
    assert [v][1..] == [] && [ft][1..] == [];
  }

  lemma HolderRefs(p: Ptr)
    ensures Refs(Holder(p)) == if p == NULL then {} else {(9, p)}
  {
    var inner := Struct(8, [Ref(9, p)]);
    var items := Elems([inner]);
    Singletons(Ref(9, p), Pointer(9), [], []);
    Singletons(inner, HOLDER, [], []);
    Singletons(items, Array(HOLDER, 1), [], []);
    assert Holder(p).fields[1..] == [items];
    assert RefsAll(Holder(p).fields) == Refs(Ref(9, NULL)) + RefsAll([items]);
    assert Refs(items) == RefsAll([inner]) == Refs(inner) == RefsAll([Ref(9, p)]);
  }

  lemma HolderIsObject(p: Ptr)
    ensures Kids(Holder(p).fields, true) == [] && IsObject(Holder(p), HiddenSchema())
  {
    var inner := Struct(8, [Ref(9, p)]);
    var items := Elems([inner]);
    Singletons(Ref(9, p), Pointer(9), [], []);
    Singletons(inner, HOLDER, [], []);
    assert Holder(p).fields[1..] == [items] && [items][1..] == [];
    assert Kids([items], true) == [] + Kids([], true) && Kids(Holder(p).fields, true) == [] + Kids([items], true);
    assert HiddenSchema()[7][1..] == [Array(HOLDER, 1)] && HasType(items, Array(HOLDER, 1));
    assert HasTypes([items], [Array(HOLDER, 1)]);
  }

  lemma HolderMoves(p: Ptr, order: seq<Ptr>, alloc: seq<Ptr>)
    requires |order| == |alloc| && p !in order
    ensures Relocate(Holder(p), order, alloc) == Holder(NULL)
  {
    var inner := Struct(8, [Ref(9, p)]);
    var items := Elems([inner]);
    Singletons(Ref(9, p), Pointer(9), order, alloc);
    Singletons(inner, HOLDER, order, alloc);
    Singletons(items, Array(HOLDER, 1), order, alloc);
    assert Holder(p).fields[1..] == [items];
    assert Relocate(items, order, alloc) == Elems([Struct(8, [Ref(9, NULL)])]);
    assert RelocateAll(Holder(p).fields, order, alloc) == [Ref(9, NULL)] + RelocateAll([items], order, alloc);
  }

  lemma SingleObjectLoads(h: Heap, schema: Schema, a: Ptr, rootTag: Tag, supply: nat -> Ptr)
    requires a in h && Table(h, [a], schema) && forall r :: r in Refs(h[a]) ==> r.1 != a
    ensures DecodeFile(schema, rootTag, EncodeFile(h, [a], rootTag, schema), supply) ==
            Some([Relocate(h[a], [a], Addresses(supply, 1))])
  {
    LoadOfSave(h, schema, [a], rootTag, supply);
    assert forall r :: r in Refs(h[a]) ==> Find([a], r.1) == -1;
    assert Relocated(h, [a], Addresses(supply, 1), schema) == [Relocate(h[a], [a], Addresses(supply, 1))];
  }

  lemma HiddenHeapIsTyped()
    ensures WellTyped(HiddenHeap(), HiddenSchema()) && Refs(HiddenHeap()[1]) == {(9, 2)}
  {
    HolderRefs(2);
    HolderIsObject(2);
    assert Refs(HiddenHeap()[2]) == RefsAll([]) && IsObject(HiddenHeap()[2], HiddenSchema());
  }

  lemma SinglePostOrder(h: Heap, schema: Schema, a: Ptr)
    requires a in h && a != NULL && IsObject(h[a], schema) && Kids(h[a].fields, true) == []
    ensures PostOrder(h, a, [a], schema)
  {
  }

  /** A pointer inside an array of structs is out of collect's sight: save and load are generated, the
      load succeeds and the pointer has become NULL. */
  lemma HiddenPointerIsLost(supply: nat -> Ptr)
    ensures SavesGraphs(HiddenSchema()[7])
    ensures WellTyped(HiddenHeap(), HiddenSchema()) && PostOrder(HiddenHeap(), 1, [1], HiddenSchema())
    ensures !PointsBack(HiddenHeap(), [1], HiddenSchema())
    ensures DecodeFile(HiddenSchema(), 7, EncodeFile(HiddenHeap(), [1], 7, HiddenSchema()), supply) ==
            Some([Holder(NULL)])
  {
    HiddenHeapIsTyped();
    HolderIsObject(2);
    SinglePostOrder(HiddenHeap(), HiddenSchema(), 1);
    assert (9, 2) in Refs(HiddenHeap()[1]) && 2 !in [1][..1];
    SingleObjectLoads(HiddenHeap(), HiddenSchema(), 1, 7, supply);
    HolderMoves(2, [1], Addresses(supply, 1));
  }
}
