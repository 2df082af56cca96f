// For which schemas saving and loading works on every graph: what a struct type must not contain, stated on the
// types a save can come across (compiler/compiler.py:3071-3097).
module GraphSchemas {
  import opened Bytes
  import opened ObjectGraph
  import opened GraphRoundTrip
  import opened CollectOrder
  import opened Wrappers

  /** Field types as declared: arrays hold structs, pointers lead to struct types of the schema. */
  predicate Declared(ft: FieldType, schema: Schema) {
    match ft
    case Scalar(_) => true
    case Str => true
    case Pointer(t) => t in schema
    case Value(_, fts) => forall f :: f in fts ==> Declared(f, schema)
    case Array(elem, _) => elem.Value? && Declared(elem, schema)
  }

  predicate ValidSchema(schema: Schema) {
    forall t :: t in schema ==> forall f :: f in schema[t] ==> Declared(f, schema)
  }

  /** Collecting an object with these fields can follow a pointer to an object of type u. */
  predicate Follows(fts: seq<FieldType>, deep: bool, u: Tag) {
    exists f :: f in fts && (f == Pointer(u) || (deep && f.Value? && Follows(f.fields, false, u)))
  }

  ghost predicate ClosedTypes(schema: Schema, T: set<Tag>) {
    forall t, u :: t in T && t in schema && Follows(schema[t], true, u) ==> u in T
  }

  /** Saving from a root of type t can put an object of type u into the table. */
  ghost predicate Collectable(schema: Schema, t: Tag, u: Tag) {
    forall T: set<Tag> :: t in T && ClosedTypes(schema, T) ==> u in T
  }

  ghost predicate IsGraph(h: Heap, schema: Schema, rank: map<Ptr, nat>, root: Ptr, t: Tag) {
    WellTyped(h, schema) && Acyclic(h, rank) && root in h && h[root].Struct? && h[root].tag == t
  }

  /** The condition under which what is loaded is an isomorphic copy (RoundTripExactly, CopyIsIsomorphic). */
  ghost predicate GraphPointsBack(h: Heap, schema: Schema, rank: map<Ptr, nat>, root: Ptr)
    requires Acyclic(h, rank)
  {
    var order := Visit(h, rank, root, []);
    Table(h, order, schema) && PointsBack(h, order, schema)
  }

  ghost predicate EveryGraphPointsBack(schema: Schema, t: Tag) {
    forall h, rank, root :: IsGraph(h, schema, rank, root, t) ==> GraphPointsBack(h, schema, rank, root)
  }

  // ---- Values with one kind of pointer set --------------------------------------------------

  function Zeros(n: nat): (r: seq<Byte>)
    ensures |r| == n
  {
    seq(n, _ => 0)
  }

  /** A value whose pointers to u are all p and whose other pointers are NULL. */
  function Fill(ft: FieldType, u: Tag, p: Ptr): Val
    decreases ft, 0, 0
  {
    match ft
    case Scalar(w) => Raw(Zeros(w))
    case Str => Text([])
    case Pointer(t) => Ref(t, if t == u then p else NULL)
    case Value(tag, fts) => Struct(tag, FillAll(fts, u, p))
    case Array(elem, n) => Elems(FillMany(elem, n, u, p))
  }

  function FillAll(fts: seq<FieldType>, u: Tag, p: Ptr): seq<Val>
    decreases fts, 1, 0
  {
    if fts == [] then [] else [Fill(fts[0], u, p)] + FillAll(fts[1..], u, p)
  }

  function FillMany(elem: FieldType, n: nat, u: Tag, p: Ptr): (r: seq<Val>)
    ensures |r| == n
    decreases elem, 1, n
  {
    if n == 0 then [] else [Fill(elem, u, p)] + FillMany(elem, n - 1, u, p)
  }

  /** As before, with one pointer where collect looks and another where it does not. */
  function Make(ft: FieldType, deep: bool, u: Tag, seen: Ptr, hidden: Ptr): Val
    decreases ft, 0
  {
    match ft
    case Pointer(t) => Ref(t, if t == u then seen else NULL)
    case Value(tag, fts) => if deep then Struct(tag, MakeAll(fts, false, u, seen, hidden)) else Fill(ft, u, hidden)
    case Scalar(_) => Fill(ft, u, hidden)
    case Str => Fill(ft, u, hidden)
    case Array(_, _) => Fill(ft, u, hidden)
  }

  function MakeAll(fts: seq<FieldType>, deep: bool, u: Tag, seen: Ptr, hidden: Ptr): seq<Val>
    decreases fts, 1
  {
    if fts == [] then [] else [Make(fts[0], deep, u, seen, hidden)] + MakeAll(fts[1..], deep, u, seen, hidden)
  }

  function Object(schema: Schema, t: Tag, u: Tag, seen: Ptr, hidden: Ptr): Val
    requires t in schema
  {
    Struct(t, MakeAll(schema[t], true, u, seen, hidden))
  }

  lemma {:induction false} FillTyped(ft: FieldType, schema: Schema, u: Tag, p: Ptr)
    requires Declared(ft, schema)
    ensures HasType(Fill(ft, u, p), ft)
    decreases ft, 0, 0
  {
    match ft
    case Value(_, fts) => FillAllTyped(fts, schema, u, p);
    case Array(elem, n) => FillManyTyped(elem, n, schema, u, p);
    case _ =>
  }

  lemma {:induction false} FillAllTyped(fts: seq<FieldType>, schema: Schema, u: Tag, p: Ptr)
    requires forall f :: f in fts ==> Declared(f, schema)
    ensures HasTypes(FillAll(fts, u, p), fts)
    decreases fts, 1, 0
  {
    if fts != [] {
      FillTyped(fts[0], schema, u, p);
      FillAllTyped(fts[1..], schema, u, p);
      assert FillAll(fts, u, p)[1..] == FillAll(fts[1..], u, p);
    }
  }

  lemma {:induction false} FillManyTyped(elem: FieldType, n: nat, schema: Schema, u: Tag, p: Ptr)
    requires Declared(elem, schema)
    ensures ElemsHaveType(FillMany(elem, n, u, p), elem)
    decreases elem, 1, n
  {
    if n > 0 {
      FillTyped(elem, schema, u, p);
      FillManyTyped(elem, n - 1, schema, u, p);
      assert FillMany(elem, n, u, p)[1..] == FillMany(elem, n - 1, u, p);
    }
  }

  lemma {:induction false} MakeTyped(fts: seq<FieldType>, deep: bool, schema: Schema, u: Tag, seen: Ptr, hidden: Ptr)
    requires forall f :: f in fts ==> Declared(f, schema)
    ensures HasTypes(MakeAll(fts, deep, u, seen, hidden), fts)
    decreases fts
  {
    if fts != [] {
      assert Declared(fts[0], schema);
      if fts[0].Value? && deep { MakeTyped(fts[0].fields, false, schema, u, seen, hidden); }
      FillTyped(fts[0], schema, u, hidden);
      MakeTyped(fts[1..], deep, schema, u, seen, hidden);
      assert MakeAll(fts, deep, u, seen, hidden)[1..] == MakeAll(fts[1..], deep, u, seen, hidden);
    }
  }

  // ---- Their pointers -----------------------------------------------------------------------

  /** A value of this type has room for a pointer to u. */
  predicate PointsTo(ft: FieldType, u: Tag) {
    match ft
    case Scalar(_) => false
    case Str => false
    case Pointer(t) => t == u
    case Value(_, fts) => SomePointsTo(fts, u)
    case Array(elem, n) => n > 0 && PointsTo(elem, u)
  }

  predicate SomePointsTo(fts: seq<FieldType>, u: Tag) { exists f :: f in fts && PointsTo(f, u) }

  /** Room for a pointer to u that collect does not follow. */
  predicate Hides(ft: FieldType, deep: bool, u: Tag) {
    match ft
    case Value(_, fts) => if deep then SomeHides(fts, false, u) else PointsTo(ft, u)
    case Array(_, _) => PointsTo(ft, u)
    case Scalar(_) => false
    case Str => false
    case Pointer(_) => false
  }

  predicate SomeHides(fts: seq<FieldType>, deep: bool, u: Tag) { exists f :: f in fts && Hides(f, deep, u) }

  lemma {:induction false} FreeOfPointers(ft: FieldType, schema: Schema) returns (u: Tag)
    requires !PointerFree(ft) && Declared(ft, schema)
    ensures PointsTo(ft, u) && u in schema
  {
    match ft
    case Pointer(t) => u := t;
    case Value(_, fts) =>
      var f :| f in fts && !PointerFree(f);
      u := FreeOfPointers(f, schema);
    case Array(elem, _) => u := FreeOfPointers(elem, schema);
  }

  lemma {:induction false} OutOfSight(ft: FieldType, deep: bool, schema: Schema) returns (u: Tag)
    requires !InSight(ft, deep) && Declared(ft, schema)
    ensures Hides(ft, deep, u) && u in schema
  {
    if ft.Value? && deep {
      var f :| f in ft.fields && !InSight(f, false);
      u := OutOfSight(f, false, schema);
    } else {
      u := FreeOfPointers(ft, schema);
    }
  }

  ghost predicate OnlyTo(refs: set<(Tag, Ptr)>, u: Tag, p: Ptr, q: Ptr) {
    forall r :: r in refs ==> r.0 == u && r.1 != NULL && (r.1 == p || r.1 == q)
  }

  lemma {:induction false} FillRefs(ft: FieldType, u: Tag, p: Ptr)
    ensures OnlyTo(Refs(Fill(ft, u, p)), u, p, p)
    ensures PointsTo(ft, u) && p != NULL ==> (u, p) in Refs(Fill(ft, u, p))
    decreases ft, 0, 0
  {
    match ft
    case Value(_, fts) => FillAllRefs(fts, u, p);
    case Array(elem, n) => FillManyRefs(elem, n, u, p);
    case _ =>
  }

  lemma {:induction false} FillAllRefs(fts: seq<FieldType>, u: Tag, p: Ptr)
    ensures OnlyTo(RefsAll(FillAll(fts, u, p)), u, p, p)
    ensures SomePointsTo(fts, u) && p != NULL ==> (u, p) in RefsAll(FillAll(fts, u, p))
    decreases fts, 1, 0
  {
    if fts != [] {
      FillRefs(fts[0], u, p);
      FillAllRefs(fts[1..], u, p);
      assert FillAll(fts, u, p)[1..] == FillAll(fts[1..], u, p);
      assert SomePointsTo(fts, u) ==> PointsTo(fts[0], u) || SomePointsTo(fts[1..], u);
    }
  }

  lemma {:induction false} FillManyRefs(elem: FieldType, n: nat, u: Tag, p: Ptr)
    ensures OnlyTo(RefsAll(FillMany(elem, n, u, p)), u, p, p)
    ensures n > 0 && PointsTo(elem, u) && p != NULL ==> (u, p) in RefsAll(FillMany(elem, n, u, p))
    decreases elem, 1, n
  {
    if n > 0 {
      FillRefs(elem, u, p);
      FillManyRefs(elem, n - 1, u, p);
      assert FillMany(elem, n, u, p)[1..] == FillMany(elem, n - 1, u, p);
    }
  }

  lemma {:induction false} MakeRefs(fts: seq<FieldType>, deep: bool, u: Tag, seen: Ptr, hidden: Ptr)
    ensures OnlyTo(RefsAll(MakeAll(fts, deep, u, seen, hidden)), u, seen, hidden)
    ensures SomeHides(fts, deep, u) && hidden != NULL ==> (u, hidden) in RefsAll(MakeAll(fts, deep, u, seen, hidden))
    decreases fts
  {
    if fts != [] {
      if fts[0].Value? && deep { MakeRefs(fts[0].fields, false, u, seen, hidden); }
      FillRefs(fts[0], u, hidden);
      MakeRefs(fts[1..], deep, u, seen, hidden);
      assert MakeAll(fts, deep, u, seen, hidden)[1..] == MakeAll(fts[1..], deep, u, seen, hidden);
      assert SomeHides(fts, deep, u) ==> Hides(fts[0], deep, u) || SomeHides(fts[1..], deep, u);
    }
  }

  ghost predicate AllAre(kids: seq<(Tag, Ptr)>, u: Tag, p: Ptr) {
    (kids != [] ==> p != NULL) && forall i :: 0 <= i < |kids| ==> kids[i] == (u, p)
  }

  lemma {:induction false} MakeKids(fts: seq<FieldType>, deep: bool, u: Tag, seen: Ptr, hidden: Ptr)
    ensures AllAre(Kids(MakeAll(fts, deep, u, seen, hidden), deep), u, seen)
    ensures Follows(fts, deep, u) && seen != NULL ==> Kids(MakeAll(fts, deep, u, seen, hidden), deep) != []
    decreases fts, 0
  {
    if fts != [] {
      var v, vs := Make(fts[0], deep, u, seen, hidden), MakeAll(fts[1..], deep, u, seen, hidden);
      MakeFieldKids(fts, deep, u, seen, hidden);
      MakeKids(fts[1..], deep, u, seen, hidden);
      assert ([v] + vs)[1..] == vs;
      Joined(FieldKids(v, deep), Kids(vs, deep), u, seen);
      if Follows(fts, deep, u) { FollowsOne(fts, deep, u); }
    }
  }

  lemma {:induction false} MakeFieldKids(fts: seq<FieldType>, deep: bool, u: Tag, seen: Ptr, hidden: Ptr)
    requires fts != []
    ensures AllAre(FieldKids(Make(fts[0], deep, u, seen, hidden), deep), u, seen)
    ensures fts[0] == Pointer(u) && seen != NULL ==> FieldKids(Make(fts[0], deep, u, seen, hidden), deep) != []
    ensures deep && fts[0].Value? && Follows(fts[0].fields, false, u) && seen != NULL ==>
              FieldKids(Make(fts[0], deep, u, seen, hidden), deep) != []
    decreases fts[0], 1
  {
    if fts[0].Value? && deep { MakeKids(fts[0].fields, false, u, seen, hidden); }
  }

  lemma Joined(a: seq<(Tag, Ptr)>, b: seq<(Tag, Ptr)>, u: Tag, p: Ptr)
    requires AllAre(a, u, p) && AllAre(b, u, p)
    ensures AllAre(a + b, u, p)
  {
  }

  lemma FollowsOne(fts: seq<FieldType>, deep: bool, u: Tag)
    requires fts != [] && Follows(fts, deep, u)
    ensures fts[0] == Pointer(u) || (deep && fts[0].Value? && Follows(fts[0].fields, false, u)) ||
            Follows(fts[1..], deep, u)
  {
    var f :| f in fts && (f == Pointer(u) || (deep && f.Value? && Follows(f.fields, false, u)));
    assert f == fts[0] || f in fts[1..];
  }

  // ---- A hidden pointer ---------------------------------------------------------------------

  /** An object of type t whose only pointer is out of sight, and the object it points to. */
  function TwoObjects(schema: Schema, t: Tag, u: Tag): Heap
    requires t in schema && u in schema
  {
    map[1 := Object(schema, t, u, NULL, 2), 2 := Object(schema, u, u, NULL, NULL)]
  }

  lemma ObjectTyped(schema: Schema, t: Tag, u: Tag, seen: Ptr, hidden: Ptr)
    requires ValidSchema(schema) && t in schema
    ensures IsObject(Object(schema, t, u, seen, hidden), schema)
    ensures OnlyTo(Refs(Object(schema, t, u, seen, hidden)), u, seen, hidden)
  {
    MakeTyped(schema[t], true, schema, u, seen, hidden);
    MakeRefs(schema[t], true, u, seen, hidden);
  }

  lemma NoKids(schema: Schema, t: Tag, u: Tag, hidden: Ptr)
    requires t in schema
    ensures Kids(Object(schema, t, u, NULL, hidden).fields, true) == []
  {
    MakeKids(schema[t], true, u, NULL, hidden);
  }

  lemma TwoObjectsAreGraph(schema: Schema, t: Tag, u: Tag, rank: map<Ptr, nat>)
    requires ValidSchema(schema) && t in schema && u in schema && rank == map[1 := 0, 2 := 0]
    ensures IsGraph(TwoObjects(schema, t, u), schema, rank, 1, t)
    ensures Visit(TwoObjects(schema, t, u), rank, 1, []) == [1]
  {
    ObjectTyped(schema, t, u, NULL, 2);
    ObjectTyped(schema, u, u, NULL, NULL);
    NoKids(schema, t, u, 2);
    NoKids(schema, u, u, NULL);
  }

  /** A graph that does not come back, with its table. */
  ghost predicate Fails(h: Heap, schema: Schema, rank: map<Ptr, nat>, root: Ptr, t: Tag, order: seq<Ptr>) {
    && IsGraph(h, schema, rank, root, t) && order == Visit(h, rank, root, [])
    && Table(h, order, schema) && !PointsBack(h, order, schema)
  }

  lemma FailureCounts(h: Heap, schema: Schema, rank: map<Ptr, nat>, root: Ptr, t: Tag, order: seq<Ptr>)
    requires Fails(h, schema, rank, root, t, order)
    ensures !EveryGraphPointsBack(schema, t)
  {
    assert !GraphPointsBack(h, schema, rank, root);
  }

  lemma SomeFailure(schema: Schema, t: Tag) returns (h: Heap, rank: map<Ptr, nat>, root: Ptr, order: seq<Ptr>)
    requires !EveryGraphPointsBack(schema, t)
    ensures Fails(h, schema, rank, root, t, order)
  {
    h, rank, root :| IsGraph(h, schema, rank, root, t) && !GraphPointsBack(h, schema, rank, root);
    order := Visit(h, rank, root, []);
    OrderIsPostOrder(h, schema, rank, root);
  }

  lemma HiddenFails(schema: Schema, t: Tag)
    requires ValidSchema(schema) && t in schema && !AllInSight(schema[t])
    ensures !EveryGraphPointsBack(schema, t)
  {
    var f :| f in schema[t] && !InSight(f, true);
    assert Declared(f, schema);
    var u := OutOfSight(f, true, schema);
    assert SomeHides(schema[t], true, u);
    TwoObjectsFail(schema, t, u);
  }

  lemma TwoObjectsFail(schema: Schema, t: Tag, u: Tag)
    requires ValidSchema(schema) && t in schema && u in schema && SomeHides(schema[t], true, u)
    ensures !EveryGraphPointsBack(schema, t)
  {
    var rank: map<Ptr, nat> := map[1 := 0, 2 := 0];
    TwoObjectsAreGraph(schema, t, u, rank);
    MakeRefs(schema[t], true, u, NULL, 2);
    LoneHolderFails(TwoObjects(schema, t, u), schema, rank, 1, t, (u, 2));
  }

  /** A root that collect puts into the table alone, but that holds a pointer to another object. */
  lemma LoneHolderFails(h: Heap, schema: Schema, rank: map<Ptr, nat>, root: Ptr, t: Tag, r: (Tag, Ptr))
    requires IsGraph(h, schema, rank, root, t) && Visit(h, rank, root, []) == [root]
    requires r in Refs(h[root]) && r.1 != root
    ensures !EveryGraphPointsBack(schema, t)
  {
    OrderIsPostOrder(h, schema, rank, root);
    assert [root][0] == root && r.1 !in [root][..1];
    FailureCounts(h, schema, rank, root, t, [root]);
  }

  // ---- Up the path from the root ------------------------------------------------------------

  lemma {:induction false} Unused(s: set<Ptr>) returns (a: Ptr)
    ensures forall x :: x in s ==> x < a
    decreases |s|
  {
    if s == {} {
      a := 1;
    } else {
      var x :| x in s;
      var b := Unused(s - {x});
      a := if b <= x then x + 1 else b;
      forall y | y in s ensures y < a { assert y == x || y in s - {x}; }
    }
  }

  lemma {:induction false} SameKids(h: Heap, rank: map<Ptr, nat>, kids: seq<(Tag, Ptr)>, limit: nat, u: Tag, p: Ptr)
    requires Acyclic(h, rank) && p in h && h[p].Struct? && p != NULL && p in rank && rank[p] < limit
    requires AllAre(kids, u, p)
    ensures VisitKids(h, rank, kids, limit, []) == if kids == [] then [] else Visit(h, rank, p, [])
    decreases |kids|
  {
    if kids != [] {
      SameKids(h, rank, kids[..|kids| - 1], limit, u, p);
      assert kids[|kids| - 1] == (u, p);
    }
  }

  /** One object more, pointing to the root of the graph. */
  lemma OnTop(schema: Schema, h: Heap, rank: map<Ptr, nat>, root: Ptr, x: Tag, y: Tag, a: Ptr, g: Heap,
              above: map<Ptr, nat>)
    requires ValidSchema(schema) && x in schema && Follows(schema[x], true, y) && IsGraph(h, schema, rank, root, y)
    requires forall p :: p in h ==> p < a
    requires g == h[a := Object(schema, x, y, root, NULL)] && above == rank[a := rank[root] + 1]
    ensures IsGraph(g, schema, above, a, x) && Extends(g, h)
    ensures Visit(g, above, a, []) == Visit(h, rank, root, []) + [a]
  {
    ObjectTyped(schema, x, y, root, NULL);
    MakeKids(schema[x], true, y, root, NULL);
    OnTopIsGraph(schema, h, rank, root, x, y, a, g, above);
    SameKids(g, above, Kids(g[a].fields, true), above[a], y, root);
    VisitSame(h, g, schema, rank, above, root, []);
  }

  lemma OnTopIsGraph(schema: Schema, h: Heap, rank: map<Ptr, nat>, root: Ptr, x: Tag, y: Tag, a: Ptr, g: Heap,
                     above: map<Ptr, nat>)
    requires IsGraph(h, schema, rank, root, y) && forall p :: p in h ==> p < a
    requires a in g && g == h[a := g[a]] && above == rank[a := rank[root] + 1]
    requires IsObject(g[a], schema) && g[a].tag == x && OnlyTo(Refs(g[a]), y, root, NULL)
    requires AllAre(Kids(g[a].fields, true), y, root)
    ensures IsGraph(g, schema, above, a, x) && Extends(g, h)
  {
    forall b, k | b in g && g[b].Struct? && k in Kids(g[b].fields, true)
      ensures k.1 in above && above[k.1] < above[b]
    {
      if b != a {
        KidsAreRefs(h[b].fields, true);
        assert k in Refs(h[b]) && rank[k.1] < rank[b];
      }
    }
  }

  lemma FollowerFails(schema: Schema, x: Tag, y: Tag)
    requires ValidSchema(schema) && x in schema && Follows(schema[x], true, y) && !EveryGraphPointsBack(schema, y)
    ensures !EveryGraphPointsBack(schema, x)
  {
    var h, rank, root, order := SomeFailure(schema, y);
    var a := Unused(h.Keys);
    var g, above := h[a := Object(schema, x, y, root, NULL)], rank[a := rank[root] + 1];
    OnTop(schema, h, rank, root, x, y, a, g, above);
    StillForward(schema, h, g, order, a);
    OrderIsPostOrder(g, schema, above, a);
    FailureCounts(g, schema, above, a, x, order + [a]);
  }

  lemma StillForward(schema: Schema, h: Heap, g: Heap, order: seq<Ptr>, a: Ptr)
    requires Extends(g, h) && Table(h, order, schema) && !PointsBack(h, order, schema)
    ensures Table(g, order + [a], schema) ==> !PointsBack(g, order + [a], schema)
  {
    var i, r :| 0 <= i < |order| && r in Refs(h[order[i]]) && r.1 !in order[..i + 1];
    assert (order + [a])[i] == order[i] && (order + [a])[..i + 1] == order[..i + 1];
  }

  lemma {:induction false} FollowedAreDeclared(fts: seq<FieldType>, deep: bool, schema: Schema, u: Tag)
    requires (forall f :: f in fts ==> Declared(f, schema)) && Follows(fts, deep, u)
    ensures u in schema
  {
    var f :| f in fts && (f == Pointer(u) || (deep && f.Value? && Follows(f.fields, false, u)));
    assert Declared(f, schema);
    if f != Pointer(u) { FollowedAreDeclared(f.fields, false, schema, u); }
  }

  lemma CollectablePointsBack(schema: Schema, t: Tag, u: Tag)
    requires ValidSchema(schema) && t in schema && EveryGraphPointsBack(schema, t) && Collectable(schema, t, u)
    ensures u in schema && EveryGraphPointsBack(schema, u)
  {
    var T := set x | x in schema && EveryGraphPointsBack(schema, x);
    forall x, y | x in T && x in schema && Follows(schema[x], true, y) ensures y in T {
      FollowedAreDeclared(schema[x], true, schema, y);
      if !EveryGraphPointsBack(schema, y) { FollowerFails(schema, x, y); }
    }
    assert ClosedTypes(schema, T);
  }

  // ---- Every graph --------------------------------------------------------------------------

  lemma {:induction false} KidsAreFollowed(fs: seq<Val>, fts: seq<FieldType>, deep: bool, k: (Tag, Ptr))
    requires HasTypes(fs, fts) && k in Kids(fs, deep)
    ensures Follows(fts, deep, k.0)
    decreases fs
  {
    if k in Kids(fs[1..], deep) {
      KidsAreFollowed(fs[1..], fts[1..], deep, k);
      var f :| f in fts[1..] && (f == Pointer(k.0) || (deep && f.Value? && Follows(f.fields, false, k.0)));
      assert f in fts;
    } else {
      assert fts[0] in fts;
      if fs[0].Struct? { KidsAreFollowed(fs[0].fields, fts[0].fields, false, k); }
    }
  }

  lemma CollectableStep(schema: Schema, t: Tag, x: Tag, y: Tag)
    requires Collectable(schema, t, x) && x in schema && Follows(schema[x], true, y)
    ensures Collectable(schema, t, y)
  {
  }

  lemma CollectedAreCollectable(h: Heap, schema: Schema, rank: map<Ptr, nat>, root: Ptr, t: Tag)
    requires IsGraph(h, schema, rank, root, t)
    ensures forall q :: q in Visit(h, rank, root, []) ==> q in h && Collectable(schema, t, h[q].tag)
  {
    OrderIsPostOrder(h, schema, rank, root);
    var S := set q | q in h && Collectable(schema, t, h[q].tag);
    forall a, k | a in S && a in h && h[a].Struct? && k in Kids(h[a].fields, true) ensures k.1 in S {
      KidsAreFollowed(h[a].fields, schema[h[a].tag], true, k);
      CollectableStep(schema, t, h[a].tag, k.0);
      KidsAreRefs(h[a].fields, true);
      assert k in Refs(h[a]);
    }
    assert Closed(h, S);
  }

  lemma InSightPointsBack(h: Heap, schema: Schema, rank: map<Ptr, nat>, root: Ptr, t: Tag)
    requires IsGraph(h, schema, rank, root, t)
    requires forall u :: u in schema && Collectable(schema, t, u) ==> AllInSight(schema[u])
    ensures GraphPointsBack(h, schema, rank, root)
  {
    var order := Visit(h, rank, root, []);
    OrderIsPostOrder(h, schema, rank, root);
    CollectedAreCollectable(h, schema, rank, root, t);
    forall i | 0 <= i < |order| ensures forall r :: r in Refs(h[order[i]]) ==> r.1 in order[..i + 1] {
      assert order[i] in order;
      ObjectPointsBack(h, schema, order, i);
    }
  }

  /** Every graph with a root of type t comes back as an isomorphic copy if and only if no type that collect can
      come across from t has a pointer two value levels down or inside an array. */
  lemma SchemaExactly(schema: Schema, t: Tag)
    requires ValidSchema(schema) && t in schema
    ensures EveryGraphPointsBack(schema, t) <==>
            forall u :: u in schema && Collectable(schema, t, u) ==> AllInSight(schema[u])
  {
    if EveryGraphPointsBack(schema, t) {
      forall u | u in schema && Collectable(schema, t, u) ensures AllInSight(schema[u]) {
        CollectablePointsBack(schema, t, u);
        if !AllInSight(schema[u]) { HiddenFails(schema, u); }
      }
    }
    if forall u :: u in schema && Collectable(schema, t, u) ==> AllInSight(schema[u]) {
      forall h, rank, root | IsGraph(h, schema, rank, root, t) ensures GraphPointsBack(h, schema, rank, root) {
        InSightPointsBack(h, schema, rank, root, t);
      }
    }
  }
}
