// The object graphs that save_X / load_X move to disk and back, their file format, and the exact
// condition under which the loaded graph is isomorphic to the saved one.
module ObjectGraph {
  import opened Bytes
  import opened Wrappers

  type Ptr = nat // address 0 is NULL
  type Tag = t: int | 0 <= t < 0x1_0000_0000 // schema hash of a struct type

  const NULL: Ptr := 0
  const MAGIC: nat := 0x4D505947
  const INT32_MAX := 0x7FFF_FFFF

  /** Field types. Arrays of scalars are Scalar(total width): they are written as raw bytes. */
  datatype FieldType =
    | Scalar(width: nat)
    | Str
    | Pointer(target: Tag)
    | Value(tag: Tag, fields: seq<FieldType>)
    | Array(elem: FieldType, count: nat)

  type Schema = map<Tag, seq<FieldType>>

  datatype Val =
    | Raw(bytes: seq<Byte>)
    | Text(chars: seq<Byte>)
    | Ref(target: Tag, p: Ptr)
    | Struct(tag: Tag, fields: seq<Val>)
    | Elems(items: seq<Val>)

  type Heap = map<Ptr, Val>

  // ---- Typing -----------------------------------------------------------------------------

  ghost predicate HasType(v: Val, ft: FieldType)
    decreases v, 0
  {
    match ft
    case Scalar(w) => v.Raw? && |v.bytes| == w
    case Str => v.Text? && |v.chars| <= INT32_MAX
    case Pointer(t) => v.Ref? && v.target == t
    case Value(tag, fts) => v.Struct? && v.tag == tag && HasTypes(v.fields, fts)
    case Array(elem, n) => v.Elems? && elem.Value? && |v.items| == n && ElemsHaveType(v.items, elem)
  }

  ghost predicate HasTypes(vs: seq<Val>, fts: seq<FieldType>)
    decreases vs, 1
  {
    |vs| == |fts| && (vs != [] ==> HasType(vs[0], fts[0]) && HasTypes(vs[1..], fts[1..]))
  }

  ghost predicate ElemsHaveType(vs: seq<Val>, ft: FieldType)
    decreases vs, 1
  {
    vs != [] ==> HasType(vs[0], ft) && ElemsHaveType(vs[1..], ft)
  }

  /** All non-null pointers stored anywhere inside a value, however deeply nested. */
  function Refs(v: Val): set<(Tag, Ptr)>
    decreases v, 0
  {
    match v
    case Raw(_) => {}
    case Text(_) => {}
    case Ref(t, p) => if p == NULL then {} else {(t, p)}
    case Struct(_, fs) => RefsAll(fs)
    case Elems(items) => RefsAll(items)
  }

  function RefsAll(vs: seq<Val>): set<(Tag, Ptr)>
    decreases vs, 1
  {
    if vs == [] then {} else Refs(vs[0]) + RefsAll(vs[1..])
  }

  ghost predicate IsObject(v: Val, schema: Schema) {
    v.Struct? && v.tag in schema && HasType(v, Value(v.tag, schema[v.tag]))
  }

  ghost predicate WellTyped(h: Heap, schema: Schema) {
    NULL !in h && forall a :: a in h ==>
      IsObject(h[a], schema) && forall r :: r in Refs(h[a]) ==> r.1 in h && h[r.1].Struct? && h[r.1].tag == r.0
  }

  // ---- What collect follows -----------------------------------------------------------------

  /** The pointers _collect_graph_X follows: direct pointer fields, and the direct pointer fields
      of value fields; nothing below that, and nothing inside arrays. */
  function Kids(fs: seq<Val>, intoValues: bool): seq<(Tag, Ptr)>
    decreases fs, 0
  {
    if fs == [] then [] else FieldKids(fs[0], intoValues) + Kids(fs[1..], intoValues)
  }

  function FieldKids(v: Val, intoValues: bool): seq<(Tag, Ptr)>
    decreases v, 1
  {
    match v
    case Ref(t, p) => if p == NULL then [] else [(t, p)]
    case Struct(_, sub) => if intoValues then Kids(sub, false) else []
    case Raw(_) => []
    case Text(_) => []
    case Elems(_) => []
  }

  /** save_X and load_X are generated for a struct with a pointer field, its own or one of a value field's;
      arrays are not looked into. */
  predicate SavesGraphs(fts: seq<FieldType>) {
    exists f :: f in fts && (f.Pointer? || (f.Value? && SavesGraphs(f.fields)))
  }

  predicate PointerFree(ft: FieldType) {
    match ft
    case Scalar(_) => true
    case Str => true
    case Pointer(_) => false
    case Value(_, fts) => forall f :: f in fts ==> PointerFree(f)
    case Array(elem, n) => n == 0 || PointerFree(elem)
  }

  /** No pointer of this field is out of collect's sight. */
  predicate InSight(ft: FieldType, intoValues: bool) {
    match ft
    case Value(_, fts) =>
      if intoValues then forall f :: f in fts ==> InSight(f, false) else PointerFree(ft)
    case Array(_, _) => PointerFree(ft)
    case Scalar(_) => true
    case Str => true
    case Pointer(_) => true
  }

  predicate AllInSight(fts: seq<FieldType>) { forall f :: f in fts ==> InSight(f, true) }

  predicate FlatSchema(schema: Schema) {
    forall t :: t in schema ==> AllInSight(schema[t])
  }

  lemma {:induction false} PointerFreeHasNoRefs(v: Val, ft: FieldType)
    requires HasType(v, ft) && PointerFree(ft)
    ensures Refs(v) == {}
    decreases v, 0
  {
    match ft
    case Scalar(_) =>
    case Str =>
    case Value(_, fts) => PointerFreeFields(v.fields, fts);
    case Array(elem, n) => if n > 0 { PointerFreeElems(v.items, elem); }
  }

  lemma {:induction false} PointerFreeFields(vs: seq<Val>, fts: seq<FieldType>)
    requires HasTypes(vs, fts) && forall f :: f in fts ==> PointerFree(f)
    ensures RefsAll(vs) == {}
    decreases vs, 1
  {
    if vs != [] {
      PointerFreeHasNoRefs(vs[0], fts[0]);
      PointerFreeFields(vs[1..], fts[1..]);
    }
  }

  lemma {:induction false} PointerFreeElems(vs: seq<Val>, ft: FieldType)
    requires ElemsHaveType(vs, ft) && PointerFree(ft)
    ensures RefsAll(vs) == {}
    decreases vs, 1
  {
    if vs != [] {
      PointerFreeHasNoRefs(vs[0], ft);
      PointerFreeElems(vs[1..], ft);
    }
  }

  lemma FirstKids(fs: seq<Val>, deep: bool)
    requires fs != []
    ensures Kids(fs, deep) == FieldKids(fs[0], deep) + Kids(fs[1..], deep)
    ensures RefsAll(fs) == Refs(fs[0]) + RefsAll(fs[1..])
    ensures fs[0].Struct? ==> Refs(fs[0]) == RefsAll(fs[0].fields)
    ensures fs[0].Struct? && deep ==> FieldKids(fs[0], deep) == Kids(fs[0].fields, false)
  {
  }

  lemma {:induction false} KidsAreRefs(fs: seq<Val>, deep: bool)
    ensures forall r :: r in Kids(fs, deep) ==> r in RefsAll(fs) && r.1 != NULL
    decreases fs
  {
    if fs != [] {
      KidsAreRefs(fs[1..], deep);
      if fs[0].Struct? && deep { KidsAreRefs(fs[0].fields, false); }
      FirstKids(fs, deep);
    }
  }

  lemma {:induction false} InSightRefsAreKids(fs: seq<Val>, fts: seq<FieldType>, deep: bool)
    requires HasTypes(fs, fts) && forall f :: f in fts ==> InSight(f, deep)
    ensures forall r :: r in RefsAll(fs) ==> r in Kids(fs, deep)
    decreases fs
  {
    if fs != [] {
      InSightRefsAreKids(fs[1..], fts[1..], deep);
      FirstKids(fs, deep);
      assert InSight(fts[0], deep);
      match fts[0]
      case Value(_, sub) =>
        if deep { InSightRefsAreKids(fs[0].fields, sub, false); } else { PointerFreeHasNoRefs(fs[0], fts[0]); }
      case Array(_, _) => PointerFreeHasNoRefs(fs[0], fts[0]);
      case Scalar(_) =>
      case Str =>
      case Pointer(_) =>
    }
  }

  lemma {:induction false} DirectExactly(fs: seq<Val>, t: Tag, p: Ptr)
    ensures (t, p) in Kids(fs, false) <==> p != NULL && Ref(t, p) in fs
    decreases fs
  {
    if fs != [] {
      DirectExactly(fs[1..], t, p);
      FirstKids(fs, false);
      assert Ref(t, p) in fs <==> fs[0] == Ref(t, p) || Ref(t, p) in fs[1..];
    }
  }

  ghost predicate InValueField(fs: seq<Val>, t: Tag, p: Ptr) {
    exists v :: v in fs && v.Struct? && Ref(t, p) in v.fields
  }

  /** Collect follows the pointer fields and the pointer fields of value fields, and no others. */
  lemma {:induction false} FollowedExactly(fs: seq<Val>, t: Tag, p: Ptr)
    ensures (t, p) in Kids(fs, true) <==> p != NULL && (Ref(t, p) in fs || InValueField(fs, t, p))
    decreases fs
  {
    if fs != [] {
      FollowedExactly(fs[1..], t, p);
      FirstKids(fs, true);
      if fs[0].Struct? { DirectExactly(fs[0].fields, t, p); }
      assert Ref(t, p) in fs <==> fs[0] == Ref(t, p) || Ref(t, p) in fs[1..];
      assert InValueField(fs, t, p) <==>
             (fs[0].Struct? && Ref(t, p) in fs[0].fields) || InValueField(fs[1..], t, p) by {
        if v :| v in fs && v.Struct? && Ref(t, p) in v.fields { assert v == fs[0] || v in fs[1..]; }
      }
    }
  }

  // ---- Index table --------------------------------------------------------------------------

  /** First position of p in the table, or -1. */
  function Find(s: seq<Ptr>, p: Ptr): (i: int)
    ensures i == -1 <==> p !in s
    ensures -1 <= i < |s|
    ensures i >= 0 ==> s[i] == p && forall k :: 0 <= k < i ==> s[k] != p
  {
    if s == [] then -1
    else if s[|s| - 1] == p && p !in s[..|s| - 1] then |s| - 1
    else Find(s[..|s| - 1], p)
  }

  // ---- File format --------------------------------------------------------------------------

  function Enc(v: Val, order: seq<Ptr>): seq<Byte>
    decreases v, 0
  {
    match v
    case Raw(b) => b
    case Text(s) => SignedLE(|s|, 4) + s
    case Ref(_, p) => SignedLE(if p == NULL then -1 else Find(order, p), 4)
    case Struct(tag, fs) => LE(tag, 4) + EncAll(fs, order)
    case Elems(items) => EncAll(items, order)
  }

  function EncAll(vs: seq<Val>, order: seq<Ptr>): seq<Byte>
    decreases vs, 1
  {
    if vs == [] then [] else Enc(vs[0], order) + EncAll(vs[1..], order)
  }

  ghost predicate Table(h: Heap, order: seq<Ptr>, schema: Schema) {
    forall i :: 0 <= i < |order| ==> order[i] != NULL && order[i] in h && IsObject(h[order[i]], schema)
  }

  ghost function EncObjs(h: Heap, order: seq<Ptr>, i: nat, schema: Schema): seq<Byte>
    requires i <= |order| && Table(h, order, schema)
    decreases |order| - i
  {
    if i == |order| then []
    else LE(h[order[i]].tag, 4) + Enc(h[order[i]], order) + EncObjs(h, order, i + 1, schema)
  }

  ghost function EncodeFile(h: Heap, order: seq<Ptr>, rootTag: Tag, schema: Schema): seq<Byte>
    requires Table(h, order, schema)
  {
    LE(MAGIC, 4) + LE(rootTag, 4) + SignedLE(|order|, 4) + EncObjs(h, order, 0, schema)
  }

  /** Reads one value. `objs` are the slots filled so far; an index beyond them is an uninitialised
      slot and counts as failure, like every aborting read. */
  function Read(ft: FieldType, bs: seq<Byte>, objs: seq<Ptr>): Option<(Val, seq<Byte>)>
    decreases ft, 0, 0
  {
    match ft
    case Scalar(w) => var (b, rest) :- Take(bs, w); Some((Raw(b), rest))
    case Str =>
      var (l, r1) :- Take(bs, 4);
      var (s, r2) :- Take(r1, SignedNum(l));
      Some((Text(s), r2))
    case Pointer(t) =>
      var (l, rest) :- Take(bs, 4);
      var idx := SignedNum(l);
      if idx < 0 then Some((Ref(t, NULL), rest))
      else if idx < |objs| then Some((Ref(t, objs[idx]), rest))
      else None
    case Value(tag, fts) =>
      var (l, r1) :- Take(bs, 4);
      if Num(l) != tag then None else
        var (vs, rest) :- ReadFields(fts, r1, objs);
        Some((Struct(tag, vs), rest))
    case Array(elem, n) =>
      var (vs, rest) :- ReadElems(elem, n, bs, objs);
      Some((Elems(vs), rest))
  }

  function ReadFields(fts: seq<FieldType>, bs: seq<Byte>, objs: seq<Ptr>): Option<(seq<Val>, seq<Byte>)>
    decreases fts, 1, 0
  {
    if fts == [] then Some(([], bs)) else
      var (v, r1) :- Read(fts[0], bs, objs);
      var (vs, r2) :- ReadFields(fts[1..], r1, objs);
      Some(([v] + vs, r2))
  }

  function ReadElems(ft: FieldType, n: nat, bs: seq<Byte>, objs: seq<Ptr>): Option<(seq<Val>, seq<Byte>)>
    decreases ft, 1, n
  {
    if n == 0 then Some(([], bs)) else
      var (v, r1) :- Read(ft, bs, objs);
      var (vs, r2) :- ReadElems(ft, n - 1, r1, objs);
      Some(([v] + vs, r2))
  }

  /** Objects i..n, where `alloc` holds what the successive mallocs return. Slot i itself is already
      filled while object i is being read. */
  function DecodeObjs(schema: Schema, bs: seq<Byte>, i: nat, n: nat, alloc: seq<Ptr>): Option<(seq<Val>, seq<Byte>)>
    requires i <= n <= |alloc|
    decreases n - i
  {
    if i == n then Some(([], bs)) else
      var (t, r1) :- Take(bs, 4);
      if Num(t) !in schema then None else
        var (v, r2) :- Read(Value(Num(t), schema[Num(t)]), r1, alloc[..i + 1]);
        var (vs, r3) :- DecodeObjs(schema, r2, i + 1, n, alloc);
        Some(([v] + vs, r3))
  }

  function Addresses(supply: nat -> Ptr, n: nat): (r: seq<Ptr>)
    ensures |r| == n && forall i :: 0 <= i < n ==> r[i] == supply(i)
  {
    seq(n, i requires 0 <= i < n => supply(i))
  }

  /** The header's object count and the bytes after it. */
  function DecodeHeader(rootTag: Tag, bs: seq<Byte>): (r: Option<(nat, seq<Byte>)>)
    ensures r.Some? ==> r.value.0 > 0
  {
    var (m, r1) :- Take(bs, 4);
    if Num(m) != MAGIC then None else
      var (t, r2) :- Take(r1, 4);
      if Num(t) != rootTag then None else
        var (c, r3) :- Take(r2, 4);
        if SignedNum(c) < 1 then None else Some((SignedNum(c), r3))
  }

  /** The loaded objects, one per table entry; the last is the root. `supply` is what malloc returns,
      call by call. */
  function DecodeFile(schema: Schema, rootTag: Tag, bs: seq<Byte>, supply: nat -> Ptr): (r: Option<seq<Val>>)
    ensures r.Some? ==> 0 < |r.value|
  {
    var (n, body) :- DecodeHeader(rootTag, bs);
    var (vs, _) :- DecodeObjs(schema, body, 0, n, Addresses(supply, n));
    DecodeObjsLength(schema, body, 0, n, Addresses(supply, n));
    Some(vs)
  }

  lemma {:induction false} DecodeObjsLength(schema: Schema, bs: seq<Byte>, i: nat, n: nat, alloc: seq<Ptr>)
    requires i <= n <= |alloc|
    ensures var r := DecodeObjs(schema, bs, i, n, alloc); r.Some? ==> |r.value.0| == n - i
    decreases n - i
  {
    if i < n && DecodeObjs(schema, bs, i, n, alloc).Some? {
      var r1 := Take(bs, 4).value;
      var r2 := Read(Value(Num(r1.0), schema[Num(r1.0)]), r1.1, alloc[..i + 1]).value;
      DecodeObjsLength(schema, r2.1, i + 1, n, alloc);
    }
  }
}
