// What loading a saved graph gives back: the relocated graph, and exactly when that is isomorphic.
module GraphRoundTrip {
  import opened Bytes
  import opened ObjectGraph
  import opened Wrappers

  /** The loaded copy of a stored pointer: its object's new address, NULL when it was not collected. */
  function Moved(p: Ptr, order: seq<Ptr>, alloc: seq<Ptr>): Ptr
    requires |order| == |alloc|
  {
    if p == NULL || p !in order then NULL else alloc[Find(order, p)]
  }

  function Relocate(v: Val, order: seq<Ptr>, alloc: seq<Ptr>): Val
    requires |order| == |alloc|
    decreases v, 0
  {
    match v
    case Raw(_) => v
    case Text(_) => v
    case Ref(t, p) => Ref(t, Moved(p, order, alloc))
    case Struct(tag, fs) => Struct(tag, RelocateAll(fs, order, alloc))
    case Elems(items) => Elems(RelocateAll(items, order, alloc))
  }

  function RelocateAll(vs: seq<Val>, order: seq<Ptr>, alloc: seq<Ptr>): seq<Val>
    requires |order| == |alloc|
    decreases vs, 1
  {
    if vs == [] then [] else [Relocate(vs[0], order, alloc)] + RelocateAll(vs[1..], order, alloc)
  }

  /** Every stored pointer's table index is below n, or -1: reading it never hits an unfilled slot. */
  ghost predicate Resolvable(refs: set<(Tag, Ptr)>, order: seq<Ptr>, n: nat) {
    forall r :: r in refs ==> Find(order, r.1) < n
  }

  lemma {:induction false} ReadEnc(v: Val, ft: FieldType, order: seq<Ptr>, alloc: seq<Ptr>, n: nat, rest: seq<Byte>)
    requires HasType(v, ft) && |order| == |alloc| <= INT32_MAX && n <= |alloc|
    ensures Read(ft, Enc(v, order) + rest, alloc[..n]) ==
            if Resolvable(Refs(v), order, n) then Some((Relocate(v, order, alloc), rest)) else None
    decreases v, 0
  {
    match ft
    case Scalar(w) => TakePrefix(v.bytes, rest);
    case Str =>
      SignedRoundTrip(|v.chars|, 4);
      assert Enc(v, order) + rest == SignedLE(|v.chars|, 4) + (v.chars + rest);
      TakePrefix(SignedLE(|v.chars|, 4), v.chars + rest);
      TakePrefix(v.chars, rest);
    case Pointer(t) =>
      var idx := if v.p == NULL then -1 else Find(order, v.p);
      SignedRoundTrip(idx, 4);
      TakePrefix(SignedLE(idx, 4), rest);
      if v.p != NULL { assert (t, v.p) in Refs(v); }
    case Value(tag, fts) =>
      NumOfLE(tag, 4);
      assert Enc(v, order) + rest == LE(tag, 4) + (EncAll(v.fields, order) + rest);
      TakePrefix(LE(tag, 4), EncAll(v.fields, order) + rest);
      ReadEncFields(v.fields, fts, order, alloc, n, rest);
    case Array(elem, c) => ReadEncElems(v.items, elem, order, alloc, n, rest);
  }

  lemma {:induction false} ReadEncFields(vs: seq<Val>, fts: seq<FieldType>, order: seq<Ptr>, alloc: seq<Ptr>, n: nat,
                                         rest: seq<Byte>)
    requires HasTypes(vs, fts) && |order| == |alloc| <= INT32_MAX && n <= |alloc|
    ensures ReadFields(fts, EncAll(vs, order) + rest, alloc[..n]) ==
            if Resolvable(RefsAll(vs), order, n) then Some((RelocateAll(vs, order, alloc), rest)) else None
    decreases vs, 1
  {
    if vs == [] {
      assert EncAll(vs, order) + rest == rest;
    } else {
      assert EncAll(vs, order) + rest == Enc(vs[0], order) + (EncAll(vs[1..], order) + rest);
      ReadEnc(vs[0], fts[0], order, alloc, n, EncAll(vs[1..], order) + rest);
      ReadEncFields(vs[1..], fts[1..], order, alloc, n, rest);
      assert RefsAll(vs) == Refs(vs[0]) + RefsAll(vs[1..]);
    }
  }

  lemma {:induction false} ReadEncElems(vs: seq<Val>, ft: FieldType, order: seq<Ptr>, alloc: seq<Ptr>, n: nat,
                                        rest: seq<Byte>)
    requires ElemsHaveType(vs, ft) && |order| == |alloc| <= INT32_MAX && n <= |alloc|
    ensures ReadElems(ft, |vs|, EncAll(vs, order) + rest, alloc[..n]) ==
            if Resolvable(RefsAll(vs), order, n) then Some((RelocateAll(vs, order, alloc), rest)) else None
    decreases vs, 1
  {
    if vs == [] {
      assert EncAll(vs, order) + rest == rest;
    } else {
      assert EncAll(vs, order) + rest == Enc(vs[0], order) + (EncAll(vs[1..], order) + rest);
      ReadEnc(vs[0], ft, order, alloc, n, EncAll(vs[1..], order) + rest);
      ReadEncElems(vs[1..], ft, order, alloc, n, rest);
      assert RefsAll(vs) == Refs(vs[0]) + RefsAll(vs[1..]);
    }
  }

  ghost predicate AllResolvable(h: Heap, order: seq<Ptr>, i: nat, schema: Schema)
    requires Table(h, order, schema)
  {
    forall k :: i <= k < |order| ==> Resolvable(Refs(h[order[k]]), order, k + 1)
  }

  ghost function Relocated(h: Heap, order: seq<Ptr>, alloc: seq<Ptr>, schema: Schema): (r: seq<Val>)
    requires Table(h, order, schema) && |order| == |alloc|
  {
    seq(|order|, k requires 0 <= k < |order| => Relocate(h[order[k]], order, alloc))
  }

  lemma {:induction false} DecodeEncObjs(h: Heap, schema: Schema, order: seq<Ptr>, alloc: seq<Ptr>, i: nat)
    requires Table(h, order, schema) && |order| == |alloc| <= INT32_MAX && i <= |order|
    ensures var r := DecodeObjs(schema, EncObjs(h, order, i, schema), i, |order|, alloc);
            r == if AllResolvable(h, order, i, schema) then Some((Relocated(h, order, alloc, schema)[i..], []))
              else None
    decreases |order| - i
  {
    if i == |order| {
      assert Relocated(h, order, alloc, schema)[i..] == [] && AllResolvable(h, order, i, schema);
    } else {
      DecodeEncObjs(h, schema, order, alloc, i + 1);
      DecodeOneObj(h, schema, order, alloc, i);
      FirstResolvable(h, schema, order, i);
      FirstRelocated(h, schema, order, alloc, i);
    }
  }

  /** One object of the file: its tag, its value, and the rest. */
  lemma DecodeOneObj(h: Heap, schema: Schema, order: seq<Ptr>, alloc: seq<Ptr>, i: nat)
    requires Table(h, order, schema) && |order| == |alloc| <= INT32_MAX && i < |order|
    ensures var tail := DecodeObjs(schema, EncObjs(h, order, i + 1, schema), i + 1, |order|, alloc);
            DecodeObjs(schema, EncObjs(h, order, i, schema), i, |order|, alloc) ==
            if !Resolvable(Refs(h[order[i]]), order, i + 1) || tail.None? then None
            else Some(([Relocate(h[order[i]], order, alloc)] + tail.value.0, tail.value.1))
  {
    var v := h[order[i]];
    var tail := EncObjs(h, order, i + 1, schema);
    FirstEncoded(h, schema, order, i);
    TakePrefix(LE(v.tag, 4), Enc(v, order) + tail);
    NumOfLE(v.tag, 4);
    ReadEnc(v, Value(v.tag, schema[v.tag]), order, alloc, i + 1, tail);
  }

  lemma FirstEncoded(h: Heap, schema: Schema, order: seq<Ptr>, i: nat)
    requires Table(h, order, schema) && i < |order|
    ensures var v := h[order[i]];
            EncObjs(h, order, i, schema) == LE(v.tag, 4) + (Enc(v, order) + EncObjs(h, order, i + 1, schema))
  {
    var v := h[order[i]];
    Regroup(LE(v.tag, 4), Enc(v, order), EncObjs(h, order, i + 1, schema));
  }

  lemma FirstResolvable(h: Heap, schema: Schema, order: seq<Ptr>, i: nat)
    requires Table(h, order, schema) && i < |order|
    ensures AllResolvable(h, order, i, schema) <==>
            Resolvable(Refs(h[order[i]]), order, i + 1) && AllResolvable(h, order, i + 1, schema)
  {
  }

  lemma FirstRelocated(h: Heap, schema: Schema, order: seq<Ptr>, alloc: seq<Ptr>, i: nat)
    requires Table(h, order, schema) && |order| == |alloc| && i < |order|
    ensures Relocated(h, order, alloc, schema)[i..] ==
            [Relocate(h[order[i]], order, alloc)] + Relocated(h, order, alloc, schema)[i + 1..]
  {
    var all := Relocated(h, order, alloc, schema);
    assert all[i] == Relocate(h[order[i]], order, alloc);
  }

  /** Loading a saved file fails exactly on a pointer to a later table entry; otherwise it gives the
      relocated graph, in which a pointer that collect never followed has become NULL. */
  lemma LoadOfSave(h: Heap, schema: Schema, order: seq<Ptr>, rootTag: Tag, supply: nat -> Ptr)
    requires Table(h, order, schema) && 0 < |order| <= INT32_MAX
    ensures DecodeFile(schema, rootTag, EncodeFile(h, order, rootTag, schema), supply) ==
            if AllResolvable(h, order, 0, schema) then Some(Relocated(h, order, Addresses(supply, |order|), schema))
              else None
  {
    var n, alloc := |order|, Addresses(supply, |order|);
    var body := EncObjs(h, order, 0, schema);
    assert EncodeFile(h, order, rootTag, schema) == LE(MAGIC, 4) + (LE(rootTag, 4) + (SignedLE(n, 4) + body));
    TakePrefix(LE(MAGIC, 4), LE(rootTag, 4) + (SignedLE(n, 4) + body));
    TakePrefix(LE(rootTag, 4), SignedLE(n, 4) + body);
    TakePrefix(SignedLE(n, 4), body);
    NumOfLE(MAGIC, 4);
    NumOfLE(rootTag, 4);
    SignedRoundTrip(n, 4);
    DecodeEncObjs(h, schema, order, alloc, 0);
    assert Relocated(h, order, alloc, schema)[0..] == Relocated(h, order, alloc, schema);
  }

  // ---- Isomorphism --------------------------------------------------------------------------

  /** w is v with every pointer replaced by the address of the copy of what it pointed to. */
  ghost predicate Corresponds(v: Val, w: Val, order: seq<Ptr>, alloc: seq<Ptr>)
    requires |order| == |alloc|
    decreases v, 0
  {
    match v
    case Raw(b) => w == Raw(b)
    case Text(s) => w == Text(s)
    case Ref(t, p) =>
      w.Ref? && w.target == t && (p == NULL <==> w.p == NULL) &&
      (p != NULL ==> exists j :: 0 <= j < |order| && order[j] == p && alloc[j] == w.p)
    case Struct(tag, fs) => w.Struct? && w.tag == tag && CorrespondAll(fs, w.fields, order, alloc)
    case Elems(items) => w.Elems? && CorrespondAll(items, w.items, order, alloc)
  }

  ghost predicate CorrespondAll(vs: seq<Val>, ws: seq<Val>, order: seq<Ptr>, alloc: seq<Ptr>)
    requires |order| == |alloc|
    decreases vs, 1
  {
    |vs| == |ws| &&
      (vs != [] ==> Corresponds(vs[0], ws[0], order, alloc) && CorrespondAll(vs[1..], ws[1..], order, alloc))
  }

  /** The objects `loaded` at addresses `alloc` are a copy of the graph `order`, sharing included. */
  ghost predicate Isomorphic(h: Heap, order: seq<Ptr>, loaded: seq<Val>, alloc: seq<Ptr>, schema: Schema)
    requires Table(h, order, schema) && |order| == |alloc|
  {
    |loaded| == |order| && NoDup(order) && NoDup(alloc) &&
    forall i :: 0 <= i < |order| ==> Corresponds(h[order[i]], loaded[i], order, alloc)
  }

  lemma {:induction false} RelocateCorresponds(v: Val, order: seq<Ptr>, alloc: seq<Ptr>)
    requires |order| == |alloc| && NULL !in alloc && NULL !in order
    ensures Corresponds(v, Relocate(v, order, alloc), order, alloc) <==> forall r :: r in Refs(v) ==> r.1 in order
    decreases v, 0
  {
    match v
    case Raw(_) =>
    case Text(_) =>
    case Ref(t, p) => if p != NULL { assert (t, p) in Refs(v); }
    case Struct(_, fs) => RelocateAllCorrespond(fs, order, alloc);
    case Elems(items) => RelocateAllCorrespond(items, order, alloc);
  }

  lemma {:induction false} RelocateAllCorrespond(vs: seq<Val>, order: seq<Ptr>, alloc: seq<Ptr>)
    requires |order| == |alloc| && NULL !in alloc && NULL !in order
    ensures CorrespondAll(vs, RelocateAll(vs, order, alloc), order, alloc) <==>
            forall r :: r in RefsAll(vs) ==> r.1 in order
    decreases vs, 1
  {
    if vs != [] {
      RelocateCorresponds(vs[0], order, alloc);
      RelocateAllCorrespond(vs[1..], order, alloc);
      assert RelocateAll(vs, order, alloc)[1..] == RelocateAll(vs[1..], order, alloc);
      assert RefsAll(vs) == Refs(vs[0]) + RefsAll(vs[1..]);
    }
  }

  /** Every pointer held by a collected object leads to an object collected no later than it. */
  ghost predicate PointsBack(h: Heap, order: seq<Ptr>, schema: Schema)
    requires Table(h, order, schema)
  {
    forall i :: 0 <= i < |order| ==> forall r :: r in Refs(h[order[i]]) ==> r.1 in order[..i + 1]
  }

  lemma FindBelow(order: seq<Ptr>, p: Ptr, n: nat)
    requires n <= |order|
    ensures p in order[..n] <==> 0 <= Find(order, p) < n
  {
    var f := Find(order, p);
    if 0 <= f < n { assert order[..n][f] == p; }
    if p in order[..n] {
      var j :| 0 <= j < n && order[..n][j] == p;
    }
  }

  /** The exact condition: save followed by load yields an isomorphic graph if and only if every
      pointer leads to an object collected no later than its holder. */
  lemma RoundTripExactly(h: Heap, schema: Schema, order: seq<Ptr>, rootTag: Tag, supply: nat -> Ptr)
    requires Table(h, order, schema) && 0 < |order| <= INT32_MAX
    requires NoDup(order) && NoDup(Addresses(supply, |order|)) && NULL !in Addresses(supply, |order|)
    ensures var r := DecodeFile(schema, rootTag, EncodeFile(h, order, rootTag, schema), supply);
            (r.Some? && Isomorphic(h, order, r.value, Addresses(supply, |order|), schema)) <==>
              PointsBack(h, order, schema)
  {
    LoadOfSave(h, schema, order, rootTag, supply);
    var alloc := Addresses(supply, |order|);
    forall i, r | 0 <= i < |order| && r in Refs(h[order[i]])
      ensures r.1 in order[..i + 1] <==> (Find(order, r.1) < i + 1 && r.1 in order)
    {
      FindBelow(order, r.1, i + 1);
    }
    forall i | 0 <= i < |order|
      ensures Corresponds(h[order[i]], Relocate(h[order[i]], order, alloc), order, alloc)
         <==> forall r :: r in Refs(h[order[i]]) ==> r.1 in order
    {
      RelocateCorresponds(h[order[i]], order, alloc);
    }
    var loaded := Relocated(h, order, alloc, schema);
    if PointsBack(h, order, schema) {
      assert AllResolvable(h, order, 0, schema);
      assert Isomorphic(h, order, loaded, alloc, schema);
    } else {
      var i, r :| 0 <= i < |order| && r in Refs(h[order[i]]) && r.1 !in order[..i + 1];
      if AllResolvable(h, order, 0, schema) {
        assert Resolvable(Refs(h[order[i]]), order, i + 1);
        assert r.1 !in order;
        assert loaded[i] == Relocate(h[order[i]], order, alloc);
      }
    }
  }

  // ---- Files that are not of the type asked for ---------------------------------------------

  /** The bytes of a value: counts, hashes and table indices in four bytes, low byte first; -1 for NULL. */
  lemma ValueBytes(v: Val, order: seq<Ptr>)
    ensures match v
            case Raw(b) => Enc(v, order) == b
            case Text(s) => Enc(v, order) == FourBytes(|s|) + s
            case Ref(_, p) =>
              if p == NULL || p !in order then Enc(v, order) == [255, 255, 255, 255]
              else exists i :: 0 <= i < |order| && order[i] == p && p !in order[..i] && Enc(v, order) == FourBytes(i)
            case Struct(tag, fs) => Enc(v, order) == FourBytes(tag) + EncAll(fs, order)
            case Elems(items) => Enc(v, order) == EncAll(items, order)
  {
    match v
    case Text(s) => CountBytes(|s|);
    case Ref(_, p) =>
      NoStringBytes();
      var i := Find(order, p);
      if p != NULL && i >= 0 {
        CountBytes(i);
        assert order[i] == p && p !in order[..i];
      }
    case Struct(tag, _) => HashBytes(tag);
    case _ =>
  }

  lemma HashBytes(v: nat)
    ensures LE(v, 4) == FourBytes(v)
  {
    Powers();
    LEByte(v, 4, 0);
    LEByte(v, 4, 1);
    LEByte(v, 4, 2);
    LEByte(v, 4, 3);
  }

  /** Fields and array elements follow one another in order. */
  lemma {:induction false} EncodedInOrder(a: seq<Val>, b: seq<Val>, order: seq<Ptr>)
    ensures EncAll(a + b, order) == EncAll(a, order) + EncAll(b, order)
  {
    if a == [] {
      assert a + b == b;
    } else {
      assert (a + b)[0] == a[0] && (a + b)[1..] == a[1..] + b;
      EncodedInOrder(a[1..], b, order);
    }
  }

  /** A file begins with the magic number, the root type's hash and the number of objects. */
  lemma FileBytes(h: Heap, schema: Schema, order: seq<Ptr>, rootTag: Tag)
    requires Table(h, order, schema)
    ensures EncodeFile(h, order, rootTag, schema) ==
            [0x47, 0x59, 0x50, 0x4D] + FourBytes(rootTag) + FourBytes(|order|) + EncObjs(h, order, 0, schema)
  {
    HashBytes(MAGIC);
    HashBytes(rootTag);
    CountBytes(|order|);
  }

  /** A header is accepted exactly when it is twelve bytes of this format's magic number, this root type's hash and a
      positive count. */
  lemma HeaderExactly(rootTag: Tag, bs: seq<Byte>)
    ensures DecodeHeader(rootTag, bs).Some? <==>
            && |bs| >= 12 && Num(bs[..4]) == 0x4D505947 && Num(bs[4..8]) == rootTag && SignedNum(bs[8..12]) >= 1
  {
    if |bs| >= 4 {
      var r1 := bs[4..];
      TakeIs(bs, 4);
      if |bs| >= 8 {
        TakeIs(r1, 4);
        assert r1[..4] == bs[4..8] && r1[4..] == bs[8..];
        if |bs| >= 12 {
          TakeIs(bs[8..], 4);
          assert bs[8..][..4] == bs[8..12];
        }
      }
    }
  }

  lemma TakeIs(bs: seq<Byte>, n: nat)
    requires n <= |bs|
    ensures Take(bs, n) == Some((bs[..n], bs[n..]))
  {
  }

  /** A file saved for one root type does not load as another. */
  lemma OtherTypeDoesNotLoad(h: Heap, schema: Schema, order: seq<Ptr>, a: Tag, b: Tag, supply: nat -> Ptr)
    requires Table(h, order, schema) && a != b
    ensures DecodeFile(schema, b, EncodeFile(h, order, a, schema), supply) == None
  {
    var m, t, c, rest := LE(MAGIC, 4), LE(a, 4), SignedLE(|order|, 4), EncObjs(h, order, 0, schema);
    var file := EncodeFile(h, order, a, schema);
    assert file == m + t + c + rest;
    assert |file| >= 12 && file[4..8] == t;
    NumOfLE(a, 4);
    HeaderExactly(b, file);
  }

  /** Nor does a value with another struct's hash in front. */
  lemma OtherHashIsNotRead(tag: Tag, other: Tag, fts: seq<FieldType>, rest: seq<Byte>, objs: seq<Ptr>)
    requires tag != other
    ensures Read(Value(tag, fts), LE(other, 4) + rest, objs) == None
  {
    TakePrefix(LE(other, 4), rest);
    NumOfLE(other, 4);
  }
}
