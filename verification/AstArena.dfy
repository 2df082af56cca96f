// How much arena memory the C reader takes for a tree, and why the arena it is given never grows.
module AstArena {
  import opened Bytes
  import opened AstFormat
  import opened AstRoundTrip

  function Round8(n: nat): (r: nat)
    ensures r >= n && r % 8 == 0 && r < n + 8
  {
    (n + 7) / 8 * 8
  }

  lemma Round8Multiple(n: nat)
    requires n % 8 == 0
    ensures Round8(n) == n
  {
  }

  const NODE_SIZE := 16 // sizeof(AstNode): tag, line, payload pointer
  const STR_SIZE := 16 // sizeof(NrStr)

  /** sizeof of the part of a payload struct that holds one field, on an LP64 target: every field of
      every payload struct is padded to a multiple of 8. */
  function SlotSize(k: Kind): (n: nat)
    ensures n % 8 == 0
  {
    match k
    case KChild => 8
    case KBare => 8
    case KKids => 16
    case KStr => 8
    case KInt => 8
    case KOp => 8
    case KOps => 16
    case KConst => 32
  }

  function PayloadSize(ks: seq<Kind>): (n: nat)
    ensures n % 8 == 0
  {
    if ks == [] then 0 else SlotSize(ks[0]) + PayloadSize(ks[1..])
  }

  /** Arena bytes taken for a tree the C reader returns. */
  function Footprint(n: Ast): nat
    decreases n, 0
  {
    match n
    case Nil => 0
    case Node(tag, _, fs) =>
      NODE_SIZE + PayloadOf(tag) + FieldsFootprint(fs)
  }

  /** sizeof of the payload struct of a tag; unknown tags have none. */
  function PayloadOf(tag: nat): (n: nat)
    ensures n % 8 == 0
  {
    if Shape(tag).Some? then PayloadSize(Shape(tag).value) else 0
  }

  function FieldsFootprint(fs: seq<Field>): nat
    decreases fs, 1
  {
    if fs == [] then 0 else FieldFootprint(fs[0]) + FieldsFootprint(fs[1..])
  }

  function FieldFootprint(f: Field): nat
    decreases f, 2
  {
    match f
    case Child(n) => Footprint(n)
    case Bare(n) => Footprint(n)
    case Kids(ns) => 8 * |ns| + ListFootprint(ns)
    case Str(s) => if s.None? then 0 else STR_SIZE + Round8(|s.value| + 1)
    case Ops(ops) => Round8(|ops|)
    case Const(_, v) => FieldFootprint(v)
    case Int(_) => 0
    case Float(_) => 0
    case Flag(_) => 0
    case Op(_) => 0
    case Nothing => 0
  }

  function ListFootprint(ns: seq<Ast>): nat
    decreases ns, 1
  {
    if ns == [] then 0 else Footprint(ns[0]) + ListFootprint(ns[1..])
  }

  lemma {:induction false} ListFootprintSnoc(ns: seq<Ast>, n: Ast)
    ensures ListFootprint(ns + [n]) == ListFootprint(ns) + Footprint(n)
  {
    if ns == [] {
      assert [n][1..] == [];
    } else {
      assert (ns + [n])[1..] == ns[1..] + [n];
      ListFootprintSnoc(ns[1..], n);
    }
  }

  // The bound holds with 14 in place of 64, and with room for the 8-byte slot of a node in its parent's
  // item array.

  lemma {:induction false} FootprintBound(n: Ast)
    requires Encodable(n)
    ensures Footprint(View(C, n)) + 8 <= 14 * |Enc(n)|
    decreases n, 0
  {
    FieldsFootprintBound(n.fields, Shape(n.tag).value);
    ConstantNodesFit(n);
  }

  /** Only constants and empty operator lists have slots larger than 14 times their bytes. */
  lemma ConstantNodesFit(n: Ast)
    requires Encodable(n)
    ensures SlotExcess(Shape(n.tag).value) <= 18
  {
    var ks := Shape(n.tag).value;
    if KConst in ks {
      assert ks == [KConst];
      assert ks[1..] == [];
    } else if KOps in ks {
      assert ks == [KChild, KOps, KKids];
      assert ks[1..] == [KOps, KKids] && ks[1..][1..] == [KKids] && [KKids][1..] == [];
    } else {
      NoExcess(ks);
    }
  }

  function Excess(k: Kind): nat {
    if k == KConst then 18 else if k == KOps then 2 else 0
  }

  function SlotExcess(ks: seq<Kind>): nat {
    if ks == [] then 0 else Excess(ks[0]) + SlotExcess(ks[1..])
  }

  lemma {:induction false} NoExcess(ks: seq<Kind>)
    requires KConst !in ks && KOps !in ks
    ensures SlotExcess(ks) == 0
  {
    if ks != [] { NoExcess(ks[1..]); }
  }

  lemma {:induction false} FieldsFootprintBound(fs: seq<Field>, ks: seq<Kind>)
    requires FieldsEncodable(fs, ks)
    ensures PayloadSize(ks) + FieldsFootprint(ViewFields(C, fs)) <= 14 * |EncFields(fs)| + SlotExcess(ks)
    decreases fs, 1
  {
    if fs != [] {
      FieldFootprintBound(fs[0], ks[0]);
      FieldsFootprintBound(fs[1..], ks[1..]);
      assert ViewFields(C, fs)[1..] == ViewFields(C, fs[1..]);
    }
  }

  lemma {:induction false} FieldFootprintBound(f: Field, k: Kind)
    requires FieldEncodable(f, k)
    ensures SlotSize(k) + FieldFootprint(ViewField(C, f)) <= 14 * |EncField(f)| + Excess(k)
    decreases f, 2
  {
    match k
    case KBare => FootprintBound(f.n);
    case KChild => if f.n.Node? { FootprintBound(f.n); }
    case KKids => ListFootprintBound(f.ns);
    case KStr =>
    case KInt =>
    case KOp =>
    case KOps =>
    case KConst =>
  }

  lemma {:induction false} ListFootprintBound(ns: seq<Ast>)
    requires ListEncodable(ns)
    ensures 8 * |ns| + ListFootprint(ViewList(C, ns)) <= 14 * |EncList(ns)|
    decreases ns, 1
  {
    if ns != [] {
      FootprintBound(ns[0]);
      ListFootprintBound(ns[1..]);
      assert ViewList(C, ns)[1..] == ViewList(C, ns[1..]);
    }
  }

  /** 14 cannot be lowered: a None constant takes 48 bytes and an 8-byte slot for its 4 bytes of data. */
  lemma BoundIsTight()
    ensures var n := Node(30, 0, [Const(4, Nothing)]); Encodable(n) && Footprint(View(C, n)) + 8 == 14 * |Enc(n)|
  {
    var fs := [Const(4, Nothing)];
    assert fs[1..] == [] && [KConst][1..] == [];
    assert FieldsEncodable(fs, [KConst]);
    assert ViewFields(C, fs) == fs;
    assert EncFields(fs) == [4];
  }
}
