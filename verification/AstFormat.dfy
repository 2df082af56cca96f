// The binary AST format: one table of field shapes per node tag, the encoder, and the two decoders
// (the Python reader, driven by the kind bytes in the data, and the C reader, driven by the table).
module AstFormat {
  import opened Bytes
  import opened Wrappers

  /** Nil is Python's None / C's NULL. Strings are UTF-8 bytes, floats their eight raw bytes. */
  datatype Ast = Nil | Node(tag: nat, line: int, fields: seq<Field>)

  datatype Field =
    | Child(n: Ast)
    | Bare(n: Ast)
    | Kids(ns: seq<Ast>)
    | Str(s: Option<seq<Byte>>)
    | Int(v: int)
    | Float(bits: seq<Byte>)
    | Flag(b: Byte)
    | Op(op: Byte)
    | Ops(ops: seq<Byte>)
    | Const(kind: Byte, value: Field)
    | Nothing

  datatype Kind = KChild | KBare | KKids | KStr | KInt | KOp | KOps | KConst

  const FK_NODE := 0
  const FK_NODE_LIST := 1
  const FK_STRING := 2
  const FK_INT := 3
  const FK_FLOAT := 4
  const FK_BOOL := 5
  const FK_OP := 6
  const FK_NONE := 7

  const INT32_MAX := 0x7FFF_FFFF

  /** The fields that follow the header of a node, by tag. */
  function Shape(tag: nat): Option<seq<Kind>> {
    match tag
    case 0 => Some([KKids])
    case 1 => Some([KStr, KBare, KKids, KKids, KChild])
    case 2 => Some([KStr, KKids, KKids, KKids, KKids])
    case 3 => Some([KChild])
    case 4 => Some([KChild])
    case 5 => Some([KChild])
    case 6 => Some([KChild, KKids, KKids])
    case 7 => Some([KChild, KKids])
    case 8 => Some([KChild, KChild, KKids])
    case 9 => Some([KKids, KKids])
    case 10 => Some([KKids, KChild])
    case 11 => Some([KChild, KOp, KChild])
    case 12 => Some([KChild, KChild, KChild])
    case 13 => Some([KChild, KChild])
    case 14 => Some([])
    case 15 => Some([])
    case 16 => Some([])
    case 17 => Some([KKids])
    case 18 => Some([KStr, KKids])
    case 19 => Some([KChild, KKids])
    case 30 => Some([KConst])
    case 31 => Some([KStr])
    case 32 => Some([KChild, KKids, KKids])
    case 33 => Some([KChild, KStr])
    case 34 => Some([KChild, KChild])
    case 35 => Some([KChild, KOp, KChild])
    case 36 => Some([KOp, KChild])
    case 37 => Some([KOp, KKids])
    case 38 => Some([KChild, KOps, KKids])
    case 39 => Some([KChild, KChild, KChild])
    case 40 => Some([KKids])
    case 41 => Some([KKids])
    case 42 => Some([KKids])
    case 43 => Some([KKids, KKids])
    case 44 => Some([KKids])
    case 45 => Some([KChild, KInt, KChild])
    case 46 => Some([KChild, KKids])
    case 47 => Some([KBare, KChild])
    case 60 => Some([KKids, KChild, KKids])
    case 61 => Some([KStr, KChild])
    case 62 => Some([KStr, KChild])
    case 63 => Some([KStr, KStr])
    case 64 => Some([KChild, KChild, KKids])
    case 65 => Some([KChild, KChild])
    case 66 => Some([KChild, KChild, KKids])
    case 67 => Some([KChild])
    case 68 => Some([KKids])
    case 69 => Some([KChild, KStr])
    case _ => None
  }

  // ---- What the serializer accepts ----------------------------------------------------------

  predicate ShortString(s: Option<seq<Byte>>) { s.Some? ==> |s.value| <= INT32_MAX }

  /** The values struct.pack and the dispatch table accept; anything else raises. A None inside a node
      list (a dict's ** key) has no serializer. */
  predicate Encodable(n: Ast)
    decreases n, 0
  {
    n.Node? && 0 <= n.line < 0x1_0000 && Shape(n.tag).Some? && FieldsEncodable(n.fields, Shape(n.tag).value)
  }

  predicate FieldsEncodable(fs: seq<Field>, ks: seq<Kind>)
    decreases fs, 1
  {
    |fs| == |ks| && (fs != [] ==> FieldEncodable(fs[0], ks[0]) && FieldsEncodable(fs[1..], ks[1..]))
  }

  predicate FieldEncodable(f: Field, k: Kind)
    decreases f, 2
  {
    match k
    case KChild => f.Child? && (f.n.Nil? || Encodable(f.n))
    case KBare => f.Bare? && Encodable(f.n)
    case KKids => f.Kids? && |f.ns| <= INT32_MAX && ListEncodable(f.ns)
    case KStr => f.Str? && ShortString(f.s)
    case KInt => f.Int? && FitsSigned(f.v, 8)
    case KOp => f.Op?
    case KOps => f.Ops? && |f.ops| < 256
    case KConst => f.Const? && ConstEncodable(f.kind, f.value)
  }

  predicate ConstEncodable(kind: Byte, v: Field) {
    match kind
    case 0 => v.Int? && FitsSigned(v.v, 8)
    case 1 => v.Float? && |v.bits| == 8
    case 2 => v.Str? && v.s.Some? && ShortString(v.s)
    case 3 => v.Flag? && v.b <= 1
    case 4 => v.Nothing?
    case 5 => v.Nothing?
    case _ => false
  }

  predicate ListEncodable(ns: seq<Ast>)
    decreases ns, 1
  {
    ns != [] ==> Encodable(ns[0]) && ListEncodable(ns[1..])
  }

  // ---- Encoder ------------------------------------------------------------------------------

  function EncStr(s: Option<seq<Byte>>): seq<Byte> {
    match s
    case None => SignedLE(-1, 4)
    case Some(b) => SignedLE(|b|, 4) + b
  }

  function Enc(n: Ast): seq<Byte>
    decreases n, 0
  {
    match n
    case Nil => []
    case Node(tag, line, fs) => [tag % 256] + LE(line % 0x1_0000, 2) + EncFields(fs)
  }

  function EncFields(fs: seq<Field>): seq<Byte>
    decreases fs, 1
  {
    if fs == [] then [] else EncField(fs[0]) + EncFields(fs[1..])
  }

  function EncField(f: Field): seq<Byte>
    decreases f, 2
  {
    match f
    case Child(n) => if n.Nil? then [FK_NONE] else [FK_NODE] + Enc(n)
    case Bare(n) => Enc(n)
    case Kids(ns) => [FK_NODE_LIST] + SignedLE(|ns|, 4) + EncList(ns)
    case Str(s) => [FK_STRING] + EncStr(s)
    case Int(v) => [FK_INT] + SignedLE(v, 8)
    case Float(bits) => [FK_FLOAT] + bits
    case Flag(b) => [FK_BOOL, b]
    case Op(op) => [FK_OP, op]
    case Ops(ops) => [|ops| % 256] + ops
    case Const(kind, v) => [kind] + EncField(v)
    case Nothing => []
  }

  function EncList(ns: seq<Ast>): seq<Byte>
    decreases ns, 1
  {
    if ns == [] then [] else Enc(ns[0]) + EncList(ns[1..])
  }

  // ---- Decoders -----------------------------------------------------------------------------

  datatype Reader = Py | C

  /** The form the C reader reads a field of this kind in: fixed by the kind, but for a missing child. */
  function CForm(k: Kind, b: Byte): Byte
    requires k != KBare && k != KOps && k != KConst
  {
    match k
    case KChild => if b == FK_NONE then FK_NONE else FK_NODE
    case KKids => FK_NODE_LIST
    case KStr => FK_STRING
    case KInt => FK_INT
    case KOp => FK_OP
  }

  /** The form of a constant's payload by constant kind; None when there is no payload. */
  function ConstForm(kind: Byte): Option<Byte> {
    match kind
    case 0 => Some(FK_INT)
    case 1 => Some(FK_FLOAT)
    case 2 => Some(FK_STRING)
    case 3 => Some(FK_BOOL)
    case _ => None
  }

  /** The C reader passes every string through strlen: what is left ends where the string or its first NUL does. */
  function Cut(s: seq<Byte>): (r: seq<Byte>)
    ensures r <= s && 0 !in r && (|r| < |s| ==> s[|r|] == 0)
    ensures r == s <==> 0 !in s
  {
    if s == [] || s[0] == 0 then [] else [s[0]] + Cut(s[1..])
  }

  /** The Python reader slices: a string cut short by the end of the input comes back as far as it goes. */
  function DecStr(rd: Reader, bs: seq<Byte>): (r: Option<(Option<seq<Byte>>, seq<Byte>)>)
    ensures r.Some? ==> |r.value.1| <= |bs|
  {
    var (l, r1) :- Take(bs, 4);
    if SignedNum(l) < 0 then Some((None, r1))
    else if rd.Py? && SignedNum(l) > |r1| then Some((Some(r1), []))
    else
      var (s, r2) :- Take(r1, SignedNum(l));
      Some((Some(if rd.C? then Cut(s) else s), r2))
  }

  function DecNode(rd: Reader, bs: seq<Byte>): (r: Option<(Ast, seq<Byte>)>)
    ensures r.Some? ==> |r.value.1| + 3 <= |bs|
    decreases |bs|, 0, 0
  {
    var (h, r0) :- Take(bs, 3);
    var (fs, r1) :- DecPayload(rd, h[0], r0);
    Some((Node(h[0], Num(h[1..]), fs), r1))
  }

  /** An unknown tag makes the Python reader raise; the C reader leaves the payload pointer NULL. */
  function DecPayload(rd: Reader, tag: Byte, bs: seq<Byte>): (r: Option<(seq<Field>, seq<Byte>)>)
    ensures r.Some? ==> |r.value.1| <= |bs|
    decreases |bs|, 5, 0
  {
    match Shape(tag)
    case None => if rd.C? then Some(([], bs)) else None
    case Some(ks) => DecFields(rd, ks, bs)
  }

  function DecFields(rd: Reader, ks: seq<Kind>, bs: seq<Byte>): (r: Option<(seq<Field>, seq<Byte>)>)
    ensures r.Some? ==> |r.value.1| <= |bs|
    decreases |bs|, 4, |ks|
  {
    if ks == [] then Some(([], bs)) else
      var (f, r1) :- DecSlot(rd, ks[0], bs);
      var (fs, r2) :- DecFields(rd, ks[1..], r1);
      Some(([f] + fs, r2))
  }

  function DecSlot(rd: Reader, k: Kind, bs: seq<Byte>): (r: Option<(Field, seq<Byte>)>)
    ensures r.Some? ==> |r.value.1| <= |bs|
    decreases |bs|, 3, 0
  {
    if k == KBare then
      var (n, r1) :- DecNode(rd, bs);
      Some((Bare(n), r1))
    else
      var (b, r1) :- Take(bs, 1);
      if k == KOps then
        var (ops, r2) :- Take(r1, b[0]);
        Some((Ops(ops), r2))
      else if k == KConst then
        if ConstForm(b[0]).None? then Some((Const(b[0], Nothing), r1)) else
          var (fk, r2) :- Take(r1, 1);
          var (v, r3) :- DecForm(rd, if rd.C? then ConstForm(b[0]).value else fk[0], r2);
          Some((Const(b[0], v), r3))
      else DecForm(rd, if rd.C? then CForm(k, b[0]) else b[0], r1)
  }

  function DecForm(rd: Reader, fk: Byte, bs: seq<Byte>): (r: Option<(Field, seq<Byte>)>)
    ensures r.Some? ==> |r.value.1| <= |bs|
    decreases |bs|, 2, 0
  {
    match fk
    case 0 => var (n, r1) :- DecNode(rd, bs); Some((Child(n), r1))
    case 1 =>
      var (c, r1) :- Take(bs, 4);
      var (ns, r2) :- DecList(rd, SignedNum(c), r1);
      Some((Kids(ns), r2))
    case 2 => var (s, r1) :- DecStr(rd, bs); Some((Str(s), r1))
    case 3 => var (v, r1) :- Take(bs, 8); Some((Int(SignedNum(v)), r1))
    case 4 => var (v, r1) :- Take(bs, 8); Some((Float(v), r1))
    case 5 => var (v, r1) :- Take(bs, 1); Some((Flag(if rd.C? || v[0] == 0 then v[0] else 1), r1))
    case 6 => var (v, r1) :- Take(bs, 1); Some((Op(v[0]), r1))
    case 7 => Some((Child(Nil), bs))
    case _ => None
  }

  function DecList(rd: Reader, count: int, bs: seq<Byte>): (r: Option<(seq<Ast>, seq<Byte>)>)
    ensures r.Some? ==> |r.value.1| <= |bs| && |r.value.0| == if count <= 0 then 0 else count
    decreases |bs|, 1, count
  {
    if count <= 0 then Some(([], bs)) else
      var (n, r1) :- DecNode(rd, bs);
      var (ns, r2) :- DecList(rd, count - 1, r1);
      Some(([n] + ns, r2))
  }
}
