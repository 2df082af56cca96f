// Decoding what was encoded: both readers consume exactly the encoding and return the tree, the C
// reader with every string cut at its first NUL byte.
module AstRoundTrip {
  import opened Bytes
  import opened AstFormat
  import opened Wrappers

  // ---- What a reader sees of a tree ---------------------------------------------------------

  function View(rd: Reader, n: Ast): Ast
    decreases n, 0
  {
    match n
    case Nil => Nil
    case Node(tag, line, fs) => Node(tag, line, ViewFields(rd, fs))
  }

  function ViewFields(rd: Reader, fs: seq<Field>): (r: seq<Field>)
    ensures |r| == |fs|
    decreases fs, 1
  {
    if fs == [] then [] else [ViewField(rd, fs[0])] + ViewFields(rd, fs[1..])
  }

  function ViewField(rd: Reader, f: Field): Field
    decreases f, 2
  {
    match f
    case Child(n) => Child(View(rd, n))
    case Bare(n) => Bare(View(rd, n))
    case Kids(ns) => Kids(ViewList(rd, ns))
    case Str(s) => Str(if s.None? || rd.Py? then s else Some(Cut(s.value)))
    case Const(kind, v) => Const(kind, ViewField(rd, v))
    case Int(_) => f
    case Float(_) => f
    case Flag(_) => f
    case Op(_) => f
    case Ops(_) => f
    case Nothing => f
  }

  function ViewList(rd: Reader, ns: seq<Ast>): (r: seq<Ast>)
    ensures |r| == |ns|
    decreases ns, 1
  {
    if ns == [] then [] else [View(rd, ns[0])] + ViewList(rd, ns[1..])
  }

  // ---- Round trip ---------------------------------------------------------------------------

  lemma {:induction false} DecodeEnc(rd: Reader, n: Ast, rest: seq<Byte>)
    requires Encodable(n)
    ensures DecNode(rd, Enc(n) + rest) == Some((View(rd, n), rest))
    decreases n, 0
  {
    var header := [n.tag] + LE(n.line, 2);
    DecodeHeader(n.tag, n.line, EncFields(n.fields) + rest);
    EncLayout(n, rest);
    DecodeEncFields(rd, n.fields, Shape(n.tag).value, rest);
  }

  lemma EncLayout(n: Ast, rest: seq<Byte>)
    requires Encodable(n)
    ensures Enc(n) + rest == [n.tag] + LE(n.line, 2) + (EncFields(n.fields) + rest)
  {
    var header, body := [n.tag] + LE(n.line, 2), EncFields(n.fields);
    assert n.tag % 256 == n.tag && n.line % 0x1_0000 == n.line;
    assert Enc(n) == header + body;
    assert (header + body) + rest == header + (body + rest);
  }

  lemma DecodeHeader(tag: Byte, line: nat, rest: seq<Byte>)
    requires line < 0x1_0000
    ensures var header := [tag] + LE(line, 2);
            Take(header + rest, 3) == Some((header, rest)) && header[0] == tag && Num(header[1..]) == line
  {
    var header := [tag] + LE(line, 2);
    NumOfLE(line, 2);
    TakePrefix(header, rest);
    assert header[1..] == LE(line, 2);
  }

  lemma {:induction false} DecodeEncFields(rd: Reader, fs: seq<Field>, ks: seq<Kind>, rest: seq<Byte>)
    requires FieldsEncodable(fs, ks)
    ensures DecFields(rd, ks, EncFields(fs) + rest) == Some((ViewFields(rd, fs), rest))
    decreases fs, 1
  {
    if fs == [] {
      assert EncFields(fs) + rest == rest;
    } else {
      assert EncFields(fs) + rest == EncField(fs[0]) + (EncFields(fs[1..]) + rest);
      DecodeEncField(rd, fs[0], ks[0], EncFields(fs[1..]) + rest);
      DecodeEncFields(rd, fs[1..], ks[1..], rest);
    }
  }

  lemma {:induction false} DecodeEncField(rd: Reader, f: Field, k: Kind, rest: seq<Byte>)
    requires FieldEncodable(f, k)
    ensures DecSlot(rd, k, EncField(f) + rest) == Some((ViewField(rd, f), rest))
    decreases f, 2
  {
    if k.KBare? {
      DecodeEnc(rd, f.n, rest);
    } else if k.KChild? {
      DecodeEncChild(rd, f, rest);
    } else if k.KKids? {
      DecodeEncKids(rd, f.ns, rest);
    } else {
      DecodeEncLeaf(rd, f, k, rest);
    }
  }

  lemma {:induction false} DecodeEncChild(rd: Reader, f: Field, rest: seq<Byte>)
    requires FieldEncodable(f, KChild)
    ensures DecSlot(rd, KChild, EncField(f) + rest) == Some((ViewField(rd, f), rest))
    decreases f, 1
  {
    if f.n.Nil? {
      SlotForm(rd, KChild, FK_NONE, rest);
    } else {
      assert EncField(f) + rest == [FK_NODE] + (Enc(f.n) + rest);
      SlotForm(rd, KChild, FK_NODE, Enc(f.n) + rest);
      DecodeEnc(rd, f.n, rest);
    }
  }

  lemma {:induction false} DecodeEncKids(rd: Reader, ns: seq<Ast>, rest: seq<Byte>)
    requires |ns| <= INT32_MAX && ListEncodable(ns)
    ensures DecSlot(rd, KKids, EncField(Kids(ns)) + rest) == Some((Kids(ViewList(rd, ns)), rest))
    decreases ns, 2
  {
    var body := EncList(ns) + rest;
    KidsLayout(ns, rest);
    SlotForm(rd, KKids, FK_NODE_LIST, SignedLE(|ns|, 4) + body);
    DecodeEncList(rd, ns, rest);
    DecodeCounted(rd, |ns|, body);
  }

  lemma KidsLayout(ns: seq<Ast>, rest: seq<Byte>)
    requires |ns| <= INT32_MAX
    ensures EncField(Kids(ns)) + rest == [FK_NODE_LIST] + (SignedLE(|ns|, 4) + (EncList(ns) + rest))
  {
  }

  lemma DecodeCounted(rd: Reader, count: nat, body: seq<Byte>)
    requires count <= INT32_MAX
    ensures DecForm(rd, FK_NODE_LIST, SignedLE(count, 4) + body) ==
            match DecList(rd, count, body) case None => None case Some((ns, rest)) => Some((Kids(ns), rest))
  {
    TakePrefix(SignedLE(count, 4), body);
    SignedRoundTrip(count, 4);
  }

  lemma DecodeEncLeaf(rd: Reader, f: Field, k: Kind, rest: seq<Byte>)
    requires FieldEncodable(f, k) && !k.KBare? && !k.KChild? && !k.KKids?
    ensures DecSlot(rd, k, EncField(f) + rest) == Some((ViewField(rd, f), rest))
  {
    match k
    case KStr => DecodeEncStrField(rd, f, rest);
    case KInt => DecodeEncIntField(rd, f, rest);
    case KOp =>
      assert EncField(f) + rest == [FK_OP] + ([f.op] + rest);
      SlotForm(rd, k, FK_OP, [f.op] + rest);
      TakePrefix([f.op], rest);
    case KOps =>
      assert EncField(f) + rest == [|f.ops|] + (f.ops + rest);
      TakePrefix([|f.ops|], f.ops + rest);
      TakePrefix(f.ops, rest);
    case KConst => DecodeEncConstField(rd, f, rest);
  }

  lemma DecodeEncStrField(rd: Reader, f: Field, rest: seq<Byte>)
    requires FieldEncodable(f, KStr)
    ensures DecSlot(rd, KStr, EncField(f) + rest) == Some((ViewField(rd, f), rest))
  {
    assert EncField(f) + rest == [FK_STRING] + (EncStr(f.s) + rest);
    SlotForm(rd, KStr, FK_STRING, EncStr(f.s) + rest);
    DecodeEncStr(rd, f.s, rest);
  }

  lemma DecodeEncIntField(rd: Reader, f: Field, rest: seq<Byte>)
    requires FieldEncodable(f, KInt)
    ensures DecSlot(rd, KInt, EncField(f) + rest) == Some((ViewField(rd, f), rest))
  {
    assert EncField(f) + rest == [FK_INT] + (SignedLE(f.v, 8) + rest);
    SlotForm(rd, KInt, FK_INT, SignedLE(f.v, 8) + rest);
    TakePrefix(SignedLE(f.v, 8), rest);
    SignedRoundTrip(f.v, 8);
  }

  lemma DecodeEncConstField(rd: Reader, f: Field, rest: seq<Byte>)
    requires FieldEncodable(f, KConst)
    ensures DecSlot(rd, KConst, EncField(f) + rest) == Some((ViewField(rd, f), rest))
  {
    assert EncField(f) + rest == [f.kind] + (EncField(f.value) + rest);
    TakePrefix([f.kind], EncField(f.value) + rest);
    DecodeEncConst(rd, f.kind, f.value, rest);
  }

  /** A slot whose kind byte is the one the C reader expects is read in that form by both readers. */
  lemma SlotForm(rd: Reader, k: Kind, fk: Byte, body: seq<Byte>)
    requires k.KChild? || k.KKids? || k.KStr? || k.KInt? || k.KOp?
    requires CForm(k, fk) == fk
    ensures DecSlot(rd, k, [fk] + body) == DecForm(rd, fk, body)
  {
    TakePrefix([fk], body);
  }

  lemma DecodeEncConst(rd: Reader, kind: Byte, v: Field, rest: seq<Byte>)
    requires ConstEncodable(kind, v)
    ensures match ConstForm(kind)
            case None => EncField(v) + rest == rest && ViewField(rd, v) == Nothing
            case Some(fk) =>
              exists body ::
                && EncField(v) + rest == [fk] + body && Take([fk] + body, 1) == Some(([fk], body))
                && DecForm(rd, fk, body) == Some((ViewField(rd, v), rest))
  {
    if ConstForm(kind).Some? {
      var fk := ConstForm(kind).value;
      var body := EncField(v)[1..] + rest;
      assert EncField(v) + rest == [fk] + body;
      TakePrefix([fk], body);
      DecodeEncConstBody(rd, kind, v, rest);
    }
  }

  lemma DecodeEncConstBody(rd: Reader, kind: Byte, v: Field, rest: seq<Byte>)
    requires ConstEncodable(kind, v) && ConstForm(kind).Some?
    ensures EncField(v) != [] &&
            DecForm(rd, ConstForm(kind).value, EncField(v)[1..] + rest) == Some((ViewField(rd, v), rest))
  {
    match kind
    case 0 => assert EncField(v)[1..] == SignedLE(v.v, 8); TakePrefix(SignedLE(v.v, 8), rest); SignedRoundTrip(v.v, 8);
    case 1 => assert EncField(v)[1..] == v.bits; TakePrefix(v.bits, rest);
    case 2 => assert EncField(v)[1..] == EncStr(v.s); DecodeEncStr(rd, v.s, rest);
    case 3 => assert EncField(v)[1..] == [v.b]; TakePrefix([v.b], rest);
  }

  lemma DecodeEncStr(rd: Reader, s: Option<seq<Byte>>, rest: seq<Byte>)
    requires ShortString(s)
    ensures DecStr(rd, EncStr(s) + rest) == Some((if s.None? || rd.Py? then s else Some(Cut(s.value)), rest))
  {
    var len := if s.None? then -1 else |s.value|;
    SignedRoundTrip(len, 4);
    if s.None? {
      TakePrefix(SignedLE(-1, 4), rest);
    } else {
      assert EncStr(s) + rest == SignedLE(len, 4) + (s.value + rest);
      TakePrefix(SignedLE(len, 4), s.value + rest);
      TakePrefix(s.value, rest);
    }
  }

  lemma {:induction false} DecodeEncList(rd: Reader, ns: seq<Ast>, rest: seq<Byte>)
    requires ListEncodable(ns)
    ensures DecList(rd, |ns|, EncList(ns) + rest) == Some((ViewList(rd, ns), rest))
    decreases ns, 1
  {
    if ns == [] {
      assert EncList(ns) + rest == rest;
    } else {
      assert EncList(ns) + rest == Enc(ns[0]) + (EncList(ns[1..]) + rest);
      DecodeEnc(rd, ns[0], EncList(ns[1..]) + rest);
      DecodeEncList(rd, ns[1..], rest);
    }
  }

  // ---- When the C reader sees the same tree -------------------------------------------------

  predicate NulFree(n: Ast)
    decreases n, 0
  {
    n.Node? ==> FieldsNulFree(n.fields)
  }

  predicate FieldsNulFree(fs: seq<Field>)
    decreases fs, 1
  {
    fs != [] ==> FieldNulFree(fs[0]) && FieldsNulFree(fs[1..])
  }

  predicate FieldNulFree(f: Field)
    decreases f, 2
  {
    match f
    case Child(n) => NulFree(n)
    case Bare(n) => NulFree(n)
    case Kids(ns) => ListNulFree(ns)
    case Str(s) => s.Some? ==> 0 !in s.value
    case Const(_, v) => FieldNulFree(v)
    case Int(_) => true
    case Float(_) => true
    case Flag(_) => true
    case Op(_) => true
    case Ops(_) => true
    case Nothing => true
  }

  predicate ListNulFree(ns: seq<Ast>)
    decreases ns, 1
  {
    ns != [] ==> NulFree(ns[0]) && ListNulFree(ns[1..])
  }

  lemma {:induction false} PyViewIsIdentity(n: Ast)
    ensures View(Py, n) == n
    decreases n, 0
  {
    if n.Node? { PyViewFields(n.fields); }
  }

  lemma {:induction false} PyViewFields(fs: seq<Field>)
    ensures ViewFields(Py, fs) == fs
    decreases fs, 1
  {
    if fs != [] { PyViewField(fs[0]); PyViewFields(fs[1..]); }
  }

  lemma {:induction false} PyViewField(f: Field)
    ensures ViewField(Py, f) == f
    decreases f, 2
  {
    match f
    case Child(n) => PyViewIsIdentity(n);
    case Bare(n) => PyViewIsIdentity(n);
    case Kids(ns) => PyViewList(ns);
    case Const(_, v) => PyViewField(v);
    case _ =>
  }

  lemma {:induction false} PyViewList(ns: seq<Ast>)
    ensures ViewList(Py, ns) == ns
    decreases ns, 1
  {
    if ns != [] { PyViewIsIdentity(ns[0]); PyViewList(ns[1..]); }
  }

  lemma {:induction false} CViewSame(n: Ast)
    ensures View(C, n) == n <==> NulFree(n)
    decreases n, 0
  {
    if n.Node? { CViewFieldsSame(n.fields); }
  }

  lemma {:induction false} CViewFieldsSame(fs: seq<Field>)
    ensures ViewFields(C, fs) == fs <==> FieldsNulFree(fs)
    decreases fs, 1
  {
    if fs != [] {
      CViewFieldSame(fs[0]);
      CViewFieldsSame(fs[1..]);
      assert ViewFields(C, fs)[1..] == ViewFields(C, fs[1..]);
      if ViewFields(C, fs) == fs { assert ViewFields(C, fs)[0] == fs[0]; }
    }
  }

  lemma {:induction false} CViewFieldSame(f: Field)
    ensures ViewField(C, f) == f <==> FieldNulFree(f)
    decreases f, 2
  {
    match f
    case Child(n) => CViewSame(n);
    case Bare(n) => CViewSame(n);
    case Kids(ns) => CViewListSame(ns);
    case Const(_, v) => CViewFieldSame(v);
    case _ =>
  }

  lemma {:induction false} CViewListSame(ns: seq<Ast>)
    ensures ViewList(C, ns) == ns <==> ListNulFree(ns)
    decreases ns, 1
  {
    if ns != [] {
      CViewSame(ns[0]);
      CViewListSame(ns[1..]);
      assert ViewList(C, ns)[1..] == ViewList(C, ns[1..]);
      if ViewList(C, ns) == ns { assert ViewList(C, ns)[0] == ns[0]; }
    }
  }

  /** The codec round-trips and is self-delimiting: with any bytes following, the Python reader gives
      back the tree and consumes exactly the encoding. */
  lemma PythonRoundTrip(n: Ast, rest: seq<Byte>)
    requires Encodable(n)
    ensures DecNode(Py, Enc(n) + rest) == Some((n, rest))
  {
    DecodeEnc(Py, n, rest);
    PyViewIsIdentity(n);
  }

  /** No encoding is a proper prefix of another; in particular the encoding determines the tree. */
  lemma PrefixFree(a: Ast, b: Ast)
    requires Encodable(a) && Encodable(b) && Enc(a) <= Enc(b)
    ensures a == b
  {
    PythonRoundTrip(a, Enc(b)[|Enc(a)|..]);
    PythonRoundTrip(b, []);
    assert Enc(b) == Enc(a) + Enc(b)[|Enc(a)|..] && Enc(b) + [] == Enc(b);
  }

  /** The C reader consumes the same bytes, and builds the same tree exactly when no string holds a
      NUL byte. */
  lemma CRoundTrip(n: Ast, rest: seq<Byte>)
    requires Encodable(n)
    ensures DecNode(C, Enc(n) + rest) == Some((View(C, n), rest))
    ensures DecNode(C, Enc(n) + rest) == Some((n, rest)) <==> NulFree(n)
  {
    DecodeEnc(C, n, rest);
    CViewSame(n);
  }
}
