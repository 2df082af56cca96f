// The binary AST format byte by byte (compiler/ast_serial.py:140-226), and its node shapes against the payload
// structs of the C header (native/generated/ast_nodes.h:51-330).
module AstBytes {
  import opened Wrappers
  import opened Bytes
  import opened AstFormat
  import opened AstArena
  import L = StructLayout
  import A = StructAdvice
  import P = StructPlaces

  // ---- Bytes --------------------------------------------------------------------------------

  /** A node: its tag, its line low byte first, its fields. */
  lemma NodeBytes(tag: Byte, line: nat, fs: seq<Field>)
    requires line < 0x1_0000
    ensures Enc(Node(tag, line, fs)) == [tag, line % 256, line / 256] + EncFields(fs)
  {
    Powers();
    LEByte(line, 2, 0);
    LEByte(line, 2, 1);
    assert LE(line, 2) == [line % 256, line / 256];
  }

  /** A field: a byte for its form, then its contents; counts and lengths in four bytes, low byte first. */
  lemma FieldBytes(f: Field)
    ensures match f
            case Child(n) => EncField(f) == if n.Nil? then [7] else [0] + Enc(n)
            case Bare(n) => EncField(f) == Enc(n)
            case Kids(ns) => EncField(f) == [1] + FourBytes(|ns|) + EncList(ns)
            case Str(None) => EncField(f) == [2, 255, 255, 255, 255]
            case Str(Some(s)) => EncField(f) == [2] + FourBytes(|s|) + s
            case Int(v) => EncField(f)[0] == 3 && |EncField(f)| == 9 &&
                           forall k: nat :: k < 8 ==> EncField(f)[k + 1] == v / Pow256(k) % 256
            case Float(bits) => EncField(f) == [4] + bits
            case Flag(b) => EncField(f) == [5, b]
            case Op(op) => EncField(f) == [6, op]
            case Ops(ops) => EncField(f) == [|ops| % 256] + ops
            case Const(kind, v) => EncField(f) == [kind] + EncField(v)
            case Nothing => EncField(f) == []
  {
    match f
    case Kids(ns) => CountBytes(|ns|);
    case Str(None) =>
      NoStringBytes();
      assert [2] + [255, 255, 255, 255] == [2, 255, 255, 255, 255];
    case Str(Some(s)) =>
      CountBytes(|s|);
      assert [2] + (FourBytes(|s|) + s) == [2] + FourBytes(|s|) + s;
    case Int(v) =>
      forall k: nat | k < 8 ensures EncField(f)[k + 1] == v / Pow256(k) % 256 { SignedByte(v, 8, k); }
    case _ =>
  }

  /** What the serializer accepts: whatever fits the bytes it is given. */
  lemma LimitsExactly(line: int, s: seq<Byte>, v: int, ops: seq<Byte>, b: Byte, bits: seq<Byte>)
    ensures forall tag :: tag in {14, 15, 16} ==> (Encodable(Node(tag, line, [])) <==> 0 <= line <= 65535)
    ensures FieldEncodable(Str(None), KStr) && (FieldEncodable(Str(Some(s)), KStr) <==> |s| <= 2147483647)
    ensures FieldEncodable(Int(v), KInt) <==> -9223372036854775808 <= v <= 9223372036854775807
    ensures FieldEncodable(Op(b), KOp) && (FieldEncodable(Ops(ops), KOps) <==> |ops| <= 255)
    ensures FieldEncodable(Child(Nil), KChild) && !FieldEncodable(Bare(Nil), KBare) && !ListEncodable([Nil])
    ensures ConstEncodable(0, Int(v)) <==> FieldEncodable(Int(v), KInt)
    ensures ConstEncodable(1, Float(bits)) <==> |bits| == 8
    ensures ConstEncodable(2, Str(Some(s))) <==> |s| <= 2147483647
    ensures ConstEncodable(3, Flag(b)) <==> b == 0 || b == 1
    ensures ConstEncodable(4, Nothing) && ConstEncodable(5, Nothing)
  {
    Powers();
    assert Pow256(8) == 256 * Pow256(7) && Pow256(7) == 256 * Pow256(6);
    assert Pow256(6) == 256 * Pow256(5) && Pow256(5) == 256 * Pow256(4);
  }

  /** Bytes that are no encoding: a node cut off in its header or with a tag of no shape, and a field with a byte for no
      form, make the Python reader raise; the C reader leaves the payload of an unknown tag empty. */
  lemma MalformedIsRejected(bs: seq<Byte>, tag: Byte, rd: Reader)
    ensures |bs| < 3 ==> DecNode(rd, bs) == None
    ensures Shape(tag) == None ==> DecPayload(Py, tag, bs) == None && DecPayload(C, tag, bs) == Some(([], bs))
    ensures tag > 7 ==> DecForm(rd, tag, bs) == None
    ensures |bs| < 4 ==> DecStr(rd, bs) == None && DecForm(rd, 1, bs) == None
  {
  }

  /** A string of any negative length is no string. */
  lemma NegativeLength(rd: Reader, n: int, rest: seq<Byte>)
    requires n < 0 && FitsSigned(n, 4)
    ensures DecStr(rd, SignedLE(n, 4) + rest) == Some((None, rest))
  {
    SignedRoundTrip(n, 4);
    TakePrefix(SignedLE(n, 4), rest);
  }

  /** Of a string that is cut off the Python reader takes what is there, the C reader fails. */
  lemma CutOffString(n: nat, rest: seq<Byte>)
    requires FitsSigned(n, 4) && |rest| < n
    ensures DecStr(Py, SignedLE(n, 4) + rest) == Some((Some(rest), []))
    ensures DecStr(C, SignedLE(n, 4) + rest) == None
  {
    SignedRoundTrip(n, 4);
    TakePrefix(SignedLE(n, 4), rest);
  }

  // ---- Payload structs ----------------------------------------------------------------------

  /** C types of members: AstNode*, AstNodeList, NrStr*, uint8_t, uint8_t*, int32_t, int64_t, double. */
  datatype Member = NODE | LIST | STRING | BYTE | BYTES | COUNT | LONG | DOUBLE

  /** The members of the payload struct by tag, in groups: the bytes of several operators with their count, a constant's
      kind with its three values. Break, continue and pass have no struct. */
  function Header(tag: nat): Option<seq<seq<Member>>> {
    match tag
    case 0 => Some([[LIST]])
    case 1 => Some([[STRING], [NODE], [LIST], [LIST], [NODE]])
    case 2 => Some([[STRING], [LIST], [LIST], [LIST], [LIST]])
    case 3 => Some([[NODE]])
    case 4 => Some([[NODE]])
    case 5 => Some([[NODE]])
    case 6 => Some([[NODE], [LIST], [LIST]])
    case 7 => Some([[NODE], [LIST]])
    case 8 => Some([[NODE], [NODE], [LIST]])
    case 9 => Some([[LIST], [LIST]])
    case 10 => Some([[LIST], [NODE]])
    case 11 => Some([[NODE], [BYTE], [NODE]])
    case 12 => Some([[NODE], [NODE], [NODE]])
    case 13 => Some([[NODE], [NODE]])
    case 14 => Some([])
    case 15 => Some([])
    case 16 => Some([])
    case 17 => Some([[LIST]])
    case 18 => Some([[STRING], [LIST]])
    case 19 => Some([[NODE], [LIST]])
    case 30 => Some([[BYTE, LONG, DOUBLE, STRING]])
    case 31 => Some([[STRING]])
    case 32 => Some([[NODE], [LIST], [LIST]])
    case 33 => Some([[NODE], [STRING]])
    case 34 => Some([[NODE], [NODE]])
    case 35 => Some([[NODE], [BYTE], [NODE]])
    case 36 => Some([[BYTE], [NODE]])
    case 37 => Some([[BYTE], [LIST]])
    case 38 => Some([[NODE], [BYTES, COUNT], [LIST]])
    case 39 => Some([[NODE], [NODE], [NODE]])
    case 40 => Some([[LIST]])
    case 41 => Some([[LIST]])
    case 42 => Some([[LIST]])
    case 43 => Some([[LIST], [LIST]])
    case 44 => Some([[LIST]])
    case 45 => Some([[NODE], [LONG], [NODE]])
    case 46 => Some([[NODE], [LIST]])
    case 47 => Some([[NODE], [NODE]])
    case 60 => Some([[LIST], [NODE], [LIST]])
    case 61 => Some([[STRING], [NODE]])
    case 62 => Some([[STRING], [NODE]])
    case 63 => Some([[STRING], [STRING]])
    case 64 => Some([[NODE], [NODE], [LIST]])
    case 65 => Some([[NODE], [NODE]])
    case 66 => Some([[NODE], [NODE], [LIST]])
    case 67 => Some([[NODE]])
    case 68 => Some([[LIST]])
    case 69 => Some([[NODE], [STRING]])
    case _ => None
  }

  /** The members that a field of this kind fills. */
  function MembersOf(k: Kind): seq<Member> {
    match k
    case KChild => [NODE]
    case KBare => [NODE]
    case KKids => [LIST]
    case KStr => [STRING]
    case KInt => [LONG]
    case KOp => [BYTE]
    case KOps => [BYTES, COUNT]
    case KConst => [BYTE, LONG, DOUBLE, STRING]
  }

  predicate SameAsHeader(tag: nat) {
    match Shape(tag)
    case None => Header(tag) == None
    case Some(ks) => Header(tag).Some? && Fill(ks, Header(tag).value)
  }

  predicate Fill(ks: seq<Kind>, groups: seq<seq<Member>>) {
    |ks| == |groups| && forall i :: 0 <= i < |ks| ==> groups[i] == MembersOf(ks[i])
  }

  /** The shapes of the format and the structs of the header are the same, member by member. */
  lemma ShapesAreStructs(tag: nat)
    ensures SameAsHeader(tag)
  {
    if tag < 20 { ShapesTo20(tag); }
    else if tag < 36 { ShapesTo36(tag); }
    else if tag < 48 { ShapesTo48(tag); }
    else { ShapesBeyond(tag); }
  }

  lemma ShapesTo20(tag: nat)
    requires tag < 20
    ensures SameAsHeader(tag)
  {
  }

  lemma ShapesTo36(tag: nat)
    requires 20 <= tag < 36
    ensures SameAsHeader(tag)
  {
  }

  lemma ShapesTo48(tag: nat)
    requires 36 <= tag < 48
    ensures SameAsHeader(tag)
  {
  }

  lemma ShapesBeyond(tag: nat)
    requires tag >= 48
    ensures SameAsHeader(tag)
  {
  }

  function AllMembers(groups: seq<seq<Member>>): seq<Member> {
    if groups == [] then [] else AllMembers(groups[..|groups| - 1]) + groups[|groups| - 1]
  }

  // ---- Their sizes --------------------------------------------------------------------------

  function TypeOf(m: Member): L.CType {
    match m
    case LIST => L.Struct([L.Field("items", L.Pointer), L.Field("count", L.Scalar(L.W4))])
    case BYTE => L.Scalar(L.W1)
    case COUNT => L.Scalar(L.W4)
    case LONG => L.Scalar(L.W8)
    case DOUBLE => L.Scalar(L.W8)
    case _ => L.Pointer
  }

  /** Alignment and size on an LP64 target. */
  function InfoOf(m: Member): L.Info {
    match m
    case LIST => L.Info(8, 16)
    case BYTE => L.Info(1, 1)
    case COUNT => L.Info(4, 4)
    case _ => L.Info(8, 8)
  }

  function InfosOf(ms: seq<Member>): (r: seq<L.Info>)
    ensures |r| == |ms|
  {
    seq(|ms|, i requires 0 <= i < |ms| => InfoOf(ms[i]))
  }

  lemma DoubleAligned(n: nat, a: nat)
    requires L.Aligned(n, a) && a > 0
    ensures L.Aligned(2 * n, 2 * a)
  {
    assert 2 * n % 2 == 0 && 2 * n / 2 == n && 2 * a / 2 == a;
  }

  lemma InfoIsSound(m: Member)
    ensures L.Sound(InfoOf(m))
  {
    L.PowersUpTo8();
    MultipleOf8(1);
    MultipleOf8(2);
    assert L.Aligned(4, 4) && L.Aligned(1, 1);
  }

  /** Where a struct of these members ends before it is padded, in slots of eight bytes and bytes, and its alignment. */
  datatype Spot = Spot(slots: nat, bytes: nat, align: nat)

  function End(at: Spot): nat { 8 * at.slots + at.bytes }

  function Place(ms: seq<Member>): Spot {
    if ms == [] then Spot(0, 0, 1) else After(Place(ms[..|ms| - 1]), ms[|ms| - 1])
  }

  /** The next slot. */
  function Next(at: Spot): nat { if at.bytes == 0 then at.slots else at.slots + 1 }

  function After(at: Spot, m: Member): Spot {
    match m
    case BYTE => if at.bytes == 7 then Spot(at.slots + 1, 0, at.align) else Spot(at.slots, at.bytes + 1, at.align)
    case COUNT =>
      var k := if at.align >= 4 then at.align else 4;
      if at.bytes == 0 then Spot(at.slots, 4, k)
      else if at.bytes <= 4 then Spot(at.slots + 1, 0, k)
      else Spot(at.slots + 1, 4, k)
    case LIST => Spot(Next(at) + 2, 0, 8)
    case _ => Spot(Next(at) + 1, 0, 8)
  }

  predicate Proper(at: Spot) { at.bytes < 8 && (at.align == 1 || at.align == 4 || at.align == 8) }

  lemma {:induction false} PlaceStands(ms: seq<Member>)
    ensures Proper(Place(ms)) && A.Stands(InfosOf(ms), End(Place(ms)), Place(ms).align)
    decreases |ms|
  {
    if ms == [] {
      P.NothingStands();
      assert InfosOf(ms) == [];
    } else {
      var front, m := ms[..|ms| - 1], ms[|ms| - 1];
      PlaceStands(front);
      InfosMore(ms, front, m);
      MemberStands(InfosOf(front), Place(front), m, InfosOf(ms));
    }
  }

  lemma InfosMore(ms: seq<Member>, front: seq<Member>, m: Member)
    requires ms == front + [m]
    ensures InfosOf(ms) == InfosOf(front) + [InfoOf(m)]
  {
  }

  lemma MemberStands(fs: seq<L.Info>, at: Spot, m: Member, more: seq<L.Info>)
    requires Proper(at) && A.Stands(fs, End(at), at.align) && more == fs + [InfoOf(m)]
    ensures Proper(After(at, m)) && A.Stands(more, End(After(at, m)), After(at, m).align)
  {
    InfoIsSound(m);
    var start := Start(at, m);
    StartIsAligned(at, m);
    P.Next(fs, End(at), at.align, InfoOf(m), start, more);
  }

  /** Where a member of this type goes. */
  function Start(at: Spot, m: Member): nat {
    match m
    case BYTE => End(at)
    case COUNT => if at.bytes == 0 then 8 * at.slots else if at.bytes <= 4 then 8 * at.slots + 4 else 8 * at.slots + 8
    case _ => 8 * Next(at)
  }

  lemma StartIsAligned(at: Spot, m: Member)
    requires Proper(at)
    ensures L.Aligned(Start(at, m), InfoOf(m).align) && End(at) <= Start(at, m) < End(at) + InfoOf(m).align
  {
    MultipleOf4(at.slots);
    MultipleOf4(at.slots + 1);
    MultipleOf8(Next(at));
  }

  lemma MultipleOf8(q: nat)
    ensures L.Aligned(8 * q, 8)
  {
    DoubleAligned(q, 1);
    DoubleAligned(2 * q, 2);
    DoubleAligned(4 * q, 4);
  }

  lemma MultipleOf4(q: nat)
    ensures L.Aligned(8 * q, 4) && L.Aligned(8 * q + 4, 4)
  {
    DoubleAligned(2 * q, 1);
    DoubleAligned(4 * q, 2);
    DoubleAligned(2 * q + 1, 1);
    DoubleAligned(4 * q + 2, 2);
  }

  lemma PlaceMore(ms: seq<Member>, m: Member, more: seq<Member>)
    requires more == ms + [m]
    ensures Place(more) == After(Place(ms), m)
  {
  }

  /** Whole slots have been used but for the end of the last one. */
  predicate Slotted(at: Spot, ks: seq<Kind>) {
    && (at.align == 1 || at.align == 8) && at.bytes < 8 && PayloadSize(ks) == 8 * Next(at)
    && (ks == [] || !Loose(ks[|ks| - 1]) ==> at.bytes == 0)
    && (at.align == 1 ==> forall i :: 0 <= i < |ks| ==> ks[i].KOp?)
  }

  /** Kinds that do not fill their last slot. */
  predicate Loose(k: Kind) { k.KOp? || k.KOps? }

  /** No byte member starts in such a slot. */
  predicate BytesAlone(ks: seq<Kind>) {
    forall i :: 0 < i < |ks| && (ks[i].KOp? || ks[i].KConst?) ==> !Loose(ks[i - 1])
  }

  lemma {:induction false} PayloadMore(ks: seq<Kind>, k: Kind)
    ensures PayloadSize(ks + [k]) == PayloadSize(ks) + SlotSize(k)
  {
    if ks == [] {
      assert ks + [k] == [k] && [k][1..] == [];
    } else {
      assert (ks + [k])[1..] == ks[1..] + [k];
      PayloadMore(ks[1..], k);
    }
  }

  lemma {:induction false} SlotsPlaced(ks: seq<Kind>, groups: seq<seq<Member>>)
    requires BytesAlone(ks) && Fill(ks, groups)
    ensures Slotted(Place(AllMembers(groups)), ks)
    decreases |ks|
  {
    if ks != [] {
      var front, last, before := ks[..|ks| - 1], ks[|ks| - 1], groups[..|ks| - 1];
      assert ks == front + [last];
      assert Fill(front, before) && BytesAlone(front);
      SlotsPlaced(front, before);
      PayloadMore(front, last);
      SlotPlaced(AllMembers(before), last, AllMembers(groups));
    }
  }

  lemma SlotPlaced(ms: seq<Member>, last: Kind, all: seq<Member>)
    requires all == ms + MembersOf(last) && Place(ms).bytes < 8
    requires (Place(ms).align == 1 || Place(ms).align == 8) && (last.KOp? || last.KConst? ==> Place(ms).bytes == 0)
    ensures Place(all).align == if last.KOp? then Place(ms).align else 8
    ensures 8 * Next(Place(all)) == 8 * Next(Place(ms)) + SlotSize(last)
    ensures Place(all).bytes < 8 && (!Loose(last) ==> Place(all).bytes == 0)
  {
    match last
    case KOps => OpsPlaced(ms, ms + [BYTES], all);
    case KConst => ConstPlaced(ms, ms + [BYTE], ms + [BYTE] + [LONG], ms + [BYTE] + [LONG] + [DOUBLE], all);
    case _ => PlaceMore(ms, MembersOf(last)[0], all);
  }

  lemma OpsPlaced(ms: seq<Member>, a: seq<Member>, b: seq<Member>)
    requires a == ms + [BYTES] && b == a + [COUNT]
    ensures Place(b) == Spot(Next(Place(ms)) + 1, 4, 8)
  {
    PlaceMore(ms, BYTES, a);
    PlaceMore(a, COUNT, b);
  }

  lemma ConstPlaced(ms: seq<Member>, a: seq<Member>, b: seq<Member>, c: seq<Member>, d: seq<Member>)
    requires a == ms + [BYTE] && b == a + [LONG] && c == b + [DOUBLE] && d == c + [STRING]
    requires Place(ms).bytes == 0
    ensures Place(d) == Spot(Place(ms).slots + 4, 0, 8)
  {
    PlaceMore(ms, BYTE, a);
    PlaceMore(a, LONG, b);
    PlaceMore(b, DOUBLE, c);
    PlaceMore(c, STRING, d);
  }

  lemma TypeHasInfo(m: Member)
    ensures L.FieldInfo(TypeOf(m)) == Some(InfoOf(m))
  {
    if m == LIST {
      var fs := [L.Field("items", L.Pointer), L.Field("count", L.Scalar(L.W4))];
      A.TwoInfos(fs[0], fs[1], L.Info(8, 8), L.Info(4, 4));
      ListSize([BYTES, COUNT]);
      assert InfosOf([BYTES, COUNT]) == [L.Info(8, 8), L.Info(4, 4)];
    }
  }

  lemma ListSize(ms: seq<Member>)
    requires ms == [BYTES, COUNT]
    ensures L.AllSound(InfosOf(ms)) && L.MaxAlign(InfosOf(ms)) == 8 && L.SizeOf(InfosOf(ms)) == 16
  {
    PlaceMore([], BYTES, [BYTES]);
    PlaceMore([BYTES], COUNT, ms);
    PlaceStands(ms);
    MultipleOf8(2);
    P.SizeAt(InfosOf(ms), 12, 8, 16);
  }

  /** A payload struct as the layout rules see it. */
  function StructOf(ms: seq<Member>): L.CType {
    L.Struct(seq(|ms|, i requires 0 <= i < |ms| => L.Field("", TypeOf(ms[i]))))
  }

  lemma StructHasInfos(ms: seq<Member>)
    ensures var s := StructOf(ms); L.Infos(s.fields) == Some(InfosOf(ms))
  {
    var fs := StructOf(ms).fields;
    forall i | 0 <= i < |fs| ensures L.FieldInfo(fs[i].t) == Some(InfoOf(ms[i])) { TypeHasInfo(ms[i]); }
    L.InfosAre(fs);
    assert L.Infos(fs).value == InfosOf(ms);
  }

  /** The arena memory taken for a payload is sizeof of its struct in the header. */
  lemma PayloadIsSizeof(tag: nat)
    requires Header(tag).Some? && Header(tag).value != []
    ensures L.FieldInfo(StructOf(AllMembers(Header(tag).value))) == Some(L.Info(8, PayloadOf(tag)))
  {
    var ks, ms := Shape(tag).value, AllMembers(Header(tag).value);
    ShapesAreStructs(tag);
    ShapesAreOrderly(tag);
    SlotsPlaced(ks, Header(tag).value);
    assert Place(ms).align == 8;
    PlacedSize(ms);
  }

  lemma PlacedSize(ms: seq<Member>)
    requires Place(ms).align == 8
    ensures L.FieldInfo(StructOf(ms)) == Some(L.Info(8, 8 * Next(Place(ms))))
  {
    PlaceStands(ms);
    StructHasInfos(ms);
    EndOfSlot(InfosOf(ms), Place(ms));
  }

  lemma EndOfSlot(fs: seq<L.Info>, at: Spot)
    requires Proper(at) && at.align == 8 && A.Stands(fs, End(at), 8)
    ensures L.MaxAlign(fs) == 8 && L.SizeOf(fs) == 8 * Next(at)
  {
    L.PowersUpTo8();
    MultipleOf8(Next(at));
    P.SizeAt(fs, End(at), 8, 8 * Next(at));
  }

  /** Of the struct of every node: tag, line and payload pointer. */
  lemma NodeIsSizeof()
    ensures var fs := [L.Field("tag", L.Scalar(L.W1)), L.Field("lineno", L.Scalar(L.W2)), L.Field("data", L.Pointer)];
            L.FieldInfo(L.Struct(fs)) == Some(L.Info(8, NODE_SIZE))
  {
    var fs := [L.Field("tag", L.Scalar(L.W1)), L.Field("lineno", L.Scalar(L.W2)), L.Field("data", L.Pointer)];
    var tag, line, data := L.Info(1, 1), L.Info(2, 2), L.Info(8, 8);
    A.ThreeInfos(fs[0], fs[1], fs[2], tag, line, data);
    NodeStands(tag, line, data, [tag], [tag, line], [tag, line, data]);
  }

  lemma NodeStands(tag: L.Info, line: L.Info, data: L.Info, a: seq<L.Info>, b: seq<L.Info>, c: seq<L.Info>)
    requires tag == L.Info(1, 1) && line == L.Info(2, 2) && data == L.Info(8, 8)
    requires a == [tag] && b == a + [line] && c == b + [data]
    ensures L.AllSound(c) && L.MaxAlign(c) == 8 && L.SizeOf(c) == NODE_SIZE
  {
    P.NothingStands();
    L.PowersUpTo8();
    MultipleOf8(0);
    MultipleOf8(1);
    MultipleOf8(2);
    DoubleAligned(1, 1);
    P.Next([], 0, 1, tag, 0, a);
    P.Next(a, 1, 1, line, 2, b);
    P.Next(b, 4, 2, data, 8, c);
    P.SizeAt(c, 16, 8, 16);
  }

  lemma ShapesAreOrderly(tag: nat)
    requires Shape(tag).Some? && Shape(tag).value != []
    ensures BytesAlone(Shape(tag).value) && exists i :: 0 <= i < |Shape(tag).value| && !Shape(tag).value[i].KOp?
  {
    var ks := Shape(tag).value;
    if ks[0].KOp? { assert !ks[1].KOp?; } else { assert !ks[0].KOp?; }
  }
}
