// The codec in its own form: the serializer appending to a buffer, the Python reader advancing a
// position, and the C reader filling an arena.
module AstReaders {
  import opened Bytes
  import opened BinaryIO
  import opened AstFormat
  import opened AstRoundTrip
  import opened AstArena
  import opened Wrappers

  const MAGIC: seq<Byte> := [0x4D, 0x50, 0x59, 0x41] // "MPYA"

  // ---- AstSerializer ------------------------------------------------------------------------

  /** `ok == false` stands for the exception the original raises. */
  class AstSerializer {
    var buf: seq<Byte>

    constructor ()
      ensures buf == []
    {
      buf := [];
    }

    method Serialize(n: Ast) returns (ok: bool)
      modifies this
      ensures ok <==> Encodable(n)
      ensures ok ==> buf == old(buf) + Enc(n)
      decreases n, 0
    {
      if n.Nil? { return false; }
      var shape := Shape(n.tag);
      if shape.None? || !(0 <= n.line < 0x1_0000) { return false; }
      ModShift(n.line, 0x1_0000);
      var header := [n.tag % 256] + LE(n.line, 2);
      buf := buf + header;
      ok := WriteFields(n.fields, shape.value);
      assert Enc(n) == header + EncFields(n.fields);
    }

    method WriteFields(fs: seq<Field>, ks: seq<Kind>) returns (ok: bool)
      modifies this
      ensures ok <==> FieldsEncodable(fs, ks)
      ensures ok ==> buf == old(buf) + EncFields(fs)
      decreases fs, 1
    {
      if |fs| != |ks| { return false; }
      if fs == [] { return true; }
      ok := WriteField(fs[0], ks[0]);
      if !ok { return; }
      ok := WriteFields(fs[1..], ks[1..]);
      Regroup(old(buf), EncField(fs[0]), EncFields(fs[1..]));
    }

    method WriteField(f: Field, k: Kind) returns (ok: bool)
      modifies this
      ensures ok <==> FieldEncodable(f, k)
      ensures ok ==> buf == old(buf) + EncField(f)
      decreases f, 2
    {
      if k == KChild && f.Child? {
        if f.n.Nil? {
          buf := buf + [FK_NONE];
          return true;
        }
        buf := buf + [FK_NODE];
        ok := Serialize(f.n);
      } else if k == KBare && f.Bare? {
        ok := Serialize(f.n);
      } else if k == KKids && f.Kids? {
        if |f.ns| > INT32_MAX { return false; }
        buf := buf + [FK_NODE_LIST] + SignedLE(|f.ns|, 4);
        ok := WriteList(f.ns);
      } else {
        ok := FieldEncodable(f, k);
        if ok { buf := buf + EncField(f); }
      }
    }

    method WriteList(ns: seq<Ast>) returns (ok: bool)
      modifies this
      ensures ok <==> ListEncodable(ns)
      ensures ok ==> buf == old(buf) + EncList(ns)
      decreases ns, 1
    {
      var i := 0;
      while i < |ns|
        invariant 0 <= i <= |ns|
        invariant ListEncodable(ns) <==> ListEncodable(ns[i..])
        invariant buf + EncList(ns[i..]) == old(buf) + EncList(ns)
      {
        ghost var before := buf;
        ok := Serialize(ns[i]);
        if !ok { return; }
        assert ns[i..][1..] == ns[i + 1..];
        assert before + EncList(ns[i..]) == buf + EncList(ns[i + 1..]);
        i := i + 1;
      }
      assert buf + [] == buf;
      ok := true;
    }
  }

  // ---- AstDeserializer ----------------------------------------------------------------------

  /** A read result and the bytes left agree with what a decoder function says. */
  ghost predicate Agrees<T(!new)>(res: Option<T>, rest: seq<Byte>, spec: Option<(T, seq<Byte>)>) {
    match spec
    case None => res == None
    case Some((v, left)) => res == Some(v) && rest == left
  }

  lemma NextItem(rd: Reader, items: seq<Ast>, count: int, bs: seq<Byte>, n: Option<Ast>, rest: seq<Byte>)
    requires count > 0 && Agrees(n, rest, DecNode(rd, bs))
    ensures n.None? ==> Prepend(items, DecList(rd, count, bs)) == None
    ensures n.Some? ==>
            && |rest| <= |bs|
            && Prepend(items, DecList(rd, count, bs)) == Prepend(items + [n.value], DecList(rd, count - 1, rest))
  {
    if n.Some? { PrependStep(items, n.value, DecList(rd, count - 1, rest)); }
  }

  lemma NoItems(rd: Reader, items: seq<Ast>, count: int, bs: seq<Byte>)
    requires count <= 0
    ensures Prepend(items, DecList(rd, count, bs)) == Some((items, bs))
  {
    PrependStep(items, Nil, DecList(rd, count, bs));
  }

  class AstDeserializer {
    const data: seq<Byte>
    var pos: nat

    /** The bytes still to read: none when a string has moved the position past the end. */
    ghost function Rest(): (s: seq<Byte>)
      reads this
    {
      if pos <= |data| then data[pos..] else []
    }

    constructor (data: seq<Byte>)
      ensures this.data == data && Rest() == data
    {
      this.data, pos := data, 0;
    }

    method ReadBytes(n: int) returns (r: Option<seq<Byte>>)
      modifies this
      ensures Agrees(r, Rest(), Take(old(Rest()), n))
      ensures r.Some? && n > 0 ==> pos <= |data|
    {
      if n == 0 { return Some([]); }
      if n < 0 || pos + n > |data| { return None; }
      assert data[pos..][..n] == data[pos..pos + n] && data[pos..][n..] == data[pos + n..];
      r := Some(data[pos..pos + n]);
      pos := pos + n;
    }

    /** The slice ends where the data does; the position moves on by the length all the same. */
    method ReadSlice(length: nat) returns (s: seq<Byte>)
      requires pos <= |data|
      modifies this
      ensures var rest := old(Rest());
              if length <= |rest| then s == rest[..length] && Rest() == rest[length..] else s == rest && Rest() == []
    {
      var end := if pos + length <= |data| then pos + length else |data|;
      s := data[pos..end];
      pos := pos + length;
    }

    method ReadStr() returns (res: Option<Option<seq<Byte>>>)
      modifies this
      ensures Agrees(res, Rest(), DecStr(Py, old(Rest())))
    {
      var l := ReadBytes(4);
      if l.None? { return None; }
      if SignedNum(l.value) < 0 { return Some(None); }
      var s := ReadSlice(SignedNum(l.value));
      res := Some(Some(s));
    }

    method ReadNode() returns (res: Option<Ast>)
      modifies this
      ensures Agrees(res, Rest(), DecNode(Py, old(Rest())))
      decreases |Rest()|, 0
    {
      var h := ReadBytes(3);
      if h.None? { return None; }
      var fs := ReadPayload(h.value[0]);
      res := if fs.None? then None else Some(Node(h.value[0], Num(h.value[1..]), fs.value));
    }

    method ReadPayload(tag: Byte) returns (res: Option<seq<Field>>)
      modifies this
      ensures Agrees(res, Rest(), DecPayload(Py, tag, old(Rest())))
      decreases |Rest()|, 5
    {
      var shape := Shape(tag);
      if shape.None? { return None; }
      res := ReadFields(shape.value);
    }

    method ReadFields(ks: seq<Kind>) returns (res: Option<seq<Field>>)
      modifies this
      ensures Agrees(res, Rest(), DecFields(Py, ks, old(Rest())))
      decreases |Rest()|, 4, |ks|
    {
      if ks == [] { return Some([]); }
      var f := ReadSlot(ks[0]);
      if f.None? { return None; }
      var fs := ReadFields(ks[1..]);
      res := if fs.None? then None else Some([f.value] + fs.value);
    }

    method ReadSlot(k: Kind) returns (res: Option<Field>)
      modifies this
      ensures Agrees(res, Rest(), DecSlot(Py, k, old(Rest())))
      decreases |Rest()|, 3
    {
      if k == KBare {
        var n := ReadNode();
        return if n.None? then None else Some(Bare(n.value));
      }
      var b := ReadBytes(1);
      if b.None? { return None; }
      if k == KOps {
        var ops := ReadBytes(b.value[0]);
        return if ops.None? then None else Some(Ops(ops.value));
      }
      if k == KConst {
        if ConstForm(b.value[0]).None? { return Some(Const(b.value[0], Nothing)); }
        var fk := ReadBytes(1);
        if fk.None? { return None; }
        var v := ReadForm(fk.value[0]);
        return if v.None? then None else Some(Const(b.value[0], v.value));
      }
      res := ReadForm(b.value[0]);
    }

    /** _read_field, after the kind byte. */
    method ReadForm(fk: Byte) returns (res: Option<Field>)
      modifies this
      ensures Agrees(res, Rest(), DecForm(Py, fk, old(Rest())))
      decreases |Rest()|, 2
    {
      if fk == FK_NONE {
        res := Some(Child(Nil));
      } else if fk == FK_NODE {
        var n := ReadNode();
        res := if n.None? then None else Some(Child(n.value));
      } else if fk == FK_NODE_LIST {
        var c := ReadBytes(4);
        if c.None? { return None; }
        var ns := ReadList(SignedNum(c.value));
        res := if ns.None? then None else Some(Kids(ns.value));
      } else if fk == FK_STRING {
        var s := ReadStr();
        res := if s.None? then None else Some(Str(s.value));
      } else if fk == FK_INT {
        var v := ReadBytes(8);
        res := if v.None? then None else Some(Int(SignedNum(v.value)));
      } else if fk == FK_FLOAT {
        var v := ReadBytes(8);
        res := if v.None? then None else Some(Float(v.value));
      } else if fk == FK_BOOL {
        var v := ReadBytes(1);
        res := if v.None? then None else Some(Flag(if v.value[0] == 0 then 0 else 1));
      } else if fk == FK_OP {
        var v := ReadBytes(1);
        res := if v.None? then None else Some(Op(v.value[0]));
      } else {
        res := None;
      }
    }

    method ReadList(count: int) returns (res: Option<seq<Ast>>)
      modifies this
      ensures Agrees(res, Rest(), DecList(Py, count, old(Rest())))
      decreases |Rest()|, 1
    {
      ghost var start := Rest();
      var items: seq<Ast> := [];
      PrependNothing(DecList(Py, count, start));
      var i := 0;
      while i < count
        invariant |Rest()| <= |start| && 0 <= i && (i <= count || i == 0)
        invariant DecList(Py, count, start) == Prepend(items, DecList(Py, count - i, Rest()))
      {
        ghost var before := Rest();
        var n := ReadNode();
        NextItem(Py, items, count - i, before, n, Rest());
        if n.None? { return None; }
        items := items + [n.value];
        i := i + 1;
      }
      NoItems(Py, items, count - i, Rest());
      res := Some(items);
    }
  }

  // ---- The C reader -------------------------------------------------------------------------

  class NrArena {
    var size: nat
    var offset: nat
    var moved: bool // realloc has run: earlier allocations may have moved

    constructor (size: nat)
      ensures this.size == size && offset == 0 && !moved
    {
      this.size, offset, moved := size, 0, false;
    }

    method Alloc(bytes: nat) returns (at: nat)
      requires size > 0
      modifies this
      ensures at == old(offset) && Grew(old(size), old(offset), old(moved), Round8(bytes), size, offset, moved)
      ensures offset <= size == Doubled(old(size), offset)
      ensures moved == (old(moved) || size != old(size))
    {
      var aligned := (bytes + 7) / 8 * 8;
      if offset + aligned > size {
        while offset + aligned > size
          invariant size >= old(size) > 0 && offset == old(offset)
          invariant Doubled(size, offset + aligned) == Doubled(old(size), offset + aligned)
          decreases offset + aligned - size
        {
          size := size * 2;
        }
        moved := true;
      }
      at := offset;
      offset := offset + aligned;
    }
  }

  /** The size after doubling until `need` bytes fit. */
  function Doubled(size: nat, need: nat): (r: nat)
    requires size > 0
    ensures r >= need && r >= size && (r > size ==> r < 2 * need)
    decreases need - size
  {
    if need > size then Doubled(size * 2, need) else size
  }

  /** The arena was bumped by `amount`, and was not reallocated if that much was left. */
  ghost predicate Grew(size0: nat, offset0: nat, moved0: bool, amount: nat, size: nat, offset: nat, moved: bool) {
    && offset == offset0 + amount && size >= size0
    && (offset0 + amount <= size0 ==> size == size0 && moved == moved0)
  }

  lemma GrewMore(size0: nat, offset0: nat, moved0: bool, amount: nat, size: nat, offset: nat, moved: bool, more: nat,
                 size1: nat, offset1: nat, moved1: bool)
    requires Grew(size0, offset0, moved0, amount, size, offset, moved)
    requires Grew(size, offset, moved, more, size1, offset1, moved1)
    ensures Grew(size0, offset0, moved0, amount + more, size1, offset1, moved1)
  {
  }

  /** As for the Python reader, and the arena took exactly the footprint of the result. */
  method ReadNode(r: NrReader, arena: NrArena) returns (res: Option<Ast>)
    requires r.Valid() && arena.size > 0
    modifies r, arena
    ensures r.Valid() && r.pos >= old(r.pos)
    ensures Agrees(res, r.Rest(), DecNode(C, old(r.Rest())))
    ensures arena.size > 0
    ensures res.Some? ==>
            Grew(old(arena.size), old(arena.offset), old(arena.moved), Footprint(res.value),
                 arena.size, arena.offset, arena.moved)
    decreases |r.data| - r.pos, 0
  {
    var h := r.ReadBytes(3);
    if h.None? { return None; }
    var node := arena.Alloc(NODE_SIZE);
    var fs := ReadPayload(r, arena, h.value[0]);
    res := if fs.None? then None else Some(Node(h.value[0], Num(h.value[1..]), fs.value));
  }

  method ReadPayload(r: NrReader, arena: NrArena, tag: Byte) returns (res: Option<seq<Field>>)
    requires r.Valid() && arena.size > 0
    modifies r, arena
    ensures r.Valid() && r.pos >= old(r.pos)
    ensures Agrees(res, r.Rest(), DecPayload(C, tag, old(r.Rest())))
    ensures arena.size > 0
    ensures res.Some? ==>
            Grew(old(arena.size), old(arena.offset), old(arena.moved), PayloadOf(tag) + FieldsFootprint(res.value),
                 arena.size, arena.offset, arena.moved)
    decreases |r.data| - r.pos, 5
  {
    var shape := Shape(tag);
    if shape.None? { return Some([]); }
    var payload := arena.Alloc(PayloadOf(tag));
    Round8Multiple(PayloadOf(tag));
    res := ReadFields(r, arena, shape.value);
  }

  method ReadFields(r: NrReader, arena: NrArena, ks: seq<Kind>) returns (res: Option<seq<Field>>)
    requires r.Valid() && arena.size > 0
    modifies r, arena
    ensures r.Valid() && r.pos >= old(r.pos)
    ensures Agrees(res, r.Rest(), DecFields(C, ks, old(r.Rest())))
    ensures arena.size > 0
    ensures res.Some? ==>
            Grew(old(arena.size), old(arena.offset), old(arena.moved), FieldsFootprint(res.value),
                 arena.size, arena.offset, arena.moved)
    decreases |r.data| - r.pos, 4, |ks|
  {
    if ks == [] { return Some([]); }
    var f := ReadSlot(r, arena, ks[0]);
    if f.None? { return None; }
    var fs := ReadFields(r, arena, ks[1..]);
    res := if fs.None? then None else Some([f.value] + fs.value);
  }

  method ReadSlot(r: NrReader, arena: NrArena, k: Kind) returns (res: Option<Field>)
    requires r.Valid() && arena.size > 0
    modifies r, arena
    ensures r.Valid() && r.pos >= old(r.pos)
    ensures Agrees(res, r.Rest(), DecSlot(C, k, old(r.Rest())))
    ensures arena.size > 0
    ensures res.Some? ==>
            Grew(old(arena.size), old(arena.offset), old(arena.moved), FieldFootprint(res.value),
                 arena.size, arena.offset, arena.moved)
    decreases |r.data| - r.pos, 3
  {
    if k == KBare {
      var n := ReadNode(r, arena);
      return if n.None? then None else Some(Bare(n.value));
    }
    if k == KOps {
      res := ReadOps(r, arena);
      return;
    }
    if k == KConst {
      res := ReadConst(r, arena);
      return;
    }
    var b := r.ReadBytes(1);
    if b.None? { return None; }
    res := ReadForm(r, arena, CForm(k, b.value[0]));
  }

  method ReadOps(r: NrReader, arena: NrArena) returns (res: Option<Field>)
    requires r.Valid() && arena.size > 0
    modifies r, arena
    ensures r.Valid() && r.pos >= old(r.pos)
    ensures Agrees(res, r.Rest(), DecSlot(C, KOps, old(r.Rest())))
    ensures arena.size > 0
    ensures res.Some? ==>
            Grew(old(arena.size), old(arena.offset), old(arena.moved), FieldFootprint(res.value),
                 arena.size, arena.offset, arena.moved)
  {
    var b := r.ReadBytes(1);
    if b.None? { return None; }
    var at := arena.Alloc(b.value[0]);
    var ops := r.ReadBytes(b.value[0]);
    res := if ops.None? then None else Some(Ops(ops.value));
  }

  method ReadConst(r: NrReader, arena: NrArena) returns (res: Option<Field>)
    requires r.Valid() && arena.size > 0
    modifies r, arena
    ensures r.Valid() && r.pos >= old(r.pos)
    ensures Agrees(res, r.Rest(), DecSlot(C, KConst, old(r.Rest())))
    ensures arena.size > 0
    ensures res.Some? ==>
            Grew(old(arena.size), old(arena.offset), old(arena.moved), FieldFootprint(res.value),
                 arena.size, arena.offset, arena.moved)
    decreases |r.data| - r.pos, 2
  {
    var b := r.ReadBytes(1);
    if b.None? { return None; }
    if ConstForm(b.value[0]).None? { return Some(Const(b.value[0], Nothing)); }
    var fk := r.ReadBytes(1);
    if fk.None? { return None; }
    var v := ReadForm(r, arena, ConstForm(b.value[0]).value);
    res := if v.None? then None else Some(Const(b.value[0], v.value));
  }

  method ReadForm(r: NrReader, arena: NrArena, fk: Byte) returns (res: Option<Field>)
    requires r.Valid() && arena.size > 0
    modifies r, arena
    ensures r.Valid() && r.pos >= old(r.pos)
    ensures Agrees(res, r.Rest(), DecForm(C, fk, old(r.Rest())))
    ensures arena.size > 0
    ensures res.Some? ==>
            Grew(old(arena.size), old(arena.offset), old(arena.moved), FieldFootprint(res.value),
                 arena.size, arena.offset, arena.moved)
    decreases |r.data| - r.pos, 2
  {
    match fk
    case 0 =>
      var n := ReadNode(r, arena);
      res := if n.None? then None else Some(Child(n.value));
    case 1 =>
      var c := r.ReadBytes(4);
      if c.None? { return None; }
      var ns := ReadNodeList(r, arena, SignedNum(c.value));
      res := if ns.None? then None else Some(Kids(ns.value));
    case 2 => res := ReadStr(r, arena);
    case 3 =>
      var v := r.ReadBytes(8);
      res := if v.None? then None else Some(Int(SignedNum(v.value)));
    case 4 =>
      var v := r.ReadBytes(8);
      res := if v.None? then None else Some(Float(v.value));
    case 5 =>
      var v := r.ReadBytes(1);
      res := if v.None? then None else Some(Flag(v.value[0]));
    case 6 =>
      var v := r.ReadBytes(1);
      res := if v.None? then None else Some(Op(v.value[0]));
    case 7 => res := Some(Child(Nil));
    case _ => res := None;
  }

  /** ast_read_str: a temporary NUL-terminated copy, then nr_arena_str_new, which measures with strlen. */
  method ReadStr(r: NrReader, arena: NrArena) returns (res: Option<Field>)
    requires r.Valid() && arena.size > 0
    modifies r, arena
    ensures r.Valid() && r.pos >= old(r.pos)
    ensures Agrees(res, r.Rest(), DecForm(C, FK_STRING, old(r.Rest())))
    ensures arena.size > 0
    ensures res.Some? ==>
            Grew(old(arena.size), old(arena.offset), old(arena.moved), FieldFootprint(res.value),
                 arena.size, arena.offset, arena.moved)
  {
    var l := r.ReadBytes(4);
    if l.None? { return None; }
    if SignedNum(l.value) < 0 { return Some(Str(None)); }
    var s := r.ReadBytes(SignedNum(l.value));
    if s.None? { return None; }
    var str := ArenaStrNew(arena, s.value);
    res := Some(Str(Some(str)));
  }

  /** nr_arena_str_new on a NUL-terminated copy of s. */
  method ArenaStrNew(arena: NrArena, s: seq<Byte>) returns (str: seq<Byte>)
    requires arena.size > 0
    modifies arena
    ensures str == Cut(s) && arena.size > 0
    ensures Grew(old(arena.size), old(arena.offset), old(arena.moved), STR_SIZE + Round8(|str| + 1),
                 arena.size, arena.offset, arena.moved)
  {
    var header := arena.Alloc(STR_SIZE);
    Round8Multiple(STR_SIZE);
    var n := StrLen(s);
    var chars := arena.Alloc(n + 1);
    str := s[..n];
  }

  /** strlen of a buffer that ends in a NUL just after s. */
  method StrLen(s: seq<Byte>) returns (n: nat)
    ensures n <= |s| && s[..n] == Cut(s)
  {
    n := 0;
    while n < |s| && s[n] != 0
      invariant 0 <= n <= |s| && 0 !in s[..n]
    {
      n := n + 1;
    }
    CutAt(s, n);
  }

  lemma {:induction false} CutAt(s: seq<Byte>, n: nat)
    requires n <= |s| && 0 !in s[..n] && (n < |s| ==> s[n] == 0)
    ensures Cut(s) == s[..n]
  {
    if n > 0 {
      assert s[0] in s[..n];
      assert s[1..][..n - 1] == s[..n][1..];
      CutAt(s[1..], n - 1);
      assert s[..n] == [s[0]] + s[1..][..n - 1];
    }
  }

  method ReadNodeList(r: NrReader, arena: NrArena, count: int) returns (res: Option<seq<Ast>>)
    requires r.Valid() && arena.size > 0
    modifies r, arena
    ensures r.Valid() && r.pos >= old(r.pos)
    ensures Agrees(res, r.Rest(), DecList(C, count, old(r.Rest())))
    ensures arena.size > 0
    ensures res.Some? ==>
            Grew(old(arena.size), old(arena.offset), old(arena.moved), 8 * |res.value| + ListFootprint(res.value),
                 arena.size, arena.offset, arena.moved)
    decreases |r.data| - r.pos, 1, 1
  {
    if count <= 0 { return Some([]); }
    var slots := arena.Alloc(count * 8);
    ghost var size, offset, moved := arena.size, arena.offset, arena.moved;
    res := ReadNodes(r, arena, count);
    if res.Some? {
      GrewMore(old(arena.size), old(arena.offset), old(arena.moved), 8 * count, size, offset, moved,
               ListFootprint(res.value), arena.size, arena.offset, arena.moved);
    }
  }

  /** The loop over the items. */
  method ReadNodes(r: NrReader, arena: NrArena, count: nat) returns (res: Option<seq<Ast>>)
    requires r.Valid() && arena.size > 0
    modifies r, arena
    ensures r.Valid() && r.pos >= old(r.pos)
    ensures Agrees(res, r.Rest(), DecList(C, count, old(r.Rest())))
    ensures arena.size > 0
    ensures res.Some? ==>
            Grew(old(arena.size), old(arena.offset), old(arena.moved), ListFootprint(res.value),
                 arena.size, arena.offset, arena.moved)
    decreases |r.data| - r.pos, 1, 0
  {
    var items: seq<Ast> := [];
    ghost var start := r.Rest();
    PrependNothing(DecList(C, count, start));
    for i := 0 to count
      invariant r.Valid() && r.pos >= old(r.pos) && arena.size > 0
      invariant DecList(C, count, start) == Prepend(items, DecList(C, count - i, r.Rest()))
      invariant Grew(old(arena.size), old(arena.offset), old(arena.moved), ListFootprint(items),
                     arena.size, arena.offset, arena.moved)
    {
      ghost var before := r.Rest();
      ghost var size, offset, moved := arena.size, arena.offset, arena.moved;
      var n := ReadNode(r, arena);
      NextItem(C, items, count - i, before, n, r.Rest());
      if n.None? { return None; }
      ListFootprintSnoc(items, n.value);
      GrewMore(old(arena.size), old(arena.offset), old(arena.moved), ListFootprint(items), size, offset, moved,
               Footprint(n.value), arena.size, arena.offset, arena.moved);
      items := items + [n.value];
    }
    NoItems(C, items, 0, r.Rest());
    res := Some(items);
  }

  /** serialize_ast then deserialize_ast of ast_nodes.c: on every tree the serializer accepts, the C
      reader returns its view of the tree out of an arena that was never reallocated, so that no node
      it handed out has moved. */
  method SerializeThenReadInC(n: Ast) returns (res: Option<Ast>, arena: NrArena)
    ensures Encodable(n) ==>
            res == Some(View(C, n)) && !arena.moved && arena.offset == Footprint(View(C, n)) <= arena.size
    ensures !Encodable(n) ==> res == None
  {
    var w := new AstSerializer();
    w.buf := MAGIC;
    var ok := w.Serialize(n);
    if !ok {
      arena := new NrArena(0);
      return None, arena;
    }
    var buf := w.buf;
    assert buf[4..] == Enc(n);
    arena := new NrArena(|buf| * 64);
    var r := new NrReader(buf[4..]);
    assert r.Rest() == Enc(n) + [];
    CRoundTrip(n, []);
    FootprintBound(n);
    res := ReadNode(r, arena);
  }
}
