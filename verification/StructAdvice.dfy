// What the field-order advice is worth for the struct as a whole when some members have no type
// (compiler/codegen_stmts.py:301-330): their sizes are not compared.
module StructAdvice {
  import opened Wrappers
  import opened StructLayout

  /** All members' layouts. */
  function Laid(ms: seq<Member>): seq<Info> {
    if ms == [] then []
    else
      var n := |ms| - 1;
      Laid(ms[..n]) + [if ms[n].Plain? then Key(ms[n].field) else ms[n].layout]
  }

  /** ns is ms with its typed fields in the given order and the other members where they were. */
  predicate Followed(ms: seq<Member>, order: seq<Field>, ns: seq<Member>) {
    && |ns| == |ms| && Kept(ns) == order
    && forall i :: 0 <= i < |ms| ==> if ms[i].Untyped? then ns[i] == ms[i] else ns[i].Plain?
  }

  lemma {:induction false} AllTypedIsKept(ms: seq<Member>)
    requires (forall m :: m in ms ==> m.Plain?) && Infos(Kept(ms)).Some?
    ensures Laid(ms) == Infos(Kept(ms)).value
  {
    if ms != [] {
      var n := |ms| - 1;
      assert Kept(ms)[..|Kept(ms)| - 1] == Kept(ms[..n]);
      AllTypedIsKept(ms[..n]);
    }
  }

  // ---- Padding at a known place -------------------------------------------------------------

  lemma {:induction false} PowerAligned(m: nat)
    requires PowerOfTwo(m)
    ensures Aligned(m, m) && Aligned(0, m)
  {
    if m > 1 { PowerAligned(m / 2); }
  }

  lemma PadBetween(x: nat, t: nat, m: nat)
    requires PowerOfTwo(m) && Aligned(t, m) && t < x <= t + m
    ensures PadTo(x, m) == t + m && Aligned(t + m, m)
  {
    PowerAligned(m);
    AddAligned(t, m, m);
    PadIs(x, t + m, m);
  }

  lemma PadOne(x: nat)
    ensures PowerOfTwo(1) && PadTo(x, 1) == x
  {
    PadExact(x, 1);
  }

  /** One more field, as long as it starts where the caller says. */
  lemma EndMore(fs: seq<Info>, i: Info, at: nat)
    requires AllSound(fs) && Sound(i) && PadTo(End(fs), i.align) == at
    ensures AllSound(fs + [i]) && End(fs + [i]) == at + i.size
    ensures MaxAlign(fs + [i]) == if MaxAlign(fs) >= i.align then MaxAlign(fs) else i.align
  {
    assert (fs + [i])[..|fs|] == fs;
  }

  /** The fields are laid out up to end, with largest alignment m. */
  ghost predicate Stands(fs: seq<Info>, end: nat, m: nat) {
    AllSound(fs) && End(fs) == end && MaxAlign(fs) == m && m >= 1
  }

  lemma OneStands(fs: seq<Info>, end: nat, m: nat, more: seq<Info>)
    requires Stands(fs, end, m) && more == fs + [Info(1, 1)]
    ensures Stands(more, end + 1, m)
  {
    PadOne(end);
    PowerAligned(1);
    EndMore(fs, Info(1, 1), end);
  }

  /** A field of size and alignment m after the offset t, or at it. */
  lemma BigStands(fs: seq<Info>, end: nat, k: nat, t: nat, m: nat, more: seq<Info>)
    requires PowerOfTwo(m) && k <= m && Stands(fs, end, k) && Aligned(t, m) && t <= end < t + m
    requires more == fs + [Info(m, m)]
    ensures Stands(more, (if end == t then t else t + m) + m, m)
  {
    if end == t { PadExact(end, m); } else { PadBetween(end, t, m); }
    PowerAligned(m);
    EndMore(fs, Info(m, m), if end == t then t else t + m);
  }

  lemma SizeStands(fs: seq<Info>, end: nat, t: nat, m: nat)
    requires PowerOfTwo(m) && Stands(fs, end, m) && Aligned(t, m) && t < end <= t + m
    ensures SizeOf(fs) == t + m
  {
    PadBetween(end, t, m);
  }

  // ---- A member without a type in front -----------------------------------------------------

  /** Bytes saved by a best order when member u stays in front of the fields. */
  ghost predicate SavesAsAdvised(u: Info, fs: seq<Info>, best: seq<Info>)
    requires Sound(u) && AllSound(fs) && AllSound(best)
  {
    AllSound([u] + fs) && AllSound([u] + best)
    && SizeOf([u] + fs) - SizeOf([u] + best) == SizeOf(fs) - SizeOf(best)
  }

  ghost predicate BestOf(fs: seq<Info>, best: seq<Info>) { multiset(best) == multiset(fs) && Falling(best) }

  /** Multiples of the alignment move out of padding. */
  lemma PadShift(x: nat, y: nat, a: nat)
    requires PowerOfTwo(a) && Aligned(x, a)
    ensures PadTo(x + y, a) == x + PadTo(y, a)
  {
    PadToNear(y, a);
    AddAligned(x, PadTo(y, a), a);
    PadIs(x + y, x + PadTo(y, a), a);
  }

  /** Behind a block whose size is a multiple of every alignment, all fields keep their distances. */
  lemma {:induction false} EndBehind(u: Info, fs: seq<Info>, m: nat)
    requires Sound(u) && AllSound(fs) && PowerOfTwo(m) && Aligned(u.size, m)
    requires forall k :: 0 <= k < |fs| ==> fs[k].align <= m
    ensures AllSound([u] + fs) && End([u] + fs) == u.size + End(fs)
    decreases |fs|
  {
    if fs == [] {
      UnitStands(u);
      assert [u] + fs == [u];
    } else {
      var n := |fs| - 1;
      EndBehind(u, fs[..n], m);
      AlignedToLess(u.size, m, fs[n].align);
      OneBehind(u.size, fs, [u] + fs[..n], [u] + fs);
    }
  }

  lemma OneBehind(shift: nat, fs: seq<Info>, gs: seq<Info>, more: seq<Info>)
    requires AllSound(fs) && fs != [] && AllSound(gs) && Aligned(shift, fs[|fs| - 1].align)
    requires End(gs) == shift + End(fs[..|fs| - 1]) && more == gs + [fs[|fs| - 1]]
    ensures AllSound(more) && End(more) == shift + End(fs)
  {
    var i, before := fs[|fs| - 1], End(fs[..|fs| - 1]);
    assert Sound(i);
    PadShift(shift, before, i.align);
    EndMore(gs, i, shift + PadTo(before, i.align));
  }

  lemma {:induction false} MaxBehind(u: Info, fs: seq<Info>, m: nat)
    requires u.align <= m && MaxAlign(fs) == m && m >= 1
    ensures MaxAlign([u] + fs) == m
  {
    MaxAlignIs([u] + fs);
    MaxAlignIs(fs);
    if m > 1 {
      var k :| 0 <= k < |fs| && fs[k].align == m;
      assert ([u] + fs)[k + 1].align == m;
    }
    forall k | 0 <= k < |[u] + fs| ensures ([u] + fs)[k].align <= m {
      if k > 0 { assert ([u] + fs)[k] == fs[k - 1]; }
    }
  }

  lemma SizeBehind(u: Info, fs: seq<Info>, m: nat)
    requires Sound(u) && AllSound(fs) && MaxAlign(fs) == m && PowerOfTwo(m) && Aligned(u.size, m) && u.align <= m
    ensures AllSound([u] + fs) && SizeOf([u] + fs) == u.size + SizeOf(fs)
  {
    MaxAlignIs(fs);
    EndBehind(u, fs, m);
    MaxBehind(u, fs, m);
    SizeNear(fs, m);
    SizeMoves(u.size, [u] + fs, End(fs), SizeOf(fs), m);
  }

  lemma SizeMoves(shift: nat, gs: seq<Info>, end: nat, size: nat, m: nat)
    requires PowerOfTwo(m) && Aligned(shift, m) && end <= size < end + m && Aligned(size, m)
    requires Stands(gs, shift + end, m)
    ensures SizeOf(gs) == shift + size
  {
    AddAligned(shift, size, m);
    SizeIs(gs, m, shift + size);
  }

  lemma SizeNear(fs: seq<Info>, m: nat)
    requires AllSound(fs) && MaxAlign(fs) == m && PowerOfTwo(m)
    ensures End(fs) <= SizeOf(fs) < End(fs) + m && Aligned(SizeOf(fs), m)
  {
    PadToNear(End(fs), m);
  }

  lemma SizeIs(fs: seq<Info>, m: nat, size: nat)
    requires AllSound(fs) && MaxAlign(fs) == m && PowerOfTwo(m)
    requires End(fs) <= size < End(fs) + m && Aligned(size, m)
    ensures SizeOf(fs) == size
  {
    PadIs(End(fs), size, m);
  }

  /** i8, a field of size and alignment m, i8: m bytes can be saved, but behind a block that is not a multiple
      of m none. */
  function Sandwich(m: nat): seq<Info> { [Info(1, 1), Info(m, m), Info(1, 1)] }

  function Sorted3(m: nat): seq<Info> { [Info(m, m), Info(1, 1), Info(1, 1)] }

  lemma SandwichSound(m: nat)
    requires PowerOfTwo(m) && m >= 2
    ensures AllSound(Sandwich(m)) && AllSound(Sorted3(m))
  {
    PowerAligned(1);
    PowerAligned(m);
  }

  lemma SandwichSorted(m: nat)
    requires m >= 2
    ensures BestOf(Sandwich(m), Sorted3(m))
  {
    Swapped(Info(1, 1), Info(m, m), Info(1, 1), Sandwich(m), Sorted3(m));
    FallingThree(Info(m, m), Info(1, 1), Info(1, 1), Sorted3(m));
  }

  lemma Swapped(i: Info, j: Info, k: Info, fs: seq<Info>, gs: seq<Info>)
    requires fs == [i, j, k] && gs == [j, i, k]
    ensures multiset(gs) == multiset(fs)
  {
  }

  lemma FallingThree(i: Info, j: Info, k: Info, fs: seq<Info>)
    requires fs == [i, j, k] && i.align >= j.align >= k.align
    ensures Falling(fs)
  {
  }

  lemma MultipleStep(t: nat, m: nat)
    requires PowerOfTwo(m) && Aligned(t, m)
    ensures Aligned(t + m, m)
  {
    PowerAligned(m);
    AddAligned(t, m, m);
  }

  /** front, then i8, m, i8: a, b and c are the steps. */
  lemma SandwichSize(front: seq<Info>, a: seq<Info>, b: seq<Info>, c: seq<Info>, x: nat, k: nat, t: nat, m: nat)
    requires PowerOfTwo(m) && m >= 2 && k <= m && Stands(front, x, k) && Aligned(t, m) && t <= x < t + m
    requires a == front + [Info(1, 1)] && b == a + [Info(m, m)] && c == b + [Info(1, 1)]
    ensures Stands(c, t + 2 * m + 1, m) && SizeOf(c) == t + 3 * m
  {
    MultipleStep(t, m);
    MultipleStep(t + m, m);
    OneStands(front, x, k, a);
    BigStands(a, x + 1, k, if x + 1 == t + m then t + m else t, m, b);
    OneStands(b, t + m + m, m, c);
    SizeStands(c, t + m + m + 1, t + m + m, m);
  }

  /** front, then m, i8, i8. */
  lemma Sorted3Size(front: seq<Info>, a: seq<Info>, b: seq<Info>, c: seq<Info>, x: nat, k: nat, t: nat, m: nat)
    requires PowerOfTwo(m) && m >= 2 && k <= m && Stands(front, x, k) && Aligned(t, m) && t <= x < t + m
    requires a == front + [Info(m, m)] && b == a + [Info(1, 1)] && c == b + [Info(1, 1)]
    ensures var at := if x == t then t else t + m; Stands(c, at + m + 2, m) && SizeOf(c) == at + 2 * m
  {
    var at := if x == t then t else t + m;
    MultipleStep(t, m);
    MultipleStep(at, m);
    BigStands(front, x, k, t, m, a);
    OneStands(a, at + m, m, b);
    OneStands(b, at + m + 1, m, c);
    SizeStands(c, at + m + 2, at + m, m);
  }

  /** With a member u in front that the advice does not look at, it promises the right saving for every
      choice of fields of the given largest alignment exactly when there is nothing to save, or u's size is a
      multiple of that alignment and u is aligned no more strictly. */
  lemma AdviceBehindExactly(u: Info, m: nat)
    requires Sound(u) && PowerOfTwo(m)
    ensures m == 1 || (u.align <= m && Aligned(u.size, m)) <==>
            forall fs, best :: AllSound(fs) && AllSound(best) && MaxAlign(fs) == m && BestOf(fs, best) ==>
              SavesAsAdvised(u, fs, best)
  {
    if m == 1 || (u.align <= m && Aligned(u.size, m)) {
      forall fs, best | AllSound(fs) && AllSound(best) && MaxAlign(fs) == m && BestOf(fs, best)
        ensures SavesAsAdvised(u, fs, best)
      {
        if m == 1 { BytesBehind(u, fs, best); } else { FieldsBehind(u, fs, best, m); }
      }
    } else {
      SandwichSound(m);
      SandwichSorted(m);
      PowerAligned(m);
      SandwichAfter([], 0, 1, 0, m);
      assert [] + Sandwich(m) == Sandwich(m);
      if u.align <= m { SandwichNotSaved(u, m); } else { WiderNotSaved(u, m); }
    }
  }

  lemma FieldsBehind(u: Info, fs: seq<Info>, best: seq<Info>, m: nat)
    requires Sound(u) && PowerOfTwo(m) && u.align <= m && Aligned(u.size, m)
    requires AllSound(fs) && AllSound(best) && MaxAlign(fs) == m && BestOf(fs, best)
    ensures SavesAsAdvised(u, fs, best)
  {
    MaxAlignWithin(fs, best);
    MaxAlignWithin(best, fs);
    SizeBehind(u, fs, m);
    SizeBehind(u, best, m);
  }

  /** Fields of alignment 1 have no padding in any order. */
  lemma BytesBehind(u: Info, fs: seq<Info>, best: seq<Info>)
    requires Sound(u) && AllSound(fs) && AllSound(best) && MaxAlign(fs) == 1 && BestOf(fs, best)
    ensures SavesAsAdvised(u, fs, best)
  {
    MaxAlignWithin(best, fs);
    MaxAlignIs(best);
    SameSum(fs, best);
    BytesEnd(u, fs);
    BytesEnd(u, best);
  }

  lemma BytesEnd(u: Info, fs: seq<Info>)
    requires Sound(u) && AllSound(fs) && MaxAlign(fs) == 1
    ensures AllSound([u] + fs) && SizeOf(fs) == PadTo(Sum(fs), 1)
    ensures u.align >= 1 && SizeOf([u] + fs) == PadTo(u.size + Sum(fs), u.align)
  {
    MaxAlignIs(fs);
    EndBehind(u, fs, 1);
    MaxFirst(u, fs);
    forall k | 0 <= k < |fs| ensures fs[k].align == 1 { assert Sound(fs[k]); }
    FallingHasNoGaps(fs);
  }

  lemma MaxFirst(u: Info, fs: seq<Info>)
    requires u.align >= MaxAlign(fs)
    ensures MaxAlign([u] + fs) == u.align
  {
    MaxAlignIs([u] + fs);
    MaxAlignIs(fs);
    assert ([u] + fs)[0].align == u.align;
    forall k | 0 <= k < |[u] + fs| ensures ([u] + fs)[k].align <= u.align {
      if k > 0 { assert ([u] + fs)[k] == fs[k - 1]; }
    }
  }

  /** A stricter alignment rounds both sizes to its own multiples, which are never m bytes apart. */
  lemma WiderNotSaved(u: Info, m: nat)
    requires Sound(u) && PowerOfTwo(m) && m >= 2 && u.align > m
    requires AllSound(Sandwich(m)) && AllSound(Sorted3(m))
    ensures !SavesAsAdvised(u, Sandwich(m), Sorted3(m))
  {
    PowerAligned(m);
    SandwichAfter([], 0, 1, 0, m);
    Sorted3After([], 0, 1, 0, m);
    assert [] + Sandwich(m) == Sandwich(m) && [] + Sorted3(m) == Sorted3(m);
    MaxFirst(u, Sandwich(m));
    MaxFirst(u, Sorted3(m));
    if AllSound([u] + Sandwich(m)) && AllSound([u] + Sorted3(m)) {
      var x, y := SizeOf([u] + Sandwich(m)), SizeOf([u] + Sorted3(m));
      if x < y + u.align { NoneBetween(x, y, u.align); }
    }
  }

  lemma SandwichNotSaved(u: Info, m: nat)
    requires Sound(u) && PowerOfTwo(m) && m >= 2 && u.align <= m && !Aligned(u.size, m)
    requires AllSound(Sandwich(m)) && AllSound(Sorted3(m))
    ensures !SavesAsAdvised(u, Sandwich(m), Sorted3(m))
  {
    var t := AndNot(u.size, m - 1);
    AndNotRoundsDown(u.size, m);
    UnitStands(u);
    SandwichAfter([u], u.size, u.align, t, m);
    Sorted3After([u], u.size, u.align, t, m);
    PowerAligned(m);
    SandwichAfter([], 0, 1, 0, m);
    Sorted3After([], 0, 1, 0, m);
    assert [] + Sandwich(m) == Sandwich(m) && [] + Sorted3(m) == Sorted3(m);
  }

  lemma SandwichAfter(front: seq<Info>, x: nat, k: nat, t: nat, m: nat)
    requires PowerOfTwo(m) && m >= 2 && k <= m && Stands(front, x, k) && Aligned(t, m) && t <= x < t + m
    ensures Stands(front + Sandwich(m), t + 2 * m + 1, m) && SizeOf(front + Sandwich(m)) == t + 3 * m
  {
    var one, big := Info(1, 1), Info(m, m);
    SandwichSize(front, front + [one], front + [one] + [big], front + Sandwich(m), x, k, t, m);
  }

  lemma Sorted3After(front: seq<Info>, x: nat, k: nat, t: nat, m: nat)
    requires PowerOfTwo(m) && m >= 2 && k <= m && Stands(front, x, k) && Aligned(t, m) && t <= x < t + m
    ensures var at := if x == t then t else t + m;
            Stands(front + Sorted3(m), at + m + 2, m) && SizeOf(front + Sorted3(m)) == at + 2 * m
  {
    var one, big := Info(1, 1), Info(m, m);
    Sorted3Size(front, front + [big], front + [big] + [one], front + Sorted3(m), x, k, t, m);
  }

  lemma UnitStands(u: Info)
    requires Sound(u)
    ensures Stands([u], u.size, u.align)
  {
    PowerAligned(u.align);
    PadExact(0, u.align);
    assert [] + [u] == [u];
    EndMore([], u, 0);
  }

  // ---- Advice that makes the struct larger --------------------------------------------------

  function B(): Field { Field("b", Scalar(W1)) }

  function C(): Field { Field("c", Scalar(W2)) }

  function D(): Field { Field("d", Scalar(W1)) }

  /** A byte array of one element. */
  function ByteArray(name: string): Member { Untyped(name, Info(1, 1)) }

  /** i8 a[1]; i8 b; i16 c; i8 d; i8 e[1]; */
  function Tight(): seq<Member> { [ByteArray("a"), Plain(B()), Plain(C()), Plain(D()), ByteArray("e")] }

  lemma LaidMore(ms: seq<Member>, m: Member)
    ensures Laid(ms + [m]) == Laid(ms) + [if m.Plain? then Key(m.field) else m.layout]
  {
    assert (ms + [m])[..|ms|] == ms;
  }

  lemma KeptMore(ms: seq<Member>, m: Member)
    ensures Kept(ms + [m]) == Kept(ms) + (if m.Plain? then [m.field] else [])
  {
    assert (ms + [m])[..|ms|] == ms;
  }

  lemma Keys()
    ensures Key(B()) == Info(1, 1) && Key(C()) == Info(2, 2) && Key(D()) == Info(1, 1)
  {
  }

  lemma TightKept()
    ensures Kept(Tight()) == [B(), C(), D()]
  {
    var m1: seq<Member> := [] + [ByteArray("a")];
    var m2 := m1 + [Plain(B())];
    var m3 := m2 + [Plain(C())];
    var m4 := m3 + [Plain(D())];
    KeptMore([], ByteArray("a"));
    KeptMore(m1, Plain(B()));
    KeptMore(m2, Plain(C()));
    KeptMore(m3, Plain(D()));
    KeptMore(m4, ByteArray("e"));
    assert m4 + [ByteArray("e")] == Tight();
  }

  lemma TightLaid()
    ensures Laid(Tight()) == [Info(1, 1), Info(1, 1), Info(2, 2), Info(1, 1), Info(1, 1)]
  {
    var m1: seq<Member> := [] + [ByteArray("a")];
    var m2 := m1 + [Plain(B())];
    var m3 := m2 + [Plain(C())];
    var m4 := m3 + [Plain(D())];
    LaidMore([], ByteArray("a"));
    LaidMore(m1, Plain(B()));
    LaidMore(m2, Plain(C()));
    LaidMore(m3, Plain(D()));
    LaidMore(m4, ByteArray("e"));
    assert m4 + [ByteArray("e")] == Tight();
    Keys();
  }

  /** i8 a[1]; i16 c; i8 b; i8 d; i8 e[1]; */
  function Loose(): seq<Member> { [ByteArray("a"), Plain(C()), Plain(B()), Plain(D()), ByteArray("e")] }

  lemma LooseKept()
    ensures Kept(Loose()) == [C(), B(), D()]
  {
    var m1: seq<Member> := [] + [ByteArray("a")];
    var m2 := m1 + [Plain(C())];
    var m3 := m2 + [Plain(B())];
    var m4 := m3 + [Plain(D())];
    KeptMore([], ByteArray("a"));
    KeptMore(m1, Plain(C()));
    KeptMore(m2, Plain(B()));
    KeptMore(m3, Plain(D()));
    KeptMore(m4, ByteArray("e"));
    assert m4 + [ByteArray("e")] == Loose();
  }

  lemma LooseLaid()
    ensures Laid(Loose()) == [Info(1, 1), Info(2, 2), Info(1, 1), Info(1, 1), Info(1, 1)]
  {
    var m1: seq<Member> := [] + [ByteArray("a")];
    var m2 := m1 + [Plain(C())];
    var m3 := m2 + [Plain(B())];
    var m4 := m3 + [Plain(D())];
    LaidMore([], ByteArray("a"));
    LaidMore(m1, Plain(C()));
    LaidMore(m2, Plain(B()));
    LaidMore(m3, Plain(D()));
    LaidMore(m4, ByteArray("e"));
    assert m4 + [ByteArray("e")] == Loose();
    Keys();
  }

  lemma SortedBCD()
    ensures Sorted([B(), C(), D()]) == [C(), B(), D()]
  {
    var bcd := [B(), C(), D()];
    assert bcd[..2] == [B(), C()] && bcd[..2][..1] == [B()] && [B()][..0] == [];
    assert Sorted([B()]) == Insert(B(), Sorted([])) == [B()];
    assert !StaysBefore(B(), C()) && StaysBefore(B(), D());
    assert Insert(C(), [B()]) == Insert(C(), [B()][..0]) + [B()] == [C(), B()];
    assert Sorted([B(), C()]) == Insert(C(), Sorted([B()]));
    assert Insert(D(), [C(), B()]) == [C(), B()] + [D()];
  }

  lemma TwoInfos(x: Field, y: Field, i: Info, j: Info)
    requires FieldInfo(x.t) == Some(i) && FieldInfo(y.t) == Some(j)
    ensures Infos([x, y]) == Some([i, j])
  {
    InfosAre([x, y]);
    assert forall n :: 0 <= n < 2 ==> FieldInfo([x, y][n].t).Some?;
    assert !SomeUnknown([x, y]);
    assert Infos([x, y]).value == [i, j];
  }

  lemma ThreeInfos(x: Field, y: Field, z: Field, i: Info, j: Info, k: Info)
    requires FieldInfo(x.t) == Some(i) && FieldInfo(y.t) == Some(j) && FieldInfo(z.t) == Some(k)
    ensures Infos([x, y, z]) == Some([i, j, k])
  {
    InfosAre([x, y, z]);
    assert forall n :: 0 <= n < 3 ==> FieldInfo([x, y, z][n].t).Some?;
    assert !SomeUnknown([x, y, z]);
    assert Infos([x, y, z]).value == [i, j, k];
  }

  /** The real size as given: no padding. */
  lemma TightSize(front: seq<Info>, fs: seq<Info>, given: seq<Info>)
    requires front == [Info(1, 1)] && fs == front + Sandwich(2) && given == fs + [Info(1, 1)]
    ensures AllSound(given) && SizeOf(given) == 6
  {
    OneIsSound();
    UnitStands(Info(1, 1));
    SandwichAfter(front, 1, 1, 0, 2);
    LastByte(fs, given, 5, 4);
  }

  /** And with the advice followed: two bytes of it. */
  lemma LooseSize(front: seq<Info>, fs: seq<Info>, advised: seq<Info>)
    requires front == [Info(1, 1)] && fs == front + Sorted3(2) && advised == fs + [Info(1, 1)]
    ensures AllSound(advised) && SizeOf(advised) == 8
  {
    OneIsSound();
    UnitStands(Info(1, 1));
    Sorted3After(front, 1, 1, 0, 2);
    LastByte(fs, advised, 6, 6);
  }

  lemma LastByte(fs: seq<Info>, more: seq<Info>, end: nat, t: nat)
    requires Stands(fs, end, 2) && more == fs + [Info(1, 1)] && t < end + 1 <= t + 2 && Aligned(t, 2)
    ensures AllSound(more) && SizeOf(more) == t + 2
  {
    OneIsSound();
    OneStands(fs, end, 2, more);
    SizeStands(more, end + 1, t, 2);
  }

  lemma OneIsSound()
    ensures Sound(Info(1, 1)) && PowerOfTwo(2) && Aligned(0, 2) && Aligned(4, 2) && Aligned(6, 2)
  {
    PowersUpTo8();
    PowerAligned(1);
  }

  /** The warning is given, saying 2 bytes are wasted, for a struct without padding; following it adds 2 bytes. */
  lemma AdviceCanHurt()
    ensures var given, order := Kept(Tight()), Sorted(Kept(Tight()));
            Infos(given).Some? && Infos(order).Some? && StructBytes(given) - StructBytes(order) == 2
    ensures Followed(Tight(), Sorted(Kept(Tight())), Loose())
    ensures AllSound(Laid(Tight())) && AllSound(Laid(Loose())) && SizeOf(Laid(Loose())) == SizeOf(Laid(Tight())) + 2
  {
    WarnedOfTwo();
    LooseFollows();
    SizesDiffer();
  }

  lemma WarnedOfTwo()
    ensures var given, order := Kept(Tight()), Sorted(Kept(Tight()));
            Infos(given).Some? && Infos(order).Some? && StructBytes(given) - StructBytes(order) == 2
  {
    TightKept();
    SortedBCD();
    TypedSizes([B(), C(), D()], [C(), B(), D()]);
  }

  lemma LooseFollows()
    ensures Followed(Tight(), Sorted(Kept(Tight())), Loose())
  {
    TightKept();
    SortedBCD();
    LooseKept();
  }

  lemma SizesDiffer()
    ensures AllSound(Laid(Tight())) && AllSound(Laid(Loose())) && SizeOf(Laid(Loose())) == SizeOf(Laid(Tight())) + 2
  {
    TightLaid();
    LooseLaid();
    var one := Info(1, 1);
    assert Laid(Tight()) == [one] + Sandwich(2) + [one] && Laid(Loose()) == [one] + Sorted3(2) + [one];
    TightSize([one], [one] + Sandwich(2), Laid(Tight()));
    LooseSize([one], [one] + Sorted3(2), Laid(Loose()));
  }

  lemma TypedSizes(given: seq<Field>, order: seq<Field>)
    requires given == [B(), C(), D()] && order == [C(), B(), D()]
    ensures Infos(given).Some? && StructBytes(given) == 6 && Infos(order).Some? && StructBytes(order) == 4
  {
    ThreeInfos(B(), C(), D(), Info(1, 1), Info(2, 2), Info(1, 1));
    ThreeInfos(C(), B(), D(), Info(2, 2), Info(1, 1), Info(1, 1));
    SandwichOfTwo();
  }

  lemma SandwichOfTwo()
    ensures AllSound(Sandwich(2)) && SizeOf(Sandwich(2)) == 6 && AllSound(Sorted3(2)) && SizeOf(Sorted3(2)) == 4
  {
    OneIsSound();
    SandwichAfter([], 0, 1, 0, 2);
    Sorted3After([], 0, 1, 0, 2);
    assert Sandwich(2) == [] + Sandwich(2) && Sorted3(2) == [] + Sorted3(2);
  }

  /** Without untyped members the advice is about the whole struct. */
  lemma AdviceIsWholeWithoutUntyped(ms: seq<Member>)
    requires (forall m :: m in ms ==> m.Plain?) && Infos(Kept(ms)).Some?
    ensures AllSound(Laid(ms)) && SizeOf(Laid(ms)) == StructBytes(Kept(ms))
  {
    AllTypedIsKept(ms);
  }
}
