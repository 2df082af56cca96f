// Struct layout and the field-order advice (compiler/codegen_stmts.py:31-67, 301-330).
module StructLayout {
  import opened Wrappers

  datatype Width = W1 | W2 | W4 | W8

  /** A field's C type; a struct is named in the source and looked up, here its fields are in place. */
  datatype CType = Scalar(w: Width) | Pointer | Struct(fields: seq<Field>) | Unknown

  datatype Field = Field(name: string, t: CType)

  datatype Info = Info(align: nat, size: nat)

  // ---- Padding ------------------------------------------------------------------------------

  /** x & ~m */
  function AndNot(x: nat, m: nat): nat {
    if x == 0 then 0 else 2 * AndNot(x / 2, m / 2) + (if x % 2 == 1 && m % 2 == 0 then 1 else 0)
  }

  predicate PowerOfTwo(a: nat) { a == 1 || (a > 1 && a % 2 == 0 && PowerOfTwo(a / 2)) }

  /** x is a multiple of the power of two a. */
  predicate Aligned(x: nat, a: nat) { a <= 1 || (x % 2 == 0 && Aligned(x / 2, a / 2)) }

  ghost predicate Divides(a: nat, x: nat) { exists q: nat :: x == a * q }

  lemma {:induction false} AlignedMeans(x: nat, a: nat)
    requires PowerOfTwo(a)
    ensures Aligned(x, a) <==> Divides(a, x)
    decreases a
  {
    if a == 1 {
      assert x == a * x;
    } else {
      var h := a / 2;
      AlignedMeans(x / 2, h);
      if Aligned(x, a) {
        var q: nat :| x / 2 == h * q;
        Doubled(h, q);
        assert x == a * q;
      }
      if Divides(a, x) {
        var q: nat :| x == a * q;
        Doubled(h, q);
        assert x / 2 == h * q;
      }
    }
  }

  lemma Doubled(h: nat, q: nat)
    ensures (2 * h) * q == 2 * (h * q)
  {
  }

  /** Clearing the low bits rounds down. */
  lemma {:induction false} AndNotRoundsDown(x: nat, a: nat)
    requires PowerOfTwo(a)
    ensures AndNot(x, a - 1) <= x < AndNot(x, a - 1) + a && Aligned(AndNot(x, a - 1), a)
    decreases a
  {
    if a == 1 {
      AndNotZero(x);
    } else {
      AndNotRoundsDown(x / 2, a / 2);
      AndNotHalves(x, a / 2);
      Doubles(x, AndNot(x / 2, a / 2 - 1), a / 2);
    }
  }

  lemma AndNotHalves(x: nat, h: nat)
    requires h > 0
    ensures AndNot(x, 2 * h - 1) == 2 * AndNot(x / 2, h - 1)
  {
    assert (2 * h - 1) / 2 == h - 1 && (2 * h - 1) % 2 == 1;
    if x == 0 { assert AndNot(0, h - 1) == 0; }
  }

  lemma Doubles(x: nat, d: nat, h: nat)
    requires d <= x / 2 < d + h && Aligned(d, h) && h > 0
    ensures 2 * d <= x < 2 * d + 2 * h && Aligned(2 * d, 2 * h)
  {
    assert (2 * d) / 2 == d && (2 * h) / 2 == h && (2 * d) % 2 == 0;
  }

  lemma {:induction false} AndNotZero(x: nat)
    ensures AndNot(x, 0) == x
  {
    if x > 0 { AndNotZero(x / 2); }
  }

  /** Two multiples of a differ by at least a. */
  lemma {:induction false} NoneBetween(d: nat, y: nat, a: nat)
    requires PowerOfTwo(a) && Aligned(d, a) && Aligned(y, a) && d < y + a
    ensures d <= y
    decreases a
  {
    if a > 1 { NoneBetween(d / 2, y / 2, a / 2); }
  }

  lemma {:induction false} AddAligned(x: nat, y: nat, a: nat)
    requires Aligned(x, a) && Aligned(y, a)
    ensures Aligned(x + y, a)
    decreases a
  {
    if a > 1 {
      AddAligned(x / 2, y / 2, a / 2);
      assert (x + y) / 2 == x / 2 + y / 2;
    }
  }

  lemma {:induction false} AlignedToLess(x: nat, b: nat, a: nat)
    requires PowerOfTwo(a) && PowerOfTwo(b) && a <= b && Aligned(x, b)
    ensures Aligned(x, a)
    decreases a
  {
    if a > 1 { AlignedToLess(x / 2, b / 2, a / 2); }
  }

  /** (x + a - 1) & ~(a - 1) */
  function PadTo(x: nat, a: nat): nat
    requires a > 0
  {
    AndNot(x + a - 1, a - 1)
  }

  /** Padding goes to the least multiple of the alignment that is not below the offset. */
  lemma PadToIsLeast(x: nat, a: nat)
    requires PowerOfTwo(a)
    ensures x <= PadTo(x, a) && Aligned(PadTo(x, a), a)
    ensures forall y: nat :: x <= y && Aligned(y, a) ==> PadTo(x, a) <= y
  {
    AndNotRoundsDown(x + a - 1, a);
    forall y: nat | x <= y && Aligned(y, a) ensures PadTo(x, a) <= y { NoneBetween(PadTo(x, a), y, a); }
  }

  lemma PadToNear(x: nat, a: nat)
    requires PowerOfTwo(a)
    ensures x <= PadTo(x, a) < x + a && Aligned(PadTo(x, a), a)
  {
    AndNotRoundsDown(x + a - 1, a);
  }

  /** The multiple of the alignment less than one alignment up is where padding goes. */
  lemma PadIs(x: nat, p: nat, a: nat)
    requires PowerOfTwo(a) && Aligned(p, a) && x <= p < x + a
    ensures PadTo(x, a) == p
  {
    PadToNear(x, a);
    NoneBetween(p, PadTo(x, a), a);
    NoneBetween(PadTo(x, a), p, a);
  }

  // ---- Layout -------------------------------------------------------------------------------

  /** Alignments are powers of two and sizes multiples of them. */
  predicate Sound(i: Info) { PowerOfTwo(i.align) && Aligned(i.size, i.align) }

  predicate AllSound(fs: seq<Info>) { forall k :: 0 <= k < |fs| ==> Sound(fs[k]) }

  /** Where the last field ends: each field is padded to its alignment. */
  function End(fs: seq<Info>): nat
    requires AllSound(fs)
  {
    if fs == [] then 0
    else
      var n := |fs| - 1;
      PadTo(End(fs[..n]), fs[n].align) + fs[n].size
  }

  function MaxAlign(fs: seq<Info>): nat {
    if fs == [] then 1
    else
      var n := |fs| - 1;
      if MaxAlign(fs[..n]) >= fs[n].align then MaxAlign(fs[..n]) else fs[n].align
  }

  lemma {:induction false} MaxAlignIs(fs: seq<Info>)
    ensures MaxAlign(fs) >= 1 && forall k :: 0 <= k < |fs| ==> fs[k].align <= MaxAlign(fs)
    ensures MaxAlign(fs) == 1 || exists k :: 0 <= k < |fs| && fs[k].align == MaxAlign(fs)
    ensures AllSound(fs) ==> PowerOfTwo(MaxAlign(fs))
  {
    if fs != [] {
      MaxAlignIs(fs[..|fs| - 1]);
      if AllSound(fs) { assert AllSound(fs[..|fs| - 1]); }
    }
  }

  function SizeOf(fs: seq<Info>): (s: nat)
    requires AllSound(fs)
    ensures PowerOfTwo(MaxAlign(fs)) && Aligned(s, MaxAlign(fs)) && s >= End(fs)
  {
    MaxAlignIs(fs);
    PadToIsLeast(End(fs), MaxAlign(fs));
    PadTo(End(fs), MaxAlign(fs))
  }

  function WidthBytes(w: Width): nat {
    match w
    case W1 => 1
    case W2 => 2
    case W4 => 4
    case W8 => 8
  }

  /** _field_align_size; whatever is known has a power-of-two alignment that divides its size, nested structs too. */
  function FieldInfo(t: CType): (r: Option<Info>)
    ensures r.Some? ==> Sound(r.value)
    decreases t, 0
  {
    match t
    case Scalar(w) => PowersUpTo8(); Some(Info(WidthBytes(w), WidthBytes(w)))
    case Pointer => PowersUpTo8(); Some(Info(8, 8))
    case Struct(fs) =>
      (match Infos(fs)
       case None => None
       case Some(infos) => Some(Info(MaxAlign(infos), SizeOf(infos))))
    case Unknown => None
  }

  lemma KnownSizes()
    ensures FieldInfo(Scalar(W1)) == Some(Info(1, 1)) && FieldInfo(Scalar(W2)) == Some(Info(2, 2))
    ensures FieldInfo(Scalar(W4)) == Some(Info(4, 4)) && FieldInfo(Scalar(W8)) == Some(Info(8, 8))
    ensures FieldInfo(Pointer) == Some(Info(8, 8)) && FieldInfo(Unknown) == None
  {
  }

  lemma PowersUpTo8()
    ensures PowerOfTwo(1) && PowerOfTwo(2) && PowerOfTwo(4) && PowerOfTwo(8)
  {
    assert PowerOfTwo(2);
    assert PowerOfTwo(4);
  }

  /** The information for every field, or None as soon as one is missing. */
  function Infos(fs: seq<Field>): (r: Option<seq<Info>>)
    ensures r.Some? ==> AllSound(r.value)
    decreases fs, 1
  {
    if fs == [] then Some([])
    else
      var n := |fs| - 1;
      match Infos(fs[..n])
      case None => None
      case Some(front) =>
        match FieldInfo(fs[n].t)
        case None => None
        case Some(i) => Some(front + [i])
  }

  ghost predicate SomeUnknown(fs: seq<Field>) { exists k :: 0 <= k < |fs| && FieldInfo(fs[k].t).None? }

  lemma {:induction false} InfosAre(fs: seq<Field>)
    ensures Infos(fs).None? <==> SomeUnknown(fs)
    ensures Infos(fs).Some? ==> |Infos(fs).value| == |fs|
    ensures Infos(fs).Some? ==> forall k :: 0 <= k < |fs| ==> FieldInfo(fs[k].t) == Some(Infos(fs).value[k])
    decreases |fs|
  {
    if fs != [] {
      var n := |fs| - 1;
      InfosAre(fs[..n]);
      LastUnknown(fs);
    }
  }

  lemma LastUnknown(fs: seq<Field>)
    requires fs != []
    ensures SomeUnknown(fs) <==> SomeUnknown(fs[..|fs| - 1]) || FieldInfo(fs[|fs| - 1].t).None?
  {
    var n := |fs| - 1;
    if SomeUnknown(fs[..n]) {
      var k :| 0 <= k < n && FieldInfo(fs[..n][k].t).None?;
      assert FieldInfo(fs[k].t).None?;
    }
    if SomeUnknown(fs) {
      var k :| 0 <= k < |fs| && FieldInfo(fs[k].t).None?;
      assert k < n ==> fs[..n][k] == fs[k];
    }
  }

  /** _struct_align_size */
  method StructAlignSize(fs: seq<Field>) returns (r: Option<Info>)
    ensures r == FieldInfo(Struct(fs))
  {
    var offset: nat, maxAlign: nat, i := 0, 1, 0;
    ghost var done: seq<Info> := [];
    while i < |fs|
      invariant 0 <= i <= |fs| && LaidOut(fs, i, done, offset, maxAlign)
    {
      var info := FieldInfo(fs[i].t);
      if info.None? {
        OneUnknown(fs, i);
        return None;
      }
      OneMore(fs, i, done, offset, maxAlign, info.value);
      var align, size := info.value.align, info.value.size;
      maxAlign := if maxAlign >= align then maxAlign else align;
      offset := PadTo(offset, align);
      offset := offset + size;
      done := done + [info.value];
      i := i + 1;
    }
    assert fs[..i] == fs;
    Whole(fs, done);
    if maxAlign > 1 { offset := PadTo(offset, maxAlign); }
    r := Some(Info(maxAlign, offset));
  }

  /** The first i fields are laid out: where they end, and the largest alignment among them. */
  ghost predicate LaidOut(fs: seq<Field>, i: nat, done: seq<Info>, offset: nat, maxAlign: nat) {
    i <= |fs| && Infos(fs[..i]) == Some(done) && offset == End(done) && maxAlign == MaxAlign(done)
  }

  lemma Whole(fs: seq<Field>, done: seq<Info>)
    requires Infos(fs) == Some(done)
    ensures FieldInfo(Struct(fs)) == Some(Info(MaxAlign(done), SizeOf(done)))
    ensures MaxAlign(done) >= 1 && SizeOf(done) == PadTo(End(done), MaxAlign(done))
    ensures MaxAlign(done) == 1 ==> SizeOf(done) == End(done)
  {
    MaxAlignIs(done);
    AndNotZero(End(done));
  }

  lemma OneUnknown(fs: seq<Field>, i: nat)
    requires i < |fs| && FieldInfo(fs[i].t).None?
    ensures FieldInfo(Struct(fs)).None?
  {
    InfosAre(fs);
  }

  lemma OneMore(fs: seq<Field>, i: nat, done: seq<Info>, offset: nat, maxAlign: nat, info: Info)
    requires i < |fs| && LaidOut(fs, i, done, offset, maxAlign) && FieldInfo(fs[i].t) == Some(info)
    ensures info.align >= 1
    ensures LaidOut(fs, i + 1, done + [info], PadTo(offset, info.align) + info.size,
                    if maxAlign >= info.align then maxAlign else info.align)
  {
    assert fs[..i + 1][..i] == fs[..i];
    assert (done + [info])[..|done|] == done;
  }

  /** Where a field is put: after the fields before it, at a multiple of its alignment, inside the struct. */
  lemma {:induction false} FieldsFit(fs: seq<Info>, k: nat)
    requires AllSound(fs) && k < |fs|
    ensures var at := PadTo(End(fs[..k]), fs[k].align);
            End(fs[..k]) <= at && Aligned(at, fs[k].align) && at + fs[k].size == End(fs[..k + 1]) <= SizeOf(fs)
  {
    assert fs[..k + 1][..k] == fs[..k];
    PadToIsLeast(End(fs[..k]), fs[k].align);
    EndGrows(fs, k + 1);
  }

  lemma {:induction false} EndGrows(fs: seq<Info>, k: nat)
    requires AllSound(fs) && k <= |fs|
    ensures End(fs[..k]) <= End(fs)
    decreases |fs|
  {
    var n := |fs| - 1;
    if k <= n {
      EndGrows(fs[..n], k);
      assert fs[..n][..k] == fs[..k];
      PadToIsLeast(End(fs[..n]), fs[n].align);
    } else {
      assert fs[..k] == fs;
    }
  }

  // ---- The best order -----------------------------------------------------------------------

  function Sum(fs: seq<Info>): nat {
    if fs == [] then 0 else Sum(fs[..|fs| - 1]) + fs[|fs| - 1].size
  }

  lemma {:induction false} EndAtLeastSum(fs: seq<Info>)
    requires AllSound(fs)
    ensures Sum(fs) <= End(fs)
  {
    if fs != [] {
      var n := |fs| - 1;
      EndAtLeastSum(fs[..n]);
      PadToIsLeast(End(fs[..n]), fs[n].align);
    }
  }

  predicate Falling(fs: seq<Info>) {
    forall j, k :: 0 <= j < k < |fs| ==> fs[j].align >= fs[k].align
  }

  predicate AtLeast(fs: seq<Info>, a: nat) { forall k :: 0 <= k < |fs| ==> a <= fs[k].align }

  lemma {:induction false} SumAligned(fs: seq<Info>, a: nat)
    requires AllSound(fs) && PowerOfTwo(a) && AtLeast(fs, a)
    ensures Aligned(Sum(fs), a)
    decreases |fs|
  {
    if fs == [] {
      ZeroAligned(a);
    } else {
      var n := |fs| - 1;
      SumAligned(fs[..n], a);
      AlignedToLess(fs[n].size, fs[n].align, a);
      AddAligned(Sum(fs[..n]), fs[n].size, a);
    }
  }

  lemma {:induction false} ZeroAligned(a: nat)
    ensures Aligned(0, a)
  {
    if a > 1 { ZeroAligned(a / 2); }
  }

  /** With falling alignments every field starts where the one before it ends. */
  lemma {:induction false} FallingHasNoGaps(fs: seq<Info>)
    requires AllSound(fs) && Falling(fs)
    ensures End(fs) == Sum(fs)
  {
    if fs != [] {
      var n := |fs| - 1;
      FallingHasNoGaps(fs[..n]);
      SumAligned(fs[..n], fs[n].align);
      PadExact(Sum(fs[..n]), fs[n].align);
    }
  }

  lemma PadExact(x: nat, a: nat)
    requires PowerOfTwo(a) && Aligned(x, a)
    ensures PadTo(x, a) == x
  {
    PadToIsLeast(x, a);
  }

  lemma FallingSize(fs: seq<Info>)
    requires AllSound(fs) && Falling(fs)
    ensures SizeOf(fs) == PadTo(Sum(fs), MaxAlign(fs))
  {
    FallingHasNoGaps(fs);
  }

  lemma AnySize(fs: seq<Info>)
    requires AllSound(fs)
    ensures MaxAlign(fs) >= 1 && PadTo(Sum(fs), MaxAlign(fs)) <= SizeOf(fs)
  {
    MaxAlignIs(fs);
    EndAtLeastSum(fs);
    PadToIsLeast(Sum(fs), MaxAlign(fs));
  }

  // ---- Reordering ---------------------------------------------------------------------------

  function Without<T>(s: seq<T>, j: nat): seq<T>
    requires j < |s|
  {
    s[..j] + s[j + 1..]
  }

  lemma WithoutMultiset<T>(s: seq<T>, j: nat)
    requires j < |s|
    ensures multiset(Without(s, j)) == multiset(s) - multiset{s[j]}
  {
    assert s == s[..j] + [s[j]] + s[j + 1..];
  }

  lemma {:induction false} SumWithout(s: seq<Info>, j: nat)
    requires j < |s|
    ensures Sum(s) == Sum(Without(s, j)) + s[j].size
    decreases |s|
  {
    var n := |s| - 1;
    if j == n {
      assert Without(s, j) == s[..n];
    } else {
      SumWithout(s[..n], j);
      assert Without(s, j)[..n - 1] == Without(s[..n], j);
    }
  }

  lemma {:induction false} SameSum(a: seq<Info>, b: seq<Info>)
    requires multiset(a) == multiset(b)
    ensures Sum(a) == Sum(b)
    decreases |a|
  {
    if a == [] {
      assert |b| == |multiset(b)| == 0;
    } else {
      var n := |a| - 1;
      assert a[n] in multiset(b);
      var j :| 0 <= j < |b| && b[j] == a[n];
      WithoutMultiset(a, n);
      WithoutMultiset(b, j);
      assert Without(a, n) == a[..n];
      SameSum(a[..n], Without(b, j));
      SumWithout(b, j);
    }
  }

  lemma MaxAlignWithin(a: seq<Info>, b: seq<Info>)
    requires multiset(a) == multiset(b)
    ensures MaxAlign(a) <= MaxAlign(b)
  {
    MaxAlignIs(a);
    MaxAlignIs(b);
    if MaxAlign(a) > 1 {
      var k :| 0 <= k < |a| && a[k].align == MaxAlign(a);
      assert a[k] in multiset(b);
    }
  }

  lemma SoundAgain(a: seq<Info>, b: seq<Info>)
    requires multiset(a) == multiset(b) && AllSound(a)
    ensures AllSound(b)
  {
    forall k | 0 <= k < |b| ensures Sound(b[k]) { assert b[k] in multiset(a); }
  }

  /** Falling alignments give the smallest size that any order of the fields has. */
  lemma FallingIsOptimal(best: seq<Info>, any: seq<Info>)
    requires AllSound(best) && Falling(best) && multiset(any) == multiset(best)
    ensures AllSound(any) && SizeOf(best) <= SizeOf(any)
    ensures SizeOf(best) == PadTo(Sum(any), MaxAlign(any))
  {
    SoundAgain(best, any);
    SameSum(best, any);
    MaxAlignWithin(best, any);
    MaxAlignWithin(any, best);
    FallingSize(best);
    AnySize(any);
  }

  // ---- The advice ---------------------------------------------------------------------------

  /** A struct's members as compile_struct records them: arrays and function pointers without a type, so that
      their layout, given here, is not looked at. */
  datatype Member = Plain(field: Field) | Untyped(name: string, layout: Info)

  function Kept(ms: seq<Member>): seq<Field> {
    if ms == [] then []
    else
      var n := |ms| - 1;
      Kept(ms[..n]) + (if ms[n].Plain? then [ms[n].field] else [])
  }

  function Key(f: Field): Info { if FieldInfo(f.t).Some? then FieldInfo(f.t).value else Info(0, 0) }

  predicate StaysBefore(a: Field, b: Field) {
    Key(a).align > Key(b).align || (Key(a).align == Key(b).align && Key(a).size >= Key(b).size)
  }

  /** Python's sorted with reverse=True: stable, largest key first. */
  function Sorted(fs: seq<Field>): seq<Field> {
    if fs == [] then [] else Insert(fs[|fs| - 1], Sorted(fs[..|fs| - 1]))
  }

  function Insert(f: Field, fs: seq<Field>): seq<Field> {
    if fs == [] then [f]
    else
      var n := |fs| - 1;
      if StaysBefore(fs[n], f) then fs + [f] else Insert(f, fs[..n]) + [fs[n]]
  }

  predicate InOrder(fs: seq<Field>) { forall j, k :: 0 <= j < k < |fs| ==> StaysBefore(fs[j], fs[k]) }

  lemma LastOut<T>(s: seq<T>)
    requires s != []
    ensures multiset(s) == multiset(s[..|s| - 1]) + multiset{s[|s| - 1]}
  {
    assert s == s[..|s| - 1] + [s[|s| - 1]];
  }

  lemma {:induction false} InsertAdds(f: Field, fs: seq<Field>)
    ensures multiset(Insert(f, fs)) == multiset(fs) + multiset{f}
    decreases |fs|
  {
    if fs != [] {
      LastOut(fs);
      if !StaysBefore(fs[|fs| - 1], f) { InsertAdds(f, fs[..|fs| - 1]); }
    }
  }

  lemma {:induction false} InsertedFrom(f: Field, fs: seq<Field>, j: nat)
    requires j < |Insert(f, fs)|
    ensures Insert(f, fs)[j] == f || Insert(f, fs)[j] in fs
    decreases |fs|
  {
    if fs != [] {
      var n := |fs| - 1;
      if !StaysBefore(fs[n], f) && j < |Insert(f, fs[..n])| {
        InsertedFrom(f, fs[..n], j);
      }
    }
  }

  lemma {:induction false} InsertOrders(f: Field, fs: seq<Field>)
    requires InOrder(fs)
    ensures InOrder(Insert(f, fs))
    decreases |fs|
  {
    if fs != [] && !StaysBefore(fs[|fs| - 1], f) {
      var n := |fs| - 1;
      FrontOrdered(fs, fs[..n]);
      InsertOrders(f, fs[..n]);
      InsertedBefore(f, fs, fs[..n], Insert(f, fs[..n]));
      OneAfter(Insert(f, fs[..n]), fs[n]);
    }
  }

  lemma FrontOrdered(fs: seq<Field>, front: seq<Field>)
    requires InOrder(fs) && fs != [] && front == fs[..|fs| - 1]
    ensures InOrder(front)
  {
  }

  lemma InsertedBefore(f: Field, fs: seq<Field>, front: seq<Field>, more: seq<Field>)
    requires InOrder(fs) && fs != [] && !StaysBefore(fs[|fs| - 1], f)
    requires front == fs[..|fs| - 1] && more == Insert(f, front)
    ensures forall j :: 0 <= j < |more| ==> StaysBefore(more[j], fs[|fs| - 1])
  {
    forall j | 0 <= j < |more| ensures StaysBefore(more[j], fs[|fs| - 1]) {
      InsertedFrom(f, front, j);
      if more[j] != f { BeforeLast(fs, more[j]); }
    }
  }

  lemma BeforeLast(fs: seq<Field>, g: Field)
    requires InOrder(fs) && fs != [] && g in fs[..|fs| - 1]
    ensures StaysBefore(g, fs[|fs| - 1])
  {
  }

  lemma OneAfter(fs: seq<Field>, f: Field)
    requires InOrder(fs) && forall j :: 0 <= j < |fs| ==> StaysBefore(fs[j], f)
    ensures InOrder(fs + [f])
  {
  }

  lemma {:induction false} SortedPermutes(fs: seq<Field>)
    ensures multiset(Sorted(fs)) == multiset(fs)
  {
    if fs != [] {
      SortedPermutes(fs[..|fs| - 1]);
      InsertAdds(fs[|fs| - 1], Sorted(fs[..|fs| - 1]));
      LastOut(fs);
    }
  }

  lemma {:induction false} SortedOrders(fs: seq<Field>)
    ensures InOrder(Sorted(fs))
  {
    if fs != [] {
      SortedOrders(fs[..|fs| - 1]);
      InsertOrders(fs[|fs| - 1], Sorted(fs[..|fs| - 1]));
    }
  }

  /** Alignments fall, and sizes do where alignments are equal. */
  lemma SortedFalls(fs: seq<Field>, j: nat, k: nat, a: Info, b: Info)
    requires j < k < |Sorted(fs)|
    requires FieldInfo(Sorted(fs)[j].t) == Some(a) && FieldInfo(Sorted(fs)[k].t) == Some(b)
    ensures a.align > b.align || (a.align == b.align && a.size >= b.size)
  {
    SortedOrders(fs);
    assert StaysBefore(Sorted(fs)[j], Sorted(fs)[k]);
  }

  /** The fields with this key, in order. */
  function WithKey(fs: seq<Field>, k: Info): seq<Field> {
    if fs == [] then []
    else WithKey(fs[..|fs| - 1], k) + if Key(fs[|fs| - 1]) == k then [fs[|fs| - 1]] else []
  }

  function IfKey(f: Field, k: Info): seq<Field> { if Key(f) == k then [f] else [] }

  lemma WithKeyMore(fs: seq<Field>, f: Field, k: Info)
    ensures WithKey(fs + [f], k) == WithKey(fs, k) + IfKey(f, k)
  {
    assert (fs + [f])[..|fs|] == fs;
  }

  lemma {:induction false} InsertIsStable(f: Field, fs: seq<Field>, k: Info)
    requires InOrder(fs)
    ensures WithKey(Insert(f, fs), k) == WithKey(fs, k) + IfKey(f, k)
    decreases |fs|
  {
    if fs == [] {
      WithKeyMore([], f, k);
    } else if StaysBefore(fs[|fs| - 1], f) {
      WithKeyMore(fs, f, k);
    } else {
      var rest, last := fs[..|fs| - 1], fs[|fs| - 1];
      InsertIsStable(f, rest, k);
      WithKeyMore(Insert(f, rest), last, k);
      OnlyOneHasKey(WithKey(rest, k), f, last, k);
    }
  }

  lemma OnlyOneHasKey(s: seq<Field>, f: Field, g: Field, k: Info)
    requires !StaysBefore(g, f)
    ensures s + IfKey(f, k) + IfKey(g, k) == s + IfKey(g, k) + IfKey(f, k)
  {
  }

  /** Fields with the same alignment and size keep their order. */
  lemma {:induction false} SortedIsStable(fs: seq<Field>, k: Info)
    ensures WithKey(Sorted(fs), k) == WithKey(fs, k)
    decreases |fs|
  {
    if fs != [] {
      var n := |fs| - 1;
      SortedIsStable(fs[..n], k);
      SortedOrders(fs[..n]);
      InsertIsStable(fs[n], Sorted(fs[..n]), k);
    }
  }

  lemma {:induction false} PermutedInfos(a: seq<Field>, b: seq<Field>)
    requires multiset(a) == multiset(b) && Infos(a).Some?
    ensures Infos(b).Some? && multiset(Infos(a).value) == multiset(Infos(b).value)
    decreases |a|
  {
    if a == [] {
      assert |b| == |multiset(b)| == 0;
    } else {
      var n := |a| - 1;
      assert a[n] in multiset(b);
      var j :| 0 <= j < |b| && b[j] == a[n];
      WithoutMultiset(a, n);
      WithoutMultiset(b, j);
      assert Without(a, n) == a[..n];
      PermutedInfos(a[..n], Without(b, j));
      InfosWithout(b, j);
      InfosSplit(a, n);
      InfosSplit(b, j);
    }
  }

  lemma InfosSplit(b: seq<Field>, j: nat)
    requires j < |b| && Infos(b).Some? && Infos(Without(b, j)).Some? && FieldInfo(b[j].t).Some?
    ensures multiset(Infos(b).value) == multiset(Infos(Without(b, j)).value) + multiset{FieldInfo(b[j].t).value}
  {
    InfosWithout(b, j);
    WithoutMultiset(Infos(b).value, j);
    assert Infos(b).value[j] in multiset(Infos(b).value);
  }

  lemma InfosWithout(b: seq<Field>, j: nat)
    requires j < |b| && Infos(Without(b, j)).Some? && FieldInfo(b[j].t).Some?
    ensures Infos(b).Some? && |Infos(b).value| == |b| && Infos(b).value[j] == FieldInfo(b[j].t).value
    ensures Infos(Without(b, j)).value == Without(Infos(b).value, j)
  {
    forall k | 0 <= k < |b| ensures FieldInfo(b[k].t).Some? { KnownWithout(b, j, k); }
    InfosAre(b);
    InfosAre(Without(b, j));
    var all, rest := Infos(b).value, Infos(Without(b, j)).value;
    assert |rest| == |Without(all, j)|;
    forall k | 0 <= k < |rest| ensures rest[k] == Without(all, j)[k] { InfoWithoutAt(b, j, k); }
  }

  lemma InfoWithoutAt(b: seq<Field>, j: nat, k: nat)
    requires j < |b| && k < |b| - 1 && Infos(Without(b, j)).Some? && Infos(b).Some? && |Infos(b).value| == |b|
    ensures |Infos(Without(b, j)).value| == |b| - 1
    ensures Infos(Without(b, j)).value[k] == Without(Infos(b).value, j)[k]
  {
    var c := Without(b, j);
    var at := if k < j then k else k + 1;
    InfosAre(b);
    InfosAre(c);
    assert c[k] == b[at];
    assert Without(Infos(b).value, j)[k] == Infos(b).value[at];
  }

  lemma KnownWithout(b: seq<Field>, j: nat, k: nat)
    requires j < |b| && k < |b| && Infos(Without(b, j)).Some? && FieldInfo(b[j].t).Some?
    ensures FieldInfo(b[k].t).Some?
  {
    var c := Without(b, j);
    InfosAre(c);
    if k < j { assert c[k] == b[k]; } else if k > j { assert c[k - 1] == b[k]; }
  }

  function StructBytes(fs: seq<Field>): nat
    requires Infos(fs).Some?
  {
    SizeOf(Infos(fs).value)
  }

  /** No order of the same fields makes a smaller struct. */
  ghost predicate NoBetterOrder(fs: seq<Field>)
    requires Infos(fs).Some?
  {
    forall q: seq<Field> :: multiset(q) == multiset(fs) ==> Infos(q).Some? && StructBytes(fs) <= StructBytes(q)
  }

  /** The sorted order is the best one. */
  lemma BestOrder(fs: seq<Field>)
    requires Infos(fs).Some?
    ensures Infos(Sorted(fs)).Some? && NoBetterOrder(Sorted(fs)) && StructBytes(Sorted(fs)) <= StructBytes(fs)
  {
    var best := Sorted(fs);
    SortedPermutes(fs);
    SortedOrders(fs);
    PermutedInfos(fs, best);
    InfosAre(best);
    assert Falling(Infos(best).value) by {
      forall j, k | 0 <= j < k < |best| ensures Infos(best).value[j].align >= Infos(best).value[k].align {
        assert StaysBefore(best[j], best[k]);
      }
    }
    forall q: seq<Field> | multiset(q) == multiset(best) ensures Infos(q).Some? && StructBytes(best) <= StructBytes(q) {
      PermutedInfos(best, q);
      FallingIsOptimal(Infos(best).value, Infos(q).value);
    }
  }

  datatype Advice = Advice(wasted: int, order: seq<Field>)

  /**
   * The warning of compile_struct: silent exactly when a field's layout is unknown or the order given is
   * already a best one, and otherwise naming a best order and how many bytes it saves.
   */
  method Sparsity(ms: seq<Member>) returns (a: Option<Advice>)
    ensures a.None? <==> Infos(Kept(ms)).None? || NoBetterOrder(Kept(ms))
    ensures a.Some? ==> a.value.order == Sorted(Kept(ms))
    ensures a.Some? ==> multiset(a.value.order) == multiset(Kept(ms)) && Infos(a.value.order).Some?
    ensures a.Some? ==> NoBetterOrder(a.value.order)
    ensures a.Some? ==> a.value.wasted == StructBytes(Kept(ms)) - StructBytes(a.value.order) > 0
  {
    var fields: seq<Field>, i := [], 0;
    while i < |ms|
      invariant 0 <= i <= |ms| && fields == Kept(ms[..i])
    {
      assert ms[..i + 1][..i] == ms[..i];
      if ms[i].Plain? { fields := fields + [ms[i].field]; }
      i := i + 1;
    }
    assert ms[..i] == ms;
    a := None;
    if |fields| >= 2 {
      var given := StructAlignSize(fields);
      if given.Some? {
        var order := Sorted(fields);
        var best := StructAlignSize(order);
        BestOrder(fields);
        SortedPermutes(fields);
        BytesAreSize(fields);
        BytesAreSize(order);
        if best.Some? && given.value.size - best.value.size > 0 {
          a := Some(Advice(given.value.size - best.value.size, order));
        }
      }
    } else {
      FewFields(fields);
    }
  }

  lemma BytesAreSize(fs: seq<Field>)
    ensures FieldInfo(Struct(fs)).Some? <==> Infos(fs).Some?
    ensures Infos(fs).Some? ==> FieldInfo(Struct(fs)).value.size == StructBytes(fs)
  {
  }

  lemma FewFields(fs: seq<Field>)
    requires |fs| < 2
    ensures Infos(fs).Some? ==> NoBetterOrder(fs)
  {
    assert Sorted(fs) == fs by {
      if |fs| == 1 { assert Sorted(fs[..0]) == []; }
    }
    if Infos(fs).Some? { BestOrder(fs); }
  }
}
