// The field-order advice and members without a type, wherever they stand among the fields
// (compiler/codegen_stmts.py:301-330).
module StructPlaces {
  import opened Wrappers
  import opened StructLayout
  import opened StructAdvice

  // ---- Laying out step by step --------------------------------------------------------------

  /** One more field at the next multiple of its alignment. */
  lemma Next(fs: seq<Info>, end: nat, k: nat, i: Info, at: nat, more: seq<Info>)
    requires Stands(fs, end, k) && Sound(i) && Aligned(at, i.align) && end <= at < end + i.align && more == fs + [i]
    ensures Stands(more, at + i.size, if k >= i.align then k else i.align)
  {
    PadIs(end, at, i.align);
    EndMore(fs, i, at);
  }

  lemma SizeAt(fs: seq<Info>, end: nat, m: nat, size: nat)
    requires Stands(fs, end, m) && PowerOfTwo(m) && Aligned(size, m) && end <= size < end + m
    ensures SizeOf(fs) == size
  {
    SizeIs(fs, m, size);
  }

  lemma NothingStands()
    ensures Stands([], 0, 1)
  {
  }

  lemma TwiceAligned(m: nat)
    requires PowerOfTwo(m)
    ensures Aligned(m, m) && Aligned(0, m) && m >= 1 && Aligned(m + m, m) && Aligned(m + m + m, m) && PowerOfTwo(1)
  {
    PowerAligned(m);
    AddAligned(m, m, m);
    AddAligned(m + m, m, m);
  }

  // ---- Any number of members, anywhere ------------------------------------------------------

  /** What the members without a type take by themselves. */
  function Rest(ms: seq<Member>): nat {
    if ms == [] then 0
    else
      var n := |ms| - 1;
      Rest(ms[..n]) + (if ms[n].Untyped? then ms[n].layout.size else 0)
  }

  /** Byte arrays and the like, of sizes that are multiples of m. */
  predicate Blocks(ms: seq<Member>, m: nat) {
    forall k :: 0 <= k < |ms| && ms[k].Untyped? ==> ms[k].layout.align == 1 && Aligned(ms[k].layout.size, m)
  }

  ghost predicate AlignedWithin(fs: seq<Field>, m: nat) { forall f :: f in fs ==> Key(f).align <= m }

  lemma InfosFront(all: seq<Field>, front: seq<Field>, f: Field)
    requires all == front + [f] && Infos(all).Some?
    ensures Infos(front).Some? && FieldInfo(f.t) == Some(Key(f))
    ensures Infos(all).value == Infos(front).value + [Key(f)]
  {
    assert all[..|all| - 1] == front && all[|all| - 1] == f;
  }

  /** A struct beside its fields alone: it ends `rest` later. */
  ghost predicate Beside(all: seq<Info>, fs: seq<Info>, rest: nat, m: nat) {
    && AllSound(all) && AllSound(fs) && Aligned(rest, m)
    && End(all) == rest + End(fs) && MaxAlign(all) == MaxAlign(fs)
  }

  lemma FieldBeside(all: seq<Info>, fs: seq<Info>, rest: nat, i: Info, all2: seq<Info>, fs2: seq<Info>, m: nat)
    requires PowerOfTwo(m) && Beside(all, fs, rest, m) && Sound(i) && i.align <= m
    requires all2 == all + [i] && fs2 == fs + [i]
    ensures Beside(all2, fs2, rest, m)
  {
    MaxAlignIs(fs);
    NextBeside(all, fs, rest, End(fs), MaxAlign(fs), i, all2, fs2, m);
  }

  lemma NextBeside(all: seq<Info>, fs: seq<Info>, rest: nat, end: nat, k: nat, i: Info, all2: seq<Info>, fs2: seq<Info>,
                   m: nat)
    requires PowerOfTwo(m) && Stands(fs, end, k) && Stands(all, rest + end, k) && Aligned(rest, m)
    requires Sound(i) && i.align <= m && all2 == all + [i] && fs2 == fs + [i]
    ensures Beside(all2, fs2, rest, m)
  {
    var at := PadTo(end, i.align);
    PadToNear(end, i.align);
    AlignedToLess(rest, m, i.align);
    AddAligned(rest, at, i.align);
    Next(fs, end, k, i, at, fs2);
    Next(all, rest + end, k, i, rest + at, all2);
  }

  lemma BlockBeside(all: seq<Info>, fs: seq<Info>, rest: nat, u: Info, all2: seq<Info>, m: nat)
    requires PowerOfTwo(m) && Beside(all, fs, rest, m) && u.align == 1 && Aligned(u.size, m) && all2 == all + [u]
    ensures Beside(all2, fs, rest + u.size, m)
  {
    PadOne(End(all));
    MaxAlignIs(all);
    EndMore(all, u, End(all));
    AddAligned(rest, u.size, m);
  }

  /** The members' sizes are added to the fields' end. */
  lemma {:induction false} EndAmong(ms: seq<Member>, m: nat)
    requires PowerOfTwo(m) && Infos(Kept(ms)).Some? && Blocks(ms, m) && AlignedWithin(Kept(ms), m)
    ensures Beside(Laid(ms), Infos(Kept(ms)).value, Rest(ms), m)
    decreases |ms|
  {
    if ms == [] {
      ZeroAligned(m);
    } else {
      var n := |ms| - 1;
      LastAmong(ms, ms[..n], ms[n], m);
      EndAmong(ms[..n], m);
      MoreAmong(ms, ms[..n], ms[n], m);
    }
  }

  lemma MoreAmong(ms: seq<Member>, front: seq<Member>, last: Member, m: nat)
    requires PowerOfTwo(m) && ms == front + [last] && Infos(Kept(ms)).Some? && Blocks(ms, m)
    requires AlignedWithin(Kept(ms), m) && Infos(Kept(front)).Some?
    requires Beside(Laid(front), Infos(Kept(front)).value, Rest(front), m)
    ensures Beside(Laid(ms), Infos(Kept(ms)).value, Rest(ms), m)
  {
    LastAmong(ms, front, last, m);
    var all, fs, rest := Laid(front), Infos(Kept(front)).value, Rest(front);
    if last.Plain? {
      FieldBeside(all, fs, rest, Key(last.field), Laid(ms), Infos(Kept(ms)).value, m);
    } else {
      BlockBeside(all, fs, rest, last.layout, Laid(ms), m);
    }
  }

  lemma LastAmong(ms: seq<Member>, front: seq<Member>, last: Member, m: nat)
    requires ms == front + [last] && Infos(Kept(ms)).Some? && Blocks(ms, m) && AlignedWithin(Kept(ms), m)
    ensures Infos(Kept(front)).Some? && Blocks(front, m) && AlignedWithin(Kept(front), m)
    ensures Laid(ms) == Laid(front) + [if last.Plain? then Key(last.field) else last.layout]
    ensures last.Plain? ==>
              && Infos(Kept(ms)).value == Infos(Kept(front)).value + [Key(last.field)]
              && Sound(Key(last.field)) && Key(last.field).align <= m && Rest(ms) == Rest(front)
    ensures last.Untyped? ==>
              && Kept(ms) == Kept(front) && Rest(ms) == Rest(front) + last.layout.size
              && last.layout.align == 1 && Aligned(last.layout.size, m)
  {
    KeptMore(front, last);
    LaidMore(front, last);
    assert ms[..|front|] == front && ms[|front|] == last;
    assert Blocks(front, m) by { forall k | 0 <= k < |front| ensures front[k] == ms[k] { } }
    if last.Plain? {
      InfosFront(Kept(ms), Kept(front), last.field);
    } else {
      assert Kept(front) + [] == Kept(front);
    }
  }

  lemma SizeAmong(ms: seq<Member>, m: nat)
    requires Infos(Kept(ms)).Some? && MaxAlign(Infos(Kept(ms)).value) == m && PowerOfTwo(m) && Blocks(ms, m)
    ensures AllSound(Laid(ms)) && SizeOf(Laid(ms)) == Rest(ms) + StructBytes(Kept(ms))
  {
    var fs := Infos(Kept(ms)).value;
    InfosAre(Kept(ms));
    MaxAlignIs(fs);
    forall f | f in Kept(ms) ensures Key(f).align <= m {
      var k :| 0 <= k < |Kept(ms)| && Kept(ms)[k] == f;
      assert fs[k] == Key(f);
    }
    EndAmong(ms, m);
    SizeNear(fs, m);
    SizeMoves(Rest(ms), Laid(ms), End(fs), SizeOf(fs), m);
  }

  lemma {:induction false} SameRest(ms: seq<Member>, ns: seq<Member>)
    requires |ns| == |ms|
    requires forall i :: 0 <= i < |ms| ==> if ms[i].Untyped? then ns[i] == ms[i] else ns[i].Plain?
    ensures Rest(ns) == Rest(ms)
    decreases |ms|
  {
    if ms != [] { SameRest(ms[..|ms| - 1], ns[..|ms| - 1]); }
  }

  /** Among members of alignment 1 whose sizes are multiples of the fields' largest alignment, however many and
      wherever they stand, the struct is their sizes and the fields', in any order of the fields: following the
      advice saves what it promises. */
  lemma AdviceAmongBlocks(ms: seq<Member>, ns: seq<Member>, m: nat)
    requires Infos(Kept(ms)).Some? && MaxAlign(Infos(Kept(ms)).value) == m && Blocks(ms, m)
    requires Followed(ms, Sorted(Kept(ms)), ns)
    ensures AllSound(Laid(ms)) && SizeOf(Laid(ms)) == Rest(ms) + StructBytes(Kept(ms))
    ensures Infos(Kept(ns)).Some? && AllSound(Laid(ns)) && SizeOf(Laid(ns)) == Rest(ms) + StructBytes(Kept(ns))
    ensures SizeOf(Laid(ms)) - SizeOf(Laid(ns)) == StructBytes(Kept(ms)) - StructBytes(Sorted(Kept(ms)))
  {
    MaxAlignIs(Infos(Kept(ms)).value);
    SizeAmong(ms, m);
    SortedPermutes(Kept(ms));
    PermutedInfos(Kept(ms), Kept(ns));
    MaxAlignWithin(Infos(Kept(ms)).value, Infos(Kept(ns)).value);
    MaxAlignWithin(Infos(Kept(ns)).value, Infos(Kept(ms)).value);
    forall k | 0 <= k < |ns| && ns[k].Untyped? ensures ms[k] == ns[k] { }
    SizeAmong(ns, m);
    SameRest(ms, ns);
  }

  // ---- One member at a place ----------------------------------------------------------------

  function Inserted(fs: seq<Info>, u: Info, p: nat): seq<Info>
    requires p <= |fs|
  {
    fs[..p] + [u] + fs[p..]
  }

  /** The saving is the real one when u stands after p fields. */
  ghost predicate SavesAt(u: Info, fs: seq<Info>, best: seq<Info>, p: nat)
    requires Sound(u) && AllSound(fs) && AllSound(best) && p <= |fs| && p <= |best|
  {
    && AllSound(Inserted(fs, u, p)) && AllSound(Inserted(best, u, p))
    && SizeOf(Inserted(fs, u, p)) - SizeOf(Inserted(best, u, p)) == SizeOf(fs) - SizeOf(best)
  }

  /** Fields of largest alignment m and a best order of them. */
  ghost predicate Choice(fs: seq<Info>, best: seq<Info>, m: nat) {
    AllSound(fs) && AllSound(best) && MaxAlign(fs) == m && BestOf(fs, best) && |fs| == |best|
  }

  lemma {:induction false} EndInserted(fs: seq<Info>, u: Info, p: nat, m: nat)
    requires PowerOfTwo(m) && AllSound(fs) && p <= |fs| && u.align == 1 && Aligned(u.size, m) && Sound(u)
    requires forall k :: 0 <= k < |fs| ==> fs[k].align <= m
    ensures Beside(Inserted(fs, u, p), fs, u.size, m)
    decreases |fs|
  {
    if p == |fs| {
      assert Inserted(fs, u, p) == fs + [u];
      PadOne(End(fs));
      MaxAlignIs(fs);
      EndMore(fs, u, End(fs));
    } else {
      var n := |fs| - 1;
      EndInserted(fs[..n], u, p, m);
      assert Inserted(fs, u, p) == Inserted(fs[..n], u, p) + [fs[n]] && fs == fs[..n] + [fs[n]];
      FieldBeside(Inserted(fs[..n], u, p), fs[..n], u.size, fs[n], Inserted(fs, u, p), fs, m);
    }
  }

  lemma SizeInserted(fs: seq<Info>, u: Info, p: nat, m: nat)
    requires PowerOfTwo(m) && AllSound(fs) && p <= |fs| && u.align == 1 && Aligned(u.size, m) && Sound(u)
    requires MaxAlign(fs) == m
    ensures AllSound(Inserted(fs, u, p)) && SizeOf(Inserted(fs, u, p)) == u.size + SizeOf(fs)
  {
    MaxAlignIs(fs);
    EndInserted(fs, u, p, m);
    SizeNear(fs, m);
    SizeMoves(u.size, Inserted(fs, u, p), End(fs), SizeOf(fs), m);
  }

  // ---- Behind all fields --------------------------------------------------------------------

  ghost predicate AlwaysRightBehind(u: Info, m: nat)
    requires Sound(u)
  {
    forall fs, best :: Choice(fs, best, m) ==> SavesAt(u, fs, best, |fs|)
  }

  lemma SizeWithTail(u: Info, fs: seq<Info>, more: seq<Info>, m: nat)
    requires Sound(u) && PowerOfTwo(m) && u.align <= m && Aligned(u.size, m) && AllSound(fs) && MaxAlign(fs) == m
    requires more == fs + [u]
    ensures AllSound(more) && SizeOf(more) == SizeOf(fs) + u.size
  {
    SizeNear(fs, m);
    TailStands(u, fs, more, End(fs), SizeOf(fs), m);
  }

  lemma TailStands(u: Info, fs: seq<Info>, more: seq<Info>, end: nat, size: nat, m: nat)
    requires Sound(u) && PowerOfTwo(m) && u.align <= m && Aligned(u.size, m) && Stands(fs, end, m)
    requires end <= size < end + m && Aligned(size, m) && more == fs + [u]
    ensures AllSound(more) && SizeOf(more) == size + u.size
  {
    var at := PadTo(end, u.align);
    AlignedToLess(size, m, u.align);
    PadToIsLeast(end, u.align);
    PadToNear(end, u.align);
    Next(fs, end, m, u, at, more);
    AddAligned(size, u.size, m);
    SizeAt(more, at + u.size, m, size + u.size);
  }

  lemma TailSize(u: Info, fs: seq<Info>, more: seq<Info>, end: nat, k: nat)
    requires Sound(u) && Stands(fs, end, k) && more == fs + [u]
    ensures AllSound(more) && u.align >= 1
    ensures SizeOf(more) == PadTo(PadTo(end, u.align) + u.size, if k >= u.align then k else u.align)
  {
    PowerAligned(u.align);
    EndMore(fs, u, PadTo(end, u.align));
  }

  lemma SameTail(u: Info, fs: seq<Info>, best: seq<Info>)
    requires Sound(u) && AllSound(fs) && AllSound(best) && End(fs) == End(best) && MaxAlign(fs) == MaxAlign(best)
    ensures AllSound(fs + [u]) && AllSound(best + [u]) && SizeOf(fs + [u]) == SizeOf(best + [u])
  {
    MaxAlignIs(fs);
    TailSize(u, fs, fs + [u], End(fs), MaxAlign(fs));
    TailSize(u, best, best + [u], End(fs), MaxAlign(fs));
  }

  lemma RightBehind(u: Info, fs: seq<Info>, best: seq<Info>, m: nat)
    requires Sound(u) && PowerOfTwo(m) && (m == 1 || (u.align <= m && Aligned(u.size, m))) && Choice(fs, best, m)
    ensures SavesAt(u, fs, best, |fs|)
  {
    assert Inserted(fs, u, |fs|) == fs + [u] && Inserted(best, u, |fs|) == best + [u];
    MaxAlignWithin(fs, best);
    MaxAlignWithin(best, fs);
    if m == 1 {
      BytesSum(fs);
      BytesSum(best);
      SameSum(fs, best);
      SameTail(u, fs, best);
    } else {
      SizeWithTail(u, fs, fs + [u], m);
      SizeWithTail(u, best, best + [u], m);
    }
  }

  lemma BytesSum(fs: seq<Info>)
    requires AllSound(fs) && MaxAlign(fs) == 1
    ensures End(fs) == Sum(fs) && SizeOf(fs) == PadTo(Sum(fs), 1)
  {
    MaxAlignIs(fs);
    forall k | 0 <= k < |fs| ensures fs[k].align == 1 { assert Sound(fs[k]); }
    FallingHasNoGaps(fs);
  }

  /** i8, then a field of size and alignment m. */
  function Pair(m: nat): seq<Info> { [Info(1, 1), Info(m, m)] }

  function SortedPair(m: nat): seq<Info> { [Info(m, m), Info(1, 1)] }

  lemma PairStands(m: nat, a: seq<Info>, b: seq<Info>)
    requires PowerOfTwo(m) && m >= 2 && a == [Info(1, 1)] && b == a + [Info(m, m)]
    ensures Stands(b, 2 * m, m) && SizeOf(b) == 2 * m
  {
    TwiceAligned(m);
    NothingStands();
    Next([], 0, 1, Info(1, 1), 0, a);
    Next(a, 1, 1, Info(m, m), m, b);
    SizeAt(b, m + m, m, m + m);
  }

  lemma SortedPairStands(m: nat, a: seq<Info>, b: seq<Info>)
    requires PowerOfTwo(m) && m >= 2 && a == [Info(m, m)] && b == a + [Info(1, 1)]
    ensures Stands(b, m + 1, m) && SizeOf(b) == 2 * m
  {
    TwiceAligned(m);
    NothingStands();
    Next([], 0, 1, Info(m, m), 0, a);
    Next(a, m, m, Info(1, 1), m, b);
    SizeAt(b, m + 1, m, m + m);
  }

  lemma PairsChoice(m: nat, fs: seq<Info>, best: seq<Info>)
    requires PowerOfTwo(m) && m >= 2 && fs == Pair(m) && best == SortedPair(m)
    ensures Choice(fs, best, m)
    ensures Stands(fs, 2 * m, m) && SizeOf(fs) == 2 * m
    ensures Stands(best, m + 1, m) && SizeOf(best) == 2 * m
  {
    PairStands(m, [Info(1, 1)], fs);
    SortedPairStands(m, [Info(m, m)], best);
    SwappedPair(Info(1, 1), Info(m, m), fs, best);
  }

  lemma SwappedPair(i: Info, j: Info, fs: seq<Info>, gs: seq<Info>)
    requires fs == [i, j] && gs == [j, i] && j.align >= i.align
    ensures BestOf(fs, gs)
  {
  }

  /** A tail that is no multiple of m fills the padding after i8 and m, m and i8 differently. */
  lemma PairNotSaved(u: Info, m: nat, t: nat, fs: seq<Info>, best: seq<Info>)
    requires Sound(u) && PowerOfTwo(m) && m >= 2 && u.align <= m && Aligned(t, m) && t < u.size < t + m
    requires fs == Pair(m) && best == SortedPair(m)
    ensures Choice(fs, best, m) && !SavesAt(u, fs, best, |fs|)
  {
    PairsChoice(m, fs, best);
    AtEnd(fs, u);
    AtEnd(best, u);
    PairTail(u, m, t, fs, fs + [u]);
    SortedPairTail(u, m, t, best, best + [u]);
  }

  lemma AtEnd(fs: seq<Info>, u: Info)
    ensures Inserted(fs, u, |fs|) == fs + [u]
  {
  }

  lemma PairTail(u: Info, m: nat, t: nat, fs: seq<Info>, more: seq<Info>)
    requires Sound(u) && PowerOfTwo(m) && m >= 2 && u.align <= m && Aligned(t, m) && t < u.size < t + m
    requires Stands(fs, 2 * m, m) && more == fs + [u]
    ensures AllSound(more) && SizeOf(more) == t + 3 * m
  {
    TwiceAligned(m);
    AlignedToLess(m + m, m, u.align);
    Next(fs, m + m, m, u, m + m, more);
    AddAligned(t, m + m + m, m);
    SizeAt(more, m + m + u.size, m, t + (m + m + m));
  }

  lemma SortedPairTail(u: Info, m: nat, t: nat, fs: seq<Info>, more: seq<Info>)
    requires Sound(u) && PowerOfTwo(m) && m >= 2 && u.align <= m && Aligned(t, m) && t < u.size < t + m
    requires Stands(fs, m + 1, m) && more == fs + [u]
    ensures AllSound(more) && SizeOf(more) == t + 2 * m
  {
    TailFits(u, m, t);
    Next(fs, m + 1, m, u, m + u.align, more);
    SizeAt(more, m + u.align + u.size, m, t + m + m);
  }

  lemma TailFits(u: Info, m: nat, t: nat)
    requires Sound(u) && PowerOfTwo(m) && u.align <= m && Aligned(t, m) && t < u.size < t + m
    ensures u.align >= 1 && Aligned(m + u.align, u.align) && Aligned(t + m + m, m) && u.size + u.align <= t + m
  {
    PowerAligned(m);
    PowerAligned(u.align);
    AlignedToLess(m, m, u.align);
    AddAligned(m, u.align, u.align);
    AddAligned(t, m, m);
    AddAligned(t + m, m, m);
    AlignedToLess(t + m, m, u.align);
    AddAligned(u.size, u.align, u.align);
    NoneBetween(u.size + u.align, t + m, u.align);
  }

  lemma WiderTailNotSaved(u: Info, m: nat, fs: seq<Info>, best: seq<Info>)
    requires Sound(u) && m >= 2 && u.align > m && |fs| == |best|
    requires AllSound(fs) && AllSound(best) && MaxAlign(fs) == m && MaxAlign(best) == m
    requires SizeOf(fs) == SizeOf(best) + m
    ensures !SavesAt(u, fs, best, |fs|)
  {
    AtEnd(fs, u);
    AtEnd(best, u);
    MaxLast(u, fs, fs + [u]);
    MaxLast(u, best, best + [u]);
    if AllSound(fs + [u]) && AllSound(best + [u]) { NeverApart(fs + [u], best + [u], u.align, m); }
  }

  /** Multiples of a are not m bytes apart. */
  lemma NeverApart(x: seq<Info>, y: seq<Info>, a: nat, m: nat)
    requires AllSound(x) && AllSound(y) && MaxAlign(x) == a && MaxAlign(y) == a && 0 < m < a
    ensures SizeOf(x) - SizeOf(y) != m
  {
    if SizeOf(x) < SizeOf(y) + a { NoneBetween(SizeOf(x), SizeOf(y), a); }
  }

  lemma MaxLast(u: Info, fs: seq<Info>, more: seq<Info>)
    requires u.align >= MaxAlign(fs) && more == fs + [u]
    ensures MaxAlign(more) == u.align
  {
    assert more[..|fs|] == fs;
  }

  lemma SandwichChoice(m: nat, fs: seq<Info>, best: seq<Info>)
    requires PowerOfTwo(m) && m >= 2 && fs == Sandwich(m) && best == Sorted3(m)
    ensures Choice(fs, best, m) && MaxAlign(best) == m && SizeOf(fs) == SizeOf(best) + m
  {
    SandwichSorted(m);
    SandwichSizes(m, [], fs, best);
  }

  lemma SandwichSizes(m: nat, front: seq<Info>, fs: seq<Info>, best: seq<Info>)
    requires PowerOfTwo(m) && m >= 2 && front == [] && fs == front + Sandwich(m) && best == front + Sorted3(m)
    ensures AllSound(fs) && AllSound(best) && MaxAlign(fs) == m && MaxAlign(best) == m
    ensures SizeOf(fs) == SizeOf(best) + m
  {
    PowerAligned(m);
    NothingStands();
    SandwichAfter(front, 0, 1, 0, m);
    Sorted3After(front, 0, 1, 0, m);
  }

  lemma NotAlwaysBehind(u: Info, m: nat, fs: seq<Info>, best: seq<Info>)
    requires Sound(u) && Choice(fs, best, m) && !SavesAt(u, fs, best, |fs|)
    ensures !AlwaysRightBehind(u, m)
  {
  }

  lemma WiderFails(u: Info, m: nat)
    requires Sound(u) && PowerOfTwo(m) && m >= 2 && u.align > m
    ensures !AlwaysRightBehind(u, m)
  {
    var fs, best := Sandwich(m), Sorted3(m);
    SandwichChoice(m, fs, best);
    WiderTailNotSaved(u, m, fs, best);
    NotAlwaysBehind(u, m, fs, best);
  }

  lemma UnevenPair(u: Info, m: nat, t: nat, fs: seq<Info>, best: seq<Info>)
    requires Sound(u) && PowerOfTwo(m) && m >= 2 && u.align <= m && Aligned(t, m) && t < u.size < t + m
    requires fs == Pair(m) && best == SortedPair(m)
    ensures !AlwaysRightBehind(u, m)
  {
    PairNotSaved(u, m, t, fs, best);
    NotAlwaysBehind(u, m, fs, best);
  }

  lemma UnevenFails(u: Info, m: nat, t: nat)
    requires Sound(u) && PowerOfTwo(m) && m >= 2 && u.align <= m && Aligned(t, m) && t < u.size < t + m
    ensures !AlwaysRightBehind(u, m)
  {
    UnevenPair(u, m, t, Pair(m), SortedPair(m));
  }

  lemma SomeUnevenFails(u: Info, m: nat)
    requires Sound(u) && PowerOfTwo(m) && m >= 2 && u.align <= m && !Aligned(u.size, m)
    ensures !AlwaysRightBehind(u, m)
  {
    var t := AndNot(u.size, m - 1);
    AndNotRoundsDown(u.size, m);
    assert t < u.size;
    UnevenFails(u, m, t);
  }

  lemma AheadHolds(u: Info, m: nat)
    requires Sound(u) && PowerOfTwo(m) && (m == 1 || (u.align <= m && Aligned(u.size, m)))
    ensures AlwaysRightBehind(u, m)
  {
    forall fs, best | Choice(fs, best, m) ensures SavesAt(u, fs, best, |fs|) { RightBehind(u, fs, best, m); }
  }

  /** With a member u after the fields that the advice does not look at: the same condition as in front. */
  lemma AdviceAheadExactly(u: Info, m: nat)
    requires Sound(u) && PowerOfTwo(m)
    ensures AlwaysRightBehind(u, m) <==> m == 1 || (u.align <= m && Aligned(u.size, m))
  {
    if m == 1 || (u.align <= m && Aligned(u.size, m)) {
      AheadHolds(u, m);
    } else if u.align > m {
      WiderFails(u, m);
    } else {
      SomeUnevenFails(u, m);
    }
  }

  // ---- Anywhere -----------------------------------------------------------------------------

  ghost predicate AlwaysRightAnywhere(u: Info, m: nat)
    requires Sound(u)
  {
    forall fs, best, p: nat :: Choice(fs, best, m) && p <= |fs| ==> SavesAt(u, fs, best, p)
  }

  lemma NotAlwaysAnywhere(u: Info, m: nat, fs: seq<Info>, best: seq<Info>, p: nat)
    requires Sound(u) && Choice(fs, best, m) && p <= |fs| && !SavesAt(u, fs, best, p)
    ensures !AlwaysRightAnywhere(u, m)
  {
  }

  lemma NotBehindNotAnywhere(u: Info, m: nat)
    requires Sound(u) && !AlwaysRightBehind(u, m)
    ensures !AlwaysRightAnywhere(u, m)
  {
    var fs, best :| Choice(fs, best, m) && !SavesAt(u, fs, best, |fs|);
    NotAlwaysAnywhere(u, m, fs, best, |fs|);
  }

  lemma Rotated(i: Info, j: Info, k: Info, fs: seq<Info>, gs: seq<Info>)
    requires fs == [i, j, k] && gs == [k, i, j]
    ensures multiset(gs) == multiset(fs)
  {
    assert fs == [i, j] + [k] && gs == [k] + [i, j];
  }

  ghost predicate InTurn(a: seq<Info>, b: seq<Info>, c: seq<Info>, i: Info, j: Info, k: Info) {
    Sound(i) && Sound(j) && Sound(k) && a == [i] && b == a + [j] && c == b + [k]
  }

  function Larger(a: nat, b: nat): nat { if a >= b then a else b }

  /** Three fields one after the other, each at the next multiple of its alignment. */
  lemma ThreeStand(i: Info, j: Info, k: Info, at: nat, at2: nat, a: seq<Info>, b: seq<Info>, c: seq<Info>)
    requires InTurn(a, b, c, i, j, k)
    requires Aligned(at, j.align) && i.size <= at < i.size + j.align
    requires Aligned(at2, k.align) && at + j.size <= at2 < at + j.size + k.align
    ensures Stands(c, at2 + k.size, Larger(Larger(i.align, j.align), k.align))
  {
    PowerAligned(i.align);
    NothingStands();
    Next([], 0, 1, i, 0, a);
    Next(a, i.size, i.align, j, at, b);
    Next(b, at + j.size, Larger(i.align, j.align), k, at2, c);
  }

  lemma ThreeSize(i: Info, j: Info, k: Info, at: nat, at2: nat, m: nat, size: nat, fs: seq<Info>)
    requires Sound(i) && Sound(j) && Sound(k) && fs == [i, j, k]
    requires Aligned(at, j.align) && i.size <= at < i.size + j.align
    requires Aligned(at2, k.align) && at + j.size <= at2 < at + j.size + k.align
    requires m == Larger(Larger(i.align, j.align), k.align) && PowerOfTwo(m)
    requires Aligned(size, m) && at2 + k.size <= size < at2 + k.size + m
    ensures AllSound(fs) && MaxAlign(fs) == m && SizeOf(fs) == size
  {
    ThreeStand(i, j, k, at, at2, [i], [i] + [j], fs);
    SizeAt(fs, at2 + k.size, m, size);
  }

  lemma InsertedSecond(i: Info, u: Info, j: Info, k: Info, fs: seq<Info>, all: seq<Info>)
    requires fs == [i, j, k] && all == [i, u, j, k]
    ensures Inserted(fs, u, 1) == all
  {
  }

  /** Three fields, the first followed by u. */
  lemma FourSize(i: Info, u: Info, j: Info, k: Info, at: nat, at2: nat, at3: nat, m: nat, size: nat, all: seq<Info>)
    requires Sound(i) && Sound(j) && Sound(k) && Sound(u) && all == [i, u, j, k]
    requires Aligned(at, u.align) && i.size <= at < i.size + u.align
    requires Aligned(at2, j.align) && at + u.size <= at2 < at + u.size + j.align
    requires Aligned(at3, k.align) && at2 + j.size <= at3 < at2 + j.size + k.align
    requires m == Larger(Larger(Larger(i.align, u.align), j.align), k.align) && PowerOfTwo(m)
    requires Aligned(size, m) && at3 + k.size <= size < at3 + k.size + m
    ensures AllSound(all) && SizeOf(all) == size
  {
    var c := FourAre(i, u, j, k, all);
    ThreeStand(i, u, j, at, at2, [i], [i] + [u], c);
    FourthAt(c, at2 + j.size, Larger(Larger(i.align, u.align), j.align), k, at3, m, size, all);
  }

  lemma FourAre(i: Info, u: Info, j: Info, k: Info, all: seq<Info>) returns (c: seq<Info>)
    requires all == [i, u, j, k]
    ensures c == [i] + [u] + [j] && all == c + [k]
  {
    c := [i] + [u] + [j];
  }

  lemma FourthAt(c: seq<Info>, end: nat, x: nat, k: Info, at: nat, m: nat, size: nat, all: seq<Info>)
    requires Stands(c, end, x) && Sound(k) && Aligned(at, k.align) && end <= at < end + k.align && all == c + [k]
    requires m == Larger(x, k.align) && PowerOfTwo(m) && Aligned(size, m) && at + k.size <= size < at + k.size + m
    ensures AllSound(all) && SizeOf(all) == size
  {
    Next(c, end, x, k, at, all);
    SizeAt(all, at + k.size, m, size);
  }

  /** Two orders of the same size, and with u after the first field of different ones. */
  lemma NotSavedAfterFirst(u: Info, m: nat, fs: seq<Info>, best: seq<Info>, a: seq<Info>, b: seq<Info>)
    requires Sound(u) && Choice(fs, best, m) && |fs| >= 1 && SizeOf(fs) == SizeOf(best)
    requires a == Inserted(fs, u, 1) && b == Inserted(best, u, 1)
    requires AllSound(a) && AllSound(b) && SizeOf(a) != SizeOf(b)
    ensures !AlwaysRightAnywhere(u, m)
  {
    NotAlwaysAnywhere(u, m, fs, best, 1);
  }

  lemma PackedSizes(m: nat, fs: seq<Info>, best: seq<Info>, i: Info, j: Info, k: Info)
    requires PowerOfTwo(m) && m >= 2
    requires i == Info(1, 1) && j == Info(1, m - 1) && k == Info(m, m) && fs == [i, j, k] && best == [k, i, j]
    ensures Choice(fs, best, m) && SizeOf(fs) == SizeOf(best)
  {
    TwiceAligned(m);
    ThreeSize(i, j, k, 1, m, m, m + m, fs);
    ThreeSize(k, i, j, m, m + 1, m, m + m, best);
    Rotated(i, j, k, fs, best);
    FallingThree(k, i, j, best);
  }

  lemma PackedAround(u: Info, m: nat, a: seq<Info>, b: seq<Info>, i: Info, j: Info, k: Info)
    requires Sound(u) && PowerOfTwo(m) && 2 <= u.align <= m && Aligned(u.size, m)
    requires i == Info(1, 1) && j == Info(1, m - 1) && k == Info(m, m) && a == [i, u, j, k] && b == [k, u, i, j]
    ensures AllSound(a) && SizeOf(a) == u.size + 3 * m && AllSound(b) && SizeOf(b) == u.size + 2 * m
  {
    var z := u.size;
    TwiceAligned(m);
    AlignedToLess(m, m, u.align);
    PowerAligned(u.align);
    AddAligned(z, m + m, m);
    AddAligned(z, m + m + m, m);
    FourSize(i, u, j, k, u.align, u.align + z, z + (m + m), m, z + (m + m + m), a);
    FourSize(k, u, i, j, m, m + z, m + z + 1, m, z + (m + m), b);
  }

  /** i8, m - 1 bytes and a field of size and alignment m, with u after the first: nothing is to be saved without
      u, m bytes are with it. */
  lemma PackedFails(u: Info, m: nat, fs: seq<Info>, best: seq<Info>, i: Info, j: Info, k: Info)
    requires Sound(u) && PowerOfTwo(m) && 2 <= u.align <= m && Aligned(u.size, m)
    requires i == Info(1, 1) && j == Info(1, m - 1) && k == Info(m, m) && fs == [i, j, k] && best == [k, i, j]
    ensures !AlwaysRightAnywhere(u, m)
  {
    var a, b := [i, u, j, k], [k, u, i, j];
    PackedSizes(m, fs, best, i, j, k);
    PackedAround(u, m, a, b, i, j, k);
    InsertedSecond(i, u, j, k, fs, a);
    InsertedSecond(k, u, i, j, best, b);
    NotSavedAfterFirst(u, m, fs, best, a, b);
  }

  lemma BytesSizes(fs: seq<Info>, best: seq<Info>, i: Info, j: Info)
    requires i == Info(1, 1) && j.align == 1 && fs == [i, j, i] && best == [j, i, i]
    ensures Choice(fs, best, 1) && SizeOf(fs) == SizeOf(best)
  {
    PowerAligned(1);
    ThreeSize(i, j, i, 1, 1 + j.size, 1, j.size + 2, fs);
    ThreeSize(j, i, i, j.size, j.size + 1, 1, j.size + 2, best);
    Swapped(i, j, i, fs, best);
    FallingThree(j, i, i, best);
  }

  lemma BytesAround(u: Info, a: seq<Info>, b: seq<Info>, i: Info, j: Info)
    requires Sound(u) && u.align >= 2 && i == Info(1, 1) && j == Info(1, u.align)
    requires a == [i, u, j, i] && b == [j, u, i, i]
    ensures AllSound(a) && SizeOf(a) == u.size + 3 * u.align && AllSound(b) && SizeOf(b) == u.size + 2 * u.align
  {
    BytesAroundGiven(u, u.size, u.align, a, i, j);
    BytesAroundBest(u, u.size, u.align, b, i, j);
  }

  lemma BytesAroundGiven(u: Info, z: nat, m: nat, a: seq<Info>, i: Info, j: Info)
    requires Sound(u) && u == Info(m, z) && m >= 2 && i == Info(1, 1) && j == Info(1, m) && a == [i, u, j, i]
    ensures AllSound(a) && SizeOf(a) == z + 3 * m
  {
    PowerAligned(1);
    TwiceAligned(m);
    AddAligned(z, m + m + m, m);
    FourSize(i, u, j, i, m, m + z, m + z + m, m, z + (m + m + m), a);
  }

  lemma BytesAroundBest(u: Info, z: nat, m: nat, b: seq<Info>, i: Info, j: Info)
    requires Sound(u) && u == Info(m, z) && m >= 2 && i == Info(1, 1) && j == Info(1, m) && b == [j, u, i, i]
    ensures AllSound(b) && SizeOf(b) == z + 2 * m
  {
    PowerAligned(1);
    TwiceAligned(m);
    AddAligned(z, m + m, m);
    FourSize(j, u, i, i, m, m + z, m + z + 1, m, z + (m + m), b);
  }

  /** One byte, as many as u's alignment, and one byte, with u after the first. */
  lemma BytesFail(u: Info, fs: seq<Info>, best: seq<Info>, i: Info, j: Info)
    requires Sound(u) && u.align >= 2
    requires i == Info(1, 1) && j == Info(1, u.align) && fs == [i, j, i] && best == [j, i, i]
    ensures !AlwaysRightAnywhere(u, 1)
  {
    var a, b := [i, u, j, i], [j, u, i, i];
    BytesSizes(fs, best, i, j);
    BytesAround(u, a, b, i, j);
    InsertedSecond(i, u, j, i, fs, a);
    InsertedSecond(j, u, i, i, best, b);
    NotSavedAfterFirst(u, 1, fs, best, a, b);
  }

  /** Wherever a member u that the advice does not look at may stand, the promised saving is the real one for all
      fields of largest alignment m if and only if u needs no alignment and its size is a multiple of m. */
  lemma AdviceAnywhereExactly(u: Info, m: nat)
    requires Sound(u) && PowerOfTwo(m)
    ensures AlwaysRightAnywhere(u, m) <==> u.align == 1 && Aligned(u.size, m)
  {
    if u.align == 1 && Aligned(u.size, m) {
      forall fs, best, p: nat | Choice(fs, best, m) && p <= |fs| ensures SavesAt(u, fs, best, p) {
        MaxAlignWithin(fs, best);
        MaxAlignWithin(best, fs);
        SizeInserted(fs, u, p, m);
        SizeInserted(best, u, p, m);
      }
    } else {
      PowerAligned(u.align);
      FailsSomewhere(u, m);
    }
  }

  lemma FailsSomewhere(u: Info, m: nat)
    requires Sound(u) && PowerOfTwo(m) && (u.align >= 2 || !Aligned(u.size, m))
    ensures !AlwaysRightAnywhere(u, m)
  {
    var one := Info(1, 1);
    if m == 1 {
      BytesFail(u, [one, Info(1, u.align), one], [Info(1, u.align), one, one], one, Info(1, u.align));
    } else if u.align <= m && Aligned(u.size, m) {
      var j, k := Info(1, m - 1), Info(m, m);
      PackedFails(u, m, [one, j, k], [k, one, j], one, j, k);
    } else {
      AdviceAheadExactly(u, m);
      NotBehindNotAnywhere(u, m);
    }
  }
}
