// Allocation merging and arena batching (compiler/codegen_stmts.py:840-921): constant-size allocations
// become slots of one block.
module ArenaBatching {
  import opened AstArena
  import opened AstReaders

  /** Where one nr_arena_alloc call after the other puts the blocks, from the arena's offset on. */
  function Slots(sizes: seq<nat>): (at: seq<nat>)
    ensures |at| == |sizes|
  {
    if sizes == [] then [] else Slots(sizes[..|sizes| - 1]) + [Total(sizes[..|sizes| - 1])]
  }

  function Total(sizes: seq<nat>): nat {
    if sizes == [] then 0 else Total(sizes[..|sizes| - 1]) + Round8(sizes[|sizes| - 1])
  }

  /** Slots are 8-aligned, inside the block, and a later one starts after an earlier one ends. */
  lemma {:induction false} SlotsAreSeparate(sizes: seq<nat>, j: nat, k: nat)
    requires j < k < |sizes|
    ensures Slots(sizes)[j] + sizes[j] <= Slots(sizes)[k]
    ensures Slots(sizes)[k] + sizes[k] <= Total(sizes)
    ensures Slots(sizes)[j] % 8 == 0 && Slots(sizes)[k] % 8 == 0
    decreases |sizes|
  {
    var n := |sizes| - 1;
    SlotFits(sizes, j);
    SlotFits(sizes, k);
    if k < n {
      SlotsAreSeparate(sizes[..n], j, k);
    } else {
      SlotFits(sizes[..n], j);
    }
  }

  lemma {:induction false} SlotFits(sizes: seq<nat>, k: nat)
    requires k < |sizes|
    ensures Slots(sizes)[k] + sizes[k] <= Total(sizes) && Slots(sizes)[k] % 8 == 0
    decreases |sizes|
  {
    var n := |sizes| - 1;
    TotalAligned(sizes[..n]);
    if k < n { SlotFits(sizes[..n], k); }
  }

  lemma {:induction false} TotalAligned(sizes: seq<nat>)
    ensures Total(sizes) % 8 == 0
  {
    if sizes != [] { TotalAligned(sizes[..|sizes| - 1]); }
  }

  /** The offsets computed at compile time, for a merged stack buffer and for an arena batch. */
  method PlanSlots(sizes: seq<nat>) returns (at: seq<nat>, total: nat)
    ensures at == Slots(sizes) && total == Total(sizes)
  {
    at, total := [], 0;
    var i := 0;
    while i < |sizes|
      invariant 0 <= i <= |sizes|
      invariant at == Slots(sizes[..i]) && Round8(total) == Total(sizes[..i])
    {
      OneMoreSlot(sizes, i);
      total := (total + 7) / 8 * 8;
      at := at + [total];
      total := total + sizes[i];
      i := i + 1;
    }
    assert sizes[..i] == sizes;
    total := (total + 7) / 8 * 8;
  }

  lemma OneMoreSlot(sizes: seq<nat>, i: nat)
    requires i < |sizes|
    ensures Slots(sizes[..i + 1]) == Slots(sizes[..i]) + [Total(sizes[..i])]
    ensures Total(sizes[..i + 1]) == Total(sizes[..i]) + Round8(sizes[i])
    ensures Round8(Total(sizes[..i]) + sizes[i]) == Total(sizes[..i + 1])
  {
    assert sizes[..i + 1][..i] == sizes[..i];
    TotalAligned(sizes[..i]);
    Round8Plus(Total(sizes[..i]), sizes[i]);
  }

  lemma Round8Plus(t: nat, n: nat)
    requires t % 8 == 0
    ensures Round8(t + n) == t + Round8(n)
  {
  }

  function Shifted(at: seq<nat>, base: nat): seq<nat> { seq(|at|, k requires 0 <= k < |at| => base + at[k]) }

  lemma ShiftedMore(at: seq<nat>, p: nat, base: nat)
    ensures Shifted(at + [p], base) == Shifted(at, base) + [base + p]
  {
  }

  /** The calls as written. */
  method Separately(a: NrArena, sizes: seq<nat>) returns (at: seq<nat>)
    requires a.size > 0 && sizes != []
    modifies a
    ensures at == Shifted(Slots(sizes), old(a.offset)) && a.offset == old(a.offset) + Total(sizes)
    ensures a.size == Doubled(old(a.size), a.offset) && a.moved == (old(a.moved) || a.size != old(a.size))
  {
    at := [];
    var i := 0;
    while i < |sizes|
      invariant 0 <= i <= |sizes| && a.size > 0
      invariant at == Shifted(Slots(sizes[..i]), old(a.offset)) && a.offset == old(a.offset) + Total(sizes[..i])
      invariant a.size == if i == 0 then old(a.size) else Doubled(old(a.size), a.offset)
      invariant a.moved == (old(a.moved) || a.size != old(a.size))
    {
      ghost var offset := a.offset;
      OneMoreSlot(sizes, i);
      ShiftedMore(Slots(sizes[..i]), Total(sizes[..i]), old(a.offset));
      var p := a.Alloc(sizes[i]);
      if i > 0 { DoubledAgain(old(a.size), offset, a.offset); }
      at := at + [p];
      i := i + 1;
    }
    assert sizes[..i] == sizes;
  }

  /** What is compiled instead: one request, and the slots carved from it. Nothing is handed out before it can move. */
  method Batched(a: NrArena, sizes: seq<nat>) returns (at: seq<nat>)
    requires a.size > 0 && sizes != []
    modifies a
    ensures at == Shifted(Slots(sizes), old(a.offset)) && a.offset == old(a.offset) + Total(sizes)
    ensures a.size == Doubled(old(a.size), a.offset) && a.moved == (old(a.moved) || a.size != old(a.size))
  {
    var slots, total := PlanSlots(sizes);
    TotalAligned(sizes);
    Round8Multiple(total);
    var base := a.Alloc(total);
    at := Shifted(slots, base);
  }

  lemma {:induction false} DoubledAgain(size: nat, first: nat, second: nat)
    requires size > 0 && first <= second
    ensures Doubled(Doubled(size, first), second) == Doubled(size, second)
    decreases second - size
  {
    if first > size { DoubledAgain(size * 2, first, second); }
  }
}
