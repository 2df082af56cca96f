// Stack-variable lifetime narrowing: which top-level struct locals get their own { } block, and that
// the emitted blocks nest, close the right variable, and never hide a local from a later use.
module Scopes {
  import opened Blocks
  import opened Wrappers

  /** A top-level statement: the name it declares with an annotation (and whether with a user struct
      type), the name it plainly assigns, all names in it, and the names it takes the address of. */
  datatype Stmt =
    | Stmt(decl: Option<string>, isStruct: bool, assign: Option<string>, names: set<string>, refs: set<string>)

  type Body = seq<Stmt>

  // ---- Declarations and last uses -----------------------------------------------------------

  predicate Declares(s: Stmt, v: string) { s.decl == Some(v) }

  /** Statement j is the last struct declaration of its variable: later ones overwrite earlier ones. */
  predicate IsLvDecl(b: Body, j: nat) {
    j < |b| && b[j].decl.Some? && b[j].isStruct &&
    forall i :: j < i < |b| ==> !(b[i].isStruct && Declares(b[i], b[j].decl.value))
  }

  /** Last statement at or after d that mentions v; d itself when none does. */
  function LastUse(b: Body, v: string, d: nat, n: nat): (l: nat)
    requires d < |b| && n <= |b|
    ensures d <= l < |b|
    ensures l == d || (l < n && v in b[l].names)
    ensures forall i :: d <= i < n && v in b[i].names ==> i <= l
    decreases n
  {
    if n <= d then d
    else if v in b[n - 1].names then n - 1
    else LastUse(b, v, d, n - 1)
  }

  function End(b: Body, j: nat): (l: nat)
    requires IsLvDecl(b, j)
    ensures j <= l < |b|
  {
    LastUse(b, b[j].decl.value, j, |b|)
  }

  predicate AddressTaken(b: Body, v: string) { exists i :: 0 <= i < |b| && v in b[i].refs }

  /** Statement j opens a candidate interval [j, End(j)]. */
  predicate Candidate(b: Body, j: nat) {
    IsLvDecl(b, j) && !AddressTaken(b, b[j].decl.value)
  }

  predicate PartialOverlap(d1: nat, l1: nat, d2: nat, l2: nat) {
    d1 <= l2 && d2 <= l1 && !(d1 <= d2 && l2 <= l1) && !(d2 <= d1 && l1 <= l2)
  }

  predicate Clashes(b: Body, j: nat)
    requires Candidate(b, j)
  {
    exists k :: 0 <= k < |b| && k != j && Candidate(b, k) && PartialOverlap(j, End(b, j), k, End(b, k))
  }

  /** Statement i is the declaration of x that counts: the last annotated one or, without any, the
      first plain assignment. */
  predicate IsLocalDecl(b: Body, x: string, i: nat) {
    i < |b| &&
    if Declares(b[i], x) then forall k :: i < k < |b| ==> !Declares(b[k], x)
    else
      && b[i].assign == Some(x) && (forall k :: 0 <= k < |b| ==> !Declares(b[k], x))
      && (forall k :: 0 <= k < i ==> b[k].assign != Some(x))
  }

  function NameOf(s: Stmt): Option<string> {
    if s.decl.Some? then s.decl else s.assign
  }

  /** Closing the block at End(j) would hide a local declared inside it and used later. */
  predicate Traps(b: Body, j: nat)
    requires Candidate(b, j)
  {
    exists i :: j <= i <= End(b, j) && Trapped(b, j, i)
  }

  predicate Trapped(b: Body, j: nat, i: nat)
    requires Candidate(b, j) && i < |b|
  {
    && NameOf(b[i]).Some? && NameOf(b[i]) != b[j].decl
    && IsLocalDecl(b, NameOf(b[i]).value, i) && LastUse(b, NameOf(b[i]).value, i, |b|) > End(b, j)
  }

  predicate Kept(b: Body, j: nat) {
    Candidate(b, j) && !Clashes(b, j) && !Traps(b, j)
  }

  // ---- The generator in its own form --------------------------------------------------------

  method FindLastUse(b: Body, v: string, d: nat) returns (last: nat)
    requires d < |b|
    ensures last == LastUse(b, v, d, |b|)
  {
    last := d;
    for i := d to |b|
      invariant last == LastUse(b, v, d, i)
    {
      if v in b[i].names { last := i; }
    }
  }

  /** The candidate intervals: `cand[j]` and then `last[j]`. */
  method FindCandidates(b: Body) returns (cand: seq<bool>, last: seq<nat>)
    ensures |cand| == |last| == |b|
    ensures forall j :: 0 <= j < |b| ==> cand[j] == Candidate(b, j)
    ensures forall j :: 0 <= j < |b| && Candidate(b, j) ==> last[j] == End(b, j)
  {
    var lvDecls: map<string, nat> := map[];
    for i := 0 to |b|
      invariant forall v :: v in lvDecls ==> lvDecls[v] < i && b[lvDecls[v]].isStruct && Declares(b[lvDecls[v]], v)
      invariant forall k :: 0 <= k < i && b[k].isStruct && b[k].decl.Some? ==>
                  b[k].decl.value in lvDecls && k <= lvDecls[b[k].decl.value]
    {
      if b[i].decl.Some? && b[i].isStruct { lvDecls := lvDecls[b[i].decl.value := i]; }
    }
    var addrTaken: set<string> := {};
    for i := 0 to |b|
      invariant forall v :: v in addrTaken <==> exists k :: 0 <= k < i && v in b[k].refs
    {
      addrTaken := addrTaken + b[i].refs;
    }
    cand, last := [], [];
    for j := 0 to |b|
      invariant |cand| == |last| == j
      invariant forall k :: 0 <= k < j ==> cand[k] == Candidate(b, k)
      invariant forall k :: 0 <= k < j && Candidate(b, k) ==> last[k] == End(b, k)
    {
      var l := j;
      var isDecl := b[j].decl.Some? && b[j].isStruct && lvDecls[b[j].decl.value] == j;
      assert isDecl <==> IsLvDecl(b, j);
      if isDecl { l := FindLastUse(b, b[j].decl.value, j); }
      cand := cand + [isDecl && b[j].decl.value !in addrTaken];
      last := last + [l];
    }
  }

  method Overlaps(b: Body, cand: seq<bool>, last: seq<nat>, j: nat) returns (clash: bool)
    requires |cand| == |last| == |b| && j < |b| && Candidate(b, j)
    requires forall k :: 0 <= k < |b| ==> cand[k] == Candidate(b, k)
    requires forall k :: 0 <= k < |b| && Candidate(b, k) ==> last[k] == End(b, k)
    ensures clash == Clashes(b, j)
  {
    clash := false;
    for k := 0 to |b|
      invariant clash <==> exists m ::
                  0 <= m < k && m != j && Candidate(b, m) && PartialOverlap(j, End(b, j), m, End(b, m))
    {
      if k != j && cand[k] && PartialOverlap(j, last[j], k, last[k]) { clash := true; }
    }
  }

  method TrapsLocal(b: Body, j: nat, last: nat) returns (trap: bool)
    requires Candidate(b, j) && last == End(b, j)
    ensures trap == Traps(b, j)
  {
    trap := false;
    for i := j to last + 1
      invariant trap <==> exists m :: j <= m < i && Trapped(b, j, m)
    {
      var x := NameOf(b[i]);
      ghost var before := trap;
      if x.Some? && x != b[j].decl && IsLocalDecl(b, x.value, i) {
        var use := FindLastUse(b, x.value, i);
        if use > last { trap := true; }
      }
      assert trap == (before || Trapped(b, j, i));
    }
  }

  /** The plan the generator arrives at. */
  ghost predicate IsPlan(b: Body, p: Plan) {
    && |p.kept| == |p.ends| == |b|
    && (forall j :: 0 <= j < |b| ==> p.kept[j] == Kept(b, j))
    && (forall j :: 0 <= j < |b| && Candidate(b, j) ==> p.ends[j] == End(b, j))
  }

  method FindPlan(b: Body) returns (p: Plan)
    ensures IsPlan(b, p)
  {
    var cand, last := FindCandidates(b);
    var kept: seq<bool> := [];
    for j := 0 to |b|
      invariant |kept| == j
      invariant forall k :: 0 <= k < j ==> kept[k] == Kept(b, k)
    {
      var keep := cand[j];
      if keep {
        var clash := Overlaps(b, cand, last, j);
        var trap := TrapsLocal(b, j, last[j]);
        keep := !clash && !trap;
      }
      kept := kept + [keep];
    }
    p := Plan(kept, last);
  }

  /** The narrowing part of compile_function. */
  method CompileBody(b: Body) returns (out: seq<Token>, p: Plan)
    ensures IsPlan(b, p) && p.Valid() && out == Emission(p)
  {
    p := FindPlan(b);
    out := Emit(p);
  }

  // ---- The result ---------------------------------------------------------------------------

  lemma PlanIsLaminar(b: Body, p: Plan)
    requires IsPlan(b, p)
    ensures Laminar(p)
  {
    forall j, k | 0 <= j < k < |p.kept| && p.kept[j] && p.kept[k] && k <= p.ends[j]
      ensures p.ends[k] <= p.ends[j]
    {
      assert !Clashes(b, j) && Candidate(b, k);
      assert !PartialOverlap(j, End(b, j), k, End(b, k));
    }
  }

  /** Scope correctness of narrowing: the emission is well bracketed, every statement runs with exactly
      the kept intervals that contain it open, and from the declaration that counts a top-level local
      is in scope at every statement that mentions it. */
  lemma NarrowingIsScopeCorrect(b: Body, p: Plan)
    requires IsPlan(b, p)
    ensures Laminar(p) && Replay(Emission(p), []) == Some([])
    ensures forall i: nat :: i < |b| ==> RunsCovered(p, i)
    ensures forall d: nat, i: nat :: Mentions(b, d, i) ==> InScope(p, d, i)
  {
    PlanIsLaminar(b, p);
    BlocksNest(p);
    forall i: nat | i < |b| { OpenAtStatement(p, i); }
    forall d: nat, i: nat | Mentions(b, d, i) { LocalsStayInScope(b, p, d, i); }
  }

  /** Statement d holds the declaration that counts of a local that statement i mentions. */
  ghost predicate Mentions(b: Body, d: nat, i: nat) {
    d <= i < |b| && NameOf(b[d]).Some? && IsLocalDecl(b, NameOf(b[d]).value, d) && NameOf(b[d]).value in b[i].names
  }

  lemma LocalsStayInScope(b: Body, p: Plan, d: nat, i: nat)
    requires IsPlan(b, p) && p.Valid() && Mentions(b, d, i)
    ensures InScope(p, d, i)
  {
    var x := NameOf(b[d]).value;
    forall j: nat | p.Covers(j, d)
      ensures p.Covers(j, i)
    {
      if b[j].decl != Some(x) && End(b, j) < i {
        assert LastUse(b, x, d, |b|) >= i;
        assert Trapped(b, j, d) && Traps(b, j);
        assert false;
      }
    }
    InScopeExactly(p, d, i);
  }

  /** Deferred calls are emitted after the last statement, where no block is open. A local they name is
      in scope there exactly when no kept interval contains its declaration: narrowing is not
      scope-correct for a deferred call on a narrowed variable. */
  lemma DeferredCallsSee(b: Body, p: Plan, d: nat)
    requires IsPlan(b, p) && d < |b|
    ensures p.Valid()
    ensures OpenBlocks(p, d, d + 1) <= [] <==> forall j: nat :: j <= d && Kept(b, j) ==> End(b, j) < d
  {
    OpenBlocksAre(p, d, d + 1);
    var st := OpenBlocks(p, d, d + 1);
    if st != [] { assert st[0] in st; }
  }
}
