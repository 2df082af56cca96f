// Which locals get a block, said of the body alone: declarations, mentions and ref arguments
// (compiler/codegen_stmts.py:935-1046), and what that means for locals whose address is taken.
module Narrowing {
  import opened Wrappers
  import opened Blocks
  import opened Scopes

  /** Statement l is the last one from d on that mentions v; it is d if none after d does. */
  predicate LastMention(b: Body, v: string, d: nat, l: nat) {
    d <= l < |b| && (l == d || v in b[l].names) && forall i :: l < i < |b| ==> v !in b[i].names
  }

  /** The struct variable v is declared at d for the last time, never passed to ref, and last mentioned at l. */
  predicate Lives(b: Body, v: string, d: nat, l: nat) {
    && d < |b| && b[d].decl == Some(v) && b[d].isStruct
    && (forall i :: d < i < |b| ==> !(b[i].decl == Some(v) && b[i].isStruct))
    && (forall i :: 0 <= i < |b| ==> v !in b[i].refs)
    && LastMention(b, v, d, l)
  }

  /** Statement i is where x counts as declared: its last annotation or, without any, its first assignment. */
  predicate NamedAt(b: Body, x: string, i: nat) {
    i < |b| &&
    if b[i].decl.Some? then
      b[i].decl == Some(x) && forall k :: i < k < |b| ==> b[k].decl != Some(x)
    else
      && b[i].assign == Some(x) && (forall k :: 0 <= k < |b| ==> b[k].decl != Some(x))
      && (forall k :: 0 <= k < i ==> b[k].assign != Some(x))
  }

  predicate Crossing(d: nat, l: nat, e: nat, m: nat) { d < e <= l < m || e < d <= m < l }

  /** No other such variable's life crosses d to l. */
  ghost predicate CrossesNone(b: Body, d: nat, l: nat) {
    forall w, e: nat, m: nat :: Lives(b, w, e, m) && e != d ==> !Crossing(d, l, e, m)
  }

  /** Every other local declared from d to l is mentioned for the last time by then. */
  ghost predicate KeepsNone(b: Body, v: string, d: nat, l: nat) {
    forall x, i: nat, m: nat :: d <= i <= l && x != v && NamedAt(b, x, i) && LastMention(b, x, i, m) ==> m <= l
  }

  lemma LastMentionIs(b: Body, v: string, d: nat, l: nat)
    requires d < |b|
    ensures LastMention(b, v, d, l) <==> l == LastUse(b, v, d, |b|)
  {
    var u := LastUse(b, v, d, |b|);
    LastUseTells(b, v, d, u);
  }

  lemma LastUseTells(b: Body, v: string, d: nat, u: nat)
    requires d < |b| && u == LastUse(b, v, d, |b|)
    ensures LastMention(b, v, d, u)
  {
  }

  lemma CandidateLives(b: Body, d: nat, l: nat)
    requires d < |b|
    ensures Candidate(b, d) && l == End(b, d) <==> b[d].decl.Some? && Lives(b, b[d].decl.value, d, l)
  {
    if b[d].decl.Some? { LastMentionIs(b, b[d].decl.value, d, l); }
  }

  lemma ClashesIs(b: Body, d: nat)
    requires Candidate(b, d)
    ensures Clashes(b, d) <==> !CrossesNone(b, d, End(b, d))
  {
    var l := End(b, d);
    if Clashes(b, d) {
      var k: nat :| k < |b| && k != d && Candidate(b, k) && PartialOverlap(d, l, k, End(b, k));
      CandidateLives(b, k, End(b, k));
      assert Crossing(d, l, k, End(b, k));
    }
    if !CrossesNone(b, d, l) {
      var w, e: nat, m: nat :| Lives(b, w, e, m) && e != d && Crossing(d, l, e, m);
      CandidateLives(b, e, m);
      assert PartialOverlap(d, l, e, End(b, e));
    }
  }

  lemma TrapsIs(b: Body, d: nat)
    requires Candidate(b, d)
    ensures Traps(b, d) <==> !KeepsNone(b, b[d].decl.value, d, End(b, d))
  {
    var v, l := b[d].decl.value, End(b, d);
    if Traps(b, d) {
      var i: nat :| d <= i <= l && Trapped(b, d, i);
      var x := NameOf(b[i]).value;
      LastMentionIs(b, x, i, LastUse(b, x, i, |b|));
      assert NamedAt(b, x, i);
    }
    if !KeepsNone(b, v, d, l) {
      var x, i: nat, m: nat :| d <= i <= l && x != v && NamedAt(b, x, i) && LastMention(b, x, i, m) && m > l;
      LastMentionIs(b, x, i, m);
      assert Trapped(b, d, i);
    }
  }

  /** A block from d to l is emitted exactly when a struct variable lives from d to l whose address is never taken,
      no other one's life crosses it, and no other local declared inside is mentioned after it. */
  lemma BlockExactly(b: Body, p: Plan, d: nat, l: nat)
    requires IsPlan(b, p) && d < |b|
    ensures p.kept[d] && p.ends[d] == l <==>
            && b[d].decl.Some? && Lives(b, b[d].decl.value, d, l)
            && CrossesNone(b, d, l) && KeepsNone(b, b[d].decl.value, d, l)
  {
    CandidateLives(b, d, l);
    if Candidate(b, d) {
      ClashesIs(b, d);
      TrapsIs(b, d);
    }
  }

  // ---- Locals whose address is taken --------------------------------------------------------

  /** They have no block of their own. */
  lemma AddressTakenHasNoBlock(b: Body, p: Plan, d: nat, i: nat)
    requires IsPlan(b, p) && d < |b| && i < |b| && b[d].decl.Some? && b[d].decl.value in b[i].refs
    ensures !p.kept[d]
  {
    if p.kept[d] { BlockExactly(b, p, d, p.ends[d]); }
  }

  /** But they are closed with a block of another variable: such a local is in scope at a later statement exactly
      when no other variable's block holds its declaration and ends before that statement. */
  lemma AddressTakenInScopeExactly(b: Body, p: Plan, v: string, d: nat, k: nat, i: nat)
    requires IsPlan(b, p) && p.Valid() && NamedAt(b, v, d) && k < |b| && v in b[k].refs && d <= i < |b|
    ensures InScope(p, d, i) <==> forall j: nat :: j < d && p.kept[j] && d <= p.ends[j] ==> i <= p.ends[j]
  {
    InScopeExactly(p, d, i);
    if b[d].decl.Some? {
      AddressTakenHasNoBlock(b, p, d, k);
    } else {
      assert !Candidate(b, d);
    }
    forall j: nat | p.Covers(j, d) ensures j < d { }
    if InScope(p, d, i) {
      forall j: nat | j < d && p.kept[j] && d <= p.ends[j] ensures i <= p.ends[j] { assert p.Covers(j, d); }
    }
  }

  /** b: Big = ...; a: Big = ...; store(ref(a)); use(b); g(): b's block closes a before g can use the pointer. */
  function Outlived(): Body {
    [Stmt(Some("b"), true, None, {"b"}, {}), Stmt(Some("a"), true, None, {"a"}, {}),
     Stmt(None, false, None, {"store", "a"}, {"a"}), Stmt(None, false, None, {"use", "b"}, {}),
     Stmt(None, false, None, {"g"}, {})]
  }

  lemma PointerOutlivesBlock(p: Plan)
    requires IsPlan(Outlived(), p) && p.Valid()
    ensures "a" in Outlived()[2].refs && !InScope(p, 1, 4)
  {
    var b := Outlived();
    assert b[0].names == {"b"} && b[3].names == {"use", "b"} && "b" !in b[4].names;
    assert Lives(b, "b", 0, 3);
    assert "a" in b[2].refs;
    forall w, e: nat, m: nat | Lives(b, w, e, m) && e != 0 ensures !Crossing(0, 3, e, m) {
      assert b[e].decl == Some("a") ==> w == "a";
    }
    forall x, i: nat, m: nat | i <= 3 && x != "b" && NamedAt(b, x, i) && LastMention(b, x, i, m) ensures m <= 3 {
      assert x == "a" && i == 1;
      assert x !in b[4].names;
    }
    BlockExactly(b, p, 0, 3);
    AddressTakenInScopeExactly(b, p, "a", 1, 2, 4);
  }
}
