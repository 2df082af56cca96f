// Wrapping statements in { } blocks: given which statements open a block and where each block ends,
// the emitted tokens nest whenever the blocks' intervals are laminar.
module Blocks {
  import opened Wrappers

  datatype Token = Open(j: nat) | Do(i: nat) | Close(j: nat)

  /** Statement j opens a block that ends after statement ends[j], if kept[j]. */
  datatype Plan = Plan(kept: seq<bool>, ends: seq<nat>) {
    ghost predicate Valid() {
      && |kept| == |ends|
      && forall j :: 0 <= j < |kept| && kept[j] ==> j <= ends[j] < |kept|
    }

    predicate Covers(j: nat, i: nat) {
      j < |kept| == |ends| && kept[j] && j <= i <= ends[j]
    }
  }

  /** Two blocks of the plan are disjoint or one holds the other. */
  ghost predicate Laminar(p: Plan) {
    p.Valid() && forall j, k :: 0 <= j < k < |p.kept| && p.kept[j] && p.kept[k] && k <= p.ends[j] ==>
      p.ends[k] <= p.ends[j]
  }

  function Opener(p: Plan, i: nat): seq<Token>
    requires i < |p.kept|
  {
    if p.kept[i] then [Open(i)] else []
  }

  /** Blocks opened before m that end at statement i, last opened first. */
  function Closers(p: Plan, i: nat, m: nat): seq<Token>
    requires m <= |p.kept| == |p.ends|
  {
    if m == 0 then []
    else if p.kept[m - 1] && p.ends[m - 1] == i then [Close(m - 1)] + Closers(p, i, m - 1)
    else Closers(p, i, m - 1)
  }

  /** Everything emitted before statement i is reached. */
  function Before(p: Plan, i: nat): seq<Token>
    requires i <= |p.kept| == |p.ends|
    decreases i, 0
  {
    if i == 0 then [] else Upto(p, i - 1) + ([Do(i - 1)] + Closers(p, i - 1, i))
  }

  /** The same with the statement's own opening brace. */
  function Upto(p: Plan, i: nat): seq<Token>
    requires i < |p.kept| == |p.ends|
    decreases i, 1
  {
    Before(p, i) + Opener(p, i)
  }

  function Emission(p: Plan): seq<Token>
    requires |p.kept| == |p.ends|
  {
    Before(p, |p.kept|)
  }

  /** The emission loop, with the closers of each statement in order of decreasing declaration. */
  method Emit(p: Plan) returns (out: seq<Token>)
    requires p.Valid()
    ensures out == Emission(p)
  {
    out := [];
    for i := 0 to |p.kept|
      invariant out == Before(p, i)
    {
      out := out + Opener(p, i);
      var closers := EmitClosers(p, i);
      out := out + ([Do(i)] + closers);
    }
  }

  method EmitClosers(p: Plan, i: nat) returns (out: seq<Token>)
    requires p.Valid() && i < |p.kept|
    ensures out == Closers(p, i, i + 1)
  {
    out := [];
    var m := i + 1;
    while m > 0
      invariant 0 <= m <= i + 1
      invariant out + Closers(p, i, m) == Closers(p, i, i + 1)
    {
      if p.kept[m - 1] && p.ends[m - 1] == i {
        Regroup(out, [Close(m - 1)], Closers(p, i, m - 1));
        out := out + [Close(m - 1)];
      }
      m := m - 1;
    }
    assert out + [] == out;
  }

  // ---- Nesting ------------------------------------------------------------------------------

  /** The stack of open blocks after running the tokens, or None if a "}" closes a block other than
      the innermost one. */
  function Replay(ts: seq<Token>, stack: seq<nat>): Option<seq<nat>> {
    if ts == [] then Some(stack)
    else
      match ts[0]
      case Open(j) => Replay(ts[1..], stack + [j])
      case Do(_) => Replay(ts[1..], stack)
      case Close(j) => if stack != [] && stack[|stack| - 1] == j then Replay(ts[1..], stack[..|stack| - 1]) else None
  }

  lemma {:induction false} ReplayConcat(s: seq<Token>, t: seq<Token>, stack: seq<nat>)
    ensures Replay(s + t, stack) == match Replay(s, stack) case None => None case Some(st) => Replay(t, st)
  {
    if s == [] {
      assert s + t == t;
    } else {
      assert (s + t)[1..] == s[1..] + t;
      match s[0]
      case Open(j) => ReplayConcat(s[1..], t, stack + [j]);
      case Do(_) => ReplayConcat(s[1..], t, stack);
      case Close(j) => if stack != [] && stack[|stack| - 1] == j { ReplayConcat(s[1..], t, stack[..|stack| - 1]); }
    }
  }

  /** Blocks opened before m that reach statement i, outermost first. */
  function OpenBlocks(p: Plan, i: nat, m: nat): seq<nat>
    requires m <= |p.kept| == |p.ends|
  {
    if m == 0 then []
    else OpenBlocks(p, i, m - 1) + (if p.kept[m - 1] && p.ends[m - 1] >= i then [m - 1] else [])
  }

  lemma {:induction false} OpenBlocksAre(p: Plan, i: nat, m: nat)
    requires m <= |p.kept| == |p.ends|
    ensures forall j :: j in OpenBlocks(p, i, m) <==> 0 <= j < m && p.kept[j] && p.ends[j] >= i
  {
    if m > 0 { OpenBlocksAre(p, i, m - 1); }
  }

  /** Nothing ends at i below a block that goes on beyond i. */
  lemma {:induction false} NothingEndsBelow(p: Plan, i: nat, m: nat, k: nat)
    requires Laminar(p) && m <= k <= i && k < |p.kept| && p.kept[k] && p.ends[k] > i
    ensures Closers(p, i, m) == [] && OpenBlocks(p, i + 1, m) == OpenBlocks(p, i, m)
  {
    if m > 0 { NothingEndsBelow(p, i, m - 1, k); }
  }

  lemma {:induction false} ClosersPop(p: Plan, i: nat, m: nat)
    requires Laminar(p) && m <= i + 1 && m <= |p.kept|
    ensures Replay(Closers(p, i, m), OpenBlocks(p, i, m)) == Some(OpenBlocks(p, i + 1, m))
  {
    if m > 0 {
      var j := m - 1;
      if p.kept[j] && p.ends[j] > i {
        NothingEndsBelow(p, i, j, j);
      } else {
        ClosersPop(p, i, j);
        var st, ts := OpenBlocks(p, i, m), Closers(p, i, m);
        assert OpenBlocks(p, i + 1, m) == OpenBlocks(p, i + 1, j);
        if p.kept[j] && p.ends[j] == i {
          assert st == OpenBlocks(p, i, j) + [j] && ts == [Close(j)] + Closers(p, i, j);
          assert st[..|st| - 1] == OpenBlocks(p, i, j) && ts[1..] == Closers(p, i, j);
          assert st[|st| - 1] == j && Replay(ts, st) == Replay(ts[1..], st[..|st| - 1]);
        } else {
          assert st == OpenBlocks(p, i, j) && ts == Closers(p, i, j);
        }
      }
    }
  }

  lemma OpenerPushes(p: Plan, i: nat)
    requires p.Valid() && i < |p.kept|
    ensures Replay(Opener(p, i), OpenBlocks(p, i, i)) == Some(OpenBlocks(p, i, i + 1))
  {
    var st := OpenBlocks(p, i, i);
    if p.kept[i] {
      assert [Open(i)][1..] == [] && Replay([], st + [i]) == Some(st + [i]);
      assert Replay([Open(i)], st) == Replay([Open(i)][1..], st + [i]);
    } else {
      assert OpenBlocks(p, i, i + 1) == st;
    }
  }

  lemma {:induction false} NoneOpenAtEnd(p: Plan, m: nat)
    requires p.Valid() && m <= |p.kept|
    ensures OpenBlocks(p, |p.kept|, m) == []
  {
    if m > 0 { NoneOpenAtEnd(p, m - 1); }
  }

  /** One statement and the closing braces after it. */
  lemma StatementCloses(p: Plan, i: nat, ts: seq<Token>)
    requires Laminar(p) && i < |p.kept| && Replay(ts, []) == Some(OpenBlocks(p, i, i + 1))
    ensures Replay(ts + ([Do(i)] + Closers(p, i, i + 1)), []) == Some(OpenBlocks(p, i + 1, i + 1))
  {
    ReplayStatement(ts, i, Closers(p, i, i + 1), OpenBlocks(p, i, i + 1));
    ClosersPop(p, i, i + 1);
  }

  lemma ReplayStatement(ts: seq<Token>, i: nat, closers: seq<Token>, open: seq<nat>)
    requires Replay(ts, []) == Some(open)
    ensures Replay(ts + ([Do(i)] + closers), []) == Replay(closers, open)
  {
    ReplayConcat(ts, [Do(i)] + closers, []);
    assert ([Do(i)] + closers)[1..] == closers;
  }

  lemma {:induction false} OpenBefore(p: Plan, i: nat)
    requires Laminar(p) && i <= |p.kept|
    ensures Replay(Before(p, i), []) == Some(OpenBlocks(p, i, i))
    decreases i, 0
  {
    if i > 0 {
      OpenUpto(p, i - 1);
      StatementCloses(p, i - 1, Upto(p, i - 1));
    }
  }

  lemma {:induction false} OpenUpto(p: Plan, i: nat)
    requires Laminar(p) && i < |p.kept|
    ensures Replay(Upto(p, i), []) == Some(OpenBlocks(p, i, i + 1))
    decreases i, 1
  {
    OpenBefore(p, i);
    OpenerPushes(p, i);
    ReplayConcat(Before(p, i), Opener(p, i), []);
  }

  /** Statement i runs with exactly the blocks that cover i open, the latest innermost. */
  ghost predicate RunsCovered(p: Plan, i: nat)
    requires p.Valid() && i < |p.kept|
  {
    && Replay(Upto(p, i), []) == Some(OpenBlocks(p, i, i + 1))
    && forall j: nat :: j in OpenBlocks(p, i, i + 1) <==> p.Covers(j, i)
  }

  lemma OpenAtStatement(p: Plan, i: nat)
    requires Laminar(p) && i < |p.kept|
    ensures RunsCovered(p, i)
  {
    OpenBlocksAre(p, i, i + 1);
    OpenUpto(p, i);
  }

  /** The whole emission is well bracketed: every "}" closes the innermost block, and all get closed. */
  lemma BlocksNest(p: Plan)
    requires Laminar(p)
    ensures Replay(Emission(p), []) == Some([])
  {
    OpenBefore(p, |p.kept|);
    NoneOpenAtEnd(p, |p.kept|);
  }

  // ---- Visibility ---------------------------------------------------------------------------

  /** Every block open at d is still open at i, and the same one: what is declared at d is in scope. */
  ghost predicate InScope(p: Plan, d: nat, i: nat)
    requires p.Valid() && d < |p.kept| && i < |p.kept|
  {
    OpenBlocks(p, d, d + 1) <= OpenBlocks(p, i, i + 1)
  }

  lemma {:induction false} StillOpen(p: Plan, d: nat, i: nat, m: nat)
    requires p.Valid() && d <= i && m <= |p.kept|
    requires forall j :: 0 <= j < m && p.kept[j] && p.ends[j] >= d ==> p.ends[j] >= i
    ensures OpenBlocks(p, d, m) == OpenBlocks(p, i, m)
  {
    if m > 0 { StillOpen(p, d, i, m - 1); }
  }

  lemma {:induction false} OpenBlocksGrow(p: Plan, i: nat, m: nat, n: nat)
    requires p.Valid() && m <= n <= |p.kept|
    ensures OpenBlocks(p, i, m) <= OpenBlocks(p, i, n)
  {
    if m < n { OpenBlocksGrow(p, i, m, n - 1); }
  }

  /** What is declared at d is in scope at a later i exactly when no block covers d but not i. */
  lemma InScopeExactly(p: Plan, d: nat, i: nat)
    requires p.Valid() && d <= i < |p.kept|
    ensures InScope(p, d, i) <==> forall j: nat :: p.Covers(j, d) ==> p.Covers(j, i)
  {
    if InScope(p, d, i) {
      forall j: nat | p.Covers(j, d) ensures p.Covers(j, i) { InScopeCovers(p, d, i, j); }
    }
    if forall j: nat :: p.Covers(j, d) ==> p.Covers(j, i) { CoveredInScope(p, d, i); }
  }

  lemma InScopeCovers(p: Plan, d: nat, i: nat, j: nat)
    requires p.Valid() && d <= i < |p.kept| && InScope(p, d, i) && p.Covers(j, d)
    ensures p.Covers(j, i)
  {
    OpenBlocksAre(p, d, d + 1);
    OpenBlocksAre(p, i, i + 1);
    var a, b := OpenBlocks(p, d, d + 1), OpenBlocks(p, i, i + 1);
    assert j in a && a == b[..|a|];
    assert j in b;
  }

  lemma CoveredInScope(p: Plan, d: nat, i: nat)
    requires p.Valid() && d <= i < |p.kept|
    requires forall j: nat :: p.Covers(j, d) ==> p.Covers(j, i)
    ensures InScope(p, d, i)
  {
    forall j | 0 <= j < d + 1 && p.kept[j] && p.ends[j] >= d ensures p.ends[j] >= i { assert p.Covers(j, d); }
    StillOpen(p, d, i, d + 1);
    OpenBlocksGrow(p, i, d + 1, i + 1);
  }
}
