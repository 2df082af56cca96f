// The part of the C expression grammar (section 6.5 of ISO/IEC 9899:2011) that printed expressions
// use, as a relation between token strings and trees, and which trees some token strings have.
module CGrammar {

  datatype BinOp =
    | Mul | Div | Mod | Add | Sub | Shl | Shr | Lt | Le | Gt | Ge | Eq | Ne
    | BitAnd | BitXor | BitOr | LAnd | LOr

  datatype UnOp = Plus | Minus | Not | Compl

  datatype Tok = Id(x: string) | Num(n: nat) | LP | RP | Op(op: BinOp) | Bang | Tilde | Quest | Colon

  datatype CExpr =
    | CName(x: string)
    | CNum(n: nat)
    | CUn(uop: UnOp, e: CExpr)
    | CBin(op: BinOp, l: CExpr, r: CExpr)
    | CCond(c: CExpr, a: CExpr, b: CExpr)

  type Toks = seq<Tok>

  function UnTok(u: UnOp): Tok {
    match u
    case Plus => Op(Add)
    case Minus => Op(Sub)
    case Not => Bang
    case Compl => Tilde
  }

  /** Grammar levels, from logical-or-expression (1) to multiplicative-expression (10). */
  function Prec(o: BinOp): (p: nat)
    ensures 1 <= p <= 10
  {
    match o
    case LOr => 1
    case LAnd => 2
    case BitOr => 3
    case BitXor => 4
    case BitAnd => 5
    case Eq => 6
    case Ne => 6
    case Lt => 7
    case Le => 7
    case Gt => 7
    case Ge => 7
    case Shl => 8
    case Shr => 8
    case Add => 9
    case Sub => 9
    case Mul => 10
    case Div => 10
    case Mod => 10
  }

  // ---- The grammar --------------------------------------------------------------------------

  /** primary-expression */
  ghost predicate Prim(ts: Toks, t: CExpr)
    decreases |ts|, 0
  {
    || (|ts| == 1 && ts[0].Id? && t == CName(ts[0].x))
    || (|ts| == 1 && ts[0].Num? && t == CNum(ts[0].n))
    || (|ts| >= 3 && ts[0] == LP && ts[|ts| - 1] == RP && Cond(ts[1..|ts| - 1], t))
  }

  /** unary-expression */
  ghost predicate Unary(ts: Toks, t: CExpr)
    decreases |ts|, 1
  {
    Prim(ts, t) || (|ts| >= 2 && t.CUn? && ts[0] == UnTok(t.uop) && Unary(ts[1..], t.e))
  }

  /** The left-recursive binary levels; level 11 is unary-expression. */
  ghost predicate Bin(p: nat, ts: Toks, t: CExpr)
    requires 1 <= p <= 11
    decreases |ts|, 13 - p
  {
    if p == 11 then Unary(ts, t)
    else Bin(p + 1, ts, t) || (t.CBin? && Prec(t.op) == p && exists i: nat :: SplitAt(p, ts, t, i))
  }

  ghost predicate SplitAt(p: nat, ts: Toks, t: CExpr, i: nat)
    requires 1 <= p <= 10 && t.CBin?
    decreases |ts|, 1
  {
    0 < i < |ts| - 1 && ts[i] == Op(t.op) && Bin(p, ts[..i], t.l) && Bin(p + 1, ts[i + 1..], t.r)
  }

  /** conditional-expression */
  ghost predicate Cond(ts: Toks, t: CExpr)
    decreases |ts|, 14
  {
    Bin(1, ts, t) || (t.CCond? && exists i: nat, j: nat :: CondAt(ts, t, i, j))
  }

  ghost predicate CondAt(ts: Toks, t: CExpr, i: nat, j: nat)
    requires t.CCond?
    decreases |ts|, 1
  {
    0 < i < j < |ts| - 1 && ts[i] == Quest && ts[j] == Colon &&
    Bin(1, ts[..i], t.c) && Cond(ts[i + 1..j], t.a) && Cond(ts[j + 1..], t.b)
  }

  // ---- Parenthesis depth --------------------------------------------------------------------

  function Depth(ts: Toks): int {
    if ts == [] then 0
    else Depth(ts[..|ts| - 1]) + (if ts[|ts| - 1] == LP then 1 else if ts[|ts| - 1] == RP then -1 else 0)
  }

  lemma {:induction false} DepthConcat(a: Toks, b: Toks)
    ensures Depth(a + b) == Depth(a) + Depth(b)
  {
    if b == [] {
      assert a + b == a;
    } else {
      assert (a + b)[..|a + b| - 1] == a + b[..|b| - 1];
      DepthConcat(a, b[..|b| - 1]);
    }
  }

  ghost predicate Balanced(ts: Toks) {
    Depth(ts) == 0 && forall i :: 0 <= i <= |ts| ==> Depth(ts[..i]) >= 0
  }

  ghost predicate AtTop(ts: Toks, i: nat) { i < |ts| && Depth(ts[..i]) == 0 }

  /** What can stand outside parentheses in a phrase of the given level. */
  predicate Allowed(tok: Tok, p: nat) {
    !tok.Quest? && !tok.Colon? && (p >= 2 ==> tok != Op(LOr)) && (p >= 3 ==> tok != Op(LAnd))
  }

  ghost predicate TopAllowed(ts: Toks, p: nat) {
    forall i: nat :: AtTop(ts, i) ==> Allowed(ts[i], p)
  }

  lemma ConcatPrefix(a: Toks, b: Toks, i: nat)
    requires i <= |a| + |b|
    ensures (a + b)[..i] == if i <= |a| then a[..i] else a + b[..i - |a|]
  {
  }

  lemma BalancedConcat(a: Toks, b: Toks)
    requires Balanced(a) && Balanced(b)
    ensures Balanced(a + b)
    ensures forall i: nat :: AtTop(a + b, i) <==> AtTop(a, i) || (i >= |a| && AtTop(b, i - |a|))
  {
    DepthConcat(a, b);
    forall i: nat | i <= |a + b|
      ensures Depth((a + b)[..i]) == if i <= |a| then Depth(a[..i]) else Depth(b[..i - |a|])
    {
      ConcatPrefix(a, b, i);
      if i > |a| { DepthConcat(a, b[..i - |a|]); }
    }
    assert a[..|a|] == a && b[..0] == [];
  }

  lemma TopAllowedConcat(a: Toks, b: Toks, p: nat)
    requires Balanced(a) && Balanced(b) && TopAllowed(a, p) && TopAllowed(b, p)
    ensures Balanced(a + b) && TopAllowed(a + b, p)
  {
    BalancedConcat(a, b);
  }

  lemma SingleTok(tok: Tok)
    requires tok != LP && tok != RP
    ensures Balanced([tok]) && forall p: nat :: Allowed(tok, p) ==> TopAllowed([tok], p)
  {
    assert [tok][..0] == [] && [tok][..1] == [tok];
  }

  lemma Parenthesised(mid: Toks)
    requires Balanced(mid)
    ensures var ts := [LP] + mid + [RP];
            Balanced(ts) && (forall i: nat :: AtTop(ts, i) <==> i == 0) && forall p: nat :: TopAllowed(ts, p)
  {
    var ts := [LP] + mid + [RP];
    forall i: nat | i <= |ts|
      ensures Depth(ts[..i]) == if i == 0 || i == |ts| then 0 else 1 + Depth(mid[..i - 1])
    {
      assert Depth([LP]) == 1 && Depth([RP]) == -1 by { assert [LP][..0] == [] && [RP][..0] == []; }
      if 0 < i < |ts| {
        assert ts[..i] == [LP] + mid[..i - 1];
        DepthConcat([LP], mid[..i - 1]);
      } else if i == |ts| {
        assert ts[..i] == [LP] + mid + [RP];
        DepthConcat([LP], mid);
        DepthConcat([LP] + mid, [RP]);
      }
    }
    assert mid[..|mid|] == mid && ts[..|ts|] == ts;
  }

  // ---- Phrases are balanced -----------------------------------------------------------------

  lemma {:induction false} PrimBalanced(ts: Toks, t: CExpr)
    requires Prim(ts, t)
    ensures ts != [] && Balanced(ts) && forall p: nat :: TopAllowed(ts, p)
    decreases |ts|, 0
  {
    if |ts| == 1 {
      SingleTok(ts[0]);
      assert ts == [ts[0]];
    } else {
      var mid := ts[1..|ts| - 1];
      CondBalanced(mid, t);
      Parenthesised(mid);
      assert ts == [LP] + mid + [RP];
    }
  }

  lemma {:induction false} UnaryBalanced(ts: Toks, t: CExpr)
    requires Unary(ts, t)
    ensures ts != [] && Balanced(ts) && forall p: nat :: TopAllowed(ts, p)
    decreases |ts|, 1
  {
    if Prim(ts, t) {
      PrimBalanced(ts, t);
    } else {
      UnaryBalanced(ts[1..], t.e);
      SingleTok(ts[0]);
      assert ts == [ts[0]] + ts[1..];
      BalancedConcat([ts[0]], ts[1..]);
      forall p: nat ensures TopAllowed(ts, p) {
        assert Allowed(ts[0], p);
        TopAllowedConcat([ts[0]], ts[1..], p);
      }
    }
  }

  lemma {:induction false} BinBalanced(p: nat, ts: Toks, t: CExpr)
    requires 1 <= p <= 11 && Bin(p, ts, t)
    ensures ts != [] && Balanced(ts) && TopAllowed(ts, p)
    decreases |ts|, 13 - p
  {
    if p == 11 {
      UnaryBalanced(ts, t);
    } else if Bin(p + 1, ts, t) {
      BinBalanced(p + 1, ts, t);
    } else {
      var i: nat :| SplitAt(p, ts, t, i);
      SplitBalanced(p, ts, t, i);
    }
  }

  lemma {:induction false} SplitBalanced(p: nat, ts: Toks, t: CExpr, i: nat)
    requires 1 <= p <= 10 && t.CBin? && Prec(t.op) == p && SplitAt(p, ts, t, i)
    ensures ts != [] && Balanced(ts) && TopAllowed(ts, p)
    decreases |ts|, 1
  {
    BinBalanced(p, ts[..i], t.l);
    BinBalanced(p + 1, ts[i + 1..], t.r);
    Around(ts, i);
    BetweenBalanced(ts[..i], ts[i], ts[i + 1..], p);
  }

  lemma Around(ts: Toks, i: nat)
    requires i < |ts|
    ensures ts[..i] + [ts[i]] + ts[i + 1..] == ts
  {
  }

  lemma BetweenBalanced(a: Toks, tok: Tok, b: Toks, p: nat)
    requires Balanced(a) && Balanced(b) && tok != LP && tok != RP
    requires TopAllowed(a, p) && TopAllowed(b, p + 1) && Allowed(tok, p)
    ensures Balanced(a + [tok] + b) && TopAllowed(a + [tok] + b, p)
  {
    SingleTok(tok);
    TopAllowedConcat(a, [tok], p);
    TopAllowedConcat(a + [tok], b, p);
  }

  lemma {:induction false} CondBalanced(ts: Toks, t: CExpr)
    requires Cond(ts, t)
    ensures ts != [] && Balanced(ts)
    decreases |ts|, 14
  {
    if Bin(1, ts, t) {
      BinBalanced(1, ts, t);
    } else {
      var i: nat, j: nat :| CondAt(ts, t, i, j);
      BinBalanced(1, ts[..i], t.c);
      CondBalanced(ts[i + 1..j], t.a);
      CondBalanced(ts[j + 1..], t.b);
      FiveBalanced(ts[..i], ts[i + 1..j], ts[j + 1..]);
      assert ts == ts[..i] + [Quest] + ts[i + 1..j] + [Colon] + ts[j + 1..];
    }
  }

  lemma FiveBalanced(c: Toks, a: Toks, b: Toks)
    requires Balanced(c) && Balanced(a) && Balanced(b)
    ensures Balanced(c + [Quest] + a + [Colon] + b)
  {
    SingleTok(Quest);
    SingleTok(Colon);
    JoinBalanced(c, [Quest]);
    JoinBalanced(c + [Quest], a);
    JoinBalanced(c + [Quest] + a, [Colon]);
    JoinBalanced(c + [Quest] + a + [Colon], b);
  }

  lemma JoinBalanced(a: Toks, b: Toks)
    requires Balanced(a) && Balanced(b)
    ensures Balanced(a + b)
  {
    BalancedConcat(a, b);
  }

  /** A split of a binary phrase is outside parentheses, and so is everything that follows it there. */
  lemma SplitFacts(p: nat, ts: Toks, t: CExpr, i: nat)
    requires 1 <= p <= 10 && t.CBin? && SplitAt(p, ts, t, i)
    ensures Balanced(ts) && AtTop(ts, i) && forall j: nat :: i < j && AtTop(ts, j) ==> Allowed(ts[j], p + 1)
  {
    BinBalanced(p, ts[..i], t.l);
    BinBalanced(p + 1, ts[i + 1..], t.r);
    SingleTok(ts[i]);
    BalancedConcat(ts[..i], [ts[i]]);
    BalancedConcat(ts[..i] + [ts[i]], ts[i + 1..]);
    Around(ts, i);
  }

  lemma CondSplitFacts(ts: Toks, t: CExpr, i: nat, j: nat)
    requires t.CCond? && CondAt(ts, t, i, j)
    ensures AtTop(ts, i) && AtTop(ts, j)
  {
    var c, a := ts[..i], ts[i + 1..j];
    BinBalanced(1, c, t.c);
    CondBalanced(a, t.a);
    SingleTok(Quest);
    JoinBalanced(c, [Quest]);
    JoinBalanced(c + [Quest], a);
    Slices(ts, i, j);
  }

  lemma Slices(ts: Toks, i: nat, j: nat)
    requires i < j <= |ts|
    ensures ts[..j] == ts[..i] + [ts[i]] + ts[i + 1..j]
  {
  }

  lemma PrimTops(ts: Toks, t: CExpr)
    requires Prim(ts, t)
    ensures forall i: nat :: AtTop(ts, i) <==> i == 0
  {
    if |ts| == 1 {
      assert ts[..0] == [];
    } else {
      var mid := ts[1..|ts| - 1];
      CondBalanced(mid, t);
      Parenthesised(mid);
      assert ts == [LP] + mid + [RP];
    }
  }

  // ---- Unique readings ----------------------------------------------------------------------

  /** ts reads as m, and as nothing else, at level p. */
  ghost predicate ReadsAs(p: nat, ts: Toks, m: CExpr)
    requires 1 <= p <= 11
  {
    forall t :: Bin(p, ts, t) <==> t == m
  }

  ghost predicate NoReading(p: nat, ts: Toks)
    requires 1 <= p <= 11
  {
    forall t :: !Bin(p, ts, t)
  }

  ghost predicate CondReadsAs(ts: Toks, m: CExpr) {
    forall t :: Cond(ts, t) <==> t == m
  }

  /** A name, a number, or a parenthesised phrase, with a single reading. */
  ghost predicate Atom(ts: Toks, m: CExpr) {
    && ts != [] && (ts[0].Id? || ts[0].Num? || ts[0] == LP) && Balanced(ts)
    && (forall i: nat :: AtTop(ts, i) <==> i == 0)
    && forall t :: Prim(ts, t) <==> t == m
  }

  lemma NameAtom(x: string)
    ensures Atom([Id(x)], CName(x))
  {
    SingleTok(Id(x));
    assert Prim([Id(x)], CName(x));
    PrimTops([Id(x)], CName(x));
  }

  lemma NumAtom(n: nat)
    ensures Atom([Num(n)], CNum(n))
  {
    SingleTok(Num(n));
    assert Prim([Num(n)], CNum(n));
    PrimTops([Num(n)], CNum(n));
  }

  lemma ParenAtom(mid: Toks, m: CExpr)
    requires CondReadsAs(mid, m)
    ensures Atom([LP] + mid + [RP], m)
  {
    assert Cond(mid, m);
    CondBalanced(mid, m);
    Parenthesised(mid);
    var ts := [LP] + mid + [RP];
    assert ts[1..|ts| - 1] == mid;
  }

  /** An atom reads the same at every level. */
  lemma {:induction false} AtomReads(ts: Toks, m: CExpr, p: nat)
    requires Atom(ts, m) && 1 <= p <= 11
    ensures ReadsAs(p, ts, m)
    decreases 11 - p
  {
    if p == 11 {
      forall t ensures Unary(ts, t) <==> t == m {
        if t.CUn? { assert ts[0] != UnTok(t.uop); }
      }
    } else {
      AtomReads(ts, m, p + 1);
      forall t: CExpr, i: nat | t.CBin? && SplitAt(p, ts, t, i) ensures i == 0 { SplitFacts(p, ts, t, i); }
    }
  }

  /** An operator before an atom. */
  lemma {:induction false} UnaryReads(u: UnOp, a: Toks, m: CExpr, p: nat)
    requires Atom(a, m) && 1 <= p <= 11
    ensures ReadsAs(p, [UnTok(u)] + a, CUn(u, m))
    decreases 11 - p
  {
    var ts := [UnTok(u)] + a;
    if p == 11 {
      AtomReads(a, m, 11);
      forall t ensures Unary(ts, t) <==> t == CUn(u, m) {
        assert ts[1..] == a && (Unary(a, m) <==> Bin(11, a, m));
        if t.CUn? { assert Unary(a, t.e) <==> Bin(11, a, t.e); }
      }
    } else {
      UnaryReads(u, a, m, p + 1);
      forall t: CExpr, i: nat | t.CBin? ensures !SplitAt(p, ts, t, i) { UnaryNoSplit(u, a, m, p, t, i); }
    }
  }

  lemma UnaryNoSplit(u: UnOp, a: Toks, m: CExpr, p: nat, t: CExpr, i: nat)
    requires Atom(a, m) && 1 <= p <= 10 && t.CBin?
    ensures !SplitAt(p, [UnTok(u)] + a, t, i)
  {
    var ts := [UnTok(u)] + a;
    UnaryTops(u, a, m);
    assert ts[1] == a[0];
    if SplitAt(p, ts, t, i) { SplitFacts(p, ts, t, i); }
  }

  lemma UnaryTops(u: UnOp, a: Toks, m: CExpr)
    requires Atom(a, m)
    ensures forall i: nat :: AtTop([UnTok(u)] + a, i) ==> i <= 1
  {
    SingleTok(UnTok(u));
    BalancedConcat([UnTok(u)], a);
  }

  /** Two atoms with an operator between them. */
  lemma InfixTops(a: Toks, o: BinOp, b: Toks, ma: CExpr, mb: CExpr)
    requires Atom(a, ma) && Atom(b, mb)
    ensures var ts := a + [Op(o)] + b;
            Balanced(ts) && forall i: nat :: AtTop(ts, i) <==> i == 0 || i == |a| || i == |a| + 1
  {
    SingleTok(Op(o));
    assert AtTop([Op(o)], 0) by { assert [Op(o)][..0] == []; }
    BalancedConcat(a, [Op(o)]);
    BalancedConcat(a + [Op(o)], b);
  }

  lemma {:induction false} InfixReads(a: Toks, o: BinOp, b: Toks, ma: CExpr, mb: CExpr, p: nat)
    requires Atom(a, ma) && Atom(b, mb) && 1 <= p <= 11
    ensures if p <= Prec(o) then ReadsAs(p, a + [Op(o)] + b, CBin(o, ma, mb)) else NoReading(p, a + [Op(o)] + b)
    decreases 11 - p
  {
    var ts := a + [Op(o)] + b;
    if p == 11 {
      forall t ensures !Unary(ts, t) { InfixNotUnary(a, o, b, ma, mb, t); }
    } else {
      InfixReads(a, o, b, ma, mb, p + 1);
      forall t: CExpr, i: nat | t.CBin? && SplitAt(p, ts, t, i) ensures i == |a| && t == CBin(o, ma, mb) {
        InfixSplit(p, a, o, b, ma, mb, t, i);
      }
      if p == Prec(o) {
        AtomReads(a, ma, p);
        AtomReads(b, mb, p + 1);
        assert ts[..|a|] == a && ts[|a| + 1..] == b;
        assert SplitAt(p, ts, CBin(o, ma, mb), |a|);
      }
    }
  }

  lemma InfixSplit(p: nat, a: Toks, o: BinOp, b: Toks, ma: CExpr, mb: CExpr, t: CExpr, i: nat)
    requires Atom(a, ma) && Atom(b, mb) && 1 <= p <= 10 && t.CBin? && SplitAt(p, a + [Op(o)] + b, t, i)
    ensures i == |a| && t == CBin(o, ma, mb)
  {
    var ts := a + [Op(o)] + b;
    InfixTops(a, o, b, ma, mb);
    SplitFacts(p, ts, t, i);
    assert ts[|a| + 1] == b[0] && i == |a|;
    assert ts[..i] == a && ts[i + 1..] == b;
    AtomReads(a, ma, p);
    AtomReads(b, mb, p + 1);
    assert Bin(p, a, t.l) && Bin(p + 1, b, t.r);
  }

  lemma InfixNotUnary(a: Toks, o: BinOp, b: Toks, ma: CExpr, mb: CExpr, t: CExpr)
    requires Atom(a, ma) && Atom(b, mb)
    ensures !Unary(a + [Op(o)] + b, t)
  {
    var ts := a + [Op(o)] + b;
    InfixTops(a, o, b, ma, mb);
    if t.CUn? { assert ts[0] == a[0] != UnTok(t.uop); }
    assert AtTop(ts, |a|);
    if Prim(ts, t) { PrimTops(ts, t); }
  }

  // ---- Operator lists -----------------------------------------------------------------------

  function Join(sep: Tok, gs: seq<Toks>): Toks {
    if gs == [] then [] else if |gs| == 1 then gs[0] else Join(sep, gs[..|gs| - 1]) + [sep] + gs[|gs| - 1]
  }

  /** The left-associated tree of a list. */
  function Fold(o: BinOp, ms: seq<CExpr>): CExpr
    requires ms != []
  {
    if |ms| == 1 then ms[0] else CBin(o, Fold(o, ms[..|ms| - 1]), ms[|ms| - 1])
  }

  /** Each element has a single reading at the level above p's operator. */
  ghost predicate AllRead(p: nat, gs: seq<Toks>, ms: seq<CExpr>)
    requires 1 <= p <= 2
  {
    |gs| == |ms| > 0 && forall k :: 0 <= k < |gs| ==> ReadsAs(p + 1, gs[k], ms[k])
  }

  function ListOp(p: nat): BinOp { if p == 1 then LOr else LAnd }

  lemma OneReads(p: nat, g: Toks, m: CExpr)
    requires 1 <= p <= 2 && ReadsAs(p + 1, g, m)
    ensures ReadsAs(p, g, m)
  {
    assert Bin(p + 1, g, m);
    BinBalanced(p + 1, g, m);
    forall t: CExpr, i: nat | t.CBin? && SplitAt(p, g, t, i) ensures Prec(t.op) != p {
      SplitFacts(p, g, t, i);
      assert Allowed(g[i], p + 1);
    }
  }

  /** left, the list's operator, and one more element. */
  lemma OneMoreReads(p: nat, left: Toks, ml: CExpr, last: Toks, m: CExpr)
    requires 1 <= p <= 2 && ReadsAs(p, left, ml) && ReadsAs(p + 1, last, m)
    ensures ReadsAs(p, left + [Op(ListOp(p))] + last, CBin(ListOp(p), ml, m))
  {
    var o := ListOp(p);
    var ts := left + [Op(o)] + last;
    ListTops(p, left, ml, last, m);
    assert ts[|left|] == Op(o) && !Allowed(Op(o), p + 1);
    var q := p + 1;
    forall t: CExpr ensures !Bin(q, ts, t) {
      if Bin(q, ts, t) { BinBalanced(q, ts, t); }
    }
    assert ts[..|left|] == left && ts[|left| + 1..] == last;
    forall t: CExpr, i: nat | t.CBin? && Prec(t.op) == p && SplitAt(p, ts, t, i) ensures t == CBin(o, ml, m) {
      SplitFacts(p, ts, t, i);
      assert !Allowed(ts[i], p + 1);
      assert i == |left|;
      assert Bin(p, left, t.l) && Bin(p + 1, last, t.r);
    }
    assert Bin(p, left, ml) && Bin(p + 1, last, m);
    assert SplitAt(p, ts, CBin(o, ml, m), |left|);
  }

  /** The operator stands outside parentheses, and no operator of its level does after it. */
  lemma ListTops(p: nat, left: Toks, ml: CExpr, last: Toks, m: CExpr)
    requires 1 <= p <= 2 && ReadsAs(p, left, ml) && ReadsAs(p + 1, last, m)
    ensures var ts := left + [Op(ListOp(p))] + last;
            left != [] && last != [] && AtTop(ts, |left|) &&
            forall i: nat :: AtTop(ts, i) && i > |left| ==> Allowed(ts[i], p + 1)
  {
    var o := ListOp(p);
    assert Bin(p, left, ml) && Bin(p + 1, last, m);
    BinBalanced(p, left, ml);
    BinBalanced(p + 1, last, m);
    SingleTok(Op(o));
    assert AtTop([Op(o)], 0) by { assert [Op(o)][..0] == []; }
    BalancedConcat(left, [Op(o)]);
    BalancedConcat(left + [Op(o)], last);
  }

  /** A list joined by || (p == 1) or && (p == 2) reads, at that level, only as the left-associated tree. */
  lemma {:induction false} ListReads(p: nat, gs: seq<Toks>, ms: seq<CExpr>)
    requires 1 <= p <= 2 && AllRead(p, gs, ms)
    ensures ReadsAs(p, Join(Op(ListOp(p)), gs), Fold(ListOp(p), ms))
    decreases |gs|
  {
    var n := |gs| - 1;
    if n == 0 {
      OneReads(p, gs[0], ms[0]);
    } else {
      ListReads(p, gs[..n], ms[..n]);
      OneMoreReads(p, Join(Op(ListOp(p)), gs[..n]), Fold(ListOp(p), ms[..n]), gs[n], ms[n]);
    }
  }

  /** A single reading at a level is the only one at the levels below it. */
  lemma ReadsBelow(ts: Toks, m: CExpr)
    ensures ReadsAs(3, ts, m) ==> ReadsAs(2, ts, m)
    ensures ReadsAs(2, ts, m) ==> ReadsAs(1, ts, m)
    ensures ReadsAs(1, ts, m) ==> CondReadsAs(ts, m)
  {
    if ReadsAs(3, ts, m) { OneReads(2, ts, m); }
    if ReadsAs(2, ts, m) { OneReads(1, ts, m); }
    if ReadsAs(1, ts, m) {
      assert Bin(1, ts, m);
      BinBalanced(1, ts, m);
      forall t: CExpr, i: nat, j: nat | t.CCond? ensures !CondAt(ts, t, i, j) {
        if CondAt(ts, t, i, j) { CondSplitFacts(ts, t, i, j); }
      }
    }
  }

  /** c ? a : b over three atoms. */
  lemma CondReads(c: Toks, a: Toks, b: Toks, mc: CExpr, ma: CExpr, mb: CExpr)
    requires Atom(c, mc) && Atom(a, ma) && Atom(b, mb)
    ensures CondReadsAs(c + [Quest] + a + [Colon] + b, CCond(mc, ma, mb))
  {
    var ts := c + [Quest] + a + [Colon] + b;
    CondTops(c, a, b, mc, ma, mb);
    forall t ensures !Bin(1, ts, t) { NoBinOver(ts, |c|, t); }
    forall t: CExpr, i: nat, j: nat | t.CCond? && CondAt(ts, t, i, j) ensures t == CCond(mc, ma, mb) {
      CondSplitFacts(ts, t, i, j);
      CondSplitIs(c, a, b, mc, ma, mb, t);
    }
    CondSplitIs(c, a, b, mc, ma, mb, CCond(mc, ma, mb));
    assert CondAt(ts, CCond(mc, ma, mb), |c|, |c| + 1 + |a|);
  }

  /** A binary phrase has no question mark outside parentheses. */
  lemma NoBinOver(ts: Toks, i: nat, t: CExpr)
    requires AtTop(ts, i) && ts[i] == Quest
    ensures !Bin(1, ts, t)
  {
    if Bin(1, ts, t) { BinBalanced(1, ts, t); }
  }

  lemma AtomReadsOne(ts: Toks, m: CExpr, t: CExpr)
    requires Atom(ts, m)
    ensures Bin(1, ts, t) <==> t == m
    ensures Cond(ts, t) <==> t == m
  {
    AtomReads(ts, m, 1);
    ReadsBelow(ts, m);
  }

  lemma CondSplitIs(c: Toks, a: Toks, b: Toks, mc: CExpr, ma: CExpr, mb: CExpr, t: CExpr)
    requires Atom(c, mc) && Atom(a, ma) && Atom(b, mb) && t.CCond?
    ensures CondAt(c + [Quest] + a + [Colon] + b, t, |c|, |c| + 1 + |a|) <==> t == CCond(mc, ma, mb)
  {
    AtomReadsOne(c, mc, t.c);
    AtomReadsOne(a, ma, t.a);
    AtomReadsOne(b, mb, t.b);
    CondParts(c, a, b, t);
  }

  lemma CondParts(c: Toks, a: Toks, b: Toks, t: CExpr)
    requires c != [] && b != [] && t.CCond?
    ensures CondAt(c + [Quest] + a + [Colon] + b, t, |c|, |c| + 1 + |a|) <==>
            Bin(1, c, t.c) && Cond(a, t.a) && Cond(b, t.b)
  {
    CondSlices(c, a, b);
    CondAtMeans(c + [Quest] + a + [Colon] + b, t, |c|, |c| + 1 + |a|, c, a, b);
  }

  lemma CondAtMeans(ts: Toks, t: CExpr, i: nat, j: nat, c: Toks, a: Toks, b: Toks)
    requires t.CCond? && 0 < i < j < |ts| - 1 && ts[i] == Quest && ts[j] == Colon
    requires ts[..i] == c && ts[i + 1..j] == a && ts[j + 1..] == b
    ensures CondAt(ts, t, i, j) <==> Bin(1, c, t.c) && Cond(a, t.a) && Cond(b, t.b)
  {
  }

  lemma CondSlices(c: Toks, a: Toks, b: Toks)
    requires c != [] && b != []
    ensures var ts, j := c + [Quest] + a + [Colon] + b, |c| + 1 + |a|;
            0 < |c| < j < |ts| - 1 && ts[|c|] == Quest && ts[j] == Colon &&
            ts[..|c|] == c && ts[|c| + 1..j] == a && ts[j + 1..] == b
  {
  }

  lemma CondTops(c: Toks, a: Toks, b: Toks, mc: CExpr, ma: CExpr, mb: CExpr)
    requires Atom(c, mc) && Atom(a, ma) && Atom(b, mb)
    ensures var ts := c + [Quest] + a + [Colon] + b;
            AtTop(ts, |c|) && ts[|c|] == Quest && !Allowed(Quest, 1) &&
            forall i: nat :: AtTop(ts, i) ==> (ts[i] == Quest ==> i == |c|) && (ts[i] == Colon ==> i == |c| + 1 + |a|)
  {
    SingleTok(Quest);
    SingleTok(Colon);
    assert [Quest][..0] == [] && [Colon][..0] == [];
    BalancedConcat(c, [Quest]);
    BalancedConcat(c + [Quest], a);
    BalancedConcat(c + [Quest] + a, [Colon]);
    BalancedConcat(c + [Quest] + a + [Colon], b);
  }
}
