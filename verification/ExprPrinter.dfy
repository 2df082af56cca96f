// The operator cases of compile_expr with safe mode off (compiler/codegen_exprs.py:238-287,
// 359-367, 490-494, 1610-1625) and what a C parser makes of the printed text.
module ExprPrinter {
  import opened CGrammar

  datatype ArithOp = Plus | Minus | Mult | Divide | Modulo | LShift | RShift | And | Or | Xor | FloorDiv

  datatype CmpOp = Equal | NotEqual | Less | LessEqual | Greater | GreaterEqual | Is | IsNot

  datatype SignOp = UAdd | USub | NotOp | Invert

  datatype Link = Link(op: CmpOp, e: Expr)

  /** Python's syntax trees; a boolean operation has a first value and more, a comparison has a first link and more. */
  datatype Expr =
    | Name(x: string)
    | Int(n: nat)
    | Arith(op: ArithOp, l: Expr, r: Expr)
    | Unary(u: SignOp, e: Expr)
    | Bool(conj: bool, first: Expr, rest: seq<Expr>)
    | IfExp(test: Expr, body: Expr, orelse: Expr)
    | Compare(left: Expr, link: Link, links: seq<Link>)

  /** compile_op (compiler/codegen_exprs.py:1610-1617) */
  function COp(op: ArithOp): (o: BinOp)
    ensures Prec(o) >= 3
  {
    match op
    case Plus => BinOp.Add
    case Minus => Sub
    case Mult => Mul
    case Divide => Div
    case Modulo => Mod
    case LShift => Shl
    case RShift => Shr
    case And => BitAnd
    case Or => BitOr
    case Xor => BitXor
    case FloorDiv => Div
  }

  /** compile_cmpop (compiler/codegen_exprs.py:1619-1625) */
  function CCmp(op: CmpOp): (o: BinOp)
    ensures Prec(o) >= 3
  {
    match op
    case Equal => Eq
    case NotEqual => Ne
    case Less => Lt
    case LessEqual => Le
    case Greater => Gt
    case GreaterEqual => Ge
    case Is => Eq
    case IsNot => Ne
  }

  /** The unary operators (compiler/codegen_exprs.py:274-281) */
  function CSign(u: SignOp): UnOp {
    match u
    case UAdd => UnOp.Plus
    case USub => UnOp.Minus
    case NotOp => Not
    case Invert => Compl
  }

  function BoolOp(conj: bool): BinOp { if conj then LAnd else LOr }

  function Size(e: Expr): nat
    requires e.Bool? || e.Compare?
  {
    if e.Bool? then 1 + |e.rest| else 1 + |e.links|
  }

  /** The k-th value of a boolean operation. */
  function Value(e: Expr, k: nat): (v: Expr)
    requires e.Bool? && k < Size(e)
    ensures v < e
  {
    if k == 0 then e.first else e.rest[k - 1]
  }

  function LinkAt(e: Expr, k: nat): (l: Link)
    requires e.Compare? && k < Size(e)
    ensures l.e < e
  {
    if k == 0 then e.link else e.links[k - 1]
  }

  /** What stands to the left of the k-th comparison operator. */
  function Before(e: Expr, k: nat): (v: Expr)
    requires e.Compare? && k < Size(e)
    ensures v < e
  {
    if k == 0 then e.left else LinkAt(e, k - 1).e
  }

  // ---- The printer --------------------------------------------------------------------------

  function Paren(ts: Toks): Toks { [LP] + ts + [RP] }

  function Print(e: Expr): Toks
    decreases e, 1
  {
    match e
    case Name(x) => [Id(x)]
    case Int(n) => [Num(n)]
    case Arith(op, l, r) =>
      if op == FloorDiv then Paren(Paren(Print(l)) + [Op(Div)] + Paren(Print(r)))
      else Paren(Print(l) + [Op(COp(op))] + Print(r))
    case Unary(u, x) => Paren([UnTok(CSign(u))] + Print(x))
    case Bool(conj, _, _) => Paren(Join(Op(BoolOp(conj)), Values(e)))
    case IfExp(c, a, b) => Paren(Paren(Print(c)) + [Quest] + Paren(Print(a)) + [Colon] + Paren(Print(b)))
    case Compare(_, _, _) => Join(Op(LAnd), Comparisons(e))
  }

  function Values(e: Expr): (ps: seq<Toks>)
    requires e.Bool?
    ensures |ps| == Size(e)
    decreases e, 0
  {
    seq(Size(e), k requires 0 <= k < Size(e) => Print(Value(e, k)))
  }

  function Comparisons(e: Expr): (ps: seq<Toks>)
    requires e.Compare?
    ensures |ps| == Size(e)
    decreases e, 0, 1
  {
    seq(Size(e), k requires 0 <= k < Size(e) => Comparison(e, k))
  }

  /** One part of a comparison; a middle operand is printed in two of them. */
  function Comparison(e: Expr, k: nat): Toks
    requires e.Compare? && k < Size(e)
    decreases e, 0, 0
  {
    Paren(Print(Before(e, k)) + [Op(CCmp(LinkAt(e, k).op))] + Print(LinkAt(e, k).e))
  }

  // ---- What was meant -----------------------------------------------------------------------

  /** The C tree of a Python tree, node by node. */
  function Meant(e: Expr): CExpr
    decreases e, 1
  {
    match e
    case Name(x) => CName(x)
    case Int(n) => CNum(n)
    case Arith(op, l, r) => CBin(COp(op), Meant(l), Meant(r))
    case Unary(u, x) => CUn(CSign(u), Meant(x))
    case Bool(conj, _, _) => Fold(BoolOp(conj), MeantValues(e))
    case IfExp(c, a, b) => CCond(Meant(c), Meant(a), Meant(b))
    case Compare(_, _, _) => Fold(LAnd, MeantComparisons(e))
  }

  function MeantValues(e: Expr): (ms: seq<CExpr>)
    requires e.Bool?
    ensures |ms| == Size(e)
    decreases e, 0
  {
    seq(Size(e), k requires 0 <= k < Size(e) => Meant(Value(e, k)))
  }

  function MeantComparisons(e: Expr): (ms: seq<CExpr>)
    requires e.Compare?
    ensures |ms| == Size(e)
    decreases e, 0, 1
  {
    seq(Size(e), k requires 0 <= k < Size(e) => MeantComparison(e, k))
  }

  function MeantComparison(e: Expr, k: nat): CExpr
    requires e.Compare? && k < Size(e)
    decreases e, 0, 0
  {
    CBin(CCmp(LinkAt(e, k).op), Meant(Before(e, k)), Meant(LinkAt(e, k).e))
  }

  /** A comparison of two or more operators is the one kind of node printed without parentheses around it. */
  predicate Chain(e: Expr) { e.Compare? && Size(e) >= 2 }

  /** No chain stands where a neighbouring operator can take hold of one of its ends. */
  predicate ChainsLoose(e: Expr)
    decreases e, 1
  {
    match e
    case Name(_) => true
    case Int(_) => true
    case Arith(op, l, r) =>
      ChainsLoose(l) && ChainsLoose(r) && (op == FloorDiv || (!Chain(l) && !Chain(r)))
    case Unary(_, x) => ChainsLoose(x) && !Chain(x)
    case Bool(conj, _, _) =>
      forall k: nat :: k < Size(e) ==> ChainsLoose(Value(e, k)) && (conj && k > 0 ==> !Chain(Value(e, k)))
    case IfExp(c, a, b) => ChainsLoose(c) && ChainsLoose(a) && ChainsLoose(b)
    case Compare(_, _, _) => AllLoose(e)
  }

  predicate AllLoose(e: Expr)
    requires e.Compare?
    decreases e, 0, 1
  {
    forall k: nat :: k < Size(e) ==> LoosePart(e, k)
  }

  predicate LoosePart(e: Expr, k: nat)
    requires e.Compare? && k < Size(e)
    decreases e, 0, 0
  {
    && ChainsLoose(Before(e, k)) && !Chain(Before(e, k))
    && ChainsLoose(LinkAt(e, k).e) && !Chain(LinkAt(e, k).e)
  }

  // ---- What is read -------------------------------------------------------------------------

  /** The texts a printed expression joins with && outside parentheses. */
  function Groups(e: Expr): seq<Toks> { if e.Compare? then Comparisons(e) else [Print(e)] }

  lemma PrintJoins(e: Expr)
    ensures Print(e) == Join(Op(LAnd), Groups(e)) && Groups(e) != []
  {
  }

  /** The trees of those texts. */
  function Trees(e: Expr): (ts: seq<CExpr>)
    ensures |ts| == if e.Compare? then Size(e) else 1
    decreases e, 1
  {
    match e
    case Name(x) => [CName(x)]
    case Int(n) => [CNum(n)]
    case Arith(op, l, r) =>
      if op == FloorDiv then [CBin(Div, Fold(LAnd, Trees(l)), Fold(LAnd, Trees(r)))]
      else [Fold(LAnd, Glue(Trees(l), COp(op), Trees(r)))]
    case Unary(u, x) => [Fold(LAnd, [CUn(CSign(u), Trees(x)[0])] + Trees(x)[1..])]
    case Bool(conj, _, _) =>
      if conj then [Fold(LAnd, Flat(ValueTrees(e)))] else [Fold(LOr, ReadValues(e))]
    case IfExp(c, a, b) => [CCond(Fold(LAnd, Trees(c)), Fold(LAnd, Trees(a)), Fold(LAnd, Trees(b)))]
    case Compare(_, _, _) => ReadComparisons(e)
  }

  /** An operator between two && lists takes the last of the one and the first of the other. */
  function Glue(a: seq<CExpr>, o: BinOp, b: seq<CExpr>): (ts: seq<CExpr>)
    requires a != [] && b != []
    ensures |ts| == |a| + |b| - 1
  {
    a[..|a| - 1] + [CBin(o, a[|a| - 1], b[0])] + b[1..]
  }

  ghost predicate NoneEmpty<T>(ss: seq<seq<T>>) { forall k :: 0 <= k < |ss| ==> ss[k] != [] }

  function Flat<T>(ss: seq<seq<T>>): (s: seq<T>)
    ensures NoneEmpty(ss) && ss != [] ==> s != []
  {
    if ss == [] then [] else Flat(ss[..|ss| - 1]) + ss[|ss| - 1]
  }

  function ValueTrees(e: Expr): (tss: seq<seq<CExpr>>)
    requires e.Bool?
    ensures |tss| == Size(e) && NoneEmpty(tss)
    decreases e, 0
  {
    seq(Size(e), k requires 0 <= k < Size(e) => Trees(Value(e, k)))
  }

  function ReadValues(e: Expr): (ts: seq<CExpr>)
    requires e.Bool?
    ensures |ts| == Size(e)
    decreases e, 0
  {
    seq(Size(e), k requires 0 <= k < Size(e) => Fold(LAnd, Trees(Value(e, k))))
  }

  function ReadComparisons(e: Expr): (ts: seq<CExpr>)
    requires e.Compare?
    ensures |ts| == Size(e)
    decreases e, 0, 1
  {
    seq(Size(e), k requires 0 <= k < Size(e) => ReadComparison(e, k))
  }

  function ReadComparison(e: Expr, k: nat): CExpr
    requires e.Compare? && k < Size(e)
    decreases e, 0, 0
  {
    Fold(LAnd, Glue(Trees(Before(e, k)), CCmp(LinkAt(e, k).op), Trees(LinkAt(e, k).e)))
  }

  function Read(e: Expr): CExpr { Fold(LAnd, Trees(e)) }

  // ---- Joining ------------------------------------------------------------------------------

  ghost predicate Atoms(gs: seq<Toks>, ts: seq<CExpr>) {
    |gs| == |ts| > 0 && forall k :: 0 <= k < |gs| ==> Atom(gs[k], ts[k])
  }

  lemma {:induction false} JoinConcat(sep: Tok, a: seq<Toks>, b: seq<Toks>)
    requires a != [] && b != []
    ensures Join(sep, a + b) == Join(sep, a) + [sep] + Join(sep, b)
    decreases |b|
  {
    var n := |b| - 1;
    assert (a + b)[..|a| + n] == a + b[..n];
    if n == 0 {
      assert a + b[..0] == a;
    } else {
      JoinConcat(sep, a, b[..n]);
    }
  }

  function GlueToks(a: seq<Toks>, m: Toks, b: seq<Toks>): seq<Toks>
    requires a != [] && b != []
  {
    a[..|a| - 1] + [a[|a| - 1] + m + b[0]] + b[1..]
  }

  function Lead(sep: Tok, a: seq<Toks>): Toks { if a == [] then [] else Join(sep, a) + [sep] }

  function Trail(sep: Tok, b: seq<Toks>): Toks { if b == [] then [] else [sep] + Join(sep, b) }

  lemma JoinLead(sep: Tok, a: seq<Toks>, b: seq<Toks>)
    requires b != []
    ensures Join(sep, a + b) == Lead(sep, a) + Join(sep, b)
  {
    if a == [] { assert a + b == b; } else { JoinConcat(sep, a, b); }
  }

  lemma JoinTrail(sep: Tok, x: Toks, b: seq<Toks>)
    ensures Join(sep, [x] + b) == x + Trail(sep, b)
  {
    if b == [] { assert [x] + b == [x]; } else { JoinConcat(sep, [x], b); }
  }

  lemma JoinGlue(sep: Tok, a: seq<Toks>, m: Toks, b: seq<Toks>)
    requires a != [] && b != []
    ensures Join(sep, a) + m + Join(sep, b) == Join(sep, GlueToks(a, m, b))
  {
    var a0, al, b0, bt := a[..|a| - 1], a[|a| - 1], b[0], b[1..];
    assert Join(sep, a) == Lead(sep, a0) + al by { assert a == a0 + [al]; JoinLead(sep, a0, [al]); }
    assert Join(sep, b) == b0 + Trail(sep, bt) by { assert b == [b0] + bt; JoinTrail(sep, b0, bt); }
    JoinAround(sep, a0, al + m + b0, bt, GlueToks(a, m, b));
  }

  lemma JoinAround(sep: Tok, a: seq<Toks>, x: Toks, b: seq<Toks>, whole: seq<Toks>)
    requires whole == a + [x] + b
    ensures Join(sep, whole) == Lead(sep, a) + (x + Trail(sep, b))
  {
    assert whole == a + ([x] + b);
    JoinLead(sep, a, [x] + b);
    JoinTrail(sep, x, b);
  }

  /** A list of atoms joined by && reads only as the left-associated tree. */
  lemma AtomsRead(gs: seq<Toks>, ts: seq<CExpr>)
    requires Atoms(gs, ts)
    ensures ReadsAs(2, Join(Op(LAnd), gs), Fold(LAnd, ts)) && CondReadsAs(Join(Op(LAnd), gs), Fold(LAnd, ts))
  {
    forall k | 0 <= k < |gs| ensures ReadsAs(3, gs[k], ts[k]) { AtomReads(gs[k], ts[k], 3); }
    ListReads(2, gs, ts);
    ReadsBelow(Join(Op(LAnd), gs), Fold(LAnd, ts));
  }

  /** Two && lists with an operator between them, in parentheses. */
  lemma InfixGroup(a: seq<Toks>, ta: seq<CExpr>, o: BinOp, b: seq<Toks>, tb: seq<CExpr>)
    requires Atoms(a, ta) && Atoms(b, tb) && Prec(o) >= 3
    ensures Atom(Paren(Join(Op(LAnd), a) + [Op(o)] + Join(Op(LAnd), b)), Fold(LAnd, Glue(ta, o, tb)))
  {
    var gs, ts := GlueToks(a, [Op(o)], b), Glue(ta, o, tb);
    var n := |a| - 1;
    forall k | 0 <= k < |gs| ensures ReadsAs(3, gs[k], ts[k]) {
      if k < n {
        AtomReads(a[k], ta[k], 3);
      } else if k == n {
        InfixReads(a[n], o, b[0], ta[n], tb[0], 3);
      } else {
        AtomReads(b[k - n], tb[k - n], 3);
      }
    }
    ListReads(2, gs, ts);
    ReadsBelow(Join(Op(LAnd), gs), Fold(LAnd, ts));
    JoinGlue(Op(LAnd), a, [Op(o)], b);
    ParenAtom(Join(Op(LAnd), gs), Fold(LAnd, ts));
  }

  lemma UnaryGroup(u: UnOp, b: seq<Toks>, tb: seq<CExpr>)
    requires Atoms(b, tb)
    ensures Atom(Paren([UnTok(u)] + Join(Op(LAnd), b)), Fold(LAnd, [CUn(u, tb[0])] + tb[1..]))
  {
    var gs, ts := GlueToks([[]], [UnTok(u)], b), [CUn(u, tb[0])] + tb[1..];
    assert gs[0] == [UnTok(u)] + b[0];
    forall k | 0 <= k < |gs| ensures ReadsAs(3, gs[k], ts[k]) {
      if k == 0 {
        UnaryReads(u, b[0], tb[0], 3);
      } else {
        AtomReads(b[k], tb[k], 3);
      }
    }
    ListReads(2, gs, ts);
    ReadsBelow(Join(Op(LAnd), gs), Fold(LAnd, ts));
    JoinGlue(Op(LAnd), [[]], [UnTok(u)], b);
    assert Join(Op(LAnd), [[]]) + [UnTok(u)] == [UnTok(u)];
    ParenAtom(Join(Op(LAnd), gs), Fold(LAnd, ts));
  }

  /** Any printed expression in parentheses. */
  lemma ParenGroup(e: Expr)
    requires Atoms(Groups(e), Trees(e))
    ensures Atom(Paren(Print(e)), Read(e))
  {
    PrintJoins(e);
    AtomsRead(Groups(e), Trees(e));
    ParenAtom(Print(e), Read(e));
  }

  lemma AtomsConcat(a: seq<Toks>, ta: seq<CExpr>, b: seq<Toks>, tb: seq<CExpr>)
    requires Atoms(a, ta) && Atoms(b, tb)
    ensures Atoms(a + b, ta + tb)
  {
    forall k | 0 <= k < |a + b| ensures Atom((a + b)[k], (ta + tb)[k]) {
      assert if k < |a| then (a + b)[k] == a[k] else (a + b)[k] == b[k - |a|];
    }
  }

  ghost predicate AllAtoms(gss: seq<seq<Toks>>, tss: seq<seq<CExpr>>) {
    |gss| == |tss| > 0 && forall k :: 0 <= k < |gss| ==> Atoms(gss[k], tss[k])
  }

  lemma {:induction false} FlatAtoms(gss: seq<seq<Toks>>, tss: seq<seq<CExpr>>)
    requires AllAtoms(gss, tss)
    ensures Atoms(Flat(gss), Flat(tss))
    decreases |gss|
  {
    var n := |gss| - 1;
    if n == 0 {
      assert Flat(gss) == gss[0] && Flat(tss) == tss[0];
    } else {
      FlatAtoms(gss[..n], tss[..n]);
      AtomsConcat(Flat(gss[..n]), Flat(tss[..n]), gss[n], tss[n]);
    }
  }

  lemma {:induction false} JoinFlat(sep: Tok, gss: seq<seq<Toks>>, ps: seq<Toks>)
    requires |gss| == |ps| > 0 && NoneEmpty(gss)
    requires forall k :: 0 <= k < |gss| ==> ps[k] == Join(sep, gss[k])
    ensures Join(sep, ps) == Join(sep, Flat(gss))
    decreases |gss|
  {
    var n := |gss| - 1;
    if n == 0 {
      assert Flat(gss) == gss[0];
    } else {
      JoinFlat(sep, gss[..n], ps[..n]);
      JoinConcat(sep, Flat(gss[..n]), gss[n]);
    }
  }

  // ---- The reading of every printed expression ----------------------------------------------

  lemma {:induction false} GroupsAreAtoms(e: Expr)
    ensures Atoms(Groups(e), Trees(e))
    decreases e, 1
  {
    match e
    case Name(x) => NameAtom(x);
    case Int(n) => NumAtom(n);
    case Arith(op, l, r) => ArithAtom(e);
    case Unary(u, x) => UnaryAtom(e);
    case Bool(conj, _, _) => if conj { ConjAtom(e); } else { DisjAtom(e); }
    case IfExp(c, a, b) => IfExpAtom(e);
    case Compare(_, _, _) => ComparisonsAreAtoms(e);
  }

  lemma {:induction false} UnaryAtom(e: Expr)
    requires e.Unary?
    ensures Atom(Print(e), Trees(e)[0])
    decreases e, 0
  {
    GroupsAreAtoms(e.e);
    PrintJoins(e.e);
    UnaryGroup(CSign(e.u), Groups(e.e), Trees(e.e));
  }

  lemma {:induction false} InParens(e: Expr)
    ensures Atom(Paren(Print(e)), Read(e))
    decreases e, 2
  {
    GroupsAreAtoms(e);
    ParenGroup(e);
  }

  lemma {:induction false} ArithAtom(e: Expr)
    requires e.Arith?
    ensures Atom(Print(e), Trees(e)[0])
    decreases e, 0
  {
    if e.op == FloorDiv {
      InParens(e.l);
      InParens(e.r);
      var l, r := Paren(Print(e.l)), Paren(Print(e.r));
      InfixReads(l, Div, r, Read(e.l), Read(e.r), 1);
      ReadsBelow(l + [Op(Div)] + r, CBin(Div, Read(e.l), Read(e.r)));
      ParenAtom(l + [Op(Div)] + r, CBin(Div, Read(e.l), Read(e.r)));
    } else {
      GroupsAreAtoms(e.l);
      GroupsAreAtoms(e.r);
      PrintJoins(e.l);
      PrintJoins(e.r);
      InfixGroup(Groups(e.l), Trees(e.l), COp(e.op), Groups(e.r), Trees(e.r));
    }
  }

  lemma {:induction false} IfExpAtom(e: Expr)
    requires e.IfExp?
    ensures Atom(Print(e), Trees(e)[0])
    decreases e, 0
  {
    InParens(e.test);
    InParens(e.body);
    InParens(e.orelse);
    IfExpGroup(Paren(Print(e.test)), Paren(Print(e.body)), Paren(Print(e.orelse)),
               Read(e.test), Read(e.body), Read(e.orelse));
  }

  lemma IfExpGroup(c: Toks, a: Toks, b: Toks, mc: CExpr, ma: CExpr, mb: CExpr)
    requires Atom(c, mc) && Atom(a, ma) && Atom(b, mb)
    ensures Atom(Paren(c + [Quest] + a + [Colon] + b), CCond(mc, ma, mb))
  {
    CondReads(c, a, b, mc, ma, mb);
    ParenAtom(c + [Quest] + a + [Colon] + b, CCond(mc, ma, mb));
  }

  function ValueGroups(e: Expr): (gss: seq<seq<Toks>>)
    requires e.Bool?
    ensures |gss| == Size(e)
  {
    seq(Size(e), k requires 0 <= k < Size(e) => Groups(Value(e, k)))
  }

  lemma {:induction false} ConjAtom(e: Expr)
    requires e.Bool? && e.conj
    ensures Atom(Print(e), Trees(e)[0])
    decreases e, 0
  {
    var ps, gss, tss := Values(e), ValueGroups(e), ValueTrees(e);
    forall k: nat | k < Size(e) ensures Atoms(gss[k], tss[k]) && gss[k] != [] && ps[k] == Join(Op(LAnd), gss[k]) {
      GroupsAreAtoms(Value(e, k));
      PrintJoins(Value(e, k));
    }
    ConjGroup(ps, gss, tss);
  }

  lemma ConjGroup(ps: seq<Toks>, gss: seq<seq<Toks>>, tss: seq<seq<CExpr>>)
    requires AllAtoms(gss, tss) && NoneEmpty(gss) && |ps| == |gss|
    requires forall k :: 0 <= k < |gss| ==> ps[k] == Join(Op(LAnd), gss[k])
    ensures Atom(Paren(Join(Op(LAnd), ps)), Fold(LAnd, Flat(tss)))
  {
    FlatAtoms(gss, tss);
    JoinFlat(Op(LAnd), gss, ps);
    AtomsRead(Flat(gss), Flat(tss));
    ParenAtom(Join(Op(LAnd), ps), Fold(LAnd, Flat(tss)));
  }

  lemma {:induction false} DisjAtom(e: Expr)
    requires e.Bool? && !e.conj
    ensures Atom(Print(e), Trees(e)[0])
    decreases e, 0
  {
    var ps, ts := Values(e), ReadValues(e);
    forall k: nat | k < Size(e) ensures ReadsAs(2, ps[k], ts[k]) {
      var v := Value(e, k);
      GroupsAreAtoms(v);
      PrintJoins(v);
      AtomsRead(Groups(v), Trees(v));
    }
    ListReads(1, ps, ts);
    ReadsBelow(Join(Op(LOr), ps), Fold(LOr, ts));
    ParenAtom(Join(Op(LOr), ps), Fold(LOr, ts));
  }

  lemma {:induction false} ComparisonsAreAtoms(e: Expr)
    requires e.Compare?
    ensures Atoms(Comparisons(e), ReadComparisons(e))
    decreases e, 0, 1
  {
    forall k: nat | k < Size(e) ensures Atom(Comparisons(e)[k], ReadComparisons(e)[k]) { ComparisonAtom(e, k); }
  }

  lemma {:induction false} ComparisonAtom(e: Expr, k: nat)
    requires e.Compare? && k < Size(e)
    ensures Atom(Comparison(e, k), ReadComparison(e, k))
    decreases e, 0, 0
  {
    var a, b := Before(e, k), LinkAt(e, k).e;
    GroupsAreAtoms(a);
    GroupsAreAtoms(b);
    PrintJoins(a);
    PrintJoins(b);
    InfixGroup(Groups(a), Trees(a), CCmp(LinkAt(e, k).op), Groups(b), Trees(b));
  }

  /** A C parser reads the printed text of every expression in exactly one way. */
  lemma PrintReads(e: Expr)
    ensures CondReadsAs(Print(e), Read(e))
  {
    GroupsAreAtoms(e);
    PrintJoins(e);
    AtomsRead(Groups(e), Trees(e));
  }

  // ---- When the reading is the meaning ------------------------------------------------------

  function Leaves(t: CExpr): (n: nat)
    ensures n > 0
  {
    match t
    case CName(_) => 1
    case CNum(_) => 1
    case CUn(_, a) => Leaves(a)
    case CBin(_, a, b) => Leaves(a) + Leaves(b)
    case CCond(c, a, b) => Leaves(c) + Leaves(a) + Leaves(b)
  }

  function AllLeaves(ts: seq<CExpr>): nat {
    if ts == [] then 0 else AllLeaves(ts[..|ts| - 1]) + Leaves(ts[|ts| - 1])
  }

  lemma {:induction false} AllLeavesConcat(a: seq<CExpr>, b: seq<CExpr>)
    ensures AllLeaves(a + b) == AllLeaves(a) + AllLeaves(b)
    decreases |b|
  {
    if b == [] {
      assert a + b == a;
    } else {
      assert (a + b)[..|a + b| - 1] == a + b[..|b| - 1];
      AllLeavesConcat(a, b[..|b| - 1]);
    }
  }

  lemma {:induction false} FoldLeaves(o: BinOp, ts: seq<CExpr>)
    requires ts != []
    ensures Leaves(Fold(o, ts)) == AllLeaves(ts)
    decreases |ts|
  {
    if |ts| > 1 { FoldLeaves(o, ts[..|ts| - 1]); } else { assert ts[..0] == []; }
  }

  lemma OneLeaves(t: CExpr)
    ensures AllLeaves([t]) == Leaves(t)
  {
    assert [t][..0] == [];
  }

  lemma GlueLeaves(a: seq<CExpr>, o: BinOp, b: seq<CExpr>)
    requires a != [] && b != []
    ensures Leaves(Fold(LAnd, Glue(a, o, b))) == AllLeaves(a) + AllLeaves(b)
  {
    var n := |a| - 1;
    var mid := CBin(o, a[n], b[0]);
    FoldLeaves(LAnd, Glue(a, o, b));
    AllLeavesConcat(a[..n] + [mid], b[1..]);
    AllLeavesConcat(a[..n], [mid]);
    OneLeaves(mid);
    assert b == [b[0]] + b[1..];
    AllLeavesConcat([b[0]], b[1..]);
    OneLeaves(b[0]);
  }

  lemma UnaryLeaves(u: UnOp, b: seq<CExpr>)
    requires b != []
    ensures Leaves(Fold(LAnd, [CUn(u, b[0])] + b[1..])) == AllLeaves(b)
  {
    FoldLeaves(LAnd, [CUn(u, b[0])] + b[1..]);
    FirstLeaves(CUn(u, b[0]), b[1..]);
    FirstLeaves(b[0], b[1..]);
    assert b == [b[0]] + b[1..];
  }

  lemma FirstLeaves(t: CExpr, ts: seq<CExpr>)
    ensures AllLeaves([t] + ts) == Leaves(t) + AllLeaves(ts)
  {
    AllLeavesConcat([t], ts);
    OneLeaves(t);
  }

  ghost predicate SameLeaves(tss: seq<seq<CExpr>>, ms: seq<CExpr>) {
    |tss| == |ms| && forall k :: 0 <= k < |tss| ==> AllLeaves(tss[k]) == Leaves(ms[k])
  }

  lemma {:induction false} FlatLeaves(tss: seq<seq<CExpr>>, ms: seq<CExpr>)
    requires SameLeaves(tss, ms)
    ensures AllLeaves(Flat(tss)) == AllLeaves(ms)
    decreases |tss|
  {
    if tss != [] {
      var n := |tss| - 1;
      FlatLeaves(tss[..n], ms[..n]);
      AllLeavesConcat(Flat(tss[..n]), tss[n]);
    }
  }

  lemma {:induction false} EachLeaves(ts: seq<CExpr>, ms: seq<CExpr>)
    requires |ts| == |ms| && forall k :: 0 <= k < |ts| ==> Leaves(ts[k]) == Leaves(ms[k])
    ensures AllLeaves(ts) == AllLeaves(ms)
    decreases |ts|
  {
    if ts != [] { EachLeaves(ts[..|ts| - 1], ms[..|ms| - 1]); }
  }

  /** The reading has the leaves of the meaning. */
  lemma {:induction false} ReadLeaves(e: Expr)
    ensures AllLeaves(Trees(e)) == Leaves(Meant(e)) == Leaves(Read(e))
    decreases e, 1
  {
    FoldLeaves(LAnd, Trees(e));
    if !e.Compare? { OneLeaves(Trees(e)[0]); }
    match e
    case Name(_) =>
    case Int(_) =>
    case Arith(op, l, r) =>
      ReadLeaves(l);
      ReadLeaves(r);
      if op != FloorDiv { GlueLeaves(Trees(l), COp(op), Trees(r)); }
    case Unary(u, x) =>
      ReadLeaves(x);
      UnaryLeaves(CSign(u), Trees(x));
    case Bool(conj, _, _) => BoolLeaves(e);
    case IfExp(c, a, b) =>
      ReadLeaves(c);
      ReadLeaves(a);
      ReadLeaves(b);
    case Compare(_, _, _) => ComparisonsLeaves(e);
  }

  lemma {:induction false} BoolLeaves(e: Expr)
    requires e.Bool?
    ensures Leaves(Trees(e)[0]) == Leaves(Meant(e))
    decreases e, 0
  {
    var tss, rs, ms := ValueTrees(e), ReadValues(e), MeantValues(e);
    forall k: nat | k < Size(e) ensures AllLeaves(tss[k]) == Leaves(ms[k]) == Leaves(rs[k]) { ReadLeaves(Value(e, k)); }
    FoldLeaves(BoolOp(e.conj), ms);
    if e.conj {
      FlatLeaves(tss, ms);
      FoldLeaves(LAnd, Flat(tss));
    } else {
      EachLeaves(rs, ms);
      FoldLeaves(LOr, rs);
    }
  }

  lemma CompareRead(e: Expr)
    requires e.Compare?
    ensures Trees(e) == ReadComparisons(e)
    ensures Read(e) == Fold(LAnd, ReadComparisons(e))
  {
  }

  lemma CompareMeant(e: Expr)
    requires e.Compare?
    ensures Meant(e) == Fold(LAnd, MeantComparisons(e))
  {
  }

  lemma CompareLoose(e: Expr)
    requires e.Compare?
    ensures ChainsLoose(e) <==> AllLoose(e)
  {
  }

  lemma {:induction false} ComparisonsLeaves(e: Expr)
    requires e.Compare?
    ensures AllLeaves(Trees(e)) == Leaves(Meant(e))
    decreases e, 0, 1
  {
    CompareRead(e);
    CompareMeant(e);
    forall k: nat | k < Size(e) ensures Leaves(ReadComparisons(e)[k]) == Leaves(MeantComparisons(e)[k]) {
      ComparisonLeaves(e, k);
    }
    EachLeaves(ReadComparisons(e), MeantComparisons(e));
    FoldLeaves(LAnd, MeantComparisons(e));
  }

  lemma {:induction false} ComparisonLeaves(e: Expr, k: nat)
    requires e.Compare? && k < Size(e)
    ensures Leaves(ReadComparison(e, k)) == Leaves(MeantComparison(e, k))
    decreases e, 0, 0
  {
    var a, b := Before(e, k), LinkAt(e, k).e;
    ReadLeaves(a);
    ReadLeaves(b);
    GlueLeaves(Trees(a), CCmp(LinkAt(e, k).op), Trees(b));
  }

  lemma {:induction false} FoldInjective(o: BinOp, a: seq<CExpr>, b: seq<CExpr>)
    requires |a| == |b| > 0 && Fold(o, a) == Fold(o, b)
    ensures a == b
    decreases |a|
  {
    var n := |a| - 1;
    if n > 0 { FoldInjective(o, a[..n], b[..n]); }
    assert a == a[..n] + [a[n]] && b == b[..n] + [b[n]];
  }

  /** An operator between two && lists stands between their trees only if both lists are single. */
  lemma GlueIs(ta: seq<CExpr>, o: BinOp, tb: seq<CExpr>, ma: CExpr, mb: CExpr)
    requires ta != [] && tb != [] && o != LAnd
    ensures Fold(LAnd, Glue(ta, o, tb)) == CBin(o, ma, mb) <==> |ta| == 1 && |tb| == 1 && ta[0] == ma && tb[0] == mb
  {
    var ts := Glue(ta, o, tb);
    if |ts| == 1 {
      assert ts[0] == CBin(o, ta[0], tb[0]);
    } else {
      assert Fold(LAnd, ts).CBin? && Fold(LAnd, ts).op == LAnd;
    }
  }

  lemma SingleRead(e: Expr)
    ensures !Chain(e) <==> |Trees(e)| == 1
    ensures |Trees(e)| == 1 ==> Read(e) == Trees(e)[0]
  {
  }

  /** An operator printed between two expressions is read between them only if neither is a chain. */
  lemma GlueRead(a: Expr, o: BinOp, b: Expr)
    requires o != LAnd
    ensures Fold(LAnd, Glue(Trees(a), o, Trees(b))) == CBin(o, Meant(a), Meant(b))
       <==> !Chain(a) && !Chain(b) && Read(a) == Meant(a) && Read(b) == Meant(b)
  {
    GlueIs(Trees(a), o, Trees(b), Meant(a), Meant(b));
    SingleRead(a);
    SingleRead(b);
  }

  lemma UnaryRead(u: UnOp, x: Expr)
    ensures Fold(LAnd, [CUn(u, Trees(x)[0])] + Trees(x)[1..]) == CUn(u, Meant(x)) <==> !Chain(x) && Read(x) == Meant(x)
  {
    SingleRead(x);
  }

  lemma FoldMore(a: seq<CExpr>, b: seq<CExpr>)
    requires a != [] && b != []
    ensures Fold(LAnd, a + b).CBin? && Fold(LAnd, a + b).r == b[|b| - 1]
    ensures |b| == 1 ==> Fold(LAnd, a + b) == CBin(LAnd, Fold(LAnd, a), b[0])
  {
    assert |b| == 1 ==> (a + b)[..|a + b| - 1] == a;
  }

  lemma LastLeaves(ts: seq<CExpr>)
    requires ts != []
    ensures |ts| > 1 ==> Leaves(ts[|ts| - 1]) < AllLeaves(ts)
  {
    if |ts| > 1 { assert AllLeaves(ts[..|ts| - 1]) > 0; }
  }

  lemma ConjStep(cs: seq<CExpr>, ts: seq<CExpr>, ms: seq<CExpr>, m: CExpr)
    requires cs != [] && ts != [] && ms != [] && AllLeaves(ts) == Leaves(m)
    ensures Fold(LAnd, cs + ts) == Fold(LAnd, ms + [m]) <==> Fold(LAnd, cs) == Fold(LAnd, ms) && ts == [m]
  {
    FoldMore(cs, ts);
    FoldMore(ms, [m]);
    LastLeaves(ts);
  }

  ghost predicate SinglesAfter(tss: seq<seq<CExpr>>, ms: seq<CExpr>)
    requires |tss| == |ms|
  {
    forall k :: 0 < k < |tss| ==> tss[k] == [ms[k]]
  }

  /** A flattened && list is the nested one only if every list after the first is single. */
  lemma {:induction false} FlatIs(tss: seq<seq<CExpr>>, ms: seq<CExpr>)
    requires tss != [] && NoneEmpty(tss) && SameLeaves(tss, ms)
    ensures Fold(LAnd, Flat(tss)) == Fold(LAnd, ms) <==> Fold(LAnd, tss[0]) == ms[0] && SinglesAfter(tss, ms)
    decreases |tss|
  {
    var n := |tss| - 1;
    if n == 0 {
      assert Flat(tss) == tss[0];
    } else {
      assert NoneEmpty(tss[..n]) && SameLeaves(tss[..n], ms[..n]);
      FlatIs(tss[..n], ms[..n]);
      ConjStep(Flat(tss[..n]), tss[n], ms[..n], ms[n]);
      assert ms == ms[..n] + [ms[n]];
      SinglesLast(tss, ms);
    }
  }

  lemma SinglesLast(tss: seq<seq<CExpr>>, ms: seq<CExpr>)
    requires |tss| == |ms| > 1
    ensures var n := |tss| - 1;
            SinglesAfter(tss, ms) <==> SinglesAfter(tss[..n], ms[..n]) && tss[n] == [ms[n]]
  {
    assert forall k :: 0 <= k < |tss| - 1 ==> tss[k] == tss[..|tss| - 1][k];
  }

  /** The reading is the tree that was meant exactly when every chain is loose. */
  lemma {:induction false} ReadIsMeant(e: Expr)
    ensures Read(e) == Meant(e) <==> ChainsLoose(e)
    decreases e, 1
  {
    match e
    case Name(_) =>
    case Int(_) =>
    case Arith(_, _, _) => ArithMeant(e);
    case Unary(_, _) => UnaryMeant(e);
    case Bool(conj, _, _) => if conj { ConjMeant(e); } else { DisjMeant(e); }
    case IfExp(_, _, _) => IfExpMeant(e);
    case Compare(_, _, _) => ComparisonsMeant(e);
  }

  lemma {:induction false} ArithMeant(e: Expr)
    requires e.Arith?
    ensures Read(e) == Meant(e) <==> ChainsLoose(e)
    decreases e, 0
  {
    ReadIsMeant(e.l);
    ReadIsMeant(e.r);
    if e.op == FloorDiv { FloorDivRead(e, e.l, e.r); } else { ArithRead(e, e.op, e.l, e.r); }
  }

  lemma FloorDivRead(e: Expr, l: Expr, r: Expr)
    requires e == Arith(FloorDiv, l, r)
    ensures Read(e) == Meant(e) <==> Read(l) == Meant(l) && Read(r) == Meant(r)
  {
    assert Read(e) == CBin(Div, Read(l), Read(r));
  }

  lemma ArithRead(e: Expr, op: ArithOp, l: Expr, r: Expr)
    requires e == Arith(op, l, r) && op != FloorDiv
    ensures Read(e) == Meant(e) <==> !Chain(l) && !Chain(r) && Read(l) == Meant(l) && Read(r) == Meant(r)
  {
    GlueRead(l, COp(op), r);
    assert Read(e) == Fold(LAnd, Glue(Trees(l), COp(op), Trees(r)));
  }

  lemma {:induction false} UnaryMeant(e: Expr)
    requires e.Unary?
    ensures Read(e) == Meant(e) <==> ChainsLoose(e)
    decreases e, 0
  {
    ReadIsMeant(e.e);
    UnaryRead(CSign(e.u), e.e);
  }

  lemma {:induction false} IfExpMeant(e: Expr)
    requires e.IfExp?
    ensures Read(e) == Meant(e) <==> ChainsLoose(e)
    decreases e, 0
  {
    ReadIsMeant(e.test);
    ReadIsMeant(e.body);
    ReadIsMeant(e.orelse);
  }

  lemma {:induction false} ConjMeant(e: Expr)
    requires e.Bool? && e.conj
    ensures Read(e) == Meant(e) <==> ChainsLoose(e)
    decreases e, 0
  {
    var tss, ms := ValueTrees(e), MeantValues(e);
    forall k: nat | k < Size(e)
      ensures AllLeaves(tss[k]) == Leaves(ms[k])
      ensures Fold(LAnd, tss[k]) == ms[k] <==> ChainsLoose(Value(e, k))
      ensures tss[k] == [ms[k]] <==> ChainsLoose(Value(e, k)) && !Chain(Value(e, k))
    {
      ReadLeaves(Value(e, k));
      ReadIsMeant(Value(e, k));
      SingleRead(Value(e, k));
    }
    FlatIs(tss, ms);
  }

  lemma {:induction false} DisjMeant(e: Expr)
    requires e.Bool? && !e.conj
    ensures Read(e) == Meant(e) <==> ChainsLoose(e)
    decreases e, 0
  {
    var rs, ms := ReadValues(e), MeantValues(e);
    forall k: nat | k < Size(e) ensures rs[k] == ms[k] <==> ChainsLoose(Value(e, k)) { ReadIsMeant(Value(e, k)); }
    FoldEqual(LOr, rs, ms);
  }

  lemma {:induction false} ComparisonsMeant(e: Expr)
    requires e.Compare?
    ensures Read(e) == Meant(e) <==> ChainsLoose(e)
    decreases e, 0, 1
  {
    CompareRead(e);
    CompareMeant(e);
    CompareLoose(e);
    FoldEqual(LAnd, ReadComparisons(e), MeantComparisons(e));
    forall k: nat | k < Size(e) ensures ReadComparisons(e)[k] == MeantComparisons(e)[k] <==> LoosePart(e, k) {
      ComparisonMeant(e, k);
    }
  }

  lemma {:induction false} ComparisonMeant(e: Expr, k: nat)
    requires e.Compare? && k < Size(e)
    ensures ReadComparison(e, k) == MeantComparison(e, k) <==> LoosePart(e, k)
    decreases e, 0, 0
  {
    ReadIsMeant(Before(e, k));
    ReadIsMeant(LinkAt(e, k).e);
    ComparisonRead(e, k);
  }

  lemma ComparisonRead(e: Expr, k: nat)
    requires e.Compare? && k < Size(e)
    ensures ReadComparison(e, k) == MeantComparison(e, k) <==>
            var a, b := Before(e, k), LinkAt(e, k).e;
            !Chain(a) && !Chain(b) && Read(a) == Meant(a) && Read(b) == Meant(b)
  {
    GlueRead(Before(e, k), CCmp(LinkAt(e, k).op), LinkAt(e, k).e);
  }

  lemma FoldEqual(o: BinOp, a: seq<CExpr>, b: seq<CExpr>)
    requires |a| == |b| > 0
    ensures Fold(o, a) == Fold(o, b) <==> forall k :: 0 <= k < |a| ==> a[k] == b[k]
  {
    if Fold(o, a) == Fold(o, b) { FoldInjective(o, a, b); }
    if forall k :: 0 <= k < |a| ==> a[k] == b[k] { assert a == b; }
  }

  /**
   * The printed text reads as the tree that was meant, and as no other, exactly when no chained comparison
   * is an operand of a unary, binary or comparison operator or a later value of an "and".
   */
  lemma PrintReadsBack(e: Expr)
    ensures CondReadsAs(Print(e), Meant(e)) <==> ChainsLoose(e)
  {
    PrintReads(e);
    ReadIsMeant(e);
    assert Cond(Print(e), Read(e));
    if CondReadsAs(Print(e), Meant(e)) { assert Read(e) == Meant(e); }
  }

  /** Without chains, printing is injective up to the C tree: equal texts mean the same. */
  lemma EqualTextsMeanTheSame(d: Expr, e: Expr)
    requires ChainsLoose(d) && ChainsLoose(e) && Print(d) == Print(e)
    ensures Meant(d) == Meant(e)
  {
    PrintReadsBack(d);
    PrintReadsBack(e);
    assert Cond(Print(d), Meant(d));
  }

  /** not (a < b < c) prints as (!(a < b) && (b < c)), which C reads as (!(a < b)) && (b < c). */
  lemma NotOfAChain(a: string, b: string, c: string)
    ensures var chain := Compare(Name(a), Link(Less, Name(b)), [Link(Less, Name(c))]);
            CondReadsAs(Print(Unary(NotOp, chain)),
                        CBin(LAnd, CUn(Not, CBin(Lt, CName(a), CName(b))), CBin(Lt, CName(b), CName(c))))
  {
    var chain := Compare(Name(a), Link(Less, Name(b)), [Link(Less, Name(c))]);
    var first, second := CBin(Lt, CName(a), CName(b)), CBin(Lt, CName(b), CName(c));
    ChainOfNames(chain, a, b, c);
    var ts := [CUn(Not, first)] + Trees(chain)[1..];
    assert ts == [CUn(Not, first), second] && ts[..1] == [CUn(Not, first)];
    assert Fold(LAnd, ts) == CBin(LAnd, CUn(Not, first), second);
    assert Trees(Unary(NotOp, chain)) == [Fold(LAnd, ts)];
    PrintReads(Unary(NotOp, chain));
  }

  lemma ChainOfNames(chain: Expr, a: string, b: string, c: string)
    requires chain == Compare(Name(a), Link(Less, Name(b)), [Link(Less, Name(c))])
    ensures Trees(chain) == [CBin(Lt, CName(a), CName(b)), CBin(Lt, CName(b), CName(c))]
  {
    var first, second := CBin(Lt, CName(a), CName(b)), CBin(Lt, CName(b), CName(c));
    assert Glue([CName(a)], Lt, [CName(b)]) == [first] && Glue([CName(b)], Lt, [CName(c)]) == [second];
    assert Before(chain, 0) == Name(a) && LinkAt(chain, 0) == Link(Less, Name(b));
    assert Before(chain, 1) == Name(b) && LinkAt(chain, 1) == Link(Less, Name(c));
    assert Trees(Name(a)) == [CName(a)] && Trees(Name(b)) == [CName(b)] && Trees(Name(c)) == [CName(c)];
    assert ReadComparisons(chain)[0] == first && ReadComparisons(chain)[1] == second;
  }
}
