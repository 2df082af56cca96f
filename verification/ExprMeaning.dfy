// What the printed expressions compute: an evaluator for the Python tree and one for the C tree, on unbounded
// integers, and exactly where an operator of the one is not the operator it is printed as.
module ExprMeaning {
  import opened Wrappers
  import opened CGrammar
  import opened ExprPrinter
  import MiniLang

  type Env = map<string, int>

  // ---- Integers -----------------------------------------------------------------------------

  function Two(n: nat): (p: nat)
    ensures p > 0
  {
    if n == 0 then 1 else 2 * Two(n - 1)
  }

  function Abs(x: int): nat { if x < 0 then -x else x }

  /** Bitwise and, of integers in two's complement without a width. */
  function AndInt(x: int, y: int): int
    decreases Abs(x)
  {
    if x == 0 then 0 else if x == -1 then y else 2 * AndInt(x / 2, y / 2) + (x % 2) * (y % 2)
  }

  function OrInt(x: int, y: int): int { -1 - AndInt(-1 - x, -1 - y) }

  function XorInt(x: int, y: int): int { OrInt(x, y) - AndInt(x, y) }

  function FloorDivision(l: int, r: int): int
    requires r != 0
  {
    if r > 0 then l / r else (-l) / (-r)
  }

  // ---- Python -------------------------------------------------------------------------------

  /** None where Python raises, or where the result is not an integer. */
  function PArith(op: ArithOp, l: int, r: int): Option<int> {
    match op
    case Plus => Some(l + r)
    case Minus => Some(l - r)
    case Mult => Some(l * r)
    case Divide => if r != 0 && FloorDivision(l, r) * r == l then Some(FloorDivision(l, r)) else None
    case Modulo => if r == 0 then None else Some(l - FloorDivision(l, r) * r)
    case FloorDiv => if r == 0 then None else Some(FloorDivision(l, r))
    case LShift => if r < 0 then None else Some(l * Two(r))
    case RShift => if r < 0 then None else Some(l / Two(r))
    case And => Some(AndInt(l, r))
    case Or => Some(OrInt(l, r))
    case Xor => Some(XorInt(l, r))
  }

  function PSign(u: SignOp, v: int): int {
    match u
    case UAdd => v
    case USub => -v
    case NotOp => if v == 0 then 1 else 0
    case Invert => -1 - v
  }

  predicate PHolds(op: CmpOp, l: int, r: int) {
    match op
    case Equal => l == r
    case NotEqual => l != r
    case Less => l < r
    case LessEqual => l <= r
    case Greater => r < l
    case GreaterEqual => r <= l
    case Is => l == r
    case IsNot => l != r
  }

  /** True and False are 1 and 0; a boolean operation gives the value that decided it. */
  function PEval(e: Expr, env: Env): Option<int>
    decreases e, 1, 0
  {
    match e
    case Name(x) => if x in env then Some(env[x]) else None
    case Int(n) => Some(n)
    case Arith(op, l, r) =>
      var a :- PEval(l, env);
      var b :- PEval(r, env);
      PArith(op, a, b)
    case Unary(u, x) => var a :- PEval(x, env); Some(PSign(u, a))
    case Bool(_, _, _) => PBool(e, Size(e), env)
    case IfExp(c, a, b) => var t :- PEval(c, env); if t != 0 then PEval(a, env) else PEval(b, env)
    case Compare(_, _, _) => PCompare(e, Size(e), env)
  }

  /** Of the first n values. */
  function PBool(e: Expr, n: nat, env: Env): Option<int>
    requires e.Bool? && 1 <= n <= Size(e)
    decreases e, 0, n
  {
    if n == 1 then PEval(Value(e, 0), env)
    else
      var v :- PBool(e, n - 1, env);
      if (v != 0) == e.conj then PEval(Value(e, n - 1), env) else Some(v)
  }

  /** Of the first n comparisons. */
  function PCompare(e: Expr, n: nat, env: Env): Option<int>
    requires e.Compare? && 1 <= n <= Size(e)
    decreases e, 0, n
  {
    var v :- if n == 1 then Some(1) else PCompare(e, n - 1, env);
    if v == 0 then Some(0)
    else
      var l :- PEval(Before(e, n - 1), env);
      var r :- PEval(LinkAt(e, n - 1).e, env);
      Some(if PHolds(LinkAt(e, n - 1).op, l, r) then 1 else 0)
  }

  // ---- C ------------------------------------------------------------------------------------

  /** Section 6.5 of ISO/IEC 9899:2011, widths aside; None where the standard leaves it undefined or to the
      implementation. */
  function CApply(o: BinOp, l: int, r: int): Option<int>
    requires o != LAnd && o != LOr
  {
    match o
    case Mul => Some(l * r)
    case Div => if r == 0 then None else Some(MiniLang.TruncDiv(l, r))
    case Mod => if r == 0 then None else Some(l - MiniLang.TruncDiv(l, r) * r)
    case Add => Some(l + r)
    case Sub => Some(l - r)
    case Shl => if l < 0 || r < 0 then None else Some(l * Two(r))
    case Shr => if l < 0 || r < 0 then None else Some(l / Two(r))
    case Lt => Some(if l < r then 1 else 0)
    case Le => Some(if l <= r then 1 else 0)
    case Gt => Some(if r < l then 1 else 0)
    case Ge => Some(if r <= l then 1 else 0)
    case Eq => Some(if l == r then 1 else 0)
    case Ne => Some(if l == r then 0 else 1)
    case BitAnd => Some(AndInt(l, r))
    case BitXor => Some(XorInt(l, r))
    case BitOr => Some(OrInt(l, r))
  }

  function CUnary(u: UnOp, v: int): int {
    match u
    case Plus => v
    case Minus => -v
    case Not => if v == 0 then 1 else 0
    case Compl => -1 - v
  }

  function CEval(c: CExpr, env: Env): Option<int> {
    match c
    case CName(x) => if x in env then Some(env[x]) else None
    case CNum(n) => Some(n)
    case CUn(u, x) => var a :- CEval(x, env); Some(CUnary(u, a))
    case CCond(t, a, b) => var v :- CEval(t, env); if v != 0 then CEval(a, env) else CEval(b, env)
    case CBin(o, l, r) =>
      var a :- CEval(l, env);
      if (o == LAnd && a == 0) || (o == LOr && a != 0) then Some(if a == 0 then 0 else 1)
      else
        var b :- CEval(r, env);
        if o == LAnd || o == LOr then Some(if b == 0 then 0 else 1) else CApply(o, a, b)
  }

  // ---- Operator by operator -----------------------------------------------------------------

  /** Truncation and flooring give the same quotient: the division is exact, or its operands have the same sign. */
  predicate RoundsAlike(l: int, r: int)
    requires r != 0
  {
    l - FloorDivision(l, r) * r == 0 || (l > 0 <==> r > 0)
  }

  lemma QuotientsAgreeExactly(l: int, r: int)
    requires r != 0
    ensures FloorDivision(l, r) == MiniLang.TruncDiv(l, r) <==> RoundsAlike(l, r)
    ensures l - FloorDivision(l, r) * r == l - MiniLang.TruncDiv(l, r) * r <==> RoundsAlike(l, r)
  {
    var f, t := FloorDivision(l, r), MiniLang.TruncDiv(l, r);
    TruncIs(l, r);
    if f != t { Times(f, t, r); }
  }

  lemma TruncIs(l: int, r: int)
    requires r != 0
    ensures MiniLang.TruncDiv(l, r) == FloorDivision(l, r) + if RoundsAlike(l, r) then 0 else 1
  {
    if l >= 0 && r < 0 {
      MixedSigns(l, -r, FloorDivision(l, r));
    } else if l < 0 && r > 0 {
      MixedSigns(-l, r, FloorDivision(l, r));
    }
  }

  /** Quotient of -a by b, with the remainder either way. */
  lemma MixedSigns(a: int, b: int, f: int)
    requires a >= 0 && b > 0 && f == (0 - a) / b
    ensures f == if a + f * b == 0 then -(a / b) else -(a / b) - 1
  {
    var q, m := a / b, a % b;
    assert a == q * b + m;
    if m == 0 {
      QuotientFrom(0 - a, b, -q, 0);
    } else {
      QuotientFrom(0 - a, b, -q - 1, b - m);
      assert (-q - 1) * b == -(q * b) - b;
    }
  }

  lemma QuotientFrom(x: int, b: int, q: int, m: int)
    requires 0 <= m < b && x == q * b + m
    ensures x / b == q
  {
    var k := x / b;
    assert x == k * b + x % b;
    if k > q { Larger(k, q, b); } else if k < q { Larger(q, k, b); }
  }

  lemma Larger(k: int, q: int, b: int)
    requires k > q && b > 0
    ensures k * b >= q * b + b
  {
    assert (k - q - 1) * b >= 0;
    assert k * b == q * b + b + (k - q - 1) * b;
  }

  lemma Times(f: int, t: int, r: int)
    requires f != t && r != 0
    ensures f * r != t * r
  {
    assert (f - t) * r != 0;
    assert (f - t) * r == f * r - t * r;
  }

  /** Where Python's operator and the printed one give the same. */
  predicate SameOperation(op: ArithOp, l: int, r: int) {
    match op
    case FloorDiv => r != 0 && RoundsAlike(l, r)
    case Modulo => r != 0 && RoundsAlike(l, r)
    case LShift => l >= 0
    case RShift => l >= 0
    case _ => true
  }

  lemma ArithAgreesExactly(op: ArithOp, l: int, r: int)
    requires PArith(op, l, r).Some?
    ensures CApply(COp(op), l, r) == PArith(op, l, r) <==> SameOperation(op, l, r)
  {
    match op
    case FloorDiv => QuotientsAgreeExactly(l, r);
    case Modulo => QuotientsAgreeExactly(l, r);
    case Divide => QuotientsAgreeExactly(l, r);
    case _ =>
  }

  lemma ComparisonAgrees(op: CmpOp, l: int, r: int)
    ensures CApply(CCmp(op), l, r) == Some(if PHolds(op, l, r) then 1 else 0)
  {
  }

  /** -7 // 2 is -4 in Python and -3 as printed, and -7 % 2 is 1 and -1. */
  lemma FloorIsTruncated()
    ensures PArith(FloorDiv, -7, 2) == Some(-4) && CApply(COp(FloorDiv), -7, 2) == Some(-3)
    ensures PArith(Modulo, -7, 2) == Some(1) && CApply(COp(Modulo), -7, 2) == Some(-1)
  {
  }

  // ---- Whole expressions --------------------------------------------------------------------

  /** Every operator that is evaluated is one that is printed as itself, and a boolean operation gives 0 or 1 where
      more than its truth is asked for. */
  predicate Alike(e: Expr, env: Env, truth: bool)
    decreases e, 1, 0
  {
    match e
    case Name(_) => true
    case Int(_) => true
    case Arith(op, l, r) =>
      Alike(l, env, false) && Alike(r, env, false) &&
      var a, b := PEval(l, env), PEval(r, env);
      a.Some? && b.Some? && PArith(op, a.value, b.value).Some? ==> SameOperation(op, a.value, b.value)
    case Unary(u, x) => Alike(x, env, u == NotOp)
    case Bool(_, first, rest) =>
      if rest == [] then Alike(first, env, truth)
      else AlikeValues(e, Size(e), env) && (truth || PEval(e, env) == Some(0) || PEval(e, env) == Some(1))
    case IfExp(c, a, b) =>
      Alike(c, env, true) &&
      (PEval(c, env).Some? ==> if PEval(c, env).value != 0 then Alike(a, env, truth) else Alike(b, env, truth))
    case Compare(_, _, _) => AlikeParts(e, Size(e), env)
  }

  predicate AlikeValues(e: Expr, n: nat, env: Env)
    requires e.Bool? && 1 <= n <= Size(e)
    decreases e, 0, n
  {
    if n == 1 then Alike(Value(e, 0), env, true)
    else
      && AlikeValues(e, n - 1, env)
      && var v := PBool(e, n - 1, env);
         v.Some? && (v.value != 0) == e.conj ==> Alike(Value(e, n - 1), env, true)
  }

  predicate AlikeParts(e: Expr, n: nat, env: Env)
    requires e.Compare? && 1 <= n <= Size(e)
    decreases e, 0, n
  {
    && (n == 1 || AlikeParts(e, n - 1, env))
    && ((n == 1 || (PCompare(e, n - 1, env).Some? && PCompare(e, n - 1, env).value != 0)) ==>
          Alike(Before(e, n - 1), env, false) && Alike(LinkAt(e, n - 1).e, env, false))
  }

  ghost predicate Gives(c: Option<int>, v: int, truth: bool) {
    c.Some? && if truth then (c.value != 0) == (v != 0) else c.value == v
  }

  /** The C tree that is meant computes what the expression does. */
  lemma {:induction false} MeantComputes(e: Expr, env: Env, truth: bool)
    requires Alike(e, env, truth) && PEval(e, env).Some?
    ensures Gives(CEval(Meant(e), env), PEval(e, env).value, truth)
    decreases e, 1, 0
  {
    match e
    case Name(_) =>
    case Int(_) =>
    case Arith(op, l, r) =>
      MeantComputes(l, env, false);
      MeantComputes(r, env, false);
      ArithAgreesExactly(op, PEval(l, env).value, PEval(r, env).value);
    case Unary(u, x) => MeantComputes(x, env, u == NotOp);
    case Bool(conj, first, rest) =>
      var ms := MeantValues(e);
      if rest == [] {
        MeantComputes(first, env, truth);
        assert ms == [Meant(first)];
      } else {
        ValuesCompute(e, Size(e), env);
        assert ms[..Size(e)] == ms;
      }
    case IfExp(c, a, b) =>
      MeantComputes(c, env, true);
      if PEval(c, env).value != 0 { MeantComputes(a, env, truth); } else { MeantComputes(b, env, truth); }
    case Compare(_, _, _) =>
      PartsCompute(e, Size(e), env);
      assert MeantComparisons(e)[..Size(e)] == MeantComparisons(e);
  }

  /** The first n values folded: their truth, and 0 or 1 from two on. */
  lemma {:induction false} ValuesCompute(e: Expr, n: nat, env: Env)
    requires e.Bool? && 1 <= n <= Size(e) && AlikeValues(e, n, env) && PBool(e, n, env).Some?
    ensures var c := CEval(Fold(BoolOp(e.conj), MeantValues(e)[..n]), env);
            Gives(c, PBool(e, n, env).value, true) && (n > 1 ==> c == Some(0) || c == Some(1))
    decreases e, 0, n
  {
    var ms := MeantValues(e)[..n];
    if n == 1 {
      MeantComputes(Value(e, 0), env, true);
    } else {
      ValuesCompute(e, n - 1, env);
      var v := PBool(e, n - 1, env);
      if (v.value != 0) == e.conj { MeantComputes(Value(e, n - 1), env, true); }
      assert ms[..n - 1] == MeantValues(e)[..n - 1] && ms[n - 1] == Meant(Value(e, n - 1));
    }
  }

  lemma {:induction false} PartsCompute(e: Expr, n: nat, env: Env)
    requires e.Compare? && 1 <= n <= Size(e) && AlikeParts(e, n, env) && PCompare(e, n, env).Some?
    ensures CEval(Fold(LAnd, MeantComparisons(e)[..n]), env) == PCompare(e, n, env)
    ensures PCompare(e, n, env) == Some(0) || PCompare(e, n, env) == Some(1)
    decreases e, 0, n
  {
    var ms := MeantComparisons(e)[..n];
    if n > 1 {
      PartsCompute(e, n - 1, env);
      assert ms[..n - 1] == MeantComparisons(e)[..n - 1];
    }
    assert ms[n - 1] == MeantComparison(e, n - 1);
    if n == 1 || PCompare(e, n - 1, env).value != 0 { PartComputes(e, n - 1, env); }
  }

  lemma {:induction false} PartComputes(e: Expr, k: nat, env: Env)
    requires e.Compare? && k < Size(e) && Alike(Before(e, k), env, false) && Alike(LinkAt(e, k).e, env, false)
    requires PEval(Before(e, k), env).Some? && PEval(LinkAt(e, k).e, env).Some?
    ensures CEval(MeantComparison(e, k), env) ==
            Some(if PHolds(LinkAt(e, k).op, PEval(Before(e, k), env).value, PEval(LinkAt(e, k).e, env).value)
                 then 1 else 0)
    decreases e, 0, 0
  {
    MeantComputes(Before(e, k), env, false);
    MeantComputes(LinkAt(e, k).e, env, false);
    ComparisonAgrees(LinkAt(e, k).op, PEval(Before(e, k), env).value, PEval(LinkAt(e, k).e, env).value);
  }

  /** However the printed text is read, it computes the expression. */
  lemma PrintedComputes(e: Expr, env: Env)
    requires ChainsLoose(e) && Alike(e, env, false) && PEval(e, env).Some?
    ensures Cond(Print(e), Meant(e))
    ensures forall t: CExpr :: Cond(Print(e), t) ==> CEval(t, env) == PEval(e, env)
  {
    PrintReadsBack(e);
    MeantComputes(e, env, false);
    forall t: CExpr | Cond(Print(e), t) ensures t == Meant(e) { }
  }

  /** "and" and "or" are printed as operators whose value is 0 or 1, where Python's is that of an operand. */
  lemma BooleanAgreesExactly(e: Expr, env: Env)
    requires e.Bool? && e.rest != [] && AlikeValues(e, Size(e), env) && PEval(e, env).Some?
    ensures CEval(Meant(e), env) == PEval(e, env) <==> PEval(e, env) == Some(0) || PEval(e, env) == Some(1)
  {
    ValuesCompute(e, Size(e), env);
    assert MeantValues(e)[..Size(e)] == MeantValues(e);
  }

  /** 2 and 3 is 3, and 1 as printed. */
  lemma AndOfNumbers()
    ensures var e := Bool(true, Int(2), [Int(3)]); PEval(e, map[]) == Some(3) && CEval(Meant(e), map[]) == Some(1)
  {
    var e := Bool(true, Int(2), [Int(3)]);
    assert PBool(e, 1, map[]) == Some(2) && Value(e, 1) == Int(3) && PBool(e, 2, map[]) == Some(3);
    assert AlikeValues(e, 1, map[]) && AlikeValues(e, 2, map[]);
    ValuesCompute(e, 2, map[]);
    BooleanAgreesExactly(e, map[]);
    assert MeantValues(e)[..2] == MeantValues(e);
  }
}
