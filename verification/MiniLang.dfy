// A small statement language standing for the C that function bodies compile to: typed values,
// calls, loops and an observable output, with a fuel-indexed evaluator.
module MiniLang {

  /** C values: integers and floating-point numbers (modelled as reals). */
  datatype Val = I(v: int) | F(r: real)

  /** Integer types by width, and double. */
  datatype CType = IntType(bits: nat) | Double

  function Pow2(n: nat): (p: nat)
    ensures p > 0
  {
    if n == 0 then 1 else 2 * Pow2(n - 1)
  }

  /** Reduction to a signed integer of the given width. */
  function Wrap(v: int, bits: nat): int {
    var m := v % Pow2(bits);
    if 2 * m < Pow2(bits) then m else m - Pow2(bits)
  }

  function Trunc(r: real): int {
    if r >= 0.0 then r.Floor else -((-r).Floor)
  }

  /** Conversion as by assignment: what passing a value for a parameter of the type does to it. */
  function Conv(t: CType, v: Val): Val {
    match t
    case Double => if v.I? then F(v.v as real) else v
    case IntType(bits) => I(Wrap(if v.I? then v.v else Trunc(v.r), bits))
  }

  function Shift(v: int, p: nat, k: int): int { v + p * k }

  /** An integer becomes one in range a multiple of the power away; a number is rounded towards zero. */
  lemma ConversionIs(v: int, r: real, bits: nat)
    requires bits > 0
    ensures 0 - Pow2(bits - 1) <= Wrap(v, bits) < Pow2(bits - 1)
    ensures exists k :: Wrap(v, bits) == Shift(v, Pow2(bits), k)
    ensures if r >= 0.0 then Trunc(r) as real <= r < (Trunc(r) + 1) as real
            else (Trunc(r) - 1) as real < r <= Trunc(r) as real
  {
    var p := Pow2(bits);
    assert p == 2 * Pow2(bits - 1);
    Shifts(v, p, v / p);
    assert Shift(v, p, -(v / p)) == v % p;
    assert Shift(v, p, -(v / p) - 1) == v % p - p;
  }

  lemma Shifts(v: int, p: nat, q: int)
    requires p > 0 && q == v / p
    ensures v + p * (-q) == v % p && v + p * (-q - 1) == v % p - p
  {
    assert v == p * q + v % p;
    assert p * (-q) == -(p * q) && p * (-q - 1) == -(p * q) - p;
  }

  datatype BinOp = Add | Sub | Mul | Div | Less

  datatype Expr =
    | Lit(v: Val)
    | Var(x: string)
    | Bin(op: BinOp, a: Expr, b: Expr)
    | Call(f: string, args: seq<Expr>)
    | Bad

  /** Assign carries the declared type of its target. Bad and Invalid stand for text the C compiler
      rejects. */
  datatype Stmt =
    | Skip
    | Assign(x: string, t: CType, e: Expr)
    | Emit(e: Expr)
    | Seq(first: Stmt, second: Stmt)
    | If(c: Expr, thn: Stmt, els: Stmt)
    | While(c: Expr, body: Stmt)
    | Return(e: Expr)
    | Invalid

  datatype Func = Func(params: seq<(string, CType)>, ret: CType, body: Stmt)

  type Program = map<string, Func>
  type Env = map<string, Val>
  type Trace = seq<Val>

  datatype Result<+T> = OutOfFuel | Wrong | Ok(value: T, trace: Trace)

  /** Normal completion with an environment, or a returned value. */
  datatype Outcome = Normal(env: Env) | Returned(v: Val)

  function Real(v: Val): real {
    if v.I? then v.v as real else v.r
  }

  /** Integer division truncates toward zero, as in C. */
  function TruncDiv(a: int, b: int): int
    requires b != 0
  {
    if (a >= 0) == (b > 0) then (if a >= 0 then a else -a) / (if b > 0 then b else -b)
    else -((if a >= 0 then a else -a) / (if b > 0 then b else -b))
  }

  function Apply(op: BinOp, a: Val, b: Val, tr: Trace): Result<Val> {
    if a.I? && b.I? then
      match op
      case Add => Ok(I(a.v + b.v), tr)
      case Sub => Ok(I(a.v - b.v), tr)
      case Mul => Ok(I(a.v * b.v), tr)
      case Div => if b.v == 0 then Wrong else Ok(I(TruncDiv(a.v, b.v)), tr)
      case Less => Ok(I(if a.v < b.v then 1 else 0), tr)
    else
      match op
      case Add => Ok(F(Real(a) + Real(b)), tr)
      case Sub => Ok(F(Real(a) - Real(b)), tr)
      case Mul => Ok(F(Real(a) * Real(b)), tr)
      case Div => if Real(b) == 0.0 then Wrong else Ok(F(Real(a) / Real(b)), tr)
      case Less => Ok(I(if Real(a) < Real(b) then 1 else 0), tr)
  }

  function Truth(v: Val): bool { Real(v) != 0.0 }

  function Eval(p: Program, n: nat, e: Expr, env: Env, tr: Trace): Result<Val>
    decreases n, 1, e
  {
    match e
    case Lit(v) => Ok(v, tr)
    case Var(x) => if x in env then Ok(env[x], tr) else Wrong
    case Bin(op, a, b) =>
      (match Eval(p, n, a, env, tr)
       case OutOfFuel => OutOfFuel
       case Wrong => Wrong
       case Ok(va, tr1) =>
         match Eval(p, n, b, env, tr1)
         case OutOfFuel => OutOfFuel
         case Wrong => Wrong
         case Ok(vb, tr2) => Apply(op, va, vb, tr2))
    case Call(f, args) =>
      (match EvalArgs(p, n, args, env, tr)
       case OutOfFuel => OutOfFuel
       case Wrong => Wrong
       case Ok(vs, tr1) => Invoke(p, n, f, vs, tr1))
    case Bad => Wrong
  }

  function EvalArgs(p: Program, n: nat, es: seq<Expr>, env: Env, tr: Trace): (r: Result<seq<Val>>)
    ensures r.Ok? ==> |r.value| == |es|
    decreases n, 1, es
  {
    if es == [] then Ok([], tr) else
      match Eval(p, n, es[0], env, tr)
      case OutOfFuel => OutOfFuel
      case Wrong => Wrong
      case Ok(v, tr1) =>
        match EvalArgs(p, n, es[1..], env, tr1)
        case OutOfFuel => OutOfFuel
        case Wrong => Wrong
        case Ok(vs, tr2) => Ok([v] + vs, tr2)
  }

  /** Parameters bound to the converted arguments. */
  function Bind(params: seq<(string, CType)>, vs: seq<Val>): Env
    requires |params| == |vs|
  {
    if params == [] then map[]
    else Bind(params[1..], vs[1..])[params[0].0 := Conv(params[0].1, vs[0])]
  }

  function Invoke(p: Program, n: nat, f: string, vs: seq<Val>, tr: Trace): Result<Val>
    decreases n, 0
  {
    if f !in p || |p[f].params| != |vs| then Wrong
    else if n == 0 then OutOfFuel
    else Finish(p[f].ret, Exec(p, n - 1, p[f].body, Bind(p[f].params, vs), tr))
  }

  function Finish(ret: CType, r: Result<Outcome>): Result<Val> {
    match r
    case OutOfFuel => OutOfFuel
    case Wrong => Wrong
    case Ok(Normal(_), tr) => Ok(I(0), tr)
    case Ok(Returned(v), tr) => Ok(Conv(ret, v), tr)
  }

  function Exec(p: Program, n: nat, s: Stmt, env: Env, tr: Trace): Result<Outcome>
    decreases n, 2, s
  {
    match s
    case Skip => Ok(Normal(env), tr)
    case Assign(x, t, e) =>
      (match Eval(p, n, e, env, tr)
       case OutOfFuel => OutOfFuel
       case Wrong => Wrong
       case Ok(v, tr1) => Ok(Normal(env[x := Conv(t, v)]), tr1))
    case Emit(e) =>
      (match Eval(p, n, e, env, tr)
       case OutOfFuel => OutOfFuel
       case Wrong => Wrong
       case Ok(v, tr1) => Ok(Normal(env), tr1 + [v]))
    case Seq(s1, s2) =>
      (match Exec(p, n, s1, env, tr)
       case OutOfFuel => OutOfFuel
       case Wrong => Wrong
       case Ok(Normal(env1), tr1) => Exec(p, n, s2, env1, tr1)
       case Ok(Returned(v), tr1) => Ok(Returned(v), tr1))
    case If(c, thn, els) =>
      (match Eval(p, n, c, env, tr)
       case OutOfFuel => OutOfFuel
       case Wrong => Wrong
       case Ok(v, tr1) => if Truth(v) then Exec(p, n, thn, env, tr1) else Exec(p, n, els, env, tr1))
    case While(c, body) =>
      (match Eval(p, n, c, env, tr)
       case OutOfFuel => OutOfFuel
       case Wrong => Wrong
       case Ok(v, tr1) =>
         if !Truth(v) then Ok(Normal(env), tr1)
         else if n == 0 then OutOfFuel
         else
           match Exec(p, n, body, env, tr1)
           case OutOfFuel => OutOfFuel
           case Wrong => Wrong
           case Ok(Normal(env1), tr2) => Exec(p, n - 1, s, env1, tr2)
           case Ok(Returned(v), tr2) => Ok(Returned(v), tr2))
    case Return(e) =>
      (match Eval(p, n, e, env, tr)
       case OutOfFuel => OutOfFuel
       case Wrong => Wrong
       case Ok(v, tr1) => Ok(Returned(v), tr1))
    case Invalid => Wrong
  }
}
