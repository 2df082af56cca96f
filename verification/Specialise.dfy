// Call specialisation: calls with constant arguments are redirected to clones of the callee with
// the constants substituted and those parameters dropped. The whole rewritten program computes the
// same results, output included, under a condition on each redirected call.
module Specialise {
  import opened MiniLang
  import opened Wrappers

  // ---- Substitution -------------------------------------------------------------------------

  function SubstE(e: Expr, m: Env): Expr
    decreases e
  {
    match e
    case Lit(_) => e
    case Var(x) => if x in m then Lit(m[x]) else e
    case Bin(op, a, b) => Bin(op, SubstE(a, m), SubstE(b, m))
    case Call(f, args) => if f in m then Bad else Call(f, SubstAll(args, m))
    case Bad => e
  }

  function SubstAll(es: seq<Expr>, m: Env): (r: seq<Expr>)
    ensures |r| == |es|
    decreases es
  {
    if es == [] then [] else [SubstE(es[0], m)] + SubstAll(es[1..], m)
  }

  /** Every name is replaced, assignment targets included: `5 = e` does not compile. */
  function SubstS(s: Stmt, m: Env): Stmt {
    match s
    case Skip => s
    case Assign(x, t, e) => if x in m then Invalid else Assign(x, t, SubstE(e, m))
    case Emit(e) => Emit(SubstE(e, m))
    case Seq(s1, s2) => Seq(SubstS(s1, m), SubstS(s2, m))
    case If(c, thn, els) => If(SubstE(c, m), SubstS(thn, m), SubstS(els, m))
    case While(c, body) => While(SubstE(c, m), SubstS(body, m))
    case Return(e) => Return(SubstE(e, m))
    case Invalid => s
  }

  /** The expression calls none of the names. */
  predicate CallsNone(e: Expr, names: set<string>)
    decreases e
  {
    match e
    case Lit(_) => true
    case Var(_) => true
    case Bin(_, a, b) => CallsNone(a, names) && CallsNone(b, names)
    case Call(f, args) => f !in names && AllCallNone(args, names)
    case Bad => true
  }

  predicate AllCallNone(es: seq<Expr>, names: set<string>)
    decreases es
  {
    es != [] ==> CallsNone(es[0], names) && AllCallNone(es[1..], names)
  }

  /** The statement neither assigns nor calls any of the names. */
  predicate LeavesAlone(s: Stmt, names: set<string>) {
    match s
    case Skip => true
    case Assign(x, _, e) => x !in names && CallsNone(e, names)
    case Emit(e) => CallsNone(e, names)
    case Seq(s1, s2) => LeavesAlone(s1, names) && LeavesAlone(s2, names)
    case If(c, thn, els) => CallsNone(c, names) && LeavesAlone(thn, names) && LeavesAlone(els, names)
    case While(c, body) => CallsNone(c, names) && LeavesAlone(body, names)
    case Return(e) => CallsNone(e, names)
    case Invalid => true
  }

  predicate ValidE(e: Expr)
    decreases e
  {
    match e
    case Lit(_) => true
    case Var(_) => true
    case Bin(_, a, b) => ValidE(a) && ValidE(b)
    case Call(_, args) => AllValid(args)
    case Bad => false
  }

  predicate AllValid(es: seq<Expr>)
    decreases es
  {
    es != [] ==> ValidE(es[0]) && AllValid(es[1..])
  }

  predicate ValidS(s: Stmt) {
    match s
    case Skip => true
    case Assign(_, _, e) => ValidE(e)
    case Emit(e) => ValidE(e)
    case Seq(s1, s2) => ValidS(s1) && ValidS(s2)
    case If(c, thn, els) => ValidE(c) && ValidS(thn) && ValidS(els)
    case While(c, body) => ValidE(c) && ValidS(body)
    case Return(e) => ValidE(e)
    case Invalid => false
  }

  lemma {:induction false} SubstValidE(e: Expr, m: Env)
    requires ValidE(e)
    ensures ValidE(SubstE(e, m)) <==> CallsNone(e, m.Keys)
    decreases e
  {
    match e
    case Lit(_) =>
    case Var(_) =>
    case Bin(_, a, b) => SubstValidE(a, m); SubstValidE(b, m);
    case Call(f, args) => SubstAllValid(args, m);
  }

  lemma {:induction false} SubstAllValid(es: seq<Expr>, m: Env)
    requires AllValid(es)
    ensures AllValid(SubstAll(es, m)) <==> AllCallNone(es, m.Keys)
    decreases es
  {
    if es != [] {
      SubstValidE(es[0], m);
      SubstAllValid(es[1..], m);
      assert SubstAll(es, m)[1..] == SubstAll(es[1..], m);
    }
  }

  /** A clone compiles exactly when the callee neither assigns nor calls a substituted parameter. */
  lemma {:induction false} CloneCompiles(s: Stmt, m: Env)
    requires ValidS(s)
    ensures ValidS(SubstS(s, m)) <==> LeavesAlone(s, m.Keys)
  {
    match s
    case Skip =>
    case Assign(_, _, e) => SubstValidE(e, m);
    case Emit(e) => SubstValidE(e, m);
    case Seq(s1, s2) => CloneCompiles(s1, m); CloneCompiles(s2, m);
    case If(c, thn, els) => SubstValidE(c, m); CloneCompiles(thn, m); CloneCompiles(els, m);
    case While(c, body) => SubstValidE(c, m); CloneCompiles(body, m);
    case Return(e) => SubstValidE(e, m);
  }

  // ---- Substituting constants for variables that hold them ----------------------------------

  /** `env` holds the constants m for the substituted names, and otherwise agrees with `env2`. */
  ghost predicate Covers(env: Env, env2: Env, m: Env) {
    && (forall x :: x in m ==> x in env && env[x] == m[x])
    && (forall x :: x !in m ==> (x in env <==> x in env2) && (x in env ==> env[x] == env2[x]))
  }

  ghost predicate SameOutcome(a: Result<Outcome>, b: Result<Outcome>, m: Env) {
    match a
    case OutOfFuel => b == OutOfFuel
    case Wrong => b == Wrong
    case Ok(Normal(env), tr) => b.Ok? && b.trace == tr && b.value.Normal? && Covers(env, b.value.env, m)
    case Ok(Returned(v), tr) => b == Ok(Returned(v), tr)
  }

  lemma {:induction false} SubstEval(p: Program, n: nat, e: Expr, env: Env, env2: Env, m: Env, tr: Trace)
    requires Covers(env, env2, m) && CallsNone(e, m.Keys)
    ensures Eval(p, n, e, env, tr) == Eval(p, n, SubstE(e, m), env2, tr)
    decreases e
  {
    match e
    case Lit(_) =>
    case Var(_) =>
    case Bad =>
    case Bin(op, a, b) =>
      SubstEval(p, n, a, env, env2, m, tr);
      var ra := Eval(p, n, a, env, tr);
      if ra.Ok? { SubstEval(p, n, b, env, env2, m, ra.trace); }
    case Call(f, args) => SubstEvalArgs(p, n, args, env, env2, m, tr);
  }

  lemma {:induction false} SubstEvalArgs(p: Program, n: nat, es: seq<Expr>, env: Env, env2: Env, m: Env, tr: Trace)
    requires Covers(env, env2, m) && AllCallNone(es, m.Keys)
    ensures EvalArgs(p, n, es, env, tr) == EvalArgs(p, n, SubstAll(es, m), env2, tr)
    decreases es
  {
    if es != [] {
      SubstEval(p, n, es[0], env, env2, m, tr);
      var r := Eval(p, n, es[0], env, tr);
      assert SubstAll(es, m)[1..] == SubstAll(es[1..], m);
      if r.Ok? { SubstEvalArgs(p, n, es[1..], env, env2, m, r.trace); }
    }
  }

  lemma {:induction false} SubstExec(p: Program, n: nat, s: Stmt, env: Env, env2: Env, m: Env, tr: Trace)
    requires Covers(env, env2, m) && LeavesAlone(s, m.Keys)
    ensures SameOutcome(Exec(p, n, s, env, tr), Exec(p, n, SubstS(s, m), env2, tr), m)
    decreases n, s, 1
  {
    match s
    case Skip =>
    case Invalid =>
    case Assign(_, _, _) => SubstAssign(p, n, s, env, env2, m, tr);
    case Emit(e) => SubstEval(p, n, e, env, env2, m, tr);
    case Return(e) => SubstEval(p, n, e, env, env2, m, tr);
    case Seq(_, _) => SubstSeq(p, n, s, env, env2, m, tr);
    case If(_, _, _) => SubstIf(p, n, s, env, env2, m, tr);
    case While(_, _) => SubstWhile(p, n, s, env, env2, m, tr);
  }

  lemma SubstAssign(p: Program, n: nat, s: Stmt, env: Env, env2: Env, m: Env, tr: Trace)
    requires s.Assign? && Covers(env, env2, m) && LeavesAlone(s, m.Keys)
    ensures SameOutcome(Exec(p, n, s, env, tr), Exec(p, n, SubstS(s, m), env2, tr), m)
  {
    SubstEval(p, n, s.e, env, env2, m, tr);
  }

  lemma {:induction false} SubstSeq(p: Program, n: nat, s: Stmt, env: Env, env2: Env, m: Env, tr: Trace)
    requires s.Seq? && Covers(env, env2, m) && LeavesAlone(s, m.Keys)
    ensures SameOutcome(Exec(p, n, s, env, tr), Exec(p, n, SubstS(s, m), env2, tr), m)
    decreases n, s, 0
  {
    SubstExec(p, n, s.first, env, env2, m, tr);
    var r, r2 := Exec(p, n, s.first, env, tr), Exec(p, n, SubstS(s.first, m), env2, tr);
    if r.Ok? && r.value.Normal? { SubstExec(p, n, s.second, r.value.env, r2.value.env, m, r.trace); }
  }

  lemma {:induction false} SubstIf(p: Program, n: nat, s: Stmt, env: Env, env2: Env, m: Env, tr: Trace)
    requires s.If? && Covers(env, env2, m) && LeavesAlone(s, m.Keys)
    ensures SameOutcome(Exec(p, n, s, env, tr), Exec(p, n, SubstS(s, m), env2, tr), m)
    decreases n, s, 0
  {
    SubstEval(p, n, s.c, env, env2, m, tr);
    var r := Eval(p, n, s.c, env, tr);
    if r.Ok? { SubstExec(p, n, if Truth(r.value) then s.thn else s.els, env, env2, m, r.trace); }
  }

  lemma {:induction false} SubstWhile(p: Program, n: nat, s: Stmt, env: Env, env2: Env, m: Env, tr: Trace)
    requires s.While? && Covers(env, env2, m) && LeavesAlone(s, m.Keys)
    ensures SameOutcome(Exec(p, n, s, env, tr), Exec(p, n, SubstS(s, m), env2, tr), m)
    decreases n, s, 0
  {
    SubstEval(p, n, s.c, env, env2, m, tr);
    var r := Eval(p, n, s.c, env, tr);
    if r.Ok? && Truth(r.value) && n > 0 {
      SubstExec(p, n, s.body, env, env2, m, r.trace);
      var b, b2 := Exec(p, n, s.body, env, r.trace), Exec(p, n, SubstS(s.body, m), env2, r.trace);
      if b.Ok? && b.value.Normal? { SubstExec(p, n - 1, s, b.value.env, b2.value.env, m, b.trace); }
    }
  }

  // ---- Clones and redirected calls ----------------------------------------------------------

  /** A clone: its callee, and for each parameter the constant substituted for it, if any. */
  datatype Clone = Clone(callee: string, consts: seq<Option<Val>>)

  type Clones = map<string, Clone>

  function Keep<T>(xs: seq<T>, consts: seq<Option<Val>>): seq<T>
    requires |xs| == |consts|
  {
    if xs == [] then [] else (if consts[0].None? then [xs[0]] else []) + Keep(xs[1..], consts[1..])
  }

  function Substituted(params: seq<(string, CType)>, consts: seq<Option<Val>>): Env
    requires |params| == |consts|
  {
    if params == [] then map[]
    else if consts[0].Some? then Substituted(params[1..], consts[1..])[params[0].0 := consts[0].value]
    else Substituted(params[1..], consts[1..])
  }

  ghost predicate DistinctNames(params: seq<(string, CType)>) {
    forall i, j :: 0 <= i < j < |params| ==> params[i].0 != params[j].0
  }

  /** e2 is e with some calls redirected to clones. */
  ghost predicate Redirected(e: Expr, e2: Expr, p: Program, cl: Clones)
    decreases e
  {
    match e
    case Lit(_) => e2 == e
    case Var(_) => e2 == e
    case Bad => e2 == e
    case Bin(op, a, b) => e2.Bin? && e2.op == op && Redirected(a, e2.a, p, cl) && Redirected(b, e2.b, p, cl)
    case Call(f, args) =>
      e2.Call? &&
      (|| (e2.f == f && f !in cl && AllRedirected(args, e2.args, p, cl))
       || (e2.f in cl && cl[e2.f].callee == f && f in p && |args| == |p[f].params| == |cl[e2.f].consts| &&
           ArgsFit(args, e2.args, p[f].params, cl[e2.f].consts, p, cl)))
  }

  ghost predicate AllRedirected(es: seq<Expr>, es2: seq<Expr>, p: Program, cl: Clones)
    decreases es
  {
    |es| == |es2| && (es != [] ==> Redirected(es[0], es2[0], p, cl) && AllRedirected(es[1..], es2[1..], p, cl))
  }

  /** Each dropped argument is a constant that, converted to the parameter's type, is the very value
      substituted in the clone; the others are passed on. */
  ghost predicate ArgsFit(es: seq<Expr>, es2: seq<Expr>, params: seq<(string, CType)>, consts: seq<Option<Val>>,
                          p: Program, cl: Clones)
    requires |es| == |params| == |consts|
    decreases es
  {
    if es == [] then es2 == []
    else if consts[0].Some? then
      es[0].Lit? && Conv(params[0].1, es[0].v) == consts[0].value &&
        ArgsFit(es[1..], es2, params[1..], consts[1..], p, cl)
    else
      es2 != [] && Redirected(es[0], es2[0], p, cl) && ArgsFit(es[1..], es2[1..], params[1..], consts[1..], p, cl)
  }

  ghost predicate RedirectedS(s: Stmt, s2: Stmt, p: Program, cl: Clones) {
    match s
    case Skip => s2 == s
    case Invalid => s2 == s
    case Assign(x, t, e) => s2.Assign? && s2.x == x && s2.t == t && Redirected(e, s2.e, p, cl)
    case Emit(e) => s2.Emit? && Redirected(e, s2.e, p, cl)
    case Return(e) => s2.Return? && Redirected(e, s2.e, p, cl)
    case Seq(a, b) => s2.Seq? && RedirectedS(a, s2.first, p, cl) && RedirectedS(b, s2.second, p, cl)
    case If(c, a, b) => s2.If? && Redirected(c, s2.c, p, cl) && RedirectedS(a, s2.thn, p, cl) &&
      RedirectedS(b, s2.els, p, cl)
    case While(c, b) => s2.While? && Redirected(c, s2.c, p, cl) && RedirectedS(b, s2.body, p, cl)
  }

  /** q holds p's functions with calls redirected, and the clones, themselves with calls redirected. */
  ghost predicate Rewritten(p: Program, q: Program, cl: Clones) {
    && (forall f :: f in p ==>
          && f in q && q[f].params == p[f].params && q[f].ret == p[f].ret
          && RedirectedS(p[f].body, q[f].body, p, cl))
    && (forall f :: f in q ==> f in p || f in cl)
    && (forall c :: c in cl ==> c !in p && IsClone(p, q, c, cl))
  }

  ghost predicate IsClone(p: Program, q: Program, c: string, cl: Clones)
    requires c in cl
  {
    var Clone(f, consts) := cl[c];
    && f in p && c in q && |consts| == |p[f].params| && DistinctNames(p[f].params)
    && LeavesAlone(p[f].body, Substituted(p[f].params, consts).Keys)
    && q[c].params == Keep(p[f].params, consts) && q[c].ret == p[f].ret
    && RedirectedS(SubstS(p[f].body, Substituted(p[f].params, consts)), q[c].body, p, cl)
  }

  // ---- The theorem --------------------------------------------------------------------------

  /** The dropped arguments' values, converted, are the substituted constants. */
  ghost predicate ValuesFit(vs: seq<Val>, params: seq<(string, CType)>, consts: seq<Option<Val>>)
    requires |vs| == |params| == |consts|
  {
    forall i :: 0 <= i < |vs| && consts[i].Some? ==> Conv(params[i].1, vs[i]) == consts[i].value
  }

  lemma {:induction false} KeepLengths<T, U>(xs: seq<T>, ys: seq<U>, consts: seq<Option<Val>>)
    requires |xs| == |ys| == |consts|
    ensures |Keep(xs, consts)| == |Keep(ys, consts)| <= |xs|
    ensures forall x :: x in Keep(xs, consts) ==> x in xs
  {
    if xs != [] { KeepLengths(xs[1..], ys[1..], consts[1..]); }
  }

  lemma {:induction false} SubstitutedNames(params: seq<(string, CType)>, consts: seq<Option<Val>>)
    requires |params| == |consts|
    ensures forall x :: x in Substituted(params, consts) ==> exists i :: 0 <= i < |params| && params[i].0 == x
  {
    if params != [] {
      SubstitutedNames(params[1..], consts[1..]);
      forall x | x in Substituted(params, consts)
        ensures exists i :: 0 <= i < |params| && params[i].0 == x
      {
        if x in Substituted(params[1..], consts[1..]) {
          var i :| 0 <= i < |params[1..]| && params[1..][i].0 == x;
          assert params[i + 1].0 == x;
        } else {
          assert params[0].0 == x;
        }
      }
    }
  }

  lemma {:induction false} BoundNames(params: seq<(string, CType)>, vs: seq<Val>)
    requires |params| == |vs|
    ensures forall x :: x in Bind(params, vs) <==> exists i :: 0 <= i < |params| && params[i].0 == x
  {
    if params != [] {
      BoundNames(params[1..], vs[1..]);
      forall x ensures x in Bind(params, vs) <==> exists i :: 0 <= i < |params| && params[i].0 == x {
        if x in Bind(params[1..], vs[1..]) {
          var i :| 0 <= i < |params[1..]| && params[1..][i].0 == x;
          assert params[i + 1].0 == x;
        }
        if i :| 0 <= i < |params| && params[i].0 == x {
          if i > 0 { assert params[1..][i - 1].0 == x; }
        }
      }
    }
  }

  lemma {:induction false} BindCovers(params: seq<(string, CType)>, vs: seq<Val>, consts: seq<Option<Val>>)
    requires |params| == |vs| == |consts| && DistinctNames(params) && ValuesFit(vs, params, consts)
    requires |Keep(params, consts)| == |Keep(vs, consts)|
    ensures Covers(Bind(params, vs), Bind(Keep(params, consts), Keep(vs, consts)), Substituted(params, consts))
  {
    if params != [] {
      var x := params[0].0;
      KeepLengths(params[1..], vs[1..], consts[1..]);
      assert forall i, j :: 0 <= i < j < |params[1..]| ==> params[1..][i].0 != params[1..][j].0;
      assert forall i :: 0 <= i < |vs[1..]| ==>
          vs[1..][i] == vs[i + 1] && consts[1..][i] == consts[i + 1] && params[1..][i] == params[i + 1];
      BindCovers(params[1..], vs[1..], consts[1..]);
      SubstitutedNames(params[1..], consts[1..]);
      BoundNames(params[1..], vs[1..]);
      assert x !in Substituted(params[1..], consts[1..]);
      if consts[0].None? {
        assert Keep(params, consts)[1..] == Keep(params[1..], consts[1..]);
        assert Keep(vs, consts)[1..] == Keep(vs[1..], consts[1..]);
      } else {
        assert Keep(params, consts) == Keep(params[1..], consts[1..]);
        assert Keep(vs, consts) == Keep(vs[1..], consts[1..]);
      }
    }
  }

  lemma {:induction false} RedirectedEval(p: Program, q: Program, cl: Clones, n: nat, e: Expr, e2: Expr, env: Env,
                                          tr: Trace)
    requires Rewritten(p, q, cl) && Redirected(e, e2, p, cl)
    ensures Eval(p, n, e, env, tr) == Eval(q, n, e2, env, tr)
    decreases n, 1, e
  {
    match e
    case Lit(_) =>
    case Var(_) =>
    case Bad =>
    case Bin(op, a, b) =>
      RedirectedEval(p, q, cl, n, a, e2.a, env, tr);
      var ra := Eval(p, n, a, env, tr);
      if ra.Ok? { RedirectedEval(p, q, cl, n, b, e2.b, env, ra.trace); }
    case Call(f, args) =>
      var r := EvalArgs(p, n, args, env, tr);
      if e2.f == f && f !in cl {
        RedirectedArgs(p, q, cl, n, args, e2.args, env, tr);
        if r.Ok? { SameFunction(p, q, cl, n, f, r.value, r.trace); }
      } else {
        FittingArgs(p, q, cl, n, args, e2.args, p[f].params, cl[e2.f].consts, env, tr);
        if r.Ok? { CloneSameAsCallee(p, q, cl, n, e2.f, r.value, r.trace); }
      }
  }

  lemma {:induction false} RedirectedArgs(p: Program, q: Program, cl: Clones, n: nat, es: seq<Expr>, es2: seq<Expr>,
                                          env: Env, tr: Trace)
    requires Rewritten(p, q, cl) && AllRedirected(es, es2, p, cl)
    ensures EvalArgs(p, n, es, env, tr) == EvalArgs(q, n, es2, env, tr)
    decreases n, 1, es
  {
    if es != [] {
      RedirectedEval(p, q, cl, n, es[0], es2[0], env, tr);
      var r := Eval(p, n, es[0], env, tr);
      if r.Ok? { RedirectedArgs(p, q, cl, n, es[1..], es2[1..], env, r.trace); }
    }
  }

  /** Evaluating the kept arguments gives the kept values, the same output and the same failures. */
  lemma OneMoreFits(v: Val, rest: seq<Val>, vs: seq<Val>, params: seq<(string, CType)>, consts: seq<Option<Val>>)
    requires vs == [v] + rest && |vs| == |params| == |consts|
    ensures Keep(vs, consts) == (if consts[0].None? then [v] else []) + Keep(rest, consts[1..])
    ensures consts[0].Some? ==> Keep(vs, consts) == Keep(rest, consts[1..])
    ensures ValuesFit(rest, params[1..], consts[1..]) && (consts[0].Some? ==> Conv(params[0].1, v) == consts[0].value)
            ==> ValuesFit(vs, params, consts)
  {
    assert vs[1..] == rest;
    assert [] + Keep(rest, consts[1..]) == Keep(rest, consts[1..]);
    assert forall i :: 0 < i < |vs| ==>
        vs[i] == rest[i - 1] && params[i] == params[1..][i - 1] && consts[i] == consts[1..][i - 1];
  }

  lemma {:induction false} FittingArgs(p: Program, q: Program, cl: Clones, n: nat, es: seq<Expr>, es2: seq<Expr>,
                                       params: seq<(string, CType)>, consts: seq<Option<Val>>, env: Env, tr: Trace)
    requires Rewritten(p, q, cl) && |es| == |params| == |consts| && ArgsFit(es, es2, params, consts, p, cl)
    ensures match EvalArgs(p, n, es, env, tr)
            case OutOfFuel => EvalArgs(q, n, es2, env, tr) == OutOfFuel
            case Wrong => EvalArgs(q, n, es2, env, tr) == Wrong
            case Ok(vs, tr1) =>
              ValuesFit(vs, params, consts) && EvalArgs(q, n, es2, env, tr) == Ok(Keep(vs, consts), tr1)
    decreases n, 1, es
  {
    if es != [] {
      var rest := if consts[0].Some? then es2 else es2[1..];
      if consts[0].None? { RedirectedEval(p, q, cl, n, es[0], es2[0], env, tr); }
      var r := Eval(p, n, es[0], env, tr);
      if r.Ok? {
        FittingArgs(p, q, cl, n, es[1..], rest, params[1..], consts[1..], env, r.trace);
        var rs := EvalArgs(p, n, es[1..], env, r.trace);
        if rs.Ok? {
          OneMoreFits(r.value, rs.value, [r.value] + rs.value, params, consts);
        }
      }
    }
  }

  lemma {:induction false} SameFunction(p: Program, q: Program, cl: Clones, n: nat, f: string, vs: seq<Val>, tr: Trace)
    requires Rewritten(p, q, cl) && f !in cl
    ensures Invoke(p, n, f, vs, tr) == Invoke(q, n, f, vs, tr)
    decreases n, 0
  {
    if f in p && |p[f].params| == |vs| && n > 0 {
      RedirectedExec(p, q, cl, n - 1, p[f].body, q[f].body, Bind(p[f].params, vs), tr);
    }
  }

  /** A clone does with the kept arguments what its callee does with all of them. */
  lemma {:induction false} CloneSameAsCallee(p: Program, q: Program, cl: Clones, n: nat, c: string, vs: seq<Val>,
                                             tr: Trace)
    requires Rewritten(p, q, cl) && c in cl && |vs| == |cl[c].consts|
    requires cl[c].callee in p && |p[cl[c].callee].params| == |vs| &&
             ValuesFit(vs, p[cl[c].callee].params, cl[c].consts)
    ensures Invoke(p, n, cl[c].callee, vs, tr) == Invoke(q, n, c, Keep(vs, cl[c].consts), tr)
    decreases n, 0
  {
    var Clone(f, consts) := cl[c];
    var params := p[f].params;
    assert IsClone(p, q, c, cl);
    KeepLengths(params, vs, consts);
    if n > 0 {
      var m := Substituted(params, consts);
      var env, env2 := Bind(params, vs), Bind(Keep(params, consts), Keep(vs, consts));
      BindCovers(params, vs, consts);
      SubstExec(p, n - 1, p[f].body, env, env2, m, tr);
      RedirectedExec(p, q, cl, n - 1, SubstS(p[f].body, m), q[c].body, env2, tr);
    }
  }

  lemma {:induction false} RedirectedExec(p: Program, q: Program, cl: Clones, n: nat, s: Stmt, s2: Stmt, env: Env,
                                          tr: Trace)
    requires Rewritten(p, q, cl) && RedirectedS(s, s2, p, cl)
    ensures Exec(p, n, s, env, tr) == Exec(q, n, s2, env, tr)
    decreases n, 2, s, 1
  {
    match s
    case Skip =>
    case Invalid =>
    case Assign(_, _, e) => RedirectedEval(p, q, cl, n, e, s2.e, env, tr);
    case Emit(e) => RedirectedEval(p, q, cl, n, e, s2.e, env, tr);
    case Return(e) => RedirectedEval(p, q, cl, n, e, s2.e, env, tr);
    case Seq(a, b) =>
      RedirectedExec(p, q, cl, n, a, s2.first, env, tr);
      var r := Exec(p, n, a, env, tr);
      if r.Ok? && r.value.Normal? { RedirectedExec(p, q, cl, n, b, s2.second, r.value.env, r.trace); }
    case If(_, _, _) => RedirectedIf(p, q, cl, n, s, s2, env, tr);
    case While(_, _) => RedirectedWhile(p, q, cl, n, s, s2, env, tr);
  }

  lemma {:induction false} RedirectedIf(p: Program, q: Program, cl: Clones, n: nat, s: Stmt, s2: Stmt, env: Env,
                                        tr: Trace)
    requires s.If? && Rewritten(p, q, cl) && RedirectedS(s, s2, p, cl)
    ensures Exec(p, n, s, env, tr) == Exec(q, n, s2, env, tr)
    decreases n, 2, s, 0
  {
    RedirectedEval(p, q, cl, n, s.c, s2.c, env, tr);
    var r := Eval(p, n, s.c, env, tr);
    if r.Ok? {
      if Truth(r.value) {
        RedirectedExec(p, q, cl, n, s.thn, s2.thn, env, r.trace);
      } else {
        RedirectedExec(p, q, cl, n, s.els, s2.els, env, r.trace);
      }
    }
  }

  lemma {:induction false} RedirectedWhile(p: Program, q: Program, cl: Clones, n: nat, s: Stmt, s2: Stmt, env: Env,
                                           tr: Trace)
    requires s.While? && Rewritten(p, q, cl) && RedirectedS(s, s2, p, cl)
    ensures Exec(p, n, s, env, tr) == Exec(q, n, s2, env, tr)
    decreases n, 2, s, 0
  {
    RedirectedEval(p, q, cl, n, s.c, s2.c, env, tr);
    var r := Eval(p, n, s.c, env, tr);
    if r.Ok? && Truth(r.value) && n > 0 {
      RedirectedExec(p, q, cl, n, s.body, s2.body, env, r.trace);
      var b := Exec(p, n, s.body, env, r.trace);
      if b.Ok? && b.value.Normal? { RedirectedExec(p, q, cl, n - 1, s, s2, b.value.env, b.trace); }
    }
  }

  // ---- Why the condition on the constants is needed -----------------------------------------

  /** A one-parameter callee that outputs its parameter. */
  function Echo(t: CType): Func { Func([("x", t)], IntType(64), Emit(Var("x"))) }

  /** Redirecting f(c) to the clone with k substituted is right for every callee with a parameter of
      type t if and only if k is what converting c to t gives: otherwise the outputs differ. */
  lemma ConstantMustBeConverted(t: CType, c: Val, k: Val, n: nat)
    requires n > 0
    ensures var p: Program := map["f" := Echo(t)];
            var q: Program := map["f" := Echo(t), "s" := Func([], IntType(64), SubstS(Echo(t).body, map["x" := k]))];
            Eval(p, n, Call("f", [Lit(c)]), map[], []) == Eval(q, n, Call("s", []), map[], []) <==> Conv(t, c) == k
  {
    var p: Program := map["f" := Echo(t)];
    var q: Program := map["f" := Echo(t), "s" := Func([], IntType(64), SubstS(Echo(t).body, map["x" := k]))];
    OneArgument(p, n, "f", "x", t, c);
    assert Exec(p, n - 1, p["f"].body, map["x" := Conv(t, c)], []) == Ok(Normal(map["x" := Conv(t, c)]), [Conv(t, c)]);
    NoArguments(q, n, "s");
    assert SubstS(Echo(t).body, map["x" := k]) == Emit(Lit(k));
    assert Exec(q, n - 1, q["s"].body, map[], []) == Ok(Normal(map[]), [k]);
  }

  lemma OneArgument(p: Program, n: nat, f: string, x: string, t: CType, c: Val)
    requires n > 0 && f in p && p[f].params == [(x, t)]
    ensures Invoke(p, n, f, [c], []) == Finish(p[f].ret, Exec(p, n - 1, p[f].body, map[x := Conv(t, c)], []))
    ensures Eval(p, n, Call(f, [Lit(c)]), map[], []) == Invoke(p, n, f, [c], [])
  {
    var es := [Lit(c)];
    assert es[1..] == [] && EvalArgs(p, n, es[1..], map[], []) == Ok([], []);
    assert Eval(p, n, es[0], map[], []) == Ok(c, []) && [c] + [] == [c];
    assert EvalArgs(p, n, es, map[], []) == Ok([c], []);
    assert p[f].params[1..] == [] && [c][1..] == [];
    assert Bind(p[f].params, [c]) == map[x := Conv(t, c)];
  }

  lemma NoArguments(p: Program, n: nat, f: string)
    requires n > 0 && f in p && p[f].params == []
    ensures Invoke(p, n, f, [], []) == Finish(p[f].ret, Exec(p, n - 1, p[f].body, map[], []))
    ensures Eval(p, n, Call(f, []), map[], []) == Invoke(p, n, f, [], [])
  {
    assert EvalArgs(p, n, [], map[], []) == Ok([], []);
  }

  /** So a double parameter specialised on the integer literal 1 changes x / 2 from 0.5 to 0. */
  lemma HalfOfOneBecomesZero(n: nat)
    requires n > 0
    ensures var body := Return(Bin(Div, Var("x"), Lit(I(2))));
            var p: Program := map["half" := Func([("x", Double)], Double, body)];
            var q: Program := map["s" := Func([], Double, SubstS(body, map["x" := I(1)]))];
            Invoke(p, n, "half", [I(1)], []) == Ok(F(0.5), []) && Invoke(q, n, "s", [], []) == Ok(F(0.0), [])
  {
    var body := Return(Bin(Div, Var("x"), Lit(I(2))));
    var p: Program := map["half" := Func([("x", Double)], Double, body)];
    var q: Program := map["s" := Func([], Double, SubstS(body, map["x" := I(1)]))];
    OneArgument(p, n, "half", "x", Double, I(1));
    NoArguments(q, n, "s");
    var env: Env := map["x" := F(1.0)];
    assert Eval(p, n - 1, Var("x"), env, []) == Ok(F(1.0), []);
    assert Eval(p, n - 1, Bin(Div, Var("x"), Lit(I(2))), env, []) == Ok(F(1.0 / 2.0), []);
    assert Exec(p, n - 1, body, env, []) == Ok(Returned(F(0.5)), []);
    assert SubstS(body, map["x" := I(1)]) == Return(Bin(Div, Lit(I(1)), Lit(I(2))));
    assert Eval(q, n - 1, Bin(Div, Lit(I(1)), Lit(I(2))), map[], []) == Ok(I(TruncDiv(1, 2)), []);
    assert Exec(q, n - 1, q["s"].body, map[], []) == Ok(Returned(I(0)), []);
  }
}
