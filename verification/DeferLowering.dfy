// Lowering of defer: deferred calls are pasted in front of every return and at the end of the function, from the
// stack that the compiler has there. What the emitted code does for every body, when that is what a run-time
// stack of deferred calls would do, and the bodies whose two stacks are the same.
module DeferLowering {

  type State = map<string, int>

  datatype Expr = Const(i: int) | Var(x: string) | Add(a: Expr, b: Expr)

  /** An action with an effect: x = e. A deferred call is one, evaluated when it runs. */
  datatype Action = Set(x: string, e: Expr)

  /** What a return hands back. Tuples without an array field are built in the return itself. */
  datatype Value = Nothing | Plain(e: Expr) | Tuple(es: seq<Expr>, hasArray: bool)

  datatype Stmt =
    | Do(a: Action)
    | Defer(a: Action)
    | If(c: Expr, thn: seq<Stmt>, els: seq<Stmt>)
    | While(c: Expr, body: seq<Stmt>)
    | Return(v: Value)

  /** Emitted C. Save stores values in `_ret`; GiveBack returns it. */
  datatype Code =
    | Act(a: Action)
    | Save(es: seq<Expr>)
    | GiveBack
    | ReturnNow(es: seq<Expr>)
    | Branch(c: Expr, thn: seq<Code>, els: seq<Code>)
    | Loop(c: Expr, body: seq<Code>)

  // ---- Evaluation ---------------------------------------------------------------------------

  function Eval(e: Expr, s: State): int {
    match e
    case Const(i) => i
    case Var(x) => if x in s then s[x] else 0
    case Add(a, b) => Eval(a, s) + Eval(b, s)
  }

  function EvalAll(es: seq<Expr>, s: State): seq<int> {
    if es == [] then [] else [Eval(es[0], s)] + EvalAll(es[1..], s)
  }

  function Perform(a: Action, s: State): State { s[a.x := Eval(a.e, s)] }

  function Exprs(v: Value): seq<Expr> {
    match v
    case Nothing => []
    case Plain(e) => [e]
    case Tuple(es, _) => es
  }

  /** The stack's calls, last deferred first. */
  function Unwind(stack: seq<Action>, s: State): State {
    if stack == [] then s else Unwind(stack[..|stack| - 1], Perform(stack[|stack| - 1], s))
  }

  /** Reaches: a return with this value, with the stack as it then is. */
  datatype Outcome = OutOfFuel | Falls(s: State, stack: seq<Action>) | Reaches(v: Value, s: State, stack: seq<Action>)

  /** A function body with a run-time stack of deferred calls, up to the end or the return it comes to. */
  function Run(ss: seq<Stmt>, n: nat, s: State, stack: seq<Action>): Outcome
    decreases n, ss
  {
    if ss == [] then Falls(s, stack)
    else
      match RunOne(ss[0], n, s, stack)
      case OutOfFuel => OutOfFuel
      case Reaches(v, s1, stack1) => Reaches(v, s1, stack1)
      case Falls(s1, stack1) => Run(ss[1..], n, s1, stack1)
  }

  function RunOne(st: Stmt, n: nat, s: State, stack: seq<Action>): Outcome
    decreases n, st
  {
    match st
    case Do(a) => Falls(Perform(a, s), stack)
    case Defer(a) => Falls(s, stack + [a])
    case If(c, thn, els) => if Eval(c, s) != 0 then Run(thn, n, s, stack) else Run(els, n, s, stack)
    case While(c, body) =>
      if Eval(c, s) == 0 then Falls(s, stack)
      else if n == 0 then OutOfFuel
      else
        (match Run(body, n, s, stack)
         case OutOfFuel => OutOfFuel
         case Reaches(v, s1, stack1) => Reaches(v, s1, stack1)
         case Falls(s1, stack1) => RunOne(st, n - 1, s1, stack1))
    case Return(v) => Reaches(v, s, stack)
  }

  // ---- Lowering -----------------------------------------------------------------------------

  function Cleanup(stack: seq<Action>): seq<Code> {
    if stack == [] then [] else [Act(stack[|stack| - 1])] + Cleanup(stack[..|stack| - 1])
  }

  /** compile_return. */
  function LowerReturn(v: Value, stack: seq<Action>): seq<Code> {
    match v
    case Nothing => Cleanup(stack) + [ReturnNow([])]
    case Plain(e) => if stack == [] then [ReturnNow([e])] else [Save([e])] + Cleanup(stack) + [GiveBack]
    case Tuple(es, hasArray) =>
      if hasArray then [Save(es)] + Cleanup(stack) + [GiveBack] else Cleanup(stack) + [ReturnNow(es)]
  }

  /** The compiler's defer stack is one mutable list: a defer in a branch stays on it. */
  function Lower(ss: seq<Stmt>, stack: seq<Action>): (seq<Code>, seq<Action>)
    decreases ss
  {
    if ss == [] then ([], stack)
    else
      var (c1, st1) := LowerOne(ss[0], stack);
      var (c2, st2) := Lower(ss[1..], st1);
      (c1 + c2, st2)
  }

  function LowerOne(st: Stmt, stack: seq<Action>): (seq<Code>, seq<Action>)
    decreases st
  {
    match st
    case Do(a) => ([Act(a)], stack)
    case Defer(a) => ([], stack + [a])
    case If(c, thn, els) =>
      var (c1, st1) := Lower(thn, stack);
      var (c2, st2) := Lower(els, st1);
      ([Branch(c, c1, c2)], st2)
    case While(c, body) =>
      var (c1, st1) := Lower(body, stack);
      ([Loop(c, c1)], st1)
    case Return(v) => (LowerReturn(v, stack), stack)
  }

  function LowerFunction(body: seq<Stmt>): seq<Code> {
    var (code, stack) := Lower(body, []);
    code + Cleanup(stack)
  }

  // ---- Running the emitted code -------------------------------------------------------------

  datatype COutcome = COutOfFuel | CFalls(s: State, saved: seq<int>) | CReturns(vs: seq<int>, s: State)

  /** The meaning of defer for a whole call: the return value is evaluated, then the stack unwound; falling off
      the end unwinds too. */
  function RunFunction(body: seq<Stmt>, n: nat, s: State): COutcome {
    match Run(body, n, s, [])
    case OutOfFuel => COutOfFuel
    case Reaches(v, s1, stack) => CReturns(EvalAll(Exprs(v), s1), Unwind(stack, s1))
    case Falls(s1, stack) => CReturns([], Unwind(stack, s1))
  }

  function Exec(cs: seq<Code>, n: nat, s: State, saved: seq<int>): COutcome
    decreases n, cs
  {
    if cs == [] then CFalls(s, saved)
    else
      match ExecOne(cs[0], n, s, saved)
      case COutOfFuel => COutOfFuel
      case CReturns(vs, s1) => CReturns(vs, s1)
      case CFalls(s1, saved1) => Exec(cs[1..], n, s1, saved1)
  }

  function ExecOne(c: Code, n: nat, s: State, saved: seq<int>): COutcome
    decreases n, c
  {
    match c
    case Act(a) => CFalls(Perform(a, s), saved)
    case Save(es) => CFalls(s, EvalAll(es, s))
    case GiveBack => CReturns(saved, s)
    case ReturnNow(es) => CReturns(EvalAll(es, s), s)
    case Branch(e, thn, els) => if Eval(e, s) != 0 then Exec(thn, n, s, saved) else Exec(els, n, s, saved)
    case Loop(e, body) =>
      if Eval(e, s) == 0 then CFalls(s, saved)
      else if n == 0 then COutOfFuel
      else
        match Exec(body, n, s, saved)
        case COutOfFuel => COutOfFuel
        case CReturns(vs, s1) => CReturns(vs, s1)
        case CFalls(s1, saved1) => ExecOne(c, n - 1, s1, saved1)
  }

  function ExecFunction(code: seq<Code>, n: nat, s: State): COutcome {
    match Exec(code, n, s, [])
    case COutOfFuel => COutOfFuel
    case CReturns(vs, s1) => CReturns(vs, s1)
    case CFalls(s1, _) => CReturns([], s1)
  }

  lemma {:induction false} ExecConcat(a: seq<Code>, b: seq<Code>, n: nat, s: State, saved: seq<int>)
    ensures Exec(a + b, n, s, saved) ==
            match Exec(a, n, s, saved)
            case COutOfFuel => COutOfFuel
            case CReturns(vs, s1) => CReturns(vs, s1)
            case CFalls(s1, saved1) => Exec(b, n, s1, saved1)
    decreases a
  {
    if a == [] {
      assert a + b == b;
    } else {
      assert (a + b)[1..] == a[1..] + b;
      match ExecOne(a[0], n, s, saved)
      case CFalls(s1, saved1) => ExecConcat(a[1..], b, n, s1, saved1);
      case _ =>
    }
  }

  /** Cleanup is every deferred call once, last deferred first. */
  lemma {:induction false} CleanupOrder(stack: seq<Action>, k: nat)
    requires k < |stack|
    ensures |Cleanup(stack)| == |stack| && Cleanup(stack)[k] == Act(stack[|stack| - 1 - k])
    decreases |stack|
  {
    if k > 0 {
      CleanupOrder(stack[..|stack| - 1], k - 1);
    } else if |stack| > 1 {
      CleanupOrder(stack[..|stack| - 1], 0);
    }
  }

  lemma {:induction false} CleanupUnwinds(stack: seq<Action>, n: nat, s: State, saved: seq<int>)
    ensures Exec(Cleanup(stack), n, s, saved) == CFalls(Unwind(stack, s), saved)
    decreases stack
  {
    if stack != [] {
      var last := stack[|stack| - 1];
      assert Cleanup(stack)[1..] == Cleanup(stack[..|stack| - 1]);
      CleanupUnwinds(stack[..|stack| - 1], n, Perform(last, s), saved);
    }
  }

  // ---- Conditions ---------------------------------------------------------------------------

  predicate NoDefer(ss: seq<Stmt>)
    decreases ss
  {
    ss != [] ==> NoDeferIn(ss[0]) && NoDefer(ss[1..])
  }

  predicate NoDeferIn(st: Stmt)
    decreases st
  {
    match st
    case Defer(_) => false
    case If(_, thn, els) => NoDefer(thn) && NoDefer(els)
    case While(_, body) => NoDefer(body)
    case Do(_) => true
    case Return(_) => true
  }

  /** Defers are statements of the body itself. */
  predicate TopLevelDefers(ss: seq<Stmt>)
    decreases ss
  {
    ss != [] ==> (ss[0].Defer? || NoDeferIn(ss[0])) && TopLevelDefers(ss[1..])
  }

  /** The end of the statements may be reached. */
  predicate CanFall(ss: seq<Stmt>)
    decreases ss
  {
    ss != [] ==> CanFallOne(ss[0]) && CanFall(ss[1..])
  }

  predicate CanFallOne(st: Stmt)
    decreases st
  {
    match st
    case Return(_) => false
    case If(_, thn, els) => CanFall(thn) || CanFall(els)
    case While(_, _) => true
    case Do(_) => true
    case Defer(_) => true
  }

  /** No defer in a loop, none in a branch but for an else branch whose sibling always returns. */
  predicate Tidy(ss: seq<Stmt>)
    decreases ss
  {
    ss != [] ==> TidyOne(ss[0]) && (CanFallOne(ss[0]) ==> Tidy(ss[1..]))
  }

  predicate TidyOne(st: Stmt)
    decreases st
  {
    match st
    case If(_, thn, els) => NoDefer(thn) && Tidy(els) && (CanFall(thn) ==> NoDefer(els))
    case While(_, body) => NoDefer(body)
    case Do(_) => true
    case Defer(_) => true
    case Return(_) => true
  }

  function Reads(e: Expr): set<string> {
    match e
    case Const(_) => {}
    case Var(x) => {x}
    case Add(a, b) => Reads(a) + Reads(b)
  }

  function ReadsAll(es: seq<Expr>): set<string> {
    if es == [] then {} else Reads(es[0]) + ReadsAll(es[1..])
  }

  function Writes(stack: seq<Action>): set<string> { set a | a in stack :: a.x }

  /** A tuple built in the return itself, after cleanup, must not read what cleanup writes. */
  predicate ReturnSafe(v: Value, stack: seq<Action>) {
    v.Tuple? && !v.hasArray ==> ReadsAll(v.es) !! Writes(stack)
  }

  /** So it is at every return, with the stack that the compiler has there. */
  predicate Safe(ss: seq<Stmt>, stack: seq<Action>)
    decreases ss
  {
    ss != [] ==> SafeOne(ss[0], stack) && Safe(ss[1..], LowerOne(ss[0], stack).1)
  }

  predicate SafeOne(st: Stmt, stack: seq<Action>)
    decreases st
  {
    match st
    case If(_, thn, els) => Safe(thn, stack) && Safe(els, Lower(thn, stack).1)
    case While(_, body) => Safe(body, stack)
    case Return(v) => ReturnSafe(v, stack)
    case Do(_) => true
    case Defer(_) => true
  }

  // ---- Lowering preserves meaning -----------------------------------------------------------

  lemma {:induction false} EvalUntouched(e: Expr, s: State, t: State)
    requires forall x :: x in Reads(e) ==> (x in s <==> x in t) && (x in s ==> s[x] == t[x])
    ensures Eval(e, s) == Eval(e, t)
  {
    match e
    case Const(_) =>
    case Var(_) =>
    case Add(a, b) => EvalUntouched(a, s, t); EvalUntouched(b, s, t);
  }

  lemma {:induction false} EvalAllUntouched(es: seq<Expr>, s: State, t: State)
    requires forall x :: x in ReadsAll(es) ==> (x in s <==> x in t) && (x in s ==> s[x] == t[x])
    ensures EvalAll(es, s) == EvalAll(es, t)
  {
    if es != [] {
      EvalUntouched(es[0], s, t);
      EvalAllUntouched(es[1..], s, t);
    }
  }

  lemma {:induction false} UnwindWrites(stack: seq<Action>, s: State)
    ensures var t := Unwind(stack, s);
            forall x :: x !in Writes(stack) ==> (x in s <==> x in t) && (x in s ==> s[x] == t[x])
  {
    if stack != [] {
      var last := stack[|stack| - 1];
      UnwindWrites(stack[..|stack| - 1], Perform(last, s));
      assert last in stack && Writes(stack[..|stack| - 1]) <= Writes(stack);
    }
  }

  /** What the emitted return gives back: a tuple without array fields is built after cleanup. */
  function Given(v: Value, s: State, stack: seq<Action>): seq<int> {
    EvalAll(Exprs(v), if v.Tuple? && !v.hasArray then Unwind(stack, s) else s)
  }

  lemma ReturnCorrect(v: Value, stack: seq<Action>, n: nat, s: State, saved: seq<int>)
    ensures Exec(LowerReturn(v, stack), n, s, saved) == CReturns(Given(v, s, stack), Unwind(stack, s))
    ensures ReturnSafe(v, stack) ==> Given(v, s, stack) == EvalAll(Exprs(v), s)
  {
    var es := Exprs(v);
    if (v.Tuple? && v.hasArray) || (v.Plain? && stack != []) {
      SaveFirst(es, stack, n, s, saved);
    } else {
      CleanupUnwinds(stack, n, s, saved);
      ExecConcat(Cleanup(stack), [ReturnNow(es)], n, s, saved);
      assert Cleanup(stack) + [ReturnNow(es)] == LowerReturn(v, stack);
    }
    UnwindWrites(stack, s);
    if v.Tuple? && ReturnSafe(v, stack) && !v.hasArray { EvalAllUntouched(es, s, Unwind(stack, s)); }
  }

  lemma SaveFirst(es: seq<Expr>, stack: seq<Action>, n: nat, s: State, saved: seq<int>)
    ensures Exec([Save(es)] + Cleanup(stack) + [GiveBack], n, s, saved) == CReturns(EvalAll(es, s), Unwind(stack, s))
  {
    var vs := EvalAll(es, s);
    CleanupUnwinds(stack, n, s, vs);
    ExecConcat(Cleanup(stack), [GiveBack], n, s, vs);
    assert ([Save(es)] + Cleanup(stack) + [GiveBack])[1..] == Cleanup(stack) + [GiveBack];
  }

  lemma ExecSingle(c: Code, n: nat, s: State, saved: seq<int>)
    ensures Exec([c], n, s, saved) == ExecOne(c, n, s, saved)
  {
    assert [c][1..] == [];
  }

  // ---- The compiler's stack along a run -----------------------------------------------------

  /** The same run, with the stack the compiler had at the statement reached: the else branch is compiled after the
      other one, a loop's body once, and what follows a statement after all of it. */
  function Lex(ss: seq<Stmt>, n: nat, s: State, stack: seq<Action>): Outcome
    decreases n, ss
  {
    if ss == [] then Falls(s, stack)
    else
      match LexOne(ss[0], n, s, stack)
      case OutOfFuel => OutOfFuel
      case Reaches(v, s1, stack1) => Reaches(v, s1, stack1)
      case Falls(s1, _) => Lex(ss[1..], n, s1, LowerOne(ss[0], stack).1)
  }

  function LexOne(st: Stmt, n: nat, s: State, stack: seq<Action>): Outcome
    decreases n, st
  {
    match st
    case Do(a) => Falls(Perform(a, s), stack)
    case Defer(a) => Falls(s, stack + [a])
    case If(c, thn, els) =>
      After(if Eval(c, s) != 0 then Lex(thn, n, s, stack) else Lex(els, n, s, Lower(thn, stack).1),
            LowerOne(st, stack).1)
    case While(c, body) =>
      if Eval(c, s) == 0 then Falls(s, LowerOne(st, stack).1)
      else if n == 0 then OutOfFuel
      else
        (match Lex(body, n, s, stack)
         case OutOfFuel => OutOfFuel
         case Reaches(v, s1, stack1) => Reaches(v, s1, stack1)
         case Falls(s1, _) => LexOne(st, n - 1, s1, stack))
    case Return(v) => Reaches(v, s, stack)
  }

  function After(r: Outcome, stack: seq<Action>): Outcome { if r.Falls? then Falls(r.s, stack) else r }

  /** The two runs take the same path. */
  ghost predicate SamePath(a: Outcome, b: Outcome) {
    match a
    case OutOfFuel => b == OutOfFuel
    case Reaches(v, s, _) => b.Reaches? && b.v == v && b.s == s
    case Falls(s, _) => b.Falls? && b.s == s
  }

  lemma {:induction false} RunAndLex(ss: seq<Stmt>, n: nat, s: State, dyn: seq<Action>, stack: seq<Action>)
    ensures SamePath(Run(ss, n, s, dyn), Lex(ss, n, s, stack))
    decreases n, ss
  {
    if ss != [] {
      RunAndLexOne(ss[0], n, s, dyn, stack);
      var r := RunOne(ss[0], n, s, dyn);
      if r.Falls? { RunAndLex(ss[1..], n, r.s, r.stack, LowerOne(ss[0], stack).1); }
    }
  }

  lemma {:induction false} RunAndLexOne(st: Stmt, n: nat, s: State, dyn: seq<Action>, stack: seq<Action>)
    ensures SamePath(RunOne(st, n, s, dyn), LexOne(st, n, s, stack))
    decreases n, st
  {
    match st
    case If(c, thn, els) => RunAndLex(thn, n, s, dyn, stack); RunAndLex(els, n, s, dyn, Lower(thn, stack).1);
    case While(c, body) =>
      if Eval(c, s) != 0 && n > 0 {
        RunAndLex(body, n, s, dyn, stack);
        var r := Run(body, n, s, dyn);
        if r.Falls? { RunAndLexOne(st, n - 1, r.s, r.stack, stack); }
      }
    case _ =>
  }

  lemma {:induction false} LexFalls(ss: seq<Stmt>, n: nat, s: State, stack: seq<Action>)
    ensures var r := Lex(ss, n, s, stack); r.Falls? ==> r.stack == Lower(ss, stack).1
    decreases ss
  {
    if ss != [] {
      var r := LexOne(ss[0], n, s, stack);
      if r.Falls? { LexFalls(ss[1..], n, r.s, LowerOne(ss[0], stack).1); }
    }
  }

  /** The emitted code is where the run is. */
  ghost predicate Agree(a: Outcome, b: COutcome) {
    match a
    case OutOfFuel => b == COutOfFuel
    case Reaches(v, s, st) => b == CReturns(Given(v, s, st), Unwind(st, s))
    case Falls(s, _) => b.CFalls? && b.s == s
  }

  /** For every body, defers nested or not, the emitted code does what the run with the compiler's stack does. */
  lemma {:induction false} ListCorrect(ss: seq<Stmt>, n: nat, s: State, stack: seq<Action>, saved: seq<int>)
    ensures Agree(Lex(ss, n, s, stack), Exec(Lower(ss, stack).0, n, s, saved))
    decreases n, ss
  {
    if ss != [] {
      OneCorrect(ss[0], n, s, stack, saved);
      var (c1, st1) := LowerOne(ss[0], stack);
      ExecConcat(c1, Lower(ss[1..], st1).0, n, s, saved);
      var r := LexOne(ss[0], n, s, stack);
      if r.Falls? { ListCorrect(ss[1..], n, r.s, st1, Exec(c1, n, s, saved).saved); }
    }
  }

  lemma {:induction false} OneCorrect(st: Stmt, n: nat, s: State, stack: seq<Action>, saved: seq<int>)
    ensures Agree(LexOne(st, n, s, stack), Exec(LowerOne(st, stack).0, n, s, saved))
    decreases n, st
  {
    match st
    case Do(a) => ExecSingle(Act(a), n, s, saved);
    case Defer(_) =>
    case Return(v) => ReturnCorrect(v, stack, n, s, saved);
    case If(c, thn, els) =>
      var st1 := Lower(thn, stack).1;
      ListCorrect(thn, n, s, stack, saved);
      ListCorrect(els, n, s, st1, saved);
      ExecSingle(Branch(c, Lower(thn, stack).0, Lower(els, st1).0), n, s, saved);
    case While(c, body) =>
      var loop := Loop(c, Lower(body, stack).0);
      ExecSingle(loop, n, s, saved);
      if Eval(c, s) != 0 && n > 0 {
        ListCorrect(body, n, s, stack, saved);
        var r := Lex(body, n, s, stack);
        if r.Falls? {
          var saved1 := Exec(loop.body, n, s, saved).saved;
          OneCorrect(st, n - 1, r.s, stack, saved1);
          ExecSingle(loop, n - 1, r.s, saved1);
        }
      }
  }

  lemma FunctionCorrect(body: seq<Stmt>, n: nat, s: State)
    ensures ExecFunction(LowerFunction(body), n, s) ==
            match Lex(body, n, s, [])
            case OutOfFuel => COutOfFuel
            case Reaches(v, s1, stack) => CReturns(Given(v, s1, stack), Unwind(stack, s1))
            case Falls(s1, stack) => CReturns([], Unwind(stack, s1))
  {
    var (code, stack) := Lower(body, []);
    ListCorrect(body, n, s, [], []);
    LexFalls(body, n, s, []);
    ExecConcat(code, Cleanup(stack), n, s, []);
    var r := Exec(code, n, s, []);
    if r.CFalls? { CleanupUnwinds(stack, n, r.s, r.saved); }
  }

  /** At the exit reached, with the compiler's stack and with the run-time one: cleanup ends in the same state,
      and a return gives back what its value was there. */
  ghost predicate ExitAgrees(r: Outcome, stack: seq<Action>)
    requires !r.OutOfFuel?
  {
    && Unwind(stack, r.s) == Unwind(r.stack, r.s)
    && (r.Reaches? ==> Given(r.v, r.s, stack) == EvalAll(Exprs(r.v), r.s))
  }

  /** Every body, every run: divergence agrees always, and the outcome exactly when the exit reached does. */
  lemma LoweringAgreesExactly(body: seq<Stmt>, n: nat, s: State)
    ensures var c, m := ExecFunction(LowerFunction(body), n, s), RunFunction(body, n, s);
            var r, l := Run(body, n, s, []), Lex(body, n, s, []);
            && (m.COutOfFuel? <==> c.COutOfFuel?) && (m.COutOfFuel? <==> r.OutOfFuel?)
            && SamePath(r, l)
            && (!r.OutOfFuel? ==> (c == m <==> ExitAgrees(r, l.stack)))
  {
    FunctionCorrect(body, n, s);
    RunAndLex(body, n, s, [], []);
  }

  // ---- Where the two stacks are the same ----------------------------------------------------

  lemma {:induction false} LowerKeepsStack(ss: seq<Stmt>, stack: seq<Action>)
    requires NoDefer(ss)
    ensures Lower(ss, stack).1 == stack
    decreases ss
  {
    if ss != [] {
      LowerKeepsStack(ss[1..], stack);
      match ss[0]
      case If(_, thn, els) => LowerKeepsStack(thn, stack); LowerKeepsStack(els, stack);
      case While(_, body) => LowerKeepsStack(body, stack);
      case Do(_) =>
      case Return(_) =>
    }
  }

  lemma {:induction false} NoDeferIsTidy(ss: seq<Stmt>)
    requires NoDefer(ss)
    ensures Tidy(ss)
    decreases ss
  {
    if ss != [] {
      NoDeferIsTidy(ss[1..]);
      if ss[0].If? { NoDeferIsTidy(ss[0].els); }
    }
  }

  lemma {:induction false} TopLevelIsTidy(ss: seq<Stmt>)
    requires TopLevelDefers(ss)
    ensures Tidy(ss)
    decreases ss
  {
    if ss != [] {
      TopLevelIsTidy(ss[1..]);
      if ss[0].If? { NoDeferIsTidy(ss[0].els); }
    }
  }

  /** In a tidy body the run-time stack is the compiler's, at every exit. */
  lemma {:induction false} TidyStacks(ss: seq<Stmt>, n: nat, s: State, stack: seq<Action>)
    requires Tidy(ss)
    ensures Run(ss, n, s, stack) == Lex(ss, n, s, stack)
    ensures var r := Run(ss, n, s, stack); r.Falls? ==> CanFall(ss) && r.stack == Lower(ss, stack).1
    decreases n, ss
  {
    if ss != [] {
      TidyStacksOne(ss[0], n, s, stack);
      var r := RunOne(ss[0], n, s, stack);
      if r.Falls? { TidyStacks(ss[1..], n, r.s, r.stack); }
    }
  }

  lemma {:induction false} TidyStacksOne(st: Stmt, n: nat, s: State, stack: seq<Action>)
    requires TidyOne(st)
    ensures RunOne(st, n, s, stack) == LexOne(st, n, s, stack)
    ensures var r := RunOne(st, n, s, stack); r.Falls? ==> CanFallOne(st) && r.stack == LowerOne(st, stack).1
    decreases n, st
  {
    match st
    case If(c, thn, els) =>
      NoDeferIsTidy(thn);
      LowerKeepsStack(thn, stack);
      TidyStacks(thn, n, s, stack);
      TidyStacks(els, n, s, stack);
      if NoDefer(els) { LowerKeepsStack(els, stack); }
    case While(c, body) =>
      LowerKeepsStack(body, stack);
      NoDeferIsTidy(body);
      if Eval(c, s) != 0 && n > 0 {
        TidyStacks(body, n, s, stack);
        var r := Run(body, n, s, stack);
        if r.Falls? { TidyStacksOne(st, n - 1, r.s, stack); }
      }
    case _ =>
  }

  lemma {:induction false} ReachedIsSafe(ss: seq<Stmt>, n: nat, s: State, stack: seq<Action>)
    requires Safe(ss, stack)
    ensures var r := Lex(ss, n, s, stack); r.Reaches? ==> ReturnSafe(r.v, r.stack)
    decreases n, ss
  {
    if ss != [] {
      ReachedIsSafeOne(ss[0], n, s, stack);
      var r := LexOne(ss[0], n, s, stack);
      if r.Falls? { ReachedIsSafe(ss[1..], n, r.s, LowerOne(ss[0], stack).1); }
    }
  }

  lemma {:induction false} ReachedIsSafeOne(st: Stmt, n: nat, s: State, stack: seq<Action>)
    requires SafeOne(st, stack)
    ensures var r := LexOne(st, n, s, stack); r.Reaches? ==> ReturnSafe(r.v, r.stack)
    decreases n, st
  {
    match st
    case If(c, thn, els) => ReachedIsSafe(thn, n, s, stack); ReachedIsSafe(els, n, s, Lower(thn, stack).1);
    case While(c, body) =>
      if Eval(c, s) != 0 && n > 0 {
        ReachedIsSafe(body, n, s, stack);
        var r := Lex(body, n, s, stack);
        if r.Falls? { ReachedIsSafeOne(st, n - 1, r.s, stack); }
      }
    case _ =>
  }

  /** In a tidy body the outcome differs only where cleanup changes what a tuple without array fields reads. */
  lemma TidyAgreesExactly(body: seq<Stmt>, n: nat, s: State)
    requires Tidy(body)
    ensures var c, m := ExecFunction(LowerFunction(body), n, s), RunFunction(body, n, s);
            var r := Run(body, n, s, []);
            && (m.CReturns? ==> c.CReturns? && c.s == m.s)
            && (c == m <==>
                (r.Reaches? && r.v.Tuple? && !r.v.hasArray ==>
                   EvalAll(r.v.es, r.s) == EvalAll(r.v.es, Unwind(r.stack, r.s))))
  {
    LoweringAgreesExactly(body, n, s);
    FunctionCorrect(body, n, s);
    TidyStacks(body, n, s, []);
  }

  /** On every path, ending in a return however deep or falling off the end, the emitted function returns the
      same values in the same final state as one with a run-time defer stack, when no tuple without array fields
      reads what cleanup writes. */
  lemma LoweringPreservesMeaning(body: seq<Stmt>, n: nat, s: State)
    requires Tidy(body) && Safe(body, [])
    ensures ExecFunction(LowerFunction(body), n, s) == RunFunction(body, n, s)
  {
    FunctionCorrect(body, n, s);
    TidyStacks(body, n, s, []);
    ReachedIsSafe(body, n, s, []);
    var r := Run(body, n, s, []);
    if r.Reaches? { ReturnCorrect(r.v, r.stack, n, r.s, []); }
  }

  // ---- Where it does not --------------------------------------------------------------------

  lemma OneUnwound(a: Action, s: State)
    ensures Unwind([a], s) == Perform(a, s)
  {
    assert [a][..0] == [];
  }

  /** defer a; return (es): the tuple is built after a has run, the meaning is from before. */
  lemma TupleAfterDefer(a: Action, es: seq<Expr>, n: nat, s: State)
    ensures var body := [Defer(a), Return(Tuple(es, false))];
            && RunFunction(body, n, s) == CReturns(EvalAll(es, s), Perform(a, s))
            && ExecFunction(LowerFunction(body), n, s) == CReturns(EvalAll(es, Perform(a, s)), Perform(a, s))
  {
    var ret := Return(Tuple(es, false));
    var body := [Defer(a), ret];
    assert body[1..] == [ret] && [ret][1..] == [] && [] + [a] == [a];
    assert RunOne(ret, n, s, [a]) == Reaches(ret.v, s, [a]) && Run([ret], n, s, [a]) == Reaches(ret.v, s, [a]);
    assert Run(body, n, s, []) == Run([ret], n, s, [a]);
    OneUnwound(a, s);
    NoDeferIsTidy([ret]);
    TidyStacks(body, n, s, []);
    FunctionCorrect(body, n, s);
  }

  /** With a deferred x = 2 the tuple (x,) holds 2, not 1. */
  lemma TupleReturnedAfterCleanup()
    ensures var body := [Defer(Set("x", Const(2))), Return(Tuple([Var("x")], false))];
            && RunFunction(body, 0, map["x" := 1]) == CReturns([1], map["x" := 2])
            && ExecFunction(LowerFunction(body), 0, map["x" := 1]) == CReturns([2], map["x" := 2])
  {
    var a, s: State := Set("x", Const(2)), map["x" := 1];
    TupleAfterDefer(a, [Var("x")], 0, s);
    assert Perform(a, s) == map["x" := 2];
    assert [Var("x")][1..] == [] && EvalAll([Var("x")], s) == [1] && EvalAll([Var("x")], Perform(a, s)) == [2];
  }

  /** if c: defer a -- whatever a does, the emitted code does it whether or not it was deferred. */
  lemma NestedDeferAlwaysRuns(c: Expr, a: Action, n: nat, s: State)
    ensures var body := [If(c, [Defer(a)], [])];
            && RunFunction(body, n, s) == CReturns([], if Eval(c, s) != 0 then Perform(a, s) else s)
            && ExecFunction(LowerFunction(body), n, s) == CReturns([], Perform(a, s))
  {
    var st := If(c, [Defer(a)], []);
    assert [Defer(a)][1..] == [] && [st][1..] == [] && [] + [a] == [a];
    NestedDeferStack(st, c, a, n, s);
    FunctionCorrect([st], n, s);
    OneUnwound(a, s);
  }

  lemma NestedDeferStack(st: Stmt, c: Expr, a: Action, n: nat, s: State)
    requires st == If(c, [Defer(a)], [])
    ensures Lex([st], n, s, []) == Falls(s, [a])
    ensures Run([st], n, s, []) == Falls(s, if Eval(c, s) != 0 then [a] else [])
  {
    assert [Defer(a)][1..] == [] && [st][1..] == [] && [] + [a] == [a];
    assert Lower([Defer(a)], []).1 == [a] && LowerOne(st, []).1 == [a];
    var one := [Defer(a)];
    assert RunOne(one[0], n, s, []) == Falls(s, [a]) && LexOne(one[0], n, s, []) == Falls(s, [a]);
    assert Run(one, n, s, []) == Run([], n, s, [a]) && Lex(one, n, s, []) == Lex([], n, s, [a]);
    assert LexOne(st, n, s, []) == Falls(s, [a]);
    assert Lex([st], n, s, []) == Lex([], n, s, [a]);
    assert RunOne(st, n, s, []) == Falls(s, if Eval(c, s) != 0 then [a] else []);
    assert Run([st], n, s, []) == Run([], n, s, if Eval(c, s) != 0 then [a] else []);
  }

  // ---- The lowering in its own form ---------------------------------------------------------

  class FunctionCompiler {
    var deferStack: seq<Action>

    constructor ()
      ensures deferStack == []
    {
      deferStack := [];
    }

    method EmitCleanup() returns (code: seq<Code>)
      ensures code == Cleanup(deferStack)
    {
      code := [];
      assert deferStack[..|deferStack|] == deferStack;
      var i := |deferStack|;
      while i > 0
        invariant 0 <= i <= |deferStack|
        invariant code + Cleanup(deferStack[..i]) == Cleanup(deferStack)
      {
        assert deferStack[..i][..i - 1] == deferStack[..i - 1];
        i := i - 1;
        code := code + [Act(deferStack[i])];
      }
      assert code + [] == code;
    }

    method CompileStmt(st: Stmt) returns (code: seq<Code>)
      modifies this
      ensures code == LowerOne(st, old(deferStack)).0 && deferStack == LowerOne(st, old(deferStack)).1
      decreases st
    {
      match st
      case Do(a) => code := [Act(a)];
      case Defer(a) => deferStack, code := deferStack + [a], [];
      case If(c, thn, els) =>
        var c1 := CompileList(thn);
        var c2 := CompileList(els);
        code := [Branch(c, c1, c2)];
      case While(c, body) =>
        var c1 := CompileList(body);
        code := [Loop(c, c1)];
      case Return(v) =>
        var cleanup := EmitCleanup();
        match v
        case Nothing => code := cleanup + [ReturnNow([])];
        case Plain(e) => code := if deferStack == [] then [ReturnNow([e])] else [Save([e])] + cleanup + [GiveBack];
        case Tuple(es, hasArray) =>
          code := if hasArray then [Save(es)] + cleanup + [GiveBack] else cleanup + [ReturnNow(es)];
    }

    method CompileList(ss: seq<Stmt>) returns (code: seq<Code>)
      modifies this
      ensures code == Lower(ss, old(deferStack)).0 && deferStack == Lower(ss, old(deferStack)).1
      decreases ss
    {
      code := [];
      for i := 0 to |ss|
        invariant code + Lower(ss[i..], deferStack).0 == Lower(ss, old(deferStack)).0
        invariant Lower(ss[i..], deferStack).1 == Lower(ss, old(deferStack)).1
      {
        assert ss[i..][1..] == ss[i + 1..];
        ghost var was := deferStack;
        var c := CompileStmt(ss[i]);
        assert Lower(ss[i..], was).0 == c + Lower(ss[i + 1..], deferStack).0;
        code := code + c;
      }
      assert code + [] == code;
    }

    /** The body, then the deferred calls once more for the path that falls off the end. */
    method CompileFunction(body: seq<Stmt>) returns (code: seq<Code>)
      modifies this
      ensures code == LowerFunction(body)
    {
      deferStack := [];
      code := CompileList(body);
      var cleanup := EmitCleanup();
      code := code + cleanup;
    }
  }
}
