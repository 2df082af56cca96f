// Which bodies the defer lowering gets right whatever their conditions and deferred calls are: exactly the
// tidy ones.
module DeferShapes {
  import opened DeferLowering

  /** The same body but for conditions and deferred calls. */
  predicate SameShape(a: seq<Stmt>, b: seq<Stmt>)
    decreases a
  {
    |a| == |b| && (a != [] ==> SameShapeOne(a[0], b[0]) && SameShape(a[1..], b[1..]))
  }

  predicate SameShapeOne(a: Stmt, b: Stmt)
    decreases a
  {
    match a
    case Do(_) => a == b
    case Return(_) => a == b
    case Defer(_) => b.Defer?
    case If(_, thn, els) => b.If? && SameShape(thn, b.thn) && SameShape(els, b.els)
    case While(_, body) => b.While? && SameShape(body, b.body)
  }

  /** The emitted code ends in the same state as the run-time stack, or neither ends. */
  ghost predicate SameEnd(body: seq<Stmt>, n: nat, s: State) {
    var c, m := ExecFunction(LowerFunction(body), n, s), RunFunction(body, n, s);
    (m.COutOfFuel? <==> c.COutOfFuel?) && (m.CReturns? && c.CReturns? ==> c.s == m.s)
  }

  ghost predicate AlwaysSameEnd(body: seq<Stmt>) {
    forall b, n: nat, s :: SameShape(body, b) ==> SameEnd(b, n, s)
  }

  lemma {:induction false} ShapeNoDefer(a: seq<Stmt>, b: seq<Stmt>)
    requires SameShape(a, b)
    ensures NoDefer(a) == NoDefer(b) && CanFall(a) == CanFall(b)
    decreases a
  {
    if a != [] {
      ShapeNoDeferOne(a[0], b[0]);
      ShapeNoDefer(a[1..], b[1..]);
    }
  }

  lemma {:induction false} ShapeNoDeferOne(a: Stmt, b: Stmt)
    requires SameShapeOne(a, b)
    ensures NoDeferIn(a) == NoDeferIn(b) && CanFallOne(a) == CanFallOne(b)
    decreases a
  {
    match a
    case If(_, thn, els) => ShapeNoDefer(thn, b.thn); ShapeNoDefer(els, b.els);
    case While(_, body) => ShapeNoDefer(body, b.body);
    case _ =>
  }

  lemma {:induction false} ShapeTidy(a: seq<Stmt>, b: seq<Stmt>)
    requires SameShape(a, b)
    ensures Tidy(a) == Tidy(b)
    decreases a
  {
    if a != [] {
      ShapeTidyOne(a[0], b[0]);
      ShapeNoDeferOne(a[0], b[0]);
      ShapeTidy(a[1..], b[1..]);
    }
  }

  lemma {:induction false} ShapeTidyOne(a: Stmt, b: Stmt)
    requires SameShapeOne(a, b)
    ensures TidyOne(a) == TidyOne(b)
    decreases a
  {
    match a
    case If(_, thn, els) => ShapeNoDefer(thn, b.thn); ShapeNoDefer(els, b.els); ShapeTidy(els, b.els);
    case While(_, body) => ShapeNoDefer(body, b.body);
    case _ =>
  }

  // ---- Bodies of a given shape --------------------------------------------------------------

  /** x = x + 1: cleanup counts its calls. */
  function Tick(): Action { Set("x", Add(Var("x"), Const(1))) }

  /** No condition holds. */
  function Off(ss: seq<Stmt>): seq<Stmt>
    decreases ss
  {
    if ss == [] then [] else [OffOne(ss[0])] + Off(ss[1..])
  }

  function OffOne(st: Stmt): Stmt
    decreases st
  {
    match st
    case Do(_) => st
    case Return(_) => st
    case Defer(_) => Defer(Tick())
    case If(_, thn, els) => If(Const(0), Off(thn), Off(els))
    case While(_, body) => While(Const(0), Off(body))
  }

  /** Where the end can be reached, it is. */
  function Fall(ss: seq<Stmt>): seq<Stmt>
    decreases ss
  {
    if ss == [] then [] else [FallOne(ss[0])] + Fall(ss[1..])
  }

  function FallOne(st: Stmt): Stmt
    decreases st
  {
    match st
    case If(_, thn, els) =>
      if CanFall(thn) then If(Const(1), Fall(thn), Off(els)) else If(Const(0), Off(thn), Fall(els))
    case _ => OffOne(st)
  }

  /** Where the body is not tidy, a way past the defers that the compiler has on its stack. */
  function Skew(ss: seq<Stmt>): seq<Stmt>
    decreases ss
  {
    if ss == [] then []
    else if !TidyOne(ss[0]) then [SkewOne(ss[0])] + Off(ss[1..])
    else [FallOne(ss[0])] + Skew(ss[1..])
  }

  function SkewOne(st: Stmt): Stmt
    decreases st
  {
    match st
    case If(_, thn, els) =>
      if !NoDefer(thn) then If(Const(0), Off(thn), Off(els))
      else if CanFall(thn) && !NoDefer(els) then If(Const(1), Fall(thn), Off(els))
      else If(Const(0), Off(thn), Skew(els))
    case _ => OffOne(st)
  }

  lemma {:induction false} OffShape(ss: seq<Stmt>)
    ensures SameShape(ss, Off(ss)) && Ticking(Off(ss))
    decreases ss
  {
    if ss != [] {
      OffShapeOne(ss[0]);
      OffShape(ss[1..]);
      assert Off(ss)[1..] == Off(ss[1..]);
    }
  }

  lemma {:induction false} OffShapeOne(st: Stmt)
    ensures SameShapeOne(st, OffOne(st)) && TickingOne(OffOne(st))
    decreases st
  {
    match st
    case If(_, thn, els) => OffShape(thn); OffShape(els);
    case While(_, body) => OffShape(body);
    case _ =>
  }

  lemma {:induction false} FallShape(ss: seq<Stmt>)
    ensures SameShape(ss, Fall(ss)) && Ticking(Fall(ss))
    decreases ss
  {
    if ss != [] {
      FallShapeOne(ss[0]);
      FallShape(ss[1..]);
      assert Fall(ss)[1..] == Fall(ss[1..]);
    }
  }

  lemma {:induction false} FallShapeOne(st: Stmt)
    ensures SameShapeOne(st, FallOne(st)) && TickingOne(FallOne(st))
    decreases st
  {
    OffShapeOne(st);
    if st.If? {
      OffShape(st.thn);
      OffShape(st.els);
      FallShape(st.thn);
      FallShape(st.els);
    }
  }

  lemma {:induction false} SkewShape(ss: seq<Stmt>)
    ensures SameShape(ss, Skew(ss)) && Ticking(Skew(ss))
    decreases ss
  {
    if ss != [] {
      SkewShapeOne(ss[0]);
      FallShapeOne(ss[0]);
      OffShape(ss[1..]);
      SkewShape(ss[1..]);
      assert Skew(ss)[1..] == if TidyOne(ss[0]) then Skew(ss[1..]) else Off(ss[1..]);
    }
  }

  lemma {:induction false} SkewShapeOne(st: Stmt)
    ensures SameShapeOne(st, SkewOne(st)) && TickingOne(SkewOne(st))
    decreases st
  {
    OffShapeOne(st);
    if st.If? {
      OffShape(st.thn);
      OffShape(st.els);
      FallShape(st.thn);
      SkewShape(st.els);
    }
  }

  // ---- Counting -----------------------------------------------------------------------------

  /** Loops are off, and deferred calls count. */
  predicate Ticking(ss: seq<Stmt>)
    decreases ss
  {
    ss != [] ==> TickingOne(ss[0]) && Ticking(ss[1..])
  }

  predicate TickingOne(st: Stmt)
    decreases st
  {
    match st
    case Defer(a) => a == Tick()
    case If(_, thn, els) => Ticking(thn) && Ticking(els)
    case While(c, body) => c == Const(0) && Ticking(body)
    case Do(_) => true
    case Return(_) => true
  }

  predicate Ticks(stack: seq<Action>) { forall i :: 0 <= i < |stack| ==> stack[i] == Tick() }

  function X(s: State): int { if "x" in s then s["x"] else 0 }

  lemma TickCounts(s: State)
    ensures X(Perform(Tick(), s)) == X(s) + 1
  {
    assert Eval(Var("x"), s) == X(s) && Eval(Const(1), s) == 1;
  }

  lemma {:induction false} UnwindCounts(stack: seq<Action>, s: State)
    requires Ticks(stack)
    ensures X(Unwind(stack, s)) == X(s) + |stack|
    decreases stack
  {
    if stack != [] {
      TickCounts(s);
      UnwindCounts(stack[..|stack| - 1], Perform(Tick(), s));
    }
  }

  /** Compiling only ever adds to the stack. */
  lemma {:induction false} LowerGrows(ss: seq<Stmt>, stack: seq<Action>)
    ensures |Lower(ss, stack).1| >= |stack| && (!NoDefer(ss) ==> |Lower(ss, stack).1| > |stack|)
    ensures Ticking(ss) && Ticks(stack) ==> Ticks(Lower(ss, stack).1)
    decreases ss
  {
    if ss != [] {
      LowerGrowsOne(ss[0], stack);
      LowerGrows(ss[1..], LowerOne(ss[0], stack).1);
    }
  }

  lemma {:induction false} LowerGrowsOne(st: Stmt, stack: seq<Action>)
    ensures |LowerOne(st, stack).1| >= |stack| && (!NoDeferIn(st) ==> |LowerOne(st, stack).1| > |stack|)
    ensures TickingOne(st) && Ticks(stack) ==> Ticks(LowerOne(st, stack).1)
    decreases st
  {
    match st
    case If(_, thn, els) => LowerGrows(thn, stack); LowerGrows(els, Lower(thn, stack).1);
    case While(_, body) => LowerGrows(body, stack);
    case _ =>
  }

  /** At its exit the run-time stack is shorter than the compiler's. */
  ghost predicate Short(r: Outcome, l: Outcome) {
    !r.OutOfFuel? && !l.OutOfFuel? && |r.stack| < |l.stack| && Ticks(r.stack) && Ticks(l.stack)
  }

  /** A run-time stack that has fallen behind stays behind. */
  lemma {:induction false} StaysBehind(ss: seq<Stmt>, n: nat, s: State, dyn: seq<Action>, stack: seq<Action>)
    requires Ticking(ss) && Ticks(dyn) && Ticks(stack) && |dyn| < |stack|
    ensures Short(Run(ss, n, s, dyn), Lex(ss, n, s, stack))
    decreases ss
  {
    if ss != [] {
      StaysBehindOne(ss[0], n, s, dyn, stack);
      RunAndLexOne(ss[0], n, s, dyn, stack);
      LexOneStack(ss[0], n, s, stack);
      var r := RunOne(ss[0], n, s, dyn);
      if r.Falls? { StaysBehind(ss[1..], n, r.s, r.stack, LowerOne(ss[0], stack).1); }
    }
  }

  lemma {:induction false} StaysBehindOne(st: Stmt, n: nat, s: State, dyn: seq<Action>, stack: seq<Action>)
    requires TickingOne(st) && Ticks(dyn) && Ticks(stack) && |dyn| < |stack|
    ensures Short(RunOne(st, n, s, dyn), LexOne(st, n, s, stack))
    decreases st
  {
    match st
    case If(c, thn, els) =>
      var mid := Lower(thn, stack).1;
      LowerGrows(thn, stack);
      LowerGrows(els, mid);
      if Eval(c, s) != 0 {
        StaysBehind(thn, n, s, dyn, stack);
        LexFalls(thn, n, s, stack);
      } else {
        StaysBehind(els, n, s, dyn, mid);
        LexFalls(els, n, s, mid);
      }
    case While(c, body) => LowerGrows(body, stack);
    case _ =>
  }

  lemma {:induction false} LexOneStack(st: Stmt, n: nat, s: State, stack: seq<Action>)
    ensures var r := LexOne(st, n, s, stack); r.Falls? ==> r.stack == LowerOne(st, stack).1
    decreases n
  {
    if st.While? && Eval(st.c, s) != 0 && n > 0 {
      var r := Lex(st.body, n, s, stack);
      if r.Falls? { LexOneStack(st, n - 1, r.s, stack); }
    }
  }

  // ---- The skewed run -----------------------------------------------------------------------

  lemma {:induction false} FallFalls(ss: seq<Stmt>, n: nat, s: State, stack: seq<Action>)
    requires CanFall(ss)
    ensures Run(Fall(ss), n, s, stack).Falls?
    decreases ss
  {
    if ss != [] {
      FallFallsOne(ss[0], n, s, stack);
      var r := RunOne(FallOne(ss[0]), n, s, stack);
      FallFalls(ss[1..], n, r.s, r.stack);
      assert Fall(ss)[1..] == Fall(ss[1..]);
    }
  }

  lemma {:induction false} FallFallsOne(st: Stmt, n: nat, s: State, stack: seq<Action>)
    requires CanFallOne(st)
    ensures RunOne(FallOne(st), n, s, stack).Falls?
    decreases st
  {
    if st.If? {
      if CanFall(st.thn) { FallFalls(st.thn, n, s, stack); } else { FallFalls(st.els, n, s, stack); }
    }
  }

  /** The skewed body comes to an exit where the compiler's stack is longer than the run-time one. */
  lemma {:induction false} SkewFallsBehind(ss: seq<Stmt>, n: nat, s: State, stack: seq<Action>)
    requires !Tidy(ss) && Ticks(stack)
    ensures Short(Run(Skew(ss), n, s, stack), Lex(Skew(ss), n, s, stack))
    decreases ss
  {
    var b := Skew(ss);
    RunAndLexOne(b[0], n, s, stack, stack);
    LexOneStack(b[0], n, s, stack);
    var r := RunOne(b[0], n, s, stack);
    if TidyOne(ss[0]) {
      FallShapeOne(ss[0]);
      ShapeTidyOne(ss[0], b[0]);
      FallFallsOne(ss[0], n, s, stack);
      TidyStacksOne(b[0], n, s, stack);
      LowerGrowsOne(b[0], stack);
      SkewFallsBehind(ss[1..], n, r.s, r.stack);
      assert b[1..] == Skew(ss[1..]);
    } else {
      SkewFallsBehindOne(ss[0], n, s, stack);
      OffShape(ss[1..]);
      if r.Falls? { StaysBehind(Off(ss[1..]), n, r.s, r.stack, LowerOne(b[0], stack).1); }
      assert b[1..] == Off(ss[1..]);
    }
  }

  lemma {:induction false} SkewFallsBehindOne(st: Stmt, n: nat, s: State, stack: seq<Action>)
    requires !TidyOne(st) && Ticks(stack)
    ensures Short(RunOne(SkewOne(st), n, s, stack), LexOne(SkewOne(st), n, s, stack))
    decreases st
  {
    match st
    case While(_, body) =>
      OffShape(body);
      ShapeNoDefer(body, Off(body));
      LowerGrows(Off(body), stack);
    case If(_, thn, els) =>
      if !NoDefer(thn) {
        PastTheFirst(thn, els, n, s, stack);
      } else if CanFall(thn) && !NoDefer(els) {
        PastTheSecond(thn, els, n, s, stack);
      } else {
        SkewFallsBehind(els, n, s, stack);
        InTheSecond(thn, els, n, s, stack);
      }
  }

  /** The second branch is taken, the first has defers. */
  lemma PastTheFirst(thn: seq<Stmt>, els: seq<Stmt>, n: nat, s: State, stack: seq<Action>)
    requires !NoDefer(thn) && Ticks(stack)
    ensures var b := If(Const(0), Off(thn), Off(els)); Short(RunOne(b, n, s, stack), LexOne(b, n, s, stack))
  {
    OffShape(thn);
    OffShape(els);
    ShapeNoDefer(thn, Off(thn));
    LowerGrows(Off(thn), stack);
    var mid := Lower(Off(thn), stack).1;
    LowerGrows(Off(els), mid);
    StaysBehind(Off(els), n, s, stack, mid);
    LexFalls(Off(els), n, s, mid);
  }

  /** The first branch is taken to its end, the second has defers. */
  lemma PastTheSecond(thn: seq<Stmt>, els: seq<Stmt>, n: nat, s: State, stack: seq<Action>)
    requires NoDefer(thn) && CanFall(thn) && !NoDefer(els) && Ticks(stack)
    ensures var b := If(Const(1), Fall(thn), Off(els)); Short(RunOne(b, n, s, stack), LexOne(b, n, s, stack))
  {
    FallShape(thn);
    OffShape(els);
    ShapeNoDefer(thn, Fall(thn));
    ShapeNoDefer(els, Off(els));
    FallFalls(thn, n, s, stack);
    NoDeferIsTidy(Fall(thn));
    TidyStacks(Fall(thn), n, s, stack);
    LowerKeepsStack(Fall(thn), stack);
    LowerGrows(Off(els), stack);
  }

  /** The second branch is itself not tidy. */
  lemma InTheSecond(thn: seq<Stmt>, els: seq<Stmt>, n: nat, s: State, stack: seq<Action>)
    requires NoDefer(thn) && Ticks(stack) && Short(Run(Skew(els), n, s, stack), Lex(Skew(els), n, s, stack))
    ensures var b := If(Const(0), Off(thn), Skew(els)); Short(RunOne(b, n, s, stack), LexOne(b, n, s, stack))
  {
    OffShape(thn);
    ShapeNoDefer(thn, Off(thn));
    LowerKeepsStack(Off(thn), stack);
    LexFalls(Skew(els), n, s, stack);
  }

  /** A body ends in the same state as with a run-time stack, in all runs and whatever its conditions and deferred
      calls are, if and only if it is tidy. */
  lemma SameEndExactly(body: seq<Stmt>)
    ensures Tidy(body) <==> AlwaysSameEnd(body)
  {
    if Tidy(body) {
      forall b, n: nat, s | SameShape(body, b) ensures SameEnd(b, n, s) {
        ShapeTidy(body, b);
        TidyAgreesExactly(b, n, s);
        LoweringAgreesExactly(b, n, s);
      }
    } else {
      SkewShape(body);
      SkewEndsElsewhere(body, map[]);
    }
  }

  lemma SkewEndsElsewhere(body: seq<Stmt>, s: State)
    requires !Tidy(body)
    ensures !SameEnd(Skew(body), 0, s)
  {
    var b := Skew(body);
    SkewFallsBehind(body, 0, s, []);
    LoweringAgreesExactly(b, 0, s);
    FunctionCorrect(b, 0, s);
    var r, l := Run(b, 0, s, []), Lex(b, 0, s, []);
    UnwindCounts(r.stack, r.s);
    UnwindCounts(l.stack, l.s);
  }
}
