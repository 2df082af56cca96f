// Inference of @cold functions: a fixpoint over "every code path terminates coldly", in the Python
// compiler and in its native twin, and what a completed run of an inferred function must do.
module ColdInference {

  /** Bare calls keep their name, or the attribute name for a method call. */
  datatype Stmt =
    | Return
    | Raise
    | Call(name: string, isMethod: bool)
    | If(body: seq<Stmt>, orelse: seq<Stmt>)
    | Loop(body: seq<Stmt>)
    | With(body: seq<Stmt>)
    | Other

  /** A function or method definition; skipped ones (@extern, @compile_time, @trait, @generic) the Python
      compiler never infers. The native one makes no such test. */
  datatype Entry = Entry(name: string, skipped: bool, body: seq<Stmt>)

  const ABORT: string := "abort"

  // ---- The two rules ------------------------------------------------------------------------

  datatype Rule = Python | Native

  predicate AllCold(rule: Rule, ss: seq<Stmt>, cold: set<string>) {
    match rule
    case Python => PyAllCold(ss, cold)
    case Native => NativeAllCold(ss, cold)
  }

  /** _body_is_all_cold of compiler.py: scan until a return or a cold terminal. */
  predicate PyAllCold(ss: seq<Stmt>, cold: set<string>)
    decreases ss
  {
    ss != [] && match ss[0]
                case Return => false
                case Raise => true
                case Call(f, _) => f in cold || f == ABORT || PyAllCold(ss[1..], cold)
                case If(b, e) => (e != [] && PyAllCold(b, cold) && PyAllCold(e, cold)) || PyAllCold(ss[1..], cold)
                case Loop(_) => PyAllCold(ss[1..], cold)
                case With(_) => PyAllCold(ss[1..], cold)
                case Other => PyAllCold(ss[1..], cold)
  }

  /** _body_is_all_cold of native_analysis.c: only the last statement counts, and only plain calls. */
  predicate NativeAllCold(ss: seq<Stmt>, cold: set<string>)
    decreases ss
  {
    ss != [] && match ss[|ss| - 1]
                case Raise => true
                case Call(f, isMethod) => !isMethod && (f == ABORT || f in cold)
                case If(b, e) => e != [] && NativeAllCold(b, cold) && NativeAllCold(e, cold)
                case Return => false
                case Loop(_) => false
                case With(_) => false
                case Other => false
  }

  /** A statement that ends a path coldly, as the Python rule sees it; an if does when both branches have one before
      any return. */
  predicate PyTerminal(st: Stmt, cold: set<string>)
    decreases st, 1
  {
    match st
    case Raise => true
    case Call(f, _) => f == "abort" || f in cold
    case If(b, e) => e != [] && ComesToOne(b, cold) && ComesToOne(e, cold)
    case _ => false
  }

  /** Some statement is terminal, and none before it is a return. */
  predicate ComesToOne(ss: seq<Stmt>, cold: set<string>)
    decreases ss, 0
  {
    exists k :: 0 <= k < |ss| && PyTerminal(ss[k], cold) && forall j :: 0 <= j < k ==> !ss[j].Return?
  }

  lemma {:induction false} PyRuleExactly(ss: seq<Stmt>, cold: set<string>)
    ensures PyAllCold(ss, cold) <==> ComesToOne(ss, cold)
    decreases ss
  {
    if ss != [] {
      PyRuleExactly(ss[1..], cold);
      match ss[0] {
        case If(b, e) => PyRuleExactly(b, cold); PyRuleExactly(e, cold);
        case _ =>
      }
      FirstOrLater(ss, cold);
    }
  }

  /** A statement that ends a body coldly, as the native rule sees it. */
  predicate NativeTerminal(st: Stmt, cold: set<string>)
    decreases st
  {
    st.Raise? || (st.Call? && !st.isMethod && (st.name == "abort" || st.name in cold)) ||
    (st.If? && st.body != [] && st.orelse != []
     && NativeTerminal(st.body[|st.body| - 1], cold) && NativeTerminal(st.orelse[|st.orelse| - 1], cold))
  }

  lemma {:induction false} NativeRuleExactly(ss: seq<Stmt>, cold: set<string>)
    ensures NativeAllCold(ss, cold) <==> ss != [] && NativeTerminal(ss[|ss| - 1], cold)
    decreases ss
  {
    if ss != [] {
      var last := ss[|ss| - 1];
      if last.If? {
        NativeRuleExactly(last.body, cold);
        NativeRuleExactly(last.orelse, cold);
      }
    }
  }

  lemma FirstOrLater(ss: seq<Stmt>, cold: set<string>)
    requires ss != []
    ensures ComesToOne(ss, cold) <==>
            PyTerminal(ss[0], cold) || (!ss[0].Return? && ComesToOne(ss[1..], cold))
  {
    if ComesToOne(ss[1..], cold) && !ss[0].Return? {
      var k :| 0 <= k < |ss[1..]| && PyTerminal(ss[1..][k], cold) && forall j :: 0 <= j < k ==> !ss[1..][j].Return?;
      assert ss[k + 1] == ss[1..][k];
      forall j | 0 <= j < k + 1 ensures !ss[j].Return? {
        if j > 0 { assert ss[j] == ss[1..][j - 1]; }
      }
    }
    if ComesToOne(ss, cold) && !PyTerminal(ss[0], cold) {
      var k :| 0 <= k < |ss| && PyTerminal(ss[k], cold) && forall j :: 0 <= j < k ==> !ss[j].Return?;
      assert ss[1..][k - 1] == ss[k];
      forall j | 0 <= j < k - 1 ensures !ss[1..][j].Return? { assert ss[1..][j] == ss[j + 1]; }
    }
  }

  lemma {:induction false} PyMonotone(ss: seq<Stmt>, a: set<string>, b: set<string>)
    requires a <= b && PyAllCold(ss, a)
    ensures PyAllCold(ss, b)
    decreases ss
  {
    match ss[0]
    case If(t, e) =>
      if e != [] && PyAllCold(t, a) && PyAllCold(e, a) { PyMonotone(t, a, b); PyMonotone(e, a, b); }
      else { PyMonotone(ss[1..], a, b); }
    case Raise =>
    case Call(f, _) => if f !in a && f != ABORT { PyMonotone(ss[1..], a, b); }
    case Loop(_) => PyMonotone(ss[1..], a, b);
    case With(_) => PyMonotone(ss[1..], a, b);
    case Other => PyMonotone(ss[1..], a, b);
  }

  lemma {:induction false} NativeMonotone(ss: seq<Stmt>, a: set<string>, b: set<string>)
    requires a <= b && NativeAllCold(ss, a)
    ensures NativeAllCold(ss, b)
    decreases ss
  {
    match ss[|ss| - 1]
    case If(t, e) => NativeMonotone(t, a, b); NativeMonotone(e, a, b);
    case _ =>
  }

  lemma Monotone(rule: Rule, ss: seq<Stmt>, a: set<string>, b: set<string>)
    requires a <= b && AllCold(rule, ss, a)
    ensures AllCold(rule, ss, b)
  {
    match rule
    case Python => PyMonotone(ss, a, b);
    case Native => NativeMonotone(ss, a, b);
  }

  /** Which definitions the loop looks at. */
  predicate Considered(rule: Rule, e: Entry) { rule == Native || !e.skipped }

  // ---- The fixpoint -------------------------------------------------------------------------

  /** The set holds every function the rule would add to it. */
  ghost predicate Closed(rule: Rule, es: seq<Entry>, cold: set<string>) {
    forall e :: e in es && Considered(rule, e) && AllCold(rule, e.body, cold) ==> e.name in cold
  }

  /** The least closed set holding the declared ones. */
  ghost predicate LeastClosed(rule: Rule, es: seq<Entry>, declared: set<string>, cold: set<string>) {
    && declared <= cold && Closed(rule, es, cold)
    && forall S: set<string> :: declared <= S && Closed(rule, es, S) ==> cold <= S
  }

  /** Every inferred name has a definition that justifies it. */
  ghost predicate Justified(rule: Rule, es: seq<Entry>, declared: set<string>, cold: set<string>) {
    forall f :: f in cold && f !in declared ==>
      exists e :: e in es && e.name == f && Considered(rule, e) && AllCold(rule, e.body, cold)
  }

  ghost function Names(es: seq<Entry>): set<string> { set e | e in es :: e.name }

  method InferCold(rule: Rule, es: seq<Entry>, declared: set<string>) returns (cold: set<string>)
    ensures LeastClosed(rule, es, declared, cold) && Justified(rule, es, declared, cold)
  {
    cold := declared;
    var changed := true;
    while changed
      invariant declared <= cold && Justified(rule, es, declared, cold)
      invariant forall S: set<string> :: declared <= S && Closed(rule, es, S) ==> cold <= S
      invariant !changed ==> Closed(rule, es, cold)
      decreases Names(es) - cold, changed
    {
      changed := false;
      ghost var before := cold;
      for i := 0 to |es|
        invariant before <= cold && declared <= cold && Justified(rule, es, declared, cold)
        invariant forall S: set<string> :: declared <= S && Closed(rule, es, S) ==> cold <= S
        invariant changed <==> cold != before
        invariant changed ==> exists f :: f in Names(es) && f !in before && f in cold
        invariant !changed ==>
          forall j :: 0 <= j < i && Considered(rule, es[j]) && AllCold(rule, es[j].body, cold) ==> es[j].name in cold
      {
        var e := es[i];
        if Considered(rule, e) && e.name !in cold && AllCold(rule, e.body, cold) {
          AddingKeeps(rule, es, declared, cold, e);
          cold := cold + {e.name};
          changed := true;
        }
      }
      if changed {
        ghost var f :| f in Names(es) && f !in before && f in cold;
        assert f in Names(es) - before && f !in Names(es) - cold;
        assert Names(es) - cold < Names(es) - before;
      }
    }
  }

  lemma AddingKeeps(rule: Rule, es: seq<Entry>, declared: set<string>, cold: set<string>, e: Entry)
    requires e in es && Considered(rule, e) && AllCold(rule, e.body, cold) && Justified(rule, es, declared, cold)
    requires forall S: set<string> :: declared <= S && Closed(rule, es, S) ==> cold <= S
    ensures Justified(rule, es, declared, cold + {e.name})
    ensures forall S: set<string> :: declared <= S && Closed(rule, es, S) ==> cold + {e.name} <= S
  {
    forall f | f in cold + {e.name} && f !in declared
      ensures exists d :: d in es && d.name == f && Considered(rule, d) && AllCold(rule, d.body, cold + {e.name})
    {
      var d := e;
      if f != e.name { d :| d in es && d.name == f && Considered(rule, d) && AllCold(rule, d.body, cold); }
      Monotone(rule, d.body, cold, cold + {e.name});
    }
    forall S: set<string> | declared <= S && Closed(rule, es, S)
      ensures cold + {e.name} <= S
    {
      Monotone(rule, e.body, cold, S);
    }
  }

  /** The order in which definitions are visited does not matter. */
  lemma OrderIndependent(rule: Rule, es: seq<Entry>, fs: seq<Entry>, declared: set<string>, a: set<string>,
                         b: set<string>)
    requires forall e :: e in es <==> e in fs
    requires LeastClosed(rule, es, declared, a) && LeastClosed(rule, fs, declared, b)
    ensures a == b
  {
    assert Closed(rule, fs, a) && Closed(rule, es, b);
  }

  // ---- What an inferred function does -------------------------------------------------------

  type Program = map<string, seq<Stmt>>

  /** Some run, with calls nested at most n deep, executes the statements to their end without a raise,
      an abort or a call of a declared @cold function. Calls of unknown functions may do anything. */
  ghost predicate FallsThrough(p: Program, declared: set<string>, n: nat, ss: seq<Stmt>)
    decreases n, ss, 0
  {
    ss == [] || (FallsOne(p, declared, n, ss[0]) && FallsThrough(p, declared, n, ss[1..]))
  }

  ghost predicate FallsOne(p: Program, declared: set<string>, n: nat, s: Stmt)
    decreases n, s, 0
  {
    match s
    case Return => false
    case Raise => false
    case Call(f, isMethod) =>
      isMethod || (f != ABORT && f !in declared && (f in p ==> n > 0 && Completes(p, declared, n - 1, p[f])))
    case If(b, e) => FallsThrough(p, declared, n, b) || FallsThrough(p, declared, n, e)
    case Loop(_) => true
    case With(b) => FallsThrough(p, declared, n, b)
    case Other => true
  }

  /** Some such run reaches a return. */
  ghost predicate Returns(p: Program, declared: set<string>, n: nat, ss: seq<Stmt>)
    decreases n, ss, 0
  {
    ss != [] &&
      (ReturnsOne(p, declared, n, ss[0]) || (FallsOne(p, declared, n, ss[0]) && Returns(p, declared, n, ss[1..])))
  }

  ghost predicate ReturnsOne(p: Program, declared: set<string>, n: nat, s: Stmt)
    decreases n, s, 0
  {
    match s
    case Return => true
    case If(b, e) => Returns(p, declared, n, b) || Returns(p, declared, n, e)
    case Loop(b) => Returns(p, declared, n, b)
    case With(b) => Returns(p, declared, n, b)
    case Raise => false
    case Call(_, _) => false
    case Other => false
  }

  /** A completed run of a body that meets nothing cold. */
  ghost predicate Completes(p: Program, declared: set<string>, n: nat, ss: seq<Stmt>)
    decreases n, ss, 1
  {
    FallsThrough(p, declared, n, ss) || Returns(p, declared, n, ss)
  }

  // ---- Exactly when inferred functions are cold ---------------------------------------------

  /** Some way through the statements passes no raise and no plain call of a cold name or abort. */
  predicate CanFall(ss: seq<Stmt>, cold: set<string>)
    decreases ss
  {
    ss == [] || (CanFallOne(ss[0], cold) && CanFall(ss[1..], cold))
  }

  predicate CanFallOne(s: Stmt, cold: set<string>)
    decreases s
  {
    match s
    case Return => false
    case Raise => false
    case Call(f, isMethod) => isMethod || (f != ABORT && f !in cold)
    case If(b, e) => CanFall(b, cold) || CanFall(e, cold)
    case Loop(_) => true
    case With(b) => CanFall(b, cold)
    case Other => true
  }

  /** Some such way leads to a return. */
  predicate CanReturn(ss: seq<Stmt>, cold: set<string>)
    decreases ss
  {
    ss != [] && (CanReturnOne(ss[0], cold) || (CanFallOne(ss[0], cold) && CanReturn(ss[1..], cold)))
  }

  predicate CanReturnOne(s: Stmt, cold: set<string>)
    decreases s
  {
    match s
    case Return => true
    case If(b, e) => CanReturn(b, cold) || CanReturn(e, cold)
    case Loop(b) => CanReturn(b, cold)
    case With(b) => CanReturn(b, cold)
    case _ => false
  }

  predicate CanComplete(ss: seq<Stmt>, cold: set<string>) { CanFall(ss, cold) || CanReturn(ss, cold) }

  /** Inferred functions have bodies, and none of them can complete by way of functions not judged cold. */
  ghost predicate NoneCanComplete(p: Program, declared: set<string>, cold: set<string>) {
    forall f :: f in cold && f !in declared ==> f in p && !CanComplete(p[f], cold)
  }

  /** No inferred function ever completes without meeting something cold. */
  ghost predicate NoneCompletes(p: Program, declared: set<string>, cold: set<string>) {
    forall f, n: nat :: f in cold && f !in declared ==> f in p && !Completes(p, declared, n, p[f])
  }

  /** Every function that is not judged cold has a run that completes. */
  ghost predicate OthersComplete(p: Program, declared: set<string>, cold: set<string>) {
    forall f :: f in p && f !in cold ==> exists n: nat :: Completes(p, declared, n, p[f])
  }

  lemma {:induction false} RunsAreWays(p: Program, declared: set<string>, cold: set<string>, n: nat, ss: seq<Stmt>)
    requires declared <= cold && NoneCanComplete(p, declared, cold)
    ensures FallsThrough(p, declared, n, ss) ==> CanFall(ss, cold)
    ensures Returns(p, declared, n, ss) ==> CanReturn(ss, cold)
    decreases n, ss, 0
  {
    if ss != [] {
      RunIsWay(p, declared, cold, n, ss[0]);
      RunsAreWays(p, declared, cold, n, ss[1..]);
    }
  }

  lemma {:induction false} RunIsWay(p: Program, declared: set<string>, cold: set<string>, n: nat, s: Stmt)
    requires declared <= cold && NoneCanComplete(p, declared, cold)
    ensures FallsOne(p, declared, n, s) ==> CanFallOne(s, cold)
    ensures ReturnsOne(p, declared, n, s) ==> CanReturnOne(s, cold)
    decreases n, s, 0
  {
    match s
    case Call(f, isMethod) =>
      if f in cold && f !in declared && n > 0 {
        RunsAreWays(p, declared, cold, n - 1, p[f]);
        assert !Completes(p, declared, n - 1, p[f]);
      }
    case If(b, e) => RunsAreWays(p, declared, cold, n, b); RunsAreWays(p, declared, cold, n, e);
    case Loop(b) => RunsAreWays(p, declared, cold, n, b);
    case With(b) => RunsAreWays(p, declared, cold, n, b);
    case _ =>
  }

  /** A run with calls nested at most n deep is one with calls nested at most m deep. */
  lemma {:induction false} DeeperRuns(p: Program, declared: set<string>, n: nat, m: nat, ss: seq<Stmt>)
    requires n <= m
    ensures FallsThrough(p, declared, n, ss) ==> FallsThrough(p, declared, m, ss)
    ensures Returns(p, declared, n, ss) ==> Returns(p, declared, m, ss)
    decreases n, ss, 0
  {
    if ss != [] {
      DeeperRun(p, declared, n, m, ss[0]);
      DeeperRuns(p, declared, n, m, ss[1..]);
    }
  }

  lemma {:induction false} DeeperRun(p: Program, declared: set<string>, n: nat, m: nat, s: Stmt)
    requires n <= m
    ensures FallsOne(p, declared, n, s) ==> FallsOne(p, declared, m, s)
    ensures ReturnsOne(p, declared, n, s) ==> ReturnsOne(p, declared, m, s)
    decreases n, s, 0
  {
    match s
    case Call(f, isMethod) =>
      if f in p && n > 0 {
        DeeperRuns(p, declared, n - 1, m - 1, p[f]);
        assert Completes(p, declared, n - 1, p[f]) ==> Completes(p, declared, m - 1, p[f]);
      }
    case If(b, e) => DeeperRuns(p, declared, n, m, b); DeeperRuns(p, declared, n, m, e);
    case Loop(b) => DeeperRuns(p, declared, n, m, b);
    case With(b) => DeeperRuns(p, declared, n, m, b);
    case _ =>
  }

  /** Where the other functions complete, every way is some run. */
  lemma {:induction false} WaysAreRuns(p: Program, declared: set<string>, cold: set<string>, ss: seq<Stmt>)
    returns (n: nat)
    requires declared <= cold && OthersComplete(p, declared, cold)
    ensures CanFall(ss, cold) ==> FallsThrough(p, declared, n, ss)
    ensures CanReturn(ss, cold) ==> Returns(p, declared, n, ss)
    decreases ss
  {
    if ss == [] {
      n := 0;
    } else {
      var n1 := WayIsRun(p, declared, cold, ss[0]);
      var n2 := WaysAreRuns(p, declared, cold, ss[1..]);
      n := if n1 >= n2 then n1 else n2;
      DeeperRun(p, declared, n1, n, ss[0]);
      DeeperRuns(p, declared, n2, n, ss[1..]);
    }
  }

  lemma {:induction false} WayIsRun(p: Program, declared: set<string>, cold: set<string>, s: Stmt) returns (n: nat)
    requires declared <= cold && OthersComplete(p, declared, cold)
    ensures CanFallOne(s, cold) ==> FallsOne(p, declared, n, s)
    ensures CanReturnOne(s, cold) ==> ReturnsOne(p, declared, n, s)
    decreases s
  {
    match s
    case Call(f, isMethod) =>
      if f in p && f !in cold {
        var m: nat :| Completes(p, declared, m, p[f]);
        n := m + 1;
      } else {
        n := 0;
      }
    case If(b, e) =>
      var n1 := WaysAreRuns(p, declared, cold, b);
      var n2 := WaysAreRuns(p, declared, cold, e);
      n := if n1 >= n2 then n1 else n2;
      DeeperRuns(p, declared, n1, n, b);
      DeeperRuns(p, declared, n2, n, e);
    case Loop(b) => n := WaysAreRuns(p, declared, cold, b);
    case With(b) => n := WaysAreRuns(p, declared, cold, b);
    case _ => n := 0;
  }

  /** The program the definitions make up, when names are unique. */
  ghost predicate Defines(es: seq<Entry>, p: Program) {
    forall e :: e in es ==> e.name in p && p[e.name] == e.body
  }

  /** Where functions not judged cold have completing runs, the inferred functions are really cold exactly when
      none of their bodies offers a way to its end or to a return past every plain call of a cold name. */
  lemma InferredAreColdExactly(rule: Rule, es: seq<Entry>, declared: set<string>, cold: set<string>, p: Program)
    requires declared <= cold && Justified(rule, es, declared, cold) && Defines(es, p)
    requires OthersComplete(p, declared, cold)
    ensures NoneCompletes(p, declared, cold) <==> NoneCanComplete(p, declared, cold)
  {
    forall f | f in cold && f !in declared ensures f in p { }
    if NoneCanComplete(p, declared, cold) { NoneCompletesThen(p, declared, cold); }
    if NoneCompletes(p, declared, cold) {
      forall f | f in cold && f !in declared ensures !CanComplete(p[f], cold) {
        var n := WaysAreRuns(p, declared, cold, p[f]);
        assert !Completes(p, declared, n, p[f]);
      }
    }
  }

  lemma NoneCompletesThen(p: Program, declared: set<string>, cold: set<string>)
    requires declared <= cold && NoneCanComplete(p, declared, cold)
    ensures NoneCompletes(p, declared, cold)
  {
    forall f, n: nat | f in cold && f !in declared ensures !Completes(p, declared, n, p[f]) {
      RunsAreWays(p, declared, cold, n, p[f]);
    }
  }

  // ---- A condition on the source text -------------------------------------------------------

  predicate NoReturn(ss: seq<Stmt>)
    decreases ss
  {
    ss != [] ==> NoReturnIn(ss[0]) && NoReturn(ss[1..])
  }

  predicate NoReturnIn(s: Stmt)
    decreases s
  {
    match s
    case Return => false
    case If(b, e) => NoReturn(b) && NoReturn(e)
    case Loop(b) => NoReturn(b)
    case With(b) => NoReturn(b)
    case Raise => true
    case Call(_, _) => true
    case Other => true
  }

  /** Returns occur only as statements of the list itself, not inside compound statements. */
  predicate ReturnsAtTop(ss: seq<Stmt>) {
    forall i :: 0 <= i < |ss| && !ss[i].Return? ==> NoReturnIn(ss[i])
  }

  /** No method call is mistaken for a cold function of the same bare name. */
  predicate NoLookalikes(ss: seq<Stmt>, cold: set<string>)
    decreases ss
  {
    ss != [] ==> NoLookalike(ss[0], cold) && NoLookalikes(ss[1..], cold)
  }

  predicate NoLookalike(s: Stmt, cold: set<string>)
    decreases s
  {
    match s
    case Call(f, isMethod) => isMethod ==> f !in cold && f != ABORT
    case If(b, e) => NoLookalikes(b, cold) && NoLookalikes(e, cold)
    case Loop(b) => NoLookalikes(b, cold)
    case With(b) => NoLookalikes(b, cold)
    case Return => true
    case Raise => true
    case Other => true
  }

  lemma {:induction false} NoReturnCannotReturn(ss: seq<Stmt>, cold: set<string>)
    requires NoReturn(ss)
    ensures !CanReturn(ss, cold)
    decreases ss
  {
    if ss != [] {
      NoReturnCannotReturnIn(ss[0], cold);
      NoReturnCannotReturn(ss[1..], cold);
    }
  }

  lemma {:induction false} NoReturnCannotReturnIn(s: Stmt, cold: set<string>)
    requires NoReturnIn(s)
    ensures !CanReturnOne(s, cold)
    decreases s
  {
    match s
    case If(b, e) => NoReturnCannotReturn(b, cold); NoReturnCannotReturn(e, cold);
    case Loop(b) => NoReturnCannotReturn(b, cold);
    case With(b) => NoReturnCannotReturn(b, cold);
    case _ =>
  }

  lemma {:induction false} NoReturnAtTop(ss: seq<Stmt>)
    requires NoReturn(ss)
    ensures ReturnsAtTop(ss)
  {
    if ss != [] {
      NoReturnAtTop(ss[1..]);
      forall i | 0 <= i < |ss| && !ss[i].Return? ensures NoReturnIn(ss[i]) {
        if i > 0 { assert ss[i] == ss[1..][i - 1]; }
      }
    }
  }

  lemma {:induction false} ColdCannotComplete(ss: seq<Stmt>, cold: set<string>)
    requires PyAllCold(ss, cold) && ReturnsAtTop(ss) && NoLookalikes(ss, cold)
    ensures !CanComplete(ss, cold)
    decreases ss
  {
    var s := ss[0];
    NoReturnCannotReturnIn(s, cold);
    if s.If? && s.orelse != [] && PyAllCold(s.body, cold) && PyAllCold(s.orelse, cold) {
      NoReturnAtTop(s.body);
      NoReturnAtTop(s.orelse);
      ColdCannotComplete(s.body, cold);
      ColdCannotComplete(s.orelse, cold);
    } else if !s.Raise? && !(s.Call? && (s.name in cold || s.name == ABORT)) {
      forall i | 0 <= i < |ss[1..]| && !ss[1..][i].Return? ensures NoReturnIn(ss[1..][i]) {
        assert ss[1..][i] == ss[i + 1];
      }
      ColdCannotComplete(ss[1..], cold);
    } else {
      assert NoLookalike(s, cold) && !CanFallOne(s, cold);
    }
    assert !CanReturnOne(s, cold) && CanReturn(ss, cold) == (CanFallOne(s, cold) && CanReturn(ss[1..], cold));
  }

  /** Where returns sit only at the top level of bodies and no method call shares its bare name with a cold
      function, no inferred body has such a way, and every completed run of an inferred-cold function meets a raise,
      an abort or a call of a declared @cold function. */
  lemma InferredColdIsCold(es: seq<Entry>, declared: set<string>, cold: set<string>, p: Program)
    requires declared <= cold && Justified(Python, es, declared, cold) && Defines(es, p)
    requires forall e :: e in es ==> ReturnsAtTop(e.body) && NoLookalikes(e.body, cold)
    ensures NoneCanComplete(p, declared, cold) && NoneCompletes(p, declared, cold)
  {
    forall g | g in cold && g !in declared ensures g in p && !CanComplete(p[g], cold) {
      var e :| e in es && e.name == g && Considered(Python, e) && AllCold(Python, e.body, cold);
      ColdCannotComplete(e.body, cold);
    }
    NoneCompletesThen(p, declared, cold);
  }

  /** A return nested in a branch defeats the rule: this body counts as cold, and returns. */
  lemma NestedReturnIsMissed(p: Program)
    ensures var ss := [If([Return], []), Raise]; PyAllCold(ss, {}) && Completes(p, {}, 0, ss)
  {
    var ss := [If([Return], []), Raise];
    assert ss[1..] == [Raise] && Returns(p, {}, 0, [Return]);
    assert ReturnsOne(p, {}, 0, ss[0]);
  }

  // ---- The native twin ----------------------------------------------------------------------

  lemma {:induction false} ColdTailIsCold(ss: seq<Stmt>, cold: set<string>)
    requires ss != [] && NoReturn(ss) && PyAllCold([ss[|ss| - 1]], cold)
    ensures PyAllCold(ss, cold)
  {
    if |ss| == 1 {
      assert ss == [ss[|ss| - 1]];
    } else {
      assert ss[1..][|ss| - 2] == ss[|ss| - 1];
      ColdTailIsCold(ss[1..], cold);
    }
  }

  lemma {:induction false} LastHasNoReturn(ss: seq<Stmt>)
    requires ss != [] && NoReturn(ss)
    ensures NoReturnIn(ss[|ss| - 1])
  {
    if |ss| > 1 { LastHasNoReturn(ss[1..]); }
  }

  lemma {:induction false} NativeImpliesPython(ss: seq<Stmt>, cold: set<string>)
    requires NativeAllCold(ss, cold) && NoReturn(ss)
    ensures PyAllCold(ss, cold)
    decreases ss
  {
    var last := ss[|ss| - 1];
    LastHasNoReturn(ss);
    if last.If? {
      NativeImpliesPython(last.body, cold);
      NativeImpliesPython(last.orelse, cold);
    }
    ColdTailIsCold(ss, cold);
  }

  /** The native rule accepts a definition that the Python compiler passes over or in which it may see a return. */
  predicate NativeOnly(e: Entry, native: set<string>) {
    (e.skipped || !NoReturn(e.body)) && NativeAllCold(e.body, native)
  }

  /** The Python rule accepts a definition that the native one rejects. */
  predicate PythonOnly(e: Entry, py: set<string>, native: set<string>) {
    !e.skipped && PyAllCold(e.body, py) && !NativeAllCold(e.body, native)
  }

  /** The native set is within the Python one exactly when Python also judges cold the definitions that it does
      not look at, or that contain a return, and that the native rule accepts. */
  lemma NativeWithinPythonExactly(es: seq<Entry>, declared: set<string>, py: set<string>, native: set<string>)
    requires LeastClosed(Python, es, declared, py) && LeastClosed(Native, es, declared, native)
    ensures native <= py <==> forall e :: e in es && NativeOnly(e, native) ==> e.name in py
  {
    if forall e :: e in es && NativeOnly(e, native) ==> e.name in py {
      var both := native * py;
      forall e | e in es && NativeAllCold(e.body, both) ensures e.name in both {
        NativeMonotone(e.body, both, native);
        if !e.skipped && NoReturn(e.body) {
          NativeMonotone(e.body, both, py);
          NativeImpliesPython(e.body, py);
        }
      }
      assert Closed(Native, es, both);
    }
  }

  /** The Python set is within the native one exactly when the native compiler also judges cold the definitions
      that the Python rule accepts and the native rule does not. */
  lemma PythonWithinNativeExactly(es: seq<Entry>, declared: set<string>, py: set<string>, native: set<string>)
    requires LeastClosed(Python, es, declared, py) && LeastClosed(Native, es, declared, native)
    ensures py <= native <==> forall e :: e in es && PythonOnly(e, py, native) ==> e.name in native
  {
    if forall e :: e in es && PythonOnly(e, py, native) ==> e.name in native {
      var both := py * native;
      forall e | e in es && !e.skipped && PyAllCold(e.body, both) ensures e.name in both {
        PyMonotone(e.body, both, py);
      }
      assert Closed(Python, es, both);
    }
  }

  /** Both compilers infer the same functions if and only if each judges cold the definitions that only the
      other one's rule accepts. */
  lemma TwinsAgreeExactly(es: seq<Entry>, declared: set<string>, py: set<string>, native: set<string>)
    requires LeastClosed(Python, es, declared, py) && LeastClosed(Native, es, declared, native)
    ensures py == native <==>
            forall e :: e in es ==>
              && (NativeOnly(e, native) ==> e.name in py)
              && (PythonOnly(e, py, native) ==> e.name in native)
  {
    NativeWithinPythonExactly(es, declared, py, native);
    PythonWithinNativeExactly(es, declared, py, native);
  }

  /** A @generic function that only raises: the native compiler infers it, the Python one does not. */
  lemma SkippedIsInferredNatively(f: string, py: set<string>, native: set<string>)
    requires var es := [Entry(f, true, [Raise])]; LeastClosed(Python, es, {}, py) && LeastClosed(Native, es, {}, native)
    ensures f in native && f !in py
  {
    var es := [Entry(f, true, [Raise])];
    assert es[0] in es && NativeAllCold([Raise], native);
    assert Closed(Python, es, {});
  }

  /** Elsewhere the two differ in both directions. */
  lemma TwinsDiffer()
    ensures NativeAllCold([Return, Raise], {}) && !PyAllCold([Return, Raise], {})
    ensures PyAllCold([Raise, Other], {}) && !NativeAllCold([Raise, Other], {})
  {
  }
}
