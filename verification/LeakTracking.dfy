// Which variables the leak checker leaves alone, said of the function's statements one by one
// (compiler/compiler.py:1386-1436).
module LeakTracking {
  import opened Wrappers
  import opened LeakChecker

  /** Every statement, those inside ifs and withs too. */
  function Flat(ss: seq<Stmt>): set<Stmt>
    decreases ss, 0
  {
    if ss == [] then {} else {ss[0]} + Inside(ss[0]) + Flat(ss[1..])
  }

  function Inside(st: Stmt): set<Stmt>
    decreases st, 1
  {
    match st
    case If(_, _, _, body, orelse) => Flat(body) + Flat(orelse)
    case With(body) => Flat(body)
    case _ => {}
  }

  /** The statement binds v to what a call of one of the functions returns. */
  predicate Binds(st: Stmt, v: string, fs: set<string>) {
    match st
    case AnnAssign(_, t, init) =>
      t == v && init.Some? && init.value.CallRhs? && init.value.call.name.Some? && init.value.call.name.value in fs
    case Assign(_, ts, value) => Var(v) in ts && value.CallRhs? && value.call.name.Some? && value.call.name.value in fs
    case _ => false
  }

  predicate OneTarget(st: Stmt) { st.Assign? ==> |st.targets| == 1 }

  /** The statement returns v or stores it in a field. */
  predicate LetsGo(st: Stmt, v: string) {
    (st.Return? && st.returned == Some(v)) || (st.Assign? && Field in st.targets && st.value == NameRhs(v))
  }

  /** The call is made by the statement, but not by one inside it. */
  predicate Makes(st: Stmt, c: Call) {
    match st
    case AnnAssign(_, _, init) => init == Some(CallRhs(c))
    case Assign(_, _, value) => value == CallRhs(c)
    case Bare(c0) => c0 == c
    case If(_, _, calls, _, _) => c in calls
    case _ => false
  }

  ghost predicate Made(f: Func, c: Call) { c in f.inner || exists st :: st in Flat(f.body) && Makes(st, c) }

  ghost predicate Allocated(f: Func, v: string, n: Names) { exists st :: st in Flat(f.body) && Binds(st, v, n.allocs) }

  /** A call that passes v on, other than a method call on a variable that owns memory. */
  ghost predicate Passes(f: Func, c: Call, v: string, n: Names) {
    Made(f, c) && Some(v) in c.args && (c.name.Some? || c.receiver.None? || !Allocated(f, c.receiver.value, n))
  }

  predicate FreesOrConsumes(c: Call, n: Names) {
    c.name.Some? && (c.name.value in n.frees || (c.name.value in n.consumers && c.name.value !in n.safe))
  }

  predicate OnlyBorrows(c: Call, n: Names) {
    c.name.Some? && (c.name.value in n.safe || (c.name.value in n.borrows && c.name.value !in n.stores))
  }

  /** A variable is left alone exactly when it is bound to raw memory, or when it owns what an allocator returned and
      leaves the function, is passed to somebody who may keep it, or is passed to nobody who frees or consumes it. */
  ghost predicate LeftAlone(f: Func, v: string, n: Names) {
    || (exists st :: st in Flat(f.body) && Binds(st, v, n.raw) && OneTarget(st))
    || (Allocated(f, v, n)
        && (|| (exists st :: st in Flat(f.body) && LetsGo(st, v))
            || (exists c :: Passes(f, c, v, n) && !FreesOrConsumes(c, n) && !OnlyBorrows(c, n))
            || (forall c :: Passes(f, c, v, n) ==> !FreesOrConsumes(c, n))))
  }

  lemma {:induction false} AssignedIs(ss: seq<Stmt>, fs: set<string>, alone: bool, v: string)
    ensures v in AssignedFrom(ss, fs, alone) <==>
            exists st :: st in Flat(ss) && Binds(st, v, fs) && (alone ==> OneTarget(st))
    decreases ss, 0
  {
    if ss != [] {
      AssignedInIs(ss[0], fs, alone, v);
      AssignedIs(ss[1..], fs, alone, v);
    }
  }

  lemma {:induction false} AssignedInIs(s: Stmt, fs: set<string>, alone: bool, v: string)
    ensures v in AssignedFromIn(s, fs, alone) <==>
            exists st :: st in {s} + Inside(s) && Binds(st, v, fs) && (alone ==> OneTarget(st))
    decreases s, 1
  {
    match s
    case If(_, _, _, body, orelse) => AssignedIs(body, fs, alone, v); AssignedIs(orelse, fs, alone, v);
    case With(body) => AssignedIs(body, fs, alone, v);
    case _ =>
      assert Binds(s, v, fs) && (alone ==> OneTarget(s)) <==> v in AssignedFromIn(s, fs, alone);
      assert s in {s} + Inside(s);
  }

  lemma {:induction false} LeavingIs(ss: seq<Stmt>, v: string)
    ensures v in Leaving(ss) <==> exists st :: st in Flat(ss) && LetsGo(st, v)
    decreases ss, 0
  {
    if ss != [] {
      LeavingByIs(ss[0], v);
      LeavingIs(ss[1..], v);
    }
  }

  lemma {:induction false} LeavingByIs(s: Stmt, v: string)
    ensures v in LeavingBy(s) <==> exists st :: st in {s} + Inside(s) && LetsGo(st, v)
    decreases s, 1
  {
    match s
    case If(_, _, _, body, orelse) => LeavingIs(body, v); LeavingIs(orelse, v);
    case With(body) => LeavingIs(body, v);
    case _ =>
      assert LetsGo(s, v) <==> v in LeavingBy(s);
      assert s in {s} + Inside(s);
  }

  lemma {:induction false} CallsInAre(ss: seq<Stmt>, c: Call)
    ensures c in CallsIn(ss) <==> exists st :: st in Flat(ss) && Makes(st, c)
    decreases ss, 0
  {
    if ss != [] {
      CallsOfAre(ss[0], c);
      CallsInAre(ss[1..], c);
    }
  }

  lemma {:induction false} CallsOfAre(s: Stmt, c: Call)
    ensures c in CallsOf(s) <==> exists st :: st in {s} + Inside(s) && Makes(st, c)
    decreases s, 1
  {
    assert s in {s} + Inside(s);
    match s
    case If(_, _, calls, body, orelse) =>
      CallsInAre(body, c);
      CallsInAre(orelse, c);
      assert Makes(s, c) <==> c in calls;
    case With(body) => CallsInAre(body, c);
    case _ => assert Makes(s, c) <==> c in CallsOf(s);
  }

  /** The tags the checker works with: what frees is builtin, what consumes or stores its arguments takes them over,
      what allocates or produces hands out ownership. */
  lemma TagsExactly(f: Func, n: Names, v: string)
    ensures var tags := TagsOf(f, n);
            && (v in tags.frees <==> v in n.frees)
            && (v in tags.takers <==> v in n.consumers || v in n.stores)
            && (v in tags.owners <==> v in n.allocs || v in n.producers)
            && (v in tags.skip <==> LeftAlone(f, v, n))
  {
    SkippedExactly(f, n, v);
  }

  lemma SkippedExactly(f: Func, n: Names, v: string)
    ensures v in SkipVars(f, n) <==> LeftAlone(f, v, n)
  {
    var own, calls := AssignedFrom(f.body, n.allocs, false), CallsIn(f.body) + f.inner;
    AssignedIs(f.body, n.raw, true, v);
    LeavingIs(f.body, v);
    forall x ensures x in own <==> Allocated(f, x, n) { AssignedIs(f.body, n.allocs, false, x); }
    forall c ensures c in calls && Counts(c, own) && Some(v) in c.args <==> Passes(f, c, v, n) {
      CallsInAre(f.body, c);
    }
    forall c ensures Consumes(c, n) <==> FreesOrConsumes(c, n) { }
  }
}
