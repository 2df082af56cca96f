// One path of a function as what happens to a variable on it, read off the statements: acquired, freed, handed
// over, used. What the checker's transfer functions report along the path, said of that list alone.
module LeakEvents {
  import opened Wrappers
  import opened LeakChecker
  import opened LeakExactness

  datatype Event = Acquired(line: nat) | Freed(line: nat) | Handed(line: nat) | Used(line: nat)

  /** Where a path leaves the function, and which variable it returns. */
  datatype Exit = Exit(line: nat, returned: Option<string>)

  // ---- Reading the events -------------------------------------------------------------------

  function CallEvents(c: Call, args: seq<Option<string>>, v: string, tags: Tags): seq<Event> {
    if args == [] then []
    else
      (if args[0] != Some(v) then []
       else if c.name.Some? && c.name.value in tags.frees then [Freed(c.line)]
       else if c.name.Some? && c.name.value in tags.takers then [Handed(c.line)]
       else [Used(c.line)])
      + CallEvents(c, args[1..], v, tags)
  }

  function CallsEvents(cs: seq<Call>, v: string, tags: Tags): seq<Event> {
    if cs == [] then [] else CallEvents(cs[0], cs[0].args, v, tags) + CallsEvents(cs[1..], v, tags)
  }

  function NameEvents(names: set<string>, line: nat, v: string): seq<Event> {
    if v in names then [Used(line)] else []
  }

  function RhsEvents(r: Rhs, line: nat, v: string, tags: Tags): seq<Event> {
    match r
    case CallRhs(c) => CallEvents(c, c.args, v, tags)
    case NameRhs(x) => if x == v then [Used(line)] else []
    case ExprRhs(names) => NameEvents(names, line, v)
  }

  /** A tracked variable becomes owner of what an allocator or a producer returns. */
  function TargetEvents(bound: bool, r: Rhs, line: nat, v: string, tags: Tags): seq<Event> {
    if bound && v !in tags.skip && r.CallRhs? && r.call.name.Some? && r.call.name.value in tags.owners
    then [Acquired(line)] else []
  }

  function SimpleEvents(st: Stmt, v: string, tags: Tags): (seq<Event>, Option<Exit>)
    requires !st.If? && !st.With?
  {
    match st
    case AnnAssign(line, t, init) =>
      (if init.None? then []
       else RhsEvents(init.value, line, v, tags) + TargetEvents(t == v, init.value, line, v, tags), None)
    case Assign(line, ts, value) =>
      (RhsEvents(value, line, v, tags) + TargetEvents(Var(v) in ts, value, line, v, tags), None)
    case Bare(c) => (CallEvents(c, c.args, v, tags), None)
    case Return(line, returned, names) => (NameEvents(names, line, v), Some(Exit(line, returned)))
    case Raise(line) => ([], Some(Exit(line, None)))
    case Other => ([], None)
  }

  /** The events of v along the path with these choices, the exit it comes to, and the choices left. */
  function Events(ss: seq<Stmt>, cs: seq<bool>, v: string, tags: Tags): (seq<Event>, Option<Exit>, seq<bool>)
    decreases ss, 0
  {
    if ss == [] then ([], None, cs)
    else
      var (es, x, cs1) := StepEvents(ss[0], cs, v, tags);
      if x.Some? then (es, x, cs1)
      else
        var (es2, x2, cs2) := Events(ss[1..], cs1, v, tags);
        (es + es2, x2, cs2)
  }

  function StepEvents(st: Stmt, cs: seq<bool>, v: string, tags: Tags): (seq<Event>, Option<Exit>, seq<bool>)
    decreases st, 1
  {
    match st
    case If(line, names, calls, body, orelse) =>
      var (es, x, cs1) :=
        Events(if cs != [] && cs[0] then body else orelse, if cs == [] then [] else cs[1..], v, tags);
      (NameEvents(names, line, v) + CallsEvents(calls, v, tags) + es, x, cs1)
    case With(body) => Events(body, cs, v, tags)
    case _ =>
      var (es, x) := SimpleEvents(st, v, tags);
      (es, x, cs)
  }

  // ---- What they mean -----------------------------------------------------------------------

  predicate FreedBefore(es: seq<Event>, k: nat) { exists j :: 0 <= j < k && j < |es| && es[j].Freed? }

  /** At k the variable is freed, handed over or used although it was freed earlier on the path. */
  predicate Fault(es: seq<Event>, k: nat) { k < |es| && !es[k].Acquired? && FreedBefore(es, k) }

  function FaultReport(e: Event, v: string): Report {
    Report(if e.Freed? then DoubleFree else UseAfterFree, e.line, v)
  }

  /** The variable was acquired, and since then not freed or handed over, unless after an earlier free. */
  predicate Owning(es: seq<Event>) { exists k :: 0 <= k < |es| && es[k].Acquired? && HeldFrom(es, k) }

  predicate HeldFrom(es: seq<Event>, k: nat) {
    forall j :: k < j < |es| && (es[j].Freed? || es[j].Handed?) ==> FreedBefore(es, j)
  }

  /** What is reported about v on a path with these events and this exit, all of it and nothing else. */
  predicate Reported(r: Report, v: string, es: seq<Event>, exit: Exit) {
    && r.v == v
    && match r.kind
       case Leak => r.line == exit.line && Owning(es) && exit.returned != Some(v)
       case DoubleFree => exists k :: 0 <= k < |es| && es[k] == Freed(r.line) && FreedBefore(es, k)
       case UseAfterFree =>
         exists k :: 0 <= k < |es| && (es[k] == Handed(r.line) || es[k] == Used(r.line)) && FreedBefore(es, k)
  }

  // ---- One event more -----------------------------------------------------------------------

  function Faults(es: seq<Event>, v: string): set<Report> {
    set k | 0 <= k < |es| && Fault(es, k) :: FaultReport(es[k], v)
  }

  lemma FreedMore(es: seq<Event>, e: Event)
    ensures FreedBefore(es + [e], |es| + 1) <==> FreedBefore(es, |es|) || e.Freed?
    ensures forall k: nat :: k <= |es| ==> (FreedBefore(es + [e], k) <==> FreedBefore(es, k))
  {
    forall k: nat | k <= |es| ensures FreedBefore(es + [e], k) <==> FreedBefore(es, k) {
      if FreedBefore(es, k) {
        var j :| 0 <= j < k && j < |es| && es[j].Freed?;
        assert (es + [e])[j].Freed?;
      }
    }
    if e.Freed? { assert (es + [e])[|es|].Freed?; }
    if FreedBefore(es, |es|) {
      var j :| 0 <= j < |es| && es[j].Freed?;
      assert (es + [e])[j].Freed?;
    }
  }

  lemma FaultsMore(es: seq<Event>, e: Event, v: string)
    ensures Faults(es + [e], v) ==
            Faults(es, v) + if !e.Acquired? && FreedBefore(es, |es|) then {FaultReport(e, v)} else {}
  {
    var all := es + [e];
    FreedMore(es, e);
    forall r ensures r in Faults(all, v) <==>
                     r in Faults(es, v) || (!e.Acquired? && FreedBefore(es, |es|) && r == FaultReport(e, v))
    {
      if r in Faults(es, v) {
        var k :| 0 <= k < |es| && Fault(es, k) && FaultReport(es[k], v) == r;
        assert all[k] == es[k] && Fault(all, k);
      }
      if r in Faults(all, v) {
        var k :| 0 <= k < |all| && Fault(all, k) && FaultReport(all[k], v) == r;
        if k < |es| { assert Fault(es, k) && all[k] == es[k]; }
      }
      if !e.Acquired? && FreedBefore(es, |es|) && r == FaultReport(e, v) { assert Fault(all, |es|); }
    }
  }

  lemma OwningMore(es: seq<Event>, e: Event)
    ensures Owning(es + [e]) <==>
            e.Acquired? || (Owning(es) && (e.Used? || FreedBefore(es, |es|)))
  {
    var all := es + [e];
    FreedMore(es, e);
    if e.Acquired? { assert all[|es|].Acquired? && HeldFrom(all, |es|); }
    if Owning(es) && (e.Used? || FreedBefore(es, |es|)) {
      var k :| 0 <= k < |es| && es[k].Acquired? && HeldFrom(es, k);
      assert all[k].Acquired? && HeldFrom(all, k);
    }
    if Owning(all) && !e.Acquired? {
      var k :| 0 <= k < |all| && all[k].Acquired? && HeldFrom(all, k);
      assert es[k].Acquired? && HeldFrom(es, k) by {
        forall j | k < j < |es| && (es[j].Freed? || es[j].Handed?) ensures FreedBefore(es, j) {
          assert all[j] == es[j];
        }
      }
      assert all[|es|] == e;
    }
  }

  // ---- The transfer functions follow the events ---------------------------------------------

  /** What a state says of v is what the events so far say. */
  ghost predicate Knows(s: State, es: seq<Event>, v: string) {
    (v in s.freed <==> FreedBefore(es, |es|)) && (v in s.live <==> Owning(es))
  }

  /** After more events the state knows them too, and what was reported about v is their faults. */
  ghost predicate Follows(es: seq<Event>, more: seq<Event>, s: State, rs: set<Report>, v: string) {
    Knows(s, es + more, v) && Faults(es, v) + About(v, rs) == Faults(es + more, v)
  }

  lemma NoEvent(es: seq<Event>, s: State, rs: set<Report>, v: string)
    requires Knows(s, es, v) && About(v, rs) == {}
    ensures Follows(es, [], s, rs, v)
  {
    assert es + [] == es;
  }

  lemma Then(es: seq<Event>, a: seq<Event>, b: seq<Event>, s: State, t: State, ra: set<Report>, rb: set<Report>,
             v: string)
    requires Follows(es, a, s, ra, v) && Follows(es + a, b, t, rb, v)
    ensures Follows(es, a + b, t, ra + rb, v)
  {
    Regroup(es, a, b);
    AboutBoth(v, ra, rb);
  }

  lemma OneEvent(es: seq<Event>, e: Event, s: State, t: State, rs: set<Report>, v: string)
    requires Knows(s, es, v)
    requires v in t.freed <==> v in s.freed || e.Freed?
    requires v in t.live <==> e.Acquired? || (v in s.live && (e.Used? || v in s.freed))
    requires About(v, rs) == if !e.Acquired? && v in s.freed then {FaultReport(e, v)} else {}
    ensures Follows(es, [e], t, rs, v)
  {
    FreedMore(es, e);
    FaultsMore(es, e, v);
    OwningMore(es, e);
  }

  lemma ArgFollows(c: Call, x: string, s: State, es: seq<Event>, v: string, tags: Tags)
    requires Knows(s, es, v)
    ensures var (t, rs) := Arg(c, x, s, tags); Follows(es, CallEvents(c, [Some(x)], v, tags), t, rs, v)
  {
    var (t, rs) := Arg(c, x, s, tags);
    assert [Some(x)][1..] == [];
    if x == v {
      var e := CallEvents(c, [Some(x)], v, tags)[0];
      assert CallEvents(c, [Some(x)], v, tags) == [e];
      OneEvent(es, e, s, t, rs, v);
    } else {
      NoEvent(es, t, rs, v);
    }
  }

  lemma {:induction false} CallFollows(c: Call, args: seq<Option<string>>, s: State, es: seq<Event>, v: string,
                                       tags: Tags)
    requires Knows(s, es, v)
    ensures var (t, rs) := DischargeArgs(c, args, s, tags); Follows(es, CallEvents(c, args, v, tags), t, rs, v)
    decreases |args|
  {
    if args == [] {
      NoEvent(es, s, {}, v);
    } else {
      var first := CallEvents(c, args[..1], v, tags);
      var (s1, r1) := if args[0].Some? then Arg(c, args[0].value, s, tags) else (s, {});
      FirstArg(c, args, v, tags);
      if args[0].Some? {
        ArgFollows(c, args[0].value, s, es, v, tags);
        assert args[..1] == [Some(args[0].value)];
      } else {
        NoEvent(es, s, {}, v);
      }
      CallFollows(c, args[1..], s1, es + first, v, tags);
      var (t, r2) := DischargeArgs(c, args[1..], s1, tags);
      Then(es, first, CallEvents(c, args[1..], v, tags), s1, t, r1, r2, v);
    }
  }

  lemma FirstArg(c: Call, args: seq<Option<string>>, v: string, tags: Tags)
    requires args != []
    ensures CallEvents(c, args, v, tags) == CallEvents(c, args[..1], v, tags) + CallEvents(c, args[1..], v, tags)
    ensures args[0] == None ==> CallEvents(c, args[..1], v, tags) == []
  {
    assert args[..1][1..] == [] && args[..1][0] == args[0];
  }

  lemma {:induction false} CallsFollow(cs: seq<Call>, s: State, es: seq<Event>, v: string, tags: Tags)
    requires Knows(s, es, v)
    ensures var (t, rs) := DischargeAll(cs, s, tags); Follows(es, CallsEvents(cs, v, tags), t, rs, v)
    decreases |cs|
  {
    if cs == [] {
      NoEvent(es, s, {}, v);
    } else {
      var first := CallEvents(cs[0], cs[0].args, v, tags);
      var (s1, r1) := Discharge(cs[0], s, tags);
      CallFollows(cs[0], cs[0].args, s, es, v, tags);
      CallsFollow(cs[1..], s1, es + first, v, tags);
      var (t, r2) := DischargeAll(cs[1..], s1, tags);
      Then(es, first, CallsEvents(cs[1..], v, tags), s1, t, r1, r2, v);
    }
  }

  lemma UsesFollow(names: set<string>, line: nat, s: State, es: seq<Event>, v: string)
    requires Knows(s, es, v)
    ensures Follows(es, NameEvents(names, line, v), s, Uses(names, line, s), v)
  {
    if v in names {
      OneEvent(es, Used(line), s, s, Uses(names, line, s), v);
    } else {
      NoEvent(es, s, Uses(names, line, s), v);
    }
  }

  lemma RhsFollows(r: Rhs, line: nat, s: State, es: seq<Event>, v: string, tags: Tags)
    requires Knows(s, es, v)
    ensures var (t, rs) := Value(r, line, s, tags); Follows(es, RhsEvents(r, line, v, tags), t, rs, v)
  {
    match r
    case CallRhs(c) => CallFollows(c, c.args, s, es, v, tags);
    case NameRhs(x) =>
      UsesFollow({x}, line, s, es, v);
      assert NameEvents({x}, line, v) == RhsEvents(r, line, v, tags);
    case ExprRhs(names) => UsesFollow(names, line, s, es, v);
  }

  lemma {:induction false} AcquireIs(targets: seq<Target>, line: nat, owned: bool, s: State, v: string, tags: Tags)
    ensures var t := Acquire(targets, line, owned, s, tags);
            && (v in t.live <==> v in s.live || (owned && Var(v) in targets && v !in tags.skip))
            && t.freed == s.freed
  {
    if targets != [] {
      var x := targets[0];
      var s1 := if owned && x.Var? && x.x !in tags.skip then s.(live := s.live[x.x := line]) else s;
      AcquireIs(targets[1..], line, owned, s1, v, tags);
      assert Var(v) in targets <==> Var(v) == x || Var(v) in targets[1..];
    }
  }

  lemma TargetsFollow(targets: seq<Target>, r: Rhs, line: nat, s: State, es: seq<Event>, v: string, tags: Tags)
    requires Knows(s, es, v)
    ensures Follows(es, TargetEvents(Var(v) in targets, r, line, v, tags),
                    Acquire(targets, line, Owned(r, tags), s, tags), {}, v)
  {
    var t := Acquire(targets, line, Owned(r, tags), s, tags);
    AcquireIs(targets, line, Owned(r, tags), s, v, tags);
    if Owned(r, tags) && Var(v) in targets && v !in tags.skip {
      OneEvent(es, Acquired(line), s, t, {}, v);
    } else {
      NoEvent(es, t, {}, v);
    }
  }

  lemma AssignFollows(targets: seq<Target>, bound: bool, r: Rhs, line: nat, s: State, es: seq<Event>, v: string,
                      tags: Tags)
    requires Knows(s, es, v) && (bound <==> Var(v) in targets)
    ensures var (s1, rs) := Value(r, line, s, tags);
            Follows(es, RhsEvents(r, line, v, tags) + TargetEvents(bound, r, line, v, tags),
                    Acquire(targets, line, Owned(r, tags), s1, tags), rs, v)
  {
    var (s1, rs) := Value(r, line, s, tags);
    var a, b := RhsEvents(r, line, v, tags), TargetEvents(bound, r, line, v, tags);
    RhsFollows(r, line, s, es, v, tags);
    TargetsFollow(targets, r, line, s1, es + a, v, tags);
    Then(es, a, b, s1, Acquire(targets, line, Owned(r, tags), s1, tags), rs, {}, v);
    assert rs + {} == rs;
  }

  function ExitLeak(es: seq<Event>, x: Exit, v: string): set<Report> {
    if Owning(es) && x.returned != Some(v) then {Report(Leak, x.line, v)} else {}
  }

  /** The same at the end of a step that may leave the function. */
  ghost predicate StepFollows(es: seq<Event>, more: seq<Event>, x: Option<Exit>, o: Option<State>, rs: set<Report>,
                              v: string)
  {
    match x
    case None => o.Some? && Follows(es, more, o.value, rs, v)
    case Some(exit) =>
      o.None? && Faults(es, v) + About(v, rs) == Faults(es + more, v) + ExitLeak(es + more, exit, v)
  }

  lemma LeaksAre(line: nat, s: State, returned: Option<string>, es: seq<Event>, v: string)
    requires Knows(s, es, v)
    ensures About(v, Leaks(line, s, returned)) == ExitLeak(es, Exit(line, returned), v)
  {
  }

  lemma ExitFollows(es: seq<Event>, more: seq<Event>, s: State, rs: set<Report>, x: Exit, v: string)
    requires Follows(es, more, s, rs, v)
    ensures StepFollows(es, more, Some(x), None, rs + Leaks(x.line, s, x.returned), v)
  {
    LeaksAre(x.line, s, x.returned, es + more, v);
    AboutBoth(v, rs, Leaks(x.line, s, x.returned));
  }

  lemma SimpleFollows(st: Stmt, s: State, es: seq<Event>, v: string, tags: Tags)
    requires Knows(s, es, v) && !st.If? && !st.With?
    ensures var (o, rs) := Simple(st, s, tags);
            var (more, x) := SimpleEvents(st, v, tags);
            StepFollows(es, more, x, o, rs, v)
  {
    match st
    case AnnAssign(line, t, init) =>
      if init.None? {
        NoEvent(es, s, {}, v);
      } else {
        assert Var(v) in [Var(t)] <==> t == v;
        AssignFollows([Var(t)], t == v, init.value, line, s, es, v, tags);
      }
    case Assign(line, ts, value) => AssignFollows(ts, Var(v) in ts, value, line, s, es, v, tags);
    case Bare(c) => CallFollows(c, c.args, s, es, v, tags);
    case Return(line, returned, names) =>
      UsesFollow(names, line, s, es, v);
      ExitFollows(es, NameEvents(names, line, v), s, Uses(names, line, s), Exit(line, returned), v);
    case Raise(line) =>
      NoEvent(es, s, {}, v);
      ExitFollows(es, [], s, {}, Exit(line, None), v);
      assert {} + Leaks(line, s, None) == Leaks(line, s, None);
    case Other => NoEvent(es, s, {}, v);
  }

  lemma ThenStep(es: seq<Event>, a: seq<Event>, b: seq<Event>, x: Option<Exit>, s: State, o: Option<State>,
                 ra: set<Report>, rb: set<Report>, v: string)
    requires Follows(es, a, s, ra, v) && StepFollows(es + a, b, x, o, rb, v)
    ensures StepFollows(es, a + b, x, o, ra + rb, v)
  {
    Regroup(es, a, b);
    AboutBoth(v, ra, rb);
  }

  lemma {:induction false} PathFollows(ss: seq<Stmt>, s: State, cs: seq<bool>, es: seq<Event>, v: string, tags: Tags)
    requires Knows(s, es, v)
    ensures var (o, rs, cs1) := PathBody(ss, s, cs, tags);
            var (more, x, cs2) := Events(ss, cs, v, tags);
            cs1 == cs2 && StepFollows(es, more, x, o, rs, v)
    decreases ss, 0
  {
    if ss == [] {
      NoEvent(es, s, {}, v);
    } else {
      PathStepFollows(ss[0], s, cs, es, v, tags);
      var (o, ra, cs1) := PathStep(ss[0], s, cs, tags);
      var (a, x, _) := StepEvents(ss[0], cs, v, tags);
      if o.Some? {
        PathFollows(ss[1..], o.value, cs1, es + a, v, tags);
        var (o2, rb, _) := PathBody(ss[1..], o.value, cs1, tags);
        var (b, x2, _) := Events(ss[1..], cs1, v, tags);
        ThenStep(es, a, b, x2, o.value, o2, ra, rb, v);
      }
    }
  }

  lemma {:induction false} PathStepFollows(st: Stmt, s: State, cs: seq<bool>, es: seq<Event>, v: string, tags: Tags)
    requires Knows(s, es, v)
    ensures var (o, rs, cs1) := PathStep(st, s, cs, tags);
            var (more, x, cs2) := StepEvents(st, cs, v, tags);
            cs1 == cs2 && StepFollows(es, more, x, o, rs, v)
    decreases st, 1
  {
    if st.If? {
      var rest := if cs == [] then [] else cs[1..];
      var branch := if cs != [] && cs[0] then st.body else st.orelse;
      var names, calls := NameEvents(st.testNames, st.line, v), CallsEvents(st.testCalls, v, tags);
      var (s1, r1) := DischargeAll(st.testCalls, s, tags);
      UsesFollow(st.testNames, st.line, s, es, v);
      CallsFollow(st.testCalls, s, es + names, v, tags);
      Then(es, names, calls, s, s1, Uses(st.testNames, st.line, s), r1, v);
      PathFollows(branch, s1, rest, es + (names + calls), v, tags);
      var (o, r2, _) := PathBody(branch, s1, rest, tags);
      var (b, x, _) := Events(branch, rest, v, tags);
      ThenStep(es, names + calls, b, x, s1, o, Uses(st.testNames, st.line, s) + r1, r2, v);
    } else if st.With? {
      PathFollows(st.body, s, cs, es, v, tags);
    } else {
      SimpleFollows(st, s, es, v, tags);
    }
  }

  // ---- The account is exact -----------------------------------------------------------------

  lemma FaultsAre(es: seq<Event>, v: string, r: Report)
    requires r.v == v
    ensures r in Faults(es, v) <==> r.kind != Leak && Reported(r, v, es, Exit(0, None))
  {
    if r in Faults(es, v) {
      var k :| 0 <= k < |es| && Fault(es, k) && FaultReport(es[k], v) == r;
      assert es[k] == Freed(r.line) || es[k] == Handed(r.line) || es[k] == Used(r.line);
    }
    if r.kind == DoubleFree && Reported(r, v, es, Exit(0, None)) {
      var k :| 0 <= k < |es| && es[k] == Freed(r.line) && FreedBefore(es, k);
      assert Fault(es, k);
    }
    if r.kind == UseAfterFree && Reported(r, v, es, Exit(0, None)) {
      var k :| 0 <= k < |es| && (es[k] == Handed(r.line) || es[k] == Used(r.line)) && FreedBefore(es, k);
      assert Fault(es, k);
    }
  }

  /** Along a path the checker reports exactly what the events of the variable call for: a leak where the path leaves
      if it still owns the variable and does not return it, and every free, hand-over or use after a free. */
  lemma PathReportsExactly(body: seq<Stmt>, end: nat, cs: seq<bool>, tags: Tags, r: Report)
    ensures var (es, x, _) := Events(body, cs, r.v, tags);
            r in CheckPath(body, end, cs, tags) <==>
            Reported(r, r.v, es, if x.Some? then x.value else Exit(end, None))
  {
    var s, v := State(map[], map[]), r.v;
    PathFollows(body, s, cs, [], v, tags);
    var (es, x, _) := Events(body, cs, v, tags);
    var (o, rs, _) := PathBody(body, s, cs, tags);
    var exit := if x.Some? then x.value else Exit(end, None);
    assert [] + es == es;
    if x.None? { ExitFollows([], es, o.value, rs, exit, v); }
    assert Faults([], v) == {};
    assert About(v, CheckPath(body, end, cs, tags)) == Faults(es, v) + ExitLeak(es, exit, v);
    assert r in CheckPath(body, end, cs, tags) <==> r in About(v, CheckPath(body, end, cs, tags));
    FaultsAre(es, v, r);
  }

  /** A path's events of v and its exit. */
  predicate PathReports(body: seq<Stmt>, end: nat, cs: seq<bool>, tags: Tags, r: Report) {
    var (es, x, _) := Events(body, cs, r.v, tags);
    Reported(r, r.v, es, if x.Some? then x.value else Exit(end, None))
  }

  /** What the checker prints: every report that some path's events call for, and nothing else but leaks. */
  lemma PrintedReports(body: seq<Stmt>, end: nat, tags: Tags, r: Report)
    ensures (exists cs :: PathReports(body, end, cs, tags, r)) ==> r in Check(body, end, tags)
    ensures WithsGoOn(body) && r.kind != Leak && r in Check(body, end, tags) ==>
              exists cs :: PathReports(body, end, cs, tags, r)
  {
    if cs: seq<bool> :| PathReports(body, end, cs, tags, r) {
      PathReportsExactly(body, end, cs, tags, r);
      MergingMissesNothing(body, end, cs, tags);
    }
    if WithsGoOn(body) && r.kind != Leak && r in Check(body, end, tags) {
      OnlyLeaksAreSpurious(body, end, r, tags);
      var cs: seq<bool> :| r in CheckPath(body, end, cs, tags);
      PathReportsExactly(body, end, cs, tags, r);
      assert PathReports(body, end, cs, tags, r);
    }
  }

  // ---- Acquired again after a free ----------------------------------------------------------

  /** At k the variable is touched although it was freed and not acquired since. */
  predicate RealFault(es: seq<Event>, k: nat) {
    k < |es| && !es[k].Acquired? && exists j :: 0 <= j < k && es[j].Freed? && NoneAcquired(es, j, k)
  }

  predicate NoneAcquired(es: seq<Event>, j: nat, k: nat) { forall i :: j < i < k && i < |es| ==> !es[i].Acquired? }

  predicate NoneFreed(es: seq<Event>, j: nat, k: nat) { forall i :: j < i < k && i < |es| ==> !es[i].Freed? }

  /** Acquired, and neither freed nor handed over since. */
  predicate RealOwning(es: seq<Event>) {
    exists k :: 0 <= k < |es| && es[k].Acquired? && forall j :: k < j < |es| ==> es[j].Acquired? || es[j].Used?
  }

  lemma {:induction false} LastFree(es: seq<Event>, k: nat) returns (j: nat)
    requires k <= |es| && FreedBefore(es, k)
    ensures j < k && es[j].Freed? && NoneFreed(es, j, k)
  {
    if es[k - 1].Freed? {
      j := k - 1;
    } else {
      j := LastFree(es, k - 1);
    }
  }

  /** The checker never takes a variable off its list of freed ones: a fault it reports is not one exactly when
      the variable was acquired again and not freed since. */
  lemma FaultIsReal(es: seq<Event>, k: nat)
    requires Fault(es, k)
    ensures RealFault(es, k) <==> !exists i :: 0 <= i < k && es[i].Acquired? && NoneFreed(es, i, k)
  {
    var j := LastFree(es, k);
    if !RealFault(es, k) {
      assert !NoneAcquired(es, j, k);
      var i :| j < i < k && es[i].Acquired?;
      assert NoneFreed(es, i, k);
    }
  }

  /** On a path without an acquisition after a free, the faults and the leak reported are the real ones. */
  lemma WithoutReuseAllIsReal(es: seq<Event>)
    requires forall i, j :: 0 <= i < j < |es| && es[i].Freed? ==> !es[j].Acquired?
    ensures forall k: nat :: Fault(es, k) <==> RealFault(es, k)
    ensures Owning(es) <==> RealOwning(es)
  {
    forall k: nat ensures Fault(es, k) <==> RealFault(es, k) {
      if Fault(es, k) {
        var j :| 0 <= j < k && es[j].Freed?;
        assert NoneAcquired(es, j, k);
      }
    }
    if Owning(es) {
      var k :| 0 <= k < |es| && es[k].Acquired? && HeldFrom(es, k);
      NothingSince(es, k);
    }
    if RealOwning(es) {
      var k :| 0 <= k < |es| && es[k].Acquired? && forall j :: k < j < |es| ==> es[j].Acquired? || es[j].Used?;
      assert HeldFrom(es, k);
    }
  }

  lemma {:induction false} NothingSince(es: seq<Event>, k: nat)
    requires k < |es| && es[k].Acquired? && HeldFrom(es, k)
    requires forall i, j :: 0 <= i < j < |es| && es[i].Freed? ==> !es[j].Acquired?
    ensures forall j :: k < j < |es| ==> es[j].Acquired? || es[j].Used?
  {
    forall j | k < j < |es| ensures es[j].Acquired? || es[j].Used? { NothingAt(es, k, j); }
  }

  lemma {:induction false} NothingAt(es: seq<Event>, k: nat, j: nat)
    requires k < j < |es| && es[k].Acquired? && HeldFrom(es, k)
    requires forall i, j :: 0 <= i < j < |es| && es[i].Freed? ==> !es[j].Acquired?
    ensures es[j].Acquired? || es[j].Used?
    decreases j
  {
    if FreedBefore(es, j) {
      var i :| 0 <= i < j && es[i].Freed?;
      if i > k { NothingAt(es, k, i); }
    }
  }

  /** x = list_new(); list_free(x); x = list_new(); list_free(x) */
  function Reused(): seq<Stmt> {
    [Assign(1, [Var("x")], CallRhs(New(1))), Bare(Free(2)), Assign(3, [Var("x")], CallRhs(New(3))), Bare(Free(4))]
  }

  function New(line: nat): Call { Call(line, Some("list_new"), None, []) }

  function Free(line: nat): Call { Call(line, Some("list_free"), None, [Some("x")]) }

  lemma ReusedEvents(cs: seq<bool>, tags: Tags)
    requires "list_free" in tags.frees && "list_new" in tags.owners && "x" !in tags.skip
    ensures Events(Reused(), cs, "x", tags) == ([Acquired(1), Freed(2), Acquired(3), Freed(4)], None, cs)
  {
    var b := Reused();
    NewEvents(1, cs, tags);
    FreeEvents(2, tags);
    NewEvents(3, cs, tags);
    FreeEvents(4, tags);
    FirstEvents(b[3], [], cs, [Freed(4)], tags);
    FirstEvents(b[2], [b[3]], cs, [Acquired(3)], tags);
    FirstEvents(b[1], [b[2], b[3]], cs, [Freed(2)], tags);
    FirstEvents(b[0], [b[1], b[2], b[3]], cs, [Acquired(1)], tags);
    assert [b[2]] + [b[3]] == [b[2], b[3]] && [b[1]] + [b[2], b[3]] == [b[1], b[2], b[3]];
    assert b == [b[0]] + [b[1], b[2], b[3]] && [b[3]] + [] == [b[3]];
    assert Events([b[3]], cs, "x", tags) == ([Freed(4)], None, cs) by { assert [Freed(4)] + [] == [Freed(4)]; }
    assert [Acquired(1)] + ([Freed(2)] + ([Acquired(3)] + [Freed(4)])) ==
           [Acquired(1), Freed(2), Acquired(3), Freed(4)];
  }

  lemma FirstEvents(st: Stmt, rest: seq<Stmt>, cs: seq<bool>, es: seq<Event>, tags: Tags)
    requires StepEvents(st, cs, "x", tags) == (es, None, cs)
    ensures Events([st] + rest, cs, "x", tags) ==
            (es + Events(rest, cs, "x", tags).0, Events(rest, cs, "x", tags).1, Events(rest, cs, "x", tags).2)
  {
    assert ([st] + rest)[1..] == rest;
  }

  lemma NewEvents(line: nat, cs: seq<bool>, tags: Tags)
    requires "list_new" in tags.owners && "x" !in tags.skip
    ensures StepEvents(Assign(line, [Var("x")], CallRhs(New(line))), cs, "x", tags) == ([Acquired(line)], None, cs)
  {
    assert Var("x") in [Var("x")];
    assert RhsEvents(CallRhs(New(line)), line, "x", tags) == [];
    assert [] + [Acquired(line)] == [Acquired(line)];
  }

  lemma FreeEvents(line: nat, tags: Tags)
    requires "list_free" in tags.frees
    ensures CallEvents(Free(line), Free(line).args, "x", tags) == [Freed(line)]
  {
    assert [Some("x")][1..] == [];
  }

  /** Both frees are of a list of their own, yet the second is reported, and a leak as well. */
  lemma ReusedIsReported(cs: seq<bool>, tags: Tags)
    requires "list_free" in tags.frees && "list_new" in tags.owners && "x" !in tags.skip
    ensures Report(DoubleFree, 4, "x") in CheckPath(Reused(), 5, cs, tags)
    ensures Report(Leak, 5, "x") in CheckPath(Reused(), 5, cs, tags)
    ensures var es := Events(Reused(), cs, "x", tags).0; !RealFault(es, 3) && !RealOwning(es)
  {
    ReusedEvents(cs, tags);
    var es := [Acquired(1), Freed(2), Acquired(3), Freed(4)];
    assert es[1].Freed? && FreedBefore(es, 3) && es[3] == Freed(4);
    assert es[2].Acquired? && HeldFrom(es, 2);
    PathReportsExactly(Reused(), 5, cs, tags, Report(DoubleFree, 4, "x"));
    PathReportsExactly(Reused(), 5, cs, tags, Report(Leak, 5, "x"));
    assert es[2].Acquired? && NoneFreed(es, 2, 3);
    FaultIsReal(es, 3);
  }
}
