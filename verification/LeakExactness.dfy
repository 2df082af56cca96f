// How far merging is exact: an analysis of one variable that keeps its paths' states apart reports exactly
// what some path reports, and against it the merged analysis is wrong only about leaks.
module LeakExactness {
  import opened Wrappers
  import opened LeakChecker

  // ---- One variable at a time ---------------------------------------------------------------

  /** What a path knows about one variable. */
  datatype Pair = Pair(live: bool, freed: bool)

  function Proj(s: State, v: string): Pair { Pair(v in s.live, v in s.freed) }

  function Single(p: Pair, v: string): State {
    State(if p.live then map[v := 0] else map[], if p.freed then map[v := 0] else map[])
  }

  /** The pairs in which some path leaves the statements. */
  function Ends(ss: seq<Stmt>, p: Pair, v: string, tags: Tags): set<Pair>
    decreases ss, 0
  {
    if ss == [] then {p}
    else set q, e | q in EndsOne(ss[0], p, v, tags) && e in Ends(ss[1..], q, v, tags) :: e
  }

  function EndsOne(st: Stmt, p: Pair, v: string, tags: Tags): set<Pair>
    decreases st, 1
  {
    if st.If? then
      var q := Proj(DischargeAll(st.testCalls, Single(p, v), tags).0, v);
      Ends(st.body, q, v, tags) + Ends(st.orelse, q, v, tags)
    else if st.With? then Ends(st.body, p, v, tags)
    else
      var o := Simple(st, Single(p, v), tags).0;
      if o.None? then {} else {Proj(o.value, v)}
  }

  /** What is reported about the variable on some path. */
  function Tells(ss: seq<Stmt>, p: Pair, v: string, tags: Tags): set<Report>
    decreases ss, 0
  {
    if ss == [] then {}
    else
      TellsOne(ss[0], p, v, tags)
      + (set q, r | q in EndsOne(ss[0], p, v, tags) && r in Tells(ss[1..], q, v, tags) :: r)
  }

  function TellsOne(st: Stmt, p: Pair, v: string, tags: Tags): set<Report>
    decreases st, 1
  {
    if st.If? then
      var (s1, r1) := DischargeAll(st.testCalls, Single(p, v), tags);
      About(v, Uses(st.testNames, st.line, Single(p, v)) + r1)
      + Tells(st.body, Proj(s1, v), v, tags) + Tells(st.orelse, Proj(s1, v), v, tags)
    else if st.With? then Tells(st.body, p, v, tags)
    else About(v, Simple(st, Single(p, v), tags).1)
  }

  const UNTOUCHED := Pair(false, false)

  /** An analysis of one variable that keeps apart the at most four pairs its paths can be in. */
  function VarCheck(body: seq<Stmt>, end: nat, v: string, tags: Tags): set<Report> {
    Tells(body, UNTOUCHED, v, tags)
    + if exists q :: q in Ends(body, UNTOUCHED, v, tags) && q.live then {Report(Leak, end, v)} else {}
  }

  // ---- Following a variable through the transfer functions ----------------------------------

  /** What is followed: all of a variable's state, whether it is freed, or whether it is live. */
  datatype Track = Whole | FreedBit | LiveBit

  predicate Tracks(k: Track, kind: Kind) { k.Whole? || (k.LiveBit? <==> kind == Leak) }

  /** a agrees with b on what is followed, and has freed no more where only liveness is followed. */
  ghost predicate Mirrors(k: Track, b: State, a: State, v: string) {
    && (k != FreedBit ==> (v in a.live <==> v in b.live))
    && (k != LiveBit ==> (v in a.freed <==> v in b.freed))
    && (v in a.freed ==> v in b.freed)
  }

  ghost predicate Carried(k: Track, rb: set<Report>, ra: set<Report>, v: string) {
    forall r :: r in rb && r.v == v && Tracks(k, r.kind) ==> r in ra
  }

  ghost predicate Follows(k: Track, b: (State, set<Report>), a: (State, set<Report>), v: string) {
    Mirrors(k, b.0, a.0, v) && Carried(k, b.1, a.1, v)
  }

  /** A free or a take of a variable that is both live and freed. */
  predicate Clashes(c: Call, args: seq<Option<string>>, s: State, v: string, tags: Tags) {
    args != [] &&
    var hit := args[0] == Some(v) && c.name.Some? && (c.name.value in tags.frees || c.name.value in tags.takers);
    || (hit && v in s.live && v in s.freed)
    || Clashes(c, args[1..], if args[0].Some? then Arg(c, args[0].value, s, tags).0 else s, v, tags)
  }

  predicate ClashesAll(cs: seq<Call>, s: State, v: string, tags: Tags) {
    cs != [] && (Clashes(cs[0], cs[0].args, s, v, tags) || ClashesAll(cs[1..], Discharge(cs[0], s, tags).0, v, tags))
  }

  predicate ClashesRhs(r: Rhs, s: State, v: string, tags: Tags) {
    r.CallRhs? && Clashes(r.call, r.call.args, s, v, tags)
  }

  predicate ClashesSimple(st: Stmt, s: State, v: string, tags: Tags) {
    match st
    case AnnAssign(_, _, init) => init.Some? && ClashesRhs(init.value, s, v, tags)
    case Assign(_, _, value) => ClashesRhs(value, s, v, tags)
    case Bare(c) => Clashes(c, c.args, s, v, tags)
    case _ => false
  }

  /** The merged analysis comes to a clash. */
  predicate ClashesBody(ss: seq<Stmt>, s: State, v: string, tags: Tags)
    decreases ss, 0
  {
    ss != [] &&
    var o := Step(ss[0], s, tags).0;
    ClashesStep(ss[0], s, v, tags) || (o.Some? && ClashesBody(ss[1..], o.value, v, tags))
  }

  predicate ClashesStep(st: Stmt, s: State, v: string, tags: Tags)
    decreases st, 1
  {
    if st.If? then
      var s1 := DischargeAll(st.testCalls, s, tags).0;
      ClashesAll(st.testCalls, s, v, tags) || ClashesBody(st.body, s1, v, tags) || ClashesBody(st.orelse, s1, v, tags)
    else if st.With? then ClashesBody(st.body, s, v, tags)
    else ClashesSimple(st, s, v, tags)
  }

  lemma {:induction false} ArgsFollow(k: Track, c: Call, args: seq<Option<string>>, b: State, a: State, v: string,
                                      tags: Tags)
    requires Mirrors(k, b, a, v) && (k == LiveBit ==> !Clashes(c, args, b, v, tags))
    ensures Follows(k, DischargeArgs(c, args, b, tags), DischargeArgs(c, args, a, tags), v)
    decreases |args|
  {
    if args != [] {
      if args[0].Some? {
        var x := args[0].value;
        ArgFollows(k, c, x, b, a, v, tags);
        ArgsFollow(k, c, args[1..], Arg(c, x, b, tags).0, Arg(c, x, a, tags).0, v, tags);
      } else {
        ArgsFollow(k, c, args[1..], b, a, v, tags);
      }
    }
  }

  lemma ArgFollows(k: Track, c: Call, x: string, b: State, a: State, v: string, tags: Tags)
    requires Mirrors(k, b, a, v)
    requires k == LiveBit && x == v && c.name.Some? && (c.name.value in tags.frees || c.name.value in tags.takers) ==>
               !(v in b.live && v in b.freed)
    ensures Follows(k, Arg(c, x, b, tags), Arg(c, x, a, tags), v)
  {
  }

  lemma {:induction false} AllFollow(k: Track, cs: seq<Call>, b: State, a: State, v: string, tags: Tags)
    requires Mirrors(k, b, a, v) && (k == LiveBit ==> !ClashesAll(cs, b, v, tags))
    ensures Follows(k, DischargeAll(cs, b, tags), DischargeAll(cs, a, tags), v)
    decreases |cs|
  {
    if cs != [] {
      ArgsFollow(k, cs[0], cs[0].args, b, a, v, tags);
      AllFollow(k, cs[1..], Discharge(cs[0], b, tags).0, Discharge(cs[0], a, tags).0, v, tags);
    }
  }

  lemma ValueFollows(k: Track, r: Rhs, line: nat, b: State, a: State, v: string, tags: Tags)
    requires Mirrors(k, b, a, v) && (k == LiveBit ==> !ClashesRhs(r, b, v, tags))
    ensures Follows(k, Value(r, line, b, tags), Value(r, line, a, tags), v)
  {
    if r.CallRhs? { ArgsFollow(k, r.call, r.call.args, b, a, v, tags); }
  }

  lemma {:induction false} AcquireFollows(k: Track, ts: seq<Target>, line: nat, owned: bool,
                                          b: State, a: State, v: string, tags: Tags)
    requires Mirrors(k, b, a, v)
    ensures Mirrors(k, Acquire(ts, line, owned, b, tags), Acquire(ts, line, owned, a, tags), v)
    decreases |ts|
  {
    if ts != [] {
      var t := ts[0];
      var a1 := if owned && t.Var? && t.x !in tags.skip then a.(live := a.live[t.x := line]) else a;
      var b1 := if owned && t.Var? && t.x !in tags.skip then b.(live := b.live[t.x := line]) else b;
      AcquireFollows(k, ts[1..], line, owned, b1, a1, v, tags);
    }
  }

  ghost predicate StepFollows(k: Track, b: (Option<State>, set<Report>), a: (Option<State>, set<Report>), v: string) {
    && Carried(k, b.1, a.1, v) && a.0.Some? == b.0.Some?
    && (b.0.Some? ==> Mirrors(k, b.0.value, a.0.value, v))
  }

  lemma SimpleFollows(k: Track, st: Stmt, b: State, a: State, v: string, tags: Tags)
    requires Mirrors(k, b, a, v) && !st.If? && !st.With? && (k == LiveBit ==> !ClashesSimple(st, b, v, tags))
    ensures StepFollows(k, Simple(st, b, tags), Simple(st, a, tags), v)
  {
    match st
    case AnnAssign(line, t, init) =>
      if init.Some? {
        ValueFollows(k, init.value, line, b, a, v, tags);
        var b1, a1 := Value(init.value, line, b, tags).0, Value(init.value, line, a, tags).0;
        AcquireFollows(k, [Var(t)], line, Owned(init.value, tags), b1, a1, v, tags);
      }
    case Assign(line, ts, value) =>
      ValueFollows(k, value, line, b, a, v, tags);
      var b1, a1 := Value(value, line, b, tags).0, Value(value, line, a, tags).0;
      AcquireFollows(k, ts, line, Owned(value, tags), b1, a1, v, tags);
    case Bare(c) => ArgsFollow(k, c, c.args, b, a, v, tags);
    case Return(_, _, _) =>
    case Raise(_) =>
    case Other =>
  }

  /** One variable's reports and pair depend on its pair alone. */
  lemma SimpleAlike(st: Stmt, a: State, v: string, tags: Tags)
    requires !st.If? && !st.With?
    ensures var x, y := Simple(st, a, tags), Simple(st, Single(Proj(a, v), v), tags);
            && About(v, x.1) == About(v, y.1) && x.0.Some? == y.0.Some?
            && (x.0.Some? ==> Proj(x.0.value, v) == Proj(y.0.value, v))
  {
    SimpleFollows(Whole, st, a, Single(Proj(a, v), v), v, tags);
    SimpleFollows(Whole, st, Single(Proj(a, v), v), a, v, tags);
  }

  lemma TestAlike(st: Stmt, a: State, v: string, tags: Tags)
    requires st.If?
    ensures var x, y := DischargeAll(st.testCalls, a, tags), DischargeAll(st.testCalls, Single(Proj(a, v), v), tags);
            && About(v, x.1) == About(v, y.1) && Proj(x.0, v) == Proj(y.0, v)
            && About(v, Uses(st.testNames, st.line, a)) == About(v, Uses(st.testNames, st.line, Single(Proj(a, v), v)))
  {
    AllFollow(Whole, st.testCalls, a, Single(Proj(a, v), v), v, tags);
    AllFollow(Whole, st.testCalls, Single(Proj(a, v), v), a, v, tags);
  }

  // ---- The one-variable analysis is exact on paths ------------------------------------------

  ghost predicate Told(x: (Option<State>, set<Report>, seq<bool>), ends: set<Pair>, tells: set<Report>, v: string) {
    About(v, x.1) <= tells && (x.0.Some? ==> Proj(x.0.value, v) in ends)
  }

  lemma {:induction false} PathTold(ss: seq<Stmt>, a: State, cs: seq<bool>, v: string, tags: Tags)
    ensures Told(PathBody(ss, a, cs, tags), Ends(ss, Proj(a, v), v, tags), Tells(ss, Proj(a, v), v, tags), v)
    decreases ss, 0
  {
    if ss != [] {
      PathStepTold(ss[0], a, cs, v, tags);
      var (o, _, cs1) := PathStep(ss[0], a, cs, tags);
      if o.Some? {
        PathTold(ss[1..], o.value, cs1, v, tags);
        AboutBoth(v, PathStep(ss[0], a, cs, tags).1, PathBody(ss[1..], o.value, cs1, tags).1);
      }
    }
  }

  lemma {:induction false} PathStepTold(st: Stmt, a: State, cs: seq<bool>, v: string, tags: Tags)
    ensures Told(PathStep(st, a, cs, tags), EndsOne(st, Proj(a, v), v, tags), TellsOne(st, Proj(a, v), v, tags), v)
    decreases st, 1
  {
    if st.If? {
      TestAlike(st, a, v, tags);
      var (a1, r1) := DischargeAll(st.testCalls, a, tags);
      var (_, s1) := DischargeAll(st.testCalls, Single(Proj(a, v), v), tags);
      var branch := if cs != [] && cs[0] then st.body else st.orelse;
      var rest := if cs == [] then [] else cs[1..];
      PathTold(branch, a1, rest, v, tags);
      AboutBoth(v, Uses(st.testNames, st.line, a), r1);
      AboutBoth(v, Uses(st.testNames, st.line, Single(Proj(a, v), v)), s1);
      AboutBoth(v, Uses(st.testNames, st.line, a) + r1, PathBody(branch, a1, rest, tags).1);
    } else if st.With? {
      PathTold(st.body, a, cs, v, tags);
    } else {
      SimpleAlike(st, a, v, tags);
    }
  }

  /** The choices cs lead through the statements to state o and are used up. */
  ghost predicate Takes(ss: seq<Stmt>, a: State, cs: seq<bool>, o: State, r: set<Report>, tags: Tags) {
    forall tail: seq<bool> :: PathBody(ss, a, cs + tail, tags) == (Some(o), r, tail)
  }

  ghost predicate TakesOne(st: Stmt, a: State, cs: seq<bool>, o: State, r: set<Report>, tags: Tags) {
    forall tail: seq<bool> :: PathStep(st, a, cs + tail, tags) == (Some(o), r, tail)
  }

  lemma {:induction false} Reach(ss: seq<Stmt>, a: State, e: Pair, v: string, tags: Tags)
    returns (cs: seq<bool>, o: State, r: set<Report>)
    requires e in Ends(ss, Proj(a, v), v, tags)
    ensures Takes(ss, a, cs, o, r, tags) && Proj(o, v) == e
    decreases ss, 0
  {
    if ss == [] {
      cs, o, r := [], a, {};
      forall tail: seq<bool> ensures PathBody(ss, a, cs + tail, tags) == (Some(o), r, tail) {
        assert cs + tail == tail;
      }
    } else {
      var q :| q in EndsOne(ss[0], Proj(a, v), v, tags) && e in Ends(ss[1..], q, v, tags);
      var cs1, o1, r1 := ReachOne(ss[0], a, q, v, tags);
      var cs2, o2, r2 := Reach(ss[1..], o1, e, v, tags);
      cs, o, r := cs1 + cs2, o2, r1 + r2;
      forall tail: seq<bool> ensures PathBody(ss, a, cs + tail, tags) == (Some(o), r, tail) {
        assert cs + tail == cs1 + (cs2 + tail);
        assert PathStep(ss[0], a, cs1 + (cs2 + tail), tags) == (Some(o1), r1, cs2 + tail);
      }
    }
  }

  lemma {:induction false} ReachOne(st: Stmt, a: State, e: Pair, v: string, tags: Tags)
    returns (cs: seq<bool>, o: State, r: set<Report>)
    requires e in EndsOne(st, Proj(a, v), v, tags)
    ensures TakesOne(st, a, cs, o, r, tags) && Proj(o, v) == e
    decreases st, 1
  {
    if st.If? {
      TestAlike(st, a, v, tags);
      var (a1, r1) := DischargeAll(st.testCalls, a, tags);
      var taken := e in Ends(st.body, Proj(a1, v), v, tags);
      var cs1, r2;
      cs1, o, r2 := Reach(if taken then st.body else st.orelse, a1, e, v, tags);
      cs, r := [taken] + cs1, Uses(st.testNames, st.line, a) + r1 + r2;
      forall tail: seq<bool> ensures PathStep(st, a, cs + tail, tags) == (Some(o), r, tail) {
        assert (cs + tail)[1..] == cs1 + tail;
      }
    } else if st.With? {
      cs, o, r := Reach(st.body, a, e, v, tags);
    } else {
      SimpleAlike(st, a, v, tags);
      cs, o, r := [], Simple(st, a, tags).0.value, Simple(st, a, tags).1;
      forall tail: seq<bool> ensures PathStep(st, a, cs + tail, tags) == (Some(o), r, tail) {
        assert cs + tail == tail;
      }
    }
  }

  lemma {:induction false} Hear(ss: seq<Stmt>, a: State, rep: Report, v: string, tags: Tags) returns (cs: seq<bool>)
    requires rep in Tells(ss, Proj(a, v), v, tags)
    ensures rep in PathBody(ss, a, cs, tags).1
    decreases ss, 0
  {
    if rep in TellsOne(ss[0], Proj(a, v), v, tags) {
      cs := HearOne(ss[0], a, rep, v, tags);
    } else {
      var q :| q in EndsOne(ss[0], Proj(a, v), v, tags) && rep in Tells(ss[1..], q, v, tags);
      var cs1, o1, r1 := ReachOne(ss[0], a, q, v, tags);
      var cs2 := Hear(ss[1..], o1, rep, v, tags);
      cs := cs1 + cs2;
      assert PathStep(ss[0], a, cs1 + cs2, tags) == (Some(o1), r1, cs2);
    }
  }

  lemma {:induction false} HearOne(st: Stmt, a: State, rep: Report, v: string, tags: Tags) returns (cs: seq<bool>)
    requires rep in TellsOne(st, Proj(a, v), v, tags)
    ensures rep in PathStep(st, a, cs, tags).1
    decreases st, 1
  {
    if st.If? {
      TestAlike(st, a, v, tags);
      var (a1, r1) := DischargeAll(st.testCalls, a, tags);
      if rep in Tells(st.body, Proj(a1, v), v, tags) {
        var cs1 := Hear(st.body, a1, rep, v, tags);
        cs := [true] + cs1;
        assert cs[1..] == cs1;
      } else if rep in Tells(st.orelse, Proj(a1, v), v, tags) {
        var cs1 := Hear(st.orelse, a1, rep, v, tags);
        cs := [false] + cs1;
        assert cs[1..] == cs1;
      } else {
        cs := [];
        assert rep in About(v, Uses(st.testNames, st.line, a)) + About(v, r1);
      }
    } else if st.With? {
      cs := Hear(st.body, a, rep, v, tags);
    } else {
      SimpleAlike(st, a, v, tags);
      cs := [];
      assert rep in About(v, Simple(st, a, tags).1);
    }
  }

  /** Following each variable by itself reports exactly what some path reports. */
  lemma ExactPerVariable(body: seq<Stmt>, end: nat, r: Report, tags: Tags)
    ensures r in VarCheck(body, end, r.v, tags) <==> exists cs :: r in CheckPath(body, end, cs, tags)
  {
    var s, v := State(map[], map[]), r.v;
    assert Proj(s, v) == UNTOUCHED;
    if cs: seq<bool> :| r in CheckPath(body, end, cs, tags) {
      PathTold(body, s, cs, v, tags);
      var (o, rs, _) := PathBody(body, s, cs, tags);
      if r in rs { assert r in About(v, rs); }
    }
    if r in Tells(body, UNTOUCHED, v, tags) {
      var cs := Hear(body, s, r, v, tags);
      assert r in CheckPath(body, end, cs, tags);
    } else if r in VarCheck(body, end, v, tags) {
      var q :| q in Ends(body, UNTOUCHED, v, tags) && q.live;
      var cs, o, rs := Reach(body, s, q, v, tags);
      assert cs + [] == cs && PathBody(body, s, cs + [], tags) == (Some(o), rs, []);
      assert r in CheckPath(body, end, cs, tags);
    }
  }

  // ---- Which merged reports are real --------------------------------------------------------

  /** Every path leaves the function, as far as the merged analysis sees; a with statement never does. */
  predicate Exits(ss: seq<Stmt>)
    decreases ss
  {
    ss != [] && (ExitsOne(ss[0]) || Exits(ss[1..]))
  }

  predicate ExitsOne(st: Stmt)
    decreases st
  {
    st.Return? || st.Raise? || (st.If? && Exits(st.body) && Exits(st.orelse))
  }

  lemma {:induction false} ExitsIs(ss: seq<Stmt>, s: State, tags: Tags)
    ensures Body(ss, s, tags).0.None? <==> Exits(ss)
    decreases ss, 0
  {
    if ss != [] {
      ExitsOneIs(ss[0], s, tags);
      var o := Step(ss[0], s, tags).0;
      if o.Some? { ExitsIs(ss[1..], o.value, tags); }
    }
  }

  lemma {:induction false} ExitsOneIs(st: Stmt, s: State, tags: Tags)
    ensures Step(st, s, tags).0.None? <==> ExitsOne(st)
    decreases st, 1
  {
    if st.If? {
      var s1 := DischargeAll(st.testCalls, s, tags).0;
      ExitsIs(st.body, s1, tags);
      ExitsIs(st.orelse, s1, tags);
    }
  }

  /** No with statement's body exits on all its paths: the analysis goes on after those. */
  predicate WithsGoOn(ss: seq<Stmt>)
    decreases ss, 0
  {
    ss != [] ==> WithGoesOn(ss[0]) && WithsGoOn(ss[1..])
  }

  predicate WithGoesOn(st: Stmt)
    decreases st, 1
  {
    match st
    case If(_, _, _, body, orelse) => WithsGoOn(body) && WithsGoOn(orelse)
    case With(body) => !Exits(body) && WithsGoOn(body)
    case _ => true
  }

  /** e is an end of the one-variable analysis that mirrors the merged state o. */
  ghost predicate EndMirrors(k: Track, o: State, e: Pair, ends: set<Pair>, v: string) {
    e in ends && Mirrors(k, o, Single(e, v), v)
  }

  ghost predicate Believed(k: Track, m: (Option<State>, set<Report>), ends: set<Pair>, tells: set<Report>, v: string) {
    Carried(k, m.1, tells, v) && (m.0.Some? ==> exists e :: EndMirrors(k, m.0.value, e, ends, v))
  }

  lemma {:induction false} BodyBelieved(k: Track, ss: seq<Stmt>, b: State, p: Pair, v: string, tags: Tags)
    requires k != Whole && Mirrors(k, b, Single(p, v), v) && WithsGoOn(ss)
    requires k == LiveBit ==> !ClashesBody(ss, b, v, tags)
    ensures Believed(k, Body(ss, b, tags), Ends(ss, p, v, tags), Tells(ss, p, v, tags), v)
    decreases ss, 0
  {
    if ss == [] {
      assert EndMirrors(k, b, p, Ends(ss, p, v, tags), v);
    } else {
      StepBelieved(k, ss[0], b, p, v, tags);
      var o := Step(ss[0], b, tags).0;
      if o.Some? {
        var q :| EndMirrors(k, o.value, q, EndsOne(ss[0], p, v, tags), v);
        BodyBelieved(k, ss[1..], o.value, q, v, tags);
        RestBelieved(k, ss, o.value, p, q, v, tags);
      }
    }
  }

  lemma RestBelieved(k: Track, ss: seq<Stmt>, b1: State, p: Pair, q: Pair, v: string, tags: Tags)
    requires ss != [] && q in EndsOne(ss[0], p, v, tags)
    requires Believed(k, Body(ss[1..], b1, tags), Ends(ss[1..], q, v, tags), Tells(ss[1..], q, v, tags), v)
    ensures Believed(k, Body(ss[1..], b1, tags), Ends(ss, p, v, tags), Tells(ss, p, v, tags), v)
  {
    var m := Body(ss[1..], b1, tags);
    if m.0.Some? {
      var e :| EndMirrors(k, m.0.value, e, Ends(ss[1..], q, v, tags), v);
      assert EndMirrors(k, m.0.value, e, Ends(ss, p, v, tags), v);
    }
  }

  lemma {:induction false} StepBelieved(k: Track, st: Stmt, b: State, p: Pair, v: string, tags: Tags)
    requires k != Whole && Mirrors(k, b, Single(p, v), v) && WithGoesOn(st)
    requires k == LiveBit ==> !ClashesStep(st, b, v, tags)
    ensures Believed(k, Step(st, b, tags), EndsOne(st, p, v, tags), TellsOne(st, p, v, tags), v)
    decreases st, 1
  {
    if st.If? {
      IfBelieved(k, st, b, p, v, tags);
    } else if st.With? {
      BodyBelieved(k, st.body, b, p, v, tags);
      ExitsIs(st.body, b, tags);
    } else {
      SimpleFollows(k, st, b, Single(p, v), v, tags);
      var o := Simple(st, b, tags).0;
      if o.Some? {
        var e := Proj(Simple(st, Single(p, v), tags).0.value, v);
        assert EndMirrors(k, o.value, e, EndsOne(st, p, v, tags), v);
      }
    }
  }

  lemma {:induction false} IfBelieved(k: Track, st: Stmt, b: State, p: Pair, v: string, tags: Tags)
    requires st.If? && k != Whole && Mirrors(k, b, Single(p, v), v) && WithGoesOn(st)
    requires k == LiveBit ==> !ClashesStep(st, b, v, tags)
    ensures Believed(k, Step(st, b, tags), EndsOne(st, p, v, tags), TellsOne(st, p, v, tags), v)
    decreases st, 0
  {
    var a := Single(p, v);
    AllFollow(k, st.testCalls, b, a, v, tags);
    var (b1, rb) := DischargeAll(st.testCalls, b, tags);
    var (a1, ra) := DischargeAll(st.testCalls, a, tags);
    var q := Proj(a1, v);
    BodyBelieved(k, st.body, b1, q, v, tags);
    BodyBelieved(k, st.orelse, b1, q, v, tags);
    assert Carried(k, Uses(st.testNames, st.line, b) + rb, About(v, Uses(st.testNames, st.line, a) + ra), v);
    var ot, oe := Body(st.body, b1, tags).0, Body(st.orelse, b1, tags).0;
    if Step(st, b, tags).0.Some? {
      BranchBelieved(k, ot, oe, Ends(st.body, q, v, tags), Ends(st.orelse, q, v, tags), v);
    }
  }

  /** A merged state is mirrored by an end of one of the branches. */
  lemma BranchBelieved(k: Track, ot: Option<State>, oe: Option<State>, et: set<Pair>, ee: set<Pair>, v: string)
    requires k != Whole && (ot.Some? || oe.Some?)
    requires ot.Some? ==> exists e :: EndMirrors(k, ot.value, e, et, v)
    requires oe.Some? ==> exists e :: EndMirrors(k, oe.value, e, ee, v)
    ensures var o := if ot.None? then oe.value else if oe.None? then ot.value else Merge(ot.value, oe.value);
            exists e :: EndMirrors(k, o, e, et + ee, v)
  {
    var o := if ot.None? then oe.value else if oe.None? then ot.value else Merge(ot.value, oe.value);
    var first := ot.Some? && (oe.None? || (if k == FreedBit then v in ot.value.freed else v in ot.value.live));
    if first {
      var e :| EndMirrors(k, ot.value, e, et, v);
      assert EndMirrors(k, o, e, et + ee, v);
    } else {
      var e :| EndMirrors(k, oe.value, e, ee, v);
      assert EndMirrors(k, o, e, et + ee, v);
    }
  }

  /** A double free or a use after free is reported exactly when some path reports it: on branching
      bodies too, only leaks can be spurious. */
  lemma OnlyLeaksAreSpurious(body: seq<Stmt>, end: nat, r: Report, tags: Tags)
    requires WithsGoOn(body) && r.kind != Leak
    ensures r in Check(body, end, tags) <==> exists cs :: r in CheckPath(body, end, cs, tags)
  {
    var s := State(map[], map[]);
    BodyBelieved(FreedBit, body, s, UNTOUCHED, r.v, tags);
    RealOrSpurious(body, end, r, tags);
  }

  /** A leak is reported exactly when some path has it, unless the analysis frees or hands over the variable
      while holding it both live and freed. */
  lemma LeaksExactWithoutClash(body: seq<Stmt>, end: nat, r: Report, tags: Tags)
    requires WithsGoOn(body) && r.kind == Leak && !ClashesBody(body, State(map[], map[]), r.v, tags)
    ensures r in Check(body, end, tags) <==> exists cs :: r in CheckPath(body, end, cs, tags)
  {
    var s := State(map[], map[]);
    BodyBelieved(LiveBit, body, s, UNTOUCHED, r.v, tags);
    var o := Body(body, s, tags).0;
    if o.Some? {
      var e :| EndMirrors(LiveBit, o.value, e, Ends(body, UNTOUCHED, r.v, tags), r.v);
    }
    RealOrSpurious(body, end, r, tags);
  }

  /** A merged report is that of some path, or one the one-variable analysis does not make: the exact
      condition under which a report is spurious. */
  lemma RealOrSpurious(body: seq<Stmt>, end: nat, r: Report, tags: Tags)
    ensures (exists cs :: r in CheckPath(body, end, cs, tags)) <==>
            r in Check(body, end, tags) && r in VarCheck(body, end, r.v, tags)
  {
    ExactPerVariable(body, end, r, tags);
    if cs: seq<bool> :| r in CheckPath(body, end, cs, tags) { MergingMissesNothing(body, end, cs, tags); }
  }

  ghost predicate HasError(rs: set<Report>, v: string) { exists r :: r in rs && r.v == v && r.kind != Leak }

  lemma {:induction false} ClashReported(c: Call, args: seq<Option<string>>, s: State, v: string, tags: Tags)
    requires Clashes(c, args, s, v, tags)
    ensures HasError(DischargeArgs(c, args, s, tags).1, v)
    decreases |args|
  {
    var s1 := if args[0].Some? then Arg(c, args[0].value, s, tags).0 else s;
    if Clashes(c, args[1..], s1, v, tags) {
      ClashReported(c, args[1..], s1, v, tags);
      var r :| r in DischargeArgs(c, args[1..], s1, tags).1 && r.v == v && r.kind != Leak;
      assert r in DischargeArgs(c, args, s, tags).1;
    } else {
      var r := Report(if c.name.value in tags.frees then DoubleFree else UseAfterFree, c.line, v);
      assert r in Arg(c, v, s, tags).1;
      assert r in DischargeArgs(c, args, s, tags).1;
    }
  }

  lemma {:induction false} ClashAllReported(cs: seq<Call>, s: State, v: string, tags: Tags)
    requires ClashesAll(cs, s, v, tags)
    ensures HasError(DischargeAll(cs, s, tags).1, v)
    decreases |cs|
  {
    var (s1, r1) := Discharge(cs[0], s, tags);
    if Clashes(cs[0], cs[0].args, s, v, tags) {
      ClashReported(cs[0], cs[0].args, s, v, tags);
      ErrorKept(r1, DischargeAll(cs, s, tags).1, v);
    } else {
      ClashAllReported(cs[1..], s1, v, tags);
      ErrorKept(DischargeAll(cs[1..], s1, tags).1, DischargeAll(cs, s, tags).1, v);
    }
  }

  lemma ErrorKept(a: set<Report>, b: set<Report>, v: string)
    requires a <= b && HasError(a, v)
    ensures HasError(b, v)
  {
  }

  lemma ClashSimpleReported(st: Stmt, s: State, v: string, tags: Tags)
    requires !st.If? && !st.With? && ClashesSimple(st, s, v, tags)
    ensures HasError(Simple(st, s, tags).1, v)
  {
    var c := match st
             case AnnAssign(_, _, init) => init.value.call
             case Assign(_, _, value) => value.call
             case Bare(c) => c;
    ClashReported(c, c.args, s, v, tags);
  }

  lemma {:induction false} ClashBodyReported(ss: seq<Stmt>, s: State, v: string, tags: Tags)
    requires ClashesBody(ss, s, v, tags)
    ensures HasError(Body(ss, s, tags).1, v)
    decreases ss, 0
  {
    var (o, r1) := Step(ss[0], s, tags);
    if ClashesStep(ss[0], s, v, tags) {
      ClashStepReported(ss[0], s, v, tags);
      ErrorKept(r1, Body(ss, s, tags).1, v);
    } else {
      ClashBodyReported(ss[1..], o.value, v, tags);
      ErrorKept(Body(ss[1..], o.value, tags).1, Body(ss, s, tags).1, v);
    }
  }

  lemma {:induction false} ClashStepReported(st: Stmt, s: State, v: string, tags: Tags)
    requires ClashesStep(st, s, v, tags)
    ensures HasError(Step(st, s, tags).1, v)
    decreases st, 1
  {
    if st.If? {
      var (s1, r1) := DischargeAll(st.testCalls, s, tags);
      if ClashesAll(st.testCalls, s, v, tags) {
        ClashAllReported(st.testCalls, s, v, tags);
        ErrorKept(r1, Step(st, s, tags).1, v);
      } else {
        var branch := if ClashesBody(st.body, s1, v, tags) then st.body else st.orelse;
        ClashBodyReported(branch, s1, v, tags);
        ErrorKept(Body(branch, s1, tags).1, Step(st, s, tags).1, v);
      }
    } else if st.With? {
      ClashBodyReported(st.body, s, v, tags);
    } else {
      ClashSimpleReported(st, s, v, tags);
    }
  }

  /** A spurious leak is reported only about a variable that some path really frees twice or uses after free. */
  lemma SpuriousLeakHasRealError(body: seq<Stmt>, end: nat, r: Report, tags: Tags)
    requires WithsGoOn(body) && r.kind == Leak && r in Check(body, end, tags)
    requires forall cs :: r !in CheckPath(body, end, cs, tags)
    ensures exists e, cs :: e in CheckPath(body, end, cs, tags) && e.v == r.v && e.kind != Leak
  {
    var s := State(map[], map[]);
    if !ClashesBody(body, s, r.v, tags) { LeaksExactWithoutClash(body, end, r, tags); }
    ClashBodyReported(body, s, r.v, tags);
    var e :| e in Body(body, s, tags).1 && e.v == r.v && e.kind != Leak;
    OnlyLeaksAreSpurious(body, end, e, tags);
  }

  /** After a with statement whose body always exits, the analysis goes on with the state before it, so what
      it reports there is on no path. */
  lemma AfterExitingWith(w: Stmt, rest: seq<Stmt>, s: State, cs: seq<bool>, tags: Tags)
    requires w.With? && Exits(w.body)
    ensures Body([w] + rest, s, tags).1 == Step(w, s, tags).1 + Body(rest, s, tags).1
    ensures PathBody([w] + rest, s, cs, tags).0.None?
    ensures PathBody([w] + rest, s, cs, tags).1 == PathStep(w, s, cs, tags).1
  {
    ExitsIs(w.body, s, tags);
    PathBodyCovered(w.body, s, s, cs, tags);
    assert ([w] + rest)[1..] == rest;
  }

  // ---- A spurious leak ----------------------------------------------------------------------

  const BUILTINS := Names({"free", "mp_free", "list_free", "dict_free", "str_free"},
                          {"alloc", "alloc_safe", "nr_alloc", "list_new", "dict_new"},
                          {"alloc", "alloc_safe", "nr_alloc"},
                          {"len", "print", "test_assert", "test_assert_eq", "sort", "assert", "str_len", "str_eq",
                           "str_contains", "str_starts_with", "str_ends_with", "str_find", "list_len", "list_get",
                           "dict_len", "dict_get", "dict_has"}, {}, {}, {}, {})

  function NewX(): Stmt { AnnAssign(1, "x", Some(CallRhs(Call(1, Some("list_new"), None, [])))) }

  function FreeCall(line: nat): Call { Call(line, Some("list_free"), None, [Some("x")]) }

  function MaybeFree(): Stmt { If(2, {"c"}, [], [Bare(FreeCall(3))], []) }

  /** x = list_new(); if c: list_free(x); list_free(x) -- no path leaks x, yet the merged analysis warns of
      a leak: the second free is seen as a double free and does not discharge x. */
  function FreeTwice(): Func { Func([NewX(), MaybeFree(), Bare(FreeCall(4))], 5, []) }

  lemma XIsTracked()
    ensures "x" !in SkipVars(FreeTwice(), BUILTINS)
  {
    var f := FreeTwice();
    assert f.body[1..] == [MaybeFree(), Bare(FreeCall(4))] && f.body[1..][1..] == [Bare(FreeCall(4))];
    assert [Bare(FreeCall(4))][1..] == [] && [Bare(FreeCall(3))][1..] == [];
    assert CallsIn([Bare(FreeCall(3))]) == [FreeCall(3)] && CallsIn([Bare(FreeCall(4))]) == [FreeCall(4)];
    var calls := CallsIn(f.body) + f.inner;
    assert calls == [NewX().init.value.call, FreeCall(3), FreeCall(4)];
    assert calls[1] == FreeCall(3) && FreeCall(3).args[0] == Some("x");
    assert "list_new" !in BUILTINS.raw by {
      assert "list_new"[0] == 'l' && forall g :: g in BUILTINS.raw ==> g[0] != 'l';
    }
    assert AssignedFrom([Bare(FreeCall(3))], BUILTINS.raw, true) == {};
    assert AssignedFrom([Bare(FreeCall(4))], BUILTINS.raw, true) == {};
    assert AssignedFrom(f.body, BUILTINS.raw, true) == {};
    assert Leaving([Bare(FreeCall(3))]) == {} && Leaving([Bare(FreeCall(4))]) == {} && Leaving(f.body) == {};
  }

  lemma FalseLeak(cs: seq<bool>)
    ensures var f, tags := FreeTwice(), TagsOf(FreeTwice(), BUILTINS);
            && Report(Leak, 5, "x") in Check(f.body, f.end, tags)
            && Report(Leak, 5, "x") !in CheckPath(f.body, f.end, cs, tags)
  {
    XIsTracked();
    FalseLeakMerged(TagsOf(FreeTwice(), BUILTINS));
    FalseLeakPath(cs, TagsOf(FreeTwice(), BUILTINS));
  }

  predicate ListTags(tags: Tags) { "list_free" in tags.frees && "list_new" in tags.owners && "x" !in tags.skip }

  lemma NewXStep(tags: Tags)
    requires ListTags(tags)
    ensures Step(NewX(), State(map[], map[]), tags) == (Some(State(map["x" := 1], map[])), {})
  {
    var s0, c := State(map[], map[]), NewX().init.value.call;
    assert Value(NewX().init.value, 1, s0, tags) == (s0, {}) by { assert DischargeArgs(c, [], s0, tags) == (s0, {}); }
    assert Owned(NewX().init.value, tags);
    var s1 := State(map["x" := 1], map[]);
    assert s0.(live := s0.live["x" := 1]) == s1;
    assert Acquire([Var("x")], 1, true, s0, tags) == Acquire([Var("x")][1..], 1, true, s1, tags);
    assert [Var("x")][1..] == [];
  }

  lemma FalseLeakMerged(tags: Tags)
    requires ListTags(tags)
    ensures Report(Leak, 5, "x") in Check(FreeTwice().body, 5, tags)
  {
    var b, test, free := FreeTwice().body, MaybeFree(), Bare(FreeCall(4));
    var s0, s1, s2 := State(map[], map[]), State(map["x" := 1], map[]), State(map[], map["x" := 3]);
    var m := State(map["x" := 1], map["x" := 3]);
    NewXStep(tags);
    FreeX(3, s1, tags);
    FreeX(4, m, tags);
    assert s1.live - {"x"} == map[];
    assert Body(test.body, s1, tags) == (Some(s2), {}) by { assert test.body[1..] == []; }
    assert Body(test.orelse, s1, tags) == (Some(s1), {});
    assert Merge(s2, s1) == m;
    assert Step(test, s1, tags).0 == Some(m);
    assert b[1..] == [test, free] && [test, free][1..] == [free] && [free][1..] == [];
    assert Body([free], m, tags).0 == Some(m) && Body([test, free], s1, tags).0 == Some(m);
    assert Body(b, s0, tags).0 == Some(m);
  }

  lemma FalseLeakPath(cs: seq<bool>, tags: Tags)
    requires ListTags(tags)
    ensures Report(Leak, 5, "x") !in CheckPath(FreeTwice().body, 5, cs, tags)
  {
    var b, test, free := FreeTwice().body, MaybeFree(), Bare(FreeCall(4));
    var s1, s2, s3 := State(map["x" := 1], map[]), State(map[], map["x" := 3]), State(map[], map["x" := 4]);
    NewXStep(tags);
    FreeX(3, s1, tags);
    FreeX(4, s1, tags);
    FreeX(4, s2, tags);
    assert s1.live - {"x"} == map[];
    var taken := cs != [] && cs[0];
    var rest := if cs == [] then [] else cs[1..];
    assert PathBody(test.body, s1, rest, tags) == (Some(s2), {}, rest) by { assert test.body[1..] == []; }
    assert PathStep(test, s1, cs, tags).0 == Some(if taken then s2 else s1);
    assert b[1..] == [test, free] && [test, free][1..] == [free] && [free][1..] == [];
    assert PathBody([free], s1, rest, tags).0 == Some(s3);
    assert PathBody([free], s2, rest, tags).0 == Some(s2);
    assert PathBody([test, free], s1, cs, tags).0 == Some(if taken then s2 else s3);
    assert PathBody(b, State(map[], map[]), cs, tags).0 == Some(if taken then s2 else s3);
  }

  lemma FreeX(line: nat, s: State, tags: Tags)
    requires "list_free" in tags.frees
    ensures Discharge(FreeCall(line), s, tags) == FreeArg("x", line, s)
  {
    var c := FreeCall(line);
    assert c.args[1..] == [];
    var (s1, r) := FreeArg("x", line, s);
    assert DischargeArgs(c, c.args[1..], s1, tags) == (s1, {}) && r + {} == r;
    assert Arg(c, "x", s, tags) == (s1, r);
  }
}
