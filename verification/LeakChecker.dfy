// The path-merging leak / double-free / use-after-free checker on loop-free bodies (compiler/compiler.py:1386-1594)
// and the variables it skips; merging paths loses no report of any of them.
module LeakChecker {
  import opened Wrappers

  /** A call: its name if the callee is a plain name, the variable a method is called on, and the argument
      names (None for other arguments, which the checker does not look into). */
  datatype Call = Call(line: nat, name: Option<string>, receiver: Option<string>, args: seq<Option<string>>)

  /** A right-hand side: a call, a plain name, or another expression with the names occurring in it. */
  datatype Rhs = CallRhs(call: Call) | NameRhs(x: string) | ExprRhs(names: set<string>)

  /** An assignment target: a variable, a field, or anything else. */
  datatype Target = Var(x: string) | Field | OtherTarget

  datatype Stmt =
    | AnnAssign(line: nat, target: string, init: Option<Rhs>)
    | Assign(line: nat, targets: seq<Target>, value: Rhs)
    | Bare(call: Call)
    | Return(line: nat, returned: Option<string>, names: set<string>)
    | Raise(line: nat)
    | If(line: nat, testNames: set<string>, testCalls: seq<Call>, body: seq<Stmt>, orelse: seq<Stmt>)
    | With(body: seq<Stmt>)
    | Other

  /** Which functions free, take over, or hand out ownership, and which variables are not tracked. */
  datatype Tags = Tags(frees: set<string>, takers: set<string>, owners: set<string>, skip: set<string>)

  /** Variables owning memory, with the allocation line; freed variables, with the line of the free. */
  datatype State = State(live: map<string, nat>, freed: map<string, nat>)

  datatype Kind = Leak | DoubleFree | UseAfterFree

  datatype Report = Report(kind: Kind, line: nat, v: string)

  function About(v: string, rs: set<Report>): set<Report> { set r | r in rs && r.v == v }

  lemma AboutBoth(v: string, x: set<Report>, y: set<Report>)
    ensures About(v, x + y) == About(v, x) + About(v, y)
  {
  }

  // ---- Transfer functions -------------------------------------------------------------------

  function Uses(names: set<string>, line: nat, s: State): set<Report> {
    set v | v in names && v in s.freed :: Report(UseAfterFree, line, v)
  }

  function FreeArg(v: string, line: nat, s: State): (State, set<Report>) {
    if v in s.freed then (s, {Report(DoubleFree, line, v)})
    else (State(s.live - {v}, s.freed[v := line]), {})
  }

  function TakeArg(v: string, line: nat, s: State): (State, set<Report>) {
    if v in s.freed then (s, {Report(UseAfterFree, line, v)})
    else (State(s.live - {v}, s.freed), {})
  }

  function BorrowArg(v: string, line: nat, s: State): (State, set<Report>) {
    (s, if v in s.freed then {Report(UseAfterFree, line, v)} else {})
  }

  function Arg(c: Call, v: string, s: State, tags: Tags): (State, set<Report>) {
    if c.name.Some? && c.name.value in tags.frees then FreeArg(v, c.line, s)
    else if c.name.Some? && c.name.value in tags.takers then TakeArg(v, c.line, s)
    else BorrowArg(v, c.line, s)
  }

  function DischargeArgs(c: Call, args: seq<Option<string>>, s: State, tags: Tags): (State, set<Report>) {
    if args == [] then (s, {})
    else
      var (s1, r1) := if args[0].Some? then Arg(c, args[0].value, s, tags) else (s, {});
      var (s2, r2) := DischargeArgs(c, args[1..], s1, tags);
      (s2, r1 + r2)
  }

  function Discharge(c: Call, s: State, tags: Tags): (State, set<Report>) {
    DischargeArgs(c, c.args, s, tags)
  }

  function DischargeAll(cs: seq<Call>, s: State, tags: Tags): (State, set<Report>) {
    if cs == [] then (s, {})
    else
      var (s1, r1) := Discharge(cs[0], s, tags);
      var (s2, r2) := DischargeAll(cs[1..], s1, tags);
      (s2, r1 + r2)
  }

  function Value(v: Rhs, line: nat, s: State, tags: Tags): (State, set<Report>) {
    match v
    case CallRhs(c) => Discharge(c, s, tags)
    case NameRhs(x) => (s, Uses({x}, line, s))
    case ExprRhs(names) => (s, Uses(names, line, s))
  }

  predicate Owned(v: Rhs, tags: Tags) {
    v.CallRhs? && v.call.name.Some? && v.call.name.value in tags.owners
  }

  function Acquire(targets: seq<Target>, line: nat, owned: bool, s: State, tags: Tags): State {
    if targets == [] then s
    else
      var t := targets[0];
      Acquire(targets[1..], line, owned,
              if owned && t.Var? && t.x !in tags.skip then s.(live := s.live[t.x := line]) else s, tags)
  }

  function Leaks(line: nat, s: State, except: Option<string>): set<Report> {
    set v | v in s.live && Some(v) != except :: Report(Leak, line, v)
  }

  /** Statements without branches. None: the path ends here. */
  function Simple(st: Stmt, s: State, tags: Tags): (Option<State>, set<Report>)
    requires !st.If? && !st.With?
  {
    match st
    case AnnAssign(line, t, v) =>
      if v.None? then (Some(s), {})
      else
        var (s1, r) := Value(v.value, line, s, tags);
        (Some(Acquire([Var(t)], line, Owned(v.value, tags), s1, tags)), r)
    case Assign(line, ts, v) =>
      var (s1, r) := Value(v, line, s, tags);
      (Some(Acquire(ts, line, Owned(v, tags), s1, tags)), r)
    case Bare(c) => var (s1, r) := Discharge(c, s, tags); (Some(s1), r)
    case Return(line, returned, names) => (None, Uses(names, line, s) + Leaks(line, s, returned))
    case Raise(line) => (None, Leaks(line, s, None))
    case Other => (Some(s), {})
  }

  // ---- Merged analysis ----------------------------------------------------------------------

  /** Union of what is live and what is freed; the then-branch's allocation and the else-branch's free
      win where both have one. */
  function Merge(a: State, b: State): State {
    State(b.live + a.live, a.freed + b.freed)
  }

  function Body(ss: seq<Stmt>, s: State, tags: Tags): (Option<State>, set<Report>)
    decreases ss, 0
  {
    if ss == [] then (Some(s), {})
    else
      var (o, r1) := Step(ss[0], s, tags);
      if o.None? then (None, r1)
      else
        var (o2, r2) := Body(ss[1..], o.value, tags);
        (o2, r1 + r2)
  }

  function Step(st: Stmt, s: State, tags: Tags): (Option<State>, set<Report>)
    decreases st, 1
  {
    if st.If? then
      var (s1, r1) := DischargeAll(st.testCalls, s, tags);
      var (ot, rt) := Body(st.body, s1, tags);
      var (oe, re) := Body(st.orelse, s1, tags);
      (if ot.None? then oe else if oe.None? then ot else Some(Merge(ot.value, oe.value)),
       Uses(st.testNames, st.line, s) + r1 + rt + re)
    else if st.With? then
      var (o, r) := Body(st.body, s, tags);
      (Some(if o.None? then s else o.value), r)
    else Simple(st, s, tags)
  }

  /** All reports for a function whose last line is `end`. */
  function Check(body: seq<Stmt>, end: nat, tags: Tags): set<Report> {
    var (o, r) := Body(body, State(map[], map[]), tags);
    r + if o.Some? then Leaks(end, o.value, None) else {}
  }

  // ---- One path -----------------------------------------------------------------------------

  /** The same transfer functions along one path; each branch taken uses up one choice. */
  function PathBody(ss: seq<Stmt>, s: State, cs: seq<bool>, tags: Tags): (Option<State>, set<Report>, seq<bool>)
    decreases ss, 0
  {
    if ss == [] then (Some(s), {}, cs)
    else
      var (o, r1, cs1) := PathStep(ss[0], s, cs, tags);
      if o.None? then (None, r1, cs1)
      else
        var (o2, r2, cs2) := PathBody(ss[1..], o.value, cs1, tags);
        (o2, r1 + r2, cs2)
  }

  function PathStep(st: Stmt, s: State, cs: seq<bool>, tags: Tags): (Option<State>, set<Report>, seq<bool>)
    decreases st, 1
  {
    if st.If? then
      var (s1, r1) := DischargeAll(st.testCalls, s, tags);
      var taken := cs != [] && cs[0];
      var (o, r, cs1) := PathBody(if taken then st.body else st.orelse, s1, if cs == [] then [] else cs[1..], tags);
      (o, Uses(st.testNames, st.line, s) + r1 + r, cs1)
    else if st.With? then PathBody(st.body, s, cs, tags)
    else
      var (o, r) := Simple(st, s, tags);
      (o, r, cs)
  }

  function CheckPath(body: seq<Stmt>, end: nat, cs: seq<bool>, tags: Tags): set<Report> {
    var (o, r, _) := PathBody(body, State(map[], map[]), cs, tags);
    r + if o.Some? then Leaks(end, o.value, None) else {}
  }

  // ---- Merging over-approximates every path -------------------------------------------------

  ghost predicate Below(a: State, b: State) {
    a.live.Keys <= b.live.Keys && a.freed.Keys <= b.freed.Keys
  }

  /** Everything the smaller state's analysis yields is matched by the larger's. */
  ghost predicate Matched(a: (State, set<Report>), b: (State, set<Report>)) {
    Below(a.0, b.0) && a.1 <= b.1
  }

  lemma ArgMatched(c: Call, v: string, a: State, b: State, tags: Tags)
    requires Below(a, b)
    ensures Matched(Arg(c, v, a, tags), Arg(c, v, b, tags))
  {
  }

  lemma {:induction false} DischargeArgsMatched(c: Call, args: seq<Option<string>>, a: State, b: State, tags: Tags)
    requires Below(a, b)
    ensures Matched(DischargeArgs(c, args, a, tags), DischargeArgs(c, args, b, tags))
  {
    if args != [] {
      if args[0].Some? {
        ArgMatched(c, args[0].value, a, b, tags);
        DischargeArgsMatched(c, args[1..], Arg(c, args[0].value, a, tags).0, Arg(c, args[0].value, b, tags).0, tags);
      } else {
        DischargeArgsMatched(c, args[1..], a, b, tags);
      }
    }
  }

  lemma {:induction false} DischargeAllMatched(cs: seq<Call>, a: State, b: State, tags: Tags)
    requires Below(a, b)
    ensures Matched(DischargeAll(cs, a, tags), DischargeAll(cs, b, tags))
  {
    if cs != [] {
      DischargeArgsMatched(cs[0], cs[0].args, a, b, tags);
      DischargeAllMatched(cs[1..], Discharge(cs[0], a, tags).0, Discharge(cs[0], b, tags).0, tags);
    }
  }

  lemma {:induction false} AcquireBelow(ts: seq<Target>, line: nat, owned: bool, a: State, b: State, tags: Tags)
    requires Below(a, b)
    ensures Below(Acquire(ts, line, owned, a, tags), Acquire(ts, line, owned, b, tags))
  {
    if ts != [] {
      var t := ts[0];
      var a1 := if owned && t.Var? && t.x !in tags.skip then a.(live := a.live[t.x := line]) else a;
      var b1 := if owned && t.Var? && t.x !in tags.skip then b.(live := b.live[t.x := line]) else b;
      AcquireBelow(ts[1..], line, owned, a1, b1, tags);
    }
  }

  lemma SimpleMatched(st: Stmt, a: State, b: State, tags: Tags)
    requires Below(a, b) && !st.If? && !st.With?
    ensures var (oa, ra) := Simple(st, a, tags); var (ob, rb) := Simple(st, b, tags);
            ra <= rb && oa.Some? == ob.Some? && (oa.Some? ==> Below(oa.value, ob.value))
  {
    match st
    case AnnAssign(line, t, v) =>
      if v.Some? {
        ValueMatched(v.value, line, a, b, tags);
        var a1, b1 := Value(v.value, line, a, tags).0, Value(v.value, line, b, tags).0;
        AcquireBelow([Var(t)], line, Owned(v.value, tags), a1, b1, tags);
      }
    case Assign(line, ts, v) =>
      ValueMatched(v, line, a, b, tags);
      var a1, b1 := Value(v, line, a, tags).0, Value(v, line, b, tags).0;
      AcquireBelow(ts, line, Owned(v, tags), a1, b1, tags);
    case Bare(c) => DischargeArgsMatched(c, c.args, a, b, tags);
    case Return(_, _, _) =>
    case Raise(_) =>
    case Other =>
  }

  lemma ValueMatched(v: Rhs, line: nat, a: State, b: State, tags: Tags)
    requires Below(a, b)
    ensures Matched(Value(v, line, a, tags), Value(v, line, b, tags))
  {
    if v.CallRhs? { DischargeArgsMatched(v.call, v.call.args, a, b, tags); }
  }

  ghost predicate Covered(p: (Option<State>, set<Report>, seq<bool>), m: (Option<State>, set<Report>)) {
    p.1 <= m.1 && (p.0.Some? ==> m.0.Some? && Below(p.0.value, m.0.value))
  }

  lemma {:induction false} PathBodyCovered(ss: seq<Stmt>, a: State, b: State, cs: seq<bool>, tags: Tags)
    requires Below(a, b)
    ensures Covered(PathBody(ss, a, cs, tags), Body(ss, b, tags))
    decreases ss, 0
  {
    if ss != [] {
      PathStepCovered(ss[0], a, b, cs, tags);
      var (o, _, cs1) := PathStep(ss[0], a, cs, tags);
      if o.Some? { PathBodyCovered(ss[1..], o.value, Step(ss[0], b, tags).0.value, cs1, tags); }
    }
  }

  lemma {:induction false} PathStepCovered(st: Stmt, a: State, b: State, cs: seq<bool>, tags: Tags)
    requires Below(a, b)
    ensures Covered(PathStep(st, a, cs, tags), Step(st, b, tags))
    decreases st, 1
  {
    if st.If? {
      DischargeAllMatched(st.testCalls, a, b, tags);
      var a1, b1 := DischargeAll(st.testCalls, a, tags).0, DischargeAll(st.testCalls, b, tags).0;
      var rest := if cs == [] then [] else cs[1..];
      PathBodyCovered(st.body, a1, b1, rest, tags);
      PathBodyCovered(st.orelse, a1, b1, rest, tags);
      assert Uses(st.testNames, st.line, a) <= Uses(st.testNames, st.line, b);
    } else if st.With? {
      PathBodyCovered(st.body, a, b, cs, tags);
    } else {
      SimpleMatched(st, a, b, tags);
    }
  }

  /** Every leak, double free or use after free that the transfer functions report along some path, the
      merged analysis reports. */
  lemma MergingMissesNothing(body: seq<Stmt>, end: nat, cs: seq<bool>, tags: Tags)
    ensures CheckPath(body, end, cs, tags) <= Check(body, end, tags)
  {
    var s := State(map[], map[]);
    PathBodyCovered(body, s, s, cs, tags);
  }

  // ---- Which variables are tracked ----------------------------------------------------------

  /** Names with a meaning to the checker: builtins, and functions by their allocation tags. */
  datatype Names = Names(frees: set<string>, allocs: set<string>, raw: set<string>, safe: set<string>,
                         consumers: set<string>, stores: set<string>, borrows: set<string>, producers: set<string>)

  /** A function with its last line and the calls nested inside expressions, which are classified but not
      discharged. */
  datatype Func = Func(body: seq<Stmt>, end: nat, inner: seq<Call>)

  function CallsIn(ss: seq<Stmt>): seq<Call>
    decreases ss, 0
  {
    if ss == [] then [] else CallsOf(ss[0]) + CallsIn(ss[1..])
  }

  function CallsOf(st: Stmt): seq<Call>
    decreases st, 1
  {
    match st
    case AnnAssign(_, _, init) => if init.Some? && init.value.CallRhs? then [init.value.call] else []
    case Assign(_, _, value) => if value.CallRhs? then [value.call] else []
    case Bare(c) => [c]
    case If(_, _, calls, body, orelse) => calls + CallsIn(body) + CallsIn(orelse)
    case With(body) => CallsIn(body)
    case _ => []
  }

  function TargetVars(ts: seq<Target>): set<string> { set t | t in ts && t.Var? :: t.x }

  /** Variables assigned the result of a call of one of the functions, by assignments of one target only
      where `alone`. */
  function AssignedFrom(ss: seq<Stmt>, fs: set<string>, alone: bool): set<string>
    decreases ss, 0
  {
    if ss == [] then {} else AssignedFromIn(ss[0], fs, alone) + AssignedFrom(ss[1..], fs, alone)
  }

  function AssignedFromIn(st: Stmt, fs: set<string>, alone: bool): set<string>
    decreases st, 1
  {
    match st
    case AnnAssign(_, t, init) => if init.Some? && CallOfAny(init.value, fs) then {t} else {}
    case Assign(_, ts, value) => if CallOfAny(value, fs) && (alone ==> |ts| == 1) then TargetVars(ts) else {}
    case If(_, _, _, body, orelse) => AssignedFrom(body, fs, alone) + AssignedFrom(orelse, fs, alone)
    case With(body) => AssignedFrom(body, fs, alone)
    case _ => {}
  }

  predicate CallOfAny(r: Rhs, fs: set<string>) { r.CallRhs? && r.call.name.Some? && r.call.name.value in fs }

  /** Variables returned by name or assigned by name to a field. */
  function Leaving(ss: seq<Stmt>): set<string>
    decreases ss, 0
  {
    if ss == [] then {} else LeavingBy(ss[0]) + Leaving(ss[1..])
  }

  function LeavingBy(st: Stmt): set<string>
    decreases st, 1
  {
    match st
    case Return(_, returned, _) => if returned.Some? then {returned.value} else {}
    case Assign(_, ts, value) => if Field in ts && value.NameRhs? then {value.x} else {}
    case If(_, _, _, body, orelse) => Leaving(body) + Leaving(orelse)
    case With(body) => Leaving(body)
    case _ => {}
  }

  predicate Consumes(c: Call, n: Names) {
    c.name.Some? && (c.name.value in n.frees || (c.name.value !in n.safe && c.name.value in n.consumers))
  }

  /** A callee that stores its argument, or about which nothing is known. */
  predicate MayKeep(c: Call, n: Names) {
    !Consumes(c, n)
    && !(c.name.Some? && (c.name.value in n.safe || (c.name.value in n.borrows && c.name.value !in n.stores)))
  }

  /** skip_vars: raw allocations, and allocations that never leave the function or that escape from it. */
  function SkipVars(f: Func, n: Names): set<string> {
    var own := AssignedFrom(f.body, n.allocs, false);
    var calls := CallsIn(f.body) + f.inner;
    AssignedFrom(f.body, n.raw, true)
    + set v | v in own && (Escapes(v, own, f, calls, n) || !Consumed(v, own, calls, n))
  }

  /** A method call on a tracked variable is no ownership transfer. */
  predicate Counts(c: Call, own: set<string>) { !(c.name.None? && c.receiver.Some? && c.receiver.value in own) }

  predicate Consumed(v: string, own: set<string>, calls: seq<Call>, n: Names) {
    exists c :: c in calls && Counts(c, own) && Some(v) in c.args && Consumes(c, n)
  }

  predicate Escapes(v: string, own: set<string>, f: Func, calls: seq<Call>, n: Names) {
    v in Leaving(f.body) || exists c :: c in calls && Counts(c, own) && Some(v) in c.args && MayKeep(c, n)
  }

  function TagsOf(f: Func, n: Names): Tags {
    Tags(n.frees, n.consumers + n.stores, n.allocs + n.producers, SkipVars(f, n))
  }

  // ---- The checker in its own form ----------------------------------------------------------

  /** `reports` collects what is printed to stderr. */
  class Checker {
    const tags: Tags
    var reports: set<Report>

    constructor (tags: Tags)
      ensures this.tags == tags && reports == {}
    {
      this.tags, reports := tags, {};
    }

    method RunDischarge(c: Call, s: State) returns (s': State)
      modifies this
      ensures s' == Discharge(c, s, tags).0 && reports == old(reports) + Discharge(c, s, tags).1
    {
      s' := s;
      for i := 0 to |c.args|
        invariant DischargeArgs(c, c.args[i..], s', tags).0 == Discharge(c, s, tags).0
        invariant reports + DischargeArgs(c, c.args[i..], s', tags).1 == old(reports) + Discharge(c, s, tags).1
      {
        assert c.args[i..][1..] == c.args[i + 1..];
        if c.args[i].Some? {
          var v := c.args[i].value;
          var r;
          if c.name.Some? && c.name.value in tags.frees {
            if v in s'.freed {
              r := {Report(DoubleFree, c.line, v)};
            } else {
              s', r := State(s'.live - {v}, s'.freed[v := c.line]), {};
            }
          } else if c.name.Some? && c.name.value in tags.takers {
            if v in s'.freed {
              r := {Report(UseAfterFree, c.line, v)};
            } else {
              s', r := s'.(live := s'.live - {v}), {};
            }
          } else {
            r := if v in s'.freed then {Report(UseAfterFree, c.line, v)} else {};
          }
          reports := reports + r;
        }
      }
    }

    method AnalyzeBody(ss: seq<Stmt>, s: State) returns (o: Option<State>)
      modifies this
      ensures o == Body(ss, s, tags).0 && reports == old(reports) + Body(ss, s, tags).1
      decreases ss, 0
    {
      var cur := s;
      for i := 0 to |ss|
        invariant Body(ss, s, tags).0 == Body(ss[i..], cur, tags).0
        invariant old(reports) + Body(ss, s, tags).1 == reports + Body(ss[i..], cur, tags).1
      {
        assert ss[i..][1..] == ss[i + 1..];
        o := AnalyzeStmt(ss[i], cur);
        if o.None? { return; }
        cur := o.value;
      }
      o := Some(cur);
    }

    method AnalyzeStmt(st: Stmt, s: State) returns (o: Option<State>)
      modifies this
      ensures o == Step(st, s, tags).0 && reports == old(reports) + Step(st, s, tags).1
      decreases st, 1
    {
      match st
      case If(line, names, calls, body, orelse) =>
        reports := reports + Uses(names, line, s);
        var cur := s;
        ghost var before := reports;
        for i := 0 to |calls|
          invariant DischargeAll(calls, s, tags).0 == DischargeAll(calls[i..], cur, tags).0
          invariant before + DischargeAll(calls, s, tags).1 == reports + DischargeAll(calls[i..], cur, tags).1
        {
          assert calls[i..][1..] == calls[i + 1..];
          cur := RunDischarge(calls[i], cur);
        }
        var ot := AnalyzeBody(body, cur);
        var oe := AnalyzeBody(orelse, cur);
        o := if ot.None? then oe else if oe.None? then ot else Some(Merge(ot.value, oe.value));
      case With(body) =>
        var r := AnalyzeBody(body, s);
        o := Some(if r.None? then s else r.value);
      case _ =>
        var (o', r) := Simple(st, s, tags);
        reports := reports + r;
        o := o';
    }

    method CheckFunction(body: seq<Stmt>, end: nat)
      modifies this
      ensures reports == old(reports) + Check(body, end, tags)
      ensures forall cs :: CheckPath(body, end, cs, tags) <= reports
    {
      var o := AnalyzeBody(body, State(map[], map[]));
      if o.Some? { reports := reports + Leaks(end, o.value, None); }
      forall cs { MergingMissesNothing(body, end, cs, tags); }
    }
  }

  /** _check_leaks_func. */
  method CheckLeaksFunc(f: Func, n: Names) returns (reports: set<Report>)
    ensures reports == Check(f.body, f.end, TagsOf(f, n))
    ensures forall cs :: CheckPath(f.body, f.end, cs, TagsOf(f, n)) <= reports
  {
    var c := new Checker(TagsOf(f, n));
    c.CheckFunction(f.body, f.end);
    reports := c.reports;
  }
}
