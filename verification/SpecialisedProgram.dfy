// From the scan to the rewritten program: the calls of every hot function scanned, the calls found in the map
// compiled as calls of clones (compiler/codegen_stmts.py:608-674, compiler/codegen_exprs.py:562-568), and the
// whole program computing what it did before.
module SpecialisedProgram {
  import opened Wrappers
  import opened MiniLang
  import opened Specialise
  import opened SpecialiseScan

  type CallMap = map<Id, (nat, seq<nat>)>

  // ---- Call nodes ---------------------------------------------------------------------------

  function CallsIn(e: Expr): nat
    decreases e
  {
    match e
    case Lit(_) => 0
    case Var(_) => 0
    case Bad => 0
    case Bin(_, a, b) => CallsIn(a) + CallsIn(b)
    case Call(_, args) => 1 + CallsInAll(args)
  }

  function CallsInAll(es: seq<Expr>): nat
    decreases es
  {
    if es == [] then 0 else CallsIn(es[0]) + CallsInAll(es[1..])
  }

  function CallsInS(s: Stmt): nat {
    match s
    case Skip => 0
    case Invalid => 0
    case Assign(_, _, e) => CallsIn(e)
    case Emit(e) => CallsIn(e)
    case Return(e) => CallsIn(e)
    case Seq(a, b) => CallsInS(a) + CallsInS(b)
    case If(c, a, b) => CallsIn(c) + (CallsInS(a) + CallsInS(b))
    case While(c, b) => CallsIn(c) + CallsInS(b)
  }

  function ConstOf(v: Val): PyConst { if v.I? then PyInt(v.v) else PyFloat(v.r) }

  function ArgsOf(args: seq<Expr>): (r: seq<Arg>)
    ensures |r| == |args|
  {
    seq(|args|, i requires 0 <= i < |args| => if args[i].Lit? then Constant(ConstOf(args[i].v)) else Other)
  }

  /** The call nodes of an expression, numbered from n in the function g. */
  function Sites(e: Expr, g: string, n: nat): set<Site>
    decreases e
  {
    match e
    case Lit(_) => {}
    case Var(_) => {}
    case Bad => {}
    case Bin(_, a, b) => Sites(a, g, n) + Sites(b, g, n + CallsIn(a))
    case Call(f, args) => {Site(Id(g, n), f, ArgsOf(args))} + SitesAll(args, g, n + 1)
  }

  function SitesAll(es: seq<Expr>, g: string, n: nat): set<Site>
    decreases es
  {
    if es == [] then {} else Sites(es[0], g, n) + SitesAll(es[1..], g, n + CallsIn(es[0]))
  }

  function SitesS(s: Stmt, g: string, n: nat): set<Site> {
    match s
    case Skip => {}
    case Invalid => {}
    case Assign(_, _, e) => Sites(e, g, n)
    case Emit(e) => Sites(e, g, n)
    case Return(e) => Sites(e, g, n)
    case Seq(a, b) => SitesS(a, g, n) + SitesS(b, g, n + CallsInS(a))
    case If(c, a, b) =>
      var m := n + CallsIn(c);
      Sites(c, g, n) + (SitesS(a, g, m) + SitesS(b, g, m + CallsInS(a)))
    case While(c, b) => Sites(c, g, n) + SitesS(b, g, n + CallsIn(c))
  }

  lemma {:induction false} SiteRange(e: Expr, g: string, n: nat, s: Site)
    requires s in Sites(e, g, n)
    ensures s.id.inside == g && n <= s.id.n < n + CallsIn(e)
    decreases e
  {
    match e
    case Bin(_, a, b) =>
      if s in Sites(a, g, n) { SiteRange(a, g, n, s); } else { SiteRange(b, g, n + CallsIn(a), s); }
    case Call(_, args) => if s in SitesAll(args, g, n + 1) { SiteRangeAll(args, g, n + 1, s); }
  }

  lemma {:induction false} SiteRangeAll(es: seq<Expr>, g: string, n: nat, s: Site)
    requires s in SitesAll(es, g, n)
    ensures s.id.inside == g && n <= s.id.n < n + CallsInAll(es)
    decreases es
  {
    var m := n + CallsIn(es[0]);
    if s in Sites(es[0], g, n) { SiteRange(es[0], g, n, s); } else { SiteRangeAll(es[1..], g, m, s); }
  }

  lemma {:induction false} SiteRangeS(st: Stmt, g: string, n: nat, s: Site)
    requires s in SitesS(st, g, n)
    ensures s.id.inside == g && n <= s.id.n < n + CallsInS(st)
  {
    match st
    case Assign(_, _, e) => SiteRange(e, g, n, s);
    case Emit(e) => SiteRange(e, g, n, s);
    case Return(e) => SiteRange(e, g, n, s);
    case Seq(a, b) =>
      if s in SitesS(a, g, n) { SiteRangeS(a, g, n, s); } else { SiteRangeS(b, g, n + CallsInS(a), s); }
    case If(c, a, b) =>
      var m := n + CallsIn(c);
      if s in Sites(c, g, n) { SiteRange(c, g, n, s); }
      else if s in SitesS(a, g, m) { SiteRangeS(a, g, m, s); }
      else { SiteRangeS(b, g, m + CallsInS(a), s); }
    case While(c, b) =>
      if s in Sites(c, g, n) { SiteRange(c, g, n, s); } else { SiteRangeS(b, g, n + CallsIn(c), s); }
  }

  /** Call nodes have different numbers. */
  lemma {:induction false} OneSite(e: Expr, g: string, n: nat, s: Site, t: Site)
    requires s in Sites(e, g, n) && t in Sites(e, g, n) && s.id == t.id
    ensures s == t
    decreases e
  {
    match e
    case Bin(_, a, b) =>
      var m := n + CallsIn(a);
      if s in Sites(a, g, n) { SiteRange(a, g, n, s); } else { SiteRange(b, g, m, s); }
      if t in Sites(a, g, n) { SiteRange(a, g, n, t); } else { SiteRange(b, g, m, t); }
      if s.id.n < m { OneSite(a, g, n, s, t); } else { OneSite(b, g, m, s, t); }
    case Call(_, args) =>
      if s in SitesAll(args, g, n + 1) { SiteRangeAll(args, g, n + 1, s); }
      if t in SitesAll(args, g, n + 1) { SiteRangeAll(args, g, n + 1, t); }
      if s.id.n > n { OneSiteAll(args, g, n + 1, s, t); }
  }

  lemma {:induction false} OneSiteAll(es: seq<Expr>, g: string, n: nat, s: Site, t: Site)
    requires s in SitesAll(es, g, n) && t in SitesAll(es, g, n) && s.id == t.id
    ensures s == t
    decreases es
  {
    var m := n + CallsIn(es[0]);
    if s in Sites(es[0], g, n) { SiteRange(es[0], g, n, s); } else { SiteRangeAll(es[1..], g, m, s); }
    if t in Sites(es[0], g, n) { SiteRange(es[0], g, n, t); } else { SiteRangeAll(es[1..], g, m, t); }
    if s.id.n < m { OneSite(es[0], g, n, s, t); } else { OneSiteAll(es[1..], g, m, s, t); }
  }

  lemma {:induction false} OneSiteS(st: Stmt, g: string, n: nat, s: Site, t: Site)
    requires s in SitesS(st, g, n) && t in SitesS(st, g, n) && s.id == t.id
    ensures s == t
    decreases st, 1
  {
    match st
    case Assign(_, _, e) => OneSite(e, g, n, s, t);
    case Emit(e) => OneSite(e, g, n, s, t);
    case Return(e) => OneSite(e, g, n, s, t);
    case Seq(a, b) => OneSitePair(st, a, b, g, n, s, t);
    case If(c, a, b) =>
      var m := n + CallsIn(c);
      WhichPart(c, s, g, n);
      WhichPart(c, t, g, n);
      if s in SitesS(a, g, m) + SitesS(b, g, m + CallsInS(a)) { PairRange(a, b, g, m, s); }
      if t in SitesS(a, g, m) + SitesS(b, g, m + CallsInS(a)) { PairRange(a, b, g, m, t); }
      if s.id.n < m { OneSite(c, g, n, s, t); } else { OneSitePair(st, a, b, g, m, s, t); }
    case While(c, b) =>
      var m := n + CallsIn(c);
      WhichPart(c, s, g, n);
      WhichPart(c, t, g, n);
      if s in SitesS(b, g, m) { SiteRangeS(b, g, m, s); }
      if t in SitesS(b, g, m) { SiteRangeS(b, g, m, t); }
      if s.id.n < m { OneSite(c, g, n, s, t); } else { OneSiteS(b, g, m, s, t); }
  }

  lemma WhichPart(c: Expr, s: Site, g: string, n: nat)
    ensures s in Sites(c, g, n) ==> s.id.n < n + CallsIn(c)
  {
    if s in Sites(c, g, n) { SiteRange(c, g, n, s); }
  }

  lemma PairRange(a: Stmt, b: Stmt, g: string, n: nat, s: Site)
    requires s in SitesS(a, g, n) + SitesS(b, g, n + CallsInS(a))
    ensures n <= s.id.n && (s in SitesS(a, g, n) <==> s.id.n < n + CallsInS(a))
  {
    if s in SitesS(a, g, n) { SiteRangeS(a, g, n, s); }
    if s in SitesS(b, g, n + CallsInS(a)) { SiteRangeS(b, g, n + CallsInS(a), s); }
  }

  lemma {:induction false} OneSitePair(st: Stmt, a: Stmt, b: Stmt, g: string, n: nat, s: Site, t: Site)
    requires (st.Seq? && a == st.first && b == st.second) || (st.If? && a == st.thn && b == st.els)
    requires var both := SitesS(a, g, n) + SitesS(b, g, n + CallsInS(a)); s in both && t in both && s.id == t.id
    ensures s == t
    decreases st, 0
  {
    PairRange(a, b, g, n, s);
    PairRange(a, b, g, n, t);
    if s.id.n < n + CallsInS(a) { OneSiteS(a, g, n, s, t); } else { OneSiteS(b, g, n + CallsInS(a), s, t); }
  }

  // ---- Compiling the calls ------------------------------------------------------------------

  /** compile_call's arguments: the listed ones. */
  function Pick(es: seq<Expr>, indices: seq<nat>): (r: seq<Expr>)
    ensures |r| == |indices|
  {
    seq(|indices|, i requires 0 <= i < |indices| => if indices[i] < |es| then es[indices[i]] else Bad)
  }

  function Compiled(e: Expr, g: string, n: nat, calls: CallMap, name: nat -> string): Expr
    decreases e
  {
    match e
    case Lit(_) => e
    case Var(_) => e
    case Bad => e
    case Bin(op, a, b) => Bin(op, Compiled(a, g, n, calls, name), Compiled(b, g, n + CallsIn(a), calls, name))
    case Call(f, args) =>
      var compiled := CompiledAll(args, g, n + 1, calls, name);
      if Id(g, n) in calls then
        var (clone, indices) := calls[Id(g, n)];
        Call(name(clone), Pick(compiled, indices))
      else Call(f, compiled)
  }

  function CompiledAll(es: seq<Expr>, g: string, n: nat, calls: CallMap, name: nat -> string): (r: seq<Expr>)
    ensures |r| == |es|
    decreases es
  {
    if es == [] then []
    else [Compiled(es[0], g, n, calls, name)] + CompiledAll(es[1..], g, n + CallsIn(es[0]), calls, name)
  }

  function CompiledS(s: Stmt, g: string, n: nat, calls: CallMap, name: nat -> string): Stmt {
    match s
    case Skip => s
    case Invalid => s
    case Assign(x, t, e) => Assign(x, t, Compiled(e, g, n, calls, name))
    case Emit(e) => Emit(Compiled(e, g, n, calls, name))
    case Return(e) => Return(Compiled(e, g, n, calls, name))
    case Seq(a, b) => Seq(CompiledS(a, g, n, calls, name), CompiledS(b, g, n + CallsInS(a), calls, name))
    case If(c, a, b) =>
      var m := n + CallsIn(c);
      If(Compiled(c, g, n, calls, name), CompiledS(a, g, m, calls, name), CompiledS(b, g, m + CallsInS(a), calls, name))
    case While(c, b) => While(Compiled(c, g, n, calls, name), CompiledS(b, g, n + CallsIn(c), calls, name))
  }

  // ---- The scan's view of a program ---------------------------------------------------------

  function StmtCount(s: Stmt): nat {
    match s
    case Seq(a, b) => StmtCount(a) + StmtCount(b)
    case If(_, a, b) => 1 + StmtCount(a) + StmtCount(b)
    case While(_, b) => 1 + StmtCount(b)
    case _ => 1
  }

  function DefOf(f: Func): Def {
    Def(seq(|f.params|, i requires 0 <= i < |f.params| => f.params[i].0), StmtCount(f.body))
  }

  function Defs(p: Program): map<string, Def> { map f | f in p :: DefOf(p[f]) }

  function BodySites(p: Program, g: string): set<Site>
    requires g in p
  {
    SitesS(p[g].body, g, 0)
  }

  lemma BodySitesDistinct(p: Program, g: string)
    requires g in p
    ensures forall s :: s in BodySites(p, g) ==> s.id.inside == g
    ensures forall s, t :: s in BodySites(p, g) && t in BodySites(p, g) && s.id == t.id ==> s == t
  {
    forall s | s in BodySites(p, g) ensures s.id.inside == g { SiteRangeS(p[g].body, g, 0, s); }
    forall s, t | s in BodySites(p, g) && t in BodySites(p, g) && s.id == t.id ensures s == t {
      OneSiteS(p[g].body, g, 0, s, t);
    }
  }

  /** Every call in the map is a call node whose key has the clone it is mapped to. */
  ghost predicate SitesOk(sites: set<Site>, defs: map<string, Def>, cache: map<Key, Entry>, calls: CallMap) {
    forall s :: s in sites && s.id in calls ==> Takes(s, defs) && Mapped(s, defs, cache, calls)
  }

  ghost predicate CallsOk(p: Program, cache: map<Key, Entry>, calls: CallMap) {
    forall g :: g in p ==> SitesOk(BodySites(p, g), Defs(p), cache, calls)
  }

  ghost predicate Walks(p: Program, hot: seq<string>, walk: map<string, seq<Site>>) {
    && NoDup(hot) && (forall g :: g in hot ==> g in p && g in walk)
    && (forall g, s :: g in hot ==> (s in walk[g] <==> s in BodySites(p, g)))
  }

  /** Calls mapped so far: those of the functions done, each to the clone of its key. */
  ghost predicate ScannedSoFar(p: Program, done: seq<string>, cache: map<Key, Entry>, calls: CallMap) {
    CallsOk(p, cache, calls) && forall id :: id in calls ==> id.inside in done
  }

  /** One more function scanned. */
  lemma ScannedMore(p: Program, done: seq<string>, g: string, sites: seq<Site>, a: map<Key, Entry>, b: map<Key, Entry>,
                    m: CallMap, n: CallMap)
    requires ScannedSoFar(p, done, a, m) && g in p && g !in done && Grows(a, b)
    requires forall s :: s in sites <==> s in BodySites(p, g)
    requires AllMapped(sites, Open(sites, Defs(p)), Defs(p), b, n)
    requires SameOutside(m, n, Ids(sites, Defs(p), Open(sites, Defs(p))))
    ensures ScannedSoFar(p, done + [g], b, n)
  {
    BodySitesDistinct(p, g);
    forall id | id in n ensures id.inside in done + [g] {
      if id.inside != g { assert id !in Ids(sites, Defs(p), Open(sites, Defs(p))); }
    }
    forall f | f in p ensures SitesOk(BodySites(p, f), Defs(p), b, n) {
      if f == g {
        NewSitesOk(p, g, sites, b, m, n);
      } else {
        OldSitesOk(p, f, g, sites, a, b, m, n);
      }
    }
  }

  lemma NewSitesOk(p: Program, g: string, sites: seq<Site>, b: map<Key, Entry>, m: CallMap, n: CallMap)
    requires g in p && (forall id :: id in m ==> id.inside != g)
    requires forall s :: s in sites <==> s in BodySites(p, g)
    requires AllMapped(sites, Open(sites, Defs(p)), Defs(p), b, n)
    requires SameOutside(m, n, Ids(sites, Defs(p), Open(sites, Defs(p))))
    ensures SitesOk(BodySites(p, g), Defs(p), b, n)
  {
    BodySitesDistinct(p, g);
    forall s | s in BodySites(p, g) && s.id in n ensures Takes(s, Defs(p)) && Mapped(s, Defs(p), b, n) {
      assert s.id !in m;
      assert s.id in Ids(sites, Defs(p), Open(sites, Defs(p)));
      var t :| t in sites && Takes(t, Defs(p)) && t.callee in Open(sites, Defs(p)) && t.id == s.id;
      assert t == s;
    }
  }

  lemma OldSitesOk(p: Program, f: string, g: string, sites: seq<Site>, a: map<Key, Entry>, b: map<Key, Entry>,
                   m: CallMap, n: CallMap)
    requires f in p && g in p && f != g && Grows(a, b) && SitesOk(BodySites(p, f), Defs(p), a, m)
    requires forall s :: s in sites <==> s in BodySites(p, g)
    requires SameOutside(m, n, Ids(sites, Defs(p), Open(sites, Defs(p))))
    ensures SitesOk(BodySites(p, f), Defs(p), b, n)
  {
    BodySitesDistinct(p, f);
    BodySitesDistinct(p, g);
    forall s | s in BodySites(p, f) && s.id in n ensures Takes(s, Defs(p)) && Mapped(s, Defs(p), b, n) {
      assert s.id !in Ids(sites, Defs(p), Open(sites, Defs(p)));
      MappedKept(s, Defs(p), a, b, m, n);
    }
  }

  /** The scan of every hot function, one after the other, over its call nodes in any order. */
  method ScanAll(p: Program, hot: seq<string>, walk: map<string, seq<Site>>) returns (sp: Specialiser)
    requires Walks(p, hot, walk)
    ensures fresh(sp) && CacheOk(sp.specCache, sp.counter, Defs(p)) && CallsOk(p, sp.specCache, sp.callSpecMap)
  {
    sp := new Specialiser();
    for i := 0 to |hot|
      invariant fresh(sp) && CacheOk(sp.specCache, sp.counter, Defs(p))
      invariant ScannedSoFar(p, hot[..i], sp.specCache, sp.callSpecMap)
    {
      var g := hot[i];
      assert g in hot;
      BodySitesDistinct(p, g);
      ghost var a, m := sp.specCache, sp.callSpecMap;
      sp.Scan(Defs(p), walk[g]);
      ScannedMore(p, hot[..i], g, walk[g], a, sp.specCache, m, sp.callSpecMap);
      assert hot[..i + 1] == hot[..i] + [g];
    }
  }

  // ---- The program that is emitted ----------------------------------------------------------

  function ConstsOf(n: nat, consts: map<nat, PyConst>): (r: seq<Option<Val>>)
    ensures |r| == n
  {
    seq(n, i requires 0 <= i < n => if i in consts then Some(CVal(consts[i])) else None)
  }

  function CloneFor(p: Program, k: Key, e: Entry): Clone
    requires k.callee in p
  {
    Clone(k.callee, ConstsOf(|p[k.callee].params|, e.consts))
  }

  /** Clone names are distinct and clash with no function. */
  ghost predicate NamesOk(name: nat -> string, p: Program) {
    (forall c, d :: name(c) == name(d) ==> c == d) && forall c :: name(c) !in p
  }

  ghost function ClonesOf(p: Program, cache: map<Key, Entry>, counter: nat, name: nat -> string): Clones
    requires CacheOk(cache, counter, Defs(p)) && NamesOk(name, p)
  {
    map k | k in cache :: name(cache[k].name) := CloneFor(p, k, cache[k])
  }

  /** The callee with the constants in place of their parameters. */
  function CloneFunc(p: Program, c: Clone): Func
    requires c.callee in p && |c.consts| == |p[c.callee].params|
  {
    var f := p[c.callee];
    Func(Keep(f.params, c.consts), f.ret, SubstS(f.body, Substituted(f.params, c.consts)))
  }

  /** The functions with their mapped calls compiled as calls of clones, and the clones. Calls inside a clone are
      new nodes that are not in the map. */
  ghost function Output(p: Program, calls: CallMap, cl: Clones, name: nat -> string): Program
    requires forall c :: c in cl ==> cl[c].callee in p && |cl[c].consts| == |p[cl[c].callee].params|
  {
    map f | f in p.Keys + cl.Keys ::
      if f in p then Func(p[f].params, p[f].ret, CompiledS(p[f].body, f, 0, calls, name)) else CloneFunc(p, cl[f])
  }

  // ---- Conditions on the program ------------------------------------------------------------

  /** Calls are of functions of the program, with all arguments. */
  predicate CallsKnown(e: Expr, p: Program)
    decreases e
  {
    match e
    case Lit(_) => true
    case Var(_) => true
    case Bad => true
    case Bin(_, a, b) => CallsKnown(a, p) && CallsKnown(b, p)
    case Call(f, args) => f in p && |args| == |p[f].params| && AllCallsKnown(args, p)
  }

  predicate AllCallsKnown(es: seq<Expr>, p: Program)
    decreases es
  {
    es != [] ==> CallsKnown(es[0], p) && AllCallsKnown(es[1..], p)
  }

  predicate CallsKnownS(s: Stmt, p: Program) {
    match s
    case Skip => true
    case Invalid => true
    case Assign(_, _, e) => CallsKnown(e, p)
    case Emit(e) => CallsKnown(e, p)
    case Return(e) => CallsKnown(e, p)
    case Seq(a, b) => CallsKnownS(a, p) && CallsKnownS(b, p)
    case If(c, a, b) => CallsKnown(c, p) && CallsKnownS(a, p) && CallsKnownS(b, p)
    case While(c, b) => CallsKnown(c, p) && CallsKnownS(b, p)
  }

  ghost predicate ProgramOk(p: Program) {
    forall f :: f in p ==> DistinctNames(p[f].params) && CallsKnownS(p[f].body, p)
  }

  /** A cached constant is a literal of its parameter's type. */
  ghost predicate TypedEntry(p: Program, k: Key, e: Entry)
    requires k.callee in p
  {
    forall i :: i in e.consts && i < |p[k.callee].params| ==> TypedLiteral(p[k.callee].params[i].1, e.consts[i])
  }

  /** The callee neither assigns nor calls the parameters that become constants (CloneCompiles). */
  ghost predicate EntryCompiles(p: Program, k: Key, e: Entry)
    requires k.callee in p
  {
    LeavesAlone(p[k.callee].body, Substituted(p[k.callee].params, CloneFor(p, k, e).consts).Keys)
  }

  ghost predicate CacheFits(p: Program, cache: map<Key, Entry>, counter: nat) {
    && CacheOk(cache, counter, Defs(p))
    && forall k :: k in cache ==> TypedEntry(p, k, cache[k]) && EntryCompiles(p, k, cache[k])
  }

  // ---- It is a rewritten program ------------------------------------------------------------

  /** What the proofs below keep at hand. */
  ghost predicate Setting(p: Program, cache: map<Key, Entry>, counter: nat, name: nat -> string, cl: Clones) {
    ProgramOk(p) && CacheFits(p, cache, counter) && NamesOk(name, p) && cl == ClonesOf(p, cache, counter, name)
  }

  lemma CloneAt(p: Program, cache: map<Key, Entry>, counter: nat, name: nat -> string, cl: Clones, k: Key)
    requires Setting(p, cache, counter, name, cl) && k in cache
    ensures name(cache[k].name) in cl && cl[name(cache[k].name)] == CloneFor(p, k, cache[k])
  {
  }

  lemma CloneFrom(p: Program, cache: map<Key, Entry>, counter: nat, name: nat -> string, cl: Clones, c: string)
    returns (k: Key)
    requires Setting(p, cache, counter, name, cl) && c in cl
    ensures k in cache && c == name(cache[k].name) && cl[c] == CloneFor(p, k, cache[k])
  {
    k :| k in cache && c == name(cache[k].name) && cl[c] == CloneFor(p, k, cache[k]);
  }

  ghost predicate NoneIsClone(p: Program, cl: Clones) { forall c :: c in cl ==> c !in p }

  lemma ClonesAreNew(p: Program, cache: map<Key, Entry>, counter: nat, name: nat -> string, cl: Clones)
    requires Setting(p, cache, counter, name, cl)
    ensures NoneIsClone(p, cl)
  {
    forall c | c in cl ensures c !in p { var k := CloneFrom(p, cache, counter, name, cl, c); }
  }

  ghost predicate RedirectedAt(es: seq<Expr>, es2: seq<Expr>, i: nat, p: Program, cl: Clones)
    requires i < |es| == |es2|
  {
    Redirected(es[i], es2[i], p, cl)
  }

  lemma {:induction false} AllRedirectedAt(es: seq<Expr>, es2: seq<Expr>, i: nat, p: Program, cl: Clones)
    requires AllRedirected(es, es2, p, cl) && i < |es|
    ensures RedirectedAt(es, es2, i, p, cl)
  {
    if i > 0 { AllRedirectedAt(es[1..], es2[1..], i - 1, p, cl); }
  }

  /** At this position the call passes its argument on, or drops the very constant the clone has. */
  ghost predicate Fits(args: seq<Expr>, given: map<nat, PyConst>, params: seq<(string, CType)>,
                       consts: seq<Option<Val>>, i: nat)
    requires i < |args| == |params| == |consts|
  {
    && (consts[i].Some? <==> i in given)
    && (consts[i].Some? ==> args[i].Lit? && Conv(params[i].1, args[i].v) == consts[i].value)
  }

  lemma PickFirst(es: seq<Expr>, i: nat, rest: seq<nat>)
    requires i < |es|
    ensures Pick(es, [i] + rest) == [es[i]] + Pick(es, rest)
  {
  }

  lemma {:induction false} ArgsFitFrom(s: Site, d: Def, args: seq<Expr>, compiled: seq<Expr>,
                                       params: seq<(string, CType)>, consts: seq<Option<Val>>, k: nat, p: Program,
                                       cl: Clones)
    requires |args| == |s.args| == |compiled| == |params| == |consts| && k <= |args|
    requires forall i :: 0 <= i < |args| ==> RedirectedAt(args, compiled, i, p, cl)
    requires forall i :: 0 <= i < |args| ==> Fits(args, ConstArgs(s, d), params, consts, i)
    ensures ArgsFit(args[k..], Pick(compiled, NonConst(s, d, k)), params[k..], consts[k..], p, cl)
    decreases |args| - k
  {
    if k < |args| {
      ArgsFitFrom(s, d, args, compiled, params, consts, k + 1, p, cl);
      assert args[k..][1..] == args[k + 1..] && params[k..][1..] == params[k + 1..];
      assert consts[k..][1..] == consts[k + 1..];
      assert RedirectedAt(args, compiled, k, p, cl) && Fits(args, ConstArgs(s, d), params, consts, k);
      if k in ConstArgs(s, d) {
        assert NonConst(s, d, k) == NonConst(s, d, k + 1);
      } else {
        PickFirst(compiled, k, NonConst(s, d, k + 1));
        assert Pick(compiled, NonConst(s, d, k))[1..] == Pick(compiled, NonConst(s, d, k + 1));
      }
    }
  }

  /** The constants of a mapped call are those of its clone. */
  lemma ConstantsFit(p: Program, cache: map<Key, Entry>, counter: nat, calls: CallMap, s: Site, args: seq<Expr>)
    requires ProgramOk(p) && CacheFits(p, cache, counter) && s.callee in p && Mapped(s, Defs(p), cache, calls)
    requires s.args == ArgsOf(args) && |args| == |p[s.callee].params|
    ensures var d := DefOf(p[s.callee]);
            var k := SiteKey(s, d);
            k in cache && k.callee == s.callee
            && forall i :: 0 <= i < |args| ==>
                 Fits(args, ConstArgs(s, d), p[s.callee].params, CloneFor(p, k, cache[k]).consts, i)
  {
    var d, params := DefOf(p[s.callee]), p[s.callee].params;
    var k := SiteKey(s, d);
    var types := seq(|params|, i requires 0 <= i < |params| => params[i].1);
    CallFitsExactly(s, Defs(p), types, cache, counter, calls);
    forall i | 0 <= i < |args| ensures Fits(args, ConstArgs(s, d), params, CloneFor(p, k, cache[k]).consts, i) {
      if i in ConstArgs(s, d) {
        assert TypedLiteral(types[i], cache[k].consts[i]);
        assert CVal(ConstArgs(s, d)[i]) == args[i].v;
      }
    }
  }

  /** A program being compiled: the clones, the call map and names it is compiled with, and call nodes of it. */
  datatype Job = Job(p: Program, cl: Clones, calls: CallMap, name: nat -> string, sites: set<Site>)

  /** If the call at site s is in the map, its compiled form is a redirection of it. */
  ghost predicate CallFits(w: Job, e: Expr, s: Site, compiled: seq<Expr>) {
    e.Call? && CallsKnown(e, w.p) && AllRedirected(e.args, compiled, w.p, w.cl) &&
    s in w.sites && s.id in w.calls && s.callee == e.f && s.args == ArgsOf(e.args) ==>
      Redirected(e, Call(w.name(w.calls[s.id].0), Pick(compiled, w.calls[s.id].1)), w.p, w.cl)
  }

  ghost predicate Ready(w: Job) {
    NoneIsClone(w.p, w.cl) && forall e, s, compiled :: CallFits(w, e, s, compiled)
  }

  lemma MappedRedirected(p: Program, cache: map<Key, Entry>, counter: nat, calls: CallMap, name: nat -> string,
                         cl: Clones, e: Expr, s: Site, compiled: seq<Expr>)
    requires Setting(p, cache, counter, name, cl) && e.Call? && CallsKnown(e, p)
    requires s.callee == e.f && s.args == ArgsOf(e.args) && Mapped(s, Defs(p), cache, calls)
    requires AllRedirected(e.args, compiled, p, cl)
    ensures Redirected(e, Call(name(calls[s.id].0), Pick(compiled, calls[s.id].1)), p, cl)
  {
    var d, params := DefOf(p[e.f]), p[e.f].params;
    var k := SiteKey(s, d);
    ConstantsFit(p, cache, counter, calls, s, e.args);
    CloneAt(p, cache, counter, name, cl, k);
    var consts := CloneFor(p, k, cache[k]).consts;
    forall i | 0 <= i < |e.args| ensures RedirectedAt(e.args, compiled, i, p, cl) {
      AllRedirectedAt(e.args, compiled, i, p, cl);
    }
    ArgsFitFrom(s, d, e.args, compiled, params, consts, 0, p, cl);
    assert e.args[0..] == e.args && params[0..] == params && consts[0..] == consts;
  }

  lemma ScannedIsReady(p: Program, cache: map<Key, Entry>, counter: nat, calls: CallMap, name: nat -> string,
                       cl: Clones, sites: set<Site>)
    requires Setting(p, cache, counter, name, cl) && SitesOk(sites, Defs(p), cache, calls)
    ensures Ready(Job(p, cl, calls, name, sites))
  {
    var w := Job(p, cl, calls, name, sites);
    ClonesAreNew(p, cache, counter, name, cl);
    forall e, s, compiled ensures CallFits(w, e, s, compiled) {
      if e.Call? && CallsKnown(e, p) && AllRedirected(e.args, compiled, p, cl) &&
         s in sites && s.id in calls && s.callee == e.f && s.args == ArgsOf(e.args)
      {
        MappedRedirected(p, cache, counter, calls, name, cl, e, s, compiled);
      }
    }
  }

  /** Every expression compiles to a redirected one. */
  lemma {:induction false} CompiledRedirected(w: Job, e: Expr, g: string, n: nat)
    requires Ready(w) && CallsKnown(e, w.p) && Sites(e, g, n) <= w.sites
    ensures Redirected(e, Compiled(e, g, n, w.calls, w.name), w.p, w.cl)
    decreases e
  {
    match e
    case Lit(_) =>
    case Var(_) =>
    case Bad =>
    case Bin(_, a, b) =>
      CompiledRedirected(w, a, g, n);
      CompiledRedirected(w, b, g, n + CallsIn(a));
    case Call(f, args) =>
      var s := Site(Id(g, n), f, ArgsOf(args));
      CompiledAllRedirected(w, args, g, n + 1);
      assert s in Sites(e, g, n) && CallFits(w, e, s, CompiledAll(args, g, n + 1, w.calls, w.name));
  }

  lemma {:induction false} CompiledAllRedirected(w: Job, es: seq<Expr>, g: string, n: nat)
    requires Ready(w) && AllCallsKnown(es, w.p) && SitesAll(es, g, n) <= w.sites
    ensures AllRedirected(es, CompiledAll(es, g, n, w.calls, w.name), w.p, w.cl)
    decreases es
  {
    if es != [] {
      CompiledRedirected(w, es[0], g, n);
      CompiledAllRedirected(w, es[1..], g, n + CallsIn(es[0]));
    }
  }

  lemma {:induction false} CompiledSRedirected(w: Job, s: Stmt, g: string, n: nat)
    requires Ready(w) && CallsKnownS(s, w.p) && SitesS(s, g, n) <= w.sites
    ensures RedirectedS(s, CompiledS(s, g, n, w.calls, w.name), w.p, w.cl)
  {
    match s
    case Skip =>
    case Invalid =>
    case Assign(_, _, e) => CompiledRedirected(w, e, g, n);
    case Emit(e) => CompiledRedirected(w, e, g, n);
    case Return(e) => CompiledRedirected(w, e, g, n);
    case Seq(a, b) =>
      CompiledSRedirected(w, a, g, n);
      CompiledSRedirected(w, b, g, n + CallsInS(a));
    case If(c, a, b) =>
      var m := n + CallsIn(c);
      CompiledRedirected(w, c, g, n);
      CompiledSRedirected(w, a, g, m);
      CompiledSRedirected(w, b, g, m + CallsInS(a));
    case While(c, b) =>
      CompiledRedirected(w, c, g, n);
      CompiledSRedirected(w, b, g, n + CallsIn(c));
  }

  // ---- Bodies of clones ---------------------------------------------------------------------

  /** A substituted body calls only the program's functions, so that it is its own redirection. */
  lemma {:induction false} SubstitutedRedirected(e: Expr, m: Env, p: Program, cl: Clones)
    requires CallsKnown(e, p) && NoneIsClone(p, cl)
    ensures Redirected(SubstE(e, m), SubstE(e, m), p, cl)
    decreases e
  {
    match e
    case Bin(_, a, b) => SubstitutedRedirected(a, m, p, cl); SubstitutedRedirected(b, m, p, cl);
    case Call(f, args) => SubstitutedAllRedirected(args, m, p, cl);
    case _ =>
  }

  lemma {:induction false} SubstitutedAllRedirected(es: seq<Expr>, m: Env, p: Program, cl: Clones)
    requires AllCallsKnown(es, p) && NoneIsClone(p, cl)
    ensures AllRedirected(SubstAll(es, m), SubstAll(es, m), p, cl)
    decreases es
  {
    if es != [] {
      SubstitutedRedirected(es[0], m, p, cl);
      SubstitutedAllRedirected(es[1..], m, p, cl);
      assert SubstAll(es, m)[1..] == SubstAll(es[1..], m);
    }
  }

  lemma {:induction false} SubstitutedSRedirected(s: Stmt, m: Env, p: Program, cl: Clones)
    requires CallsKnownS(s, p) && NoneIsClone(p, cl)
    ensures RedirectedS(SubstS(s, m), SubstS(s, m), p, cl)
  {
    match s
    case Skip =>
    case Invalid =>
    case Assign(_, _, e) => SubstitutedRedirected(e, m, p, cl);
    case Emit(e) => SubstitutedRedirected(e, m, p, cl);
    case Return(e) => SubstitutedRedirected(e, m, p, cl);
    case Seq(a, b) => SubstitutedSRedirected(a, m, p, cl); SubstitutedSRedirected(b, m, p, cl);
    case If(c, a, b) =>
      SubstitutedRedirected(c, m, p, cl);
      SubstitutedSRedirected(a, m, p, cl);
      SubstitutedSRedirected(b, m, p, cl);
    case While(c, b) => SubstitutedRedirected(c, m, p, cl); SubstitutedSRedirected(b, m, p, cl);
  }

  // ---- The whole program --------------------------------------------------------------------

  ghost predicate Scanned(p: Program, cache: map<Key, Entry>, counter: nat, calls: CallMap, name: nat -> string) {
    ProgramOk(p) && CacheFits(p, cache, counter) && NamesOk(name, p) && CallsOk(p, cache, calls)
  }

  ghost function Emitted(p: Program, cache: map<Key, Entry>, counter: nat, calls: CallMap, name: nat -> string): Program
    requires Scanned(p, cache, counter, calls, name)
  {
    Output(p, calls, ClonesOf(p, cache, counter, name), name)
  }

  lemma EmittedIsRewritten(p: Program, cache: map<Key, Entry>, counter: nat, calls: CallMap, name: nat -> string)
    requires Scanned(p, cache, counter, calls, name)
    ensures Rewritten(p, Emitted(p, cache, counter, calls, name), ClonesOf(p, cache, counter, name))
  {
    var cl, q := ClonesOf(p, cache, counter, name), Emitted(p, cache, counter, calls, name);
    ClonesAreNew(p, cache, counter, name, cl);
    forall f | f in p ensures RedirectedS(p[f].body, q[f].body, p, cl) {
      ScannedIsReady(p, cache, counter, calls, name, cl, BodySites(p, f));
      CompiledSRedirected(Job(p, cl, calls, name, BodySites(p, f)), p[f].body, f, 0);
    }
    forall c | c in cl ensures IsClone(p, q, c, cl) {
      var k := CloneFrom(p, cache, counter, name, cl, c);
      SubstitutedSRedirected(p[k.callee].body, Substituted(p[k.callee].params, cl[c].consts), p, cl);
    }
  }

  /** Scanned and compiled, the program does what it did: every function, with any arguments, for any number of
      steps, result and output. */
  lemma SpecialisationIsSound(p: Program, cache: map<Key, Entry>, counter: nat, calls: CallMap, name: nat -> string,
                              n: nat, f: string, vs: seq<Val>, tr: Trace)
    requires Scanned(p, cache, counter, calls, name) && f in p
    ensures Invoke(p, n, f, vs, tr) == Invoke(Emitted(p, cache, counter, calls, name), n, f, vs, tr)
  {
    EmittedIsRewritten(p, cache, counter, calls, name);
    var cl := ClonesOf(p, cache, counter, name);
    SameFunction(p, Emitted(p, cache, counter, calls, name), cl, n, f, vs, tr);
  }
}
