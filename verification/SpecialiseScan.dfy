// The scan that decides which calls to redirect to which clone: sites grouped by callee, a size
// gate, and a cache of clones keyed by callee and constants under Python's equality.
module SpecialiseScan {
  import opened MiniLang

  /** Numeric constant nodes. Python compares 1, 1.0 and True equal, and so do cache keys. */
  datatype PyConst = PyInt(i: int) | PyFloat(r: real) | PyBool(b: bool)

  function PyKey(c: PyConst): real {
    match c
    case PyInt(i) => i as real
    case PyFloat(r) => r
    case PyBool(b) => if b then 1.0 else 0.0
  }

  /** The C literal the constant compiles to. */
  function CVal(c: PyConst): Val {
    match c
    case PyInt(i) => I(i)
    case PyFloat(r) => F(r)
    case PyBool(b) => I(if b then 1 else 0)
  }

  datatype Arg = Constant(c: PyConst) | Other

  /** A call node: the function it is in and its number there. */
  datatype Id = Id(inside: string, n: nat)

  datatype Site = Site(id: Id, callee: string, args: seq<Arg>)

  datatype Def = Def(params: seq<string>, stmtCount: nat)

  datatype Key = Key(callee: string, consts: set<(string, real)>)

  /** Argument positions that hold constants and have a parameter. */
  function ConstArgs(s: Site, d: Def): map<nat, PyConst> {
    map i: nat | i < |s.args| && i < |d.params| && s.args[i].Constant? :: s.args[i].c
  }

  function KeyOf(callee: string, consts: map<nat, PyConst>, d: Def): Key
    requires forall i :: i in consts ==> i < |d.params|
  {
    Key(callee, set i | i in consts :: (d.params[i], PyKey(consts[i])))
  }

  function SiteKey(s: Site, d: Def): Key {
    KeyOf(s.callee, ConstArgs(s, d), d)
  }

  function NonConst(s: Site, d: Def, i: nat): seq<nat>
    requires i <= |s.args|
    decreases |s.args| - i
  {
    if i == |s.args| then [] else (if i in ConstArgs(s, d) then [] else [i]) + NonConst(s, d, i + 1)
  }

  /** Sites that take part: known callee, at least one constant argument. */
  predicate Takes(s: Site, defs: map<string, Def>) {
    s.callee in defs && ConstArgs(s, defs[s.callee]) != map[]
  }

  function KeysOf(callee: string, sites: seq<Site>, defs: map<string, Def>): set<Key> {
    set s | s in sites && Takes(s, defs) && s.callee == callee :: SiteKey(s, defs[s.callee])
  }

  const MAX_VARIANTS := 3
  const MAX_STATEMENTS := 30

  /** Too many variants of a large function. */
  predicate Gated(callee: string, sites: seq<Site>, defs: map<string, Def>)
    requires callee in defs
  {
    |KeysOf(callee, sites, defs)| > MAX_VARIANTS && defs[callee].stmtCount > MAX_STATEMENTS
  }

  lemma TakesExactly(s: Site, defs: map<string, Def>)
    ensures Takes(s, defs) <==>
            s.callee in defs && exists i :: 0 <= i < |s.args| && i < |defs[s.callee].params| && s.args[i].Constant?
  {
    if s.callee in defs {
      var d := defs[s.callee];
      if i :| 0 <= i < |s.args| && i < |d.params| && s.args[i].Constant? { assert i in ConstArgs(s, d); }
      if ConstArgs(s, d) != map[] {
        var i :| i in ConstArgs(s, d);
        assert s.args[i].Constant?;
      }
    }
  }

  ghost predicate Rising(s: seq<nat>) { forall a, b :: 0 <= a < b < |s| ==> s[a] < s[b] }

  /** No constant, or one without a parameter. */
  predicate StaysArg(s: Site, d: Def, k: nat) { k < |s.args| && (s.args[k].Other? || k >= |d.params|) }

  /** The clone is passed, in order, the arguments that are no constants or have no parameter. */
  lemma {:induction false} PassedExactly(s: Site, d: Def, i: nat)
    requires i <= |s.args|
    ensures forall k: nat :: k in NonConst(s, d, i) <==> i <= k && StaysArg(s, d, k)
    ensures Rising(NonConst(s, d, i))
    decreases |s.args| - i
  {
    if i < |s.args| {
      PassedExactly(s, d, i + 1);
      OneMorePassed(s, d, i, NonConst(s, d, i + 1), NonConst(s, d, i));
    }
  }

  lemma OneMorePassed(s: Site, d: Def, i: nat, rest: seq<nat>, all: seq<nat>)
    requires i < |s.args| && all == (if StaysArg(s, d, i) then [i] else []) + rest
    requires Rising(rest) && forall k: nat :: k in rest <==> i < k && StaysArg(s, d, k)
    ensures Rising(all) && forall k: nat :: k in all <==> i <= k && StaysArg(s, d, k)
  {
    if StaysArg(s, d, i) {
      forall a, b | 0 <= a < b < |all| ensures all[a] < all[b] {
        assert all[b] == rest[b - 1] && rest[b - 1] in rest;
      }
    } else {
      assert all == rest;
    }
  }

  /** At most three different combinations of constants, or at most thirty statements. */
  predicate FewOrSmall(callee: string, sites: seq<Site>, defs: map<string, Def>)
    requires callee in defs
  {
    |set s | s in sites && Takes(s, defs) && s.callee == callee :: SiteKey(s, defs[callee])| <= 3
    || defs[callee].stmtCount <= 30
  }

  datatype Entry = Entry(name: nat, consts: map<nat, PyConst>)

  /** Every clone carries the constants its key stands for, and no two keys share a clone. */
  ghost predicate CacheOk(cache: map<Key, Entry>, counter: nat, defs: map<string, Def>) {
    && (forall k :: k in cache ==>
          k.callee in defs && cache[k].name < counter &&
          (forall i :: i in cache[k].consts ==> i < |defs[k.callee].params|) &&
          KeyOf(k.callee, cache[k].consts, defs[k.callee]) == k)
    && (forall k, l :: k in cache && l in cache && cache[k].name == cache[l].name ==> k == l)
  }

  /** The call is rewritten to the clone of its own key, passing its non-constant arguments. */
  ghost predicate Mapped(s: Site, defs: map<string, Def>, cache: map<Key, Entry>, calls: map<Id, (nat, seq<nat>)>)
    requires s.callee in defs
  {
    var key := SiteKey(s, defs[s.callee]);
    key in cache && s.id in calls && calls[s.id] == (cache[key].name, NonConst(s, defs[s.callee], 0))
  }

  ghost predicate Grows(a: map<Key, Entry>, b: map<Key, Entry>) {
    forall k :: k in a ==> k in b && b[k] == a[k]
  }

  ghost function Ids(sites: seq<Site>, defs: map<string, Def>, callees: set<string>): set<Id> {
    set s | s in sites && Takes(s, defs) && s.callee in callees :: s.id
  }

  ghost predicate SameOutside(a: map<Id, (nat, seq<nat>)>, b: map<Id, (nat, seq<nat>)>, ids: set<Id>) {
    forall id :: id !in ids ==> (id in a <==> id in b) && (id in a ==> a[id] == b[id])
  }

  ghost predicate DistinctIds(sites: seq<Site>) {
    forall s, t :: s in sites && t in sites && s.id == t.id ==> s == t
  }

  ghost predicate AllMapped(sites: seq<Site>, callees: set<string>, defs: map<string, Def>, cache: map<Key, Entry>,
                            calls: map<Id, (nat, seq<nat>)>) {
    forall s :: s in sites && Takes(s, defs) && s.callee in callees ==> Mapped(s, defs, cache, calls)
  }

  lemma MappedKept(s: Site, defs: map<string, Def>, a: map<Key, Entry>, b: map<Key, Entry>,
                   m: map<Id, (nat, seq<nat>)>, n: map<Id, (nat, seq<nat>)>)
    requires s.callee in defs && Mapped(s, defs, a, m) && Grows(a, b) && s.id in n && n[s.id] == m[s.id]
    ensures Mapped(s, defs, b, n)
  {
  }

  /** The cache after looking a key up, with a new clone if it was missing. */
  lemma CacheInsert(cache: map<Key, Entry>, counter: nat, defs: map<string, Def>, callee: string,
                    consts: map<nat, PyConst>)
    requires CacheOk(cache, counter, defs) && callee in defs && forall i :: i in consts ==> i < |defs[callee].params|
    ensures CacheOk(cache[KeyOf(callee, consts, defs[callee]) := Entry(counter, consts)], counter + 1, defs)
  {
  }

  lemma OpenExactly(s: Site, sites: seq<Site>, defs: map<string, Def>)
    requires s in sites && Takes(s, defs)
    ensures s.callee in Open(sites, defs) <==> FewOrSmall(s.callee, sites, defs)
  {
    var f := s.callee;
    assert KeysOf(f, sites, defs) == set t | t in sites && Takes(t, defs) && t.callee == f :: SiteKey(t, defs[f]);
  }

  lemma WhatIsMapped(sites: seq<Site>, defs: map<string, Def>, cache: map<Key, Entry>, m: map<Id, (nat, seq<nat>)>,
                     n: map<Id, (nat, seq<nat>)>)
    requires AllMapped(sites, Open(sites, defs), defs, cache, n) && DistinctIds(sites)
    requires SameOutside(m, n, Ids(sites, defs, Open(sites, defs)))
    ensures forall s :: s in sites && Takes(s, defs) && FewOrSmall(s.callee, sites, defs) ==> Mapped(s, defs, cache, n)
    ensures forall s :: s in sites && Takes(s, defs) && !FewOrSmall(s.callee, sites, defs) && s.id in n ==> s.id in m
  {
    forall s | s in sites && Takes(s, defs)
      ensures FewOrSmall(s.callee, sites, defs) ==> Mapped(s, defs, cache, n)
      ensures !FewOrSmall(s.callee, sites, defs) && s.id in n ==> s.id in m
    {
      OpenExactly(s, sites, defs);
      if !FewOrSmall(s.callee, sites, defs) { assert s.id !in Ids(sites, defs, Open(sites, defs)); }
    }
  }

  class Specialiser {
    var specCache: map<Key, Entry>
    var callSpecMap: map<Id, (nat, seq<nat>)>
    var counter: nat

    constructor ()
      ensures specCache == map[] && callSpecMap == map[] && counter == 0
    {
      specCache, callSpecMap, counter := map[], map[], 0;
    }

    /** Both passes over the calls of one function body. */
    method Scan(defs: map<string, Def>, sites: seq<Site>)
      requires CacheOk(specCache, counter, defs) && DistinctIds(sites)
      modifies this
      ensures CacheOk(specCache, counter, defs) && Grows(old(specCache), specCache)
      ensures AllMapped(sites, Open(sites, defs), defs, specCache, callSpecMap)
      ensures SameOutside(old(callSpecMap), callSpecMap, Ids(sites, defs, Open(sites, defs)))
      ensures forall s :: s in sites && Takes(s, defs) && FewOrSmall(s.callee, sites, defs) ==>
                Mapped(s, defs, specCache, callSpecMap)
      ensures forall s :: s in sites && Takes(s, defs) && !FewOrSmall(s.callee, sites, defs) && s.id in callSpecMap ==>
                s.id in old(callSpecMap)
    {
      var callees := GroupCallees(defs, sites);
      ghost var done: set<string> := {};
      for c := 0 to |callees|
        invariant CacheOk(specCache, counter, defs) && Grows(old(specCache), specCache)
        invariant done <= Open(sites, defs)
        invariant forall f :: f in callees[..c] && f in Open(sites, defs) ==> f in done
        invariant AllMapped(sites, done, defs, specCache, callSpecMap)
        invariant SameOutside(old(callSpecMap), callSpecMap, Ids(sites, defs, Open(sites, defs)))
      {
        assert callees[..c + 1] == callees[..c] + [callees[c]];
        assert callees[c] in callees;
        ghost var s :| s in sites && Takes(s, defs) && s.callee == callees[c];
        if !Gated(callees[c], sites, defs) {
          ScanCallee(defs, sites, callees[c], done);
          done := done + {callees[c]};
        }
      }
      assert callees[..|callees|] == callees;
      assert done == Open(sites, defs);
      WhatIsMapped(sites, defs, specCache, old(callSpecMap), callSpecMap);
    }

    /** First pass: the callees with sites to consider, in order of first appearance. */
    method GroupCallees(defs: map<string, Def>, sites: seq<Site>) returns (callees: seq<string>)
      ensures forall f :: f in callees <==> exists s :: s in sites && Takes(s, defs) && s.callee == f
    {
      callees := [];
      for i := 0 to |sites|
        invariant forall f :: f in callees <==> exists s :: s in sites[..i] && Takes(s, defs) && s.callee == f
      {
        assert sites[..i + 1] == sites[..i] + [sites[i]];
        if Takes(sites[i], defs) && sites[i].callee !in callees {
          callees := callees + [sites[i].callee];
        }
      }
      assert sites[..|sites|] == sites;
    }

    /** Second pass, for one callee. */
    method ScanCallee(defs: map<string, Def>, sites: seq<Site>, callee: string, ghost done: set<string>)
      requires callee in defs && CacheOk(specCache, counter, defs) && DistinctIds(sites)
      requires AllMapped(sites, done, defs, specCache, callSpecMap)
      modifies this
      ensures CacheOk(specCache, counter, defs) && Grows(old(specCache), specCache)
      ensures AllMapped(sites, done + {callee}, defs, specCache, callSpecMap)
      ensures SameOutside(old(callSpecMap), callSpecMap, Ids(sites, defs, {callee}))
    {
      for i := 0 to |sites|
        invariant CacheOk(specCache, counter, defs) && Grows(old(specCache), specCache)
        invariant AllMapped(sites, done, defs, specCache, callSpecMap)
        invariant AllMapped(sites[..i], {callee}, defs, specCache, callSpecMap)
        invariant SameOutside(old(callSpecMap), callSpecMap, Ids(sites, defs, {callee}))
      {
        assert sites[..i + 1] == sites[..i] + [sites[i]];
        if Takes(sites[i], defs) && sites[i].callee == callee {
          RedirectSite(defs, sites, sites[i], done, i);
        }
      }
      assert sites[..|sites|] == sites;
    }

    method RedirectSite(defs: map<string, Def>, ghost sites: seq<Site>, s: Site, ghost done: set<string>, ghost i: nat)
      requires i < |sites| && s == sites[i] && Takes(s, defs)
      requires CacheOk(specCache, counter, defs) && DistinctIds(sites)
      requires AllMapped(sites, done, defs, specCache, callSpecMap)
      requires AllMapped(sites[..i], {s.callee}, defs, specCache, callSpecMap)
      modifies this
      ensures CacheOk(specCache, counter, defs) && Grows(old(specCache), specCache)
      ensures Mapped(s, defs, specCache, callSpecMap)
      ensures AllMapped(sites, done, defs, specCache, callSpecMap)
      ensures AllMapped(sites[..i], {s.callee}, defs, specCache, callSpecMap)
      ensures SameOutside(old(callSpecMap), callSpecMap, {s.id})
    {
      var d := defs[s.callee];
      var consts := ConstArgs(s, d);
      var key := KeyOf(s.callee, consts, d);
      if key !in specCache {
        CacheInsert(specCache, counter, defs, s.callee, consts);
        specCache := specCache[key := Entry(counter, consts)];
        counter := counter + 1;
      }
      callSpecMap := callSpecMap[s.id := (specCache[key].name, NonConst(s, d, 0))];
      forall t | t in sites && Takes(t, defs) && old(Mapped(t, defs, specCache, callSpecMap))
        ensures Mapped(t, defs, specCache, callSpecMap)
      {
        if t != s { MappedKept(t, defs, old(specCache), specCache, old(callSpecMap), callSpecMap); }
      }
    }
  }

  /** Callees whose sites are redirected: at least one participating site, and not gated. */
  ghost function Open(sites: seq<Site>, defs: map<string, Def>): set<string> {
    set s | s in sites && Takes(s, defs) && !Gated(s.callee, sites, defs) :: s.callee
  }

  // ---- Which sites fit their clone ----------------------------------------------------------

  /** A literal already of the parameter's type and in its range. */
  predicate TypedLiteral(t: CType, c: PyConst) { Conv(t, CVal(c)) == CVal(c) }

  /** A call's constant that shares its key with the cached one is converted to the cached value exactly when the
      cached one is a literal of the parameter's type; what the call's own literal is does not matter. */
  lemma FitsExactly(t: CType, site: PyConst, cached: PyConst)
    requires PyKey(site) == PyKey(cached)
    ensures Conv(t, CVal(site)) == CVal(cached) <==> TypedLiteral(t, cached)
  {
  }

  ghost predicate DistinctParams(d: Def) {
    forall i, j :: 0 <= i < j < |d.params| ==> d.params[i] != d.params[j]
  }

  /** Equal keys mean the same constant positions and equal constants, in Python's sense. */
  lemma KeyDetermines(callee: string, d: Def, a: map<nat, PyConst>, b: map<nat, PyConst>)
    requires DistinctParams(d)
    requires (forall i :: i in a ==> i < |d.params|) && forall i :: i in b ==> i < |d.params|
    requires KeyOf(callee, a, d) == KeyOf(callee, b, d)
    ensures a.Keys == b.Keys && forall i :: i in a ==> PyKey(a[i]) == PyKey(b[i])
  {
    forall i | i in a ensures i in b && PyKey(a[i]) == PyKey(b[i]) { KeyHas(callee, d, a, b, i); }
    forall i | i in b ensures i in a { KeyHas(callee, d, b, a, i); }
  }

  lemma KeyHas(callee: string, d: Def, a: map<nat, PyConst>, b: map<nat, PyConst>, i: nat)
    requires DistinctParams(d) && i in a
    requires (forall k :: k in a ==> k < |d.params|) && forall k :: k in b ==> k < |d.params|
    requires KeyOf(callee, a, d) == KeyOf(callee, b, d)
    ensures i in b && PyKey(a[i]) == PyKey(b[i])
  {
    assert (d.params[i], PyKey(a[i])) in KeyOf(callee, a, d).consts;
    var k :| k in b && (d.params[k], PyKey(b[k])) == (d.params[i], PyKey(a[i]));
    assert k == i;
  }

  /** A redirected call fits its clone, at every constant position, exactly when the constants that were cached
      first are literals of the parameters' types. */
  lemma CallFitsExactly(s: Site, defs: map<string, Def>, types: seq<CType>, cache: map<Key, Entry>, counter: nat,
                        calls: map<Id, (nat, seq<nat>)>)
    requires s.callee in defs && Mapped(s, defs, cache, calls) && CacheOk(cache, counter, defs)
    requires DistinctParams(defs[s.callee]) && |types| == |defs[s.callee].params|
    ensures var given, cached := ConstArgs(s, defs[s.callee]), cache[SiteKey(s, defs[s.callee])].consts;
            && given.Keys == cached.Keys
            && ((forall i :: i in given ==> Conv(types[i], CVal(given[i])) == CVal(cached[i])) <==>
                forall i :: i in cached ==> TypedLiteral(types[i], cached[i]))
  {
    var d := defs[s.callee];
    var given, cached := ConstArgs(s, d), cache[SiteKey(s, d)].consts;
    KeyDetermines(s.callee, d, given, cached);
    forall i | i in given
      ensures Conv(types[i], CVal(given[i])) == CVal(cached[i]) <==> TypedLiteral(types[i], cached[i])
    {
      FitsExactly(types[i], given[i], cached[i]);
    }
  }

  /** True is 1 and False is 0, as keys and as literals. */
  lemma BooleansAreNumbers(b: bool)
    ensures var n := PyInt(if b then 1 else 0); PyKey(PyBool(b)) == PyKey(n) && CVal(PyBool(b)) == CVal(n)
  {
  }

  /** f(1) and f(1.0) have one key: where f(1) came first, f(1.0) is sent to the integer clone. */
  lemma IntAndFloatShareAClone(d: Def)
    requires |d.params| == 1
    ensures var one := Site(Id("g", 0), "f", [Constant(PyInt(1))]);
            var oneF := Site(Id("g", 1), "f", [Constant(PyFloat(1.0))]);
            SiteKey(one, d) == SiteKey(oneF, d) && Conv(Double, CVal(PyFloat(1.0))) != CVal(PyInt(1))
  {
    var one, oneF := Site(Id("g", 0), "f", [Constant(PyInt(1))]), Site(Id("g", 1), "f", [Constant(PyFloat(1.0))]);
    assert ConstArgs(one, d) == map[0 := PyInt(1)] && ConstArgs(oneF, d) == map[0 := PyFloat(1.0)];
    assert SiteKey(one, d).consts == {(d.params[0], 1.0)} == SiteKey(oneF, d).consts;
  }
}
