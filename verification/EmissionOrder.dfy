// Which functions of a module are emitted, and in what order: dead-function elimination by a worklist
// from the roots, then depth-first post-order over name calls, on any call graph, cyclic ones included.
module EmissionOrder {
  import opened Wrappers

  type Name = string

  /** For each function, the names it calls, in the arbitrary order a set is iterated in. */
  type Calls = map<Name, seq<Name>>

  const MAIN: Name := "main"

  // ---- Reachability -------------------------------------------------------------------------

  ghost predicate Closed(calls: Calls, S: set<Name>) {
    forall f, g :: f in S && f in calls && g in calls[f] ==> g in S
  }

  /** S is the least set that holds the roots and everything its members call. */
  ghost predicate IsReachable(calls: Calls, roots: set<Name>, S: set<Name>) {
    && roots <= S && Closed(calls, S)
    && forall T: set<Name> :: roots <= T && Closed(calls, T) ==> S <= T
  }

  ghost predicate IsPath(calls: Calls, p: seq<Name>) {
    p != [] && forall i :: 0 <= i < |p| - 1 ==> p[i] in calls && p[i + 1] in calls[p[i]]
  }

  ghost predicate Reaches(calls: Calls, f: Name, g: Name) {
    exists p :: IsPath(calls, p) && p[0] == f && p[|p| - 1] == g
  }

  // ---- Dead-function elimination ------------------------------------------------------------

  /** Calls lead to functions of the module only. */
  ghost predicate Within(calls: Calls, names: set<Name>) {
    calls.Keys == names && forall f, g :: f in calls && g in calls[f] ==> g in names
  }

  function Roots(names: set<Name>, roots: set<Name>): set<Name> {
    roots * names + (if MAIN in names then {MAIN} else {})
  }

  /** `initial` is the worklist's first contents: the roots in some order. */
  method Eliminate(names: set<Name>, calls: Calls, roots: set<Name>, initial: seq<Name>) returns (reached: set<Name>)
    requires Within(calls, names) && forall f :: f in initial <==> f in roots * names
    ensures IsReachable(calls, Roots(names, roots), reached) && reached <= names
  {
    reached := {};
    var work := initial;
    if MAIN in names { work := work + [MAIN]; }
    while work != []
      invariant reached <= names && forall f :: f in work ==> f in names
      invariant forall f :: f in Roots(names, roots) ==> f in reached || f in work
      invariant forall f, g :: f in reached && g in calls[f] ==> g in reached || g in work
      invariant forall T: set<Name> :: Roots(names, roots) <= T && Closed(calls, T) ==>
                  reached <= T && forall f :: f in work ==> f in T
      decreases names - reached, |work|
    {
      ghost var before := work;
      var f := work[|work| - 1];
      work := work[..|work| - 1];
      assert before == work + [f];
      if f !in reached {
        assert f in names - reached && names - (reached + {f}) < names - reached;
        reached := reached + {f};
        var callees := calls[f];
        for i := 0 to |callees|
          invariant forall g :: g in before ==> g in work || g == f
          invariant forall g :: g in work ==> g in before || g in callees
          invariant forall g :: g in callees[..i] ==> g in reached || g in work
        {
          assert callees[..i + 1] == callees[..i] + [callees[i]];
          if callees[i] !in reached { work := work + [callees[i]]; }
        }
        assert callees[..|callees|] == callees;
      }
    }
  }

  // ---- Post-order ---------------------------------------------------------------------------

  /** Each callee of an emitted function comes before it, unless the callee can call back to it. */
  ghost predicate CalleesFirst(calls: Calls, s: seq<Name>) {
    forall i :: 0 <= i < |s| && s[i] in calls ==>
      forall g :: g in calls[s[i]] ==> g in s[..i] || Reaches(calls, g, s[i])
  }

  /** Every call is of a function that comes before. */
  ghost predicate NoForwardCalls(calls: Calls, s: seq<Name>) {
    forall i :: 0 <= i < |s| ==> CallsBack(calls, s[i], s[..i])
  }

  ghost predicate CallsBack(calls: Calls, f: Name, before: seq<Name>) {
    f in calls && forall g :: g in calls[f] ==> g in before
  }

  /** State of the search: `visited` is what is emitted or on the recursion stack, and the stack is a
      path of calls. */
  ghost predicate SearchInv(calls: Calls, names: set<Name>, visited: set<Name>, result: seq<Name>, stack: seq<Name>) {
    && Within(calls, names) && visited <= names
    && NoDup(result) && (forall f :: f in visited <==> f in result || f in stack)
    && (forall f :: f in result ==> f !in stack)
    && (stack != [] ==> IsPath(calls, stack))
    && CalleesFirst(calls, result)
  }

  lemma StackReachesTop(calls: Calls, stack: seq<Name>, f: Name)
    requires IsPath(calls, stack) && f in stack
    ensures Reaches(calls, f, stack[|stack| - 1])
  {
    var i :| 0 <= i < |stack| && stack[i] == f;
    assert IsPath(calls, stack[i..]) && stack[i..][0] == f;
  }

  lemma AppendDone(calls: Calls, names: set<Name>, visited: set<Name>, result: seq<Name>, stack: seq<Name>, f: Name)
    requires SearchInv(calls, names, visited, result, stack + [f]) && f !in stack
    requires forall g :: g in calls[f] ==> g in visited
    ensures SearchInv(calls, names, visited, result + [f], stack)
  {
    var s := result + [f];
    forall i | 0 <= i < |s| && s[i] in calls
      ensures forall g :: g in calls[s[i]] ==> g in s[..i] || Reaches(calls, g, s[i])
    {
      assert s[..i] == result[..i];
      if i == |result| {
        assert result[..i] == result;
        forall g | g in calls[f] ensures g in s[..i] || Reaches(calls, g, f) {
          if g !in result { StackReachesTop(calls, stack + [f], g); }
        }
      }
    }
    forall i | 0 <= i < |stack| - 1 ensures stack[i] in calls && stack[i + 1] in calls[stack[i]] {
      assert (stack + [f])[i] == stack[i] && (stack + [f])[i + 1] == stack[i + 1];
    }
    assert f in stack + [f] && f !in result;
  }

  class Sorter {
    const names: set<Name>
    const calls: Calls
    var visited: set<Name>
    var result: seq<Name>

    constructor (names: set<Name>, calls: Calls)
      requires Within(calls, names)
      ensures this.names == names && this.calls == calls
      ensures SearchInv(calls, names, visited, result, []) && visited == {} && result == []
    {
      this.names, this.calls := names, calls;
      visited, result := {}, [];
    }

    /** _topo_dfs; `stack` lists the callers whose visits are still running. */
    method Dfs(name: Name, ghost stack: seq<Name>)
      requires SearchInv(calls, names, visited, result, stack) && name in names
      requires stack != [] ==> stack[|stack| - 1] in calls && name in calls[stack[|stack| - 1]]
      modifies this
      ensures SearchInv(calls, names, visited, result, stack)
      ensures old(visited) <= visited && name in visited
      ensures name in old(visited) ==> visited == old(visited) && result == old(result)
      ensures name !in old(visited) && (forall g :: g in calls[name] ==> g in old(visited)) ==>
                visited == old(visited) + {name} && result == old(result) + [name]
      decreases names - visited
    {
      if name in visited { return; }
      ghost var ready := forall g :: g in calls[name] ==> g in visited;
      ghost var was := visited;
      assert names - (visited + {name}) < names - visited by { assert name in names - visited; }
      visited := visited + {name};
      PushStack(calls, names, was, result, stack, name);
      var deps := calls[name];
      for i := 0 to |deps|
        invariant SearchInv(calls, names, visited, result, stack + [name])
        invariant was + {name} <= visited && forall g :: g in deps[..i] ==> g in visited
        invariant ready ==> visited == was + {name} && result == old(result)
      {
        assert deps[..i + 1] == deps[..i] + [deps[i]];
        assert names - visited <= names - (was + {name});
        assert (stack + [name])[|stack|] == name;
        Dfs(deps[i], stack + [name]);
      }
      assert deps[..|deps|] == deps;
      AppendDone(calls, names, visited, result, stack, name);
      result := result + [name];
    }

    /** Visits every function, in source order; a source in which callees come first is left as it is. */
    method Sort(order: seq<Name>)
      requires SearchInv(calls, names, visited, result, []) && visited == {} && result == []
      requires forall f :: f in order <==> f in names
      modifies this
      ensures forall f :: f in result <==> f in names
      ensures NoDup(result) && CalleesFirst(calls, result)
      ensures NoDup(order) && NoForwardCalls(calls, order) ==> result == order
    {
      ghost var ordered := NoDup(order) && NoForwardCalls(calls, order);
      for i := 0 to |order|
        invariant SearchInv(calls, names, visited, result, [])
        invariant ordered ==> result == order[..i]
        invariant forall f :: f in order[..i] ==> f in visited
      {
        assert order[..i + 1] == order[..i] + [order[i]];
        assert order[i] in order;
        Dfs(order[i], []);
      }
      assert order[..|order|] == order;
    }
  }

  lemma PushStack(calls: Calls, names: set<Name>, visited: set<Name>, result: seq<Name>, stack: seq<Name>, f: Name)
    requires SearchInv(calls, names, visited, result, stack) && f in names && f !in visited
    requires stack != [] ==> stack[|stack| - 1] in calls && f in calls[stack[|stack| - 1]]
    ensures SearchInv(calls, names, visited + {f}, result, stack + [f])
  {
    var t := stack + [f];
    forall i | 0 <= i < |t| - 1 ensures t[i] in calls && t[i + 1] in calls[t[i]] {
      if i == |stack| - 1 { assert t[i] == stack[|stack| - 1]; }
    }
  }

  // ---- The emitted sequence -----------------------------------------------------------------

  function NamesOf(source: seq<Name>): set<Name> { set f | f in source }

  function Only(s: seq<Name>, keep: set<Name>): (r: seq<Name>)
    ensures forall f :: f in r <==> f in s && f in keep
  {
    if s == [] then [] else
      var rest := Only(s[1..], keep);
      if s[0] in keep then [s[0]] + rest else rest
  }

  function OnlyCalls(calls: Calls, keep: set<Name>): Calls {
    map f | f in calls && f in keep :: Only(calls[f], keep)
  }

  /** Callees come first, except for those that are not emitted here. */
  ghost predicate CalleesFirstBut(calls: Calls, s: seq<Name>, left: set<Name>) {
    forall i :: 0 <= i < |s| ==> CalleesDone(calls, s[i], s[..i], left)
  }

  ghost predicate CalleesDone(calls: Calls, f: Name, before: seq<Name>, left: set<Name>) {
    f in calls ==> forall g :: g in calls[f] ==> g in before || g in left || Reaches(calls, g, f)
  }

  /** What is not emitted: bodies that are only an ellipsis, functions of another platform, and main in a
      dependency module. */
  function Dropped(stubs: set<Name>, elsewhere: set<Name>, isModule: bool): set<Name> {
    stubs + elsewhere + (if isModule then {MAIN} else {})
  }

  /** Elimination in a dependency module with roots, then ordering of the functions with a body, then emission:
      exactly the functions reached, less those dropped, each once, every callee before its caller unless it
      can reach the caller. */
  method EmitOrder(source: seq<Name>, stubs: set<Name>, elsewhere: set<Name>, calls: Calls, roots: set<Name>,
                   initial: seq<Name>, isModule: bool)
    returns (out: seq<Name>, reached: set<Name>)
    requires Within(calls, NamesOf(source)) && NoDup(source)
    requires forall f :: f in initial <==> f in roots && f in source
    ensures if isModule && roots != {}
            then IsReachable(calls, (set f | f in source && (f in roots || f == "main")), reached)
            else forall f :: f in reached <==> f in source
    ensures forall f :: f in out <==>
              f in reached && f !in stubs && f !in elsewhere && !(isModule && f == "main")
    ensures NoDup(out)
    ensures CalleesFirstBut(calls, out, Dropped(stubs, elsewhere, isModule))
  {
    reached := NamesOf(source);
    if isModule && roots != {} {
      reached := Eliminate(NamesOf(source), calls, roots, initial);
      assert Roots(NamesOf(source), roots) == (set f | f in source && (f in roots || f == "main"));
    }
    var kept := Only(Only(source, NamesOf(source) - stubs), reached);
    var graph := OnlyCalls(calls, reached - stubs);
    assert graph.Keys == reached - stubs;
    var sorter := new Sorter(reached - stubs, graph);
    sorter.Sort(kept);
    RestrictionKeepsOrder(calls, reached, stubs, graph, sorter.result);
    out := Emit(calls, sorter.result, stubs, elsewhere, isModule);
  }

  /** The loop that emits the ordered functions; it passes over main in a module and over functions of another
      platform. */
  method Emit(calls: Calls, order: seq<Name>, stubs: set<Name>, elsewhere: set<Name>, isModule: bool)
    returns (out: seq<Name>)
    requires NoDup(order) && CalleesFirstBut(calls, order, stubs)
    ensures (forall f :: f in out <==> f in order && !(isModule && f == MAIN) && f !in elsewhere) && NoDup(out)
    ensures CalleesFirstBut(calls, out, Dropped(stubs, elsewhere, isModule))
  {
    out := [];
    for i := 0 to |order|
      invariant forall f :: f in out <==> f in order[..i] && !(isModule && f == MAIN) && f !in elsewhere
      invariant NoDup(out)
      invariant CalleesFirstBut(calls, out, Dropped(stubs, elsewhere, isModule))
    {
      assert order[..i + 1] == order[..i] + [order[i]] && order[i] !in order[..i];
      assert CalleesDone(calls, order[i], order[..i], stubs);
      if !(isModule && order[i] == MAIN) && order[i] !in elsewhere {
        OneMoreDone(calls, out, order[i], Dropped(stubs, elsewhere, isModule));
        out := out + [order[i]];
      }
    }
    assert order[..|order|] == order;
  }

  lemma OneMoreDone(calls: Calls, s: seq<Name>, f: Name, left: set<Name>)
    requires CalleesFirstBut(calls, s, left) && CalleesDone(calls, f, s, left)
    ensures CalleesFirstBut(calls, s + [f], left)
  {
    var t := s + [f];
    forall i | 0 <= i < |t| ensures CalleesDone(calls, t[i], t[..i], left) {
      assert t[..i] == s[..i];
      if i == |s| { assert s[..i] == s; }
    }
  }

  /** Restricting the calls to a closed set, less the stubs, loses only calls of stubs. */
  lemma RestrictionKeepsOrder(calls: Calls, reached: set<Name>, stubs: set<Name>, graph: Calls, out: seq<Name>)
    requires Closed(calls, reached) && graph == OnlyCalls(calls, reached - stubs) && graph.Keys == reached - stubs
    requires CalleesFirst(graph, out) && forall f :: f in out ==> f in reached - stubs
    ensures CalleesFirstBut(calls, out, stubs)
  {
    forall i | 0 <= i < |out| ensures CalleesDone(calls, out[i], out[..i], stubs) {
      assert out[i] in out;
      forall g | out[i] in calls && g in calls[out[i]]
        ensures g in out[..i] || g in stubs || Reaches(calls, g, out[i])
      {
        assert g in stubs || g in graph[out[i]];
        if g !in out[..i] && g !in stubs {
          var p :| IsPath(graph, p) && p[0] == g && p[|p| - 1] == out[i];
          assert IsPath(calls, p);
        }
      }
    }
  }
}
