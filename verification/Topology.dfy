// Greedy clustering of functions by call weight under category compatibility, and the overrides that
// pin functions together.
module Topology {
  import opened Wrappers

  type Fn = string // module-qualified function name

  datatype Category = ResourceOwner | AbiAnchor | ProcessLocal | Pure

  datatype Edge = Edge(caller: Fn, callee: Fn, weight: real)

  datatype Mod = Mod(functions: seq<Fn>, category: Category)

  datatype Cluster = Cluster(functions: seq<Fn>, category: Category, weight: real)

  type Owner = map<Fn, nat> // which cluster holds a function

  // ---- Weights ------------------------------------------------------------------------------

  predicate Between(e: Edge, o: Owner, a: nat, b: nat) {
    e.caller in o && e.callee in o && ((o[e.caller] == a && o[e.callee] == b) || (o[e.caller] == b && o[e.callee] == a))
  }

  /** Total weight of the edges joining clusters a and b; of those inside a when a == b. */
  function Weight(es: seq<Edge>, o: Owner, a: nat, b: nat): real {
    if es == [] then 0.0
    else Weight(es[..|es| - 1], o, a, b) + (if Between(es[|es| - 1], o, a, b) then es[|es| - 1].weight else 0.0)
  }

  lemma {:induction false} WeightAdds(es: seq<Edge>, fs: seq<Edge>, o: Owner, a: nat, b: nat)
    ensures Weight(es + fs, o, a, b) == Weight(es, o, a, b) + Weight(fs, o, a, b)
    decreases |fs|
  {
    if fs == [] {
      assert es + fs == es;
    } else {
      assert (es + fs)[..|es + fs| - 1] == es + fs[..|fs| - 1];
      WeightAdds(es, fs[..|fs| - 1], o, a, b);
    }
  }

  /** One edge weighs between the clusters of its two ends, in either order, and between no others. */
  lemma WeightOfEdge(e: Edge, o: Owner, a: nat, b: nat)
    ensures Weight([e], o, a, b) ==
            if e.caller in o && e.callee in o && {o[e.caller], o[e.callee]} == {a, b} then e.weight else 0.0
  {
    assert [e][..0] == [];
    if e.caller in o && e.callee in o {
      var x, y := o[e.caller], o[e.callee];
      assert {x, y} == {a, b} <==> (x == a && y == b) || (x == b && y == a) by {
        if {x, y} == {a, b} { assert x in {a, b} && y in {a, b} && a in {x, y} && b in {x, y}; }
      }
    }
  }

  predicate Compatible(a: Category, b: Category) { a == Pure || b == Pure || a == b }

  /** Most restrictive category of the two. */
  function Stricter(a: Category, b: Category): Category {
    if a == ResourceOwner || b == ResourceOwner then ResourceOwner
    else if a == AbiAnchor || b == AbiAnchor then AbiAnchor
    else if a == ProcessLocal || b == ProcessLocal then ProcessLocal
    else Pure
  }

  // ---- Invariants ---------------------------------------------------------------------------

  /** Every function is in exactly one cluster, once. */
  ghost predicate Partition(cl: seq<Cluster>, o: Owner) {
    && (forall f :: f in o ==> o[f] < |cl| && f in cl[o[f]].functions)
    && (forall c: nat, f :: c < |cl| && f in cl[c].functions ==> f in o && o[f] == c)
    && (forall c :: 0 <= c < |cl| ==> NoDup(cl[c].functions))
  }

  /** No cluster holds functions of a category other than its own and Pure. */
  ghost predicate Unmixed(cl: seq<Cluster>, cats: map<Fn, Category>) {
    forall c: nat, f :: c < |cl| && f in cl[c].functions ==> f in cats && (cats[f] == Pure || cats[f] == cl[c].category)
  }

  /** Each cluster's recorded weight is that of the edges inside it. */
  ghost predicate Weighed(cl: seq<Cluster>, o: Owner, es: seq<Edge>) {
    forall c: nat :: c < |cl| && cl[c].functions != [] ==> cl[c].weight == Weight(es, o, c, c)
  }

  ghost predicate Inv(cl: seq<Cluster>, o: Owner, cats: map<Fn, Category>, es: seq<Edge>) {
    Partition(cl, o) && Unmixed(cl, cats) && Weighed(cl, o, es) && o.Keys == cats.Keys
  }

  // ---- Merging ------------------------------------------------------------------------------

  function Moved(o: Owner, a: nat, b: nat): Owner {
    map f | f in o :: if o[f] == b then a else o[f]
  }

  function Joined(cl: seq<Cluster>, a: nat, b: nat, w: real): seq<Cluster>
    requires a < |cl| && b < |cl| && a != b
  {
    cl[a := Cluster(cl[a].functions + cl[b].functions, Stricter(cl[a].category, cl[b].category),
                    cl[a].weight + (cl[b].weight + w))]
      [b := cl[b].(functions := [])]
  }

  lemma {:induction false} WeightAfterMove(es: seq<Edge>, o: Owner, a: nat, b: nat, c: nat)
    requires a != b && c != b
    ensures Weight(es, Moved(o, a, b), c, c) ==
            if c == a then Weight(es, o, a, a) + Weight(es, o, b, b) + Weight(es, o, a, b) else Weight(es, o, c, c)
  {
    if es != [] { WeightAfterMove(es[..|es| - 1], o, a, b, c); }
  }

  lemma MergePartition(cl: seq<Cluster>, o: Owner, a: nat, b: nat, w: real)
    requires a < |cl| && b < |cl| && a != b && Partition(cl, o)
    ensures Partition(Joined(cl, a, b, w), Moved(o, a, b))
  {
    forall f | f in cl[a].functions ensures f !in cl[b].functions {
      assert f in o && o[f] == a;
    }
    NoDupConcat(cl[a].functions, cl[b].functions);
  }

  lemma NoDupConcat(x: seq<Fn>, y: seq<Fn>)
    requires NoDup(x) && NoDup(y) && forall f :: f in x ==> f !in y
    ensures NoDup(x + y)
  {
    forall i, j | 0 <= i < j < |x + y| ensures (x + y)[i] != (x + y)[j] {
      if i < |x| <= j { assert x[i] in x && y[j - |x|] in y; }
    }
  }

  lemma MergeKeepsInv(cl: seq<Cluster>, o: Owner, cats: map<Fn, Category>, es: seq<Edge>, a: nat, b: nat)
    requires Inv(cl, o, cats, es) && a < |cl| && b < |cl| && a != b
    requires cl[a].functions != [] && cl[b].functions != [] && Compatible(cl[a].category, cl[b].category)
    ensures Inv(Joined(cl, a, b, Weight(es, o, a, b)), Moved(o, a, b), cats, es)
  {
    var cl' := Joined(cl, a, b, Weight(es, o, a, b));
    MergePartition(cl, o, a, b, Weight(es, o, a, b));
    MergeUnmixed(cl, cats, a, b, Weight(es, o, a, b));
    forall c: nat | c < |cl'| && cl'[c].functions != []
      ensures cl'[c].weight == Weight(es, Moved(o, a, b), c, c)
    {
      WeightAfterMove(es, o, a, b, c);
    }
  }

  lemma MergeUnmixed(cl: seq<Cluster>, cats: map<Fn, Category>, a: nat, b: nat, w: real)
    requires Unmixed(cl, cats) && a < |cl| && b < |cl| && a != b
    requires cl[a].functions != [] && cl[b].functions != [] && Compatible(cl[a].category, cl[b].category)
    ensures Unmixed(Joined(cl, a, b, w), cats)
  {
  }

  predicate Active(cl: seq<Cluster>, c: nat) { c < |cl| && cl[c].functions != [] }

  ghost function ActiveSet(cl: seq<Cluster>): set<nat> { set c: nat | c < |cl| && Active(cl, c) }

  /** The pair may be merged, and its merge is worth something. */
  predicate Mergeable(cl: seq<Cluster>, o: Owner, es: seq<Edge>, a: nat, b: nat) {
    Active(cl, a) && Active(cl, b) && a != b && Compatible(cl[a].category, cl[b].category) && Weight(es, o, a, b) > 0.0
  }

  /** The pair the greedy choice is of: none weighs more, and of equal ones it is the first. */
  ghost predicate FirstHeaviest(cl: seq<Cluster>, o: Owner, es: seq<Edge>, a: nat, b: nat) {
    && a < b && MayMerge(cl, a, b) && Weight(es, o, a, b) > 0.0
    && forall c: nat, d: nat :: c < d && MayMerge(cl, c, d) ==>
         && Weight(es, o, c, d) <= Weight(es, o, a, b)
         && (c < a || (c == a && d < b) ==> Weight(es, o, c, d) < Weight(es, o, a, b))
  }

  /** Two clusters that are not empty, of one category or one of them pure. */
  predicate MayMerge(cl: seq<Cluster>, a: nat, b: nat) {
    && a < |cl| && b < |cl| && cl[a].functions != [] && cl[b].functions != []
    && (cl[a].category == cl[b].category || cl[a].category == Pure || cl[b].category == Pure)
  }

  /** Cluster b has gone into a, whose category is that of the one that is not pure; nothing else has changed. */
  ghost predicate MergedInto(cl: seq<Cluster>, o: Owner, a: nat, b: nat, cl': seq<Cluster>, o': Owner) {
    && |cl'| == |cl| && a < |cl| && b < |cl| && a != b
    && cl'[a].functions == cl[a].functions + cl[b].functions && cl'[b].functions == []
    && cl'[a].category == (if cl[a].category == Pure then cl[b].category else cl[a].category)
    && (forall c :: 0 <= c < |cl| && c != a && c != b ==> cl'[c] == cl[c])
    && o'.Keys == o.Keys && forall f :: f in o ==> o'[f] == if o[f] == b then a else o[f]
  }

  datatype Stage = Stage(cl: seq<Cluster>, o: Owner)

  /** Each stage comes from the one before by merging its first heaviest pair. */
  ghost predicate Greedily(stages: seq<Stage>, es: seq<Edge>, pairs: seq<(nat, nat)>) {
    |stages| == |pairs| + 1 && forall i :: 0 <= i < |pairs| ==> GreedyStep(stages[i], stages[i + 1], es, pairs[i])
  }

  ghost predicate GreedyStep(s: Stage, t: Stage, es: seq<Edge>, pair: (nat, nat)) {
    FirstHeaviest(s.cl, s.o, es, pair.0, pair.1) && MergedInto(s.cl, s.o, pair.0, pair.1, t.cl, t.o)
  }

  /** One cluster for each module, of its functions and category. */
  ghost predicate OnePerModule(mods: seq<Mod>, cl: seq<Cluster>) {
    |cl| == |mods| &&
    forall k :: 0 <= k < |mods| ==> cl[k].functions == mods[k].functions && cl[k].category == mods[k].category
  }

  // ---- The algorithm in its own form --------------------------------------------------------

  method InterClusterWeight(es: seq<Edge>, o: Owner, a: nat, b: nat) returns (total: real)
    ensures total == Weight(es, o, a, b)
  {
    total := 0.0;
    for i := 0 to |es|
      invariant total == Weight(es[..i], o, a, b)
    {
      assert es[..i + 1][..i] == es[..i];
      var e := es[i];
      if e.caller in o && e.callee in o {
        if (o[e.caller] == a && o[e.callee] == b) || (o[e.caller] == b && o[e.callee] == a) {
          total := total + e.weight;
        }
      }
    }
    assert es[..|es|] == es;
  }

  /** The best pair among those that come before (i, j). */
  ghost predicate BestBefore(cl: seq<Cluster>, o: Owner, es: seq<Edge>, i: nat, j: nat, found: bool, a: nat, b: nat,
                             w: real)
  {
    && w >= 0.0 && (found <==> w > 0.0)
    && (found ==> a < b && Earlier(a, b, i, j) && Mergeable(cl, o, es, a, b) && w == Weight(es, o, a, b))
    && forall c: nat, d: nat :: c < d && Earlier(c, d, i, j) && Mergeable(cl, o, es, c, d) ==>
         Weight(es, o, c, d) <= w && (Earlier(c, d, a, b) ==> Weight(es, o, c, d) < w)
  }

  predicate Earlier(c: nat, d: nat, a: nat, b: nat) { c < a || (c == a && d < b) }

  /** The first heaviest mergeable pair; found is false when there is none. */
  method BestPair(cl: seq<Cluster>, o: Owner, es: seq<Edge>) returns (found: bool, a: nat, b: nat, w: real)
    ensures found ==> FirstHeaviest(cl, o, es, a, b) && w == Weight(es, o, a, b)
    ensures !found ==> forall c: nat, d: nat :: c < d ==> !Mergeable(cl, o, es, c, d)
  {
    found, a, b, w := false, 0, 0, 0.0;
    for i := 0 to |cl|
      invariant BestBefore(cl, o, es, i, 0, found, a, b, w)
    {
      if cl[i].functions != [] {
        for j := i + 1 to |cl|
          invariant BestBefore(cl, o, es, i, j, found, a, b, w)
        {
          PairTried(cl, o, es, i, j, found, a, b, w);
          if cl[j].functions != [] && Compatible(cl[i].category, cl[j].category) {
            var x := InterClusterWeight(es, o, i, j);
            if x > w { found, a, b, w := true, i, j, x; }
          }
        }
      }
      RowTried(cl, o, es, i, found, a, b, w);
    }
    if found { assert FirstHeaviest(cl, o, es, a, b); }
  }

  lemma PairTried(cl: seq<Cluster>, o: Owner, es: seq<Edge>, i: nat, j: nat, found: bool, a: nat, b: nat, w: real)
    requires i < j < |cl| && cl[i].functions != [] && BestBefore(cl, o, es, i, j, found, a, b, w)
    ensures var x := Weight(es, o, i, j);
            if cl[j].functions != [] && Compatible(cl[i].category, cl[j].category) && x > w
            then BestBefore(cl, o, es, i, j + 1, true, i, j, x)
            else BestBefore(cl, o, es, i, j + 1, found, a, b, w)
  {
  }

  lemma RowTried(cl: seq<Cluster>, o: Owner, es: seq<Edge>, i: nat, found: bool, a: nat, b: nat, w: real)
    requires i < |cl|
    requires BestBefore(cl, o, es, i, if cl[i].functions != [] then |cl| else 0, found, a, b, w)
    ensures BestBefore(cl, o, es, i + 1, 0, found, a, b, w)
  {
  }

  ghost function Categories(mods: seq<Mod>): map<Fn, Category> {
    if mods == [] then map[]
    else
      var last := mods[|mods| - 1];
      Categories(mods[..|mods| - 1]) + map f | f in last.functions :: last.category
  }

  /** Function names are unique, within and across modules. */
  ghost predicate DistinctFunctions(mods: seq<Mod>) {
    && (forall i :: 0 <= i < |mods| ==> NoDup(mods[i].functions))
    && (forall i, j :: 0 <= i < j < |mods| ==> forall f :: f in mods[i].functions ==> f !in mods[j].functions)
  }

  lemma {:induction false} CategoryIs(mods: seq<Mod>, n: nat, f: Fn)
    requires DistinctFunctions(mods) && n <= |mods|
    ensures f in Categories(mods[..n]) <==> exists i :: 0 <= i < n && f in mods[i].functions
    ensures forall i :: 0 <= i < n && f in mods[i].functions ==>
              f in Categories(mods[..n]) && Categories(mods[..n])[f] == mods[i].category
  {
    if n > 0 {
      CategoryIs(mods, n - 1, f);
      assert mods[..n][..n - 1] == mods[..n - 1] && mods[..n][n - 1] == mods[n - 1];
    }
  }

  /** One cluster per module. */
  method InitialClusters(mods: seq<Mod>, es: seq<Edge>) returns (cl: seq<Cluster>, o: Owner)
    requires DistinctFunctions(mods)
    ensures OnePerModule(mods, cl) && Inv(cl, o, Categories(mods), es)
  {
    o := map[];
    for i := 0 to |mods|
      invariant forall f :: f in o <==> exists k :: 0 <= k < i && f in mods[k].functions
      invariant forall k, f :: 0 <= k < i && f in mods[k].functions ==> f in o && o[f] == k
    {
      o := o + map f | f in mods[i].functions :: i;
    }
    cl := [];
    for i := 0 to |mods|
      invariant |cl| == i
      invariant forall k: nat :: k < i ==> cl[k] == Cluster(mods[k].functions, mods[k].category, Weight(es, o, k, k))
    {
      var w := InterClusterWeight(es, o, i, i);
      cl := cl + [Cluster(mods[i].functions, mods[i].category, w)];
    }
    InitialInv(mods, cl, o, es);
  }

  lemma InitialInv(mods: seq<Mod>, cl: seq<Cluster>, o: Owner, es: seq<Edge>)
    requires DistinctFunctions(mods) && |cl| == |mods|
    requires forall k: nat :: k < |mods| ==> cl[k] == Cluster(mods[k].functions, mods[k].category, Weight(es, o, k, k))
    requires forall f :: f in o <==> exists k :: 0 <= k < |mods| && f in mods[k].functions
    requires forall k, f :: 0 <= k < |mods| && f in mods[k].functions ==> f in o && o[f] == k
    ensures Inv(cl, o, Categories(mods), es)
  {
    assert mods[..|mods|] == mods;
    forall f
      ensures f in Categories(mods) <==> f in o
      ensures forall i :: 0 <= i < |mods| && f in mods[i].functions ==>
                f in Categories(mods) && Categories(mods)[f] == mods[i].category
    {
      CategoryIs(mods, |mods|, f);
    }
    assert o.Keys == Categories(mods).Keys;
    assert forall c: nat, f :: c < |cl| && f in cl[c].functions ==> f in mods[c].functions;
  }

  /** One iteration of the greedy loop that found a pair. */
  method MergeClusters(cl: seq<Cluster>, o: Owner, a: nat, b: nat, w: real) returns (cl': seq<Cluster>, o': Owner)
    requires a < |cl| && b < |cl| && a != b && Partition(cl, o)
    ensures cl' == Joined(cl, a, b, w) && o' == Moved(o, a, b)
  {
    var category := Stricter(cl[a].category, cl[b].category);
    cl' := cl[a := Cluster(cl[a].functions + cl[b].functions, category, cl[a].weight + (cl[b].weight + w))];
    o' := o;
    for i := 0 to |cl[b].functions|
      invariant o'.Keys == o.Keys
      invariant forall f :: f in o ==> o'[f] == if f in cl[b].functions[..i] then a else o[f]
    {
      assert cl[b].functions[..i + 1] == cl[b].functions[..i] + [cl[b].functions[i]];
      assert cl[b].functions[i] in cl[b].functions;
      o' := o'[cl[b].functions[i] := a];
    }
    assert cl[b].functions[..|cl[b].functions|] == cl[b].functions;
    cl' := cl'[b := cl'[b].(functions := [])];
    assert o' == Moved(o, a, b);
  }

  lemma MergeShrinks(cl: seq<Cluster>, a: nat, b: nat, w: real)
    requires Active(cl, a) && Active(cl, b) && a != b
    ensures |ActiveSet(Joined(cl, a, b, w))| == |ActiveSet(cl)| - 1
  {
    assert ActiveSet(Joined(cl, a, b, w)) == ActiveSet(cl) - {b};
  }

  lemma {:induction false} ActiveAtMost(cl: seq<Cluster>)
    ensures |ActiveSet(cl)| <= |cl|
  {
    if cl != [] {
      var n := |cl| - 1;
      ActiveAtMost(cl[..n]);
      assert ActiveSet(cl) <= ActiveSet(cl[..n]) + {n};
      SubsetSize(ActiveSet(cl), ActiveSet(cl[..n]) + {n});
    }
  }

  lemma {:induction false} SubsetSize(a: set<nat>, b: set<nat>)
    requires a <= b
    ensures |a| <= |b|
  {
    if a != {} {
      var x :| x in a;
      SubsetSize(a - {x}, b - {x});
    }
  }

  lemma JoinedIsMerged(cl: seq<Cluster>, o: Owner, a: nat, b: nat, w: real)
    requires a < |cl| && b < |cl| && a != b && Compatible(cl[a].category, cl[b].category)
    ensures MergedInto(cl, o, a, b, Joined(cl, a, b, w), Moved(o, a, b))
  {
  }

  /** Greedy clustering: from one cluster a module, the first heaviest pair is merged again and again. The cap of twice
      the number of clusters never cuts it short: on return no compatible pair of clusters has positive weight between
      its members. */
  method BuildClusters(mods: seq<Mod>, es: seq<Edge>)
    returns (cl: seq<Cluster>, o: Owner, ghost stages: seq<Stage>, ghost pairs: seq<(nat, nat)>)
    requires DistinctFunctions(mods)
    ensures Inv(cl, o, Categories(mods), es)
    ensures forall a: nat, b: nat :: a < b && MayMerge(cl, a, b) ==> Weight(es, o, a, b) <= 0.0
    ensures Greedily(stages, es, pairs) && OnePerModule(mods, stages[0].cl) && stages[|pairs|] == Stage(cl, o)
  {
    cl, o := InitialClusters(mods, es);
    stages, pairs := [Stage(cl, o)], [];
    var maxMerges := |cl| * 2;
    ActiveAtMost(cl);
    var k := 0;
    while k < maxMerges
      invariant 0 <= k <= maxMerges == 2 * |mods| && |cl| == |mods|
      invariant Inv(cl, o, Categories(mods), es)
      invariant |ActiveSet(cl)| <= |mods| - k
      invariant Greedily(stages, es, pairs) && OnePerModule(mods, stages[0].cl) && stages[|pairs|] == Stage(cl, o)
    {
      var found, a, b, w := BestPair(cl, o, es);
      if !found {
        forall a: nat, b: nat | a < b && MayMerge(cl, a, b) ensures Weight(es, o, a, b) <= 0.0 {
          assert !Mergeable(cl, o, es, a, b);
        }
        return;
      }
      MergeKeepsInv(cl, o, Categories(mods), es, a, b);
      MergeShrinks(cl, a, b, w);
      JoinedIsMerged(cl, o, a, b, w);
      GreedilyMore(stages, es, pairs, (a, b), Stage(Joined(cl, a, b, w), Moved(o, a, b)));
      cl, o := MergeClusters(cl, o, a, b, w);
      stages, pairs := stages + [Stage(cl, o)], pairs + [(a, b)];
      k := k + 1;
    }
    assert |mods| == 0;
  }

  lemma GreedilyMore(stages: seq<Stage>, es: seq<Edge>, pairs: seq<(nat, nat)>, pair: (nat, nat), next: Stage)
    requires Greedily(stages, es, pairs) && GreedyStep(stages[|pairs|], next, es, pair)
    ensures Greedily(stages + [next], es, pairs + [pair])
  {
    var ss, ps := stages + [next], pairs + [pair];
    forall i | 0 <= i < |ps| ensures GreedyStep(ss[i], ss[i + 1], es, ps[i]) {
      if i < |pairs| { assert GreedyStep(stages[i], stages[i + 1], es, pairs[i]); }
    }
  }

  // ---- Overrides ----------------------------------------------------------------------------

  /** One pin: fn's cluster is emptied into anchor's. Category and weight of the latter stay. */
  function Pinned(cl: seq<Cluster>, a: nat, b: nat): seq<Cluster>
    requires a < |cl| && b < |cl| && a != b
  {
    cl[a := cl[a].(functions := cl[a].functions + cl[b].functions)][b := cl[b].(functions := [])]
  }

  lemma PinPartition(cl: seq<Cluster>, o: Owner, a: nat, b: nat)
    requires a < |cl| && b < |cl| && a != b && Partition(cl, o)
    ensures Partition(Pinned(cl, a, b), Moved(o, a, b))
  {
    MergePartition(cl, o, a, b, 0.0);
    var x, y := Joined(cl, a, b, 0.0), Pinned(cl, a, b);
    assert forall c: nat :: c < |cl| ==> x[c].functions == y[c].functions;
  }

  /** Functions that shared a cluster still do. */
  ghost predicate StillTogether(o: Owner, p: Owner) {
    o.Keys == p.Keys && forall f, g :: f in o && g in o && o[f] == o[g] ==> p[f] == p[g]
  }

  /** pin_together: (function, anchor) pairs in order; pairs with an unknown name are skipped. */
  method ApplyPins(cl0: seq<Cluster>, o0: Owner, pins: seq<(Fn, Fn)>) returns (cl: seq<Cluster>, o: Owner)
    requires Partition(cl0, o0)
    ensures |cl| == |cl0| && Partition(cl, o) && o.Keys == o0.Keys
    ensures PinsHold(o, pins) && StillTogether(o0, o) && NoMoreThan(o0, pins, o)
  {
    cl, o := cl0, o0;
    for i := 0 to |pins|
      invariant |cl| == |cl0| && Partition(cl, o) && o.Keys == o0.Keys
      invariant PinsHold(o, pins[..i]) && StillTogether(o0, o) && NoMoreThan(o0, pins[..i], o)
    {
      var (fn, anchor) := pins[i];
      if fn in o && anchor in o && o[fn] != o[anchor] {
        var src, dst := o[fn], o[anchor];
        PinPartition(cl, o, dst, src);
        MovedTogether(o0, o, pins[..i], dst, src);
        PinNoMore(o0, o, pins, i, dst, src);
        cl := Pinned(cl, dst, src);
        o := Moved(o, dst, src);
      } else {
        LessPinned(o0, o, pins, i);
      }
      OneMorePin(o, pins, i);
    }
    assert pins[..|pins|] == pins;
  }

  /** Functions share a cluster only if they have to: they do so in every assignment that keeps the old clusters
      together and holds the pins. */
  ghost predicate NoMoreThan(o0: Owner, pins: seq<(Fn, Fn)>, o: Owner) {
    forall q: Owner :: StillTogether(o0, q) && PinsHold(q, pins) ==> StillTogether(o, q)
  }

  lemma LessPinned(o0: Owner, o: Owner, pins: seq<(Fn, Fn)>, i: nat)
    requires i < |pins| && NoMoreThan(o0, pins[..i], o)
    ensures NoMoreThan(o0, pins[..i + 1], o)
  {
    forall q: Owner | StillTogether(o0, q) && PinsHold(q, pins[..i + 1]) ensures StillTogether(o, q) {
      FewerPins(q, pins, i);
    }
  }

  lemma FewerPins(q: Owner, pins: seq<(Fn, Fn)>, i: nat)
    requires i < |pins| && PinsHold(q, pins[..i + 1])
    ensures PinsHold(q, pins[..i]) && (pins[i].0 in q && pins[i].1 in q ==> q[pins[i].0] == q[pins[i].1])
  {
    assert pins[..i + 1] == pins[..i] + [pins[i]];
    assert pins[i] in pins[..i + 1];
  }

  lemma PinNoMore(o0: Owner, o: Owner, pins: seq<(Fn, Fn)>, i: nat, a: nat, b: nat)
    requires i < |pins| && NoMoreThan(o0, pins[..i], o) && o.Keys == o0.Keys
    requires pins[i].0 in o && pins[i].1 in o && b == o[pins[i].0] && a == o[pins[i].1]
    ensures NoMoreThan(o0, pins[..i + 1], Moved(o, a, b))
  {
    forall q: Owner | StillTogether(o0, q) && PinsHold(q, pins[..i + 1]) ensures StillTogether(Moved(o, a, b), q) {
      FewerPins(q, pins, i);
    }
  }

  /** Every pinned pair of known names shares a cluster. */
  ghost predicate PinsHold(o: Owner, pins: seq<(Fn, Fn)>) {
    forall pin :: pin in pins && pin.0 in o && pin.1 in o ==> o[pin.0] == o[pin.1]
  }

  lemma OneMorePin(o: Owner, pins: seq<(Fn, Fn)>, i: nat)
    requires i < |pins| && PinsHold(o, pins[..i])
    requires pins[i].0 in o && pins[i].1 in o ==> o[pins[i].0] == o[pins[i].1]
    ensures PinsHold(o, pins[..i + 1])
  {
    assert pins[..i + 1] == pins[..i] + [pins[i]];
  }

  lemma MovedTogether(o0: Owner, o: Owner, pins: seq<(Fn, Fn)>, a: nat, b: nat)
    requires StillTogether(o0, o) && PinsHold(o, pins)
    ensures StillTogether(o0, Moved(o, a, b)) && PinsHold(Moved(o, a, b), pins)
  {
  }

  /** Recorded weights stay right exactly when the moved cluster brings no weight: no edges of its own
      and none to its anchor's cluster (or edges whose weights cancel). */
  lemma PinKeepsWeightExactly(cl: seq<Cluster>, o: Owner, es: seq<Edge>, a: nat, b: nat)
    requires Partition(cl, o) && Weighed(cl, o, es) && a < |cl| && b < |cl| && a != b
    requires cl[a].functions != [] && cl[b].functions != []
    ensures Weighed(Pinned(cl, a, b), Moved(o, a, b), es) <==> Weight(es, o, b, b) + Weight(es, o, a, b) == 0.0
  {
    var cl' := Pinned(cl, a, b);
    forall c: nat | c < |cl| && c != b
      ensures Weight(es, Moved(o, a, b), c, c) ==
              if c == a then cl[a].weight + Weight(es, o, b, b) + Weight(es, o, a, b) else Weight(es, o, c, c)
    {
      WeightAfterMove(es, o, a, b, c);
    }
    assert cl'[a].functions != [] && cl'[a].weight == cl[a].weight && cl'[b].functions == [];
  }

  /** Categories stay unmixed exactly when every moved function is pure or of the anchor cluster's category. */
  lemma PinKeepsCategoryExactly(cl: seq<Cluster>, cats: map<Fn, Category>, a: nat, b: nat)
    requires Unmixed(cl, cats) && a < |cl| && b < |cl| && a != b
    ensures Unmixed(Pinned(cl, a, b), cats) <==>
            forall f :: f in cl[b].functions ==> cats[f] == Pure || cats[f] == cl[a].category
  {
    var cl' := Pinned(cl, a, b);
    if Unmixed(cl', cats) {
      forall f | f in cl[b].functions ensures cats[f] == Pure || cats[f] == cl[a].category {
        assert f in cl'[a].functions;
      }
    }
  }

  /** Pins update neither weights nor categories: this one leaves a cluster that mixes two categories
      and whose recorded weight misses the edge it now holds. */
  const PIN_EDGES: seq<Edge> := [Edge("m.f", "n.g", 1.0)]
  const PIN_CLUSTERS: seq<Cluster> := [Cluster(["m.f"], AbiAnchor, 0.0), Cluster(["n.g"], ResourceOwner, 0.0)]

  lemma PinsForgetWeight()
    ensures var o: Owner := map["m.f" := 0, "n.g" := 1];
            Weighed(PIN_CLUSTERS, o, PIN_EDGES) && !Weighed(Pinned(PIN_CLUSTERS, 0, 1), Moved(o, 0, 1), PIN_EDGES)
  {
    assert "m.f" != "n.g" by { assert "m.f"[0] != "n.g"[0]; }
    var o: Owner := map["m.f" := 0, "n.g" := 1];
    assert PIN_EDGES[..0] == [];
    assert Weight(PIN_EDGES, o, 0, 0) == 0.0 && Weight(PIN_EDGES, o, 1, 1) == 0.0;
    assert Weight(PIN_EDGES, Moved(o, 0, 1), 0, 0) == 1.0;
    assert Pinned(PIN_CLUSTERS, 0, 1)[0] == Cluster(["m.f", "n.g"], AbiAnchor, 0.0);
  }

  lemma PinsMixCategories()
    ensures var cats := map["m.f" := AbiAnchor, "n.g" := ResourceOwner];
            Unmixed(PIN_CLUSTERS, cats) && !Unmixed(Pinned(PIN_CLUSTERS, 0, 1), cats)
  {
    assert "m.f" != "n.g" by { assert "m.f"[0] != "n.g"[0]; }
    var cats, cl := map["m.f" := AbiAnchor, "n.g" := ResourceOwner], Pinned(PIN_CLUSTERS, 0, 1);
    assert cl[0] == Cluster(["m.f", "n.g"], AbiAnchor, 0.0) && cl[0].functions[1] == "n.g";
    var c: nat, f := 0, "n.g";
    assert c < |cl| && f in cl[c].functions && cats[f] != Pure && cats[f] != cl[c].category;
  }
}
