// The order in which _collect_graph_X puts objects into the table, as a function of the heap and the root:
// depth first, children before their parent.
module CollectOrder {
  import opened ObjectGraph
  import opened Wrappers

  ghost predicate Acyclic(h: Heap, rank: map<Ptr, nat>) {
    h.Keys <= rank.Keys &&
    forall a, k :: a in h && h[a].Struct? && k in Kids(h[a].fields, true) ==> k.1 in rank && rank[k.1] < rank[a]
  }

  /** S holds, with every object, all the objects collect would follow from it. */
  ghost predicate Closed(h: Heap, S: set<Ptr>) {
    forall a :: a in S && a in h && h[a].Struct? ==> forall k :: k in Kids(h[a].fields, true) ==> k.1 in S
  }

  /** A duplicate-free table of typed objects in which every followed child precedes its parent. */
  ghost predicate ChildrenFirst(h: Heap, order: seq<Ptr>, schema: Schema) {
    && Table(h, order, schema)
    && NoDup(order)
    && forall i :: 0 <= i < |order| ==> forall k :: k in Kids(h[order[i]].fields, true) ==> k.1 in order[..i]
  }

  /** All that collecting from p may append to `before`: objects of rank below `limit`, inside every
      closed set that holds p. */
  ghost predicate Appended(h: Heap, rank: map<Ptr, nat>, p: Ptr, limit: nat, before: seq<Ptr>, after: seq<Ptr>) {
    && before <= after
    && (forall q :: q in after && q !in before ==> q in rank && rank[q] < limit)
    && (forall S: set<Ptr> :: p in S && Closed(h, S) ==> forall q :: q in after && q !in before ==> q in S)
  }

  lemma AppendedByKid(h: Heap, rank: map<Ptr, nat>, p: Ptr, k: (Tag, Ptr), a: seq<Ptr>, b: seq<Ptr>, c: seq<Ptr>)
    requires Acyclic(h, rank) && p in h && h[p].Struct? && k in Kids(h[p].fields, true)
    requires Appended(h, rank, p, rank[p], a, b) && Appended(h, rank, k.1, rank[k.1] + 1, b, c)
    ensures Appended(h, rank, p, rank[p], a, c)
  {
    forall S: set<Ptr> | p in S && Closed(h, S)
      ensures forall q :: q in c && q !in a ==> q in S
    {
      assert k.1 in S;
    }
  }

  ghost predicate KidsIn(kids: seq<(Tag, Ptr)>, n: nat, s: seq<Ptr>)
    requires n <= |kids|
  {
    forall j :: 0 <= j < n ==> kids[j].1 in s
  }

  lemma KidsInStep(kids: seq<(Tag, Ptr)>, n: nat, a: seq<Ptr>, b: seq<Ptr>)
    requires n < |kids| && KidsIn(kids, n, a) && a <= b && kids[n].1 in b
    ensures KidsIn(kids, n + 1, b)
  {
    assert a == b[..|a|];
    assert forall q :: q in a ==> q in b;
  }

  lemma ParentAfterChildren(h: Heap, schema: Schema, p: Ptr, s: seq<Ptr>)
    requires ChildrenFirst(h, s, schema) && p !in s && p != NULL && p in h && IsObject(h[p], schema)
    requires var kids := Kids(h[p].fields, true); KidsIn(kids, |kids|, s)
    ensures ChildrenFirst(h, s + [p], schema)
  {
    var t := s + [p];
    forall i | 0 <= i < |t|
      ensures forall k :: k in Kids(h[t[i]].fields, true) ==> k.1 in t[..i]
    {
      assert t[..i] == s[..i];
      if i == |s| { assert s[..i] == s; }
    }
  }

  // ---- The order ----------------------------------------------------------------------------

  /** The table after collecting from p. `rank` only shows that this ends. */
  ghost function Visit(h: Heap, rank: map<Ptr, nat>, p: Ptr, seen: seq<Ptr>): seq<Ptr>
    requires Acyclic(h, rank)
    decreases if p in rank then rank[p] + 1 else 0, 0
  {
    if p == NULL || p in seen || p !in h || !h[p].Struct? then seen
    else VisitKids(h, rank, Kids(h[p].fields, true), rank[p], seen) + [p]
  }

  ghost function VisitKids(h: Heap, rank: map<Ptr, nat>, kids: seq<(Tag, Ptr)>, limit: nat, seen: seq<Ptr>): seq<Ptr>
    requires Acyclic(h, rank) && forall k :: k in kids ==> k.1 in rank && rank[k.1] < limit
    decreases limit, |kids|
  {
    if kids == [] then seen
    else
      var n := |kids| - 1;
      Visit(h, rank, kids[n].1, VisitKids(h, rank, kids[..n], limit, seen))
  }

  /** Collecting keeps children before parents and adds p and only what it reaches. */
  lemma {:induction false} VisitKeeps(h: Heap, schema: Schema, rank: map<Ptr, nat>, p: Ptr, seen: seq<Ptr>)
    requires WellTyped(h, schema) && Acyclic(h, rank) && ChildrenFirst(h, seen, schema)
    requires p != NULL ==> p in h
    ensures ChildrenFirst(h, Visit(h, rank, p, seen), schema)
    ensures p != NULL ==>
              p in Visit(h, rank, p, seen) && Appended(h, rank, p, rank[p] + 1, seen, Visit(h, rank, p, seen))
    ensures p != NULL && p !in seen ==> var s := Visit(h, rank, p, seen); s[|s| - 1] == p
    decreases if p in rank then rank[p] + 1 else 0, 0
  {
    if p != NULL && p !in seen {
      var kids := Kids(h[p].fields, true);
      KidsAreRefs(h[p].fields, true);
      VisitKidsKeep(h, schema, rank, p, kids, |kids|, seen);
      assert kids[..|kids|] == kids;
      ParentAfterChildren(h, schema, p, VisitKids(h, rank, kids, rank[p], seen));
    }
  }

  lemma {:induction false} VisitKidsKeep(h: Heap, schema: Schema, rank: map<Ptr, nat>, p: Ptr, kids: seq<(Tag, Ptr)>,
                                         i: nat, seen: seq<Ptr>)
    requires WellTyped(h, schema) && Acyclic(h, rank) && ChildrenFirst(h, seen, schema)
    requires p in h && kids == Kids(h[p].fields, true) && i <= |kids|
    ensures var s := VisitKids(h, rank, kids[..i], rank[p], seen);
            ChildrenFirst(h, s, schema) && KidsIn(kids, i, s) && Appended(h, rank, p, rank[p], seen, s)
    decreases rank[p], i
  {
    if i > 0 {
      var n := i - 1;
      assert kids[..i][..n] == kids[..n];
      VisitKidsKeep(h, schema, rank, p, kids, n, seen);
      KidIsObject(h, schema, p, kids, n);
      var mid := VisitKids(h, rank, kids[..n], rank[p], seen);
      VisitKeeps(h, schema, rank, kids[n].1, mid);
      KidVisited(h, rank, p, kids, n, seen, mid, Visit(h, rank, kids[n].1, mid));
    }
  }

  lemma KidIsObject(h: Heap, schema: Schema, p: Ptr, kids: seq<(Tag, Ptr)>, i: nat)
    requires WellTyped(h, schema) && p in h && h[p].Struct? && kids == Kids(h[p].fields, true) && i < |kids|
    ensures kids[i].1 != NULL && kids[i].1 in h && h[kids[i].1].tag == kids[i].0
  {
    KidsAreRefs(h[p].fields, true);
    assert kids[i] in kids && Refs(h[p]) == RefsAll(h[p].fields);
  }

  lemma KidVisited(h: Heap, rank: map<Ptr, nat>, p: Ptr, kids: seq<(Tag, Ptr)>, n: nat, before: seq<Ptr>,
                   mid: seq<Ptr>, after: seq<Ptr>)
    requires Acyclic(h, rank) && p in h && h[p].Struct? && kids == Kids(h[p].fields, true) && n < |kids|
    requires KidsIn(kids, n, mid) && Appended(h, rank, p, rank[p], before, mid)
    requires kids[n].1 in after && kids[n].1 in rank
    requires Appended(h, rank, kids[n].1, rank[kids[n].1] + 1, mid, after)
    ensures KidsIn(kids, n + 1, after) && Appended(h, rank, p, rank[p], before, after)
  {
    assert kids[n] in kids;
    AppendedByKid(h, rank, p, kids[n], before, mid, after);
    KidsInStep(kids, n, mid, after);
  }

  ghost predicate Extends(g: Heap, h: Heap) { forall a :: a in h ==> a in g && g[a] == h[a] }

  /** The order depends only on the objects there are, not on others, nor on the ranks. */
  lemma {:induction false} VisitSame(h: Heap, g: Heap, schema: Schema, rank: map<Ptr, nat>, other: map<Ptr, nat>,
                                     p: Ptr, seen: seq<Ptr>)
    requires WellTyped(h, schema) && Acyclic(h, rank) && Acyclic(g, other) && Extends(g, h) && p in h
    ensures Visit(g, other, p, seen) == Visit(h, rank, p, seen)
    decreases rank[p] + 1, 0
  {
    if p != NULL && p !in seen {
      var kids := Kids(h[p].fields, true);
      KidsAreRefs(h[p].fields, true);
      VisitKidsSame(h, g, schema, rank, other, kids, rank[p], other[p], seen);
    }
  }

  lemma {:induction false} VisitKidsSame(h: Heap, g: Heap, schema: Schema, rank: map<Ptr, nat>, other: map<Ptr, nat>,
                                         kids: seq<(Tag, Ptr)>, limit: nat, otherLimit: nat, seen: seq<Ptr>)
    requires WellTyped(h, schema) && Acyclic(h, rank) && Acyclic(g, other) && Extends(g, h)
    requires forall k :: k in kids ==> k.1 in h && rank[k.1] < limit && other[k.1] < otherLimit
    ensures VisitKids(g, other, kids, otherLimit, seen) == VisitKids(h, rank, kids, limit, seen)
    decreases limit, |kids|
  {
    if kids != [] {
      var n := |kids| - 1;
      assert kids[n] in kids;
      VisitKidsSame(h, g, schema, rank, other, kids[..n], limit, otherLimit, seen);
      VisitSame(h, g, schema, rank, other, kids[n].1, VisitKids(h, rank, kids[..n], limit, seen));
    }
  }

  /** The table collect builds from root: duplicate-free, children first, root last, and holding the
      least set that contains root and everything followed from its members. */
  ghost predicate PostOrder(h: Heap, root: Ptr, order: seq<Ptr>, schema: Schema) {
    && ChildrenFirst(h, order, schema)
    && 0 < |order| && order[|order| - 1] == root
    && forall S: set<Ptr> :: root in S && Closed(h, S) ==> forall q :: q in order ==> q in S
  }

  lemma PostOrderIsClosed(h: Heap, root: Ptr, order: seq<Ptr>, schema: Schema)
    requires PostOrder(h, root, order, schema)
    ensures var S := set q | q in order; root in S && Closed(h, S)
  {
    forall a, k | a in order && a in h && h[a].Struct? && k in Kids(h[a].fields, true)
      ensures k.1 in order
    {
      var i :| 0 <= i < |order| && order[i] == a;
      assert k.1 in order[..i];
    }
  }

  /** An object that no pointer leads out of. */
  predicate Leaf(h: Heap, p: Ptr) { p != NULL && p in h && h[p].Struct? && Kids(h[p].fields, true) == [] }

  function Pointers(kids: seq<(Tag, Ptr)>): (r: seq<Ptr>)
    ensures |r| == |kids|
  {
    seq(|kids|, i requires 0 <= i < |kids| => kids[i].1)
  }

  lemma FrontHasNoDup(s: seq<Ptr>, front: seq<Ptr>, p: Ptr)
    requires NoDup(s) && s == front + [p]
    ensures NoDup(front) && p !in front
  {
    assert s[|front|] == p && forall i :: 0 <= i < |front| ==> front[i] == s[i];
  }

  lemma LeafComesLast(h: Heap, rank: map<Ptr, nat>, p: Ptr, seen: seq<Ptr>)
    requires Acyclic(h, rank) && Leaf(h, p) && p !in seen
    ensures Visit(h, rank, p, seen) == seen + [p]
  {
    assert p in rank;
    assert VisitKids(h, rank, [], rank[p], seen) == seen;
  }

  /** Fields are followed in order: different objects without pointers are collected in the order of the fields that
      lead to them. */
  lemma {:induction false} LeavesInOrder(h: Heap, rank: map<Ptr, nat>, kids: seq<(Tag, Ptr)>, limit: nat)
    requires Acyclic(h, rank) && forall k :: k in kids ==> k.1 in rank && rank[k.1] < limit
    requires (forall i :: 0 <= i < |kids| ==> Leaf(h, kids[i].1)) && NoDup(Pointers(kids))
    ensures VisitKids(h, rank, kids, limit, []) == Pointers(kids)
    decreases |kids|
  {
    if kids != [] {
      var n := |kids| - 1;
      var front := Pointers(kids[..n]);
      assert Pointers(kids) == front + [kids[n].1];
      FrontHasNoDup(Pointers(kids), front, kids[n].1);
      LeavesInOrder(h, rank, kids[..n], limit);
      assert kids[n] in kids;
      LeafComesLast(h, rank, kids[n].1, front);
    }
  }

  /** What collecting a whole graph gives. */
  lemma OrderIsPostOrder(h: Heap, schema: Schema, rank: map<Ptr, nat>, root: Ptr)
    requires WellTyped(h, schema) && Acyclic(h, rank) && root in h
    ensures PostOrder(h, root, Visit(h, rank, root, []), schema)
  {
    VisitKeeps(h, schema, rank, root, []);
  }

  lemma ObjectPointsBack(h: Heap, schema: Schema, order: seq<Ptr>, i: nat)
    requires ChildrenFirst(h, order, schema) && i < |order| && AllInSight(schema[h[order[i]].tag])
    ensures forall r :: r in Refs(h[order[i]]) ==> r.1 in order[..i + 1]
  {
    var v := h[order[i]];
    InSightRefsAreKids(v.fields, schema[v.tag], true);
    assert order[..i + 1] == order[..i] + [order[i]];
  }
}
