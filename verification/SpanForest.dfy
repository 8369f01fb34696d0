/** Main results about the forest that `build_tree` returns. */
module SpanForest {
  import opened Sequences
  import opened Options
  import opened SpanTree
  import opened SpanTreeProofs

  /** Below the top level every id stands in the tree of its parent. */
  lemma {:induction false} ParentInTree(input: Input, nodes: seq<SpanNode>, id: Id)
    requires WellFormed(input) && LinkedAll(input, nodes) && id in FlatAll(nodes) && id !in TopIds(nodes)
    ensures Parent(input, id).Some? && Parent(input, id).value in FlatAll(nodes)
    decreases nodes
  {
    var n, ns := nodes[0], nodes[1..];
    assert nodes == [n] + ns;
    TopIdsCons(n, ns);
    if id in Flat(n) {
      ParentInNode(input, n, id);
    } else {
      ParentInTree(input, ns, id);
    }
  }

  lemma {:induction false} ParentInNode(input: Input, n: SpanNode, id: Id)
    requires WellFormed(input) && Linked(input, n) && id in Flat(n) && id != n.span.spanId
    ensures Parent(input, id).Some? && Parent(input, id).value in Flat(n)
    decreases n, 0
  {
    assert id in FlatAll(n.children);
    if id in TopIds(n.children) {
      KeepSelects(ChildrenOf(input, n.span.spanId), OnStack(TopIds(n.children)));
      WithParentSelects(input, input.order, Some(n.span.spanId));
      assert Parent(input, id) == Some(n.span.spanId);
    } else {
      ParentInTree(input, n.children, id);
    }
  }

  // ---- Each row once ----

  /** The two passes of `build_tree`. */
  lemma Passes(input: Input) returns (roots: seq<SpanNode>, seen: set<Id>, others: seq<SpanNode>, all: set<Id>)
    requires WellFormed(input)
    ensures BuildForest(input) == roots + others
    ensures Walked(input, RootIds(input), {}, [], roots, seen)
    ensures Walked(input, RemainingIds(input.order, seen), seen, [], others, all)
    ensures Closed(input, {}, [])
    ensures forall id :: id in RootIds(input) <==> id in input.nodes && Parent(input, id).None?
    ensures forall id :: id in RemainingIds(input.order, seen) <==> id in input.nodes && id !in seen
    ensures Distinct(RootIds(input))
  {
    hide Walked, ChildNodes;
    var r := BuildIds(input, RootIds(input), {});
    roots, seen := r.0, r.1;
    var o := BuildIds(input, RemainingIds(input.order, seen), seen);
    others, all := o.0, o.1;
    WithParentSelects(input, input.order, None);
    RemainingSelects(input.order, seen);
    ChildNodesWalks(input, RootIds(input), {}, []);
    ChildNodesWalks(input, RemainingIds(input.order, seen), seen, []);
  }

  lemma {:induction false} FlatConcat(a: seq<SpanNode>, b: seq<SpanNode>)
    ensures FlatAll(a + b) == FlatAll(a) + FlatAll(b)
    ensures TopIds(a + b) == TopIds(a) + TopIds(b)
  {
    if a == [] {
      assert a + b == b;
      assert FlatAll(a) == [] && TopIds(a) == [];
    } else {
      var n, ns := a[0], a[1..];
      assert a == [n] + ns && a + b == [n] + (ns + b);
      FlatConcat(ns, b);
      TopIdsCons(n, ns);
      TopIdsCons(n, ns + b);
    }
  }

  lemma {:induction false} LinkedConcat(input: Input, a: seq<SpanNode>, b: seq<SpanNode>)
    requires LinkedAll(input, a) && LinkedAll(input, b)
    ensures LinkedAll(input, a + b)
  {
    if a == [] {
      assert a + b == b;
    } else {
      var n, ns := a[0], a[1..];
      assert a == [n] + ns && a + b == [n] + (ns + b);
      LinkedConcat(input, ns, b);
    }
  }

  /** Two walks, the second over what the first left, hold every id once. */
  lemma PassesHoldAll(input: Input, roots: seq<SpanNode>, seen: set<Id>, others: seq<SpanNode>, all: set<Id>,
                      rootIds: seq<Id>, remaining: seq<Id>)
    requires Walked(input, rootIds, {}, [], roots, seen)
    requires Walked(input, remaining, seen, [], others, all)
    requires forall id :: id in remaining <==> id in input.nodes && id !in seen
    ensures Distinct(FlatAll(roots + others))
    ensures forall id :: id in FlatAll(roots + others) <==> id in input.nodes
    ensures LinkedAll(input, roots + others)
  {
    FlatConcat(roots, others);
    LinkedConcat(input, roots, others);
    hide FlatAll, LinkedAll, TopIds, Closed;
    DistinctConcat(FlatAll(roots), FlatAll(others));
    forall id ensures id in FlatAll(roots + others) <==> id in input.nodes {
      assert id in remaining ==> id in all;
    }
  }

  /** Main result: for any rows, also with missing parents, self-loops, cycles
      or repeated ids, the flattened forest holds each span id exactly once, and
      every node carries the first row seen for its id, hangs below the node it
      names as parent, and stands among its siblings in input order. */
  lemma ForestHoldsEachSpanOnce(spans: seq<ToolSpanView>)
    ensures var forest, input := BuildTree(spans), InsertAll(spans);
            && Indexed(spans, input)
            && Distinct(FlatAll(forest))
            && (forall id :: id in FlatAll(forest) <==> FirstIndex(spans, id) < |spans|)
            && LinkedAll(input, forest)
  {
    InsertAllIndexes(spans);
    hide BuildForest, InsertAll, LinkedAll, FlatAll, TopIds, FirstIndex, ChildNodes, Walked, Distinct;
    var input := InsertAll(spans);
    var roots, seen, others, all := Passes(input);
    PassesHoldAll(input, roots, seen, others, all, RootIds(input), RemainingIds(input.order, seen));
  }

  // ---- The top level ----

  lemma {:induction false} RootedIsSeen(input: Input, roots: seq<SpanNode>, seen: set<Id>, id: Id, k: nat)
    requires WellFormed(input) && Closed(input, {}, [])
    requires Walked(input, RootIds(input), {}, [], roots, seen)
    requires forall id :: id in RootIds(input) <==> id in input.nodes && Parent(input, id).None?
    requires RootedIn(input, id, k)
    ensures id in seen
    decreases k
  {
    hide LinkedAll, FlatAll, TopIds;
    if k == 0 {
      assert id in RootIds(input);
    } else {
      RootedIsSeen(input, roots, seen, Parent(input, id).value, k - 1);
    }
  }

  lemma {:induction false} TreesOfRootedAreRooted(input: Input, nodes: seq<SpanNode>)
    requires WellFormed(input) && LinkedAll(input, nodes)
    requires forall id | id in TopIds(nodes) :: Rooted(input, id)
    ensures forall id | id in FlatAll(nodes) :: Rooted(input, id)
    decreases nodes, 1
  {
    if nodes != [] {
      var n, ns := nodes[0], nodes[1..];
      assert nodes == [n] + ns;
      TopIdsCons(n, ns);
      assert n.span.spanId in TopIds(nodes);
      TreeOfRootedIsRooted(input, n);
      TreesOfRootedAreRooted(input, ns);
    }
  }

  lemma {:induction false} TreeOfRootedIsRooted(input: Input, n: SpanNode)
    requires WellFormed(input) && Linked(input, n) && Rooted(input, n.span.spanId)
    ensures forall id | id in Flat(n) :: Rooted(input, id)
    decreases n, 0
  {
    var p := n.span.spanId;
    KeepSelects(ChildrenOf(input, p), OnStack(TopIds(n.children)));
    WithParentSelects(input, input.order, Some(p));
    var k: nat :| RootedIn(input, p, k);
    forall id | id in TopIds(n.children) ensures Rooted(input, id) {
      assert RootedIn(input, id, k + 1);
    }
    TreesOfRootedAreRooted(input, n.children);
  }

  lemma {:induction false} RootsAreOnTop(input: Input, roots: seq<SpanNode>, seen: set<Id>)
    requires WellFormed(input) && Walked(input, RootIds(input), {}, [], roots, seen)
    requires forall id :: id in RootIds(input) <==> id in input.nodes && Parent(input, id).None?
    ensures TopIds(roots) == RootIds(input)
  {
    forall id | id in RootIds(input) ensures id in TopIds(roots) {
      assert id in FlatAll(roots);
      if id !in TopIds(roots) {
        ParentInTree(input, roots, id);
      }
    }
    KeepSelects(RootIds(input), OnStack(TopIds(roots)));
  }

  /** The top level: the roots, in input order, and then only spans that no
      parent chain leads from to a root. */
  lemma TopLevel(input: Input) returns (others: seq<Id>)
    requires WellFormed(input)
    ensures TopIds(BuildForest(input)) == RootIds(input) + others
    ensures forall id | id in others :: id in input.nodes && !Rooted(input, id)
    ensures others == [] <==> forall id | id in input.nodes :: Rooted(input, id)
  {
    var roots, seen, nodes, all := Passes(input);
    FlatConcat(roots, nodes);
    RootsAreOnTop(input, roots, seen);
    others := TopIds(nodes);
    TopInFlat(nodes);
    forall id | id in input.nodes ensures Rooted(input, id) <==> id in seen {
      if Rooted(input, id) {
        var k: nat :| RootedIn(input, id, k);
        RootedIsSeen(input, roots, seen, id, k);
      }
      forall r | r in TopIds(roots) ensures Rooted(input, r) {
        assert RootedIn(input, r, 0);
      }
      TreesOfRootedAreRooted(input, roots);
    }
    if others == [] {
      assert nodes == [];
      assert FlatAll(nodes) == [];
      forall id | id in input.nodes ensures id in seen {
        assert id in RemainingIds(input.order, seen) ==> id in all;
      }
    } else {
      assert others[0] in FlatAll(nodes);
    }
  }

  // ---- All children are kept unless a cycle is cut ----

  lemma SameTree(input: Input, n: SpanNode, ns: seq<SpanNode>, p: Id, c: Id)
    requires WellFormed(input) && Linked(input, n) && LinkedAll(input, ns)
    requires Distinct(Flat(n) + FlatAll(ns))
    requires p in Flat(n) && Parent(input, c) == Some(p)
    requires c in Flat(n) + FlatAll(ns) && c != n.span.spanId && c !in TopIds(ns)
    ensures c in FlatAll(n.children)
  {
    if c in FlatAll(ns) {
      ParentInTree(input, ns, c);
      NotInBoth(Flat(n), FlatAll(ns), p);
    }
  }

  lemma NotInBoth(a: seq<Id>, b: seq<Id>, x: Id)
    requires Distinct(a + b)
    ensures !(x in a && x in b)
    ensures Distinct(a) && Distinct(b)
  {
    var s := a + b;
    forall i, j | 0 <= i < |a| && 0 <= j < |b| ensures a[i] != b[j] {
      assert s[i] == a[i] && s[|a| + j] == b[j];
    }
    assert forall i | 0 <= i < |a| :: s[i] == a[i];
    assert forall i | 0 <= i < |b| :: s[|a| + i] == b[i];
  }

  /** Every child, in the input, of an id in these trees is below their top. */
  ghost predicate HoldsChildren(input: Input, nodes: seq<SpanNode>) {
    forall c | c in input.nodes && Parent(input, c).Some? && Parent(input, c).value in FlatAll(nodes) ::
      c in FlatAll(nodes) && c !in TopIds(nodes)
  }

  lemma {:induction false} HoldersAreComplete(input: Input, nodes: seq<SpanNode>)
    requires WellFormed(input) && LinkedAll(input, nodes) && Distinct(FlatAll(nodes)) && HoldsChildren(input, nodes)
    ensures CompleteAll(input, nodes)
    decreases nodes, 1
  {
    if nodes == [] {
      return;
    }
    var n, ns := nodes[0], nodes[1..];
    assert nodes == [n] + ns;
    TopIdsCons(n, ns);
    NotInBoth(Flat(n), FlatAll(ns), n.span.spanId);
    hide Linked, Complete, Flat;
    forall c | c in input.nodes && Parent(input, c).Some? && Parent(input, c).value in Flat(n)
      ensures c in FlatAll(n.children)
    {
      SameTree(input, n, ns, Parent(input, c).value, c);
    }
    HolderIsComplete(input, n);
    forall c | c in input.nodes && Parent(input, c).Some? && Parent(input, c).value in FlatAll(ns)
      ensures c in FlatAll(ns) && c !in TopIds(ns)
    {
      if c in Flat(n) {
        ParentInNode(input, n, c);
        NotInBoth(Flat(n), FlatAll(ns), Parent(input, c).value);
      }
    }
    HoldersAreComplete(input, ns);
  }

  lemma {:induction false} HolderIsComplete(input: Input, n: SpanNode)
    requires WellFormed(input) && Linked(input, n) && Distinct(Flat(n))
    requires forall c | c in input.nodes && Parent(input, c).Some? && Parent(input, c).value in Flat(n) ::
               c in FlatAll(n.children)
    ensures Complete(input, n)
    decreases n, 0
  {
    var id, kids := n.span.spanId, n.children;
    NotInBoth([id], FlatAll(kids), id);
    hide FlatAll;
    KeepSelects(ChildrenOf(input, id), OnStack(TopIds(kids)));
    WithParentSelects(input, input.order, Some(id));
    forall c | c in ChildrenOf(input, id) ensures c in TopIds(kids) {
      if c !in TopIds(kids) {
        ParentInTree(input, kids, c);
      }
    }
    assert forall c | c in TopIds(kids) :: Parent(input, c) == Some(id);
    HoldersAreComplete(input, kids);
  }

  /** Conversely, complete trees hold the children of their ids below the top. */
  lemma {:induction false} CompleteHolds(input: Input, nodes: seq<SpanNode>, p: Id, c: Id)
    requires WellFormed(input) && CompleteAll(input, nodes) && Distinct(FlatAll(nodes))
    requires p in FlatAll(nodes) && c in input.nodes && Parent(input, c) == Some(p)
    ensures c in FlatAll(nodes) && c !in TopIds(nodes)
    decreases nodes
  {
    var n, ns := nodes[0], nodes[1..];
    assert nodes == [n] + ns;
    TopIdsCons(n, ns);
    TopInFlat(ns);
    if p in Flat(n) {
      WithParentSelects(input, input.order, Some(p));
      NotInBoth(Flat(n), FlatAll(ns), c);
      NotInBoth([n.span.spanId], FlatAll(n.children), c);
      if p == n.span.spanId {
        TopInFlat(n.children);
        assert c in TopIds(n.children);
      } else {
        CompleteHolds(input, n.children, p, c);
      }
    } else {
      NotInBoth(Flat(n), FlatAll(ns), c);
      CompleteHolds(input, ns, p, c);
    }
  }

  /** Main result: the top level is exactly the roots, and every node has exactly
      the spans that name it as parent, in input order, if and only if every
      parent chain ends at a root. */
  lemma WholeForestIffRooted(spans: seq<ToolSpanView>)
    ensures var forest, input := BuildTree(spans), InsertAll(spans);
            var rooted := forall id | id in input.nodes :: Rooted(input, id);
            && (TopIds(forest) == RootIds(input) <==> rooted)
            && (CompleteAll(input, forest) <==> rooted)
  {
    var forest, input := BuildTree(spans), InsertAll(spans);
    assert forest == BuildForest(input);
    ForestHoldsEachSpanOnce(spans);
    var others := TopLevel(input);
    hide BuildTree, BuildForest, InsertAll, LinkedAll, CompleteAll, RootIds, TopIds, FlatAll, Distinct, Rooted;
    SelectedRoots(input);
    assert RootIds(input) + [] == RootIds(input);
    if others == [] {
      HoldersAreComplete(input, forest);
    } else {
      CutForestIsIncomplete(input, forest, others[0]);
      assert TopIds(forest)[|RootIds(input)|] == others[0];
    }
  }

  lemma CutForestIsIncomplete(input: Input, forest: seq<SpanNode>, c: Id)
    requires WellFormed(input) && Distinct(FlatAll(forest))
    requires forall id | id in input.nodes :: id in FlatAll(forest)
    requires c in TopIds(forest) && c in input.nodes && !Rooted(input, c)
    ensures !CompleteAll(input, forest)
  {
    hide CompleteAll, FlatAll, TopIds, Distinct, Rooted;
    UnrootedHasParent(input, c);
    if CompleteAll(input, forest) {
      CompleteHolds(input, forest, Parent(input, c).value, c);
    }
  }

  lemma SelectedRoots(input: Input)
    requires WellFormed(input)
    ensures forall id :: id in RootIds(input) <==> id in input.nodes && Parent(input, id).None?
  {
    WithParentSelects(input, input.order, None);
  }

  lemma UnrootedHasParent(input: Input, id: Id)
    requires WellFormed(input) && id in input.nodes && !Rooted(input, id)
    ensures Parent(input, id).Some?
  {
    if Parent(input, id).None? {
      assert RootedIn(input, id, 0);
    }
  }

  // ---- Chains that never end are cycles ----

  function Ancestor(input: Input, id: Id, k: nat): Option<Id>
    decreases k
  {
    if k == 0 then Some(id)
    else match Parent(input, id)
      case None => None
      case Some(p) => Ancestor(input, p, k - 1)
  }

  /** The chain from `id` meets the same ancestor after `i` and after `j` steps. */
  ghost predicate Repeats(input: Input, id: Id, i: nat, j: nat) {
    i < j && Ancestor(input, id, i).Some? && Ancestor(input, id, i) == Ancestor(input, id, j)
  }

  lemma {:induction false} RootedAncestor(input: Input, id: Id, depth: nat, k: nat)
    requires RootedIn(input, id, depth) && Ancestor(input, id, k).Some?
    ensures k <= depth && RootedIn(input, Ancestor(input, id, k).value, depth - k)
    decreases k
  {
    if k > 0 {
      RootedAncestor(input, Parent(input, id).value, depth - 1, k - 1);
    }
  }

  lemma {:induction false} RootedDepthIsUnique(input: Input, id: Id, j: nat, k: nat)
    requires RootedIn(input, id, j) && RootedIn(input, id, k)
    ensures j == k
    decreases j
  {
    if j > 0 {
      RootedDepthIsUnique(input, Parent(input, id).value, j - 1, k - 1);
    }
  }

  lemma {:induction false} UnrootedClimbs(input: Input, id: Id, k: nat)
    requires WellFormed(input) && id in input.nodes && !Rooted(input, id)
    ensures Ancestor(input, id, k).Some? && Ancestor(input, id, k).value in input.nodes
    decreases k
  {
    if k > 0 {
      UnrootedHasParent(input, id);
      var p := Parent(input, id).value;
      forall d: nat ensures !RootedIn(input, p, d) {
        if RootedIn(input, p, d) {
          assert RootedIn(input, id, d + 1);
        }
      }
      UnrootedClimbs(input, p, k - 1);
    }
  }

  /** Main result: a span is out of reach of the roots exactly when its parent
      chain meets some ancestor twice. */
  lemma UnrootedIffCycle(input: Input, id: Id)
    requires WellFormed(input) && id in input.nodes
    ensures !Rooted(input, id) <==> exists i: nat, j: nat :: Repeats(input, id, i, j)
  {
    if Rooted(input, id) {
      var d: nat :| RootedIn(input, id, d);
      forall i: nat, j: nat ensures !Repeats(input, id, i, j) {
        if Repeats(input, id, i, j) {
          RootedAncestor(input, id, d, i);
          RootedAncestor(input, id, d, j);
          RootedDepthIsUnique(input, Ancestor(input, id, i).value, d - i, d - j);
        }
      }
    } else if forall i: nat, j: nat :: !Repeats(input, id, i, j) {
      var all := AncestorSet(input, id, |input.nodes.Keys| + 1);
      SubsetSize(all, input.nodes.Keys);
    }
  }

  ghost predicate AmongFirst(input: Input, id: Id, n: nat, x: Id) {
    exists i: nat :: i < n && Ancestor(input, id, i) == Some(x)
  }

  lemma {:induction false} AncestorSet(input: Input, id: Id, n: nat) returns (all: set<Id>)
    requires WellFormed(input) && id in input.nodes && !Rooted(input, id)
    requires forall i: nat, j: nat :: !Repeats(input, id, i, j)
    ensures |all| == n && all <= input.nodes.Keys
    ensures forall x | x in all :: AmongFirst(input, id, n, x)
  {
    if n == 0 {
      all := {};
    } else {
      var fewer := AncestorSet(input, id, n - 1);
      UnrootedClimbs(input, id, n - 1);
      var x := Ancestor(input, id, n - 1).value;
      forall i: nat | i < n - 1 ensures Ancestor(input, id, i) != Some(x) {
        assert !Repeats(input, id, i, n - 1);
      }
      assert !AmongFirst(input, id, n - 1, x);
      all := fewer + {x};
      assert AmongFirst(input, id, n, x);
      forall y | y in fewer ensures AmongFirst(input, id, n, y) {
        var i: nat :| i < n - 1 && Ancestor(input, id, i) == Some(y);
        assert i < n;
      }
    }
  }
}
