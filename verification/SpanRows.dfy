/** The forest of `src/store/span_tree.rs` read against the rows it was built
    from. */
module SpanRows {
  import opened Sequences
  import opened Options
  import opened SpanTree
  import opened SpanTreeProofs
  import opened SpanForest

  /** The node stands in one of these trees, at any depth. */
  ghost predicate InForest(n: SpanNode, nodes: seq<SpanNode>)
    decreases nodes
  {
    nodes != [] && (n == nodes[0] || InForest(n, nodes[0].children) || InForest(n, nodes[1..]))
  }

  lemma {:induction false} NodeIsLinked(input: Input, nodes: seq<SpanNode>, n: SpanNode)
    requires LinkedAll(input, nodes) && InForest(n, nodes)
    ensures Linked(input, n)
    decreases nodes
  {
    if n != nodes[0] {
      if InForest(n, nodes[0].children) {
        NodeIsLinked(input, nodes[0].children, n);
      } else {
        NodeIsLinked(input, nodes[1..], n);
      }
    }
  }

  /** The row that counts for an id: the first one. */
  function RowOf(spans: seq<ToolSpanView>, id: Id): Option<ToolSpanView> {
    FirstIndexIsFirst(spans, id);
    var k := FirstIndex(spans, id);
    if k < |spans| then Some(spans[k]) else None
  }

  lemma RowIsFirst(spans: seq<ToolSpanView>, id: Id)
    ensures RowOf(spans, id).None? <==> forall i | 0 <= i < |spans| :: spans[i].spanId != id
    ensures RowOf(spans, id).Some? ==> exists i | 0 <= i < |spans| ::
              spans[i] == RowOf(spans, id).value && spans[i].spanId == id && forall j | 0 <= j < i :: spans[j].spanId != id
  {
    FirstIndexIsFirst(spans, id);
  }

  /** The parent of an id: the one its row names, if that has a row. */
  lemma ParentIsNamed(spans: seq<ToolSpanView>, id: Id, p: Id)
    ensures Parent(InsertAll(spans), id) == Some(p)
            <==> RowOf(spans, id).Some? && RowOf(spans, id).value.parentSpanId == Some(p) && RowOf(spans, p).Some?
  {
    InsertAllIndexes(spans);
  }

  ghost predicate InRowOrder(spans: seq<ToolSpanView>, ids: seq<Id>) {
    forall i, j | 0 <= i < j < |ids| :: FirstIndex(spans, ids[i]) < FirstIndex(spans, ids[j])
  }

  lemma InOrderHead(spans: seq<ToolSpanView>, ids: seq<Id>, some: seq<Id>)
    requires ids != [] && InRowOrder(spans, ids)
    requires InRowOrder(spans, some) && forall id | id in some :: id in ids[1..]
    ensures InRowOrder(spans, [ids[0]] + some)
  {
    forall id | id in ids[1..] ensures FirstIndex(spans, ids[0]) < FirstIndex(spans, id) {
      var k: nat :| k < |ids| - 1 && ids[1..][k] == id;
      assert ids[k + 1] == id;
    }
    forall i | 0 <= i < |some| ensures FirstIndex(spans, ids[0]) < FirstIndex(spans, some[i]) {
      assert some[i] in some;
    }
    hide FirstIndex;
  }

  lemma {:induction false} WithParentInOrder(spans: seq<ToolSpanView>, input: Input, ids: seq<Id>, p: Option<Id>)
    requires InRowOrder(spans, ids)
    ensures InRowOrder(spans, WithParent(input, ids, p))
    ensures forall id | id in WithParent(input, ids, p) :: id in ids
  {
    hide FirstIndex, Parent;
    if ids != [] {
      WithParentInOrder(spans, input, ids[1..], p);
      InOrderHead(spans, ids, WithParent(input, ids[1..], p));
    }
  }

  lemma {:induction false} KeepInOrder(spans: seq<ToolSpanView>, ids: seq<Id>, keep: set<Id>)
    requires InRowOrder(spans, ids)
    ensures InRowOrder(spans, Keep(ids, keep))
    ensures forall id | id in Keep(ids, keep) :: id in ids
  {
    hide FirstIndex;
    if ids != [] {
      KeepInOrder(spans, ids[1..], keep);
      InOrderHead(spans, ids, Keep(ids[1..], keep));
    }
  }

  /** Main result: every node, at any depth, carries the first row of its id and
      the totals of that row, 0 where they are absent; the row of each of its
      children names it as parent, and its children stand in the order of their
      rows. */
  lemma NodesCarryFirstRows(spans: seq<ToolSpanView>, n: SpanNode)
    requires InForest(n, BuildTree(spans))
    ensures RowOf(spans, n.span.spanId) == Some(n.span)
    ensures n.subtreeCostUsdE6 == (if n.span.subtreeCostUsdE6.Some? then n.span.subtreeCostUsdE6.value else 0)
    ensures n.subtreeTokenCount == (if n.span.subtreeTokenCount.Some? then n.span.subtreeTokenCount.value else 0)
    ensures forall i | 0 <= i < |n.children| :: n.children[i].span.parentSpanId == Some(n.span.spanId)
    ensures InRowOrder(spans, TopIds(n.children))
  {
    var input := InsertAll(spans);
    ForestHoldsEachSpanOnce(spans);
    NodeIsLinked(input, BuildTree(spans), n);
    var id, kids := n.span.spanId, ChildrenOf(input, n.span.spanId);
    WithParentInOrder(spans, input, input.order, Some(id));
    WithParentSelects(input, input.order, Some(id));
    KeepInOrder(spans, kids, OnStack(TopIds(n.children)));
    hide WithParent, Keep, FirstIndex, BuildTree, InsertAll;
    forall i | 0 <= i < |n.children| ensures n.children[i].span.parentSpanId == Some(id) {
      assert TopIds(n.children)[i] in kids;
      ChildHasRow(input, n.children, i);
    }
  }

  lemma {:induction false} ChildHasRow(input: Input, nodes: seq<SpanNode>, i: nat)
    requires LinkedAll(input, nodes) && i < |nodes|
    ensures nodes[i].span.spanId in input.nodes && nodes[i].span == input.nodes[nodes[i].span.spanId]
  {
    if i > 0 {
      ChildHasRow(input, nodes[1..], i - 1);
    }
  }

  /** The roots are the ids whose row names no parent, or one without a row, in the
      order of their rows. */
  lemma RootsNameNoParent(spans: seq<ToolSpanView>, id: Id)
    ensures id in RootIds(InsertAll(spans))
            <==> && RowOf(spans, id).Some?
                 && var p := RowOf(spans, id).value.parentSpanId; p.None? || RowOf(spans, p.value).None?
    ensures InRowOrder(spans, RootIds(InsertAll(spans)))
  {
    var input := InsertAll(spans);
    InsertAllIndexes(spans);
    WithParentSelects(input, input.order, None);
    WithParentInOrder(spans, input, input.order, None);
    hide WithParent, InsertAll, FirstIndex;
  }

  /** In a complete forest a node's children are exactly the ids whose row names
      it. */
  lemma CompleteNodesHoldNamers(spans: seq<ToolSpanView>, nodes: seq<SpanNode>, n: SpanNode, c: Id)
    requires InForest(n, nodes) && CompleteAll(InsertAll(spans), nodes) && RowOf(spans, n.span.spanId).Some?
    ensures c in TopIds(n.children) <==> RowOf(spans, c).Some? && RowOf(spans, c).value.parentSpanId == Some(n.span.spanId)
  {
    var input := InsertAll(spans);
    NodeIsComplete(input, nodes, n);
    InsertAllIndexes(spans);
    WithParentSelects(input, input.order, Some(n.span.spanId));
    hide InsertAll, FirstIndex, WithParent;
  }

  lemma {:induction false} NodeIsComplete(input: Input, nodes: seq<SpanNode>, n: SpanNode)
    requires CompleteAll(input, nodes) && InForest(n, nodes)
    ensures Complete(input, n)
    decreases nodes
  {
    if n != nodes[0] {
      if InForest(n, nodes[0].children) {
        NodeIsComplete(input, nodes[0].children, n);
      } else {
        NodeIsComplete(input, nodes[1..], n);
      }
    }
  }
}
