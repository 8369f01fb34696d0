/** What `build_tree` builds, for every input list. */
module SpanTreeProofs {
  import opened Sequences
  import opened Options
  import opened SpanTree

  // ---- The input ----

  /** First position of `id` among the rows. */
  function FirstIndex(spans: seq<ToolSpanView>, id: Id): nat {
    if spans == [] || spans[0].spanId == id then 0 else 1 + FirstIndex(spans[1..], id)
  }

  lemma {:induction false} FirstIndexIsFirst(spans: seq<ToolSpanView>, id: Id)
    ensures var k := FirstIndex(spans, id);
            && k <= |spans|
            && (k < |spans| ==> spans[k].spanId == id)
            && (forall i | 0 <= i < k :: spans[i].spanId != id)
  {
    if spans != [] && spans[0].spanId != id {
      FirstIndexIsFirst(spans[1..], id);
      var k := FirstIndex(spans, id);
      forall i | 0 <= i < k ensures spans[i].spanId != id {
        if i > 0 {
          assert spans[i] == spans[1..][i - 1];
        }
      }
    }
  }

  lemma {:induction false} FirstIndexOfPrefix(spans: seq<ToolSpanView>, id: Id)
    requires spans != []
    ensures var n := |spans| - 1;
            var before := FirstIndex(spans[..n], id);
            FirstIndex(spans, id) == if before < n then before else if spans[n].spanId == id then n else |spans|
  {
    var n := |spans| - 1;
    FirstIndexIsFirst(spans[..n], id);
    FirstIndexIsFirst(spans, id);
    var a, b := FirstIndex(spans[..n], id), FirstIndex(spans, id);
    assert forall i | 0 <= i < n :: spans[..n][i] == spans[i];
  }

  /** The input holds every id once, in order of first appearance, with the
      first row seen for it. */
  ghost predicate Indexed(spans: seq<ToolSpanView>, input: Input) {
    && WellFormed(input)
    && (forall id :: id in input.nodes <==> FirstIndex(spans, id) < |spans|)
    && (forall id | id in input.nodes :: input.nodes[id] == spans[FirstIndex(spans, id)])
    && (forall i, j | 0 <= i < j < |input.order| ::
          FirstIndex(spans, input.order[i]) < FirstIndex(spans, input.order[j]))
  }

  lemma {:induction false} InsertAllIndexes(spans: seq<ToolSpanView>)
    ensures Indexed(spans, InsertAll(spans))
  {
    if spans != [] {
      var n := |spans| - 1;
      InsertAllIndexes(spans[..n]);
      IndexedNext(spans, InsertAll(spans[..n]));
    }
  }

  lemma IndexedNext(spans: seq<ToolSpanView>, input: Input)
    requires spans != [] && Indexed(spans[..|spans| - 1], input)
    ensures Indexed(spans, Insert(input, spans[|spans| - 1]))
  {
    hide FirstIndex;
    var n := |spans| - 1;
    var last, before, next := spans[n], spans[..n], Insert(input, spans[n]);
    forall id ensures (id in next.nodes <==> FirstIndex(spans, id) < |spans|)
      && (id in next.nodes ==> next.nodes[id] == spans[FirstIndex(spans, id)])
    {
      FirstIndexOfPrefix(spans, id);
      if id in input.nodes {
        assert before[FirstIndex(before, id)] == spans[FirstIndex(before, id)];
      }
    }
    OrderNext(spans, input);
    assert WellFormed(next) by { InsertWellFormed(input, last); }
    hide WellFormed;
  }

  lemma InsertWellFormed(input: Input, span: ToolSpanView)
    requires WellFormed(input)
    ensures WellFormed(Insert(input, span))
  {
  }

  lemma OrderNext(spans: seq<ToolSpanView>, input: Input)
    requires spans != [] && Indexed(spans[..|spans| - 1], input)
    ensures var order := Insert(input, spans[|spans| - 1]).order;
            forall i, j | 0 <= i < j < |order| :: FirstIndex(spans, order[i]) < FirstIndex(spans, order[j])
  {
    hide FirstIndex;
    var order := Insert(input, spans[|spans| - 1]).order;
    forall i, j | 0 <= i < j < |order| ensures FirstIndex(spans, order[i]) < FirstIndex(spans, order[j]) {
      FirstIndexOfPrefix(spans, order[i]);
      FirstIndexOfPrefix(spans, order[j]);
      assert order[i] in input.order;
      if j < |input.order| {
        assert order[j] in input.order;
      }
    }
  }

  // ---- Selections of ids ----

  lemma {:induction false} WithParentSelects(input: Input, ids: seq<Id>, p: Option<Id>)
    requires Distinct(ids)
    ensures Distinct(WithParent(input, ids, p))
    ensures forall id :: id in WithParent(input, ids, p) <==> id in ids && Parent(input, id) == p
  {
    if ids != [] {
      var rest := ids[1..];
      assert ids == [ids[0]] + rest;
      WithParentSelects(input, rest, p);
      assert forall i | 0 <= i < |rest| :: rest[i] == ids[i + 1];
      assert ids[0] !in rest;
    }
  }

  lemma {:induction false} RemainingSelects(ids: seq<Id>, seen: set<Id>)
    requires Distinct(ids)
    ensures Distinct(RemainingIds(ids, seen))
    ensures forall id :: id in RemainingIds(ids, seen) <==> id in ids && id !in seen
  {
    if ids != [] {
      var rest := ids[1..];
      assert ids == [ids[0]] + rest;
      RemainingSelects(rest, seen);
      assert forall i | 0 <= i < |rest| :: rest[i] == ids[i + 1];
      assert ids[0] !in rest;
    }
  }

  lemma {:induction false} KeepSelects(s: seq<Id>, keep: set<Id>)
    ensures forall id :: id in Keep(s, keep) <==> id in s && id in keep
    ensures (forall id | id in s :: id in keep) ==> Keep(s, keep) == s
  {
    if s != [] {
      assert s == [s[0]] + s[1..];
      KeepSelects(s[1..], keep);
    }
  }

  lemma {:induction false} KeepAgrees(s: seq<Id>, a: set<Id>, b: set<Id>)
    requires forall id | id in s :: id in a <==> id in b
    ensures Keep(s, a) == Keep(s, b)
  {
    if s != [] {
      KeepAgrees(s[1..], a, b);
    }
  }

  // ---- The walk ----

  lemma TopIdsCons(n: SpanNode, ns: seq<SpanNode>)
    ensures TopIds([n] + ns) == [n.span.spanId] + TopIds(ns)
    ensures FlatAll([n] + ns) == Flat(n) + FlatAll(ns)
  {
    assert ([n] + ns)[1..] == ns;
  }

  /** Every child of a seen id is seen or still being built. */
  ghost predicate Closed(input: Input, seen: set<Id>, stack: seq<Id>) {
    forall c | c in input.nodes && Parent(input, c).Some? && Parent(input, c).value in seen ::
      c in seen || c in stack
  }

  /** What walking `ids` guarantees. */
  ghost predicate Walked(input: Input, ids: seq<Id>, seen: set<Id>, stack: seq<Id>,
                         nodes: seq<SpanNode>, after: set<Id>) {
    var flat := FlatAll(nodes);
    && LinkedAll(input, nodes)
    && Distinct(flat)
    && (forall id | id in flat :: id !in seen && id !in stack && id in input.nodes)
    && after == seen + OnStack(flat)
    && TopIds(nodes) == Keep(ids, OnStack(TopIds(nodes)))
    && (forall id | id in ids && id in input.nodes :: id in after || id in stack)
    && (Closed(input, seen, stack) ==> Closed(input, after, stack))
  }

  lemma WalkedNone(input: Input, seen: set<Id>, stack: seq<Id>)
    ensures Walked(input, [], seen, stack, [], seen)
  {
    assert OnStack([]) == {};
    assert TopIds([]) == [];
  }

  /** One id that gives no node. */
  lemma WalkedSkip(input: Input, id: Id, ids: seq<Id>, seen: set<Id>, stack: seq<Id>,
                   nodes: seq<SpanNode>, after: set<Id>)
    requires id !in ids && (id in seen || id in stack || id !in input.nodes)
    requires Walked(input, ids, seen, stack, nodes, after)
    ensures Walked(input, [id] + ids, seen, stack, nodes, after)
  {
    var keep := OnStack(TopIds(nodes));
    KeepSelects(ids, keep);
    assert ([id] + ids)[1..] == ids;
    assert id !in keep;
  }

  lemma {:induction false} TopInFlat(nodes: seq<SpanNode>)
    ensures forall id | id in TopIds(nodes) :: id in FlatAll(nodes)
  {
    if nodes != [] {
      assert nodes == [nodes[0]] + nodes[1..];
      TopIdsCons(nodes[0], nodes[1..]);
      TopInFlat(nodes[1..]);
    }
  }

  lemma DistinctConcat<T>(a: seq<T>, b: seq<T>)
    requires Distinct(a) && Distinct(b) && forall x | x in a :: x !in b
    ensures Distinct(a + b)
  {
    var s := a + b;
    forall i, j | 0 <= i < j < |s| ensures s[i] != s[j] {
      if i < |a| <= j {
        assert s[i] in a && s[j] in b;
      }
    }
  }

  /** What assembling one new id guarantees. */
  ghost predicate Assembled(input: Input, id: Id, seen: set<Id>, stack: seq<Id>, node: SpanNode, after: set<Id>) {
    var flat := Flat(node);
    && node.span.spanId == id && Linked(input, node)
    && Distinct(flat)
    && (forall id | id in flat :: id !in seen && id !in stack && id in input.nodes)
    && after == seen + OnStack(flat)
    && (Closed(input, seen, stack) ==> Closed(input, after, stack))
  }

  lemma AssembledFromChildren(input: Input, id: Id, seen: set<Id>, stack: seq<Id>,
                              children: seq<SpanNode>, after: set<Id>)
    requires WellFormed(input) && id in input.nodes && id !in seen && id !in stack
    requires Walked(input, ChildrenOf(input, id), seen, stack + [id], children, after)
    ensures Assembled(input, id, seen, stack, MakeNode(input.nodes[id], children), after + {id})
  {
    hide Linked, LinkedAll, FlatAll, ChildrenOf;
    var node := MakeNode(input.nodes[id], children);
    var flat := FlatAll(children);
    assert Linked(input, node) by { LinkedNode(input, id, children); }
    assert Flat(node) == [id] + flat;
    assert id in stack + [id] && id !in flat;
    DistinctConcat([id], flat);
    assert forall x | x in stack :: x in stack + [id];
    if Closed(input, seen, stack) {
      forall c | c in input.nodes && Parent(input, c).Some? && Parent(input, c).value in after + {id}
        ensures c in after + {id} || c in stack
      {
        ClosedStep(input, id, seen, stack, children, after, c);
      }
    }
  }

  lemma LinkedNode(input: Input, id: Id, children: seq<SpanNode>)
    requires WellFormed(input) && id in input.nodes && LinkedAll(input, children)
    requires TopIds(children) == Keep(ChildrenOf(input, id), OnStack(TopIds(children)))
    ensures Linked(input, MakeNode(input.nodes[id], children))
  {
  }

  lemma ClosedStep(input: Input, id: Id, seen: set<Id>, stack: seq<Id>,
                   children: seq<SpanNode>, after: set<Id>, c: Id)
    requires WellFormed(input) && id in input.nodes
    requires Walked(input, ChildrenOf(input, id), seen, stack + [id], children, after)
    requires Closed(input, seen, stack)
    requires c in input.nodes && Parent(input, c).Some? && Parent(input, c).value in after + {id}
    ensures c in after + {id} || c in stack
  {
    hide Linked, LinkedAll, FlatAll;
    assert Closed(input, seen, stack + [id]);
    if Parent(input, c).value == id {
      WithParentSelects(input, input.order, Some(id));
      assert c in ChildrenOf(input, id);
    }
  }

  lemma WalkedTake(input: Input, id: Id, ids: seq<Id>, seen: set<Id>, stack: seq<Id>,
                   node: SpanNode, mid: set<Id>, nodes: seq<SpanNode>, after: set<Id>)
    requires id !in ids
    requires Assembled(input, id, seen, stack, node, mid) && Walked(input, ids, mid, stack, nodes, after)
    ensures Walked(input, [id] + ids, seen, stack, [node] + nodes, after)
  {
    hide Linked, Closed, Flat;
    var all := [node] + nodes;
    TopIdsCons(node, nodes);
    TopInFlat(nodes);
    assert id in Flat(node) by { FlatHead(node); }
    hide FlatAll, LinkedAll, TopIds;
    DistinctConcat(Flat(node), FlatAll(nodes));
    assert ([id] + ids)[1..] == ids;
    KeepAgrees(ids, OnStack(TopIds(nodes)), OnStack(TopIds(all)));
  }

  lemma FlatHead(node: SpanNode)
    ensures node.span.spanId in Flat(node)
  {
  }

  lemma {:induction false} AssembleWalks(input: Input, id: Id, seen: set<Id>, stack: seq<Id>)
    requires WellFormed(input) && id in input.nodes && id !in seen && id !in stack
    ensures var (node, after) := Assemble(input, id, seen, stack);
            node.Some? && Assembled(input, id, seen, stack, node.value, after)
    decreases |input.nodes.Keys - OnStack(stack)|, 0, 0
  {
    hide ChildNodes, Walked, Assembled;
    StackGrows(input, id, stack);
    WithParentSelects(input, input.order, Some(id));
    ChildNodesWalks(input, ChildrenOf(input, id), seen, stack + [id]);
    var (children, after) := ChildNodes(input, ChildrenOf(input, id), seen, stack + [id]);
    AssembledFromChildren(input, id, seen, stack, children, after);
  }

  /** Main walk lemma: every call of `child_nodes` or `build_ids`. */
  lemma {:induction false} ChildNodesWalks(input: Input, ids: seq<Id>, seen: set<Id>, stack: seq<Id>)
    requires WellFormed(input) && Distinct(ids)
    ensures var (nodes, after) := ChildNodes(input, ids, seen, stack);
            Walked(input, ids, seen, stack, nodes, after)
    decreases |input.nodes.Keys - OnStack(stack)|, 1, |ids|
  {
    hide Walked, Assembled;
    if ids == [] {
      WalkedNone(input, seen, stack);
      return;
    }
    var id, rest := ids[0], ids[1..];
    assert ids == [id] + rest;
    var (node, mid) := Assemble(input, id, seen, stack);
    if id in seen || id in stack || id !in input.nodes {
      SkipResult(input, ids, seen, stack);
      ChildNodesWalks(input, rest, seen, stack);
      var (nodes, after) := ChildNodes(input, rest, seen, stack);
      WalkedSkip(input, id, rest, seen, stack, nodes, after);
    } else {
      AssembleWalks(input, id, seen, stack);
      ChildNodesWalks(input, rest, mid, stack);
      var (nodes, after) := ChildNodes(input, rest, mid, stack);
      WalkedTake(input, id, rest, seen, stack, node.value, mid, nodes, after);
    }
  }

  lemma SkipResult(input: Input, ids: seq<Id>, seen: set<Id>, stack: seq<Id>)
    requires ids != [] && (ids[0] in seen || ids[0] in stack || ids[0] !in input.nodes)
    ensures ChildNodes(input, ids, seen, stack) == ChildNodes(input, ids[1..], seen, stack)
  {
    var nodes := ChildNodes(input, ids[1..], seen, stack).0;
    assert [] + nodes == nodes;
  }

}
