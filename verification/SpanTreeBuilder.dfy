/** `src/store/span_tree.rs` in its own form: an input that is filled and linked
    in place, and a walk that updates `seen` and `stack`. */
module SpanTreeBuilder {
  import opened Options
  import opened SpanTree
  import opened SpanTreeProofs

  lemma {:induction false} WithParentNext(input: Input, ids: seq<Id>, id: Id, p: Option<Id>)
    ensures WithParent(input, ids + [id], p)
            == WithParent(input, ids, p) + (if Parent(input, id) == p then [id] else [])
  {
    if ids == [] {
      assert ids + [id] == [id];
      assert [id][1..] == [];
    } else {
      assert (ids + [id])[1..] == ids[1..] + [id];
      WithParentNext(input, ids[1..], id, p);
    }
  }

  lemma {:induction false} RemainingNext(ids: seq<Id>, id: Id, seen: set<Id>)
    ensures RemainingIds(ids + [id], seen) == RemainingIds(ids, seen) + (if id in seen then [] else [id])
  {
    if ids == [] {
      assert ids + [id] == [id];
      assert [id][1..] == [];
    } else {
      assert (ids + [id])[1..] == ids[1..] + [id];
      RemainingNext(ids[1..], id, seen);
    }
  }

  function Kids(children: map<Id, seq<Id>>, id: Id): seq<Id> {
    if id in children then children[id] else []
  }

  /** The child lists of the ids linked so far. */
  ghost predicate LinksUpTo(input: Input, ids: seq<Id>, children: map<Id, seq<Id>>) {
    forall id :: Kids(children, id) == WithParent(input, ids, Some(id))
  }

  lemma LinksNext(input: Input, ids: seq<Id>, children: map<Id, seq<Id>>, c: Id)
    requires LinksUpTo(input, ids, children)
    ensures var p := Parent(input, c);
            LinksUpTo(input, ids + [c], if p.Some? then children[p.value := Kids(children, p.value) + [c]] else children)
  {
    var p := Parent(input, c);
    var next := if p.Some? then children[p.value := Kids(children, p.value) + [c]] else children;
    var longer := ids + [c];
    forall id ensures Kids(next, id) == WithParent(input, longer, Some(id)) {
      assert Kids(children, id) == WithParent(input, ids, Some(id));
      WithParentNext(input, ids, c, Some(id));
      hide WithParent, Parent;
    }
  }

  class SpanInput {
    var order: seq<Id>
    var nodes: map<Id, ToolSpanView>
    var children: map<Id, seq<Id>>

    ghost function Value(): Input
      reads this
    {
      Input(order, nodes)
    }

    /** The child lists hold what the parent pointers say. */
    ghost predicate Linked()
      reads this
    {
      WellFormed(Value()) && forall id :: Kids(children, id) == ChildrenOf(Value(), id)
    }

    constructor (spans: seq<ToolSpanView>)
      ensures Value() == InsertAll(spans) && Linked()
    {
      order, nodes, children := [], map[], map[];
      new;
      for k := 0 to |spans|
        invariant Value() == InsertAll(spans[..k]) && children == map[]
      {
        assert spans[..k + 1][..k] == spans[..k];
        InsertSpan(spans[k]);
      }
      assert spans[..|spans|] == spans;
      InsertAllIndexes(spans);
      LinkChildren();
    }

    method InsertSpan(span: ToolSpanView)
      modifies this
      ensures Value() == Insert(old(Value()), span) && children == old(children)
    {
      if span.spanId in nodes {
        return;
      }
      order := order + [span.spanId];
      nodes := nodes[span.spanId := span];
    }

    method ParentEdge(id: Id) returns (p: Option<Id>)
      requires id in nodes
      ensures p == Parent(Value(), id)
    {
      p := nodes[id].parentSpanId;
      if p.Some? && p.value !in nodes {
        p := None;
      }
    }

    method LinkChildren()
      requires WellFormed(Value()) && children == map[]
      modifies this`children
      ensures Linked()
    {
      ghost var input := Value();
      for k := 0 to |order|
        invariant Value() == input
        invariant LinksUpTo(input, order[..k], children)
      {
        var c := order[k];
        assert c in input.nodes;
        var p := ParentEdge(c);
        LinksNext(input, order[..k], children, c);
        assert order[..k + 1] == order[..k] + [c];
        if p.Some? {
          children := children[p.value := Kids(children, p.value) + [c]];
        }
      }
      assert order[..|order|] == order;
    }

    method Roots() returns (ids: seq<Id>)
      requires WellFormed(Value())
      ensures ids == RootIds(Value())
    {
      ids := [];
      ghost var input := Value();
      for k := 0 to |order|
        invariant ids == WithParent(input, order[..k], None)
      {
        assert order[k] in input.nodes;
        var p := ParentEdge(order[k]);
        WithParentNext(input, order[..k], order[k], None);
        assert order[..k + 1] == order[..k] + [order[k]];
        if p.None? {
          ids := ids + [order[k]];
        }
      }
      assert order[..|order|] == order;
    }

    method Remaining(seen: set<Id>) returns (ids: seq<Id>)
      ensures ids == RemainingIds(order, seen)
    {
      ids := [];
      for k := 0 to |order|
        invariant ids == RemainingIds(order[..k], seen)
      {
        RemainingNext(order[..k], order[k], seen);
        assert order[..k + 1] == order[..k] + [order[k]];
        if order[k] !in seen {
          ids := ids + [order[k]];
        }
      }
      assert order[..|order|] == order;
    }
  }

  /** The mutable state of one `build_tree`. */
  class Walk {
    var seen: set<Id>
    var stack: seq<Id>

    constructor ()
      ensures seen == {} && stack == []
    {
      seen, stack := {}, [];
    }

    method AssembleNode(input: SpanInput, id: Id) returns (node: Option<SpanNode>)
      requires input.Linked()
      modifies this
      ensures (node, seen) == Assemble(input.Value(), id, old(seen), old(stack)) && stack == old(stack)
      decreases |input.nodes.Keys - OnStack(stack)|, 0, 0
    {
      if id in seen || id in stack {
        return None;
      }
      if id !in input.nodes {
        return None;
      }
      var span := input.nodes[id];
      StackGrows(input.Value(), id, stack);
      stack := stack + [id];
      var children := CollectChildren(input, Kids(input.children, id));
      stack := stack[..|stack| - 1];
      seen := seen + {id};
      return Some(MakeNode(span, children));
    }

    /** `child_nodes` of an id list, and `build_ids` with an empty stack. */
    method CollectChildren(input: SpanInput, ids: seq<Id>) returns (nodes: seq<SpanNode>)
      requires input.Linked()
      modifies this
      ensures (nodes, seen) == ChildNodes(input.Value(), ids, old(seen), old(stack)) && stack == old(stack)
      decreases |input.nodes.Keys - OnStack(stack)|, 1, |ids|
    {
      hide ChildNodes, Assemble, StillToWalk;
      nodes := [];
      ghost var whole := ChildNodes(input.Value(), ids, seen, stack);
      WalkStarts(whole);
      assert ids[0..] == ids;
      for k := 0 to |ids|
        invariant stack == old(stack)
        invariant StillToWalk(whole, nodes, ChildNodes(input.Value(), ids[k..], seen, stack))
      {
        WalkStep(input.Value(), ids, k, seen, stack, whole, nodes);
        var node := AssembleNode(input, ids[k]);
        nodes := nodes + (if node.Some? then [node.value] else []);
      }
      assert ids[|ids|..] == [];
      WalkEnds(input.Value(), seen, stack, whole, nodes);
    }
  }

  /** The loop holds `nodes` of the result `whole`; `rest` is to come. */
  ghost predicate StillToWalk(whole: (seq<SpanNode>, set<Id>), nodes: seq<SpanNode>, rest: (seq<SpanNode>, set<Id>)) {
    whole == (nodes + rest.0, rest.1)
  }

  lemma WalkStarts(whole: (seq<SpanNode>, set<Id>))
    ensures StillToWalk(whole, [], whole)
  {
    assert [] + whole.0 == whole.0;
  }

  lemma WalkStep(input: Input, ids: seq<Id>, k: nat, seen: set<Id>, stack: seq<Id>,
                 whole: (seq<SpanNode>, set<Id>), nodes: seq<SpanNode>)
    requires k < |ids| && StillToWalk(whole, nodes, ChildNodes(input, ids[k..], seen, stack))
    ensures var (node, mid) := Assemble(input, ids[k], seen, stack);
            StillToWalk(whole, nodes + (if node.Some? then [node.value] else []), ChildNodes(input, ids[k + 1..], mid, stack))
  {
    hide Assemble;
    assert ids[k..][1..] == ids[k + 1..];
    var (node, mid) := Assemble(input, ids[k], seen, stack);
    var rest := ChildNodes(input, ids[k + 1..], mid, stack).0;
    if node.Some? {
      assert nodes + ([node.value] + rest) == (nodes + [node.value]) + rest;
    } else {
      assert nodes + ([] + rest) == (nodes + []) + rest;
    }
  }

  lemma WalkEnds(input: Input, seen: set<Id>, stack: seq<Id>, whole: (seq<SpanNode>, set<Id>), nodes: seq<SpanNode>)
    requires StillToWalk(whole, nodes, ChildNodes(input, [], seen, stack))
    ensures whole == (nodes, seen)
  {
    assert nodes + [] == nodes;
  }

  method BuildSpanTree(spans: seq<ToolSpanView>) returns (forest: seq<SpanNode>)
    ensures forest == BuildTree(spans)
  {
    var input := new SpanInput(spans);
    var walk := new Walk();
    var rootIds := input.Roots();
    var roots := walk.CollectChildren(input, rootIds);
    var remaining := input.Remaining(walk.seen);
    var others := walk.CollectChildren(input, remaining);
    return roots + others;
  }
}
