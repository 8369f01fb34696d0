/** Span forest assembly: `src/store/span_tree.rs`, as functions on values. */
module SpanTree {
  import opened Sequences
  import opened Options

  type Id = string

  datatype ToolSpanView = ToolSpanView(
    spanId: Id,
    tool: string,
    parentSpanId: Option<Id>,
    subtreeCostUsdE6: Option<int>,
    subtreeTokenCount: Option<nat>)

  datatype SpanNode = SpanNode(
    span: ToolSpanView,
    children: seq<SpanNode>,
    subtreeCostUsdE6: int,
    subtreeTokenCount: nat)

  // ---- SpanInput: distinct ids in input order, first row wins ----

  datatype Input = Input(order: seq<Id>, nodes: map<Id, ToolSpanView>)

  const EMPTY := Input([], map[])

  function Insert(input: Input, span: ToolSpanView): Input {
    if span.spanId in input.nodes then input
    else Input(input.order + [span.spanId], input.nodes[span.spanId := span])
  }

  function InsertAll(spans: seq<ToolSpanView>): Input {
    if spans == [] then EMPTY
    else Insert(InsertAll(spans[..|spans| - 1]), spans[|spans| - 1])
  }

  function Parent(input: Input, id: Id): Option<Id> {
    if id !in input.nodes then None
    else
      var p := input.nodes[id].parentSpanId;
      if p.Some? && p.value in input.nodes then p else None
  }

  /** Ids of `ids`, in order, that hold `p` as their present parent. */
  function WithParent(input: Input, ids: seq<Id>, p: Option<Id>): seq<Id> {
    if ids == [] then []
    else (if Parent(input, ids[0]) == p then [ids[0]] else []) + WithParent(input, ids[1..], p)
  }

  function ChildrenOf(input: Input, id: Id): seq<Id> {
    WithParent(input, input.order, Some(id))
  }

  /** `is_root`: no parent, or a parent that is not in the input. */
  function RootIds(input: Input): seq<Id> {
    WithParent(input, input.order, None)
  }

  function RemainingIds(ids: seq<Id>, seen: set<Id>): seq<Id> {
    if ids == [] then []
    else (if ids[0] in seen then [] else [ids[0]]) + RemainingIds(ids[1..], seen)
  }

  // ---- The walk ----

  function OnStack(stack: seq<Id>): set<Id> {
    set id | id in stack
  }

  function MakeNode(span: ToolSpanView, children: seq<SpanNode>): SpanNode {
    SpanNode(span, children, span.subtreeCostUsdE6.GetOr(0), span.subtreeTokenCount.GetOr(0))
  }

  /** `assemble`: the node of `id` unless it was seen or is being built, and the
      ids seen afterwards. */
  function Assemble(input: Input, id: Id, seen: set<Id>, stack: seq<Id>): (Option<SpanNode>, set<Id>)
    decreases |input.nodes.Keys - OnStack(stack)|, 0, 0
  {
    if id in seen || id in stack || id !in input.nodes then (None, seen)
    else
      StackGrows(input, id, stack);
      var (children, after) := ChildNodes(input, ChildrenOf(input, id), seen, stack + [id]);
      (Some(MakeNode(input.nodes[id], children)), after + {id})
  }

  /** `child_nodes`, and `build_ids` when the stack is empty. */
  function ChildNodes(input: Input, ids: seq<Id>, seen: set<Id>, stack: seq<Id>): (seq<SpanNode>, set<Id>)
    decreases |input.nodes.Keys - OnStack(stack)|, 1, |ids|
  {
    if ids == [] then ([], seen)
    else
      var (node, after) := Assemble(input, ids[0], seen, stack);
      var (nodes, final) := ChildNodes(input, ids[1..], after, stack);
      ((if node.Some? then [node.value] else []) + nodes, final)
  }

  function BuildIds(input: Input, ids: seq<Id>, seen: set<Id>): (seq<SpanNode>, set<Id>) {
    ChildNodes(input, ids, seen, [])
  }

  function BuildForest(input: Input): seq<SpanNode> {
    var (roots, seen) := BuildIds(input, RootIds(input), {});
    var (others, _) := BuildIds(input, RemainingIds(input.order, seen), seen);
    roots + others
  }

  function BuildTree(spans: seq<ToolSpanView>): seq<SpanNode> {
    BuildForest(InsertAll(spans))
  }

  lemma StackGrows(input: Input, id: Id, stack: seq<Id>)
    requires id in input.nodes && id !in stack
    ensures |input.nodes.Keys - OnStack(stack + [id])| < |input.nodes.Keys - OnStack(stack)|
  {
    var before, after := input.nodes.Keys - OnStack(stack), input.nodes.Keys - OnStack(stack + [id]);
    assert id in before && id !in after;
    assert after <= before - {id};
    SubsetSize(after, before - {id});
  }

  lemma {:induction false} SubsetSize<T>(a: set<T>, b: set<T>)
    requires a <= b
    ensures |a| <= |b|
  {
    if a != {} {
      var x :| x in a;
      SubsetSize(a - {x}, b - {x});
    }
  }

  // ---- Reading a forest ----

  function TopIds(nodes: seq<SpanNode>): seq<Id> {
    seq(|nodes|, i requires 0 <= i < |nodes| => nodes[i].span.spanId)
  }

  /** Ids in pre-order. */
  function Flat(node: SpanNode): seq<Id>
    decreases node, 0
  {
    [node.span.spanId] + FlatAll(node.children)
  }

  function FlatAll(nodes: seq<SpanNode>): seq<Id>
    decreases nodes, 1
  {
    if nodes == [] then [] else Flat(nodes[0]) + FlatAll(nodes[1..])
  }

  ghost predicate WellFormed(input: Input) {
    && Distinct(input.order)
    && (forall id | id in input.order :: id in input.nodes)
    && (forall id | id in input.nodes :: id in input.order && input.nodes[id].spanId == id)
  }

  /** The elements of `s` that lie in `keep`, in order. */
  function Keep(s: seq<Id>, keep: set<Id>): seq<Id> {
    if s == [] then [] else (if s[0] in keep then [s[0]] else []) + Keep(s[1..], keep)
  }

  /** The node carries the stored row of its id and the totals of that row; its
      children name it as their parent, stand in input order, and are linked in
      the same way. */
  ghost predicate Linked(input: Input, node: SpanNode)
    decreases node, 0
  {
    var id := node.span.spanId;
    && id in input.nodes
    && node.span == input.nodes[id]
    && (match node.span.subtreeCostUsdE6
        case Some(cost) => node.subtreeCostUsdE6 == cost
        case None => node.subtreeCostUsdE6 == 0)
    && (match node.span.subtreeTokenCount
        case Some(tokens) => node.subtreeTokenCount == tokens
        case None => node.subtreeTokenCount == 0)
    && TopIds(node.children) == Keep(ChildrenOf(input, id), OnStack(TopIds(node.children)))
    && LinkedAll(input, node.children)
  }

  ghost predicate LinkedAll(input: Input, nodes: seq<SpanNode>)
    decreases nodes, 1
  {
    nodes == [] || (Linked(input, nodes[0]) && LinkedAll(input, nodes[1..]))
  }

  /** All children of the node are there, at every level. */
  ghost predicate Complete(input: Input, node: SpanNode)
    decreases node, 0
  {
    TopIds(node.children) == ChildrenOf(input, node.span.spanId) && CompleteAll(input, node.children)
  }

  ghost predicate CompleteAll(input: Input, nodes: seq<SpanNode>)
    decreases nodes, 1
  {
    nodes == [] || (Complete(input, nodes[0]) && CompleteAll(input, nodes[1..]))
  }

  /** The parent chain of `id` ends at a root after `k` steps. */
  ghost predicate RootedIn(input: Input, id: Id, k: nat)
    decreases k
  {
    id in input.nodes &&
    match Parent(input, id)
    case None => k == 0
    case Some(p) => k > 0 && RootedIn(input, p, k - 1)
  }

  ghost predicate Rooted(input: Input, id: Id) {
    exists k: nat :: RootedIn(input, id, k)
  }
}
