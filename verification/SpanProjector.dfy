/** Open spans of one session: `src/store/projector_hierarchy.rs` and its callers
    in `src/store/projector/open.rs` and `close.rs`, as functions on values. */
module SpanProjector {
  import opened Sequences
  import opened Options

  type Id = string

  datatype SpanBuilder = SpanBuilder(
    spanId: Id,
    parentSpanId: Option<Id>,
    depth: nat,
    tokensIn: Option<int>,
    tokensOut: Option<int>,
    costUsdE6: Option<int>,
    subtreeCostUsdE6: Option<int>,
    subtreeTokenCount: Option<int>)

  datatype OpenSpans = OpenSpans(order: seq<Id>, spans: map<Id, SpanBuilder>)

  // ---- Totals ----

  /** `add_i64` and `add_u32`: nothing plus nothing stays nothing. */
  function AddOpt(left: Option<int>, right: Option<int>): Option<int> {
    match right
    case None => left
    case Some(v) => Some(left.GetOr(0) + v)
  }

  datatype Totals = Totals(cost: Option<int>, tokens: Option<int>)

  const NOTHING := Totals(None, None)

  function Add(a: Totals, b: Totals): Totals {
    Totals(AddOpt(a.cost, b.cost), AddOpt(a.tokens, b.tokens))
  }

  /** What a span counts for itself: tokens only if `tokens_in` is present. */
  function Own(b: SpanBuilder): Totals {
    Totals(b.costUsdE6, if b.tokensIn.Some? then Some(b.tokensIn.value + b.tokensOut.GetOr(0)) else None)
  }

  function Subtree(b: SpanBuilder): Totals {
    Totals(b.subtreeCostUsdE6, b.subtreeTokenCount)
  }

  function WithSubtree(b: SpanBuilder, t: Totals): SpanBuilder {
    b.(subtreeCostUsdE6 := t.cost, subtreeTokenCount := t.tokens)
  }

  function SeedSubtree(b: SpanBuilder): SpanBuilder {
    WithSubtree(b, Add(Subtree(b), Own(b)))
  }

  function AddChild(parent: SpanBuilder, child: SpanBuilder): SpanBuilder {
    WithSubtree(parent, Add(Subtree(parent), Subtree(child)))
  }

  // ---- Opening ----

  /** `open_parent`: the newest other open span, and one more than its depth. */
  function OpenParent(order: seq<Id>, spans: map<Id, SpanBuilder>, id: Id): (Option<Id>, nat) {
    if order == [] then (None, 0)
    else
      var last := order[|order| - 1];
      if last != id && last in spans then (Some(last), spans[last].depth + 1)
      else OpenParent(order[..|order| - 1], spans, id)
  }

  datatype Usage = Usage(tokensIn: Option<int>, tokensOut: Option<int>, cost: Option<int>)

  const NO_USAGE := Usage(None, None, None)

  /** `copy_usage`: present values replace, absent ones keep. */
  function CopyUsage(b: SpanBuilder, u: Usage): SpanBuilder {
    b.(tokensIn := u.tokensIn.Or(b.tokensIn),
       tokensOut := u.tokensOut.Or(b.tokensOut),
       costUsdE6 := u.cost.Or(b.costUsdE6))
  }

  function NewBuilder(id: Id, hierarchy: (Option<Id>, nat)): SpanBuilder {
    SpanBuilder(id, hierarchy.0, hierarchy.1, None, None, None, None, None)
  }

  /** A tool call or a hook: insert unless open, copy usage, push unless listed. */
  function Open(st: OpenSpans, id: Id, usage: Usage): OpenSpans {
    var b := if id in st.spans then st.spans[id] else NewBuilder(id, OpenParent(st.order, st.spans, id));
    OpenSpans(if id in st.order then st.order else st.order + [id], st.spans[id := CopyUsage(b, usage)])
  }

  /** A result copies usage into the open span it is matched with. */
  function Touch(st: OpenSpans, id: Id, usage: Usage): OpenSpans
    requires id in st.spans
  {
    st.(spans := st.spans[id := CopyUsage(st.spans[id], usage)])
  }

  // ---- Closing ----

  /** Last position of `id`, or the length when it is not there. */
  function LastIndex(order: seq<Id>, id: Id): (k: nat)
    ensures k <= |order|
    ensures k < |order| ==> order[k] == id
    ensures forall i | k < i < |order| :: order[i] != id
    ensures k == |order| ==> id !in order
  {
    if order == [] then 0
    else if order[|order| - 1] == id then |order| - 1
    else
      var k := LastIndex(order[..|order| - 1], id);
      assert order == order[..|order| - 1] + [order[|order| - 1]];
      if k == |order| - 1 then |order| else k
  }

  function Without(order: seq<Id>, k: nat): seq<Id>
    requires k < |order|
  {
    order[..k] + order[k + 1..]
  }

  function Shallower(b: SpanBuilder): SpanBuilder {
    b.(depth := if b.depth == 0 then 0 else b.depth - 1)
  }

  function DepthsDown(spans: map<Id, SpanBuilder>, ids: seq<Id>): map<Id, SpanBuilder> {
    if ids == [] then spans
    else DepthsDown(if ids[0] in spans then spans[ids[0] := Shallower(spans[ids[0]])] else spans, ids[1..])
  }

  /** `detach_chain` for a span that was just taken out of the map. */
  function DetachChain(st: OpenSpans, span: SpanBuilder): OpenSpans {
    var k := LastIndex(st.order, span.spanId);
    if k == |st.order| then st
    else
      var order := Without(st.order, k);
      var spans := if k < |order| && order[k] in st.spans
                   then st.spans[order[k] := st.spans[order[k]].(parentSpanId := span.parentSpanId)]
                   else st.spans;
      OpenSpans(order, DepthsDown(spans, order[k..]))
  }

  /** A closed span: its record, and whether its totals went to an open parent. */
  datatype Closed = Closed(span: SpanBuilder, credited: bool)

  function RemoveOpen(st: OpenSpans, id: Id): OpenSpans
    requires id in st.spans
  {
    DetachChain(OpenSpans(st.order, st.spans - {id}), st.spans[id])
  }

  /** `close_span` of a removed span. */
  function CloseSpan(st: OpenSpans, span: SpanBuilder): (OpenSpans, Closed) {
    var seeded := SeedSubtree(span);
    if span.parentSpanId.Some? && span.parentSpanId.value in st.spans then
      var p := span.parentSpanId.value;
      (st.(spans := st.spans[p := AddChild(st.spans[p], seeded)]), Closed(seeded, true))
    else (st, Closed(seeded, false))
  }

  /** Close `id` if it is open: a result, a post hook or an expiry. */
  function Close(st: OpenSpans, id: Id): (OpenSpans, seq<Closed>) {
    if id !in st.spans then (st, [])
    else
      var (after, closed) := CloseSpan(RemoveOpen(st, id), st.spans[id]);
      (after, [closed])
  }

  /** `flush_session` takes every span out first and then closes them, newest
      first, so that nothing finds an open parent. */
  function FlushRecords(st: OpenSpans): seq<Closed>
    decreases |st.order|
  {
    if st.order == [] then []
    else
      var id := st.order[|st.order| - 1];
      var rest := OpenSpans(st.order[..|st.order| - 1], st.spans - {id});
      (if id in st.spans then [Closed(SeedSubtree(st.spans[id]), false)] else []) + FlushRecords(rest)
  }

  // ---- Steps ----

  /** What the projector does with events; `matching.rs` picks the span ids, so
      here they are arbitrary.  `Expire` closes one id; the expiry sweep is a
      run of them in any order. */
  datatype Step =
    | Call(id: Id, usage: Usage)
    | PreHook(id: Id)
    | PostHook(id: Id)
    | Result(id: Id, usage: Usage)
    | Expire(id: Id)
    | Flush

  function Apply(st: OpenSpans, step: Step): (OpenSpans, seq<Closed>) {
    match step
    case Call(id, usage) => (Open(st, id, usage), [])
    case PreHook(id) => (Open(st, id, NO_USAGE), [])
    case PostHook(id) => Close(Open(st, id, NO_USAGE), id)
    case Result(id, usage) => if id in st.spans then Close(Touch(st, id, usage), id) else (st, [])
    case Expire(id) => Close(st, id)
    case Flush => (OpenSpans([], map[]), FlushRecords(st))
  }

  function RunSteps(steps: seq<Step>): (OpenSpans, seq<Closed>) {
    if steps == [] then (OpenSpans([], map[]), [])
    else
      var (st, log) := RunSteps(steps[..|steps| - 1]);
      var (st', closed) := Apply(st, steps[|steps| - 1]);
      (st', log + closed)
  }

  // ---- The chain invariant ----

  /** The span at position `i` has its position as depth and the span before it
      as parent. */
  ghost predicate InPlace(st: OpenSpans, i: nat)
    requires i < |st.order|
  {
    && st.order[i] in st.spans
    && st.spans[st.order[i]].spanId == st.order[i]
    && st.spans[st.order[i]].depth == i
    && st.spans[st.order[i]].parentSpanId == if i == 0 then None else Some(st.order[i - 1])
  }

  /** The open stack is one chain, and holds exactly the open spans. */
  ghost predicate Chain(st: OpenSpans) {
    && Distinct(st.order)
    && (forall id :: id in st.spans <==> id in st.order)
    && (forall i {:trigger InPlace(st, i)} | 0 <= i < |st.order| :: InPlace(st, i))
  }

  // ---- Sums ----

  function SumOpen(spans: map<Id, SpanBuilder>, order: seq<Id>): Totals
    requires forall id | id in order :: id in spans
  {
    if order == [] then NOTHING else Add(Subtree(spans[order[0]]), SumOpen(spans, order[1..]))
  }

  /** Own totals of a closed record. */
  function SumOwn(log: seq<Closed>): Totals {
    if log == [] then NOTHING else Add(Own(log[0].span), SumOwn(log[1..]))
  }

  /** Subtree totals of the records that had no open parent. */
  function SumUncredited(log: seq<Closed>): Totals {
    if log == [] then NOTHING
    else Add(if log[0].credited then NOTHING else Subtree(log[0].span), SumUncredited(log[1..]))
  }
}
