/** What each step of the projector opens and closes: `src/store/projector/open.rs`,
    `close.rs` and `src/store/projector.rs`. */
module SpanSteps {
  import opened Sequences
  import opened Options
  import opened SpanProjector
  import opened SpanChain
  import opened SpanLedger

  /** Present values replace, absent ones keep. */
  ghost predicate Copied(u: Usage, before: SpanBuilder, after: SpanBuilder) {
    && after.tokensIn == (if u.tokensIn.Some? then u.tokensIn else before.tokensIn)
    && after.tokensOut == (if u.tokensOut.Some? then u.tokensOut else before.tokensOut)
    && after.costUsdE6 == (if u.cost.Some? then u.cost else before.costUsdE6)
  }

  ghost predicate SameOwn(a: SpanBuilder, b: SpanBuilder) {
    a.spanId == b.spanId && a.tokensIn == b.tokensIn && a.tokensOut == b.tokensOut && a.costUsdE6 == b.costUsdE6
  }

  /** What a span counts for itself, in numbers. */
  lemma OwnIs(b: SpanBuilder)
    ensures Own(b).cost == b.costUsdE6
    ensures b.tokensIn.None? ==> Own(b).tokens == None
    ensures b.tokensIn.Some? && b.tokensOut.None? ==> Own(b).tokens == Some(b.tokensIn.value)
    ensures b.tokensIn.Some? && b.tokensOut.Some? ==> Own(b).tokens == Some(b.tokensIn.value + b.tokensOut.value)
  {
  }

  // ---- Opening ----

  /** Main result: a call or a hook leaves its span open with the usage copied. A
      new span stands on top, under the one that was there; an open one keeps its
      place and its amounts; no other span changes and nothing is recorded. */
  lemma StepOpens(st: OpenSpans, step: Step)
    requires Chain(st) && (step.Call? || step.PreHook?)
    ensures var (after, closed) := Apply(st, step);
            var id, usage := step.id, if step.Call? then step.usage else Usage(None, None, None);
            && closed == [] && after.spans.Keys == st.spans.Keys + {id}
            && (forall x | x in st.spans && x != id :: after.spans[x] == st.spans[x])
            && (id in st.spans ==>
                  && after.order == st.order && Copied(usage, st.spans[id], after.spans[id])
                  && Subtree(after.spans[id]) == Subtree(st.spans[id]))
            && (id !in st.spans ==>
                  && after.order == st.order + [id]
                  && var b := after.spans[id];
                     && b.spanId == id && b.depth == |st.order|
                     && b.parentSpanId == (if st.order == [] then None else Some(st.order[|st.order| - 1]))
                     && b.tokensIn == usage.tokensIn && b.tokensOut == usage.tokensOut && b.costUsdE6 == usage.cost
                     && b.subtreeCostUsdE6 == None && b.subtreeTokenCount == None)
  {
    if step.id !in st.spans {
      ChainTop(st, step.id);
    }
    hide OpenParent, InPlace;
  }

  // ---- Closing ----

  lemma RemovedOthers(st: OpenSpans, id: Id)
    requires Chain(st) && id in st.spans
    ensures var mid := RemoveOpen(st, id);
            && id !in mid.order && mid.spans.Keys == st.spans.Keys - {id}
            && (forall x :: x in mid.order <==> x in st.order && x != id)
            && (forall x | x in mid.spans :: SameOwn(mid.spans[x], st.spans[x]))
  {
    var k := RemoveEffect(st, id);
    WithoutMembers(st.order, k);
    var mid := RemoveOpen(st, id);
    hide RemoveOpen, Without, InPlace, Distinct, RelinkedAt, SameOwn;
    forall x | x in mid.spans ensures SameOwn(mid.spans[x], st.spans[x]) {
      assert x in mid.order;
      var i: nat :| i < |mid.order| && mid.order[i] == x;
      RelinkedOwn(st, mid, k, i);
    }
  }

  lemma RelinkedOwn(st: OpenSpans, after: OpenSpans, k: nat, i: nat)
    requires k < |st.order| && i < |after.order| && RelinkedAt(st, after, k, i)
    ensures after.order[i] in after.spans && after.order[i] in st.spans
    ensures SameOwn(after.spans[after.order[i]], st.spans[after.order[i]])
  {
  }

  /** A close takes the span out, records it once with what it held, and leaves the
      other spans open with their own amounts. */
  lemma CloseTakesOut(st: OpenSpans, id: Id)
    requires Chain(st) && id in st.spans
    ensures var (after, closed) := Close(st, id);
            && id !in after.order && after.spans.Keys == st.spans.Keys - {id}
            && (forall x :: x in after.order <==> x in st.order && x != id)
            && (forall x | x in after.spans :: SameOwn(after.spans[x], st.spans[x]))
            && |closed| == 1 && SameOwn(closed[0].span, st.spans[id]) && closed[0].span.spanId == id
            && closed[0].span.parentSpanId == st.spans[id].parentSpanId && closed[0].span.depth == st.spans[id].depth
  {
    RemovedOthers(st, id);
    var k := RemoveKeepsChain(st, id);
    SpanIdOf(st, k);
    hide RemoveOpen, Chain, Add;
  }

  /** Main result: a result, a post hook or an expiry of an open span closes that
      span and no other, and records it once, with the usage that was copied. */
  lemma StepCloses(st: OpenSpans, step: Step)
    requires Chain(st) && (step.Result? || step.PostHook? || step.Expire?) && step.id in st.spans
    ensures var (after, closed) := Apply(st, step);
            var id, usage := step.id, if step.Result? then step.usage else Usage(None, None, None);
            && id !in after.order && after.spans.Keys == st.spans.Keys - {id}
            && (forall x :: x in after.order <==> x in st.order && x != id)
            && (forall x | x in after.spans :: SameOwn(after.spans[x], st.spans[x]))
            && |closed| == 1 && closed[0].span.spanId == id && Copied(usage, st.spans[id], closed[0].span)
            && closed[0].span.parentSpanId == st.spans[id].parentSpanId && closed[0].span.depth == st.spans[id].depth
  {
    var id := step.id;
    match step
    case Result(_, usage) =>
      TouchIsOpen(st, id, usage);
      OpenedAgain(st, id, usage);
      CloseTakesOut(Touch(st, id, usage), id);
      hide Close, Open, Touch, Chain;
    case PostHook(_) =>
      OpenedAgain(st, id, NO_USAGE);
      CloseTakesOut(Open(st, id, NO_USAGE), id);
      hide Close, Open, Chain;
    case Expire(_) =>
      CloseTakesOut(st, id);
      hide Close, Chain;
  }

  lemma OpenedAgain(st: OpenSpans, id: Id, usage: Usage)
    requires Chain(st) && id in st.spans
    ensures var mid := Open(st, id, usage);
            && Chain(mid) && mid.order == st.order && mid.spans.Keys == st.spans.Keys
            && (forall x | x in st.spans && x != id :: mid.spans[x] == st.spans[x])
            && Copied(usage, st.spans[id], mid.spans[id])
            && mid.spans[id].parentSpanId == st.spans[id].parentSpanId && mid.spans[id].depth == st.spans[id].depth
  {
    OpenKeepsChain(st, id, usage);
    hide InPlace, OpenParent;
  }

  /** A post hook of a span that is not open records an empty one on top. */
  lemma PostHookAlone(st: OpenSpans, id: Id)
    requires Chain(st) && id !in st.spans
    ensures var (after, closed) := Apply(st, PostHook(id));
            && id !in after.order && after.spans.Keys == st.spans.Keys
            && |closed| == 1 && closed[0].span.spanId == id && closed[0].span.depth == |st.order|
            && closed[0].span.tokensIn == None && closed[0].span.tokensOut == None && closed[0].span.costUsdE6 == None
  {
    hide Close, Open, Chain;
    StepOpens(st, PreHook(id));
    OpenKeepsChain(st, id, NO_USAGE);
    CloseTakesOut(Open(st, id, NO_USAGE), id);
  }

  /** A result or an expiry of a span that is not open changes nothing. */
  lemma UnknownIsIgnored(st: OpenSpans, step: Step)
    requires (step.Result? || step.Expire?) && step.id !in st.spans
    ensures Apply(st, step) == (st, [])
  {
  }

  lemma {:induction false} AloneBelowAt(st: OpenSpans, k: nat, j: nat)
    requires AllOpen(st) && j < k <= |st.order|
    ensures |AloneBelow(st, k)| == k && AloneBelow(st, k)[j] == AloneAt(st, k - 1 - j)
  {
    hide AloneAt;
    if k > 1 {
      AloneBelowAt(st, k - 1, if j == 0 then 0 else j - 1);
    }
  }

  /** Main result: a flush leaves nothing open and records every open span once,
      newest first, with its own amounts, parent and depth. */
  lemma FlushRecordsAll(st: OpenSpans, j: nat)
    requires Chain(st) && j < |st.order|
    ensures var (after, closed) := Apply(st, Flush);
            var id := st.order[|st.order| - 1 - j];
            && after == OpenSpans([], map[]) && |closed| == |st.order|
            && closed[j].span.spanId == id && SameOwn(closed[j].span, st.spans[id])
            && closed[j].span.parentSpanId == st.spans[id].parentSpanId && closed[j].span.depth == st.spans[id].depth
  {
    var n := |st.order|;
    SpanIdOf(st, n - 1 - j);
    FlushRecordsAre(st);
    AloneBelowAt(st, n, j);
    FlushCreditsNothing(st);
    hide FlushRecords, AloneBelow, Chain, Alone;
    assert Recorded(FlushRecords(st))[j] == FlushRecords(st)[j].span;
  }

  // ---- Totals in numbers ----

  function CostSum(parts: seq<Closed>): int {
    if parts == [] then 0
    else (if parts[0].span.costUsdE6.Some? then parts[0].span.costUsdE6.value else 0) + CostSum(parts[1..])
  }

  function TokenSum(parts: seq<Closed>): int {
    if parts == [] then 0
    else
      var b := parts[0].span;
      (if b.tokensIn.None? then 0
       else if b.tokensOut.None? then b.tokensIn.value
       else b.tokensIn.value + b.tokensOut.value) + TokenSum(parts[1..])
  }

  lemma {:induction false} SumOwnIs(parts: seq<Closed>)
    ensures SumOwn(parts).cost.Some? ==> SumOwn(parts).cost.value == CostSum(parts)
    ensures SumOwn(parts).cost.None? ==> CostSum(parts) == 0
    ensures SumOwn(parts).tokens.Some? ==> SumOwn(parts).tokens.value == TokenSum(parts)
    ensures SumOwn(parts).tokens.None? ==> TokenSum(parts) == 0
  {
    if parts != [] {
      SumOwnIs(parts[1..]);
      OwnIs(parts[0].span);
    }
  }

  /** Main result: in every run a record's cost is the sum of the costs of the spans
      that closed into it, itself included, and its tokens are the sum of their
      tokens in and out, leaving out spans without tokens in. */
  lemma RecordsInNumbers(steps: seq<Step>, r: nat)
    requires r < |RunSteps(steps).1|
    ensures var log := RunSteps(steps).1;
            var parts := RecordParts(log, r);
            && (log[r].span.subtreeCostUsdE6.Some? ==> log[r].span.subtreeCostUsdE6.value == CostSum(parts))
            && (log[r].span.subtreeTokenCount.Some? ==> log[r].span.subtreeTokenCount.value == TokenSum(parts))
  {
    CloseExplained(steps, r);
    SumOwnIs(RecordParts(RunSteps(steps).1, r));
    hide RunSteps, RecordParts, SumOwn;
  }
}
