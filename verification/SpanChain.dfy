/** The open stack stays a chain under any interleaving of opens and closes, and
    subtree totals are conserved in any close order. */
module SpanChain {
  import opened Sequences
  import opened Options
  import opened SpanProjector

  // ---- The chain ----

  lemma ChainTop(st: OpenSpans, id: Id)
    requires Chain(st) && id !in st.order
    ensures OpenParent(st.order, st.spans, id)
            == (if st.order == [] then None else Some(st.order[|st.order| - 1]), |st.order|)
  {
    if st.order != [] {
      assert InPlace(st, |st.order| - 1);
    }
  }

  lemma OpenKeepsChain(st: OpenSpans, id: Id, usage: Usage)
    requires Chain(st)
    ensures Chain(Open(st, id, usage))
    ensures id in Open(st, id, usage).spans
  {
    if id !in st.spans {
      ChainTop(st, id);
    }
    hide OpenParent;
    var after := Open(st, id, usage);
    forall i | 0 <= i < |after.order| ensures InPlace(after, i) {
      if i < |st.order| {
        assert InPlace(st, i);
      }
    }
  }

  /** On a chain, a result touches its span as opening it again would. */
  lemma TouchIsOpen(st: OpenSpans, id: Id, usage: Usage)
    requires Chain(st) && id in st.spans
    ensures Touch(st, id, usage) == Open(st, id, usage)
  {
  }

  lemma {:induction false} DepthsDownEffect(spans: map<Id, SpanBuilder>, ids: seq<Id>)
    requires Distinct(ids)
    ensures DepthsDown(spans, ids).Keys == spans.Keys
    ensures forall id | id in spans ::
              DepthsDown(spans, ids)[id] == if id in ids then Shallower(spans[id]) else spans[id]
  {
    if ids != [] {
      var next := if ids[0] in spans then spans[ids[0] := Shallower(spans[ids[0]])] else spans;
      assert ids == [ids[0]] + ids[1..];
      assert forall i | 0 <= i < |ids| - 1 :: ids[1..][i] == ids[i + 1];
      assert ids[0] !in ids[1..];
      DepthsDownEffect(next, ids[1..]);
    }
  }

  lemma WithoutElements(order: seq<Id>, k: nat)
    requires k < |order| && Distinct(order)
    ensures var w := Without(order, k);
            && |w| == |order| - 1 && Distinct(w)
            && (forall i | 0 <= i < |w| :: w[i] == if i < k then order[i] else order[i + 1])
            && (forall id :: id in w <==> id in order && id != order[k])
  {
    var w := Without(order, k);
    forall id ensures id in w <==> id in order && id != order[k] {
      if id in order && id != order[k] {
        var i :| 0 <= i < |order| && order[i] == id;
        assert w[if i < k then i else i - 1] == id;
      }
    }
  }

  lemma WithoutMembers(order: seq<Id>, k: nat)
    requires k < |order| && Distinct(order)
    ensures |Without(order, k)| == |order| - 1 && Distinct(Without(order, k))
    ensures forall id :: id in Without(order, k) <==> id in order && id != order[k]
  {
    WithoutElements(order, k);
  }

  /** The span that the detached one's child becomes. */
  function Relinked(b: SpanBuilder, k: nat, i: nat, parent: Option<Id>): SpanBuilder {
    var linked := if i == k then b.(parentSpanId := parent) else b;
    if i < k then linked else Shallower(linked)
  }

  /** Position `i` after the span at `k` was taken out. */
  ghost predicate RelinkedAt(st: OpenSpans, after: OpenSpans, k: nat, i: nat)
    requires k < |st.order| && i < |after.order|
  {
    var x, id := after.order[i], st.order[k];
    && x in after.spans && x in st.spans && id in st.spans
    && after.spans[x] == Relinked(st.spans[x], k, i, st.spans[id].parentSpanId)
  }

  /** What taking the span at position `k` out of a chain does to the others. */
  lemma RemoveEffect(st: OpenSpans, id: Id) returns (k: nat)
    requires Chain(st) && id in st.spans
    ensures k < |st.order| && st.order[k] == id
    ensures var after := RemoveOpen(st, id);
            && after.order == Without(st.order, k)
            && after.spans.Keys == st.spans.Keys - {id}
            && (forall i {:trigger RelinkedAt(st, after, k, i)} | 0 <= i < |after.order| :: RelinkedAt(st, after, k, i))
  {
    hide InPlace, DepthsDown, RemoveOpen, Distinct, Without, Linked;
    k := RemoveIs(st, id);
    var order := Without(st.order, k);
    WithoutElements(st.order, k);
    var linked := Linked(st, id, order, k);
    LinkedKeys(st, id, order, k);
    DepthsDownEffect(linked, order[k..]);
    var after := RemoveOpen(st, id);
    forall i | 0 <= i < |order| ensures RelinkedAt(st, after, k, i) {
      assert order[i] in order;
      LinkedElement(st, id, order, k, i);
    }
  }

  /** The map of `detach_chain` before the depths change. */
  function Linked(st: OpenSpans, id: Id, order: seq<Id>, k: nat): map<Id, SpanBuilder>
    requires id in st.spans
  {
    var rest := st.spans - {id};
    if k < |order| && order[k] in rest
    then rest[order[k] := rest[order[k]].(parentSpanId := st.spans[id].parentSpanId)] else rest
  }

  lemma RemoveIs(st: OpenSpans, id: Id) returns (k: nat)
    requires Chain(st) && id in st.spans
    ensures k < |st.order| && st.order[k] == id
    ensures var order := Without(st.order, k);
            RemoveOpen(st, id) == OpenSpans(order, DepthsDown(Linked(st, id, order, k), order[k..]))
  {
    hide InPlace, DepthsDown, Distinct;
    k := LastIndex(st.order, id);
    SpanIdOf(st, k);
  }

  lemma LinkedKeys(st: OpenSpans, id: Id, order: seq<Id>, k: nat)
    requires id in st.spans
    ensures Linked(st, id, order, k).Keys == st.spans.Keys - {id}
  {
  }

  lemma LinkedElement(st: OpenSpans, id: Id, order: seq<Id>, k: nat, i: nat)
    requires Distinct(order) && i < |order| && id in st.spans && order[i] in st.spans && order[i] != id
    ensures order[i] in Linked(st, id, order, k)
    ensures Linked(st, id, order, k)[order[i]]
            == if i == k then st.spans[order[i]].(parentSpanId := st.spans[id].parentSpanId) else st.spans[order[i]]
  {
  }

  lemma SpanIdOf(st: OpenSpans, k: nat)
    requires Chain(st) && k < |st.order|
    ensures st.order[k] in st.spans && st.spans[st.order[k]].spanId == st.order[k]
  {
    assert InPlace(st, k);
  }

  lemma RemoveKeepsChain(st: OpenSpans, id: Id) returns (k: nat)
    requires Chain(st) && id in st.spans
    ensures k < |st.order| && st.order[k] == id
    ensures var after := RemoveOpen(st, id);
            && after.order == Without(st.order, k)
            && Chain(after)
            && (forall x | x in after.spans :: x in st.spans && Subtree(after.spans[x]) == Subtree(st.spans[x]))
  {
    k := RemoveEffect(st, id);
    hide RemoveOpen, RelinkedAt, InPlace, Distinct, Chain;
    var after := RemoveOpen(st, id);
    ChainAfterRemove(st, after, id, k);
  }

  lemma ChainAfterRemove(st: OpenSpans, after: OpenSpans, id: Id, k: nat)
    requires Chain(st) && k < |st.order| && st.order[k] == id
    requires after.order == Without(st.order, k) && after.spans.Keys == st.spans.Keys - {id}
    requires forall i {:trigger RelinkedAt(st, after, k, i)} | 0 <= i < |after.order| :: RelinkedAt(st, after, k, i)
    ensures Chain(after)
    ensures forall x | x in after.spans :: x in st.spans && Subtree(after.spans[x]) == Subtree(st.spans[x])
  {
    hide RelinkedAt, InPlace, Distinct, Without;
    WithoutMembers(st.order, k);
    PlacesAfterRemove(st, after, k);
    RelinkedSubtrees(st, after, k);
  }

  lemma PlacesAfterRemove(st: OpenSpans, after: OpenSpans, k: nat)
    requires k < |st.order| && after.order == Without(st.order, k) && |after.order| == |st.order| - 1
    requires forall i {:trigger InPlace(st, i)} | 0 <= i < |st.order| :: InPlace(st, i)
    requires forall i {:trigger RelinkedAt(st, after, k, i)} | 0 <= i < |after.order| :: RelinkedAt(st, after, k, i)
    ensures forall i {:trigger InPlace(after, i)} | 0 <= i < |after.order| :: InPlace(after, i)
  {
    hide RelinkedAt, InPlace, Without;
    assert InPlace(st, k);
    forall i | 0 <= i < |after.order| ensures InPlace(after, i) {
      assert RelinkedAt(st, after, k, i);
      assert InPlace(st, if i < k then i else i + 1);
      RelinkedInPlace(st, after, k, i);
    }
  }

  lemma RelinkedSubtrees(st: OpenSpans, after: OpenSpans, k: nat)
    requires k < |st.order| && forall id | id in after.spans :: id in after.order
    requires forall i {:trigger RelinkedAt(st, after, k, i)} | 0 <= i < |after.order| :: RelinkedAt(st, after, k, i)
    ensures forall x | x in after.spans :: x in st.spans && Subtree(after.spans[x]) == Subtree(st.spans[x])
  {
    forall x | x in after.spans ensures x in st.spans && Subtree(after.spans[x]) == Subtree(st.spans[x]) {
      var i :| 0 <= i < |after.order| && after.order[i] == x;
      assert RelinkedAt(st, after, k, i);
    }
  }

  lemma RelinkedInPlace(st: OpenSpans, after: OpenSpans, k: nat, i: nat)
    requires k < |st.order| && after.order == Without(st.order, k) && i < |after.order|
    requires InPlace(st, k) && InPlace(st, if i < k then i else i + 1) && RelinkedAt(st, after, k, i)
    ensures InPlace(after, i)
  {
    assert after.order[i] == st.order[if i < k then i else i + 1];
    if i > 0 {
      assert after.order[i - 1] == st.order[if i - 1 < k then i - 1 else i];
    }
  }

  lemma CreditKeepsChain(st: OpenSpans, span: SpanBuilder)
    requires Chain(st)
    ensures Chain(CloseSpan(st, span).0)
    ensures CloseSpan(st, span).0.order == st.order
  {
    var after := CloseSpan(st, span).0;
    forall i | 0 <= i < |after.order| ensures InPlace(after, i) {
      assert InPlace(st, i);
    }
  }

  lemma CloseKeepsChain(st: OpenSpans, id: Id)
    requires Chain(st)
    ensures Chain(Close(st, id).0)
  {
    hide RemoveOpen, CloseSpan, Chain;
    if id in st.spans {
      var k := RemoveKeepsChain(st, id);
      CreditKeepsChain(RemoveOpen(st, id), st.spans[id]);
    }
  }

  /** Main result: every step, in any order, keeps the open stack a chain. */
  lemma StepKeepsChain(st: OpenSpans, step: Step)
    requires Chain(st)
    ensures Chain(Apply(st, step).0)
  {
    hide Chain, Close, Open;
    match step
    case Call(id, usage) => OpenKeepsChain(st, id, usage);
    case PreHook(id) => OpenKeepsChain(st, id, NO_USAGE);
    case PostHook(id) =>
      OpenKeepsChain(st, id, NO_USAGE);
      CloseKeepsChain(Open(st, id, NO_USAGE), id);
    case Result(id, usage) =>
      if id in st.spans {
        TouchIsOpen(st, id, usage);
        OpenKeepsChain(st, id, usage);
        CloseKeepsChain(Touch(st, id, usage), id);
      }
    case Expire(id) => CloseKeepsChain(st, id);
    case Flush => EmptyChain();
  }

  lemma EmptyChain()
    ensures Chain(OpenSpans([], map[]))
  {
  }

  lemma {:induction false} RunKeepsChain(steps: seq<Step>)
    ensures Chain(RunSteps(steps).0)
  {
    if steps == [] {
      EmptyChain();
    } else {
      RunKeepsChain(steps[..|steps| - 1]);
      StepKeepsChain(RunSteps(steps[..|steps| - 1]).0, steps[|steps| - 1]);
    }
  }

  /** Main result: after any run a new span is opened under the top of the stack,
      at the depth of the stack. */
  lemma NewSpanGoesOnTop(steps: seq<Step>, id: Id)
    requires id !in RunSteps(steps).0.spans
    ensures var st := RunSteps(steps).0;
            OpenParent(st.order, st.spans, id)
            == (if st.order == [] then None else Some(st.order[|st.order| - 1]), |st.order|)
  {
    RunKeepsChain(steps);
    ChainTop(RunSteps(steps).0, id);
  }

  // ---- Conservation ----

  lemma AddAssoc(a: Totals, b: Totals, c: Totals)
    ensures Add(Add(a, b), c) == Add(a, Add(b, c))
  {
  }

  lemma AddComm(a: Totals, b: Totals)
    ensures Add(a, b) == Add(b, a)
    ensures Add(a, NOTHING) == a == Add(NOTHING, a)
  {
  }

  lemma {:induction false} SumSplit(spans: map<Id, SpanBuilder>, order: seq<Id>, k: nat)
    requires k < |order| && forall id | id in order :: id in spans
    ensures forall id | id in Without(order, k) :: id in spans
    ensures SumOpen(spans, order) == Add(Subtree(spans[order[k]]), SumOpen(spans, Without(order, k)))
  {
    if k == 0 {
      assert Without(order, 0) == order[1..];
    } else {
      SumSplit(spans, order[1..], k - 1);
      var w := Without(order[1..], k - 1);
      assert Without(order, k) == [order[0]] + w;
      assert Without(order, k)[1..] == w;
      assert Without(order, k)[0] == order[0];
      var a, b, c := Subtree(spans[order[0]]), Subtree(spans[order[k]]), SumOpen(spans, w);
      assert order[1..][k - 1] == order[k];
      AddAssoc(a, b, c);
      AddComm(a, b);
      AddAssoc(b, a, c);
    }
  }

  lemma {:induction false} SumSame(a: map<Id, SpanBuilder>, b: map<Id, SpanBuilder>, order: seq<Id>)
    requires forall id | id in order :: id in a && id in b && Subtree(a[id]) == Subtree(b[id])
    ensures SumOpen(a, order) == SumOpen(b, order)
  {
    if order != [] {
      SumSame(a, b, order[1..]);
    }
  }

  lemma {:induction false} SumAppend(a: seq<Closed>, b: seq<Closed>)
    ensures SumOwn(a + b) == Add(SumOwn(a), SumOwn(b))
    ensures SumUncredited(a + b) == Add(SumUncredited(a), SumUncredited(b))
  {
    if a == [] {
      assert a + b == b;
      AddComm(SumOwn(b), NOTHING);
      AddComm(SumUncredited(b), NOTHING);
    } else {
      assert (a + b)[1..] == a[1..] + b;
      SumAppend(a[1..], b);
      AddAssoc(Own(a[0].span), SumOwn(a[1..]), SumOwn(b));
      AddAssoc(if a[0].credited then NOTHING else Subtree(a[0].span), SumUncredited(a[1..]), SumUncredited(b));
    }
  }

  /** Own totals of the closed spans are in the totals of the records without an
      open parent or in the open spans. */
  ghost predicate Conserved(st: OpenSpans, log: seq<Closed>)
    requires Chain(st)
  {
    SumOwn(log) == Add(SumUncredited(log), SumOpen(st.spans, st.order))
  }

  /** How one step moves amounts: what was open, plus what the closed spans count
      for themselves, is what left the stack plus what is open now. */
  ghost predicate Moves(before: OpenSpans, after: OpenSpans, closed: seq<Closed>)
    requires Chain(before) && Chain(after)
  {
    Add(SumOpen(before.spans, before.order), SumOwn(closed))
    == Add(SumUncredited(closed), SumOpen(after.spans, after.order))
  }

  lemma OpenMoves(st: OpenSpans, id: Id, usage: Usage)
    requires Chain(st)
    ensures Chain(Open(st, id, usage))
    ensures var after := Open(st, id, usage);
            SumOpen(after.spans, after.order) == SumOpen(st.spans, st.order)
  {
    OpenKeepsChain(st, id, usage);
    var after := Open(st, id, usage);
    hide InPlace, OpenParent, Distinct;
    assert id in st.spans ==> Subtree(after.spans[id]) == Subtree(st.spans[id]);
    SumSame(st.spans, after.spans, st.order);
    if id !in st.order {
      var n := |st.order|;
      assert after.order == st.order + [id] && after.order[n] == id;
      assert Subtree(after.spans[id]) == NOTHING;
      hide Open;
      WithoutLast(st.order, id);
      SumSplit(after.spans, after.order, n);
      AddComm(SumOpen(st.spans, st.order), NOTHING);
    }
  }

  lemma WithoutLast(order: seq<Id>, id: Id)
    ensures Without(order + [id], |order|) == order
  {
  }

  lemma CloseMoves(st: OpenSpans, id: Id)
    requires Chain(st)
    ensures Chain(Close(st, id).0)
    ensures Moves(st, Close(st, id).0, Close(st, id).1)
  {
    CloseKeepsChain(st, id);
    if id !in st.spans {
      AddComm(SumOpen(st.spans, st.order), NOTHING);
      return;
    }
    var k := RemoveKeepsChain(st, id);
    var span, mid := st.spans[id], RemoveOpen(st, id);
    SumSplit(st.spans, st.order, k);
    SumSame(st.spans, mid.spans, mid.order);
    assert SumOpen(st.spans, st.order) == Add(Subtree(span), SumOpen(mid.spans, mid.order));
    hide RemoveOpen, DetachChain, SumOpen, Chain;
    CloseSpanMoves(mid, span);
    var (after, closed) := CloseSpan(mid, span);
    var a, b, c := Subtree(span), SumOpen(mid.spans, mid.order), Own(span);
    AddAssoc(a, b, c);
    AddComm(b, c);
    AddAssoc(a, c, b);
    SumOne(closed);
  }

  lemma SumOne(c: Closed)
    ensures SumOwn([c]) == Own(c.span)
    ensures SumUncredited([c]) == if c.credited then NOTHING else Subtree(c.span)
  {
    assert [c][1..] == [];
    AddComm(Own(c.span), NOTHING);
    AddComm(Subtree(c.span), NOTHING);
  }

  lemma CloseSpanMoves(mid: OpenSpans, span: SpanBuilder)
    requires Chain(mid)
    ensures var (after, closed) := CloseSpan(mid, span);
            && Chain(after) && Own(closed.span) == Own(span)
            && Add(Add(Subtree(span), Own(span)), SumOpen(mid.spans, mid.order))
               == Add(if closed.credited then NOTHING else Subtree(closed.span), SumOpen(after.spans, after.order))
  {
    CreditKeepsChain(mid, span);
    var (after, closed) := CloseSpan(mid, span);
    if closed.credited {
      CreditMoves(mid.spans, mid.order, span.parentSpanId.value, SeedSubtree(span));
      AddComm(SumOpen(after.spans, after.order), NOTHING);
    }
  }

  lemma CreditMoves(spans: map<Id, SpanBuilder>, order: seq<Id>, p: Id, child: SpanBuilder)
    requires Distinct(order) && p in order && forall id | id in order :: id in spans
    ensures SumOpen(spans[p := AddChild(spans[p], child)], order) == Add(Subtree(child), SumOpen(spans, order))
  {
    var next := spans[p := AddChild(spans[p], child)];
    var i :| 0 <= i < |order| && order[i] == p;
    SumSplit(spans, order, i);
    SumSplit(next, order, i);
    WithoutElements(order, i);
    var w := Without(order, i);
    SumSame(spans, next, w);
    hide Without, SumOpen;
    var t, s, rest := Subtree(child), Subtree(spans[p]), SumOpen(spans, w);
    assert Subtree(next[p]) == Add(s, t);
    AddComm(s, t);
    AddAssoc(t, s, rest);
  }

  lemma {:induction false} FlushMoves(st: OpenSpans)
    requires Chain(st)
    ensures Add(SumOpen(st.spans, st.order), SumOwn(FlushRecords(st))) == SumUncredited(FlushRecords(st))
    decreases |st.order|
  {
    if st.order == [] {
      return;
    }
    var n := |st.order| - 1;
    var id := st.order[n];
    var rest := OpenSpans(st.order[..n], st.spans - {id});
    PopKeepsChain(st);
    SpanIdOf(st, n);
    hide Chain, SumOpen, Add, SumOwn, SumUncredited;
    var first, later := Closed(SeedSubtree(st.spans[id]), false), FlushRecords(rest);
    assert FlushRecords(st) == [first] + later;
    assert Subtree(first.span) == Add(Subtree(st.spans[id]), Own(st.spans[id])) && Own(first.span) == Own(st.spans[id]);
    hide FlushRecords, SeedSubtree;
    FlushMoves(rest);
    PopMoves(st, rest);
    FlushSums(Subtree(st.spans[id]), Own(st.spans[id]), SumOpen(rest.spans, rest.order), SumOwn(later), SumUncredited(later));
    SumAppend([first], later);
    SumOne(first);
  }

  lemma PopMoves(st: OpenSpans, rest: OpenSpans)
    requires Chain(st) && st.order != []
    requires var n := |st.order| - 1; rest == OpenSpans(st.order[..n], st.spans - {st.order[n]}) && Chain(rest)
    ensures var id := st.order[|st.order| - 1];
            SumOpen(st.spans, st.order) == Add(Subtree(st.spans[id]), SumOpen(rest.spans, rest.order))
  {
    hide InPlace;
    var n := |st.order| - 1;
    SumSplit(st.spans, st.order, n);
    assert Without(st.order, n) == rest.order;
    SumSame(st.spans, rest.spans, rest.order);
  }

  lemma FlushSums(a: Totals, own: Totals, rest: Totals, owns: Totals, uncredited: Totals)
    requires Add(rest, owns) == uncredited
    ensures Add(Add(a, rest), Add(own, owns)) == Add(Add(a, own), uncredited)
  {
    AddAssoc(a, rest, Add(own, owns));
    AddAssoc(rest, own, owns);
    AddComm(rest, own);
    AddAssoc(own, rest, owns);
    AddAssoc(a, own, uncredited);
  }

  lemma PopKeepsChain(st: OpenSpans)
    requires Chain(st) && st.order != []
    ensures var n := |st.order| - 1; Chain(OpenSpans(st.order[..n], st.spans - {st.order[n]}))
  {
    var n := |st.order| - 1;
    var rest := OpenSpans(st.order[..n], st.spans - {st.order[n]});
    assert st.order == rest.order + [st.order[n]];
    forall i | 0 <= i < n ensures InPlace(rest, i) {
      assert InPlace(st, i);
    }
  }

  lemma StepMoves(st: OpenSpans, step: Step)
    requires Chain(st)
    ensures Chain(Apply(st, step).0)
    ensures Moves(st, Apply(st, step).0, Apply(st, step).1)
  {
    StepKeepsChain(st, step);
    hide Chain, Close, Open, SumOpen;
    match step
    case Call(id, usage) =>
      OpenMoves(st, id, usage);
      AddComm(SumOpen(st.spans, st.order), NOTHING);
    case PreHook(id) =>
      OpenMoves(st, id, NO_USAGE);
      AddComm(SumOpen(st.spans, st.order), NOTHING);
    case PostHook(id) =>
      OpenMoves(st, id, NO_USAGE);
      CloseMoves(Open(st, id, NO_USAGE), id);
    case Result(id, usage) =>
      if id in st.spans {
        TouchIsOpen(st, id, usage);
        OpenMoves(st, id, usage);
        CloseMoves(Touch(st, id, usage), id);
      }
      AddComm(SumOpen(st.spans, st.order), NOTHING);
    case Expire(id) =>
      CloseMoves(st, id);
    case Flush =>
      FlushMoves(st);
  }

  /** Main result: in any close order, and with nothing added or lost, the own
      totals of all closed spans are the totals of the records that closed
      without an open parent plus the amounts held by the spans still open. */
  lemma {:induction false} RunConserves(steps: seq<Step>)
    ensures Chain(RunSteps(steps).0)
    ensures Conserved(RunSteps(steps).0, RunSteps(steps).1)
  {
    RunKeepsChain(steps);
    if steps == [] {
      return;
    }
    var (st, log) := RunSteps(steps[..|steps| - 1]);
    RunConserves(steps[..|steps| - 1]);
    StepMoves(st, steps[|steps| - 1]);
    var (after, closed) := Apply(st, steps[|steps| - 1]);
    hide Apply, SumOpen, Chain, SumOwn, SumUncredited, Add;
    SumAppend(log, closed);
    var u, o, v, p := SumUncredited(log), SumOpen(st.spans, st.order), SumUncredited(closed), SumOpen(after.spans, after.order);
    AddAssoc(u, o, SumOwn(closed));
    AddAssoc(u, v, p);
  }
}
