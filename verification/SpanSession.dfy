/** The open spans of a session updated in place, as the projector does it. */
module SpanSession {
  import opened Options
  import opened SpanProjector

  class Session {
    var order: seq<Id>
    var spans: map<Id, SpanBuilder>

    ghost function State(): OpenSpans
      reads this
    {
      OpenSpans(order, spans)
    }

    constructor ()
      ensures State() == OpenSpans([], map[])
    {
      order, spans := [], map[];
    }

    /** `open_parent`: a scan from the top of the stack. */
    method FindOpenParent(id: Id) returns (hierarchy: (Option<Id>, nat))
      ensures hierarchy == OpenParent(order, spans, id)
    {
      var k := |order|;
      assert order[..k] == order;
      while k > 0
        invariant 0 <= k <= |order|
        invariant OpenParent(order, spans, id) == OpenParent(order[..k], spans, id)
      {
        assert order[..k][..k - 1] == order[..k - 1];
        k := k - 1;
        if order[k] != id && order[k] in spans {
          return (Some(order[k]), spans[order[k]].depth + 1);
        }
      }
      return (None, 0);
    }

    /** A tool call or a hook. */
    method OpenSpan(id: Id, usage: Usage)
      modifies this
      ensures State() == Open(old(State()), id, usage)
    {
      if id !in spans {
        var hierarchy := FindOpenParent(id);
        spans := spans[id := NewBuilder(id, hierarchy)];
      }
      spans := spans[id := CopyUsage(spans[id], usage)];
      if id !in order {
        order := order + [id];
      }
    }

    /** `detach_chain`: relink the next span, then lift the depths above. */
    method Detach(span: SpanBuilder)
      modifies this
      ensures State() == DetachChain(old(State()), span)
    {
      var index := LastIndex(order, span.spanId);
      if index == |order| {
        return;
      }
      order := Without(order, index);
      if index < |order| && order[index] in spans {
        spans := spans[order[index] := spans[order[index]].(parentSpanId := span.parentSpanId)];
      }
      ghost var linked := spans;
      for i := index to |order|
        invariant order == Without(old(order), index)
        invariant DepthsDown(linked, order[index..]) == DepthsDown(spans, order[i..])
      {
        assert order[i..][1..] == order[i + 1..];
        if order[i] in spans {
          spans := spans[order[i] := Shallower(spans[order[i]])];
        }
      }
    }

    method Remove(id: Id) returns (span: SpanBuilder)
      requires id in spans
      modifies this
      ensures span == old(spans)[id] && State() == RemoveOpen(old(State()), id)
    {
      span := spans[id];
      spans := spans - {id};
      Detach(span);
    }

    /** `close_span`: seed the totals and pass them to the parent if it is open. */
    method CloseRemoved(span: SpanBuilder) returns (closed: Closed)
      modifies this`spans
      ensures (State(), closed) == CloseSpan(old(State()), span)
    {
      var seeded := SeedSubtree(span);
      match span.parentSpanId
      case None =>
        return Closed(seeded, false);
      case Some(p) =>
        if p !in spans {
          return Closed(seeded, false);
        }
        spans := spans[p := AddChild(spans[p], seeded)];
        return Closed(seeded, true);
    }

    method CloseId(id: Id) returns (closed: seq<Closed>)
      modifies this
      ensures (State(), closed) == Close(old(State()), id)
    {
      if id !in spans {
        return [];
      }
      var span := Remove(id);
      var c := CloseRemoved(span);
      return [c];
    }

    /** `flush_session`: both containers are emptied first, so the closes find no
        parent. */
    method FlushSession() returns (closed: seq<Closed>)
      modifies this
      ensures State() == OpenSpans([], map[]) && closed == FlushRecords(old(State()))
    {
      var ids, taken := order, spans;
      order, spans := [], map[];
      closed := [];
      ghost var whole := FlushRecords(OpenSpans(ids, taken));
      while ids != []
        invariant State() == OpenSpans([], map[])
        invariant whole == closed + FlushRecords(OpenSpans(ids, taken))
        decreases |ids|
      {
        var id := ids[|ids| - 1];
        ghost var rest := FlushRecords(OpenSpans(ids[..|ids| - 1], taken - {id}));
        ids := ids[..|ids| - 1];
        if id in taken {
          var c := CloseRemoved(taken[id]);
          assert closed + ([c] + rest) == (closed + [c]) + rest;
          closed := closed + [c];
        } else {
          assert closed + ([] + rest) == closed + rest;
        }
        taken := taken - {id};
      }
    }

    method ApplyStep(step: Step) returns (closed: seq<Closed>)
      modifies this
      ensures (State(), closed) == Apply(old(State()), step)
    {
      closed := [];
      match step
      case Call(id, usage) =>
        OpenSpan(id, usage);
      case PreHook(id) =>
        OpenSpan(id, NO_USAGE);
      case PostHook(id) =>
        OpenSpan(id, NO_USAGE);
        closed := CloseId(id);
      case Result(id, usage) =>
        if id in spans {
          spans := spans[id := CopyUsage(spans[id], usage)];
          closed := CloseId(id);
        }
      case Expire(id) =>
        closed := CloseId(id);
      case Flush =>
        closed := FlushSession();
    }
  }
}
