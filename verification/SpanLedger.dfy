/** Where each total comes from, and how a session flush differs from closing
    the spans one by one. */
module SpanLedger {
  import opened Sequences
  import opened Options
  import opened SpanProjector
  import opened SpanChain

  // ---- What a log of records says of each total ----

  /** What a record adds to the total of `id`. */
  function Share(c: Closed, id: Id): Totals {
    if c.credited && c.span.parentSpanId == Some(id) then Subtree(c.span) else NOTHING
  }

  /** Totals of the records that closed into `id` since `id` was last closed. */
  function Pending(log: seq<Closed>, id: Id): Totals {
    if log == [] then NOTHING
    else
      var last := log[|log| - 1];
      if last.span.spanId == id then NOTHING else Add(Pending(log[..|log| - 1], id), Share(last, id))
  }

  /** The records behind that total, at every level. */
  function PartsOf(log: seq<Closed>, id: Id): seq<Closed> {
    if log == [] then []
    else
      var before, last := log[..|log| - 1], log[|log| - 1];
      if last.span.spanId == id then []
      else
        PartsOf(before, id)
        + if last.credited && last.span.parentSpanId == Some(id) then PartsOf(before, last.span.spanId) + [last] else []
  }

  /** Record `r` and all records that closed into its span. */
  function RecordParts(log: seq<Closed>, r: nat): seq<Closed>
    requires r < |log|
  {
    PartsOf(log[..r], log[r].span.spanId) + [log[r]]
  }

  /** Each open span holds what closed into it, and nothing is kept for others. */
  ghost predicate Accounts(st: OpenSpans, log: seq<Closed>) {
    forall id :: Pending(log, id) == if id in st.spans then Subtree(st.spans[id]) else NOTHING
  }

  ghost predicate RecordAccounts(log: seq<Closed>, r: nat)
    requires r < |log|
  {
    Subtree(log[r].span) == Add(Pending(log[..r], log[r].span.spanId), Own(log[r].span))
  }

  ghost predicate RecordsAccount(log: seq<Closed>) {
    forall r | 0 <= r < |log| :: RecordAccounts(log, r)
  }

  lemma PendingNext(log: seq<Closed>, c: Closed, id: Id)
    ensures Pending(log + [c], id) == if c.span.spanId == id then NOTHING else Add(Pending(log, id), Share(c, id))
  {
    assert (log + [c])[..|log|] == log;
  }

  lemma RecordsNext(log: seq<Closed>, c: Closed)
    requires RecordsAccount(log) && Subtree(c.span) == Add(Pending(log, c.span.spanId), Own(c.span))
    ensures RecordsAccount(log + [c])
  {
    var all := log + [c];
    hide Pending;
    forall r | 0 <= r < |all| ensures RecordAccounts(all, r) {
      if r < |log| {
        assert RecordAccounts(log, r);
        assert all[..r] == log[..r];
      } else {
        assert all[..r] == log;
      }
    }
  }

  lemma OpenAccounts(st: OpenSpans, log: seq<Closed>, id: Id, usage: Usage)
    requires Accounts(st, log)
    ensures Accounts(Open(st, id, usage), log)
  {
    hide Pending, OpenParent;
    var after := Open(st, id, usage);
    forall x ensures Pending(log, x) == if x in after.spans then Subtree(after.spans[x]) else NOTHING {
    }
  }

  /** One more record: its span leaves, and its share goes where it is open. */
  lemma AccountsNext(st: OpenSpans, log: seq<Closed>, c: Closed, after: OpenSpans)
    requires Accounts(st, log) && c.span.spanId in st.spans
    requires after.spans.Keys == st.spans.Keys - {c.span.spanId}
    requires forall x | x in after.spans :: Subtree(after.spans[x]) == Add(Subtree(st.spans[x]), Share(c, x))
    requires forall x | x !in after.spans :: Share(c, x) == NOTHING
    ensures Accounts(after, log + [c])
  {
    hide Add, Share, Subtree, Pending;
    forall x ensures Pending(log + [c], x) == if x in after.spans then Subtree(after.spans[x]) else NOTHING {
      PendingNext(log, c, x);
      AddComm(NOTHING, NOTHING);
    }
  }

  lemma ShareOf(mid: OpenSpans, b: SpanBuilder)
    ensures var (after, c) := CloseSpan(mid, b);
            && after.spans.Keys == mid.spans.Keys
            && (forall x | x in mid.spans :: Subtree(after.spans[x]) == Add(Subtree(mid.spans[x]), Share(c, x)))
            && (forall x | x !in mid.spans :: Share(c, x) == NOTHING)
  {
    forall x | x in mid.spans ensures Add(Subtree(mid.spans[x]), NOTHING) == Subtree(mid.spans[x]) {
      AddComm(Subtree(mid.spans[x]), NOTHING);
    }
    hide Add;
  }

  /** A close records what was pending for its span and the span itself, and hands
      the total to the parent if that is open. */
  lemma CloseAccounts(st: OpenSpans, log: seq<Closed>, id: Id)
    requires Chain(st) && Accounts(st, log) && RecordsAccount(log)
    ensures Accounts(Close(st, id).0, log + Close(st, id).1)
    ensures RecordsAccount(log + Close(st, id).1)
  {
    if id !in st.spans {
      assert log + [] == log;
      return;
    }
    var k := RemoveKeepsChain(st, id);
    SpanIdOf(st, k);
    RemovedKeys(st, id);
    var b, mid := st.spans[id], RemoveOpen(st, id);
    hide RemoveOpen, Chain, Add, Pending, Share;
    var (after, c) := CloseSpan(mid, b);
    RecordsNext(log, c);
    ShareOf(mid, b);
    hide CloseSpan;
    AccountsNext(st, log, c, after);
  }

  lemma PopAccounts(st: OpenSpans, log: seq<Closed>, id: Id, rest: OpenSpans)
    requires Accounts(st, log) && RecordsAccount(log) && id in st.spans && st.spans[id].spanId == id
    requires rest.spans == st.spans - {id}
    ensures var c := Closed(SeedSubtree(st.spans[id]), false);
            Accounts(rest, log + [c]) && RecordsAccount(log + [c])
  {
    var c := Closed(SeedSubtree(st.spans[id]), false);
    forall x | x in rest.spans ensures Subtree(rest.spans[x]) == Add(Subtree(st.spans[x]), Share(c, x)) {
      AddComm(Subtree(st.spans[x]), NOTHING);
    }
    RecordsNext(log, c);
    AccountsNext(st, log, c, rest);
  }

  lemma {:induction false} FlushAccounts(st: OpenSpans, log: seq<Closed>)
    requires Chain(st) && Accounts(st, log) && RecordsAccount(log)
    ensures Accounts(OpenSpans([], map[]), log + FlushRecords(st))
    ensures RecordsAccount(log + FlushRecords(st))
    decreases |st.order|
  {
    if st.order == [] {
      assert log + FlushRecords(st) == log;
      return;
    }
    var n := |st.order| - 1;
    var id := st.order[n];
    var rest := OpenSpans(st.order[..n], st.spans - {id});
    var c := Closed(SeedSubtree(st.spans[id]), false);
    PopKeepsChain(st);
    SpanIdOf(st, n);
    assert FlushRecords(st) == [c] + FlushRecords(rest);
    hide Chain, FlushRecords, Accounts, RecordsAccount, SeedSubtree;
    PopAccounts(st, log, id, rest);
    FlushAccounts(rest, log + [c]);
    assert log + ([c] + FlushRecords(rest)) == (log + [c]) + FlushRecords(rest);
  }

  lemma StepAccounts(st: OpenSpans, log: seq<Closed>, step: Step)
    requires Chain(st) && Accounts(st, log) && RecordsAccount(log)
    ensures Accounts(Apply(st, step).0, log + Apply(st, step).1)
    ensures RecordsAccount(log + Apply(st, step).1)
  {
    hide Accounts, RecordsAccount, Chain, Open, Close;
    assert log + [] == log;
    match step
    case Call(id, usage) => OpenAccounts(st, log, id, usage);
    case PreHook(id) => OpenAccounts(st, log, id, NO_USAGE);
    case PostHook(id) =>
      OpenAccounts(st, log, id, NO_USAGE);
      OpenKeepsChain(st, id, NO_USAGE);
      CloseAccounts(Open(st, id, NO_USAGE), log, id);
    case Result(id, usage) =>
      if id in st.spans {
        TouchIsOpen(st, id, usage);
        OpenAccounts(st, log, id, usage);
        OpenKeepsChain(st, id, usage);
        CloseAccounts(Touch(st, id, usage), log, id);
      }
    case Expire(id) => CloseAccounts(st, log, id);
    case Flush => FlushAccounts(st, log);
  }

  lemma {:induction false} RunAccounts(steps: seq<Step>)
    ensures Accounts(RunSteps(steps).0, RunSteps(steps).1)
    ensures RecordsAccount(RunSteps(steps).1)
  {
    if steps != [] {
      var before := steps[..|steps| - 1];
      RunAccounts(before);
      RunKeepsChain(before);
      hide Accounts, RecordsAccount, Chain, Apply;
      StepAccounts(RunSteps(before).0, RunSteps(before).1, steps[|steps| - 1]);
    }
  }

  // ---- Totals are sums of own totals ----

  lemma {:induction false} SumIsNothing(parts: seq<Closed>)
    ensures SumOwn(parts).cost.None? <==> forall p | p in parts :: Own(p.span).cost.None?
    ensures SumOwn(parts).tokens.None? <==> forall p | p in parts :: Own(p.span).tokens.None?
  {
    if parts != [] {
      assert parts == [parts[0]] + parts[1..];
      SumIsNothing(parts[1..]);
    }
  }

  lemma {:induction false} PendingIsSum(log: seq<Closed>, id: Id)
    requires RecordsAccount(log)
    ensures Pending(log, id) == SumOwn(PartsOf(log, id))
    decreases |log|
  {
    if log == [] || log[|log| - 1].span.spanId == id {
      return;
    }
    var n := |log| - 1;
    var before, last := log[..n], log[n];
    forall r | 0 <= r < n ensures RecordAccounts(before, r) {
      assert RecordAccounts(log, r);
      assert before[..r] == log[..r];
    }
    assert RecordAccounts(log, n);
    hide SumOwn, Add;
    PendingIsSum(before, id);
    PendingIsSum(before, last.span.spanId);
    SumOne(last);
    AddComm(Pending(before, id), NOTHING);
    var mine, inner := PartsOf(before, id), PartsOf(before, last.span.spanId);
    SumAppend(inner, [last]);
    SumAppend(mine, inner + [last]);
    assert mine + [] == mine;
  }

  /** Main result: in every run, with spans closing in any order, the total of
      each record is the sum of the own totals of the spans that closed into it,
      itself included; so it is absent exactly when none of them had anything to
      count. */
  lemma CloseExplained(steps: seq<Step>, r: nat)
    requires r < |RunSteps(steps).1|
    ensures var log := RunSteps(steps).1;
            var parts := RecordParts(log, r);
            && Subtree(log[r].span) == SumOwn(parts)
            && (log[r].span.subtreeCostUsdE6.None? <==> forall p | p in parts :: p.span.costUsdE6.None?)
            && (log[r].span.subtreeTokenCount.None? <==> forall p | p in parts :: p.span.tokensIn.None?)
  {
    RunAccounts(steps);
    var log := RunSteps(steps).1;
    hide RunSteps, Pending, PartsOf;
    var before := log[..r];
    forall k | 0 <= k < r ensures RecordAccounts(before, k) {
      assert RecordAccounts(log, k);
      assert before[..k] == log[..k];
    }
    assert RecordAccounts(log, r);
    PendingIsSum(before, log[r].span.spanId);
    SumOne(log[r]);
    SumAppend(PartsOf(before, log[r].span.spanId), [log[r]]);
    SumIsNothing(RecordParts(log, r));
    hide SumOwn, Add;
  }

  /** The same for the spans still open. */
  lemma OpenExplained(steps: seq<Step>, id: Id)
    requires id in RunSteps(steps).0.spans
    ensures var (st, log) := RunSteps(steps);
            Subtree(st.spans[id]) == SumOwn(PartsOf(log, id))
  {
    RunAccounts(steps);
    hide RunSteps;
    PendingIsSum(RunSteps(steps).1, id);
  }

  lemma RemovedKeys(st: OpenSpans, id: Id)
    requires Chain(st) && id in st.spans
    ensures RemoveOpen(st, id).spans.Keys == st.spans.Keys - {id}
  {
    var k := RemoveEffect(st, id);
  }

  // ---- Flushing a session ----

  /** Closing the top of the stack until nothing is open. */
  function CloseAll(st: OpenSpans, n: nat): seq<Closed>
    decreases n
  {
    if n == 0 || st.order == [] then []
    else
      var (after, closed) := Close(st, st.order[|st.order| - 1]);
      closed + CloseAll(after, n - 1)
  }

  /** The recorded spans. */
  function Recorded(log: seq<Closed>): seq<SpanBuilder> {
    seq(|log|, i requires 0 <= i < |log| => log[i].span)
  }

  ghost predicate AllOpen(st: OpenSpans) {
    forall i | 0 <= i < |st.order| :: st.order[i] in st.spans
  }

  /** What the span at position `i` has when it closes with nothing added. */
  ghost function Alone(st: OpenSpans, i: nat): Totals
    requires AllOpen(st) && i < |st.order|
  {
    Add(Subtree(st.spans[st.order[i]]), Own(st.spans[st.order[i]]))
  }

  /** What it has when all spans above it closed into it first. */
  ghost function Rolled(st: OpenSpans, i: nat): Totals
    requires AllOpen(st) && i < |st.order|
    decreases |st.order| - i
  {
    if i == |st.order| - 1 then Alone(st, i) else Add(Alone(st, i), Rolled(st, i + 1))
  }

  ghost function AloneAt(st: OpenSpans, i: nat): SpanBuilder
    requires AllOpen(st) && i < |st.order|
  {
    WithSubtree(st.spans[st.order[i]], Alone(st, i))
  }

  ghost function RolledAt(st: OpenSpans, i: nat): SpanBuilder
    requires AllOpen(st) && i < |st.order|
  {
    WithSubtree(st.spans[st.order[i]], Rolled(st, i))
  }

  /** The spans below position `k`, newest first. */
  ghost function AloneBelow(st: OpenSpans, k: nat): seq<SpanBuilder>
    requires AllOpen(st) && k <= |st.order|
  {
    if k == 0 then [] else [AloneAt(st, k - 1)] + AloneBelow(st, k - 1)
  }

  ghost function RolledBelow(st: OpenSpans, k: nat): seq<SpanBuilder>
    requires AllOpen(st) && k <= |st.order|
  {
    if k == 0 then [] else [RolledAt(st, k - 1)] + RolledBelow(st, k - 1)
  }

  /** The top is gone, and its total went to the span below. */
  ghost predicate TopGone(st: OpenSpans, after: OpenSpans)
    requires AllOpen(st) && st.order != []
  {
    var n := |st.order| - 1;
    && AllOpen(after) && after.order == st.order[..n]
    && (forall i | 0 <= i < n - 1 :: after.spans[after.order[i]] == st.spans[st.order[i]])
    && (n > 0 ==> var b := st.spans[st.order[n - 1]];
          after.spans[after.order[n - 1]] == WithSubtree(b, Add(Subtree(b), Alone(st, n))))
  }

  lemma TopCloses(st: OpenSpans)
    requires Chain(st) && st.order != []
    ensures var (after, closed) := Close(st, st.order[|st.order| - 1]);
            TopGone(st, after) && |closed| == 1 && closed[0].span == AloneAt(st, |st.order| - 1)
  {
    var n := |st.order| - 1;
    var id := st.order[n];
    TopRemoved(st);
    assert InPlace(st, n);
    if n > 0 {
      assert InPlace(st, n - 1);
    }
    hide RemoveOpen, InPlace;
    TopCredits(st, OpenSpans(st.order[..n], st.spans - {id}));
  }

  lemma TopCredits(st: OpenSpans, mid: OpenSpans)
    requires AllOpen(st) && Distinct(st.order) && st.order != []
    requires var n := |st.order| - 1; mid == OpenSpans(st.order[..n], st.spans - {st.order[n]})
    requires var n := |st.order| - 1;
             st.spans[st.order[n]].parentSpanId == if n == 0 then None else Some(st.order[n - 1])
    ensures var (after, c) := CloseSpan(mid, st.spans[st.order[|st.order| - 1]]);
            TopGone(st, after) && c.span == AloneAt(st, |st.order| - 1)
  {
    var n := |st.order| - 1;
    forall i | 0 <= i < n ensures st.order[i] in mid.spans && mid.spans[st.order[i]] == st.spans[st.order[i]] {
    }
    hide Add, Own;
  }

  lemma TopRemoved(st: OpenSpans)
    requires Chain(st) && st.order != []
    ensures var n := |st.order| - 1;
            RemoveOpen(st, st.order[n]) == OpenSpans(st.order[..n], st.spans - {st.order[n]})
  {
    var n := |st.order| - 1;
    var id := st.order[n];
    var k := RemoveIs(st, id);
    assert Without(st.order, n) == st.order[..n];
  }

  /** A flush credits nothing, so a record misses what its open children cost. */
  lemma {:induction false} FlushCreditsNothing(st: OpenSpans)
    requires Chain(st)
    ensures |FlushRecords(st)| == |st.order|
    ensures forall r | r in FlushRecords(st) :: !r.credited
    decreases |st.order|
  {
    if st.order != [] {
      var n := |st.order| - 1;
      PopKeepsChain(st);
      SpanIdOf(st, n);
      FlushCreditsNothing(OpenSpans(st.order[..n], st.spans - {st.order[n]}));
    }
  }

  lemma {:induction false} AloneAlike(st: OpenSpans, rest: OpenSpans, k: nat)
    requires AllOpen(st) && AllOpen(rest) && k <= |st.order| && k <= |rest.order|
    requires forall i | 0 <= i < k :: AloneAt(rest, i) == AloneAt(st, i)
    ensures AloneBelow(rest, k) == AloneBelow(st, k)
  {
    if k > 0 {
      AloneAlike(st, rest, k - 1);
    }
  }

  lemma {:induction false} RolledAlike(st: OpenSpans, rest: OpenSpans, k: nat)
    requires AllOpen(st) && AllOpen(rest) && k <= |st.order| && k <= |rest.order|
    requires forall i | 0 <= i < k :: RolledAt(rest, i) == RolledAt(st, i)
    ensures RolledBelow(rest, k) == RolledBelow(st, k)
  {
    if k > 0 {
      RolledAlike(st, rest, k - 1);
    }
  }

  lemma RecordedHead(c: Closed, later: seq<Closed>)
    ensures Recorded([c] + later) == [c.span] + Recorded(later)
  {
  }

  lemma {:induction false} FlushRecordsAre(st: OpenSpans)
    requires Chain(st)
    ensures Recorded(FlushRecords(st)) == AloneBelow(st, |st.order|)
    decreases |st.order|
  {
    if st.order != [] {
      var n := |st.order| - 1;
      var rest := OpenSpans(st.order[..n], st.spans - {st.order[n]});
      PopKeepsChain(st);
      var c := Closed(SeedSubtree(st.spans[st.order[n]]), false);
      assert FlushRecords(st) == [c] + FlushRecords(rest);
      assert c.span == AloneAt(st, n);
      forall i | 0 <= i < n ensures AloneAt(rest, i) == AloneAt(st, i) {
        assert rest.order[i] == st.order[i] && st.order[i] != st.order[n];
      }
      hide FlushRecords, AloneAt, Recorded, Chain, SeedSubtree;
      FlushRecordsAre(rest);
      RecordedHead(c, FlushRecords(rest));
      AloneAlike(st, rest, n);
    }
  }

  /** After the top has closed the spans below still roll up to the same. */
  lemma {:induction false} RolledAfterTop(st: OpenSpans, after: OpenSpans, i: nat)
    requires AllOpen(st) && st.order != [] && TopGone(st, after) && i < |st.order| - 1
    ensures Rolled(after, i) == Rolled(st, i) && RolledAt(after, i) == RolledAt(st, i)
    decreases |st.order| - i
  {
    var n := |st.order| - 1;
    var b := st.spans[st.order[i]];
    if i == n - 1 {
      var top := Alone(st, n);
      AddAssoc(Subtree(b), top, Own(b));
      AddComm(top, Own(b));
      AddAssoc(Subtree(b), Own(b), top);
      assert Rolled(st, n) == top && Rolled(after, i) == Alone(after, i);
      hide Add, Own;
    } else {
      RolledAfterTop(st, after, i + 1);
      assert Alone(after, i) == Alone(st, i);
      hide Add, Alone;
    }
  }

  lemma CloseAllHead(st: OpenSpans)
    requires st.order != [] && |Close(st, st.order[|st.order| - 1]).1| == 1
    ensures var n := |st.order| - 1;
            var (after, closed) := Close(st, st.order[n]);
            CloseAll(st, n + 1) == [closed[0]] + CloseAll(after, n)
  {
    hide Close;
    var closed := Close(st, st.order[|st.order| - 1]).1;
    assert closed == [closed[0]];
  }

  lemma {:induction false} CloseAllRecordsAre(st: OpenSpans)
    requires Chain(st)
    ensures Recorded(CloseAll(st, |st.order|)) == RolledBelow(st, |st.order|)
    decreases |st.order|
  {
    if st.order == [] {
      assert Recorded(CloseAll(st, 0)) == [];
      return;
    }
    ChainIsOpen(st);
    hide Chain, Close, CloseAll, Recorded, RolledBelow, TopGone, AloneAt;
    var after := Close(st, st.order[|st.order| - 1]).0;
    CloseKeepsChain(st, st.order[|st.order| - 1]);
    TopCloses(st);
    GoneShape(st, after);
    CloseAllRecordsAre(after);
    CloseAllRecordsNext(st);
  }

  lemma ChainIsOpen(st: OpenSpans)
    requires Chain(st)
    ensures AllOpen(st)
  {
  }

  lemma CloseAllRecordsNext(st: OpenSpans)
    requires AllOpen(st) && st.order != []
    requires var n := |st.order| - 1;
             var (after, closed) := Close(st, st.order[n]);
             && TopGone(st, after) && |closed| == 1 && closed[0].span == AloneAt(st, n)
             && Recorded(CloseAll(after, n)) == RolledBelow(after, n)
    ensures Recorded(CloseAll(st, |st.order|)) == RolledBelow(st, |st.order|)
  {
    var n := |st.order| - 1;
    var (after, closed) := Close(st, st.order[n]);
    CloseAllHead(st);
    RecordedHead(closed[0], CloseAll(after, n));
    RolledBelowTop(st, after);
    assert RolledAt(st, n) == AloneAt(st, n);
    hide Close, CloseAll, Recorded, TopGone, RolledAt, AloneAt;
  }

  lemma RolledBelowTop(st: OpenSpans, after: OpenSpans)
    requires AllOpen(st) && st.order != [] && TopGone(st, after)
    ensures RolledBelow(after, |st.order| - 1) == RolledBelow(st, |st.order| - 1)
  {
    hide RolledAt, TopGone;
    var n := |st.order| - 1;
    assert AllOpen(after) && after.order == st.order[..n] by { GoneShape(st, after); }
    forall i | 0 <= i < n ensures RolledAt(after, i) == RolledAt(st, i) {
      RolledAfterTop(st, after, i);
    }
    RolledAlike(st, after, n);
  }

  lemma GoneShape(st: OpenSpans, after: OpenSpans)
    requires AllOpen(st) && st.order != [] && TopGone(st, after)
    ensures AllOpen(after) && after.order == st.order[..|st.order| - 1]
  {
  }

  /** No span adds anything to the one below it. */
  ghost predicate NothingToRoll(st: OpenSpans)
    requires AllOpen(st)
  {
    forall i | 0 <= i < |st.order| - 1 :: Add(Alone(st, i), Alone(st, i + 1)) == Alone(st, i)
  }

  lemma {:induction false} RolledAlone(st: OpenSpans, i: nat)
    requires AllOpen(st) && NothingToRoll(st) && i < |st.order|
    ensures Rolled(st, i) == Alone(st, i)
    decreases |st.order| - i
  {
    hide Alone, Add;
    if i < |st.order| - 1 {
      RolledAlone(st, i + 1);
    }
  }

  lemma {:induction false} BelowAlike(st: OpenSpans, k: nat)
    requires AllOpen(st) && k <= |st.order|
    ensures AloneBelow(st, k) == RolledBelow(st, k) <==> forall i | 0 <= i < k :: Alone(st, i) == Rolled(st, i)
  {
    if k > 0 {
      BelowAlike(st, k - 1);
      SameTotals(st.spans[st.order[k - 1]], Alone(st, k - 1), Rolled(st, k - 1));
      var a, b := AloneBelow(st, k - 1), RolledBelow(st, k - 1);
      assert AloneBelow(st, k) == [AloneAt(st, k - 1)] + a && RolledBelow(st, k) == [RolledAt(st, k - 1)] + b;
      hide Alone, Rolled, WithSubtree, AloneBelow, RolledBelow;
      SameHeads(AloneAt(st, k - 1), a, RolledAt(st, k - 1), b);
    }
  }

  lemma SameHeads(x: SpanBuilder, a: seq<SpanBuilder>, y: SpanBuilder, b: seq<SpanBuilder>)
    ensures [x] + a == [y] + b <==> x == y && a == b
  {
    assert ([x] + a)[1..] == a && ([y] + b)[1..] == b;
    assert ([x] + a)[0] == x && ([y] + b)[0] == y;
  }

  lemma SameTotals(b: SpanBuilder, x: Totals, y: Totals)
    ensures WithSubtree(b, x) == WithSubtree(b, y) <==> x == y
  {
  }

  /** Main result: flushing a session records the same spans as closing them one by
      one, newest first, if and only if no span has anything to add to the one
      below it. */
  lemma FlushIsCloseAllIff(st: OpenSpans)
    requires Chain(st)
    ensures AllOpen(st)
    ensures Recorded(FlushRecords(st)) == Recorded(CloseAll(st, |st.order|)) <==> NothingToRoll(st)
  {
    var n := |st.order|;
    FlushRecordsAre(st);
    CloseAllRecordsAre(st);
    hide FlushRecords, CloseAll, Recorded, Alone, Add, AloneBelow, RolledBelow;
    BelowAlike(st, n);
    if forall i | 0 <= i < n :: Alone(st, i) == Rolled(st, i) {
      forall i | 0 <= i < n - 1 ensures Add(Alone(st, i), Alone(st, i + 1)) == Alone(st, i) {
        assert Alone(st, i + 1) == Rolled(st, i + 1);
      }
    }
    if NothingToRoll(st) {
      forall i | 0 <= i < n ensures Alone(st, i) == Rolled(st, i) {
        RolledAlone(st, i);
      }
    }
  }

  /** Adding changes nothing exactly where the addend is absent, or zero beside a
      present value. */
  lemma AddsNothing(a: Totals, b: Totals)
    ensures Add(a, b) == a
            <==> && (b.cost.None? || (b.cost.value == 0 && a.cost.Some?))
                 && (b.tokens.None? || (b.tokens.value == 0 && a.tokens.Some?))
  {
  }

  /** A parent with cost 1 and its open child with cost 2. */
  function Parent(total: Option<int>): SpanBuilder {
    SpanBuilder("p", None, 0, None, None, Some(1), total, None)
  }

  function Child(total: Option<int>): SpanBuilder {
    SpanBuilder("c", Some("p"), 1, None, None, Some(2), total, None)
  }

  function TwoOpen(): OpenSpans {
    OpenSpans(["p", "c"], map["p" := Parent(None), "c" := Child(None)])
  }

  const TWO_CALLS := [Call("p", Usage(None, None, Some(1))), Call("c", Usage(None, None, Some(2)))]

  lemma TwoOpenIsReachable()
    ensures RunSteps(TWO_CALLS).0 == TwoOpen()
  {
    var first := TWO_CALLS[..1];
    assert first[..0] == [] && first[0] == TWO_CALLS[0];
    assert RunSteps([]).0 == OpenSpans([], map[]);
    assert RunSteps(first).0 == OpenSpans(["p"], map["p" := Parent(None)]);
    assert OpenParent(["p"], map["p" := Parent(None)], "c") == (Some("p"), 1);
  }

  /** The difference in numbers: the parent is recorded with 3 when the spans are
      closed newest first, and with 1 by a flush. */
  lemma FlushLosesChildren()
    ensures CloseAll(TwoOpen(), 2) == [Closed(Child(Some(2)), true), Closed(Parent(Some(3)), false)]
    ensures FlushRecords(TwoOpen()) == [Closed(Child(Some(2)), false), Closed(Parent(Some(1)), false)]
  {
    ClosingBoth();
  }

  lemma ClosingBoth()
    ensures CloseAll(TwoOpen(), 2) == [Closed(Child(Some(2)), true), Closed(Parent(Some(3)), false)]
  {
    hide Close;
    var one := OpenSpans(["p"], map["p" := Parent(Some(2))]);
    ClosingTwo();
    ClosingOne(Parent(Some(2)));
    assert CloseAll(OpenSpans([], map[]), 0) == [];
    assert CloseAll(one, 1) == [Closed(SeedSubtree(Parent(Some(2))), false)] + [];
    assert TwoOpen().order[1] == "c";
    assert CloseAll(TwoOpen(), 2) == [Closed(Child(Some(2)), true)] + CloseAll(one, 1);
  }

  lemma ClosingTwo()
    ensures Close(TwoOpen(), "c")
            == (OpenSpans(["p"], map["p" := Parent(Some(2))]), [Closed(Child(Some(2)), true)])
  {
    var st := TwoOpen();
    var mid := OpenSpans(["p"], map["p" := Parent(None)]);
    assert st.spans - {"c"} == mid.spans;
    assert Without(st.order, 1) == ["p"];
    assert RemoveOpen(st, "c") == mid;
    hide RemoveOpen;
    var after := map["p" := Parent(None)]["p" := Parent(Some(2))];
    assert after == map["p" := Parent(Some(2))];
    assert SeedSubtree(Child(None)) == Child(Some(2));
    assert CloseSpan(mid, Child(None)) == (OpenSpans(["p"], after), Closed(Child(Some(2)), true));
  }

  lemma ClosingOne(b: SpanBuilder)
    requires b.spanId == "p" && b.parentSpanId == None
    ensures Close(OpenSpans(["p"], map["p" := b]), "p") == (OpenSpans([], map[]), [Closed(SeedSubtree(b), false)])
  {
    var st := OpenSpans(["p"], map["p" := b]);
    assert st.spans - {"p"} == map[];
    assert Without(["p"], 0) == [];
    assert RemoveOpen(st, "p") == OpenSpans([], map[]);
  }
}
