/** The flush of `src/sync/engine.rs` in its own form: loops over a store that
    is updated in place, proved against the functions of the other modules. */
module OutboxEngine {
  import opened OutboxModel
  import opened OutboxPost
  import opened OutboxFlush

  /** A row of `sync_outbox`. */
  datatype Stored = Stored(row: Row, sent: bool)

  // ---- The table as a value ----

  /** `SELECT ... WHERE sent = 0 ORDER BY id` of a table kept in id order. */
  function Pending(table: seq<Stored>): seq<Row> {
    if table == [] then []
    else (if table[0].sent then [] else [table[0].row]) + Pending(table[1..])
  }

  function Mark(s: Stored, ids: seq<int>): Stored {
    if s.row.id in ids then Stored(s.row, true) else s
  }

  function MarkAll(table: seq<Stored>, ids: seq<int>): seq<Stored> {
    seq(|table|, i requires 0 <= i < |table| => Mark(table[i], ids))
  }

  ghost predicate IdOrder(table: seq<Stored>) {
    forall i, j | 0 <= i < j < |table| :: table[i].row.id < table[j].row.id
  }

  lemma MarkTwice(table: seq<Stored>, a: seq<int>, b: seq<int>)
    ensures MarkAll(MarkAll(table, a), b) == MarkAll(table, a + b)
  {
  }

  lemma MarkNone(table: seq<Stored>)
    ensures MarkAll(table, []) == table
  {
  }

  /** Marking sets the flag of exactly the given ids, and the pending rows are those
      whose flag is not set. */
  lemma {:induction false} FlagsAre(table: seq<Stored>, ids: seq<int>, i: nat)
    requires i < |table|
    ensures |MarkAll(table, ids)| == |table| && MarkAll(table, ids)[i].row == table[i].row
    ensures MarkAll(table, ids)[i].sent <==> table[i].sent || table[i].row.id in ids
    ensures forall r :: r in Pending(table) <==> exists s | s in table :: s.row == r && !s.sent
  {
    PendingAre(table);
  }

  lemma {:induction false} PendingAre(table: seq<Stored>)
    ensures forall r :: r in Pending(table) <==> exists s | s in table :: s.row == r && !s.sent
  {
    if table != [] {
      PendingAre(table[1..]);
      assert table == [table[0]] + table[1..];
    }
  }

  lemma PendingHead(s: Stored, rest: seq<Stored>)
    ensures Pending([s] + rest) == if s.sent then Pending(rest) else [s.row] + Pending(rest)
  {
    assert ([s] + rest)[1..] == rest;
  }

  lemma {:induction false} PendingIds(table: seq<Stored>, id: int)
    requires forall i | 0 <= i < |table| :: id < table[i].row.id
    ensures id !in Ids(Pending(table))
  {
    if table != [] {
      var rest := table[1..];
      PendingIds(rest, id);
      PendingHead(table[0], rest);
      assert table == [table[0]] + rest;
      RowsCons(table[0].row, Pending(rest));
    }
  }

  lemma {:induction false} MarkAbsent(table: seq<Stored>, id: int, ids: seq<int>)
    requires forall i | 0 <= i < |table| :: id < table[i].row.id
    ensures MarkAll(table, [id] + ids) == MarkAll(table, ids)
  {
  }

  /** Marking the first `k` pending ids takes exactly these rows out of the
      pending list. */
  lemma {:induction false} MarkPrefix(table: seq<Stored>, k: nat)
    requires IdOrder(table) && k <= |Pending(table)|
    ensures Pending(MarkAll(table, Ids(Pending(table)[..k]))) == Pending(table)[k..]
  {
    if table == [] {
      return;
    }
    if k == 0 {
      assert Pending(table)[..0] == [] && Pending(table)[0..] == Pending(table);
      MarkNone(table);
      NoRows();
      return;
    }
    var s, rest := table[0], table[1..];
    assert table == [s] + rest;
    PendingHead(s, rest);
    hide Pending, MarkAll, Ids;
    if s.sent {
      MarkPrefix(rest, k);
      MarkPrefixNext(s, rest, Ids(Pending(rest)[..k]), k);
    } else {
      MarkPrefix(rest, k - 1);
      MarkPrefixTaken(s, rest, k);
    }
  }

  lemma MarkPrefixTaken(s: Stored, rest: seq<Stored>, k: nat)
    requires IdOrder([s] + rest) && !s.sent && 0 < k <= |Pending(rest)| + 1
    requires Pending(MarkAll(rest, Ids(Pending(rest)[..k - 1]))) == Pending(rest)[k - 1..]
    ensures var all := [s.row] + Pending(rest);
            Pending(MarkAll([s] + rest, Ids(all[..k]))) == all[k..]
  {
    hide Pending, MarkAll, Ids;
    var all, before := [s.row] + Pending(rest), Pending(rest)[..k - 1];
    assert all[..k] == [s.row] + before;
    RowsCons(s.row, before);
    var table := [s] + rest;
    forall i | 0 <= i < |rest| ensures s.row.id < rest[i].row.id {
      assert table[0] == s && table[i + 1] == rest[i];
    }
    MarkAbsent(rest, s.row.id, Ids(before));
    MarkPrefixNext(s, rest, [s.row.id] + Ids(before), k - 1);
    assert all[k..] == Pending(rest)[k - 1..];
  }

  lemma MarkPrefixNext(s: Stored, rest: seq<Stored>, ids: seq<int>, k: nat)
    requires Mark(s, ids).sent && k <= |Pending(rest)|
    requires Pending(MarkAll(rest, ids)) == Pending(rest)[k..]
    ensures Pending(MarkAll([s] + rest, ids)) == Pending(rest)[k..]
  {
    assert MarkAll([s] + rest, ids) == [Mark(s, ids)] + MarkAll(rest, ids);
    PendingHead(Mark(s, ids), MarkAll(rest, ids));
  }

  // ---- Packing ----

  function Prepend(ids: seq<int>, items: seq<Item>, p: Packed): Packed {
    match p
    case BadPayload => BadPayload
    case Packed(i, o) => Packed(ids + i, items + o)
  }

  lemma PrependNext(ids: seq<int>, items: seq<Item>, id: int, item: Item, p: Packed)
    ensures Prepend(ids, items, Prepend([id], [item], p)) == Prepend(ids + [id], items + [item], p)
  {
    if p.Packed? {
      assert ids + ([id] + p.ids) == (ids + [id]) + p.ids;
      assert items + ([item] + p.items) == (items + [item]) + p.items;
    }
  }

  method PackBatchPayloads(rows: seq<Row>, cfg: Config, kind: string) returns (p: Packed)
    ensures p == Pack(rows, cfg, kind)
  {
    var ids: seq<int>, out: seq<Item>, bytes := [], [], 0;
    assert Pack(rows, cfg, kind) == Prepend([], [], PackFrom(rows, cfg, kind, 0, 0));
    var maxEv := if cfg.eventsPerBatchMax > 1 then cfg.eventsPerBatchMax else 1;
    for n := 0 to |rows|
      invariant |out| == n == |ids|
      invariant Pack(rows, cfg, kind) == Prepend(ids, out, PackFrom(rows, cfg, kind, n, bytes))
    {
      if rows[n].kind != kind {
        return Packed(ids, out);
      }
      match rows[n].payload
      case Malformed =>
        return BadPayload;
      case Parsed(item, inc) =>
        if |out| >= maxEv {
          return Packed(ids, out);
        }
        if bytes + inc > cfg.maxBodyBytes && out != [] {
          return Packed(ids, out);
        }
        PrependNext(ids, out, rows[n].id, item, PackFrom(rows, cfg, kind, n + 1, bytes + inc));
        bytes := bytes + inc;
        ids := ids + [rows[n].id];
        out := out + [item];
    }
    return Packed(ids, out);
  }

  method MakeBuilt(rows: seq<Row>, cfg: Config, header: Header, kind: string) returns (b: Built)
    ensures b == BuildBatch(rows, cfg, header, kind)
  {
    if kind !in KINDS {
      return Unsendable;
    }
    var p := PackBatchPayloads(rows, cfg, kind);
    match p
    case BadPayload => return BuildFailed;
    case Packed(ids, items) =>
      return if ids == [] then Unsendable else Built(ids, MakeBatch(kind, header, items).value);
  }

  // ---- The engine ----

  /** The loop is at `more` of the run `whole`, after the attempts `done`, none
      of which was committed. */
  ghost predicate Continues(whole: Run, done: seq<Attempt>, more: Run) {
    whole == Run(more.outcome, done + more.log, more.rest) && Marked(done) == []
  }

  lemma ContinuesFirst(whole: Run)
    ensures Continues(whole, [], whole)
  {
    assert [] + whole.log == whole.log;
  }

  lemma ContinuesThen(whole: Run, done: seq<Attempt>, a: Attempt, more: Run)
    requires Continues(whole, done, Then(a, more)) && !a.Committed()
    ensures Continues(whole, done + [a], more)
  {
    assert done + ([a] + more.log) == (done + [a]) + more.log;
    LogAppend(done, [a]);
    MarksOf(a);
  }

  lemma ContinuesLast(whole: Run, start: seq<Attempt>, done: seq<Attempt>, more: Run)
    requires Continues(whole, done, more)
    ensures whole.outcome == more.outcome && whole.rest == more.rest
    ensures start + whole.log == (start + done) + more.log
    ensures Marked(whole.log) == Marked(more.log)
  {
    LogAppend(done, more.log);
    NothingBefore(Marked(more.log));
  }

  /** The same for the flush loop, with the statistics so far. */
  ghost predicate FlushContinues(whole: FlushRun, batches: nat, events: nat, done: seq<Attempt>, more: FlushRun) {
    whole == FlushRun(Plus(Done(batches, events), more.outcome), done + more.log, more.pending, more.rest)
  }

  lemma FlushFirst(whole: FlushRun)
    ensures FlushContinues(whole, 0, 0, [], whole)
  {
    assert [] + whole.log == whole.log;
  }

  lemma FlushNext(whole: FlushRun, batches: nat, events: nat, done: seq<Attempt>,
                  pending: seq<Row>, cfg: Config, header: Header, script: seq<Exchange>, run: Run)
    requires pending != []
    requires FlushContinues(whole, batches, events, done, Flush(pending, cfg, header, script))
    requires var b := BuildBatch(Listed(pending), cfg, header, pending[0].kind);
             b.Built? && run == Post(b.batch, b.ids, script, 0, FIRST_BACKOFF)
    requires |Marked(run.log)| <= |pending|
    ensures var left := pending[|Marked(run.log)|..];
            if run.outcome.Done? then
              FlushContinues(whole, batches + run.outcome.batches, events + run.outcome.events, done + run.log,
                             Flush(left, cfg, header, run.rest))
            else whole == FlushRun(run.outcome, done + run.log, left, run.rest)
    ensures Marked(done + run.log) == Marked(done) + Marked(run.log)
  {
    hide Post, Listed, BuildBatch, Marked, Delivery;
    LogAppend(done, run.log);
    if run.outcome.Done? {
      var b := BuildBatch(Listed(pending), cfg, header, pending[0].kind);
      PostDelivery(b.batch, b.ids, script, 0, FIRST_BACKOFF);
      var more := Flush(pending[|Marked(run.log)|..], cfg, header, run.rest);
      assert done + (run.log + more.log) == (done + run.log) + more.log;
    }
  }

  lemma FlushStops(whole: FlushRun, batches: nat, events: nat, done: seq<Attempt>,
                   pending: seq<Row>, cfg: Config, header: Header, script: seq<Exchange>)
    requires pending != []
    requires FlushContinues(whole, batches, events, done, Flush(pending, cfg, header, script))
    ensures var b := BuildBatch(Listed(pending), cfg, header, pending[0].kind);
            && (b.BuildFailed? ==> whole == FlushRun(Failed(SendError.Payload), done, pending, script))
            && (b.Unsendable? ==> whole == FlushRun(Done(batches, events), done, pending, script))
  {
    hide Post, Listed, BuildBatch, Marked;
    assert done + [] == done;
  }

  lemma MarkOrder(table: seq<Stored>, ids: seq<int>)
    requires IdOrder(table)
    ensures IdOrder(MarkAll(table, ids))
  {
  }

  lemma MarksOf(a: Attempt)
    ensures Marked([a]) == if a.Committed() then a.ids else []
  {
    LogHead(a, []);
  }

  lemma NothingBefore(s: seq<int>)
    ensures [] + s == s
  {
  }

  lemma NoMarks()
    ensures Marked([]) == []
  {
  }

  datatype Round = Ended(sent: Outcome) | Again(attempt: Attempt, failures: nat, backoff: nat)

  class Engine {
    var table: seq<Stored>
    var script: seq<Exchange>
    var log: seq<Attempt>

    constructor (table: seq<Stored>, script: seq<Exchange>)
      ensures this.table == table && this.script == script && log == []
    {
      this.table, this.script, this.log := table, script, [];
    }

    /** `list_outbox_pending(10_000)` over a table kept in id order. */
    method ListOutboxPending() returns (rows: seq<Row>)
      ensures rows == Listed(Pending(table))
    {
      rows := Listed(Pending(table));
    }

    /** `mark_outbox_sent`: one transaction of single-row updates. */
    method MarkOutboxSent(ids: seq<int>)
      modifies this`table
      ensures table == MarkAll(old(table), ids)
    {
      MarkNone(table);
      for i := 0 to |ids|
        invariant table == MarkAll(old(table), ids[..i])
      {
        MarkTwice(old(table), ids[..i], [ids[i]]);
        assert ids[..i] + [ids[i]] == ids[..i + 1];
        table := MarkAll(table, [ids[i]]);
      }
      assert ids[..|ids|] == ids;
    }

    /** One exchange with server and exporters; the delay is recorded. */
    method PostWithFanout(body: Batch, ids: seq<int>, failures: nat, backoff: nat) returns (a: Attempt)
      requires script != []
      modifies this`script, this`log
      ensures a == Attempt(body, ids, old(script)[0], Delay(a.Answer(), failures, backoff))
      ensures script == old(script)[1..] && log == old(log) + [a]
    {
      a := Attempt(body, ids, script[0], 0);
      a := a.(slept := Delay(a.Answer(), failures, backoff));
      script := script[1..];
      log := log + [a];
    }

    /** One round of the retry loop. */
    method PostRound(body: Batch, ids: seq<int>, failures: nat, backoff: nat) returns (r: Round)
      requires |ids| == |body.items| > 0 && script != [] && failures <= MAX_SERVER_FAILURES
      modifies this
      ensures var run := Post(body, ids, old(script), failures, backoff);
              match r
              case Ended(sent) =>
                && sent == run.outcome && script == run.rest && log == old(log) + run.log
                && table == MarkAll(old(table), Marked(run.log))
              case Again(a, f, b) =>
                && f <= MAX_SERVER_FAILURES && !a.Committed()
                && run == Then(a, Post(body, ids, script, f, b))
                && log == old(log) + [a] && |script| < |old(script)| && table == old(table)
      decreases |body.items|, 1
    {
      hide Post, PostHalves, NextBackoff, Settle, MarkAll, Marked, Delay;
      MarkNone(table);
      ghost var step := PostStep(body, ids, script, failures, backoff);
      var a := PostWithFanout(body, ids, failures, backoff);
      assert a == step;
      MarksOf(a);
      match a.Answer() {
        case Accepted | Conflict =>
          var sent := Commit(a);
          return Ended(sent);
        case TooLarge =>
          if |body.items| <= 1 {
            return Ended(Failed(SingleTooLarge));
          }
          LogHead(a, PostHalves(body, ids, script).log);
          NothingBefore(Marked(PostHalves(body, ids, script).log));
          var sent := PostSplit(body, ids);
          return Ended(sent);
        case RateLimited(_) =>
          return Again(a, failures, backoff);
        case ServerError(code) =>
          if failures + 1 > MAX_SERVER_FAILURES {
            return Ended(Failed(Server(code)));
          }
          return Again(a, failures + 1, NextBackoff(backoff));
        case Unauthorized =>
          return Ended(Failed(Denied));
        case ClientError(code) =>
          return Ended(Failed(Client(code)));
        case TransportError =>
          return Ended(Failed(Transport));
      }
    }

    /** The retry loop.  It does exactly what `Post` says: same outcome, same
        attempts, and it marks exactly the ids of the committed attempts. */
    method PostBatchResilient(body: Batch, ids: seq<int>) returns (sent: Outcome)
      requires |ids| == |body.items|
      modifies this
      ensures var run := Post(body, ids, old(script), 0, FIRST_BACKOFF);
              && sent == run.outcome && script == run.rest && log == old(log) + run.log
              && table == MarkAll(old(table), Marked(run.log))
      decreases |body.items|, 2
    {
      hide Post, NextBackoff, MarkAll, Marked, Continues, Then;
      var backoff, failures := FIRST_BACKOFF, 0;
      ghost var whole, start := Post(body, ids, script, 0, FIRST_BACKOFF), log;
      ghost var done: seq<Attempt> := [];
      MarkNone(table);
      ContinuesFirst(whole);
      while true
        invariant failures <= MAX_SERVER_FAILURES
        invariant log == start + done && table == old(table)
        invariant Continues(whole, done, Post(body, ids, script, failures, backoff))
        decreases |script|
      {
        ghost var more := Post(body, ids, script, failures, backoff);
        ContinuesLast(whole, start, done, more);
        if |body.items| == 0 || script == [] {
          PostStops(body, ids, script, failures, backoff);
          NoMarks();
          return if |body.items| == 0 then Done(0, 0) else CutShort;
        }
        var r := PostRound(body, ids, failures, backoff);
        match r {
          case Ended(outcome) =>
            return outcome;
          case Again(a, f, b) =>
            ContinuesThen(whole, done, a, Post(body, ids, script, f, b));
            done, failures, backoff := done + [a], f, b;
        }
      }
    }

    /** After an accepting answer: fan-out result, then mark, then sync state. */
    method Commit(a: Attempt) returns (sent: Outcome)
      requires a.Answer() in {Accepted, Conflict}
      modifies this`table
      ensures sent == Settle(a)
      ensures table == MarkAll(old(table), if a.Committed() then a.ids else [])
    {
      MarkNone(table);
      if !a.exchange.fanOk {
        return Failed(FanOut);
      }
      if a.exchange.store == MarkFails {
        return Failed(StoreWrite);
      }
      MarkOutboxSent(a.ids);
      if a.exchange.store == StateFails {
        return Failed(StoreWrite);
      }
      return Done(1, |a.ids|);
    }

    /** A 413: the two halves, one after the other; an error ends both. */
    method PostSplit(body: Batch, ids: seq<int>) returns (sent: Outcome)
      requires |ids| == |body.items| >= 2
      modifies this
      ensures var run := PostHalves(body, ids, old(script));
              && sent == run.outcome && script == run.rest && log == old(log) + run.log
              && table == MarkAll(old(table), Marked(run.log))
      decreases |body.items|, 0
    {
      hide Post, SplitBatch;
      var mid := |body.items| / 2;
      var (left, right) := SplitBatch(body, mid);
      ghost var first := Post(left, ids[..mid], script, 0, FIRST_BACKOFF);
      var a := PostBatchResilient(left, ids[..mid]);
      if !a.Done? {
        return a;
      }
      ghost var second := Post(right, ids[mid..], script, 0, FIRST_BACKOFF);
      var b := PostBatchResilient(right, ids[mid..]);
      LogAppend(first.log, second.log);
      MarkTwice(old(table), Marked(first.log), Marked(second.log));
      if !b.Done? {
        return b;
      }
      return Done(a.batches + b.batches, a.events + b.events);
    }

    /** One iteration of the flush loop: build a batch for the kind at the head
        and post it. */
    method FlushHead(cfg: Config, header: Header) returns (built: Built, sent: Outcome)
      requires IdOrder(table) && Pending(table) != []
      modifies this
      ensures built == BuildBatch(Listed(Pending(old(table))), cfg, header, Pending(old(table))[0].kind)
      ensures !built.Built? ==> table == old(table) && log == old(log) && script == old(script)
      ensures built.Built? ==>
                var run := Post(built.batch, built.ids, old(script), 0, FIRST_BACKOFF);
                var k := |Marked(run.log)|;
                && sent == run.outcome && script == run.rest && log == old(log) + run.log
                && table == MarkAll(old(table), Marked(run.log)) && IdOrder(table)
                && k <= |Pending(old(table))| && Pending(table) == Pending(old(table))[k..]
                && (sent.Done? ==> k > 0)
    {
      hide Post, Delivery, BuildBatch, Pending, MarkAll, Marked, IdOrder;
      ghost var pending := Pending(table);
      var rows := ListOutboxPending();
      assert rows[0] == pending[0];
      built := MakeBuilt(rows, cfg, header, rows[0].kind);
      sent := Done(0, 0);
      if built.Built? {
        hide Listed;
        ghost var run := Post(built.batch, built.ids, script, 0, FIRST_BACKOFF);
        PostDelivery(built.batch, built.ids, script, 0, FIRST_BACKOFF);
        FlushPost(pending, cfg, header, run);
        MarkPrefix(table, |Marked(run.log)|);
        MarkOrder(table, Marked(run.log));
        sent := PostBatchResilient(built.batch, built.ids);
      }
    }

    /** `flush_outbox_once`.  Without an endpoint nothing happens; else the table
        ends with exactly the delivered rows marked, and the pending list is what
        `FlushOnce` leaves. */
    method FlushOutboxOnce(cfg: Config, header: Header) returns (stats: Outcome)
      requires IdOrder(table)
      modifies this
      ensures var run := FlushOnce(Pending(old(table)), cfg, header, old(script));
              && stats == run.outcome && script == run.rest && log == old(log) + run.log
              && Pending(table) == run.pending
              && table == MarkAll(old(table), Marked(run.log))
      ensures cfg.endpoint == "" ==>
                stats == Done(0, 0) && table == old(table) && script == old(script) && log == old(log)
      ensures cfg.endpoint != "" ==> exists k: nat :: Removed(Pending(old(table)), Pending(table), old(log), log, k)
      ensures cfg.endpoint != "" && stats.Done? ==> Pending(table) == [] || Pending(table)[0].kind !in KINDS
      ensures cfg.endpoint != "" && AllWell(old(script)) && |old(script)| >= |Pending(old(table))|
              && (forall r | r in Pending(old(table)) :: r.kind in KINDS && r.payload.Parsed?) ==>
                Pending(table) == [] && stats.Done?
    {
      FlushOnceDelivers(Pending(table), cfg, header, script);
      if cfg.endpoint != "" {
        DrainedRemoves(Pending(table), header, FlushOnce(Pending(table), cfg, header, script), log);
      }
      hide AllWell, Drained, Removed, Flush, Pending, MarkAll, Marked, IdOrder;
      MarkNone(table);
      NoMarks();
      if cfg.endpoint == "" {
        return Done(0, 0);
      }
      stats := FlushRows(cfg, header);
    }

    /** The loop over the pending rows. */
    method FlushRows(cfg: Config, header: Header) returns (stats: Outcome)
      requires IdOrder(table)
      modifies this
      ensures var run := Flush(Pending(old(table)), cfg, header, old(script));
              && stats == run.outcome && script == run.rest && log == old(log) + run.log
              && Pending(table) == run.pending
              && table == MarkAll(old(table), Marked(run.log))
    {
      hide Post, BuildBatch, Listed, Pending, Flush, MarkAll, Marked, IdOrder;
      MarkNone(table);
      NoMarks();
      hide FlushContinues;
      var batches: nat, events: nat := 0, 0;
      ghost var whole, start := Flush(Pending(table), cfg, header, script), log;
      ghost var done: seq<Attempt> := [];
      FlushFirst(whole);
      while Pending(table) != []
        invariant IdOrder(table) && log == start + done && table == MarkAll(old(table), Marked(done))
        invariant FlushContinues(whole, batches, events, done, Flush(Pending(table), cfg, header, script))
        decreases |Pending(table)|
      {
        ghost var pending, before := Pending(table), script;
        var built, sent := FlushHead(cfg, header);
        if !built.Built? {
          FlushStops(whole, batches, events, done, pending, cfg, header, script);
          return if built.BuildFailed? then Failed(SendError.Payload) else Done(batches, events);
        }
        ghost var run := Post(built.batch, built.ids, before, 0, FIRST_BACKOFF);
        FlushNext(whole, batches, events, done, pending, cfg, header, before, run);
        MarkTwice(old(table), Marked(done), Marked(run.log));
        assert (start + done) + run.log == start + (done + run.log);
        done := done + run.log;
        if !sent.Done? {
          return sent;
        }
        batches, events := batches + sent.batches, events + sent.events;
      }
      FlushEmpty(whole, batches, events, done, cfg, header, script);
      return Done(batches, events);
    }
  }

  lemma FlushEmpty(whole: FlushRun, batches: nat, events: nat, done: seq<Attempt>,
                   cfg: Config, header: Header, script: seq<Exchange>)
    requires FlushContinues(whole, batches, events, done, Flush([], cfg, header, script))
    ensures whole == FlushRun(Done(batches, events), done, [], script)
  {
    assert done + [] == done;
  }
}
