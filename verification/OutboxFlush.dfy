/** Packing and the flush loop of `src/sync/engine.rs`: what one whole flush
    delivers, for every script of replies. */
module OutboxFlush {
  import opened OutboxModel
  import opened OutboxPost

  // ---- Packing takes the longest prefix that fits ----

  function Bytes(rows: seq<Row>): nat {
    if rows == [] then 0
    else
      var last := rows[|rows| - 1].payload;
      Bytes(rows[..|rows| - 1]) + (if last.Parsed? then last.size else 0)
  }

  /** The first `m` rows are of one kind, can be parsed and keep the caps; one
      row alone may be oversized. */
  ghost predicate Fits(rows: seq<Row>, cfg: Config, kind: string, m: nat) {
    && m <= |rows| && (m <= 1 || m <= cfg.eventsPerBatchMax)
    && (forall i | 0 <= i < m :: rows[i].kind == kind && rows[i].payload.Parsed?)
    && (m <= 1 || Bytes(rows[..m]) <= cfg.maxBodyBytes)
  }

  /** Row `i` cannot be parsed and comes right after rows that fit.  The source
      parses a row before it looks at the caps. */
  ghost predicate Blocks(rows: seq<Row>, cfg: Config, kind: string, i: nat) {
    Fits(rows, cfg, kind, i) && i < |rows| && rows[i].kind == kind && rows[i].payload.Malformed?
  }

  function Ids(rows: seq<Row>): seq<int> {
    seq(|rows|, i requires 0 <= i < |rows| => rows[i].id)
  }

  function ItemOf(r: Row): Item {
    match r.payload
    case Parsed(item, _) => item
    case Malformed => Item("")
  }

  function Items(rows: seq<Row>): seq<Item> {
    seq(|rows|, i requires 0 <= i < |rows| => ItemOf(rows[i]))
  }

  function Contents(rows: seq<Row>): seq<(string, Item)> {
    seq(|rows|, i requires 0 <= i < |rows| => (rows[i].kind, ItemOf(rows[i])))
  }

  lemma BytesNext(rows: seq<Row>, n: nat)
    requires n < |rows|
    ensures Bytes(rows[..n + 1])
            == Bytes(rows[..n]) + (if rows[n].payload.Parsed? then rows[n].payload.size else 0)
  {
    assert rows[..n + 1][..n] == rows[..n];
  }

  lemma {:induction false} BytesMonotone(rows: seq<Row>, j: nat, m: nat)
    requires j <= m <= |rows|
    ensures Bytes(rows[..j]) <= Bytes(rows[..m])
  {
    if j < m {
      BytesNext(rows, m - 1);
      BytesMonotone(rows, j, m - 1);
    }
  }

  lemma FitsSmaller(rows: seq<Row>, cfg: Config, kind: string, j: nat, m: nat)
    requires j <= m && Fits(rows, cfg, kind, m)
    ensures Fits(rows, cfg, kind, j)
  {
    BytesMonotone(rows, j, m);
  }

  /** What the loop gives when it is entered at a row up to which everything fits. */
  ghost predicate PacksFrom(rows: seq<Row>, cfg: Config, kind: string, n: nat, p: Packed)
    requires n <= |rows|
  {
    && (p.BadPayload? ==> exists i :: Blocks(rows, cfg, kind, i))
    && (p.Packed? ==>
          var m := n + |p.ids|;
          && Fits(rows, cfg, kind, m) && !Fits(rows, cfg, kind, m + 1) && !Blocks(rows, cfg, kind, m)
          && p.ids == Ids(rows[n..m]) && p.items == Items(rows[n..m]))
  }

  lemma PacksFromNext(rows: seq<Row>, cfg: Config, kind: string, n: nat, ids: seq<int>, items: seq<Item>)
    requires n < |rows| && PacksFrom(rows, cfg, kind, n + 1, Packed(ids, items))
    ensures PacksFrom(rows, cfg, kind, n, Packed([rows[n].id] + ids, [ItemOf(rows[n])] + items))
  {
    var m := n + 1 + |ids|;
    assert m <= |rows|;
    hide Ids, Items, Fits, Blocks;
    assert rows[n..m] == [rows[n]] + rows[n + 1..m];
    RowsCons(rows[n], rows[n + 1..m]);
  }

  lemma PacksNone(rows: seq<Row>, cfg: Config, kind: string, n: nat)
    requires Fits(rows, cfg, kind, n) && !Fits(rows, cfg, kind, n + 1) && !Blocks(rows, cfg, kind, n)
    ensures PacksFrom(rows, cfg, kind, n, Packed([], []))
  {
    NoRows();
    assert rows[n..n] == [];
    hide Ids, Items;
  }

  lemma {:induction false} PackFromLongest(rows: seq<Row>, cfg: Config, kind: string, n: nat, bytes: nat)
    requires Fits(rows, cfg, kind, n) && bytes == Bytes(rows[..n])
    ensures PacksFrom(rows, cfg, kind, n, PackFrom(rows, cfg, kind, n, bytes))
    decreases |rows| - n
  {
    hide Ids, Items, Bytes;
    if n == |rows| || rows[n].kind != kind {
      assert !Fits(rows, cfg, kind, n + 1);
      PacksNone(rows, cfg, kind, n);
      return;
    }
    PackFromNext(rows, cfg, kind, n, bytes);
    hide PackFrom;
    if Fits(rows, cfg, kind, n + 1) {
      var p := PackFrom(rows, cfg, kind, n + 1, bytes + rows[n].payload.size);
      PackFromLongest(rows, cfg, kind, n + 1, bytes + rows[n].payload.size);
      if p.Packed? {
        PacksFromNext(rows, cfg, kind, n, p.ids, p.items);
      }
      hide Fits, Blocks;
    } else if rows[n].payload.Malformed? {
      assert Blocks(rows, cfg, kind, n);
    } else {
      PacksNone(rows, cfg, kind, n);
    }
  }

  lemma NoRows()
    ensures Ids([]) == [] && Items([]) == []
  {
  }

  lemma RowsCons(r: Row, rows: seq<Row>)
    ensures Ids([r] + rows) == [r.id] + Ids(rows)
    ensures Items([r] + rows) == [ItemOf(r)] + Items(rows)
  {
  }

  /** One round: the row is taken exactly when one more row fits. */
  lemma PackFromNext(rows: seq<Row>, cfg: Config, kind: string, n: nat, bytes: nat)
    requires Fits(rows, cfg, kind, n) && bytes == Bytes(rows[..n])
    requires n < |rows| && rows[n].kind == kind
    ensures Fits(rows, cfg, kind, n + 1) ==>
              && rows[n].payload.Parsed?
              && bytes + rows[n].payload.size == Bytes(rows[..n + 1])
              && PackFrom(rows, cfg, kind, n, bytes)
                 == match PackFrom(rows, cfg, kind, n + 1, bytes + rows[n].payload.size)
                    case BadPayload => BadPayload
                    case Packed(ids, items) => Packed([rows[n].id] + ids, [ItemOf(rows[n])] + items)
    ensures !Fits(rows, cfg, kind, n + 1) ==>
              PackFrom(rows, cfg, kind, n, bytes)
              == if rows[n].payload.Malformed? then BadPayload else Packed([], [])
  {
    BytesNext(rows, n);
    if Fits(rows, cfg, kind, n + 1) {
      assert rows[n].payload.Parsed?;
    }
  }

  /** Main result: packing fails exactly when an unparsable row of the kind
      follows rows that fit; otherwise it takes the longest prefix that fits,
      and at least one row when the first is of the kind. */
  lemma PackLongest(rows: seq<Row>, cfg: Config, kind: string)
    ensures var p := Pack(rows, cfg, kind);
            && (p.BadPayload? <==> exists i :: Blocks(rows, cfg, kind, i))
            && (p.Packed? ==>
                  var m := |p.ids|;
                  && (forall j: nat :: Fits(rows, cfg, kind, j) <==> j <= m)
                  && p.ids == Ids(rows[..m]) && p.items == Items(rows[..m])
                  && (rows != [] && rows[0].kind == kind ==> m >= 1))
  {
    var p := Pack(rows, cfg, kind);
    PackFromLongest(rows, cfg, kind, 0, 0);
    if p.Packed? {
      var m := |p.ids|;
      assert rows[0..m] == rows[..m];
      forall j: nat ensures Fits(rows, cfg, kind, j) <==> j <= m {
        if j <= m {
          FitsSmaller(rows, cfg, kind, j, m);
        } else if Fits(rows, cfg, kind, j) {
          FitsSmaller(rows, cfg, kind, m + 1, j);
        }
      }
      forall i: nat ensures !Blocks(rows, cfg, kind, i) {
      }
      if rows != [] && rows[0].kind == kind && m == 0 {
        assert false;
      }
    }
  }

  // ---- The flush loop ----

  const LIST_LIMIT: nat := 10000

  /** `list_outbox_pending(10_000)` */
  function Listed(pending: seq<Row>): seq<Row> {
    if |pending| <= LIST_LIMIT then pending else pending[..LIST_LIMIT]
  }

  datatype FlushRun = FlushRun(outcome: Outcome, log: seq<Attempt>, pending: seq<Row>, rest: seq<Exchange>)

  /** The loop over the pending rows, in id order: build a batch of the kind at
      the head, post it, drop what was marked. */
  function Flush(pending: seq<Row>, cfg: Config, header: Header, script: seq<Exchange>): FlushRun
    decreases |pending|
  {
    if pending == [] then FlushRun(Done(0, 0), [], [], script)
    else match BuildBatch(Listed(pending), cfg, header, pending[0].kind)
      case BuildFailed => FlushRun(Failed(SendError.Payload), [], pending, script)
      case Unsendable => FlushRun(Done(0, 0), [], pending, script)
      case Built(ids, batch) =>
        var run := Post(batch, ids, script, 0, FIRST_BACKOFF);
        PostDelivery(batch, ids, script, 0, FIRST_BACKOFF);
        var left := pending[|Marked(run.log)|..];
        if !run.outcome.Done? then FlushRun(run.outcome, run.log, left, run.rest)
        else
          var more := Flush(left, cfg, header, run.rest);
          FlushRun(Plus(run.outcome, more.outcome), run.log + more.log, more.pending, more.rest)
  }

  /** `flush_outbox_once`: no endpoint, nothing to do. */
  function FlushOnce(pending: seq<Row>, cfg: Config, header: Header, script: seq<Exchange>): FlushRun {
    if cfg.endpoint == "" then FlushRun(Done(0, 0), [], pending, script)
    else Flush(pending, cfg, header, script)
  }

  lemma BuiltFromHead(pending: seq<Row>, cfg: Config, header: Header)
    requires pending != []
    ensures var b := BuildBatch(Listed(pending), cfg, header, pending[0].kind);
            && (b.Unsendable? <==> pending[0].kind !in KINDS)
            && (b.Built? ==>
                  var m := |b.ids|;
                  && 0 < m <= |pending| && b.ids == Ids(pending[..m])
                  && Labelled(b.batch) == Contents(pending[..m])
                  && (forall i | 0 <= i < m :: pending[i].payload.Parsed?)
                  && HasHeader(b.batch, header))
  {
    var rows, kind := Listed(pending), pending[0].kind;
    PackLongest(rows, cfg, kind);
    var p := Pack(rows, cfg, kind);
    if kind in KINDS && p.Packed? {
      var m := |p.ids|;
      assert Fits(rows, cfg, kind, m);
      assert rows[..m] == pending[..m];
      var batch := MakeBatch(kind, header, p.items).value;
      assert |Labelled(batch)| == m == |Contents(pending[..m])|;
      forall i | 0 <= i < m ensures Labelled(batch)[i] == Contents(pending[..m])[i] {
        assert rows[i] == pending[i];
      }
    }
  }

  predicate HasHeader(b: Batch, header: Header) {
    b.SessionEvals? || b.SessionFeedback? || b.header == header
  }

  lemma ShapeHeader(a: Batch, b: Batch, header: Header)
    requires a.Shape() == b.Shape() && HasHeader(b, header)
    ensures HasHeader(a, header)
  {
    assert HasHeader(b.Shape(), header);
  }

  lemma ListedIs(pending: seq<Row>)
    ensures Listed(pending) <= pending
    ensures |Listed(pending)| == if |pending| < 10_000 then |pending| else 10_000
  {
  }

  ghost predicate Drained(pending: seq<Row>, header: Header, run: FlushRun) {
    var k := |Marked(run.log)|;
    && k <= |pending|
    && Marked(run.log) == Ids(pending[..k])
    && Carried(run.log) == Contents(pending[..k])
    && (forall i | 0 <= i < k :: pending[i].payload.Parsed?)
    && run.pending == pending[k..]
    && (forall a | a in run.log :: HasHeader(a.batch, header))
    && (run.outcome.Done? ==>
          && run.outcome == Done(Commits(run.log), k)
          && (run.pending == [] || run.pending[0].kind !in KINDS))
  }

  /** One post of the flush. */
  lemma FlushPost(pending: seq<Row>, cfg: Config, header: Header, run: Run)
    requires pending != []
    requires BuildBatch(Listed(pending), cfg, header, pending[0].kind).Built?
    requires var b := BuildBatch(Listed(pending), cfg, header, pending[0].kind); Delivery(b.batch, b.ids, run)
    ensures var b := BuildBatch(Listed(pending), cfg, header, pending[0].kind);
            var k := |Marked(run.log)|;
            && k <= |b.ids| <= |pending|
            && Marked(run.log) == Ids(pending[..k])
            && Carried(run.log) == Contents(pending[..k])
            && (forall i | 0 <= i < k :: pending[i].payload.Parsed?)
            && (forall a | a in run.log :: HasHeader(a.batch, header))
            && (run.outcome.Done? ==> 0 < k == |b.ids| && run.outcome == Done(Commits(run.log), k))
  {
    hide BuildBatch, Listed, Labelled, Marked, Carried, Commits;
    BuiltFromHead(pending, cfg, header);
    var b := BuildBatch(Listed(pending), cfg, header, pending[0].kind);
    var m, k := |b.ids|, |Marked(run.log)|;
    assert Ids(pending[..m])[..k] == Ids(pending[..k]);
    assert Contents(pending[..m])[..k] == Contents(pending[..k]);
    forall a | a in run.log ensures HasHeader(a.batch, header) {
      var i :| 0 <= i < |run.log| && run.log[i] == a;
      assert Placed(run.log[i], b.batch, b.ids);
      ShapeHeader(a.batch, b.batch, header);
    }
  }

  lemma DrainedBoth(pending: seq<Row>, header: Header, run: Run, more: FlushRun)
    requires run.outcome.Done?
    requires var k := |Marked(run.log)|;
             && k <= |pending|
             && Marked(run.log) == Ids(pending[..k])
             && Carried(run.log) == Contents(pending[..k])
             && (forall i | 0 <= i < k :: pending[i].payload.Parsed?)
             && (forall a | a in run.log :: HasHeader(a.batch, header))
             && run.outcome == Done(Commits(run.log), k)
             && Drained(pending[k..], header, more)
    ensures Drained(pending, header, FlushRun(Plus(run.outcome, more.outcome), run.log + more.log, more.pending, more.rest))
  {
    LogAppend(run.log, more.log);
    hide Marked, Carried, Commits;
    var k, j := |Marked(run.log)|, |Marked(more.log)|;
    var left := pending[k..];
    assert pending[..k] + left[..j] == pending[..k + j];
    IdsAppend(pending[..k], left[..j]);
    assert forall i | 0 <= i < j :: left[i] == pending[k + i];
    assert left[j..] == pending[k + j..];
    forall i | 0 <= i < k + j ensures pending[i].payload.Parsed? {
      if i >= k {
        assert pending[i] == left[i - k];
      }
    }
  }

  lemma IdsAppend(a: seq<Row>, b: seq<Row>)
    ensures Ids(a) + Ids(b) == Ids(a + b)
    ensures Contents(a) + Contents(b) == Contents(a + b)
  {
  }

  /** Main result: whatever the replies, a flush delivers a prefix of the outbox
      in id order: the marked ids are those of the first k pending rows, the
      committed batches carried their payloads under their kinds, and exactly
      the other rows stay pending.  An Ok flush counts the k rows and stops at
      an empty outbox or at a row of unknown kind. */
  lemma {:induction false} FlushDelivery(pending: seq<Row>, cfg: Config, header: Header, script: seq<Exchange>)
    ensures Drained(pending, header, Flush(pending, cfg, header, script))
    decreases |pending|
  {
    hide Post, Delivery, BuildBatch, Listed;
    if pending == [] {
      return;
    }
    BuiltFromHead(pending, cfg, header);
    var b := BuildBatch(Listed(pending), cfg, header, pending[0].kind);
    if b.Built? {
      var run := Post(b.batch, b.ids, script, 0, FIRST_BACKOFF);
      PostDelivery(b.batch, b.ids, script, 0, FIRST_BACKOFF);
      FlushPost(pending, cfg, header, run);
      hide Drained;
      if run.outcome.Done? {
        var left := pending[|Marked(run.log)|..];
        FlushDelivery(left, cfg, header, run.rest);
        DrainedBoth(pending, header, run, Flush(left, cfg, header, run.rest));
      } else {
        DrainedHalf(pending, header, run);
      }
    } else {
      DrainedNothing(pending, header, Flush(pending, cfg, header, script));
    }
  }

  lemma DrainedNothing(pending: seq<Row>, header: Header, run: FlushRun)
    requires run.log == [] && run.pending == pending
    requires run.outcome.Done? ==> run.outcome == Done(0, 0) && (pending == [] || pending[0].kind !in KINDS)
    ensures Drained(pending, header, run)
  {
    assert pending[0..] == pending && pending[..0] == [];
    assert Marked(run.log) == [] == Ids([]);
    assert Carried(run.log) == [] == Contents([]);
    hide Marked, Carried, Ids, Contents, HasHeader;
  }

  lemma DrainedHalf(pending: seq<Row>, header: Header, run: Run)
    requires !run.outcome.Done?
    requires var k := |Marked(run.log)|;
             && k <= |pending|
             && Marked(run.log) == Ids(pending[..k])
             && Carried(run.log) == Contents(pending[..k])
             && (forall i | 0 <= i < k :: pending[i].payload.Parsed?)
             && (forall a | a in run.log :: HasHeader(a.batch, header))
    ensures Drained(pending, header, FlushRun(run.outcome, run.log, pending[|Marked(run.log)|..], run.rest))
  {
  }

  // ---- Cost, termination and progress ----

  /** Main result: a flush of N >= 1 rows makes at most 13(2N - 1) POSTs that are
      not answered 429, over all its batches. */
  lemma {:induction false} FlushBounds(pending: seq<Row>, cfg: Config, header: Header, script: seq<Exchange>)
    ensures var run := Flush(pending, cfg, header, script);
            && (pending == [] ==> run.log == [])
            && (pending != [] ==> Posts(run.log) <= POSTS_PER_CALL * (2 * |pending| - 1))
            && |run.log| + |run.rest| == |script|
            && (forall i | 0 <= i < |run.log| :: run.log[i].exchange == script[i])
            && (run.outcome == CutShort ==> run.rest == [])
    decreases |pending|
  {
    hide Post, Delivery, BuildBatch, Listed, Bounded, Consumed;
    if pending == [] {
      return;
    }
    BuiltFromHead(pending, cfg, header);
    var b := BuildBatch(Listed(pending), cfg, header, pending[0].kind);
    if b.Built? {
      var run := Post(b.batch, b.ids, script, 0, FIRST_BACKOFF);
      PostDelivery(b.batch, b.ids, script, 0, FIRST_BACKOFF);
      FlushPost(pending, cfg, header, run);
      PostCost(b.batch, b.ids, script);
      if run.outcome.Done? {
        var left := pending[|Marked(run.log)|..];
        FlushBounds(left, cfg, header, run.rest);
        LogAppend(run.log, Flush(left, cfg, header, run.rest).log);
      }
    }
  }

  lemma PostCost(body: Batch, ids: seq<int>, script: seq<Exchange>)
    requires |ids| == |body.items| > 0
    ensures var run := Post(body, ids, script, 0, FIRST_BACKOFF);
            && Posts(run.log) <= POSTS_PER_CALL * (2 * |ids| - 1)
            && |run.log| + |run.rest| == |script|
            && run.rest == script[|run.log|..]
            && (forall i | 0 <= i < |run.log| :: run.log[i].exchange == script[i])
            && (run.outcome == CutShort ==> run.rest == [])
  {
    hide Post;
    PostBounds(body, ids, script, 0, FIRST_BACKOFF);
    PostConsumes(body, ids, script, 0, FIRST_BACKOFF);
  }

  /** Main result: with finitely many 429 replies a flush ends. */
  lemma FlushEnds(pending: seq<Row>, cfg: Config, header: Header, script: seq<Exchange>)
    requires |script| > Throttles(script) + POSTS_PER_CALL * 2 * |pending|
    ensures Flush(pending, cfg, header, script).outcome != CutShort
  {
    hide Flush;
    FlushBounds(pending, cfg, header, script);
    ThrottledAttempts(Flush(pending, cfg, header, script).log, script);
  }

  predicate AllWell(script: seq<Exchange>) {
    forall x | x in script :: x.reply == Accepted && x.fanOk && x.store == StoreOk
  }

  /** Main result: when every reply accepts, a flush of parsable rows of known
      kinds empties the outbox. */
  lemma {:induction false} FlushDrains(pending: seq<Row>, cfg: Config, header: Header, script: seq<Exchange>)
    requires AllWell(script) && |script| >= |pending|
    requires forall r | r in pending :: r.kind in KINDS && r.payload.Parsed?
    ensures var run := Flush(pending, cfg, header, script);
            run.outcome.Done? && run.outcome.events == |pending| && run.pending == []
    decreases |pending|
  {
    hide Post, Delivery, BuildBatch, Listed;
    if pending == [] {
      return;
    }
    BuiltFromHead(pending, cfg, header);
    ParsableBuilds(pending, cfg, header);
    var b := BuildBatch(Listed(pending), cfg, header, pending[0].kind);
    var run := Post(b.batch, b.ids, script, 0, FIRST_BACKOFF);
    PostDelivery(b.batch, b.ids, script, 0, FIRST_BACKOFF);
    FlushPost(pending, cfg, header, run);
    var a := PostStep(b.batch, b.ids, script, 0, FIRST_BACKOFF);
    FlushDrains(pending[|Marked(run.log)|..], cfg, header, run.rest);
  }

  lemma ParsableBuilds(pending: seq<Row>, cfg: Config, header: Header)
    requires pending != [] && forall r | r in pending :: r.kind in KINDS && r.payload.Parsed?
    ensures BuildBatch(Listed(pending), cfg, header, pending[0].kind).Built?
  {
    var rows := Listed(pending);
    PackLongest(rows, cfg, pending[0].kind);
    forall i: nat ensures !Blocks(rows, cfg, pending[0].kind, i) {
      if i < |rows| {
        assert rows[i] in pending;
      }
    }
  }

  ghost predicate FlushExtension(more: FlushRun, run: FlushRun, tail: seq<Exchange>) {
    if run.outcome == CutShort then run.log <= more.log
    else more == FlushRun(run.outcome, run.log, run.pending, run.rest + tail)
  }

  /** Main result: a flush over a longer script takes the same steps, so what
      holds of every script holds at every moment of every flush. */
  lemma {:induction false} FlushExtends(pending: seq<Row>, cfg: Config, header: Header,
                                        script: seq<Exchange>, tail: seq<Exchange>)
    ensures FlushExtension(Flush(pending, cfg, header, script + tail), Flush(pending, cfg, header, script), tail)
    decreases |pending|
  {
    hide Post, Delivery, BuildBatch, Listed;
    if pending == [] {
      return;
    }
    BuiltFromHead(pending, cfg, header);
    var b := BuildBatch(Listed(pending), cfg, header, pending[0].kind);
    if b.Built? {
      var run := Post(b.batch, b.ids, script, 0, FIRST_BACKOFF);
      var long := Post(b.batch, b.ids, script + tail, 0, FIRST_BACKOFF);
      PostExtends(b.batch, b.ids, script, tail, 0, FIRST_BACKOFF);
      PostDelivery(b.batch, b.ids, script, 0, FIRST_BACKOFF);
      PostDelivery(b.batch, b.ids, script + tail, 0, FIRST_BACKOFF);
      FlushPost(pending, cfg, header, run);
      if run.outcome.Done? {
        FlushExtends(pending[|Marked(run.log)|..], cfg, header, run.rest, tail);
      }
    }
  }

  // ---- One call ----

  /** Main result: without an endpoint a call does nothing.  With one it delivers a
      prefix of the outbox for every script, and ends well only when the outbox is
      empty or has an unknown kind at its head; accepting replies drain an outbox
      of parsable rows of known kinds. */
  lemma FlushOnceDelivers(pending: seq<Row>, cfg: Config, header: Header, script: seq<Exchange>)
    ensures var run := FlushOnce(pending, cfg, header, script);
            && (cfg.endpoint == "" ==> run == FlushRun(Done(0, 0), [], pending, script))
            && (cfg.endpoint != "" ==> Drained(pending, header, run))
            && (cfg.endpoint != "" && |script| > Throttles(script) + POSTS_PER_CALL * 2 * |pending| ==> run.outcome != CutShort)
            && (cfg.endpoint != "" && AllWell(script) && |script| >= |pending|
                && (forall r | r in pending :: r.kind in KINDS && r.payload.Parsed?) ==>
                  run.outcome.Done? && run.outcome.events == |pending| && run.pending == [])
  {
    hide Flush, Drained, AllWell;
    FlushDelivery(pending, cfg, header, script);
    if |script| > Throttles(script) + POSTS_PER_CALL * 2 * |pending| {
      FlushEnds(pending, cfg, header, script);
    }
    if AllWell(script) && |script| >= |pending| && forall r | r in pending :: r.kind in KINDS && r.payload.Parsed? {
      FlushDrains(pending, cfg, header, script);
    }
  }

  /** The rows that left the pending list are the first `k`, and their ids are what
      the new attempts marked. */
  ghost predicate Removed(before: seq<Row>, after: seq<Row>, log: seq<Attempt>, longer: seq<Attempt>, k: nat) {
    k <= |before| && after == before[k..] && log <= longer && Marked(longer[|log|..]) == Ids(before[..k])
  }

  lemma DrainedRemoves(pending: seq<Row>, header: Header, run: FlushRun, log: seq<Attempt>)
    requires Drained(pending, header, run)
    ensures exists k: nat :: Removed(pending, run.pending, log, log + run.log, k)
    ensures run.outcome.Done? ==> run.pending == [] || run.pending[0].kind !in KINDS
  {
    assert (log + run.log)[|log|..] == run.log;
    assert Removed(pending, run.pending, log, log + run.log, |Marked(run.log)|);
  }

  /** A row that cannot be parsed, right after rows that fit, fails the flush
      before anything is sent. */
  lemma BadRowFails(pending: seq<Row>, cfg: Config, header: Header, script: seq<Exchange>, i: nat)
    requires pending != [] && pending[0].kind in KINDS
    requires Blocks(Listed(pending), cfg, pending[0].kind, i)
    ensures Flush(pending, cfg, header, script) == FlushRun(Failed(SendError.Payload), [], pending, script)
  {
    PackLongest(Listed(pending), cfg, pending[0].kind);
  }
}
