/** Cached per-session aggregates: `src/extensions/aggregates.rs`, with the
    callers in `src/store/sqlite/event_write.rs` and `event_batch.rs`. */
module Aggregates {
  import opened Options

  datatype Kind = ToolCall | Error | OtherKind

  datatype Event = Event(
    sessionId: string, seqNo: nat, tsMs: nat, kind: Kind,
    tokensIn: Option<nat>, tokensOut: Option<nat>, reasoningTokens: Option<nat>,
    cacheReadTokens: Option<nat>, cacheCreationTokens: Option<nat>, costUsdE6: Option<int>)

  /** The counting columns of a row. */
  datatype Sums = Sums(
    eventCount: nat, toolCallCount: nat, errorCount: nat, tokensIn: nat, tokensOut: nat,
    reasoningTokens: nat, cacheReadTokens: nat, cacheCreationTokens: nat, costUsdE6: int)

  datatype SessionAggregate = SessionAggregate(
    sums: Sums, firstEventMs: Option<nat>, lastEventMs: Option<nat>, rebuiltAtMs: nat)

  const ZERO := Sums(0, 0, 0, 0, 0, 0, 0, 0, 0)

  function Plus(a: Sums, b: Sums): Sums {
    Sums(a.eventCount + b.eventCount, a.toolCallCount + b.toolCallCount, a.errorCount + b.errorCount,
         a.tokensIn + b.tokensIn, a.tokensOut + b.tokensOut, a.reasoningTokens + b.reasoningTokens,
         a.cacheReadTokens + b.cacheReadTokens, a.cacheCreationTokens + b.cacheCreationTokens,
         a.costUsdE6 + b.costUsdE6)
  }

  /** What one event adds; absent values count as zero. */
  function Increment(e: Event): Sums {
    Sums(1, if e.kind == ToolCall then 1 else 0, if e.kind == Error then 1 else 0,
         e.tokensIn.GetOr(0), e.tokensOut.GetOr(0), e.reasoningTokens.GetOr(0),
         e.cacheReadTokens.GetOr(0), e.cacheCreationTokens.GetOr(0), e.costUsdE6.GetOr(0))
  }

  // ---- SQL minimum and maximum ----

  /** The two-argument MIN and MAX of SQL: NULL if either argument is NULL. */
  function SqlMin(a: Option<nat>, b: Option<nat>): Option<nat> {
    if a.None? || b.None? then None else Some(if a.value <= b.value then a.value else b.value)
  }

  function SqlMax(a: Option<nat>, b: Option<nat>): Option<nat> {
    if a.None? || b.None? then None else Some(if a.value >= b.value then a.value else b.value)
  }

  // ---- Full recomputation ----

  function TotalSums(events: seq<Event>, s: string): Sums {
    if events == [] then ZERO
    else
      var last := events[|events| - 1];
      Plus(TotalSums(events[..|events| - 1], s), if last.sessionId == s then Increment(last) else ZERO)
  }

  /** The MIN aggregate skips nothing and is NULL over no rows. */
  function FirstMs(events: seq<Event>, s: string): Option<nat> {
    if events == [] then None
    else
      var before, last := FirstMs(events[..|events| - 1], s), events[|events| - 1];
      if last.sessionId != s then before
      else if before.None? || last.tsMs <= before.value then Some(last.tsMs) else before
  }

  function LastMs(events: seq<Event>, s: string): Option<nat> {
    if events == [] then None
    else
      var before, last := LastMs(events[..|events| - 1], s), events[|events| - 1];
      if last.sessionId != s then before
      else if before.None? || last.tsMs >= before.value then Some(last.tsMs) else before
  }

  /** `aggregate_raw` */
  function AggregateRaw(events: seq<Event>, s: string, now: nat): SessionAggregate {
    SessionAggregate(TotalSums(events, s), FirstMs(events, s), LastMs(events, s), now)
  }

  // ---- The store ----

  datatype Db = Db(events: seq<Event>, rows: map<string, SessionAggregate>)

  /** The conflict branch of `APPLY_EVENT_SQL`. */
  function Updated(row: SessionAggregate, e: Event, now: nat): SessionAggregate {
    SessionAggregate(Plus(row.sums, Increment(e)),
                     SqlMin(row.firstEventMs, Some(e.tsMs)), SqlMax(row.lastEventMs, Some(e.tsMs)), now)
  }

  function Upsert(db: Db, s: string, now: nat): Db {
    db.(rows := db.rows[s := AggregateRaw(db.events, s, now)])
  }

  function ApplyEvent(db: Db, e: Event, now: nat): Db {
    if e.sessionId !in db.rows then Upsert(db, e.sessionId, now)
    else db.(rows := db.rows[e.sessionId := Updated(db.rows[e.sessionId], e, now)])
  }

  predicate Taken(events: seq<Event>, e: Event) {
    exists i | 0 <= i < |events| :: events[i].sessionId == e.sessionId && events[i].seqNo == e.seqNo
  }

  /** `INSERT ... ON CONFLICT DO NOTHING` */
  function InsertEvent(db: Db, e: Event): Db {
    if Taken(db.events, e) then db else db.(events := db.events + [e])
  }

  function InsertEvents(db: Db, batch: seq<Event>): Db {
    if batch == [] then db else InsertEvent(InsertEvents(db, batch[..|batch| - 1]), batch[|batch| - 1])
  }

  function UpsertAll(db: Db, sessions: seq<string>, now: nat): Db {
    if sessions == [] then db
    else Upsert(UpsertAll(db, sessions[..|sessions| - 1], now), sessions[|sessions| - 1], now)
  }

  /** Append one event, scan in a batch of one session, or rebuild a workspace. */
  datatype Step =
    | Append(event: Event, now: nat)
    | Batch(sessionId: string, events: seq<Event>, now: nat)
    | Rebuild(sessions: seq<string>, now: nat)

  /** A batch of mixed sessions is refused, an empty one does nothing. */
  predicate BatchAccepted(s: string, batch: seq<Event>) {
    batch != [] && forall i | 0 <= i < |batch| :: batch[i].sessionId == s
  }

  function Apply(db: Db, step: Step): Db {
    match step
    case Append(e, now) => if Taken(db.events, e) then db else ApplyEvent(InsertEvent(db, e), e, now)
    case Batch(s, batch, now) => if BatchAccepted(s, batch) then Upsert(InsertEvents(db, batch), s, now) else db
    case Rebuild(sessions, now) => UpsertAll(db, sessions, now)
  }

  function RunSteps(steps: seq<Step>): Db {
    if steps == [] then Db([], map[]) else Apply(RunSteps(steps[..|steps| - 1]), steps[|steps| - 1])
  }

  // ---- What the history says about the timestamps ----

  predicate HasEvents(events: seq<Event>, s: string) {
    exists i | 0 <= i < |events| :: events[i].sessionId == s
  }

  /** The last recomputation of the row of `s` found no event of `s`.  Only a
      rebuild can do that: an append or a batch recomputes after inserting. */
  predicate RebuiltEmpty(steps: seq<Step>, s: string)
    decreases |steps|
  {
    if steps == [] then false
    else
      var before := steps[..|steps| - 1];
      var db := RunSteps(before);
      match steps[|steps| - 1]
      case Append(e, _) => RebuiltEmpty(before, s)
      case Batch(t, batch, _) => if t == s && BatchAccepted(t, batch) then false else RebuiltEmpty(before, s)
      case Rebuild(sessions, _) => if s in sessions then !HasEvents(db.events, s) else RebuiltEmpty(before, s)
  }

  /** A cached row against the recomputation, when `stale` says whether the last
      recomputation saw an empty session. */
  ghost predicate RowAgrees(db: Db, s: string, stale: bool)
    requires s in db.rows
  {
    var row := db.rows[s];
    && row.sums == TotalSums(db.events, s)
    && row.firstEventMs == (if stale then None else FirstMs(db.events, s))
    && row.lastEventMs == (if stale then None else LastMs(db.events, s))
    && (!stale ==> HasEvents(db.events, s))
  }

  /** `first` and `last` are the least and the greatest time of an event of `s`. */
  ghost predicate AreBounds(events: seq<Event>, s: string, first: nat, last: nat) {
    && (forall i | 0 <= i < |events| && events[i].sessionId == s :: first <= events[i].tsMs <= last)
    && (exists i | 0 <= i < |events| :: events[i].sessionId == s && events[i].tsMs == first)
    && (exists i | 0 <= i < |events| :: events[i].sessionId == s && events[i].tsMs == last)
  }

  lemma {:induction false} BoundsOfEvents(events: seq<Event>, s: string)
    ensures FirstMs(events, s).Some? <==> HasEvents(events, s)
    ensures LastMs(events, s).Some? <==> HasEvents(events, s)
    ensures TotalSums(events, s).eventCount > 0 <==> HasEvents(events, s)
    ensures HasEvents(events, s) ==> AreBounds(events, s, FirstMs(events, s).value, LastMs(events, s).value)
  {
    if events != [] {
      var n := |events| - 1;
      BoundsOfEvents(events[..n], s);
      assert events == events[..n] + [events[n]];
      HasEventsMore(events[..n], events[n], s);
      hide HasEvents;
    }
  }

  lemma HasEventsMore(events: seq<Event>, e: Event, s: string)
    ensures HasEvents(events + [e], s) <==> HasEvents(events, s) || e.sessionId == s
  {
    var all := events + [e];
    assert forall i | 0 <= i < |events| :: all[i] == events[i];
    assert all[|events|] == e;
    if HasEvents(events, s) {
      var i :| 0 <= i < |events| && events[i].sessionId == s;
      assert all[i].sessionId == s;
    }
  }

  /** One more event, in the recomputation. */
  lemma RecomputeNext(events: seq<Event>, e: Event, s: string)
    ensures TotalSums(events + [e], s) == Plus(TotalSums(events, s), if e.sessionId == s then Increment(e) else ZERO)
    ensures e.sessionId != s ==> FirstMs(events + [e], s) == FirstMs(events, s)
    ensures e.sessionId != s ==> LastMs(events + [e], s) == LastMs(events, s)
    ensures e.sessionId == s && HasEvents(events, s) ==>
              && FirstMs(events + [e], s) == SqlMin(FirstMs(events, s), Some(e.tsMs))
              && LastMs(events + [e], s) == SqlMax(LastMs(events, s), Some(e.tsMs))
  {
    hide HasEvents, Increment;
    BoundsOfEvents(events, s);
    var all, n := events + [e], |events|;
    assert all[..n] == events && all[n] == e && |all| == n + 1;
  }

  lemma InsertKeeps(db: Db, e: Event, s: string, stale: bool)
    requires s in db.rows && RowAgrees(db, s, stale) && e.sessionId != s
    ensures RowAgrees(InsertEvent(db, e), s, stale)
  {
    hide Taken, HasEvents, Increment, TotalSums, FirstMs, LastMs;
    RecomputeNext(db.events, e, s);
    HasEventsMore(db.events, e, s);
  }

  lemma ApplyKeeps(db: Db, e: Event, now: nat, s: string, stale: bool)
    requires s in db.rows && RowAgrees(db, s, stale) && !Taken(db.events, e)
    ensures s in ApplyEvent(InsertEvent(db, e), e, now).rows
    ensures RowAgrees(ApplyEvent(InsertEvent(db, e), e, now), s, stale)
  {
    hide Taken, HasEvents, Increment, TotalSums, FirstMs, LastMs;
    RecomputeNext(db.events, e, s);
    HasEventsMore(db.events, e, s);
  }

  lemma UpsertAgrees(db: Db, s: string, now: nat)
    ensures RowAgrees(Upsert(db, s, now), s, !HasEvents(db.events, s))
  {
    BoundsOfEvents(db.events, s);
  }

  lemma {:induction false} InsertEventsKeeps(db: Db, batch: seq<Event>, s: string)
    requires forall i | 0 <= i < |batch| :: batch[i].sessionId == s
    ensures InsertEvents(db, batch).rows == db.rows
    ensures batch != [] ==> HasEvents(InsertEvents(db, batch).events, s)
    ensures forall t, stale {:trigger RowAgrees(db, t, stale)} | t in db.rows && t != s && RowAgrees(db, t, stale) ::
              RowAgrees(InsertEvents(db, batch), t, stale)
  {
    if batch != [] {
      var n := |batch| - 1;
      var before := InsertEvents(db, batch[..n]);
      InsertEventsKeeps(db, batch[..n], s);
      InsertHas(before, batch[n]);
      forall t, stale {:trigger RowAgrees(db, t, stale)} | t in db.rows && t != s && RowAgrees(db, t, stale)
        ensures RowAgrees(InsertEvents(db, batch), t, stale)
      {
        InsertKeeps(before, batch[n], t, stale);
      }
    }
  }

  lemma InsertHas(db: Db, e: Event)
    ensures HasEvents(InsertEvent(db, e).events, e.sessionId)
  {
    HasEventsMore(db.events, e, e.sessionId);
    if Taken(db.events, e) {
      var i :| 0 <= i < |db.events| && db.events[i].sessionId == e.sessionId && db.events[i].seqNo == e.seqNo;
    }
  }

  lemma {:induction false} UpsertAllEffect(db: Db, sessions: seq<string>, now: nat)
    ensures UpsertAll(db, sessions, now).events == db.events
    ensures forall s :: s in UpsertAll(db, sessions, now).rows <==> s in db.rows || s in sessions
    ensures forall s | s in UpsertAll(db, sessions, now).rows ::
              UpsertAll(db, sessions, now).rows[s]
              == if s in sessions then AggregateRaw(db.events, s, now) else db.rows[s]
  {
    if sessions != [] {
      var n := |sessions| - 1;
      assert sessions == sessions[..n] + [sessions[n]];
      UpsertAllEffect(db, sessions[..n], now);
    }
  }

  lemma UpsertAllAgrees(db: Db, sessions: seq<string>, now: nat, s: string)
    requires s in sessions
    ensures s in UpsertAll(db, sessions, now).rows
    ensures RowAgrees(UpsertAll(db, sessions, now), s, !HasEvents(db.events, s))
  {
    UpsertAllEffect(db, sessions, now);
    UpsertAgrees(db, s, now);
  }

  lemma UpsertAllKeeps(db: Db, sessions: seq<string>, now: nat, s: string, stale: bool)
    requires s !in sessions && s in db.rows && RowAgrees(db, s, stale)
    ensures s in UpsertAll(db, sessions, now).rows
    ensures RowAgrees(UpsertAll(db, sessions, now), s, stale)
  {
    UpsertAllEffect(db, sessions, now);
  }

  /** Every row after any run. */
  lemma {:induction false} RunAgrees(steps: seq<Step>, s: string)
    ensures s in RunSteps(steps).rows ==> RowAgrees(RunSteps(steps), s, RebuiltEmpty(steps, s))
    ensures RebuiltEmpty(steps, s) ==> s in RunSteps(steps).rows
    decreases |steps|
  {
    if steps == [] {
      return;
    }
    var n := |steps| - 1;
    var db, stale := RunSteps(steps[..n]), RebuiltEmpty(steps[..n], s);
    RunAgrees(steps[..n], s);
    hide RowAgrees, InsertEvents, UpsertAll, HasEvents;
    match steps[n]
    case Append(e, now) =>
      if !Taken(db.events, e) {
        if s in db.rows {
          ApplyKeeps(db, e, now, s, stale);
        } else if e.sessionId == s {
          UpsertAgrees(InsertEvent(db, e), s, now);
          InsertHas(db, e);
        }
      }
    case Batch(t, batch, now) =>
      if BatchAccepted(t, batch) {
        InsertEventsKeeps(db, batch, t);
        UpsertAgrees(InsertEvents(db, batch), t, now);
      }
    case Rebuild(sessions, now) =>
      if s in sessions {
        UpsertAllAgrees(db, sessions, now, s);
      } else {
        UpsertAllOthers(db, sessions, now, s);
        if s in db.rows {
          UpsertAllKeeps(db, sessions, now, s, stale);
        }
      }
  }

  lemma UpsertAllOthers(db: Db, sessions: seq<string>, now: nat, s: string)
    requires s !in sessions
    ensures s in UpsertAll(db, sessions, now).rows <==> s in db.rows
  {
    UpsertAllEffect(db, sessions, now);
  }

  /** Main result: after any mix of appends, batches and rebuilds the counts and
      sums of a cached row equal the full recomputation.  The two timestamps are
      equal to it too if and only if the last recomputation of the row saw an
      event, or the session still has none; otherwise they stay NULL. */
  lemma CachedRowAgrees(steps: seq<Step>, s: string, now: nat)
    requires s in RunSteps(steps).rows
    ensures var db := RunSteps(steps);
            var row, full := db.rows[s], AggregateRaw(db.events, s, now);
            && row.sums == full.sums
            && (row.firstEventMs == full.firstEventMs && row.lastEventMs == full.lastEventMs
                <==> !RebuiltEmpty(steps, s) || !HasEvents(db.events, s))
            && (RebuiltEmpty(steps, s) ==> row.firstEventMs.None? && row.lastEventMs.None?)
  {
    hide RunSteps, RebuiltEmpty;
    RunAgrees(steps, s);
    BoundsOfEvents(RunSteps(steps).events, s);
  }

  /** Whatever the row held before, a rebuild sets it to the recomputation. */
  lemma RebuildRepairs(steps: seq<Step>, sessions: seq<string>, now: nat, s: string)
    requires s in sessions
    ensures var db, after := RunSteps(steps), RunSteps(steps + [Rebuild(sessions, now)]);
            && after.events == db.events
            && s in after.rows && after.rows[s] == AggregateRaw(db.events, s, now)
  {
    assert (steps + [Rebuild(sessions, now)])[..|steps|] == steps;
    UpsertAllEffect(RunSteps(steps), sessions, now);
  }

  /** The timestamps do differ on a rebuild of an empty session followed by one
      event, and the next rebuild repairs them. */
  lemma EmptyRebuildHidesTimes(e: Event, now: nat, later: nat)
    ensures var s := e.sessionId;
            var steps := [Rebuild([s], now), Append(e, now)];
            var db, repaired := RunSteps(steps), RunSteps(steps + [Rebuild([s], later)]);
            && s in db.rows && db.rows[s].firstEventMs == None && db.rows[s].lastEventMs == None
            && FirstMs(db.events, s) == Some(e.tsMs) && LastMs(db.events, s) == Some(e.tsMs)
            && s in repaired.rows && repaired.rows[s].firstEventMs == Some(e.tsMs) && repaired.rows[s].lastEventMs == Some(e.tsMs)
  {
    var s := e.sessionId;
    var steps := [Rebuild([s], now), Append(e, now)];
    RebuildRepairs(steps, [s], later, s);
    assert steps[..1] == [Rebuild([s], now)] && steps[..1][..0] == [];
    assert RunSteps([]) == Db([], map[]);
    UpsertAllEffect(Db([], map[]), [s], now);
    var db := RunSteps(steps[..1]);
    assert db == UpsertAll(Db([], map[]), [s], now);
    assert s in [s] && db.events == [];
    assert FirstMs([], s) == None && LastMs([], s) == None;
    assert RunSteps(steps) == Apply(db, Append(e, now));
    assert db.events + [e] == [e] && [e][..0] == [];
  }

  // ---- Column by column ----

  /** The sum of one column over the events of a session. */
  function Total(events: seq<Event>, s: string, column: Event -> int): int {
    if events == [] then 0
    else
      var last := events[|events| - 1];
      Total(events[..|events| - 1], s, column) + if last.sessionId == s then column(last) else 0
  }

  function OrZero(x: Option<nat>): int {
    if x.Some? then x.value else 0
  }

  /** Main result: each column of the recomputation sums its own field over the
      events of the session; absent values count as zero. */
  lemma {:induction false} ColumnsAre(events: seq<Event>, s: string)
    ensures var t := TotalSums(events, s);
            && t.eventCount == Total(events, s, (e: Event) => 1)
            && t.toolCallCount == Total(events, s, (e: Event) => if e.kind == ToolCall then 1 else 0)
            && t.errorCount == Total(events, s, (e: Event) => if e.kind == Error then 1 else 0)
            && t.tokensIn == Total(events, s, (e: Event) => OrZero(e.tokensIn))
            && t.tokensOut == Total(events, s, (e: Event) => OrZero(e.tokensOut))
            && t.reasoningTokens == Total(events, s, (e: Event) => OrZero(e.reasoningTokens))
            && t.cacheReadTokens == Total(events, s, (e: Event) => OrZero(e.cacheReadTokens))
            && t.cacheCreationTokens == Total(events, s, (e: Event) => OrZero(e.cacheCreationTokens))
            && t.costUsdE6 == Total(events, s, (e: Event) => if e.costUsdE6.Some? then e.costUsdE6.value else 0)
  {
    if events != [] {
      ColumnsAre(events[..|events| - 1], s);
    }
  }

  // ---- What each step stores ----

  /** Main result: a new event is stored and its session then has a row that holds
      its amounts; an event whose seq is taken changes nothing. */
  lemma AppendStores(db: Db, e: Event, now: nat)
    ensures Taken(db.events, e) ==> Apply(db, Append(e, now)) == db
    ensures !Taken(db.events, e) ==>
              var after := Apply(db, Append(e, now));
              && after.events == db.events + [e] && after.rows.Keys == db.rows.Keys + {e.sessionId}
              && (forall s | s in db.rows && s != e.sessionId :: after.rows[s] == db.rows[s])
              && (e.sessionId !in db.rows ==> after.rows[e.sessionId] == AggregateRaw(db.events + [e], e.sessionId, now))
              && (e.sessionId in db.rows ==>
                    && after.rows[e.sessionId].sums.eventCount == db.rows[e.sessionId].sums.eventCount + 1
                    && after.rows[e.sessionId].rebuiltAtMs == now)
  {
    hide TotalSums, FirstMs, LastMs, Taken;
  }

  lemma TakenIff(events: seq<Event>, e: Event)
    ensures Taken(events, e) <==> exists x | x in events :: x.sessionId == e.sessionId && x.seqNo == e.seqNo
  {
    if x :| x in events && x.sessionId == e.sessionId && x.seqNo == e.seqNo {
      var i: nat :| i < |events| && events[i] == x;
    }
    if i: nat :| i < |events| && events[i].sessionId == e.sessionId && events[i].seqNo == e.seqNo {
      assert events[i] in events;
    }
  }

  /** After a batch of one session each of its events is stored, or one with its
      seq, nothing is lost, and the row is the recomputation; an empty batch or one
      of several sessions changes nothing. */
  lemma BatchStores(db: Db, s: string, batch: seq<Event>, now: nat)
    ensures batch == [] || (exists i | 0 <= i < |batch| :: batch[i].sessionId != s) ==> Apply(db, Batch(s, batch, now)) == db
    ensures batch != [] && (forall i | 0 <= i < |batch| :: batch[i].sessionId == s) ==>
              var after := Apply(db, Batch(s, batch, now));
              && db.events <= after.events && (forall i | 0 <= i < |batch| :: Taken(after.events, batch[i]))
              && after.rows == db.rows[s := AggregateRaw(after.events, s, now)]
  {
    if BatchAccepted(s, batch) {
      InsertEventsStores(db, batch);
    }
    hide Taken, TotalSums, FirstMs, LastMs, InsertEvents;
  }

  lemma {:induction false} InsertEventsStores(db: Db, batch: seq<Event>)
    ensures InsertEvents(db, batch).rows == db.rows && db.events <= InsertEvents(db, batch).events
    ensures forall i | 0 <= i < |batch| :: Taken(InsertEvents(db, batch).events, batch[i])
  {
    if batch != [] {
      var n := |batch| - 1;
      var before := InsertEvents(db, batch[..n]);
      InsertEventsStores(db, batch[..n]);
      forall i | 0 <= i < |batch| ensures Taken(InsertEvent(before, batch[n]).events, batch[i]) {
        if i < n {
          assert batch[..n][i] == batch[i];
          TakenStays(before.events, batch[n], batch[i]);
        } else {
          TakenByItself(before.events, batch[n]);
        }
      }
      hide Taken;
    }
  }

  lemma TakenStays(events: seq<Event>, e: Event, x: Event)
    requires Taken(events, x)
    ensures Taken(events + [e], x)
  {
    var i: nat :| i < |events| && events[i].sessionId == x.sessionId && events[i].seqNo == x.seqNo;
    assert (events + [e])[i] == events[i];
  }

  lemma TakenByItself(events: seq<Event>, e: Event)
    ensures Taken(events + [e], e)
  {
    assert (events + [e])[|events|] == e;
  }

  // ---- The store, updated in place ----

  class AggregateStore {
    var events: seq<Event>
    var rows: map<string, SessionAggregate>

    ghost function Value(): Db
      reads this
    {
      Db(events, rows)
    }

    constructor ()
      ensures Value() == Db([], map[])
    {
      events, rows := [], map[];
    }

    method UpsertSession(s: string, now: nat) returns (row: SessionAggregate)
      modifies this`rows
      ensures Value() == Upsert(old(Value()), s, now) && row == rows[s]
    {
      row := AggregateRaw(events, s, now);
      rows := rows[s := row];
    }

    method ApplyLive(e: Event, now: nat)
      modifies this`rows
      ensures Value() == ApplyEvent(old(Value()), e, now)
    {
      if e.sessionId !in rows {
        var _ := UpsertSession(e.sessionId, now);
        return;
      }
      var row := rows[e.sessionId];
      var first := SqlMin(row.firstEventMs, Some(e.tsMs));
      var last := SqlMax(row.lastEventMs, Some(e.tsMs));
      rows := rows[e.sessionId := SessionAggregate(Plus(row.sums, Increment(e)), first, last, now)];
    }

    method AppendEvent(e: Event, now: nat)
      modifies this
      ensures Value() == Apply(old(Value()), Append(e, now))
    {
      if Taken(events, e) {
        return;
      }
      events := events + [e];
      ApplyLive(e, now);
    }

    method AppendBatch(s: string, batch: seq<Event>, now: nat)
      modifies this
      ensures Value() == Apply(old(Value()), Batch(s, batch, now))
    {
      if !BatchAccepted(s, batch) {
        return;
      }
      for i := 0 to |batch|
        invariant Value() == InsertEvents(old(Value()), batch[..i])
      {
        assert batch[..i + 1][..i] == batch[..i];
        if !Taken(events, batch[i]) {
          events := events + [batch[i]];
        }
      }
      assert batch[..|batch|] == batch;
      var _ := UpsertSession(s, now);
    }

    method RebuildWorkspace(sessions: seq<string>, now: nat) returns (count: nat)
      modifies this`rows
      ensures Value() == Apply(old(Value()), Rebuild(sessions, now)) && count == |sessions|
    {
      count := 0;
      for i := 0 to |sessions|
        invariant Value() == UpsertAll(old(Value()), sessions[..i], now) && count == i
      {
        assert sessions[..i + 1][..i] == sessions[..i];
        var _ := UpsertSession(sessions[i], now);
        count := count + 1;
      }
      assert sessions[..|sessions|] == sessions;
    }
  }
}
