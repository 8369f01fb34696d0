/** Which histories of appends the audit of `src/extensions/hash_chain.rs` lets
    pass: those in which hashed events came in the order of their seq. */
module AuditOrder {
  import opened Options
  import opened AuditChain

  /** The digest tells its inputs apart and never gives the genesis text. */
  ghost predicate CollisionFree(h: Digest) {
    && (forall p, e, q, f {:trigger h(p, e), h(q, f)} :: h(p, e) == h(q, f) ==> p == q && e == f)
    && (forall p, e :: h(p, e) != GENESIS)
  }

  // ---- The audit from any point on ----

  function Breaks(h: Digest, prev: Option<Text>, entries: seq<Entry>): seq<HashBreak> {
    VerifyEntries(h, Audit(prev, EMPTY_REPORT), entries).report.broken
  }

  /** Breaks depend on the carried hash alone, and are added to those before. */
  lemma {:induction false} BreaksAdd(h: Digest, a: Audit, entries: seq<Entry>)
    ensures var r := VerifyEntries(h, a, entries);
            r.report.broken == a.report.broken + Breaks(h, a.prev, entries) && r.prev == Carried(entries, a.prev)
    decreases |entries|
  {
    var start := Audit(a.prev, EMPTY_REPORT);
    if entries == [] {
      assert a.report.broken + [] == a.report.broken;
      return;
    }
    var n := |entries| - 1;
    BreaksAdd(h, a, entries[..n]);
    BreaksAdd(h, start, entries[..n]);
    HashedSoFar(entries);
    BreaksAddOne(h, VerifyEntries(h, a, entries[..n]), VerifyEntries(h, start, entries[..n]), a.report.broken, entries[n]);
  }

  lemma BreaksAddOne(h: Digest, a: Audit, b: Audit, before: seq<HashBreak>, entry: Entry)
    requires a.prev == b.prev && a.report.broken == before + b.report.broken
    ensures VerifyEntry(h, a, entry).report.broken == before + VerifyEntry(h, b, entry).report.broken
    ensures VerifyEntry(h, a, entry).prev == if entry.row.Some? then Some(entry.row.value.eventHash) else a.prev
  {
  }

  ghost predicate CleanFrom(h: Digest, prev: Option<Text>, entries: seq<Entry>) {
    Breaks(h, prev, entries) == []
  }

  lemma CleanSplits(h: Digest, prev: Option<Text>, x: seq<Entry>, y: seq<Entry>)
    ensures CleanFrom(h, prev, x + y) <==> CleanFrom(h, prev, x) && CleanFrom(h, Carried(x, prev), y)
  {
    VerifyConcat(h, Audit(prev, EMPTY_REPORT), x, y);
    BreaksAdd(h, Audit(prev, EMPTY_REPORT), x);
    BreaksAdd(h, VerifyEntries(h, Audit(prev, EMPTY_REPORT), x), y);
  }

  /** Events without a hash break nothing. */
  lemma {:induction false} UnhashedClean(h: Digest, prev: Option<Text>, entries: seq<Entry>)
    requires !AnyHashed(entries)
    ensures CleanFrom(h, prev, entries) && Carried(entries, prev) == prev
  {
    if entries != [] {
      var n := |entries| - 1;
      HashedSoFar(entries);
      UnhashedClean(h, prev, entries[..n]);
    }
  }

  lemma RowBreaks(h: Digest, prev: Text, entry: Entry)
    requires entry.row.Some? && entry.row.value.prevHash != prev
    ensures !CleanFrom(h, Some(prev), [entry])
  {
    VerifyOne(h, Audit(Some(prev), EMPTY_REPORT), entry);
  }

  /** A first stored row that does not continue the carried hash does. */
  lemma FirstRowBreaks(h: Digest, prev: Text, y: seq<Entry>)
    requires AnyHashed(y) && y[FirstHashed(y)].row.value.prevHash != prev
    ensures !CleanFrom(h, Some(prev), y)
  {
    var f := FirstHashed(y);
    var before, first, later := y[..f], y[f], y[f + 1..];
    assert y == before + ([first] + later);
    assert !AnyHashed(before);
    hide CleanFrom, AnyHashed, FirstHashed, Carried;
    UnhashedClean(h, Some(prev), before);
    CleanSplits(h, Some(prev), before, [first] + later);
    CleanSplits(h, Some(prev), [first], later);
    RowBreaks(h, prev, first);
  }

  // ---- What a history stores ----

  /** Each stored row continues the genesis text or the hash of a stored row. */
  ghost predicate RowKnown(h: Digest, entries: seq<Entry>, i: nat)
    requires i < |entries| && entries[i].row.Some?
  {
    var row := entries[i].row.value;
    && row.eventHash == h(row.prevHash, entries[i].event)
    && (row.prevHash == GENESIS || exists j | 0 <= j < |entries| :: HasHash(entries[j], row.prevHash))
  }

  predicate HasHash(entry: Entry, hash: Text) {
    entry.row.Some? && entry.row.value.eventHash == hash
  }

  ghost predicate RowsKnown(h: Digest, entries: seq<Entry>) {
    forall i | 0 <= i < |entries| && entries[i].row.Some? :: RowKnown(h, entries, i)
  }

  lemma {:induction false} LastHashIsKnown(entries: seq<Entry>)
    ensures LastHash(entries, GENESIS) == GENESIS
            || exists j | 0 <= j < |entries| :: HasHash(entries[j], LastHash(entries, GENESIS))
  {
    if entries != [] {
      var n := |entries| - 1;
      LastHashIsKnown(entries[..n]);
      if entries[n].row.Some? {
        assert HasHash(entries[n], LastHash(entries, GENESIS));
      } else if j :| 0 <= j < n && HasHash(entries[..n][j], LastHash(entries[..n], GENESIS)) {
        assert HasHash(entries[j], LastHash(entries, GENESIS));
      }
    }
  }

  /** The entry that an append makes between `x` and `y`. */
  function NewEntry(h: Digest, x: seq<Entry>, event: Event, hashed: bool): Entry {
    var prev := LastHash(x, GENESIS);
    Entry(event, if hashed then Some(HashRow(prev, h(prev, event))) else None)
  }

  lemma InsertKeepsKnown(h: Digest, x: seq<Entry>, y: seq<Entry>, event: Event, hashed: bool)
    requires RowsKnown(h, x + y)
    ensures RowsKnown(h, x + [NewEntry(h, x, event, hashed)] + y)
  {
    var was, m := x + y, NewEntry(h, x, event, hashed);
    var all := x + [m] + y;
    LastHashIsKnown(x);
    hide LastHash;
    forall i | 0 <= i < |all| && all[i].row.Some? ensures RowKnown(h, all, i) {
      if i == |x| {
        if j :| 0 <= j < |x| && HasHash(x[j], LastHash(x, GENESIS)) {
          assert all[j] == x[j];
        }
      } else {
        var k := if i < |x| then i else i - 1;
        assert was[k] == all[i] && RowKnown(h, was, k);
        if j :| 0 <= j < |was| && HasHash(was[j], was[k].row.value.prevHash) {
          assert all[if j < |x| then j else j + 1] == was[j];
        }
      }
    }
  }

  /** A row that was there before a new event cannot continue its hash. */
  lemma NewHashIsNew(h: Digest, entries: seq<Entry>, i: nat, prev: Text, event: Event)
    requires CollisionFree(h) && RowsKnown(h, entries) && i < |entries| && entries[i].row.Some?
    requires forall e | e in entries :: e.event.seqNo != event.seqNo
    ensures entries[i].row.value.prevHash != h(prev, event)
  {
    assert RowKnown(h, entries, i);
    if j :| 0 <= j < |entries| && HasHash(entries[j], entries[i].row.value.prevHash) {
      assert RowKnown(h, entries, j) && entries[j] in entries;
    }
  }

  /** One more event, inserted anywhere: the audit still passes exactly when it
      passed before and the event has no hash or stands above all hashed ones. */
  lemma InsertClean(h: Digest, x: seq<Entry>, y: seq<Entry>, event: Event, hashed: bool)
    requires CollisionFree(h) && RowsKnown(h, x + y)
    requires forall e | e in x + y :: e.event.seqNo != event.seqNo
    ensures CleanFrom(h, None, x + [NewEntry(h, x, event, hashed)] + y)
            <==> CleanFrom(h, None, x + y) && (hashed ==> !AnyHashed(y))
  {
    var m := NewEntry(h, x, event, hashed);
    CleanSplits(h, None, x, y);
    CleanSplits(h, None, x + [m], y);
    CleanSplits(h, None, x, [m]);
    NewEntryClean(h, x, event, hashed);
    if hashed && AnyHashed(y) {
      var f := FirstHashed(y);
      assert (x + y)[|x| + f] == y[f];
      NewHashIsNew(h, x + y, |x| + f, LastHash(x, GENESIS), event);
      FirstRowBreaks(h, h(LastHash(x, GENESIS), event), y);
    } else if hashed {
      UnhashedClean(h, Carried(x + [m], None), y);
      UnhashedClean(h, Carried(x, None), y);
    }
  }

  lemma NewEntryClean(h: Digest, x: seq<Entry>, event: Event, hashed: bool)
    ensures var m := NewEntry(h, x, event, hashed);
            && CleanFrom(h, Carried(x, None), [m])
            && Carried(x + [m], None) == if hashed then Some(m.row.value.eventHash) else Carried(x, None)
  {
    var m := NewEntry(h, x, event, hashed);
    VerifyOne(h, Audit(Carried(x, None), EMPTY_REPORT), m);
    LastHashOf(x, GENESIS, "");
    HashedSoFar(x + [m]);
    assert (x + [m])[..|x|] == x;
  }

  // ---- Histories ----

  /** Arrival `i` was stored: no earlier one has its seq. */
  ghost predicate Stored(arrivals: seq<Arrival>, i: nat)
    requires i < |arrivals|
  {
    forall k | 0 <= k < i :: arrivals[k].event.seqNo != arrivals[i].event.seqNo
  }

  ghost predicate Kept(arrivals: seq<Arrival>, i: nat)
    requires i < |arrivals|
  {
    Stored(arrivals, i) && arrivals[i].hashed
  }

  /** The hashed events came in the order of their seq. */
  ghost predicate InOrder(arrivals: seq<Arrival>) {
    forall i, j | 0 <= i < j < |arrivals| && Kept(arrivals, i) && Kept(arrivals, j) ::
      arrivals[i].event.seqNo < arrivals[j].event.seqNo
  }

  lemma {:induction false} BelowBounds(entries: seq<Entry>, s: nat)
    requires SeqOrder(entries)
    ensures forall i | 0 <= i < Below(entries, s) :: entries[i].event.seqNo < s
    ensures forall i | Below(entries, s) <= i < |entries| :: entries[i].event.seqNo >= s
  {
    if entries != [] && entries[0].event.seqNo < s {
      var rest := entries[1..];
      assert forall i | 0 <= i < |rest| :: rest[i] == entries[i + 1];
      BelowBounds(rest, s);
    }
  }

  ghost predicate Stands(arrivals: seq<Arrival>, i: nat, e: Entry) {
    && i < |arrivals| && Stored(arrivals, i)
    && arrivals[i].event == e.event && (e.row.Some? <==> arrivals[i].hashed)
  }

  /** The entries are the stored arrivals. */
  ghost predicate Holds(arrivals: seq<Arrival>, entries: seq<Entry>) {
    && (forall e | e in entries :: exists i :: Stands(arrivals, i, e))
    && (forall i | 0 <= i < |arrivals| && Stored(arrivals, i) :: exists e :: e in entries && Stands(arrivals, i, e))
  }

  lemma {:induction false} FirstWithSeq(arrivals: seq<Arrival>, i: nat) returns (j: nat)
    requires i < |arrivals|
    ensures j <= i && Stored(arrivals, j) && arrivals[j].event.seqNo == arrivals[i].event.seqNo
  {
    j := i;
    if k: nat :| k < i && arrivals[k].event.seqNo == arrivals[i].event.seqNo {
      j := FirstWithSeq(arrivals, k);
    }
  }

  lemma StoredBefore(arrivals: seq<Arrival>, n: nat)
    requires n <= |arrivals|
    ensures forall i | 0 <= i < n :: Stored(arrivals[..n], i) <==> Stored(arrivals, i)
  {
  }

  /** An arrival is stored exactly when no entry has its seq. */
  lemma StoredIffNew(arrivals: seq<Arrival>, entries: seq<Entry>)
    requires arrivals != [] && Holds(arrivals[..|arrivals| - 1], entries)
    ensures var n := |arrivals| - 1;
            Stored(arrivals, n) <==> forall e | e in entries :: e.event.seqNo != arrivals[n].event.seqNo
  {
    var n := |arrivals| - 1;
    var before := arrivals[..n];
    StoredBefore(arrivals, n);
    forall e | e in entries ensures exists k | 0 <= k < n :: arrivals[k].event == e.event {
      var i: nat :| Stands(before, i, e);
      assert arrivals[i] == before[i];
    }
    if k: nat :| k < n && arrivals[k].event.seqNo == arrivals[n].event.seqNo {
      var j := FirstWithSeq(before, k);
      var e :| e in entries && Stands(before, j, e);
    }
  }

  lemma StandsBefore(arrivals: seq<Arrival>, n: nat, i: nat, e: Entry)
    requires i < n <= |arrivals|
    ensures Stands(arrivals[..n], i, e) <==> Stands(arrivals, i, e)
    ensures Stored(arrivals[..n], i) <==> Stored(arrivals, i)
  {
    StoredBefore(arrivals, n);
    hide Stored;
  }

  lemma StandsIn(arrivals: seq<Arrival>, i: nat, e: Entry)
    requires Stands(arrivals, i, e)
    ensures i < |arrivals|
  {
  }

  lemma HoldsNext(arrivals: seq<Arrival>, entries: seq<Entry>, after: seq<Entry>, m: Entry)
    requires arrivals != [] && Holds(arrivals[..|arrivals| - 1], entries)
    requires forall e :: e in after <==> e in entries || e == m
    requires Stands(arrivals, |arrivals| - 1, m)
    ensures Holds(arrivals, after)
  {
    var n := |arrivals| - 1;
    var before := arrivals[..n];
    hide Stored, Stands;
    forall e | e in after ensures exists i :: Stands(arrivals, i, e) {
      if e in entries {
        var i: nat :| Stands(before, i, e);
        StandsIn(before, i, e);
        StandsBefore(arrivals, n, i, e);
      } else {
        assert Stands(arrivals, n, e);
      }
    }
    forall i: nat | i < |arrivals| && Stored(arrivals, i) ensures exists e :: e in after && Stands(arrivals, i, e) {
      if i < n {
        StandsBefore(arrivals, n, i, m);
        var e :| e in entries && Stands(before, i, e);
        StandsBefore(arrivals, n, i, e);
        assert e in after;
      } else {
        assert m in after;
      }
    }
  }

  lemma HoldsStill(arrivals: seq<Arrival>, entries: seq<Entry>)
    requires arrivals != [] && Holds(arrivals[..|arrivals| - 1], entries) && !Stored(arrivals, |arrivals| - 1)
    ensures Holds(arrivals, entries)
  {
    var n := |arrivals| - 1;
    var before := arrivals[..n];
    hide Stored, Stands;
    forall e | e in entries ensures exists i :: Stands(arrivals, i, e) {
      var i: nat :| Stands(before, i, e);
      StandsIn(before, i, e);
      StandsBefore(arrivals, n, i, e);
    }
    forall i: nat | i < |arrivals| && Stored(arrivals, i) ensures exists e :: e in entries && Stands(arrivals, i, e) {
      StandsBefore(arrivals, n, i, Entry(arrivals[i].event, None));
      var e :| e in entries && Stands(before, i, e);
      StandsBefore(arrivals, n, i, e);
    }
  }

  /** Where an append puts its event. */
  lemma AppendSplits(h: Digest, entries: seq<Entry>, event: Event, hashed: bool) returns (k: nat)
    requires SeqOrder(entries)
    ensures k <= |entries|
    ensures forall i | 0 <= i < k :: entries[i].event.seqNo < event.seqNo
    ensures forall i | k <= i < |entries| :: entries[i].event.seqNo >= event.seqNo
    ensures Append(h, entries, event, hashed)
            == if IsNew(entries, event)
               then entries[..k] + [NewEntry(h, entries[..k], event, hashed)] + entries[k..] else entries
  {
    k := Below(entries, event.seqNo);
    BelowBounds(entries, event.seqNo);
    if !IsNew(entries, event) {
      var i: nat :| i < |entries| && entries[i].event.seqNo == event.seqNo;
      assert k <= i && entries[k].event.seqNo <= entries[i].event.seqNo;
    } else if k < |entries| {
      assert entries[k] in entries;
    }
    hide Below, LastHash;
  }

  ghost predicate IsNew(entries: seq<Entry>, event: Event) {
    forall e | e in entries :: e.event.seqNo != event.seqNo
  }

  ghost predicate Sound(h: Digest, arrivals: seq<Arrival>) {
    SeqOrder(History(h, arrivals)) && RowsKnown(h, History(h, arrivals)) && Holds(arrivals, History(h, arrivals))
  }

  lemma InsertOrder(x: seq<Entry>, m: Entry, y: seq<Entry>)
    requires SeqOrder(x + y)
    requires (forall e | e in x :: e.event.seqNo < m.event.seqNo) && (forall e | e in y :: e.event.seqNo > m.event.seqNo)
    ensures SeqOrder(x + [m] + y)
  {
    var was, all := x + y, x + [m] + y;
    forall i, j | 0 <= i < j < |all| ensures all[i].event.seqNo < all[j].event.seqNo {
      if i < |x| {
        assert all[i] == was[i] && all[i] in x;
      } else if i > |x| {
        assert all[i] == was[i - 1];
      }
      if j < |x| {
        assert all[j] == was[j];
      } else if j > |x| {
        assert all[j] == was[j - 1] && y[j - |x| - 1] == all[j];
        assert all[j] in y;
      }
    }
  }

  lemma {:induction false} HistorySound(h: Digest, arrivals: seq<Arrival>)
    ensures Sound(h, arrivals)
  {
    if arrivals == [] {
      return;
    }
    var n := |arrivals| - 1;
    var entries, last := History(h, arrivals[..n]), arrivals[n];
    HistorySound(h, arrivals[..n]);
    StoredIffNew(arrivals, entries);
    var k := AppendSplits(h, entries, last.event, last.hashed);
    HistoryNext(h, arrivals);
    hide History, Append;
    if IsNew(entries, last.event) {
      HistoryGrows(h, arrivals, entries, k);
    } else {
      HoldsStill(arrivals, entries);
    }
  }

  lemma HistoryGrows(h: Digest, arrivals: seq<Arrival>, entries: seq<Entry>, k: nat)
    requires arrivals != [] && k <= |entries|
    requires SeqOrder(entries) && RowsKnown(h, entries) && Holds(arrivals[..|arrivals| - 1], entries)
    requires var last := arrivals[|arrivals| - 1];
             && IsNew(entries, last.event) && Stored(arrivals, |arrivals| - 1)
             && (forall i | 0 <= i < k :: entries[i].event.seqNo < last.event.seqNo)
             && (forall i | k <= i < |entries| :: entries[i].event.seqNo >= last.event.seqNo)
    ensures var last := arrivals[|arrivals| - 1];
            var after := entries[..k] + [NewEntry(h, entries[..k], last.event, last.hashed)] + entries[k..];
            SeqOrder(after) && RowsKnown(h, after) && Holds(arrivals, after)
  {
    var last := arrivals[|arrivals| - 1];
    var x, y := entries[..k], entries[k..];
    var m := NewEntry(h, x, last.event, last.hashed);
    assert x + y == entries;
    hide RowsKnown, Holds, LastHash;
    InsertKeepsKnown(h, x, y, last.event, last.hashed);
    forall e | e in y ensures e.event.seqNo > m.event.seqNo {
      assert e in entries;
    }
    InsertOrder(x, m, y);
    HoldsNext(arrivals, entries, x + [m] + y, m);
  }

  /** A stored event stands above the new one exactly when a kept arrival did. */
  lemma HashedAbove(arrivals: seq<Arrival>, entries: seq<Entry>, s: nat, k: nat)
    requires Holds(arrivals, entries) && k <= |entries|
    requires forall i | 0 <= i < k :: entries[i].event.seqNo < s
    requires forall i | k <= i < |entries| :: entries[i].event.seqNo > s
    ensures AnyHashed(entries[k..])
            <==> exists i | 0 <= i < |arrivals| :: Kept(arrivals, i) && arrivals[i].event.seqNo > s
  {
    var y := entries[k..];
    if AnyHashed(y) {
      var j: nat :| j < |y| && y[j].row.Some?;
      assert y[j] == entries[k + j] && y[j] in entries;
      var i: nat :| Stands(arrivals, i, y[j]);
      assert Kept(arrivals, i);
    }
    if i: nat :| i < |arrivals| && Kept(arrivals, i) && arrivals[i].event.seqNo > s {
      var e :| e in entries && Stands(arrivals, i, e);
      var j: nat :| j < |entries| && entries[j] == e;
      assert y[j - k] == e;
    }
  }

  /** One more arrival keeps the order unless it is stored with a hash below one
      that was kept. */
  lemma InOrderNext(arrivals: seq<Arrival>)
    requires arrivals != []
    ensures var n := |arrivals| - 1;
            InOrder(arrivals)
            <==> && InOrder(arrivals[..n])
                 && (Kept(arrivals, n) ==> !exists i | 0 <= i < n :: Kept(arrivals[..n], i)
                                             && arrivals[..n][i].event.seqNo > arrivals[n].event.seqNo)
  {
    var n := |arrivals| - 1;
    var before := arrivals[..n];
    StoredBefore(arrivals, n);
    assert forall i | 0 <= i < n :: before[i] == arrivals[i] && (Kept(before, i) <==> Kept(arrivals, i));
    if InOrder(arrivals) {
      forall i, j | 0 <= i < j < n && Kept(before, i) && Kept(before, j) ensures before[i].event.seqNo < before[j].event.seqNo {
        assert Kept(arrivals, i) && Kept(arrivals, j);
      }
    }
  }

  /** Main result: with a digest free of collisions, the audit of a history finds
      no break if and only if its hashed events came in the order of their seq. */
  lemma {:induction false} CleanIffInOrder(h: Digest, arrivals: seq<Arrival>)
    requires CollisionFree(h)
    ensures VerifySession(h, History(h, arrivals)).broken == [] <==> InOrder(arrivals)
  {
    if arrivals == [] {
      return;
    }
    var n := |arrivals| - 1;
    var before, last := arrivals[..n], arrivals[n];
    var entries := History(h, before);
    SessionClean(h, entries);
    SessionClean(h, History(h, arrivals));
    HistoryNext(h, arrivals);
    HistorySound(h, before);
    StoredIffNew(arrivals, entries);
    hide History, Append, InOrder, RowsKnown, VerifySession, CleanFrom, Stored, Holds;
    CleanIffInOrder(h, before);
    InOrderNext(arrivals);
    AppendClean(h, before, entries, last);
  }

  lemma SessionClean(h: Digest, entries: seq<Entry>)
    ensures VerifySession(h, entries).broken == [] <==> CleanFrom(h, None, entries)
  {
  }

  /** One append, after which the audit passes as the order of hashed events says. */
  lemma AppendClean(h: Digest, before: seq<Arrival>, entries: seq<Entry>, last: Arrival)
    requires CollisionFree(h) && SeqOrder(entries) && RowsKnown(h, entries) && Holds(before, entries)
    ensures var above := exists i | 0 <= i < |before| :: Kept(before, i) && before[i].event.seqNo > last.event.seqNo;
            CleanFrom(h, None, Append(h, entries, last.event, last.hashed))
            <==> CleanFrom(h, None, entries) && (IsNew(entries, last.event) && last.hashed ==> !above)
  {
    var k := AppendSplits(h, entries, last.event, last.hashed);
    hide Append, RowsKnown, CleanFrom, Kept;
    if IsNew(entries, last.event) {
      assert entries[..k] + entries[k..] == entries;
      InsertClean(h, entries[..k], entries[k..], last.event, last.hashed);
      assert forall i | k <= i < |entries| :: entries[i] in entries;
      HashedAbove(before, entries, last.event.seqNo, k);
    }
  }
}
