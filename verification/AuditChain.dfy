/** The stored hash chain of a session and its audit:
    `src/extensions/hash_chain.rs`.

    The digest of a previous hash and an event is a parameter `h`; nothing
    assumes that it is injective, so the conditions below name the equalities of
    digests under which an alteration stays unseen. */
module AuditChain {
  import opened Options

  type Text = string

  const GENESIS: Text := "blake3:genesis"

  datatype Event = Event(seqNo: nat, content: string)

  type Digest = (Text, Event) -> Text

  datatype HashRow = HashRow(prevHash: Text, eventHash: Text)

  /** An event of the session with its row of `event_hashes`, if it has one. */
  datatype Entry = Entry(event: Event, row: Option<HashRow>)

  /** The events of a session are listed in order of their seq. */
  ghost predicate SeqOrder(entries: seq<Entry>) {
    forall i, j | 0 <= i < j < |entries| :: entries[i].event.seqNo < entries[j].event.seqNo
  }

  // ---- Storing ----

  /** The last stored hash of these entries, or `start` when there is none. */
  function LastHash(entries: seq<Entry>, start: Text): Text {
    if entries == [] then start
    else
      var last := entries[|entries| - 1];
      if last.row.Some? then last.row.value.eventHash else LastHash(entries[..|entries| - 1], start)
  }

  /** Number of entries with a seq below `s`. */
  function Below(entries: seq<Entry>, s: nat): (k: nat)
    ensures k <= |entries|
  {
    if entries == [] || entries[0].event.seqNo >= s then 0 else 1 + Below(entries[1..], s)
  }

  /** `store_event_hash`: the row that is written for an event. */
  function RowFor(h: Digest, entries: seq<Entry>, event: Event): HashRow {
    var prev := LastHash(entries[..Below(entries, event.seqNo)], GENESIS);
    HashRow(prev, h(prev, event))
  }

  /** A new event: ignored when its seq is taken; older stores wrote no hash. */
  function Append(h: Digest, entries: seq<Entry>, event: Event, hashed: bool): seq<Entry> {
    var k := Below(entries, event.seqNo);
    if k < |entries| && entries[k].event.seqNo == event.seqNo then entries
    else entries[..k] + [Entry(event, if hashed then Some(RowFor(h, entries, event)) else None)] + entries[k..]
  }

  // ---- The audit ----

  datatype Reason = PreviousHash | EventHash

  datatype HashBreak = HashBreak(seqNo: nat, reason: Reason)

  datatype Report = Report(checked: nat, verified: nat, unverifiable: nat, broken: seq<HashBreak>)

  const EMPTY_REPORT := Report(0, 0, 0, [])

  datatype Audit = Audit(prev: Option<Text>, report: Report)

  function VerifyRow(h: Digest, a: Audit, event: Event, row: HashRow): Audit {
    var afterPrev := if a.prev.Some? && a.prev.value != row.prevHash
                     then a.report.(broken := a.report.broken + [HashBreak(event.seqNo, PreviousHash)])
                     else a.report;
    var afterHash := if h(row.prevHash, event) != row.eventHash
                     then afterPrev.(broken := afterPrev.broken + [HashBreak(event.seqNo, EventHash)])
                     else afterPrev.(verified := afterPrev.verified + 1);
    Audit(Some(row.eventHash), afterHash)
  }

  function VerifyEntry(h: Digest, a: Audit, entry: Entry): Audit {
    var counted := a.(report := a.report.(checked := a.report.checked + 1));
    match entry.row
    case Some(row) => VerifyRow(h, counted, entry.event, row)
    case None => counted.(report := counted.report.(unverifiable := counted.report.unverifiable + 1))
  }

  function VerifyEntries(h: Digest, a: Audit, entries: seq<Entry>): Audit {
    if entries == [] then a
    else VerifyEntry(h, VerifyEntries(h, a, entries[..|entries| - 1]), entries[|entries| - 1])
  }

  function VerifySession(h: Digest, entries: seq<Entry>): Report {
    VerifyEntries(h, Audit(None, EMPTY_REPORT), entries).report
  }

  // ---- Linked entries ----

  /** Every stored row continues the last stored hash, starting from `start`, and
      holds the digest of its event. */
  ghost predicate Linked(h: Digest, entries: seq<Entry>, start: Text) {
    forall i | 0 <= i < |entries| && entries[i].row.Some? :: LinkedAt(h, entries, start, i)
  }

  ghost predicate LinkedAt(h: Digest, entries: seq<Entry>, start: Text, i: nat)
    requires i < |entries| && entries[i].row.Some?
  {
    && entries[i].row.value.prevHash == LastHash(entries[..i], start)
    && entries[i].row.value.eventHash == h(entries[i].row.value.prevHash, entries[i].event)
  }

  predicate AnyHashed(entries: seq<Entry>) {
    exists i | 0 <= i < |entries| :: entries[i].row.Some?
  }

  /** First entry that has a stored row. */
  function FirstHashed(entries: seq<Entry>): (i: nat)
    requires AnyHashed(entries)
    ensures i < |entries| && entries[i].row.Some?
    ensures forall j | 0 <= j < i :: entries[j].row.None?
  {
    if entries[0].row.Some? then 0
    else
      assert forall i | 0 < i < |entries| :: entries[i] == entries[1..][i - 1];
      1 + FirstHashed(entries[1..])
  }

  function Hashed(entries: seq<Entry>): nat {
    if entries == [] then 0 else Hashed(entries[..|entries| - 1]) + (if entries[|entries| - 1].row.Some? then 1 else 0)
  }

  lemma {:induction false} VerifyConcat(h: Digest, a: Audit, x: seq<Entry>, y: seq<Entry>)
    ensures VerifyEntries(h, a, x + y) == VerifyEntries(h, VerifyEntries(h, a, x), y)
  {
    if y == [] {
      assert x + y == x;
    } else {
      assert (x + y)[..|x + y| - 1] == x + y[..|y| - 1];
      VerifyConcat(h, a, x, y[..|y| - 1]);
    }
  }

  lemma LinkedPrefix(h: Digest, entries: seq<Entry>, start: Text, k: nat)
    requires Linked(h, entries, start) && k <= |entries|
    ensures Linked(h, entries[..k], start)
  {
    forall i | 0 <= i < k && entries[..k][i].row.Some? ensures LinkedAt(h, entries[..k], start, i) {
      assert LinkedAt(h, entries, start, i);
      assert entries[..k][..i] == entries[..i];
    }
  }

  /** The hash that the audit carries after these entries. */
  function Carried(entries: seq<Entry>, prev: Option<Text>): Option<Text> {
    if AnyHashed(entries) then Some(LastHash(entries, "")) else prev
  }

  lemma LastHashOf(entries: seq<Entry>, a: Text, b: Text)
    ensures AnyHashed(entries) ==> LastHash(entries, a) == LastHash(entries, b)
    ensures !AnyHashed(entries) ==> LastHash(entries, a) == a
  {
    if entries != [] {
      var before := entries[..|entries| - 1];
      assert forall i | 0 <= i < |before| :: before[i] == entries[i];
      LastHashOf(before, a, b);
      if AnyHashed(before) {
        var i :| 0 <= i < |before| && before[i].row.Some?;
        assert entries[i].row.Some?;
      }
    }
  }

  /** What the audit reports on linked entries when the hash before them is not
      the one that it carries: one break, at the first stored row. */
  function Suspect(entries: seq<Entry>, start: Text, prev: Option<Text>): seq<HashBreak> {
    if AnyHashed(entries) && prev.Some? && prev.value != start
    then [HashBreak(entries[FirstHashed(entries)].event.seqNo, PreviousHash)] else []
  }

  lemma {:induction false} LinkedAudit(h: Digest, a: Audit, entries: seq<Entry>, start: Text)
    requires Linked(h, entries, start)
    ensures var r := VerifyEntries(h, a, entries);
            && r.prev == Carried(entries, a.prev)
            && r.report.broken == a.report.broken + Suspect(entries, start, a.prev)
            && r.report.checked == a.report.checked + |entries|
            && r.report.verified == a.report.verified + Hashed(entries)
            && r.report.unverifiable == a.report.unverifiable + |entries| - Hashed(entries)
  {
    if entries == [] {
      return;
    }
    var n := |entries| - 1;
    var before, last := entries[..n], entries[n];
    LinkedPrefix(h, entries, start, n);
    LinkedAudit(h, a, before, start);
    LastHashOf(before, start, "");
    HashedSoFar(entries);
    if last.row.Some? {
      assert LinkedAt(h, entries, start, n);
    }
  }

  lemma HashedSoFar(entries: seq<Entry>)
    requires entries != []
    ensures var n := |entries| - 1; var before, last := entries[..n], entries[n];
            && (AnyHashed(entries) <==> AnyHashed(before) || last.row.Some?)
            && (AnyHashed(before) ==> FirstHashed(entries) == FirstHashed(before))
            && (!AnyHashed(before) && last.row.Some? ==> FirstHashed(entries) == n)
  {
    var n := |entries| - 1;
    var before := entries[..n];
    assert forall i | 0 <= i < n :: before[i] == entries[i];
    if AnyHashed(before) {
      var i :| 0 <= i < n && before[i].row.Some?;
      assert entries[i].row.Some?;
    }
  }

  // ---- Honest histories ----

  lemma {:induction false} BelowIs(entries: seq<Entry>, s: nat, k: nat)
    requires k <= |entries| && forall i | 0 <= i < k :: entries[i].event.seqNo < s
    requires k < |entries| ==> entries[k].event.seqNo >= s
    ensures Below(entries, s) == k
  {
    if k > 0 {
      var rest := entries[1..];
      assert forall i | 0 <= i < |rest| :: rest[i] == entries[i + 1];
      BelowIs(rest, s, k - 1);
    }
  }

  /** A run of appends, oldest first. */
  datatype Arrival = Arrival(event: Event, hashed: bool)

  function History(h: Digest, arrivals: seq<Arrival>): seq<Entry> {
    if arrivals == [] then []
    else
      var last := arrivals[|arrivals| - 1];
      Append(h, History(h, arrivals[..|arrivals| - 1]), last.event, last.hashed)
  }

  ghost predicate Increasing(arrivals: seq<Arrival>) {
    forall i, j | 0 <= i < j < |arrivals| :: arrivals[i].event.seqNo < arrivals[j].event.seqNo
  }

  ghost predicate Records(entries: seq<Entry>, arrivals: seq<Arrival>) {
    && |entries| == |arrivals|
    && forall i | 0 <= i < |entries| ::
         entries[i].event == arrivals[i].event && (entries[i].row.Some? <==> arrivals[i].hashed)
  }

  lemma RecordsNext(entries: seq<Entry>, arrivals: seq<Arrival>, entry: Entry)
    requires arrivals != [] && Records(entries, arrivals[..|arrivals| - 1])
    requires var last := arrivals[|arrivals| - 1]; entry.event == last.event && (entry.row.Some? <==> last.hashed)
    ensures Records(entries + [entry], arrivals)
  {
  }

  lemma {:induction false} IncreasingHistory(h: Digest, arrivals: seq<Arrival>)
    requires Increasing(arrivals)
    ensures var entries := History(h, arrivals);
            Records(entries, arrivals) && SeqOrder(entries) && Linked(h, entries, GENESIS)
  {
    if arrivals == [] {
      return;
    }
    var n := |arrivals| - 1;
    var before, last := History(h, arrivals[..n]), arrivals[n];
    IncreasingHistory(h, arrivals[..n]);
    assert forall i | 0 <= i < n :: before[i].event.seqNo < last.event.seqNo;
    HistoryNext(h, arrivals);
    hide Linked, History, SeqOrder, Records, Increasing, Append;
    AppendLast(h, before, last.event, last.hashed);
    var prev := LastHash(before, GENESIS);
    RecordsNext(before, arrivals, Entry(last.event, if last.hashed then Some(HashRow(prev, h(prev, last.event))) else None));
  }

  lemma HistoryNext(h: Digest, arrivals: seq<Arrival>)
    requires arrivals != []
    ensures var n := |arrivals| - 1;
            History(h, arrivals) == Append(h, History(h, arrivals[..n]), arrivals[n].event, arrivals[n].hashed)
  {
  }

  lemma AppendLast(h: Digest, before: seq<Entry>, event: Event, hashed: bool)
    requires SeqOrder(before) && Linked(h, before, GENESIS)
    requires forall i | 0 <= i < |before| :: before[i].event.seqNo < event.seqNo
    ensures var prev := LastHash(before, GENESIS);
            var entry := Entry(event, if hashed then Some(HashRow(prev, h(prev, event))) else None);
            Append(h, before, event, hashed) == before + [entry]
    ensures SeqOrder(Append(h, before, event, hashed)) && Linked(h, Append(h, before, event, hashed), GENESIS)
  {
    hide Linked, SeqOrder;
    var n := |before|;
    BelowIs(before, event.seqNo, n);
    hide Below, LastHash;
    assert before[..n] == before && before[n..] == [];
    var prev := LastHash(before, GENESIS);
    var entry := Entry(event, if hashed then Some(HashRow(prev, h(prev, event))) else None);
    assert Append(h, before, event, hashed) == before + [entry];
    SeqOrderAppend(before, entry);
    LinkedAppend(h, before, entry);
  }

  lemma SeqOrderAppend(before: seq<Entry>, entry: Entry)
    requires SeqOrder(before) && forall i | 0 <= i < |before| :: before[i].event.seqNo < entry.event.seqNo
    ensures SeqOrder(before + [entry])
  {
  }

  lemma LinkedAppend(h: Digest, before: seq<Entry>, entry: Entry)
    requires Linked(h, before, GENESIS)
    requires entry.row.Some? ==> entry.row.value == HashRow(LastHash(before, GENESIS), h(LastHash(before, GENESIS), entry.event))
    ensures Linked(h, before + [entry], GENESIS)
  {
    var entries := before + [entry];
    forall i | 0 <= i < |entries| && entries[i].row.Some? ensures LinkedAt(h, entries, GENESIS, i) {
      assert entries[..i] == before[..i];
      if i < |before| {
        assert LinkedAt(h, before, GENESIS, i);
      } else {
        assert before[..i] == before;
      }
    }
  }

  /** Main result: after any appends in increasing seq, some of them without a
      hash, the audit finds no break, verifies every hashed event, and counts
      every event as verified or unverifiable. */
  lemma HonestHistoryPasses(h: Digest, arrivals: seq<Arrival>)
    requires Increasing(arrivals)
    ensures var entries := History(h, arrivals);
            var r := VerifySession(h, entries);
            && r.broken == [] && r.checked == |arrivals| == r.verified + r.unverifiable && r.verified == Hashed(entries)
  {
    IncreasingHistory(h, arrivals);
    LinkedAudit(h, Audit(None, EMPTY_REPORT), History(h, arrivals), GENESIS);
    hide VerifyEntries, History;
    assert EMPTY_REPORT.broken + [] == [];
  }

  // ---- Alterations ----

  lemma LinkedParts(h: Digest, x: seq<Entry>, m: Entry, y: seq<Entry>, start: Text)
    requires Linked(h, x + [m] + y, start)
    ensures Linked(h, x, start)
    ensures m.row.Some? ==> m.row.value.prevHash == LastHash(x, start)
                            && m.row.value.eventHash == h(m.row.value.prevHash, m.event)
    ensures Linked(h, y, LastHash(x + [m], start))
  {
    var all := x + [m] + y;
    var k := |x| + 1;
    assert all[..|x|] == x && all[|x|] == m;
    LinkedPrefix(h, all, start, |x|);
    if m.row.Some? {
      assert LinkedAt(h, all, start, |x|);
    }
    forall i | 0 <= i < |y| && y[i].row.Some? ensures LinkedAt(h, y, LastHash(x + [m], start), i) {
      assert all[k + i] == y[i];
      assert LinkedAt(h, all, start, k + i);
      assert all[..k + i] == (x + [m]) + y[..i];
      LastHashConcat(x + [m], y[..i], start);
    }
  }

  lemma {:induction false} LastHashConcat(x: seq<Entry>, y: seq<Entry>, start: Text)
    ensures LastHash(x + y, start) == LastHash(y, LastHash(x, start))
  {
    if y == [] {
      assert x + y == x;
    } else {
      assert (x + y)[..|x + y| - 1] == x + y[..|y| - 1];
      LastHashConcat(x, y[..|y| - 1], start);
    }
  }

  lemma Begin(h: Digest, x: seq<Entry>)
    requires Linked(h, x, GENESIS)
    ensures var a := VerifyEntries(h, Audit(None, EMPTY_REPORT), x);
            a.prev == Carried(x, None) && a.report.broken == []
  {
    LinkedAudit(h, Audit(None, EMPTY_REPORT), x, GENESIS);
    assert EMPTY_REPORT.broken + [] == [];
  }

  /** Main result: altering the content of one hashed event yields exactly one
      break, at that event, unless the digest of the altered event is the old
      one. */
  lemma AlteredEventBreaks(h: Digest, x: seq<Entry>, m: Entry, y: seq<Entry>, altered: Event)
    requires Linked(h, x + [m] + y, GENESIS) && m.row.Some? && altered.seqNo == m.event.seqNo
    ensures VerifySession(h, x + [Entry(altered, m.row)] + y).broken
            == if h(m.row.value.prevHash, altered) == m.row.value.eventHash then []
               else [HashBreak(m.event.seqNo, EventHash)]
  {
    LinkedParts(h, x, m, y, GENESIS);
    Begin(h, x);
    var start := Audit(None, EMPTY_REPORT);
    var m' := Entry(altered, m.row);
    var a := VerifyEntries(h, start, x);
    LastHashOf(x, GENESIS, "");
    var b := VerifyEntry(h, a, m');
    VerifyOne(h, a, m');
    VerifyConcat(h, start, x, [m']);
    VerifyConcat(h, start, x + [m'], y);
    assert (x + [m])[..|x|] == x;
    hide VerifyEntries, LastHash, Linked;
    AfterHashed(h, b, y, m.row.value.eventHash);
  }

  lemma VerifyOne(h: Digest, a: Audit, e: Entry)
    ensures VerifyEntries(h, a, [e]) == VerifyEntry(h, a, e)
  {
    assert [e][..0] == [];
  }

  lemma AfterHashed(h: Digest, b: Audit, y: seq<Entry>, last: Text)
    requires Linked(h, y, last)
    ensures VerifyEntries(h, b, y).report.broken == b.report.broken + Suspect(y, last, b.prev)
  {
    LinkedAudit(h, b, y, last);
  }

  /** Main result: removing one hashed event together with its hash row yields
      exactly one break, at the next hashed event, if and only if hashed events
      stand before and after it and its hash is not the one before.  Cutting off
      the first or the last hashed events is never seen. */
  lemma RemovedEventBreaks(h: Digest, x: seq<Entry>, m: Entry, y: seq<Entry>)
    requires Linked(h, x + [m] + y, GENESIS) && m.row.Some?
    ensures VerifySession(h, x + y).broken
            == if AnyHashed(x) && AnyHashed(y) && m.row.value.eventHash != LastHash(x, GENESIS)
               then [HashBreak(y[FirstHashed(y)].event.seqNo, PreviousHash)] else []
  {
    LinkedParts(h, x, m, y, GENESIS);
    Begin(h, x);
    var start := Audit(None, EMPTY_REPORT);
    LastHashOf(x, GENESIS, "");
    VerifyConcat(h, start, x, y);
    assert (x + [m])[..|x|] == x;
    hide VerifyEntries, Linked;
    AfterHashed(h, VerifyEntries(h, start, x), y, m.row.value.eventHash);
  }

  /** Main result: an event that is appended late, with a seq below one that is
      already hashed, leaves exactly one break, at the next hashed event, though
      nothing was altered; no break only when its digest is the hash before. */
  lemma LateAppendBreaks(h: Digest, x: seq<Entry>, y: seq<Entry>, event: Event)
    requires Linked(h, x + y, GENESIS)
    requires (forall e | e in x :: e.event.seqNo < event.seqNo) && (forall e | e in y :: e.event.seqNo > event.seqNo)
    ensures var prev := LastHash(x, GENESIS);
            var entries := Append(h, x + y, event, true);
            && entries == x + [Entry(event, Some(HashRow(prev, h(prev, event))))] + y
            && VerifySession(h, entries).broken
               == if AnyHashed(y) && h(prev, event) != prev
                  then [HashBreak(y[FirstHashed(y)].event.seqNo, PreviousHash)] else []
  {
    var prev := LastHash(x, GENESIS);
    var m := Entry(event, Some(HashRow(prev, h(prev, event))));
    LateEntries(h, x, y, event);
    LinkedRest(h, x, y, GENESIS);
    assert (x + y)[..|x|] == x;
    LinkedPrefix(h, x + y, GENESIS, |x|);
    hide Linked, Append, Below;
    Begin(h, x);
    LastHashOf(x, GENESIS, "");
    var start := Audit(None, EMPTY_REPORT);
    var a := VerifyEntries(h, start, x);
    VerifyOne(h, a, m);
    VerifyConcat(h, start, x, [m]);
    VerifyConcat(h, start, x + [m], y);
    hide VerifyEntries, LastHash;
    AfterHashed(h, VerifyEntry(h, a, m), y, prev);
  }

  lemma LateEntries(h: Digest, x: seq<Entry>, y: seq<Entry>, event: Event)
    requires (forall e | e in x :: e.event.seqNo < event.seqNo) && (forall e | e in y :: e.event.seqNo > event.seqNo)
    ensures var prev := LastHash(x, GENESIS);
            Append(h, x + y, event, true) == x + [Entry(event, Some(HashRow(prev, h(prev, event))))] + y
  {
    LatePosition(x, y, event);
    var all := x + y;
    assert all[..|x|] == x && all[|x|..] == y;
    assert y != [] ==> all[|x|] == y[0];
    hide LastHash, Below;
  }

  lemma LatePosition(x: seq<Entry>, y: seq<Entry>, event: Event)
    requires (forall e | e in x :: e.event.seqNo < event.seqNo) && (forall e | e in y :: e.event.seqNo > event.seqNo)
    ensures Below(x + y, event.seqNo) == |x|
    ensures y != [] ==> y[0].event.seqNo != event.seqNo
  {
    var all := x + y;
    assert forall i | 0 <= i < |x| :: all[i] == x[i] && x[i] in x;
    assert y != [] ==> all[|x|] == y[0] && y[0] in y;
    BelowIs(all, event.seqNo, |x|);
  }

  lemma LinkedRest(h: Digest, x: seq<Entry>, y: seq<Entry>, start: Text)
    requires Linked(h, x + y, start)
    ensures Linked(h, y, LastHash(x, start))
  {
    var all := x + y;
    forall i | 0 <= i < |y| && y[i].row.Some? ensures LinkedAt(h, y, LastHash(x, start), i) {
      assert all[|x| + i] == y[i];
      assert LinkedAt(h, all, start, |x| + i);
      assert all[..|x| + i] == x + y[..i];
      LastHashConcat(x, y[..i], start);
    }
  }

  // ---- The loops of the source ----

  class SessionStore {
    var entries: seq<Entry>

    constructor ()
      ensures entries == []
    {
      entries := [];
    }

    /** `previous_hash`: the stored hash with the greatest smaller seq. */
    method FindPreviousHash(seqNo: nat) returns (prev: Text)
      ensures prev == LastHash(entries[..Below(entries, seqNo)], GENESIS)
    {
      var k := Below(entries, seqNo);
      while k > 0
        invariant 0 <= k <= |entries|
        invariant LastHash(entries[..Below(entries, seqNo)], GENESIS) == LastHash(entries[..k], GENESIS)
      {
        assert entries[..k][..k - 1] == entries[..k - 1];
        k := k - 1;
        if entries[k].row.Some? {
          return entries[k].row.value.eventHash;
        }
      }
      return GENESIS;
    }

    /** Insert the event unless its seq is taken, then store its hash. */
    method AppendEvent(h: Digest, event: Event, hashed: bool)
      modifies this
      ensures entries == Append(h, old(entries), event, hashed)
    {
      var k := Below(entries, event.seqNo);
      if k < |entries| && entries[k].event.seqNo == event.seqNo {
        return;
      }
      var row: Option<HashRow> := None;
      if hashed {
        var prev := FindPreviousHash(event.seqNo);
        row := Some(HashRow(prev, h(prev, event)));
      }
      entries := entries[..k] + [Entry(event, row)] + entries[k..];
    }
  }

  class Auditor {
    var report: Report

    constructor ()
      ensures report == EMPTY_REPORT
    {
      report := EMPTY_REPORT;
    }

    method CheckRow(h: Digest, prev: Option<Text>, event: Event, row: HashRow) returns (next: Option<Text>)
      modifies this
      ensures Audit(next, report) == VerifyRow(h, Audit(prev, old(report)), event, row)
    {
      if prev.Some? && prev.value != row.prevHash {
        report := report.(broken := report.broken + [HashBreak(event.seqNo, PreviousHash)]);
      }
      if h(row.prevHash, event) != row.eventHash {
        report := report.(broken := report.broken + [HashBreak(event.seqNo, EventHash)]);
      } else {
        report := report.(verified := report.verified + 1);
      }
      next := Some(row.eventHash);
    }

    method CheckSession(h: Digest, entries: seq<Entry>)
      modifies this
      ensures report == VerifyEntries(h, Audit(None, old(report)), entries).report
    {
      var prev: Option<Text> := None;
      for i := 0 to |entries|
        invariant Audit(prev, report) == VerifyEntries(h, Audit(None, old(report)), entries[..i])
      {
        assert entries[..i + 1][..i] == entries[..i];
        report := report.(checked := report.checked + 1);
        match entries[i].row
        case Some(row) =>
          prev := CheckRow(h, prev, entries[i].event, row);
        case None =>
          report := report.(unverifiable := report.unverifiable + 1);
      }
      assert entries[..|entries|] == entries;
    }
  }
}
