/** The audit of `src/extensions/hash_chain.rs` over any list of entries, position
    by position. */
module AuditBreaks {
  import opened Options
  import opened AuditChain
  import opened AuditOrder

  /** `j` is the last hashed entry before `i`. */
  ghost predicate JustBefore(entries: seq<Entry>, i: nat, j: nat) {
    j < i <= |entries| && entries[j].row.Some? && forall k | j < k < i :: entries[k].row.None?
  }

  /** The stored row names another hash than the one stored before it. */
  ghost predicate LinkBroken(entries: seq<Entry>, i: nat) {
    && i < |entries| && entries[i].row.Some?
    && exists j: nat :: JustBefore(entries, i, j) && entries[j].row.value.eventHash != entries[i].row.value.prevHash
  }

  /** The stored row is not the digest of its event. */
  ghost predicate DigestBroken(h: Digest, entries: seq<Entry>, i: nat) {
    && i < |entries| && entries[i].row.Some?
    && h(entries[i].row.value.prevHash, entries[i].event) != entries[i].row.value.eventHash
  }

  /** The breaks at one position, and at all positions below `n`, in order. */
  ghost function BreaksAt(h: Digest, entries: seq<Entry>, i: nat): seq<HashBreak>
    requires i < |entries|
  {
    (if LinkBroken(entries, i) then [HashBreak(entries[i].event.seqNo, PreviousHash)] else [])
    + (if DigestBroken(h, entries, i) then [HashBreak(entries[i].event.seqNo, EventHash)] else [])
  }

  ghost function BreaksBelow(h: Digest, entries: seq<Entry>, n: nat): seq<HashBreak>
    requires n <= |entries|
  {
    if n == 0 then [] else BreaksBelow(h, entries, n - 1) + BreaksAt(h, entries, n - 1)
  }

  /** How many rows below `n` are the digest of their event, and how many events
      have no row. */
  ghost function RightBelow(h: Digest, entries: seq<Entry>, n: nat): nat
    requires n <= |entries|
  {
    if n == 0 then 0
    else RightBelow(h, entries, n - 1) + if entries[n - 1].row.Some? && !DigestBroken(h, entries, n - 1) then 1 else 0
  }

  ghost function UnhashedBelow(entries: seq<Entry>, n: nat): nat
    requires n <= |entries|
  {
    if n == 0 then 0 else UnhashedBelow(entries, n - 1) + if entries[n - 1].row.None? then 1 else 0
  }

  lemma LinkBrokenBefore(entries: seq<Entry>, n: nat, i: nat)
    requires i < n <= |entries|
    ensures LinkBroken(entries[..n], i) <==> LinkBroken(entries, i)
  {
    var before := entries[..n];
    forall j: nat ensures JustBefore(before, i, j) <==> JustBefore(entries, i, j) {
    }
    if LinkBroken(before, i) {
      var j: nat :| JustBefore(before, i, j) && before[j].row.value.eventHash != before[i].row.value.prevHash;
      assert JustBefore(entries, i, j);
    }
    if LinkBroken(entries, i) {
      var j: nat :| JustBefore(entries, i, j) && entries[j].row.value.eventHash != entries[i].row.value.prevHash;
      assert JustBefore(before, i, j);
    }
  }

  lemma {:induction false} BelowStays(h: Digest, entries: seq<Entry>, n: nat, k: nat)
    requires k <= n <= |entries|
    ensures BreaksBelow(h, entries[..n], k) == BreaksBelow(h, entries, k)
    ensures RightBelow(h, entries[..n], k) == RightBelow(h, entries, k)
    ensures UnhashedBelow(entries[..n], k) == UnhashedBelow(entries, k)
  {
    if k > 0 {
      LinkBrokenBefore(entries, n, k - 1);
      hide LinkBroken;
      assert entries[..n][k - 1] == entries[k - 1];
      assert BreaksAt(h, entries[..n], k - 1) == BreaksAt(h, entries, k - 1);
      assert DigestBroken(h, entries[..n], k - 1) <==> DigestBroken(h, entries, k - 1);
      hide BreaksAt, DigestBroken;
      BelowStays(h, entries, n, k - 1);
    }
  }

  lemma LastBefore(entries: seq<Entry>, i: nat, j: nat, k: nat)
    requires JustBefore(entries, i, j) && JustBefore(entries, i, k)
    ensures j == k
  {
  }

  lemma CarriedNext(entries: seq<Entry>)
    requires entries != []
    ensures var last := entries[|entries| - 1];
            Carried(entries, None) == if last.row.Some? then Some(last.row.value.eventHash) else Carried(entries[..|entries| - 1], None)
  {
    HashedSoFar(entries);
  }

  /** The carried hash is that of the last hashed entry. */
  lemma {:induction false} CarriedIs(entries: seq<Entry>) returns (j: nat)
    ensures Carried(entries, None).Some? ==>
              JustBefore(entries, |entries|, j) && Carried(entries, None) == Some(entries[j].row.value.eventHash)
    ensures Carried(entries, None).None? ==> forall k | 0 <= k < |entries| :: entries[k].row.None?
  {
    j := 0;
    if entries != [] {
      CarriedNext(entries);
      hide Carried;
      var n := |entries| - 1;
      if entries[n].row.Some? {
        j := n;
      } else {
        j := CarriedIs(entries[..n]);
        assert forall k | 0 <= k < n :: entries[..n][k] == entries[k];
      }
    } else {
      assert !AnyHashed(entries);
    }
  }

  /** The audit compares a row with the hash that it carries. */
  lemma CarriedTells(entries: seq<Entry>, n: nat)
    requires n < |entries| && entries[n].row.Some?
    ensures LinkBroken(entries, n)
            <==> Carried(entries[..n], None).Some? && Carried(entries[..n], None).value != entries[n].row.value.prevHash
  {
    var before := entries[..n];
    var j := CarriedIs(before);
    hide Carried;
    if Carried(before, None).Some? {
      assert JustBefore(entries, n, j);
    }
    if LinkBroken(entries, n) {
      var k: nat :| JustBefore(entries, n, k) && entries[k].row.value.eventHash != entries[n].row.value.prevHash;
      assert before[k].row.Some?;
      LastBefore(entries, n, j, k);
    }
  }

  /** Main result: over any list of entries the audit counts all of them, those whose
      row is the digest of their event as verified and those without a row as
      unverifiable, and reports, position by position, a break of the link where a
      row names another hash than the row before it and a break of the digest where
      it is not the digest of its event. */
  lemma {:induction false} EveryBreakIsReported(h: Digest, entries: seq<Entry>)
    ensures var r, n := VerifySession(h, entries), |entries|;
            && r.broken == BreaksBelow(h, entries, n) && r.checked == n
            && r.verified == RightBelow(h, entries, n) && r.unverifiable == UnhashedBelow(entries, n)
  {
    if entries == [] {
      return;
    }
    var n := |entries| - 1;
    var before, last := entries[..n], entries[n];
    var a := VerifyEntries(h, Audit(None, EMPTY_REPORT), before);
    EveryBreakIsReported(h, before);
    BreaksAdd(h, Audit(None, EMPTY_REPORT), before);
    BelowStays(h, entries, n, n);
    assert VerifySession(h, entries) == VerifyEntry(h, a, last).report;
    hide VerifyEntries, Carried;
    OneEntry(h, entries, a);
    hide VerifyEntry, BreaksAt;
  }

  lemma OneEntry(h: Digest, entries: seq<Entry>, a: Audit)
    requires entries != [] && a.prev == Carried(entries[..|entries| - 1], None)
    ensures var n := |entries| - 1;
            var r := VerifyEntry(h, a, entries[n]).report;
            && r.broken == a.report.broken + BreaksAt(h, entries, n)
            && r.checked == a.report.checked + 1
            && r.verified == a.report.verified + (if entries[n].row.Some? && !DigestBroken(h, entries, n) then 1 else 0)
            && r.unverifiable == a.report.unverifiable + (if entries[n].row.None? then 1 else 0)
  {
    if entries[|entries| - 1].row.Some? {
      CarriedTells(entries, |entries| - 1);
    }
    hide Carried;
  }
}
