/** Parents and totals of a whole session: `assign_parents` and
    `compute_subtree_costs` of `src/store/tool_span_index/hierarchy.rs`. */
module SpanParents {
  import opened Options
  import opened ParentIndex

  /** `start` and `end` are `span_start` and `span_end` of the source. */
  datatype TimedSpan = TimedSpan(id: string, start: Option<nat>, end: Option<nat>, parent: Option<string>, depth: nat)

  predicate Complete(s: TimedSpan) {
    s.start.Some? && s.end.Some?
  }

  /** Span `j` is complete and ends at or after `end`. */
  predicate Reaches(s: TimedSpan, end: nat) {
    Complete(s) && s.end.value >= end
  }

  // ---- The simple form: a scan over the earlier spans ----

  function BestEnclosing(spans: seq<TimedSpan>, n: nat, end: nat): (best: Option<Candidate>)
    requires n <= |spans|
    ensures best.Some? ==> best.value.index < n
  {
    if n == 0 then None
    else Merge(BestEnclosing(spans, n - 1, end),
               if Reaches(spans[n - 1], end) then Some(Candidate(n - 1, spans[n - 1].depth)) else None)
  }

  function AssignAt(spans: seq<TimedSpan>, i: nat): seq<TimedSpan>
    requires i < |spans|
  {
    if !Complete(spans[i]) then spans
    else match BestEnclosing(spans, i, spans[i].end.value)
      case None => spans
      case Some(p) => spans[i := spans[i].(parent := Some(spans[p.index].id), depth := p.depth + 1)]
  }

  function AssignFirst(spans: seq<TimedSpan>, n: nat): (r: seq<TimedSpan>)
    requires n <= |spans|
    ensures |r| == |spans|
  {
    if n == 0 then spans else AssignAt(AssignFirst(spans, n - 1), n - 1)
  }

  // ---- What the scan finds ----

  /** `p` is the deepest, and of equal depth the earliest, of the first `n` spans
      that reach `end`. */
  ghost predicate IsBest(spans: seq<TimedSpan>, n: nat, end: nat, p: nat)
    requires n <= |spans|
  {
    && p < n && Reaches(spans[p], end)
    && forall j | 0 <= j < n && Reaches(spans[j], end) ::
         spans[j].depth < spans[p].depth || (spans[j].depth == spans[p].depth && p <= j)
  }

  lemma {:induction false} BestEnclosingIsBest(spans: seq<TimedSpan>, n: nat, end: nat)
    requires n <= |spans|
    ensures match BestEnclosing(spans, n, end)
            case None => forall j | 0 <= j < n :: !Reaches(spans[j], end)
            case Some(c) => IsBest(spans, n, end, c.index) && c.depth == spans[c.index].depth
  {
    if n > 0 {
      BestEnclosingIsBest(spans, n - 1, end);
    }
  }

  lemma {:induction false} BestEnclosingLocal(a: seq<TimedSpan>, b: seq<TimedSpan>, n: nat, end: nat)
    requires n <= |a| && n <= |b| && forall j | 0 <= j < n :: a[j] == b[j]
    ensures BestEnclosing(a, n, end) == BestEnclosing(b, n, end)
  {
    if n > 0 {
      BestEnclosingLocal(a, b, n - 1, end);
    }
  }

  /** Later rounds leave a span alone, and every round keeps ids and times. */
  lemma {:induction false} AssignFirstKeeps(spans: seq<TimedSpan>, n: nat)
    requires n <= |spans|
    ensures var r := AssignFirst(spans, n);
            && (forall i | n <= i < |spans| :: r[i] == spans[i])
            && (forall i | 0 <= i < |spans| :: r[i].id == spans[i].id && r[i].start == spans[i].start && r[i].end == spans[i].end)
  {
    if n > 0 {
      AssignFirstKeeps(spans, n - 1);
    }
  }

  lemma {:induction false} AssignFirstStable(spans: seq<TimedSpan>, m: nat, n: nat)
    requires m <= n <= |spans|
    ensures forall i | 0 <= i < m :: AssignFirst(spans, n)[i] == AssignFirst(spans, m)[i]
  {
    if m < n {
      AssignFirstStable(spans, m, n - 1);
    }
  }

  /** `sort_by_key((start or MAX, Reverse(end or 0)))` */
  ghost predicate SortedSpans(spans: seq<TimedSpan>) {
    forall i, j | 0 <= i < j < |spans| :: KeyBefore(spans[i], spans[j])
  }

  const MAX_TIME: nat := 0xFFFF_FFFF_FFFF_FFFF

  predicate KeyBefore(a: TimedSpan, b: TimedSpan) {
    var x, y := a.start.GetOr(MAX_TIME), b.start.GetOr(MAX_TIME);
    x < y || (x == y && a.end.GetOr(0) >= b.end.GetOr(0))
  }

  /** The key sorts by start, a missing one as the greatest time, and then by end,
      the later first and a missing one as 0; it orders any two spans. */
  lemma KeyOrders(a: TimedSpan, b: TimedSpan)
    ensures KeyBefore(a, b) || KeyBefore(b, a)
    ensures a.start.Some? && b.start.Some? && a.start.value != b.start.value ==>
              (KeyBefore(a, b) <==> a.start.value < b.start.value)
    ensures a.start.Some? && b.start.None? && a.start.value < 0xFFFF_FFFF_FFFF_FFFF ==> KeyBefore(a, b) && !KeyBefore(b, a)
    ensures a.start == b.start && a.end.Some? && b.end.Some? ==> (KeyBefore(a, b) <==> a.end.value >= b.end.value)
    ensures a.start == b.start && b.end.None? ==> KeyBefore(a, b)
    ensures a.start == b.start && a.end.None? && b.end.Some? ==> (KeyBefore(a, b) <==> b.end.value == 0)
  {
  }

  predicate Contains(outer: TimedSpan, inner: TimedSpan) {
    Complete(outer) && Complete(inner) && outer.start.value <= inner.start.value && outer.end.value >= inner.end.value
  }

  /** The parent of one span: the deepest span that contains it, one level up; a
      span that none contains keeps no parent and depth 0. */
  ghost predicate Placed(spans: seq<TimedSpan>, i: nat)
    requires i < |spans|
  {
    if !Complete(spans[i]) || forall j | 0 <= j < i :: !Contains(spans[j], spans[i]) then
      spans[i].parent.None? && spans[i].depth == 0
    else exists p :: PlacedUnder(spans, i, p)
  }

  ghost predicate PlacedUnder(spans: seq<TimedSpan>, i: nat, p: nat)
    requires i < |spans|
  {
    && p < i && Contains(spans[p], spans[i])
    && spans[i].parent == Some(spans[p].id) && spans[i].depth == spans[p].depth + 1
    && forall j | 0 <= j < i && Contains(spans[j], spans[i]) ::
         spans[j].depth < spans[p].depth || (spans[j].depth == spans[p].depth && p <= j)
  }

  /** Main result: over spans in key order, fresh from the event stream, every
      complete span gets the deepest span that contains it as parent, the
      earliest of several, and its depth is one more; no other complete span
      contains it except ones with the same interval. */
  lemma ParentsAreDeepestContainers(spans: seq<TimedSpan>, i: nat)
    requires SortedSpans(spans) && i < |spans|
    requires forall k | 0 <= k < |spans| :: spans[k].parent.None? && spans[k].depth == 0
    ensures Placed(AssignFirst(spans, |spans|), i)
    ensures SortedSpans(AssignFirst(spans, |spans|))
    ensures var r := AssignFirst(spans, |spans|);
            forall j | i < j < |spans| && Contains(r[j], r[i]) :: r[j].start == r[i].start && r[j].end == r[i].end
  {
    var r := AssignFirst(spans, |spans|);
    var before := AssignFirst(spans, i);
    AssignFirstKeeps(spans, |spans|);
    AssignFirstKeeps(spans, i);
    AssignFirstStable(spans, i + 1, |spans|);
    AssignFirstStable(spans, i, |spans|);
    assert SortedSpans(r) by { KeysOnly(spans, r); }
    LaterContainersAreEqual(r, i);
    assert AssignFirst(spans, i + 1) == AssignAt(before, i);
    hide AssignFirst, SortedSpans, Contains, Placed;
    PlacedFrom(before, r, i);
  }

  lemma LaterContainersAreEqual(spans: seq<TimedSpan>, i: nat)
    requires SortedSpans(spans) && i < |spans|
    ensures forall j | i < j < |spans| && Contains(spans[j], spans[i]) ::
              spans[j].start == spans[i].start && spans[j].end == spans[i].end
  {
    forall j | i < j < |spans| && Contains(spans[j], spans[i])
      ensures spans[j].start == spans[i].start && spans[j].end == spans[i].end
    {
      assert KeyBefore(spans[i], spans[j]);
    }
  }

  lemma KeysOnly(a: seq<TimedSpan>, b: seq<TimedSpan>)
    requires SortedSpans(a) && |a| == |b| && forall i | 0 <= i < |a| :: b[i].start == a[i].start && b[i].end == a[i].end
    ensures SortedSpans(b)
  {
    forall i, j | 0 <= i < j < |b| ensures KeyBefore(b[i], b[j]) {
      assert KeyBefore(a[i], a[j]);
    }
  }

  lemma PlacedFrom(before: seq<TimedSpan>, r: seq<TimedSpan>, i: nat)
    requires i < |before| == |r| && SortedSpans(r)
    requires before[i].parent.None? && before[i].depth == 0
    requires forall j | 0 <= j < i :: r[j] == before[j]
    requires r[i] == AssignAt(before, i)[i] && r[i].start == before[i].start && r[i].end == before[i].end
    ensures Placed(r, i)
  {
    if Complete(r[i]) {
      var end := r[i].end.value;
      BestEnclosingIsBest(before, i, end);
      forall j | 0 <= j < i ensures Reaches(before[j], end) <==> Contains(r[j], r[i]) {
      }
      var best := BestEnclosing(before, i, end);
      hide BestEnclosing, SortedSpans;
      if best.Some? {
        assert IsBest(before, i, end, best.value.index);
        assert PlacedUnder(r, i, best.value.index);
      }
    }
  }

  // ---- The fast form refines it ----

  function InsertEnd(ends: seq<nat>, e: nat): seq<nat> {
    if ends == [] || e < ends[0] then [e] + ends
    else if e == ends[0] then ends
    else [ends[0]] + InsertEnd(ends[1..], e)
  }

  /** `unique_span_ends`: sorted, without repetition. */
  function UniqueEnds(spans: seq<TimedSpan>): seq<nat> {
    if spans == [] then []
    else
      var rest := UniqueEnds(spans[1..]);
      if Complete(spans[0]) then InsertEnd(rest, spans[0].end.value) else rest
  }

  ghost predicate Increasing(ends: seq<nat>) {
    forall i, j | 0 <= i < j < |ends| :: ends[i] < ends[j]
  }

  lemma {:induction false} InsertEndInserts(ends: seq<nat>, e: nat)
    requires Increasing(ends)
    ensures Increasing(InsertEnd(ends, e)) && |InsertEnd(ends, e)| <= |ends| + 1
    ensures forall x :: x in InsertEnd(ends, e) <==> x in ends || x == e
  {
    if ends != [] && e > ends[0] {
      var rest := ends[1..];
      assert ends == [ends[0]] + rest;
      assert forall i | 0 <= i < |rest| :: rest[i] == ends[i + 1];
      InsertEndInserts(rest, e);
      var r := InsertEnd(rest, e);
      forall i | 0 <= i < |r| ensures ends[0] < r[i] {
        assert r[i] in r;
      }
    }
  }

  lemma {:induction false} UniqueEndsHold(spans: seq<TimedSpan>)
    ensures Increasing(UniqueEnds(spans)) && |UniqueEnds(spans)| <= |spans|
    ensures forall s | s in spans && Complete(s) :: s.end.value in UniqueEnds(spans)
  {
    if spans != [] {
      assert spans == [spans[0]] + spans[1..];
      UniqueEndsHold(spans[1..]);
      if Complete(spans[0]) {
        InsertEndInserts(UniqueEnds(spans[1..]), spans[0].end.value);
      }
    }
  }

  /** What the index answers for every end is what the scan finds. */
  ghost predicate Indexes(inserted: seq<(nat, Candidate)>, ends: seq<nat>, spans: seq<TimedSpan>, n: nat)
    requires n <= |spans|
  {
    forall k {:trigger BestIn(inserted, 0, k)} | 1 <= k <= |ends| ::
      BestIn(inserted, 0, k) == BestEnclosing(spans, n, ends[|ends| - k])
  }

  lemma IndexesNext(inserted: seq<(nat, Candidate)>, ends: seq<nat>, spans: seq<TimedSpan>, n: nat, k: nat)
    requires n < |spans| && Increasing(ends) && Indexes(inserted, ends, spans, n)
    requires Complete(spans[n]) && 1 <= k <= |ends| && ends[|ends| - k] == spans[n].end.value
    ensures Indexes(inserted + [(k, Candidate(n, spans[n].depth))], ends, spans, n + 1)
  {
    var next := inserted + [(k, Candidate(n, spans[n].depth))];
    assert next[..|inserted|] == inserted;
    forall r {:trigger BestIn(next, 0, r)} | 1 <= r <= |ends|
      ensures BestIn(next, 0, r) == BestEnclosing(spans, n + 1, ends[|ends| - r])
    {
      assert BestIn(inserted, 0, r) == BestEnclosing(spans, n, ends[|ends| - r]);
      assert k <= r <==> ends[|ends| - k] >= ends[|ends| - r];
    }
  }

  lemma IndexesSkip(inserted: seq<(nat, Candidate)>, ends: seq<nat>, spans: seq<TimedSpan>, n: nat)
    requires n < |spans| && Indexes(inserted, ends, spans, n) && !Complete(spans[n])
    ensures Indexes(inserted, ends, spans, n + 1)
  {
    forall r {:trigger BestIn(inserted, 0, r)} | 1 <= r <= |ends|
      ensures BestIn(inserted, 0, r) == BestEnclosing(spans, n + 1, ends[|ends| - r])
    {
      assert BestIn(inserted, 0, r) == BestEnclosing(spans, n, ends[|ends| - r]);
    }
  }

  lemma IndexesLocal(inserted: seq<(nat, Candidate)>, ends: seq<nat>, a: seq<TimedSpan>, b: seq<TimedSpan>, n: nat)
    requires n <= |a| && n <= |b| && (forall j | 0 <= j < n :: a[j] == b[j]) && Indexes(inserted, ends, a, n)
    ensures Indexes(inserted, ends, b, n)
  {
    forall r {:trigger BestIn(inserted, 0, r)} | 1 <= r <= |ends|
      ensures BestIn(inserted, 0, r) == BestEnclosing(b, n, ends[|ends| - r])
    {
      BestEnclosingLocal(a, b, n, ends[|ends| - r]);
    }
  }

  method AssignParent(spans: array<TimedSpan>, i: nat, parents: Index)
    requires i < spans.Length && parents.Valid()
    requires Complete(spans[i]) ==> spans[i].end.value in parents.ends
    requires Indexes(parents.inserted, parents.ends, spans[..], i)
    modifies spans
    ensures spans[..] == AssignAt(old(spans[..]), i)
  {
    hide Indexes, BestEnclosing;
    ghost var before := spans[..];
    if !Complete(spans[i]) {
      return;
    }
    var parent, k := parents.Best(spans[i].end.value);
    IndexAnswers(parents.inserted, parents.ends, before, i, k);
    if parent.Some? {
      spans[i] := spans[i].(parent := Some(spans[parent.value.index].id), depth := parent.value.depth + 1);
    }
  }

  method IndexParent(parents: Index, spans: array<TimedSpan>, i: nat)
    requires i < spans.Length && parents.Valid()
    requires Complete(spans[i]) ==> spans[i].end.value in parents.ends
    requires Indexes(parents.inserted, parents.ends, spans[..], i)
    modifies parents`inserted, parents.tree
    ensures parents.Valid() && spans[..] == old(spans[..])
    ensures Indexes(parents.inserted, parents.ends, spans[..], i + 1)
  {
    hide Indexes;
    ghost var inserted := parents.inserted;
    if Complete(spans[i]) {
      var k := parents.Insert(spans[i].end.value, Candidate(i, spans[i].depth));
      IndexesNext(inserted, parents.ends, spans[..], i, k);
    } else {
      IndexesSkip(inserted, parents.ends, spans[..], i);
    }
  }

  /** Main result: `assign_parents`, in place and with the Fenwick index, writes
      exactly what the scan over all earlier spans gives. */
  method AssignParents(spans: array<TimedSpan>)
    requires spans.Length + 1 < WORD
    modifies spans
    ensures spans[..] == AssignFirst(old(spans[..]), spans.Length)
  {
    ghost var given := spans[..];
    UniqueEndsHold(spans[..]);
    var parents := new Index(UniqueEnds(spans[..]));
    for i := 0 to spans.Length
      invariant parents.Valid() && fresh(parents) && fresh(parents.tree)
      invariant parents.ends == UniqueEnds(given)
      invariant spans[..] == AssignFirst(given, i)
      invariant Indexes(parents.inserted, parents.ends, spans[..], i)
    {
      hide Indexes, AssignFirst, AssignAt, UniqueEnds;
      ghost var before := spans[..];
      SameEnds(given, i);
      AssignParent(spans, i, parents);
      AssignAtLocal(before, i);
      IndexesLocal(parents.inserted, parents.ends, before, spans[..], i);
      IndexParent(parents, spans, i);
    }
  }

  lemma AssignAtLocal(spans: seq<TimedSpan>, i: nat)
    requires i < |spans|
    ensures var r := AssignAt(spans, i);
            && |r| == |spans| && (forall j | 0 <= j < i :: r[j] == spans[j])
            && r[i].start == spans[i].start && r[i].end == spans[i].end
  {
  }

  lemma IndexAnswers(inserted: seq<(nat, Candidate)>, ends: seq<nat>, spans: seq<TimedSpan>, n: nat, k: nat)
    requires n <= |spans| && Indexes(inserted, ends, spans, n) && 1 <= k <= |ends|
    ensures BestIn(inserted, 0, k) == BestEnclosing(spans, n, ends[|ends| - k])
  {
  }

  lemma SameEnds(given: seq<TimedSpan>, i: nat)
    requires i < |given|
    ensures Increasing(UniqueEnds(given))
    ensures var s := AssignFirst(given, i)[i]; Complete(s) ==> s.end.value in UniqueEnds(given)
  {
    AssignFirstKeeps(given, i);
    UniqueEndsHold(given);
    assert given[i] in given;
  }
}
