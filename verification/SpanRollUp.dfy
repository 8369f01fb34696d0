/** `compute_subtree_costs` of `src/store/tool_span_index/hierarchy.rs`: totals
    are rolled up deepest span first. */
module SpanRollUp {
  import opened Options
  import opened SpanProjector
  import opened SpanChain
  import opened SpanParents

  /** First position that holds the id, as `first_span_indices` records it. */
  function FirstWithId(spans: seq<TimedSpan>, id: string): (r: Option<nat>)
    ensures r.Some? ==> r.value < |spans| && spans[r.value].id == id
    ensures r.None? ==> forall s | s in spans :: s.id != id
  {
    if spans == [] then None
    else if spans[0].id == id then Some(0)
    else match FirstWithId(spans[1..], id)
      case None =>
        assert spans == [spans[0]] + spans[1..];
        None
      case Some(k) => Some(k + 1)
  }

  function ParentOf(spans: seq<TimedSpan>, i: nat): Option<nat>
    requires i < |spans|
  {
    if spans[i].parent.None? then None else FirstWithId(spans, spans[i].parent.value)
  }

  /** The parent of a span is the first one with the id that it names. */
  lemma ParentOfIs(spans: seq<TimedSpan>, i: nat, k: nat)
    requires i < |spans|
    ensures ParentOf(spans, i) == Some(k)
            <==> k < |spans| && spans[i].parent == Some(spans[k].id) && forall j | 0 <= j < k :: spans[j].id != spans[k].id
  {
    if spans[i].parent.Some? {
      FirstWithIdIsFirst(spans, spans[i].parent.value);
    }
  }

  lemma {:induction false} FirstWithIdIsFirst(spans: seq<TimedSpan>, id: string)
    ensures FirstWithId(spans, id).Some? ==> forall j | 0 <= j < FirstWithId(spans, id).value :: spans[j].id != id
    ensures FirstWithId(spans, id).None? ==> forall j | 0 <= j < |spans| :: spans[j].id != id
  {
    if spans != [] && spans[0].id != id {
      FirstWithIdIsFirst(spans[1..], id);
      assert forall j | 0 < j < |spans| :: spans[j] == spans[1..][j - 1];
    }
  }

  /** `roll_up_span` */
  function RollOne(spans: seq<TimedSpan>, totals: seq<Totals>, i: nat): (r: seq<Totals>)
    requires i < |spans| == |totals|
    ensures |r| == |totals|
  {
    match ParentOf(spans, i)
    case None => totals
    case Some(p) => totals[p := Add(totals[p], totals[i])]
  }

  predicate Within(order: seq<nat>, n: nat) {
    forall k | 0 <= k < |order| :: order[k] < n
  }

  function RollFirst(spans: seq<TimedSpan>, own: seq<Totals>, order: seq<nat>, k: nat): (r: seq<Totals>)
    requires |own| == |spans| && k <= |order| && Within(order, |spans|)
    ensures |r| == |own|
  {
    if k == 0 then own else RollOne(spans, RollFirst(spans, own, order, k - 1), order[k - 1])
  }

  /** Any order that sorting by descending depth may give. */
  ghost predicate DeepestFirst(spans: seq<TimedSpan>, order: seq<nat>) {
    && Within(order, |spans|)
    && (forall i | 0 <= i < |spans| :: i in order)
    && (forall a, b | 0 <= a < b < |order| :: order[a] != order[b])
    && (forall a, b | 0 <= a < b < |order| :: spans[order[a]].depth >= spans[order[b]].depth)
  }

  ghost predicate LinksGoUp(spans: seq<TimedSpan>) {
    forall i | 0 <= i < |spans| && ParentOf(spans, i).Some? :: spans[ParentOf(spans, i).value].depth < spans[i].depth
  }

  /** Totals of the children of `i` among the first `k` spans of the order. */
  function ChildSum(spans: seq<TimedSpan>, totals: seq<Totals>, order: seq<nat>, k: nat, i: nat): Totals
    requires |totals| == |spans| && k <= |order| && Within(order, |spans|)
  {
    if k == 0 then NOTHING
    else Add(ChildSum(spans, totals, order, k - 1, i),
             if ParentOf(spans, order[k - 1]) == Some(i) then totals[order[k - 1]] else NOTHING)
  }

  lemma {:induction false} ChildSumLocal(spans: seq<TimedSpan>, a: seq<Totals>, b: seq<Totals>, order: seq<nat>, k: nat, i: nat)
    requires |a| == |b| == |spans| && k <= |order| && Within(order, |spans|)
    requires forall j | 0 <= j < k :: a[order[j]] == b[order[j]]
    ensures ChildSum(spans, a, order, k, i) == ChildSum(spans, b, order, k, i)
  {
    if k > 0 {
      ChildSumLocal(spans, a, b, order, k - 1, i);
    }
  }

  ghost predicate RolledUp(spans: seq<TimedSpan>, own: seq<Totals>, totals: seq<Totals>, order: seq<nat>, k: nat)
    requires |own| == |totals| == |spans| && k <= |order| && Within(order, |spans|)
  {
    forall i | 0 <= i < |spans| :: totals[i] == Add(own[i], ChildSum(spans, totals, order, k, i))
  }

  lemma RollStep(spans: seq<TimedSpan>, own: seq<Totals>, totals: seq<Totals>, order: seq<nat>, k: nat)
    requires |own| == |totals| == |spans| && DeepestFirst(spans, order) && LinksGoUp(spans) && k < |order|
    requires RolledUp(spans, own, totals, order, k)
    ensures RolledUp(spans, own, RollOne(spans, totals, order[k]), order, k + 1)
  {
    var x, next := order[k], RollOne(spans, totals, order[k]);
    hide ParentOf, DeepestFirst, LinksGoUp;
    forall i | 0 <= i < |spans| ensures next[i] == Add(own[i], ChildSum(spans, next, order, k + 1, i)) {
      ChildSumLocal(spans, next, totals, order, k, i);
      var c := ChildSum(spans, totals, order, k, i);
      AddComm(c, NOTHING);
      AddAssoc(own[i], c, totals[x]);
      assert totals[i] == Add(own[i], c);
    }
  }

  lemma {:induction false} RollFirstRolls(spans: seq<TimedSpan>, own: seq<Totals>, order: seq<nat>, k: nat)
    requires |own| == |spans| && DeepestFirst(spans, order) && LinksGoUp(spans) && k <= |order|
    ensures RolledUp(spans, own, RollFirst(spans, own, order, k), order, k)
  {
    if k == 0 {
      forall i | 0 <= i < |spans| ensures own[i] == Add(own[i], NOTHING) {
        AddComm(own[i], NOTHING);
      }
    } else {
      RollFirstRolls(spans, own, order, k - 1);
      RollStep(spans, own, RollFirst(spans, own, order, k - 1), order, k - 1);
    }
  }

  /** Main result: when every parent link goes to a lower depth, the totals that
      rolling up leaves satisfy the recursive equation of a subtree total: each
      span's own total plus the final totals of its children. */
  lemma TotalsAreSubtreeTotals(spans: seq<TimedSpan>, own: seq<Totals>, order: seq<nat>, i: nat)
    requires |own| == |spans| && DeepestFirst(spans, order) && LinksGoUp(spans) && i < |spans|
    ensures var totals := RollFirst(spans, own, order, |order|);
            totals[i] == Add(own[i], ChildSum(spans, totals, order, |order|, i))
  {
    RollFirstRolls(spans, own, order, |order|);
  }

  /** The parents that `assign_parents` gives go up, when ids are not repeated. */
  lemma AssignedLinksGoUp(spans: seq<TimedSpan>)
    requires SortedSpans(spans)
    requires forall k | 0 <= k < |spans| :: spans[k].parent.None? && spans[k].depth == 0
    requires forall j, k | 0 <= j < k < |spans| :: spans[j].id != spans[k].id
    ensures LinksGoUp(AssignFirst(spans, |spans|))
  {
    var r := AssignFirst(spans, |spans|);
    AssignFirstKeeps(spans, |spans|);
    forall i | 0 <= i < |r| && ParentOf(r, i).Some? ensures r[ParentOf(r, i).value].depth < r[i].depth {
      ParentsAreDeepestContainers(spans, i);
      hide AssignFirst, SortedSpans;
      PlacedLinkGoesUp(r, i);
    }
  }

  lemma PlacedLinkGoesUp(r: seq<TimedSpan>, i: nat)
    requires i < |r| && Placed(r, i) && ParentOf(r, i).Some?
    requires forall j, k | 0 <= j < k < |r| :: r[j].id != r[k].id
    ensures r[ParentOf(r, i).value].depth < r[i].depth
  {
    assert r[i].parent.Some?;
    var p: nat :| PlacedUnder(r, i, p);
    var q := ParentOf(r, i).value;
    assert r[q].id == r[p].id;
    assert q == p;
  }

  // ---- The loops of the source ----

  lemma {:induction false} FirstWithIdNext(spans: seq<TimedSpan>, s: TimedSpan, id: string)
    ensures FirstWithId(spans + [s], id) == FirstWithId(spans, id).Or(if s.id == id then Some(|spans|) else None)
  {
    var all := spans + [s];
    if spans == [] {
      assert all[1..] == [];
    } else {
      assert all[1..] == spans[1..] + [s];
      FirstWithIdNext(spans[1..], s, id);
    }
  }

  /** `first_span_indices` */
  method FirstSpanIndices(spans: seq<TimedSpan>) returns (ids: map<string, nat>)
    ensures forall id :: FirstWithId(spans, id) == if id in ids then Some(ids[id]) else None
  {
    ids := map[];
    for i := 0 to |spans|
      invariant forall id :: FirstWithId(spans[..i], id) == if id in ids then Some(ids[id]) else None
    {
      forall id ensures FirstWithId(spans[..i + 1], id) ==
                          FirstWithId(spans[..i], id).Or(if spans[i].id == id then Some(i) else None) {
        assert spans[..i + 1] == spans[..i] + [spans[i]];
        FirstWithIdNext(spans[..i], spans[i], id);
      }
      if spans[i].id !in ids {
        ids := ids[spans[i].id := i];
      }
    }
    assert spans[..|spans|] == spans;
  }

  /** The first `n` spans, deepest first. */
  ghost predicate Sorted(spans: seq<TimedSpan>, order: seq<nat>, n: nat)
    requires n <= |spans|
  {
    && Within(order, n)
    && (forall i | 0 <= i < n :: i in order)
    && (forall a, b | 0 <= a < b < |order| :: order[a] != order[b])
    && (forall a, b | 0 <= a < b < |order| :: spans[order[a]].depth >= spans[order[b]].depth)
  }

  lemma SortedNext(spans: seq<TimedSpan>, order: seq<nat>, n: nat, j: nat)
    requires n < |spans| && Sorted(spans, order, n) && j <= |order|
    requires j > 0 ==> spans[order[j - 1]].depth >= spans[n].depth
    requires forall a | j <= a < |order| :: spans[order[a]].depth < spans[n].depth
    ensures Sorted(spans, order[..j] + [n] + order[j..], n + 1)
  {
    InsertMembers(order, n, j);
    InsertOrder(spans, order, n, j);
  }

  lemma InsertMembers(order: seq<nat>, n: nat, j: nat)
    requires j <= |order|
    ensures forall i :: i in order[..j] + [n] + order[j..] <==> i in order || i == n
  {
    assert order == order[..j] + order[j..];
  }

  lemma InsertOrder(spans: seq<TimedSpan>, order: seq<nat>, n: nat, j: nat)
    requires n < |spans| && Sorted(spans, order, n) && j <= |order|
    requires j > 0 ==> spans[order[j - 1]].depth >= spans[n].depth
    requires forall a | j <= a < |order| :: spans[order[a]].depth < spans[n].depth
    ensures var next := order[..j] + [n] + order[j..];
            && Within(next, n + 1)
            && forall a, b | 0 <= a < b < |next| ::
                 next[a] != next[b] && spans[next[a]].depth >= spans[next[b]].depth
  {
    var next := order[..j] + [n] + order[j..];
    assert forall a | 0 <= a < j :: spans[order[a]].depth >= spans[n].depth;
    forall a, b | 0 <= a < b < |next| ensures next[a] != next[b] && spans[next[a]].depth >= spans[next[b]].depth {
      assert a < j ==> next[a] == order[a];
      assert a > j ==> next[a] == order[a - 1];
      assert b < j ==> next[b] == order[b];
      assert b > j ==> next[b] == order[b - 1];
    }
  }

  /** `descending_depth_indices`; the library's sort is an insertion sort here. */
  method DescendingDepthIndices(spans: seq<TimedSpan>) returns (order: seq<nat>)
    ensures DeepestFirst(spans, order)
  {
    order := [];
    for i := 0 to |spans|
      invariant Sorted(spans, order, i)
    {
      var j := |order|;
      while j > 0 && spans[order[j - 1]].depth < spans[i].depth
        invariant 0 <= j <= |order|
        invariant forall a | j <= a < |order| :: spans[order[a]].depth < spans[i].depth
      {
        j := j - 1;
      }
      SortedNext(spans, order, i, j);
      order := order[..j] + [i] + order[j..];
    }
  }

  function Owns(builders: seq<SpanBuilder>): seq<Totals> {
    seq(|builders|, i requires 0 <= i < |builders| => Own(builders[i]))
  }

  /** `seed_subtree_totals` on every span: whatever was there is overwritten. */
  method SeedTotals(builders: seq<SpanBuilder>) returns (totals: seq<Totals>)
    ensures totals == Owns(builders)
  {
    totals := [];
    for i := 0 to |builders|
      invariant totals == Owns(builders[..i])
    {
      var b := builders[i];
      var tokens := if b.tokensIn.Some? then Some(b.tokensIn.value + b.tokensOut.GetOr(0)) else None;
      totals := totals + [Totals(b.costUsdE6, tokens)];
    }
    assert builders[..|builders|] == builders;
  }

  /** `compute_subtree_costs`: the times, ids and parents of the spans are in
      `spans`, their own amounts in `builders`. */
  method ComputeSubtreeCosts(spans: seq<TimedSpan>, builders: seq<SpanBuilder>) returns (totals: seq<Totals>, ghost order: seq<nat>)
    requires |builders| == |spans|
    ensures |totals| == |spans| && DeepestFirst(spans, order)
    ensures totals == RollFirst(spans, Owns(builders), order, |order|)
    ensures LinksGoUp(spans) ==> forall i | 0 <= i < |spans| ::
              totals[i] == Add(Own(builders[i]), ChildSum(spans, totals, order, |order|, i))
  {
    totals := SeedTotals(builders);
    var ids := FirstSpanIndices(spans);
    var indices := DescendingDepthIndices(spans);
    order := indices;
    for k := 0 to |indices|
      invariant |totals| == |spans| && totals == RollFirst(spans, Owns(builders), indices, k)
    {
      var i := indices[k];
      var parent := spans[i].parent;
      if parent.Some? && parent.value in ids {
        var p := ids[parent.value];
        totals := totals[p := Add(totals[p], totals[i])];
      }
    }
    if LinksGoUp(spans) {
      RollFirstRolls(spans, Owns(builders), order, |order|);
    }
  }
}
