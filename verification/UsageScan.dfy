/** The scan of a JSON tree by `walk_merge` and of a body by `parse_sse_lines` in
    `src/proxy/sse.rs`, as values. */
module UsageScan {
  import opened Options
  import opened UsageJson

  const MAX_WALK: nat := 32

  function Children(v: Json): seq<Json> {
    match v
    case Arr(items) => items
    case Obj(fields) => seq(|fields|, i requires 0 <= i < |fields| => fields[i].value)
    case _ => []
  }

  function Left(d: nat): nat {
    if d > MAX_WALK then 0 else MAX_WALK + 1 - d
  }

  function Walk(known: Usage, v: Json, d: nat): Usage
    decreases Left(d), 0
  {
    if d > MAX_WALK then known else WalkAll(Then(known, Says(v)), Children(v), d + 1)
  }

  function WalkAll(known: Usage, items: seq<Json>, d: nat): Usage
    decreases Left(d), |items| + 1
  {
    if items == [] then known else Walk(WalkAll(known, items[..|items| - 1], d), items[|items| - 1], d)
  }

  // ---- The nodes in order ----

  /** A node is named by the child numbers that lead to it. */
  type Way = seq<nat>

  function Node(v: Json, way: Way): Option<Json> {
    if way == [] then Some(v)
    else if way[0] < |Children(v)| then Node(Children(v)[way[0]], way[1..])
    else None
  }

  /** The ways to all nodes within the depth, in pre-order. */
  function Ways(v: Json, d: nat): seq<Way>
    decreases Left(d), 0
  {
    if d > MAX_WALK then [] else [[]] + WaysFrom(Children(v), d + 1)
  }

  function WaysFrom(items: seq<Json>, d: nat): seq<Way>
    decreases Left(d), |items| + 1
  {
    if items == [] then []
    else
      var n := |items| - 1;
      WaysFrom(items[..n], d) + Under(n, Ways(items[n], d))
  }

  function Under(n: nat, ways: seq<Way>): seq<Way> {
    seq(|ways|, i requires 0 <= i < |ways| => [n] + ways[i])
  }

  /** Pre-order: a way comes before its extensions, and children by number. */
  predicate Before(a: Way, b: Way) {
    b != [] && (a == [] || a[0] < b[0] || (a[0] == b[0] && Before(a[1..], b[1..])))
  }

  // ---- Fold over findings ----

  function Fold(known: Usage, said: seq<Usage>): Usage {
    if said == [] then known else Then(Fold(known, said[..|said| - 1]), said[|said| - 1])
  }

  function SaidAt(v: Json, way: Way): Usage {
    match Node(v, way)
    case Some(x) => Says(x)
    case None => NO_USAGE
  }

  function SaidAlong(v: Json, ways: seq<Way>): seq<Usage> {
    seq(|ways|, i requires 0 <= i < |ways| => SaidAt(v, ways[i]))
  }

  lemma {:induction false} FoldJoins(known: Usage, a: seq<Usage>, b: seq<Usage>)
    ensures Fold(known, a + b) == Fold(Fold(known, a), b)
  {
    if b == [] {
      assert a + b == a;
    } else {
      assert (a + b)[..|a + b| - 1] == a + b[..|b| - 1];
      FoldJoins(known, a, b[..|b| - 1]);
    }
  }

  lemma FoldOne(known: Usage, u: Usage)
    ensures Fold(known, [u]) == Then(known, u)
  {
    assert [u][..0] == [];
  }

  lemma SaidAlongJoins(v: Json, a: seq<Way>, b: seq<Way>)
    ensures SaidAlong(v, a + b) == SaidAlong(v, a) + SaidAlong(v, b)
  {
  }

  lemma SaidAtTop(v: Json)
    ensures SaidAlong(v, [[]]) == [Says(v)]
  {
  }

  /** Main result: the recursive scan is the left fold of what the nodes say, in
      pre-order, down to depth 32. */
  lemma {:induction false} WalkIsFold(known: Usage, v: Json, d: nat)
    ensures Walk(known, v, d) == Fold(known, SaidAlong(v, Ways(v, d)))
    decreases Left(d), 0
  {
    if d <= MAX_WALK {
      var items, rest := Children(v), WaysFrom(Children(v), d + 1);
      WalkAllIsFold(Then(known, Says(v)), v, items, d + 1);
      assert Ways(v, d) == [[]] + rest;
      assert Walk(known, v, d) == WalkAll(Then(known, Says(v)), items, d + 1);
      hide Fold, SaidAlong, Says, Then, Children, Walk, WalkAll, Ways, WaysFrom;
      FoldTop(known, v, rest);
    }
  }

  lemma FoldTop(known: Usage, v: Json, rest: seq<Way>)
    ensures Fold(known, SaidAlong(v, [[]] + rest)) == Fold(Then(known, Says(v)), SaidAlong(v, rest))
  {
    SaidAlongJoins(v, [[]], rest);
    SaidAtTop(v);
    FoldOne(known, Says(v));
    hide Fold, SaidAlong, Says, Then;
    FoldJoins(known, [Says(v)], SaidAlong(v, rest));
  }

  lemma {:induction false} WalkAllIsFold(known: Usage, v: Json, items: seq<Json>, d: nat)
    requires items <= Children(v)
    ensures WalkAll(known, items, d) == Fold(known, SaidAlong(v, WaysFrom(items, d)))
    decreases Left(d), |items| + 1
  {
    if items != [] {
      var n := |items| - 1;
      var known1 := WalkAll(known, items[..n], d);
      var first, last := WaysFrom(items[..n], d), Ways(items[n], d);
      WalkAllIsFold(known, v, items[..n], d);
      WalkIsFold(known1, items[n], d);
      SaidUnder(v, n, last);
      assert WaysFrom(items, d) == first + Under(n, last) && WalkAll(known, items, d) == Walk(known1, items[n], d);
      hide Fold, SaidAlong, Children, Ways, WaysFrom, Under, Walk, WalkAll;
      SaidAlongJoins(v, first, Under(n, last));
      FoldJoins(known, SaidAlong(v, first), SaidAlong(v, Under(n, last)));
    }
  }

  lemma SaidUnder(v: Json, n: nat, ways: seq<Way>)
    requires n < |Children(v)|
    ensures SaidAlong(v, Under(n, ways)) == SaidAlong(Children(v)[n], ways)
  {
    forall i | 0 <= i < |ways| ensures Node(v, [n] + ways[i]) == Node(Children(v)[n], ways[i]) {
      assert ([n] + ways[i])[1..] == ways[i];
    }
  }

  // ---- Which nodes, and in which order ----

  lemma {:induction false} WaysFromHas(items: seq<Json>, d: nat, way: Way)
    ensures way in WaysFrom(items, d)
            <==> way != [] && way[0] < |items| && way[1..] in Ways(items[way[0]], d)
    decreases Left(d), |items| + 1
  {
    if items != [] {
      var n := |items| - 1;
      WaysFromHas(items[..n], d, way);
      UnderHas(n, Ways(items[n], d), way);
    }
  }

  lemma UnderHas(n: nat, ways: seq<Way>, way: Way)
    ensures way in Under(n, ways) <==> way != [] && way[0] == n && way[1..] in ways
  {
    if way != [] && way[0] == n && way[1..] in ways {
      var i: nat :| i < |ways| && ways[i] == way[1..];
      assert Under(n, ways)[i] == way;
    }
    if way in Under(n, ways) {
      var i: nat :| i < |ways| && Under(n, ways)[i] == way;
      assert way[1..] == ways[i];
    }
  }

  /** The scan visits exactly the nodes at depth 32 or less, ... */
  lemma {:induction false} WaysAreNodes(v: Json, d: nat, way: Way)
    ensures way in Ways(v, d) <==> d + |way| <= 32 && Node(v, way).Some?
    decreases |way|
  {
    if d <= MAX_WALK {
      WaysFromHas(Children(v), d + 1, way);
      if way != [] && way[0] < |Children(v)| {
        WaysAreNodes(Children(v)[way[0]], d + 1, way[1..]);
      }
    }
  }

  ghost predicate Ordered(ways: seq<Way>) {
    forall i, j | 0 <= i < j < |ways| :: Before(ways[i], ways[j])
  }

  /** ... each once, in pre-order. */
  lemma {:induction false} WaysOrdered(v: Json, d: nat)
    ensures Ordered(Ways(v, d))
    decreases Left(d), 0
  {
    if d <= MAX_WALK {
      var rest := WaysFrom(Children(v), d + 1);
      WaysFromOrdered(Children(v), d + 1);
      forall i | 0 <= i < |rest| ensures rest[i] != [] {
        WaysFromHas(Children(v), d + 1, rest[i]);
      }
    }
  }

  lemma {:induction false} WaysFromOrdered(items: seq<Json>, d: nat)
    ensures Ordered(WaysFrom(items, d))
    decreases Left(d), |items| + 1
  {
    if items != [] {
      var n := |items| - 1;
      var first, last := WaysFrom(items[..n], d), Under(n, Ways(items[n], d));
      WaysFromOrdered(items[..n], d);
      WaysOrdered(items[n], d);
      forall i | 0 <= i < |first| ensures first[i] != [] && first[i][0] < n {
        WaysFromHas(items[..n], d, first[i]);
      }
    }
  }

  lemma {:induction false} NotBeforeItself(a: Way)
    ensures !Before(a, a)
  {
    if a != [] {
      NotBeforeItself(a[1..]);
    }
  }

  /** Pre-order is a strict order, so it fixes the list. */
  lemma {:induction false} BeforeOrders(a: Way, b: Way, c: Way)
    ensures !(Before(a, b) && Before(b, a))
    ensures Before(a, b) || Before(b, a) || a == b
    ensures Before(a, b) && Before(b, c) ==> Before(a, c)
  {
    if a != [] && b != [] {
      BeforeOrders(a[1..], b[1..], if c == [] then [] else c[1..]);
      assert a == [a[0]] + a[1..] && b == [b[0]] + b[1..];
    }
  }

  // ---- The last count and the first reason ----

  /** The value found last, or the one known before. */
  ghost predicate LastFound<T>(known: Option<T>, found: seq<Option<T>>, r: Option<T>) {
    || (r == known && forall i | 0 <= i < |found| :: found[i].None?)
    || (exists i | 0 <= i < |found| :: found[i].Some? && r == found[i] && forall j | i < j < |found| :: found[j].None?)
  }

  /** The value known before, or the one found first. */
  ghost predicate FirstFound<T>(known: Option<T>, found: seq<Option<T>>, r: Option<T>) {
    || (known.Some? && r == known)
    || (known.None? && r.None? && forall i | 0 <= i < |found| :: found[i].None?)
    || (known.None? && exists i | 0 <= i < |found| ::
          found[i].Some? && r == found[i] && forall j | 0 <= j < i :: found[j].None?)
  }

  function Each<T>(said: seq<Usage>, f: Usage -> T): (r: seq<T>)
    ensures |r| == |said| && forall i | 0 <= i < |said| :: r[i] == f(said[i])
  {
    seq(|said|, i requires 0 <= i < |said| => f(said[i]))
  }

  lemma LastFoundStep<T>(known: Option<T>, found: seq<Option<T>>, r: Option<T>, next: Option<T>)
    requires LastFound(known, found, r)
    ensures LastFound(known, found + [next], next.Or(r))
  {
    var all := found + [next];
    assert all[|found|] == next && forall i | 0 <= i < |found| :: all[i] == found[i];
    if next.None? && !(r == known && forall i | 0 <= i < |found| :: found[i].None?) {
      var i :| 0 <= i < |found| && found[i].Some? && r == found[i] && forall j | i < j < |found| :: found[j].None?;
      assert all[i].Some? && r == all[i] && forall j | i < j < |all| :: all[j].None?;
    }
  }

  lemma FirstFoundStep<T>(known: Option<T>, found: seq<Option<T>>, r: Option<T>, next: Option<T>)
    requires FirstFound(known, found, r)
    ensures FirstFound(known, found + [next], r.Or(next))
  {
    var all := found + [next];
    assert all[|found|] == next && forall i | 0 <= i < |found| :: all[i] == found[i];
    if known.None? && r.Some? {
      var i :| 0 <= i < |found| && found[i].Some? && r == found[i] && forall j | 0 <= j < i :: found[j].None?;
      assert all[i].Some? && r == all[i] && forall j | 0 <= j < i :: all[j].None?;
    }
  }

  /** Counts are those found last, the stop reason the one found first. */
  ghost predicate Summary(known: Usage, said: seq<Usage>, r: Usage) {
    && LastFound(known.tokensIn, Each(said, (u: Usage) => u.tokensIn), r.tokensIn)
    && LastFound(known.tokensOut, Each(said, (u: Usage) => u.tokensOut), r.tokensOut)
    && LastFound(known.reasoning, Each(said, (u: Usage) => u.reasoning), r.reasoning)
    && LastFound(known.cacheCreation, Each(said, (u: Usage) => u.cacheCreation), r.cacheCreation)
    && LastFound(known.cacheRead, Each(said, (u: Usage) => u.cacheRead), r.cacheRead)
    && FirstFound(known.stopReason, Each(said, (u: Usage) => u.stopReason), r.stopReason)
  }

  lemma EachStep<T>(said: seq<Usage>, u: Usage, f: Usage -> T)
    ensures Each(said + [u], f) == Each(said, f) + [f(u)]
  {
  }

  lemma SummaryStep(known: Usage, said: seq<Usage>, r: Usage, u: Usage)
    requires Summary(known, said, r)
    ensures Summary(known, said + [u], Then(r, u))
  {
    LastStepFor(known.tokensIn, said, r.tokensIn, u, (u: Usage) => u.tokensIn);
    LastStepFor(known.tokensOut, said, r.tokensOut, u, (u: Usage) => u.tokensOut);
    LastStepFor(known.reasoning, said, r.reasoning, u, (u: Usage) => u.reasoning);
    LastStepFor(known.cacheCreation, said, r.cacheCreation, u, (u: Usage) => u.cacheCreation);
    LastStepFor(known.cacheRead, said, r.cacheRead, u, (u: Usage) => u.cacheRead);
    FirstFoundStep(known.stopReason, Each(said, (u: Usage) => u.stopReason), r.stopReason, u.stopReason);
    EachStep(said, u, (u: Usage) => u.stopReason);
    hide Each, LastFound, FirstFound;
  }

  lemma LastStepFor<T>(known: Option<T>, said: seq<Usage>, r: Option<T>, u: Usage, f: Usage -> Option<T>)
    requires LastFound(known, Each(said, f), r)
    ensures LastFound(known, Each(said + [u], f), f(u).Or(r))
  {
    LastFoundStep(known, Each(said, f), r, f(u));
    EachStep(said, u, f);
  }

  lemma {:induction false} FoldSummary(known: Usage, said: seq<Usage>)
    ensures Summary(known, said, Fold(known, said))
  {
    if said != [] {
      var n := |said| - 1;
      FoldSummary(known, said[..n]);
      SummaryStep(known, said[..n], Fold(known, said[..n]), said[n]);
      hide Summary, Then;
      assert said[..n] + [said[n]] == said;
    }
  }

  /** Main result: after the scan of a tree each count is the last one that a node
      down to depth 32 states, in pre-order, or the one known before; the stop
      reason is the one known before or the first. */
  lemma WalkSummary(known: Usage, v: Json)
    ensures Summary(known, SaidAlong(v, Ways(v, 0)), Walk(known, v, 0))
  {
    WalkIsFold(known, v, 0);
    FoldSummary(known, SaidAlong(v, Ways(v, 0)));
  }
}
