/** Properties of one resilient post, for every script of replies. */
module OutboxPost {
  import opened OutboxModel

  // ---- One round of the retry loop ----

  ghost predicate Splits(a: Attempt) {
    a.Answer().TooLarge? && |a.ids| > 1
  }

  ghost predicate RetriesServer(a: Attempt, failures: nat) {
    a.Answer().ServerError? && failures < MAX_SERVER_FAILURES
  }

  /** The outcome of a call that ends with attempt `a`. */
  function Verdict(a: Attempt): Outcome {
    match a.Answer()
    case Accepted => Settle(a)
    case Conflict => Settle(a)
    case TooLarge => Failed(SingleTooLarge)
    case ServerError(code) => Failed(Server(code))
    case Unauthorized => Failed(Denied)
    case ClientError(code) => Failed(Client(code))
    case _ => Failed(Transport)
  }

  lemma PostStep(body: Batch, ids: seq<int>, script: seq<Exchange>, failures: nat, backoff: nat) returns (a: Attempt)
    requires |ids| == |body.items| > 0 && script != []
    ensures a == Attempt(body, ids, script[0], Delay(a.Answer(), failures, backoff))
    ensures var run := Post(body, ids, script, failures, backoff);
            if Splits(a) then run == Then(a, PostHalves(body, ids, script[1..]))
            else if a.Throttled() then run == Then(a, Post(body, ids, script[1..], failures, backoff))
            else if RetriesServer(a, failures) then
              a.slept == backoff && run == Then(a, Post(body, ids, script[1..], failures + 1, NextBackoff(backoff)))
            else
              && run == Run(Verdict(a), [a], script[1..]) && run.outcome != CutShort
              && (a.Answer().ServerError? ==> a.slept == 0)
              && (run.outcome.Done? ==> a.Committed() && run.outcome == Done(1, |ids|))
  {
    hide PostHalves, NextBackoff;
    a := Post(body, ids, script, failures, backoff).log[0];
  }

  lemma PostStops(body: Batch, ids: seq<int>, script: seq<Exchange>, failures: nat, backoff: nat)
    requires |ids| == |body.items| && (ids == [] || script == [])
    ensures Post(body, ids, script, failures, backoff)
            == if ids == [] then Run(Done(0, 0), [], script) else Run(CutShort, [], [])
  {
  }

  // ---- Logs are read piecewise ----

  lemma LogHead(a: Attempt, log: seq<Attempt>)
    ensures Marked([a] + log) == (if a.Committed() then a.ids else []) + Marked(log)
    ensures Carried([a] + log) == (if a.Committed() then Labelled(a.batch) else []) + Carried(log)
    ensures Commits([a] + log) == (if a.Committed() then 1 else 0) + Commits(log)
    ensures Posts([a] + log) == (if a.Throttled() then 0 else 1) + Posts(log)
    ensures ServerSleep([a] + log) == (if a.Answer().ServerError? then a.slept else 0) + ServerSleep(log)
  {
    assert ([a] + log)[1..] == log;
  }

  lemma LogAppend(a: seq<Attempt>, b: seq<Attempt>)
    ensures Marked(a + b) == Marked(a) + Marked(b)
    ensures Carried(a + b) == Carried(a) + Carried(b)
    ensures Commits(a + b) == Commits(a) + Commits(b)
    ensures Posts(a + b) == Posts(a) + Posts(b)
    ensures ServerSleep(a + b) == ServerSleep(a) + ServerSleep(b)
  {
    MarksAppend(a, b);
    CountsAppend(a, b);
  }

  lemma Assoc<T>(x: seq<T>, y: seq<T>, z: seq<T>)
    ensures (x + y) + z == x + (y + z)
  {
  }

  lemma {:induction false} MarksAppend(a: seq<Attempt>, b: seq<Attempt>)
    ensures Marked(a + b) == Marked(a) + Marked(b)
    ensures Carried(a + b) == Carried(a) + Carried(b)
  {
    if a == [] {
      assert a + b == b;
    } else {
      var h, later := a[0], a[1..];
      assert a == [h] + later && a + b == [h] + (later + b);
      MarksAppend(later, b);
      hide Marked, Carried, Labelled;
      LogHead(h, later);
      LogHead(h, later + b);
      Assoc(if h.Committed() then h.ids else [], Marked(later), Marked(b));
      Assoc(if h.Committed() then Labelled(h.batch) else [], Carried(later), Carried(b));
    }
  }

  lemma {:induction false} CountsAppend(a: seq<Attempt>, b: seq<Attempt>)
    ensures Commits(a + b) == Commits(a) + Commits(b)
    ensures Posts(a + b) == Posts(a) + Posts(b)
    ensures ServerSleep(a + b) == ServerSleep(a) + ServerSleep(b)
  {
    if a == [] {
      assert a + b == b;
    } else {
      assert (a + b)[1..] == a[1..] + b;
      CountsAppend(a[1..], b);
    }
  }

  /** A part of `body` that travels with the ids of the same positions. */
  ghost predicate Part(b: Batch, ids: seq<int>, body: Batch, all: seq<int>, lo: nat)
    requires |all| == |body.items|
  {
    && b.Shape() == body.Shape()
    && lo + |b.items| <= |all|
    && b.items == body.items[lo..lo + |b.items|]
    && ids == all[lo..lo + |b.items|]
  }

  ghost predicate Placed(a: Attempt, body: Batch, all: seq<int>)
    requires |all| == |body.items|
  {
    exists lo: nat :: Part(a.batch, a.ids, body, all, lo)
  }

  ghost predicate Aligned(log: seq<Attempt>, body: Batch, all: seq<int>)
    requires |all| == |body.items|
  {
    forall i | 0 <= i < |log| :: Placed(log[i], body, all)
  }

  lemma SliceOfSlice<T>(s: seq<T>, at: nat, n: nat, lo: nat, k: nat)
    requires at + n <= |s| && lo + k <= n
    ensures s[at..at + n][lo..lo + k] == s[at + lo..at + lo + k]
  {
    var t := s[at..at + n];
    assert forall i | lo <= i < lo + k :: t[i] == s[at + i];
  }

  lemma PartOfPart(b: Batch, ids: seq<int>, half: Batch, halfIds: seq<int>, body: Batch, all: seq<int>,
                   lo: nat, at: nat)
    requires |all| == |body.items| && |halfIds| == |half.items|
    requires Part(half, halfIds, body, all, at) && Part(b, ids, half, halfIds, lo)
    ensures Part(b, ids, body, all, at + lo)
  {
    SliceOfSlice(all, at, |half.items|, lo, |b.items|);
    SliceOfSlice(body.items, at, |half.items|, lo, |b.items|);
  }

  lemma AlignedInHalf(log: seq<Attempt>, half: Batch, halfIds: seq<int>, body: Batch, all: seq<int>, at: nat)
    requires |all| == |body.items| && |halfIds| == |half.items|
    requires Part(half, halfIds, body, all, at) && Aligned(log, half, halfIds)
    ensures Aligned(log, body, all)
  {
    forall i | 0 <= i < |log| ensures Placed(log[i], body, all) {
      var lo: nat :| Part(log[i].batch, log[i].ids, half, halfIds, lo);
      PartOfPart(log[i].batch, log[i].ids, half, halfIds, body, all, lo, at);
    }
  }

  lemma LabelledSplit(left: Batch, right: Batch, body: Batch)
    requires left.Shape() == body.Shape() == right.Shape() && left.items + right.items == body.items
    ensures Labelled(left) + Labelled(right) == Labelled(body)
    ensures |Labelled(left)| == |left.items| && |Labelled(right)| == |right.items|
  {
    ShapeKind(left);
    ShapeKind(right);
    ShapeKind(body);
  }

  lemma ShapeKind(b: Batch)
    ensures b.Shape().KindName() == b.KindName()
  {
  }

  lemma HalvesAreParts(body: Batch, ids: seq<int>)
    requires |ids| == |body.items| >= 2
    ensures var mid := |ids| / 2; var (left, right) := SplitBatch(body, mid);
            && Part(left, ids[..mid], body, ids, 0) && Part(right, ids[mid..], body, ids, mid)
            && Labelled(left) + Labelled(right) == Labelled(body)
            && |Labelled(left)| == mid && |Labelled(right)| == |ids| - mid
  {
    var mid := |ids| / 2;
    var (left, right) := SplitBatch(body, mid);
    LabelledSplit(left, right, body);
    assert ids[mid..] == ids[mid..mid + |right.items|];
    assert left.items == body.items[..mid] && right.items == body.items[mid..mid + |right.items|];
  }

  /** Everything a run delivers, whatever the replies. */
  ghost predicate Delivery(body: Batch, ids: seq<int>, run: Run)
    requires |ids| == |body.items|
  {
    var m := |Marked(run.log)|;
    && m <= |ids|
    && Marked(run.log) == ids[..m]
    && Carried(run.log) == Labelled(body)[..m]
    && Aligned(run.log, body, ids)
    && (run.outcome.Done? ==> m == |ids| && run.outcome == Done(Commits(run.log), |ids|))
  }

  lemma DeliveryAfter(a: Attempt, body: Batch, ids: seq<int>, more: Run)
    requires |ids| == |body.items| && a.batch == body && a.ids == ids
    requires !a.Committed() && Delivery(body, ids, more)
    ensures Delivery(body, ids, Then(a, more))
  {
    var log := [a] + more.log;
    assert log[1..] == more.log;
    assert Part(a.batch, a.ids, body, ids, 0);
    forall i | 0 <= i < |log| ensures Placed(log[i], body, ids) {
      if i > 0 {
        assert log[i] == more.log[i - 1];
      }
    }
  }

  lemma DeliveryNone(body: Batch, ids: seq<int>, outcome: Outcome, rest: seq<Exchange>)
    requires |ids| == |body.items|
    requires outcome == CutShort || (outcome == Done(0, 0) && ids == [])
    ensures Delivery(body, ids, Run(outcome, [], rest))
  {
    assert Labelled(body)[..0] == [];
  }

  lemma DeliveryOne(a: Attempt, outcome: Outcome, rest: seq<Exchange>)
    requires |a.ids| == |a.batch.items|
    requires outcome.Done? ==> a.Committed() && outcome == Done(1, |a.ids|)
    ensures Delivery(a.batch, a.ids, Run(outcome, [a], rest))
  {
    assert [a][1..] == [];
    assert Part(a.batch, a.ids, a.batch, a.ids, 0);
    assert a.ids[..|a.ids|] == a.ids;
    assert Labelled(a.batch)[..|a.ids|] == Labelled(a.batch);
    assert Marked([a]) == (if a.Committed() then a.ids else []);
    assert Carried([a]) == (if a.Committed() then Labelled(a.batch) else []);
  }

  /** Main result: whatever the server, the exporters and the store reply, the
      marked ids are a prefix of the batch's ids, the committed batches carried
      exactly the items at those positions, under the same header fields; a run
      that ends well marked all of them. */
  lemma {:induction false} PostDelivery(body: Batch, ids: seq<int>, script: seq<Exchange>, failures: nat, backoff: nat)
    requires |ids| == |body.items|
    ensures Delivery(body, ids, Post(body, ids, script, failures, backoff))
    decreases |body.items|, |script|
  {
    hide Delivery, Post, PostHalves, NextBackoff, Settle;
    if ids == [] || script == [] {
      PostStops(body, ids, script, failures, backoff);
      var run := Post(body, ids, script, failures, backoff);
      DeliveryNone(body, ids, run.outcome, run.rest);
      return;
    }
    var a := PostStep(body, ids, script, failures, backoff);
    var rest := script[1..];
    if Splits(a) {
      HalvesDelivery(body, ids, rest);
      DeliveryAfter(a, body, ids, PostHalves(body, ids, rest));
    } else if a.Throttled() {
      PostDelivery(body, ids, rest, failures, backoff);
      DeliveryAfter(a, body, ids, Post(body, ids, rest, failures, backoff));
    } else if RetriesServer(a, failures) {
      PostDelivery(body, ids, rest, failures + 1, NextBackoff(backoff));
      DeliveryAfter(a, body, ids, Post(body, ids, rest, failures + 1, NextBackoff(backoff)));
    } else {
      DeliveryOne(a, Post(body, ids, script, failures, backoff).outcome, rest);
    }
  }

  /** Deliveries of the two halves, one after the other. */
  lemma DeliveryBoth(body: Batch, ids: seq<int>, left: Batch, right: Batch, a: Run, b: Run)
    requires |ids| == |body.items| >= 2
    requires (left, right) == SplitBatch(body, |ids| / 2)
    requires Delivery(left, ids[..|ids| / 2], a) && Delivery(right, ids[|ids| / 2..], b) && a.outcome.Done?
    ensures Delivery(body, ids, Run(Plus(a.outcome, b.outcome), a.log + b.log, b.rest))
  {
    hide SplitBatch, Labelled, Aligned, Marked, Carried, Commits;
    var mid := |ids| / 2;
    HalvesAreParts(body, ids);
    AlignedInHalf(a.log, left, ids[..mid], body, ids, 0);
    AlignedInHalf(b.log, right, ids[mid..], body, ids, mid);
    AlignedBoth(a.log, b.log, body, ids);
    LogAppend(a.log, b.log);
    var k := |Marked(b.log)|;
    assert Marked(a.log) == ids[..mid][..mid] == ids[..mid];
    TakeConcat(ids[..mid], ids[mid..], k);
    assert ids[..mid] + ids[mid..] == ids;
    assert Carried(a.log) == Labelled(left);
    TakeConcat(Labelled(left), Labelled(right), k);
  }

  lemma AlignedBoth(a: seq<Attempt>, b: seq<Attempt>, body: Batch, all: seq<int>)
    requires |all| == |body.items| && Aligned(a, body, all) && Aligned(b, body, all)
    ensures Aligned(a + b, body, all)
  {
    hide Placed;
  }

  lemma TakeConcat<T>(l: seq<T>, r: seq<T>, k: nat)
    requires k <= |r|
    ensures l + r[..k] == (l + r)[..|l| + k]
  {
  }

  lemma DeliveryLeft(body: Batch, ids: seq<int>, left: Batch, a: Run)
    requires |ids| == |body.items| >= 2
    requires left == SplitBatch(body, |ids| / 2).0
    requires Delivery(left, ids[..|ids| / 2], a) && !a.outcome.Done?
    ensures Delivery(body, ids, a)
  {
    var mid := |ids| / 2;
    HalvesAreParts(body, ids);
    AlignedInHalf(a.log, left, ids[..mid], body, ids, 0);
    var m := |Marked(a.log)|;
    assert Labelled(left)[..m] == Labelled(body)[..m];
    assert ids[..mid][..m] == ids[..m];
  }

  lemma {:induction false} HalvesDelivery(body: Batch, ids: seq<int>, script: seq<Exchange>)
    requires |ids| == |body.items| >= 2
    ensures Delivery(body, ids, PostHalves(body, ids, script))
    decreases |body.items|, 0
  {
    hide Delivery, Post, SplitBatch, Plus;
    var mid := |ids| / 2;
    var (left, right) := SplitBatch(body, mid);
    var a := Post(left, ids[..mid], script, 0, FIRST_BACKOFF);
    PostDelivery(left, ids[..mid], script, 0, FIRST_BACKOFF);
    if a.outcome.Done? {
      PostDelivery(right, ids[mid..], a.rest, 0, FIRST_BACKOFF);
      DeliveryBoth(body, ids, left, right, a, Post(right, ids[mid..], a.rest, 0, FIRST_BACKOFF));
    } else {
      DeliveryLeft(body, ids, left, a);
    }
  }

  lemma LabelledAt(b: Batch)
    ensures |Labelled(b)| == |b.items|
    ensures forall i | 0 <= i < |b.items| :: Labelled(b)[i] == (b.KindName(), b.items[i])
  {
  }

  /** The k-th mark was made by a committed attempt that carried item `k` with
      id `k`: an accepting answer, and a fan-out that succeeded. */
  lemma {:induction false} MarkWasAccepted(log: seq<Attempt>, k: nat) returns (i: nat, at: nat)
    requires forall a | a in log :: |a.ids| == |a.batch.items|
    requires k < |Marked(log)|
    ensures |Carried(log)| == |Marked(log)|
    ensures i < |log| && at < |log[i].ids|
    ensures log[i].Answer() in {Accepted, Conflict} && log[i].exchange.fanOk
    ensures log[i].ids[at] == Marked(log)[k]
    ensures (log[i].batch.KindName(), log[i].batch.items[at]) == Carried(log)[k]
  {
    SameLength(log);
    assert log != [];
    var a, later := log[0], log[1..];
    SameLength(later);
    assert [a] + later == log;
    MarkAt(a, later, k);
    hide Labelled, Marked, Carried;
    var n := if a.Committed() then |a.ids| else 0;
    if k < n {
      i, at := 0, k;
    } else {
      i, at := MarkWasAccepted(later, k - n);
      assert log[i + 1] == later[i];
      i := i + 1;
    }
  }

  /** Where the k-th mark of a log comes from. */
  lemma MarkAt(a: Attempt, later: seq<Attempt>, k: nat)
    requires |a.ids| == |a.batch.items| && |Carried(later)| == |Marked(later)| && k < |Marked([a] + later)|
    ensures |Carried([a] + later)| == |Marked([a] + later)|
    ensures var log, n := [a] + later, if a.Committed() then |a.ids| else 0;
            if k < n then Marked(log)[k] == a.ids[k] && Carried(log)[k] == (a.batch.KindName(), a.batch.items[k])
            else && k - n < |Marked(later)| && Marked(log)[k] == Marked(later)[k - n]
                 && Carried(log)[k] == Carried(later)[k - n]
  {
    LogHead(a, later);
    LabelledAt(a.batch);
    hide Labelled, Marked, Carried;
  }

  lemma {:induction false} SameLength(log: seq<Attempt>)
    requires forall a | a in log :: |a.ids| == |a.batch.items|
    ensures |Carried(log)| == |Marked(log)|
  {
    if log != [] {
      SameLength(log[1..]);
    }
  }

  lemma Moment(body: Batch, ids: seq<int>, run: Run, log: seq<Attempt>, later: seq<Attempt>)
    requires |ids| == |body.items| && Delivery(body, ids, run) && run.log == log + later
    ensures forall a | a in log :: |a.ids| == |a.batch.items| && a.batch.Shape() == body.Shape()
    ensures |Marked(log)| <= |ids| && Marked(log) == ids[..|Marked(log)|]
    ensures |Carried(log)| == |Marked(log)| && Carried(log) == Labelled(body)[..|Marked(log)|]
  {
    forall a | a in log ensures |a.ids| == |a.batch.items| && a.batch.Shape() == body.Shape() {
      var i :| 0 <= i < |log| && log[i] == a;
      assert run.log[i] == a && Placed(run.log[i], body, ids);
    }
    SameLength(log);
    MarksAppend(log, later);
    hide Marked, Carried, Labelled, Aligned;
    assert Marked(run.log)[..|Marked(log)|] == Marked(log);
    assert Carried(run.log)[..|Marked(log)|] == Carried(log);
  }

  /** At every moment of a run the marks are a prefix of the batch's ids, and
      each of them was made by an accepting answer that carried the item of the
      same position. */
  lemma EveryMoment(body: Batch, ids: seq<int>, script: seq<Exchange>, log: seq<Attempt>, later: seq<Attempt>, k: nat)
      returns (i: nat, at: nat)
    requires |ids| == |body.items|
    requires Post(body, ids, script, 0, FIRST_BACKOFF).log == log + later
    requires k < |Marked(log)|
    ensures |Marked(log)| <= |ids| && Marked(log) == ids[..|Marked(log)|]
    ensures i < |log| && at < |log[i].ids| == |log[i].batch.items|
    ensures log[i].Answer() in {Accepted, Conflict} && log[i].exchange.fanOk
    ensures log[i].ids[at] == ids[k] && log[i].batch.items[at] == body.items[k]
    ensures log[i].batch.Shape() == body.Shape()
  {
    hide Post, Delivery;
    PostDelivery(body, ids, script, 0, FIRST_BACKOFF);
    Moment(body, ids, Post(body, ids, script, 0, FIRST_BACKOFF), log, later);
    i, at := MarkWasAccepted(log, k);
    assert Carried(log)[k] == Labelled(body)[k];
  }

  // ---- Bounds ----

  /** What is left of the sleep budget of one call. */
  function SleepLeft(failures: nat, backoff: nat): nat
    decreases MAX_SERVER_FAILURES - failures
  {
    if failures >= MAX_SERVER_FAILURES then 0 else backoff + SleepLeft(failures + 1, NextBackoff(backoff))
  }

  const POSTS_PER_CALL: nat := 13
  const SLEEP_PER_CALL: nat := 171000

  lemma SleepPerCall()
    ensures SleepLeft(0, FIRST_BACKOFF) == SLEEP_PER_CALL
  {
    assert SleepLeft(8, 30000) == 120000;
    assert SleepLeft(4, 3200) == 3200 + 6400 + 12800 + 25600 + SleepLeft(8, 30000);
    assert SleepLeft(0, 200) == 200 + 400 + 800 + 1600 + SleepLeft(4, 3200);
  }

  /** POSTs of this call alone: those that carry the whole batch. */
  function OwnPosts(log: seq<Attempt>, n: nat): nat {
    if log == [] then 0
    else (if !log[0].Throttled() && |log[0].ids| == n then 1 else 0) + OwnPosts(log[1..], n)
  }

  /** Sleep after server errors of this call alone. */
  function OwnSleep(log: seq<Attempt>, n: nat): nat {
    if log == [] then 0
    else (if log[0].Answer().ServerError? && |log[0].ids| == n then log[0].slept else 0) + OwnSleep(log[1..], n)
  }

  /** A run on n items, entered after `failures` server errors, stays within its budget. */
  ghost predicate Bounded(n: nat, failures: nat, backoff: nat, run: Run) {
    && (n == 0 ==> run.log == [])
    && (n > 0 ==>
          && Posts(run.log) + failures <= POSTS_PER_CALL * (2 * n - 1)
          && ServerSleep(run.log) <= SleepLeft(failures, backoff) + SLEEP_PER_CALL * (2 * n - 2))
    && OwnPosts(run.log, n) + failures <= POSTS_PER_CALL
    && OwnSleep(run.log, n) <= SleepLeft(failures, backoff)
    && (forall a | a in run.log :: |a.ids| <= n)
  }

  lemma BoundedRetry(a: Attempt, n: nat, f: nat, bk: nat, f': nat, bk': nat, more: Run)
    requires |a.ids| == n > 0 && f <= MAX_SERVER_FAILURES && Bounded(n, f', bk', more)
    requires (a.Throttled() && f' == f && bk' == bk)
          || (a.Answer().ServerError? && f' == f + 1 <= MAX_SERVER_FAILURES && a.slept == bk && bk' == NextBackoff(bk))
    ensures Bounded(n, f, bk, Then(a, more))
  {
    hide Posts, ServerSleep;
    LogHead(a, more.log);
    var run := Then(a, more);
    assert run.log[1..] == more.log;
    assert f' > f ==> SleepLeft(f, bk) == bk + SleepLeft(f', bk');
  }

  lemma BoundedSplit(a: Attempt, n: nat, f: nat, bk: nat, halves: Run)
    requires |a.ids| == n >= 2 && f <= MAX_SERVER_FAILURES && a.Answer().TooLarge?
    requires Posts(halves.log) <= POSTS_PER_CALL * (2 * n - 2)
    requires ServerSleep(halves.log) <= SLEEP_PER_CALL * (2 * n - 2)
    requires forall a | a in halves.log :: |a.ids| < n
    ensures Bounded(n, f, bk, Then(a, halves))
  {
    var run := Then(a, halves);
    assert run.log[1..] == halves.log;
    ShorterAreNotOwn(halves.log, n);
  }

  lemma BoundedNone(n: nat, f: nat, bk: nat, run: Run)
    requires run.log == [] && f <= MAX_SERVER_FAILURES
    ensures Bounded(n, f, bk, run)
  {
  }

  lemma BoundedOne(a: Attempt, n: nat, f: nat, bk: nat, outcome: Outcome, rest: seq<Exchange>)
    requires |a.ids| == n > 0 && f <= MAX_SERVER_FAILURES
    requires a.Answer().ServerError? ==> a.slept == 0
    ensures Bounded(n, f, bk, Run(outcome, [a], rest))
  {
    assert [a][1..] == [];
  }

  /** Main result: one call makes at most 13 POSTs of its own that are not
      answered 429 and sleeps at most 171000 ms after server errors; a batch of
      n items costs at most 2n - 1 calls. */
  lemma {:induction false} PostBounds(body: Batch, ids: seq<int>, script: seq<Exchange>, failures: nat, backoff: nat)
    requires |ids| == |body.items| && failures <= MAX_SERVER_FAILURES
    ensures Bounded(|ids|, failures, backoff, Post(body, ids, script, failures, backoff))
    decreases |body.items|, |script|
  {
    hide Bounded, Post, PostHalves, NextBackoff, Settle;
    if ids == [] || script == [] {
      PostStops(body, ids, script, failures, backoff);
      BoundedNone(|ids|, failures, backoff, Post(body, ids, script, failures, backoff));
      return;
    }
    var a := PostStep(body, ids, script, failures, backoff);
    var rest := script[1..];
    if Splits(a) {
      HalvesBounds(body, ids, rest);
      BoundedSplit(a, |ids|, failures, backoff, PostHalves(body, ids, rest));
    } else if a.Throttled() {
      PostBounds(body, ids, rest, failures, backoff);
      BoundedRetry(a, |ids|, failures, backoff, failures, backoff, Post(body, ids, rest, failures, backoff));
    } else if RetriesServer(a, failures) {
      var next := NextBackoff(backoff);
      PostBounds(body, ids, rest, failures + 1, next);
      BoundedRetry(a, |ids|, failures, backoff, failures + 1, next, Post(body, ids, rest, failures + 1, next));
    } else {
      BoundedOne(a, |ids|, failures, backoff, Post(body, ids, script, failures, backoff).outcome, rest);
    }
  }

  lemma {:induction false} ShorterAreNotOwn(log: seq<Attempt>, n: nat)
    requires forall a | a in log :: |a.ids| < n
    ensures OwnPosts(log, n) == 0 && OwnSleep(log, n) == 0
  {
    if log != [] {
      ShorterAreNotOwn(log[1..], n);
    }
  }

  lemma {:induction false} HalvesBounds(body: Batch, ids: seq<int>, script: seq<Exchange>)
    requires |ids| == |body.items| >= 2
    ensures var run := PostHalves(body, ids, script);
            && Posts(run.log) <= POSTS_PER_CALL * (2 * |ids| - 2)
            && ServerSleep(run.log) <= SLEEP_PER_CALL * (2 * |ids| - 2)
            && (forall a | a in run.log :: |a.ids| < |ids|)
    decreases |body.items|, 0
  {
    hide Post, SplitBatch;
    var mid := |ids| / 2;
    var (left, right) := SplitBatch(body, mid);
    var a := Post(left, ids[..mid], script, 0, FIRST_BACKOFF);
    SleepPerCall();
    PostBounds(left, ids[..mid], script, 0, FIRST_BACKOFF);
    if a.outcome.Done? {
      PostBounds(right, ids[mid..], a.rest, 0, FIRST_BACKOFF);
      LogAppend(a.log, Post(right, ids[mid..], a.rest, 0, FIRST_BACKOFF).log);
    }
  }

  // ---- Termination ----

  /** The attempts use up a prefix of the script, in order; a cut-short run used
      all of it. */
  ghost predicate Consumed(script: seq<Exchange>, run: Run) {
    && |run.log| + |run.rest| == |script|
    && run.rest == script[|run.log|..]
    && (forall i | 0 <= i < |run.log| :: run.log[i].exchange == script[i])
    && (run.outcome == CutShort ==> run.rest == [])
  }

  lemma ConsumedBoth(script: seq<Exchange>, a: Run, b: Run)
    requires Consumed(script, a) && Consumed(a.rest, b) && a.outcome.Done?
    ensures Consumed(script, Run(Plus(a.outcome, b.outcome), a.log + b.log, b.rest))
  {
  }

  lemma {:induction false} PostConsumes(body: Batch, ids: seq<int>, script: seq<Exchange>, failures: nat, backoff: nat)
    requires |ids| == |body.items|
    ensures Consumed(script, Post(body, ids, script, failures, backoff))
    decreases |body.items|, |script|
  {
    hide Post, PostHalves, NextBackoff, Settle;
    if ids == [] || script == [] {
      PostStops(body, ids, script, failures, backoff);
      return;
    }
    var a := PostStep(body, ids, script, failures, backoff);
    var rest := script[1..];
    hide Consumed;
    if Splits(a) {
      HalvesConsume(body, ids, rest);
    } else if a.Throttled() {
      PostConsumes(body, ids, rest, failures, backoff);
    } else if RetriesServer(a, failures) {
      PostConsumes(body, ids, rest, failures + 1, NextBackoff(backoff));
    }
  }

  lemma {:induction false} HalvesConsume(body: Batch, ids: seq<int>, script: seq<Exchange>)
    requires |ids| == |body.items| >= 2
    ensures Consumed(script, PostHalves(body, ids, script))
    decreases |body.items|, 0
  {
    hide Consumed, Post, SplitBatch, Plus;
    var mid := |ids| / 2;
    var (left, right) := SplitBatch(body, mid);
    var a := Post(left, ids[..mid], script, 0, FIRST_BACKOFF);
    PostConsumes(left, ids[..mid], script, 0, FIRST_BACKOFF);
    if a.outcome.Done? {
      PostConsumes(right, ids[mid..], a.rest, 0, FIRST_BACKOFF);
      ConsumedBoth(script, a, Post(right, ids[mid..], a.rest, 0, FIRST_BACKOFF));
    }
  }

  lemma {:induction false} ThrottledAttempts(log: seq<Attempt>, script: seq<Exchange>)
    requires |log| <= |script| && forall i | 0 <= i < |log| :: log[i].exchange == script[i]
    ensures |log| <= Posts(log) + Throttles(script)
  {
    if log != [] {
      ThrottledAttempts(log[1..], script[1..]);
    }
  }

  /** Main result: with finitely many 429 replies the post ends.  A script that
      holds more exchanges than its 429s and the bound on the other POSTs is
      never used up. */
  lemma PostEnds(body: Batch, ids: seq<int>, script: seq<Exchange>)
    requires |ids| == |body.items|
    requires |script| > Throttles(script) + POSTS_PER_CALL * (if ids == [] then 0 else 2 * |ids| - 1)
    ensures Post(body, ids, script, 0, FIRST_BACKOFF).outcome != CutShort
  {
    hide Post;
    var run := Post(body, ids, script, 0, FIRST_BACKOFF);
    PostConsumes(body, ids, script, 0, FIRST_BACKOFF);
    PostBounds(body, ids, script, 0, FIRST_BACKOFF);
    ThrottledAttempts(run.log, script);
  }

  // ---- A longer script continues the run of a shorter one ----

  ghost predicate Extends(more: Run, run: Run, tail: seq<Exchange>) {
    if run.outcome == CutShort then run.log <= more.log
    else more == Run(run.outcome, run.log, run.rest + tail)
  }

  lemma ExtendsThen(a: Attempt, more: Run, run: Run, tail: seq<Exchange>)
    requires Extends(more, run, tail)
    ensures Extends(Then(a, more), Then(a, run), tail)
  {
  }

  /** Main result: the run over a longer script takes the same steps, so cutting
      the script is the same as looking at an earlier moment. */
  lemma {:induction false} PostExtends(body: Batch, ids: seq<int>, script: seq<Exchange>, tail: seq<Exchange>,
                                       failures: nat, backoff: nat)
    requires |ids| == |body.items|
    ensures Extends(Post(body, ids, script + tail, failures, backoff), Post(body, ids, script, failures, backoff), tail)
    decreases |body.items|, |script|
  {
    hide Post, PostHalves, NextBackoff, Settle;
    if ids == [] || script == [] {
      PostStops(body, ids, script, failures, backoff);
      if ids == [] {
        PostStops(body, ids, script + tail, failures, backoff);
      }
      return;
    }
    var a := PostStep(body, ids, script, failures, backoff);
    var rest := script[1..];
    assert (script + tail)[1..] == rest + tail && (script + tail)[0] == script[0];
    var b := PostStep(body, ids, script + tail, failures, backoff);
    assert a == b;
    if Splits(a) {
      HalvesExtend(body, ids, rest, tail);
      ExtendsThen(a, PostHalves(body, ids, rest + tail), PostHalves(body, ids, rest), tail);
    } else if a.Throttled() {
      PostExtends(body, ids, rest, tail, failures, backoff);
      ExtendsThen(a, Post(body, ids, rest + tail, failures, backoff), Post(body, ids, rest, failures, backoff), tail);
    } else if RetriesServer(a, failures) {
      var next := NextBackoff(backoff);
      PostExtends(body, ids, rest, tail, failures + 1, next);
      ExtendsThen(a, Post(body, ids, rest + tail, failures + 1, next), Post(body, ids, rest, failures + 1, next), tail);
    }
  }

  lemma {:induction false} HalvesExtend(body: Batch, ids: seq<int>, script: seq<Exchange>, tail: seq<Exchange>)
    requires |ids| == |body.items| >= 2
    ensures Extends(PostHalves(body, ids, script + tail), PostHalves(body, ids, script), tail)
    decreases |body.items|, 0
  {
    hide Post, SplitBatch;
    var mid := |ids| / 2;
    var (left, right) := SplitBatch(body, mid);
    var a := Post(left, ids[..mid], script, 0, FIRST_BACKOFF);
    PostExtends(left, ids[..mid], script, tail, 0, FIRST_BACKOFF);
    if a.outcome.Done? {
      PostExtends(right, ids[mid..], a.rest, tail, 0, FIRST_BACKOFF);
    }
  }

  // ---- The bounds are reached ----

  function Failures(n: nat): seq<Exchange> {
    if n == 0 then [] else [Exchange(ServerError(500), true, StoreOk)] + Failures(n - 1)
  }

  /** Twelve server errors before every other answer, and a 413 wherever the
      batch can still be split. */
  function WorstScript(n: nat): seq<Exchange>
    requires n >= 1
  {
    Failures(12) +
    if n == 1 then [Exchange(Accepted, true, StoreOk)]
    else [Exchange(TooLarge, true, StoreOk)] + WorstScript(n / 2) + WorstScript(n - n / 2)
  }

  lemma NoFailures(script: seq<Exchange>)
    ensures Failures(0) + script == script
    ensures Posts([]) == 0 == ServerSleep([])
  {
  }

  lemma FailuresHead(k: nat, script: seq<Exchange>)
    requires k > 0
    ensures var all := Failures(k) + script;
            |all| > 0 && all[0].reply.ServerError? && all[1..] == Failures(k - 1) + script
  {
  }

  lemma ThenConcat(a: Attempt, log: seq<Attempt>, more: Run)
    ensures Then(a, Run(more.outcome, log + more.log, more.rest)) == Run(more.outcome, ([a] + log) + more.log, more.rest)
  {
    assert [a] + (log + more.log) == ([a] + log) + more.log;
  }

  lemma {:induction false} AfterFailures(body: Batch, ids: seq<int>, k: nat, script: seq<Exchange>, failures: nat, backoff: nat)
      returns (log: seq<Attempt>, later: nat)
    requires |ids| == |body.items| >= 1 && !body.SessionFeedback? && failures + k == MAX_SERVER_FAILURES
    ensures var more := Post(body, ids, script, MAX_SERVER_FAILURES, later);
            Post(body, ids, Failures(k) + script, failures, backoff) == Run(more.outcome, log + more.log, more.rest)
    ensures Posts(log) == k && ServerSleep(log) == SleepLeft(failures, backoff)
    decreases k
  {
    hide Post, PostHalves, NextBackoff, Settle, Posts, ServerSleep, Failures, Then;
    var more;
    if k == 0 {
      log, later := [], backoff;
      NoFailures(script);
      more := Post(body, ids, script, failures, backoff);
      assert log + more.log == more.log;
    } else {
      var rest;
      rest, later := AfterFailures(body, ids, k - 1, script, failures + 1, NextBackoff(backoff));
      FailuresHead(k, script);
      var a := PostStep(body, ids, Failures(k) + script, failures, backoff);
      log := [a] + rest;
      LogHead(a, rest);
      more := Post(body, ids, script, MAX_SERVER_FAILURES, later);
      ThenConcat(a, rest, more);
    }
  }

  /** Main result: the bounds of `PostBounds` are exact.  Every batch that goes
      over HTTP has a script on which all 13(2n - 1) POSTs and the whole sleep
      budget are spent, and which still ends well. */
  lemma {:induction false} BoundsAreReached(body: Batch, ids: seq<int>, tail: seq<Exchange>)
    requires |ids| == |body.items| >= 1 && !body.SessionFeedback?
    ensures var run := Post(body, ids, WorstScript(|ids|) + tail, 0, FIRST_BACKOFF);
            && run.outcome == Done(|ids|, |ids|) && run.rest == tail
            && Posts(run.log) == POSTS_PER_CALL * (2 * |ids| - 1)
            && ServerSleep(run.log) == SLEEP_PER_CALL * (2 * |ids| - 1)
    decreases |body.items|
  {
    hide Post, PostHalves, WorstScript, Posts, ServerSleep, Failures;
    var n := |ids|;
    WorstScriptParts(n, tail);
    if n == 1 {
      var more := LastAttempt(body, ids, Exchange(Accepted, true, StoreOk), tail);
      NoFailures([]);
    } else {
      var halves := WorstScript(n / 2) + (WorstScript(n - n / 2) + tail);
      var more := LastAttempt(body, ids, Exchange(TooLarge, true, StoreOk), halves);
      HalvesReach(body, ids, tail);
    }
  }

  lemma WorstScriptParts(n: nat, tail: seq<Exchange>)
    requires n >= 1
    ensures WorstScript(n) + tail
            == Failures(12) + (if n == 1 then [Exchange(Accepted, true, StoreOk)] + tail
                               else [Exchange(TooLarge, true, StoreOk)] + (WorstScript(n / 2) + (WorstScript(n - n / 2) + tail)))
  {
    if n > 1 {
      var x := [Exchange(TooLarge, true, StoreOk)];
      Regroup(Failures(12), x, WorstScript(n / 2), WorstScript(n - n / 2), tail);
    }
  }

  lemma Regroup<T>(f: seq<T>, x: seq<T>, l: seq<T>, r: seq<T>, t: seq<T>)
    ensures (f + (x + l + r)) + t == f + (x + (l + (r + t)))
  {
  }

  /** Twelve server errors, and then an exchange that accepts or splits. */
  lemma LastAttempt(body: Batch, ids: seq<int>, x: Exchange, after: seq<Exchange>) returns (more: Run)
    requires |ids| == |body.items| >= 1 && !body.SessionFeedback? && x.fanOk && x.store == StoreOk
    requires if |ids| == 1 then x.reply == Accepted else x.reply == TooLarge
    ensures more == if |ids| == 1 then Run(Done(1, 1), [], after) else PostHalves(body, ids, after)
    ensures var run := Post(body, ids, Failures(12) + ([x] + after), 0, FIRST_BACKOFF);
            && run.outcome == more.outcome && run.rest == more.rest
            && Posts(run.log) == 13 + Posts(more.log)
            && ServerSleep(run.log) == SLEEP_PER_CALL + ServerSleep(more.log)
  {
    hide Post, PostHalves;
    SleepPerCall();
    var last := [x] + after;
    assert last[1..] == after;
    var log, later := AfterFailures(body, ids, 12, last, 0, FIRST_BACKOFF);
    var a := PostStep(body, ids, last, MAX_SERVER_FAILURES, later);
    more := if |ids| == 1 then Run(Done(1, 1), [], after) else PostHalves(body, ids, after);
    var final := Post(body, ids, last, MAX_SERVER_FAILURES, later);
    assert final.log == [a] + more.log;
    LogAppend(log, final.log);
    assert final.log[1..] == more.log;
  }

  lemma {:induction false} HalvesReach(body: Batch, ids: seq<int>, tail: seq<Exchange>)
    requires |ids| == |body.items| >= 2 && !body.SessionFeedback?
    ensures var n := |ids|;
            var run := PostHalves(body, ids, WorstScript(n / 2) + (WorstScript(n - n / 2) + tail));
            && run.outcome == Done(n, n) && run.rest == tail
            && Posts(run.log) == POSTS_PER_CALL * (2 * n - 2)
            && ServerSleep(run.log) == SLEEP_PER_CALL * (2 * n - 2)
    decreases |body.items|, 0
  {
    hide Post, WorstScript;
    var mid := |ids| / 2;
    var (left, right) := SplitBatch(body, mid);
    var tail1 := WorstScript(|ids| - mid) + tail;
    BoundsAreReached(left, ids[..mid], tail1);
    BoundsAreReached(right, ids[mid..], tail);
    LogAppend(Post(left, ids[..mid], WorstScript(mid) + tail1, 0, FIRST_BACKOFF).log,
              Post(right, ids[mid..], tail1, 0, FIRST_BACKOFF).log);
  }
}
