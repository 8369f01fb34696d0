/** What each answer does to a post, case by case: `post_with_fanout` and the
    match of `post_batch_resilient` in `src/sync/engine.rs`. */
module OutboxAnswers {
  import opened OutboxModel

  /** What an accepted attempt comes to: the fan-out counts before the store. */
  ghost predicate Accepts(run: Run, body: Batch, ids: seq<int>, x: Exchange, rest: seq<Exchange>) {
    && run.log == [Attempt(body, ids, x, 0)] && run.rest == rest
    && (!x.fanOk ==> run.outcome == Failed(FanOut))
    && (x.fanOk && x.store != StoreOk ==> run.outcome == Failed(StoreWrite))
    && (x.fanOk && x.store == StoreOk ==> run.outcome == Done(1, |ids|))
  }

  /** The attempt was followed by `more`, after a delay. */
  ghost predicate GoesOn(run: Run, body: Batch, ids: seq<int>, x: Exchange, slept: nat, more: Run) {
    run.outcome == more.outcome && run.log == [Attempt(body, ids, x, slept)] + more.log && run.rest == more.rest
  }

  /** Main result: the server's answer decides, and nothing but an accepting answer
      with a fan-out and both writes done ends well.  A 429 waits as long as it
      says and counts as no failure; the thirteenth server error ends the call,
      each before it waits and doubles the wait up to 30 seconds. */
  lemma AnswerDecides(body: Batch, ids: seq<int>, script: seq<Exchange>, failures: nat, backoff: nat)
    requires |ids| == |body.items| > 0 && script != [] && !body.SessionFeedback?
    ensures var run, x, rest := Post(body, ids, script, failures, backoff), script[0], script[1..];
            match x.reply
            case Accepted => Accepts(run, body, ids, x, rest)
            case Conflict => Accepts(run, body, ids, x, rest)
            case TransportError => run == Run(Failed(Transport), [Attempt(body, ids, x, 0)], rest)
            case Unauthorized => run == Run(Failed(Denied), [Attempt(body, ids, x, 0)], rest)
            case ClientError(code) => run == Run(Failed(Client(code)), [Attempt(body, ids, x, 0)], rest)
            case TooLarge =>
              if |ids| == 1 then run == Run(Failed(SingleTooLarge), [Attempt(body, ids, x, 0)], rest)
              else GoesOn(run, body, ids, x, 0, PostHalves(body, ids, rest))
            case RateLimited(ms) => GoesOn(run, body, ids, x, ms, Post(body, ids, rest, failures, backoff))
            case ServerError(code) =>
              if failures >= 12 then run == Run(Failed(Server(code)), [Attempt(body, ids, x, 0)], rest)
              else GoesOn(run, body, ids, x, backoff,
                          Post(body, ids, rest, failures + 1, if 2 * backoff < 30_000 then 2 * backoff else 30_000))
  {
    hide PostHalves;
  }

  /** Feedback batches are accepted whatever the server would answer. */
  lemma FeedbackIsLocal(body: Batch, ids: seq<int>, script: seq<Exchange>, failures: nat, backoff: nat)
    requires |ids| == |body.items| > 0 && script != [] && body.SessionFeedback?
    ensures Accepts(Post(body, ids, script, failures, backoff), body, ids, script[0], script[1..])
  {
    hide PostHalves;
  }

  /** Ids are marked when the answer accepts, the fan-out succeeded and the marking
      itself did; a failing write of the sync state comes after. */
  lemma MarksWhenAccepted(body: Batch, ids: seq<int>, x: Exchange, slept: nat)
    ensures var accepts := body.SessionFeedback? || x.reply == Accepted || x.reply == Conflict;
            Marked([Attempt(body, ids, x, slept)])
            == if accepts && x.fanOk && (x.store == StoreOk || x.store == StateFails) then ids else []
  {
    assert [Attempt(body, ids, x, slept)][1..] == [];
  }

  /** The halves start anew, with no failures and 200 ms; an error in the first
      half keeps the second from being sent. */
  lemma HalvesInTurn(body: Batch, ids: seq<int>, script: seq<Exchange>, left: Batch, right: Batch)
    requires |ids| == |body.items| >= 2 && left.Shape() == body.Shape() == right.Shape()
    requires var mid := |ids| / 2; left.items == body.items[..mid] && right.items == body.items[mid..]
    ensures var mid := |ids| / 2;
            var run, a := PostHalves(body, ids, script), Post(left, ids[..mid], script, 0, 200);
            if !a.outcome.Done? then run == a
            else
              var b := Post(right, ids[mid..], a.rest, 0, 200);
              && run.log == a.log + b.log && run.rest == b.rest
              && (b.outcome.Done? ==> run.outcome == Done(a.outcome.batches + b.outcome.batches, a.outcome.events + b.outcome.events))
              && (!b.outcome.Done? ==> run.outcome == b.outcome)
  {
    SplitIs(body, left, right, |ids| / 2);
    hide Post;
  }

  lemma SplitIs(body: Batch, left: Batch, right: Batch, mid: nat)
    requires mid <= |body.items| && left.Shape() == body.Shape() == right.Shape()
    requires left.items == body.items[..mid] && right.items == body.items[mid..]
    ensures SplitBatch(body, mid) == (left, right)
  {
    var (l, r) := SplitBatch(body, mid);
    assert l.items == (l.items + r.items)[..mid] && r.items == (l.items + r.items)[mid..];
    SameBatch(l, left);
    SameBatch(r, right);
  }

  lemma SameBatch(a: Batch, b: Batch)
    requires a.Shape() == b.Shape() && a.items == b.items
    ensures a == b
  {
    assert a == a.Shape().(items := a.items) && b == b.Shape().(items := b.items);
  }

  /** The places of the 429 replies of a script. */
  function ThrottledAt(script: seq<Exchange>): set<nat> {
    set i: nat | i < |script| && script[i].reply.RateLimited?
  }

  lemma {:induction false} ThrottlesAre(script: seq<Exchange>)
    ensures Throttles(script) == |ThrottledAt(script)|
  {
    if script != [] {
      var rest := script[1..];
      ThrottlesAre(rest);
      var later := set i | i in ThrottledAt(rest) :: i + 1;
      ShiftedSize(ThrottledAt(rest), later);
      if script[0].reply.RateLimited? {
        assert ThrottledAt(script) == {0} + later by { ShiftedPlaces(script, later); }
      } else {
        assert ThrottledAt(script) == later by { ShiftedPlaces(script, later); }
      }
    }
  }

  lemma ShiftedPlaces(script: seq<Exchange>, later: set<nat>)
    requires script != [] && later == set i | i in ThrottledAt(script[1..]) :: i + 1
    ensures forall i :: i in ThrottledAt(script) <==> i in later || (i == 0 && script[0].reply.RateLimited?)
  {
    forall i: nat | i in ThrottledAt(script) && i > 0 ensures i in later {
      assert i - 1 in ThrottledAt(script[1..]);
    }
  }

  lemma {:induction false} ShiftedSize(places: set<nat>, later: set<nat>)
    requires later == set i | i in places :: i + 1
    ensures |later| == |places|
  {
    if places != {} {
      var i :| i in places;
      var fewer := places - {i};
      var rest := set k | k in fewer :: k + 1;
      forall x ensures x in later <==> x in rest || x == i + 1 {
        if x in later {
          var k :| k in places && k + 1 == x;
          assert k == i || k in fewer;
        }
      }
      assert later == rest + {i + 1};
      ShiftedSize(fewer, rest);
    } else {
      assert later == {};
    }
  }
}
