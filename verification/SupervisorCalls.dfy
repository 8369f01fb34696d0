/** What each section does to its call, and when a running proxy is used again:
    `ensure_proxy` and `add_deep_capture` in `src/daemon/supervisor.rs`. */
module SupervisorCalls {
  import opened Options
  import opened ProxyRegistry
  import opened SupervisorRuns

  /** The proxy of the key is running at `e`. */
  predicate Live(st: State, key: ProxyKey, e: Endpoint) {
    key in st.proxies && st.proxies[key] == Handle(e, false)
  }

  /** The call has its endpoint: it returns it, or lists it and looks for the next
      provider or ends. */
  ghost predicate Got(goal: Goal, key: ProxyKey, e: Endpoint, next: Call) {
    match goal
    case Return => next == Returned(key, Some(e))
    case Deep(status, todo) =>
      var longer := CaptureStatus(status.workspace, status.proxies + [e], status.errors);
      if todo == [] then next == Finishing(longer)
      else next == Looking(ProxyKey(status.workspace, todo[0]), Deep(longer, todo[1..]))
  }

  /** The start failed: the error is returned, or listed and the capture goes on. */
  ghost predicate GotError(goal: Goal, key: ProxyKey, error: string, next: Call) {
    match goal
    case Return => next == Returned(key, None)
    case Deep(status, todo) =>
      var longer := CaptureStatus(status.workspace, status.proxies, status.errors + [key.provider + " proxy: " + error]);
      if todo == [] then next == Finishing(longer)
      else next == Looking(ProxyKey(status.workspace, todo[0]), Deep(longer, todo[1..]))
  }

  /** Main result: a call that looks for a running proxy gets that very endpoint and
      no handle changes; it goes on to start one exactly when there is no handle or
      the task has ended, and then the dead handle is gone. */
  lemma LookReuses(st: State, key: ProxyKey, goal: Goal, started: Started, order: seq<ProxyKey>)
    ensures var (after, next) := MoveCall(st, Looking(key, goal), started, order);
            && (forall e | Live(st, key, e) :: after == st && Got(goal, key, e, next))
            && (next == Starting(key, goal) <==> key !in st.proxies || st.proxies[key].finished)
            && (next == Starting(key, goal) ==>
                  key !in after.proxies && after.proxies == st.proxies - {key} && after.captures == st.captures)
  {
  }

  /** The other sections: a start yields an endpoint of the provider or an error,
      storing it makes it the running one, and only the last section touches a
      capture that was not there. */
  lemma MoveGoesOn(st: State, key: ProxyKey, goal: Goal, e: Endpoint, status: CaptureStatus, started: Started, order: seq<ProxyKey>)
    requires IsOrder(order, st.proxies, status.workspace)
    ensures var (after, next) := MoveCall(st, Starting(key, goal), started, order);
            && after == st
            && (started.Listening? ==> next == Remembering(key, Endpoint(key.provider, started.listen), goal))
            && (started.Failed? ==> GotError(goal, key, started.error, next))
    ensures var (after, next) := MoveCall(st, Remembering(key, e, goal), started, order);
            && Live(after, key, e) && after.proxies == st.proxies[key := Handle(e, false)] && Got(goal, key, e, next)
            && after.captures.Keys == st.captures.Keys
    ensures var (after, next) := MoveCall(st, Finishing(status), started, order);
            && after.proxies == st.proxies && next == Captured
            && after.captures.Keys == st.captures.Keys + {status.workspace}
            && (forall ws | ws in st.captures && ws != status.workspace :: after.captures[ws] == st.captures[ws])
            && status.proxies <= after.captures[status.workspace].proxies && after.captures[status.workspace].errors == status.errors
  {
    AddHandlesExtends(status.proxies, EndpointsOf(st.proxies, order));
  }

  lemma {:induction false} AddHandlesExtends(listed: seq<Endpoint>, handles: seq<Endpoint>)
    ensures listed <= AddHandles(listed, handles)
  {
    if handles != [] {
      AddHandlesExtends(listed, handles[..|handles| - 1]);
    }
  }

  /** A plain capture has nothing to look for; a deep one looks for both
      providers. */
  lemma NewCallsLook(sys: System, key: ProxyKey, workspace: string)
    ensures Next(sys, EnsureProxy(key)) == System(sys.st, sys.calls + [Looking(key, Return)])
    ensures Next(sys, EnsureCapture(workspace, false))
            == System(sys.st, sys.calls + [Finishing(CaptureStatus(workspace, [], []))])
    ensures Next(sys, EnsureCapture(workspace, true))
            == System(sys.st, sys.calls + [Looking(ProxyKey(workspace, "anthropic"), Deep(CaptureStatus(workspace, [], []), ["openai"]))])
  {
    assert ["anthropic", "openai"][1..] == ["openai"];
  }

  /** Only the task that ends is marked. */
  lemma TaskEndMarks(sys: System, key: ProxyKey)
    ensures var after := Next(sys, TaskEnds(key));
            && after.calls == sys.calls && after.st.captures == sys.st.captures && after.st.proxies.Keys == sys.st.proxies.Keys
            && (forall k | k in sys.st.proxies && k != key :: after.st.proxies[k] == sys.st.proxies[k])
            && (key in sys.st.proxies ==> after.st.proxies[key] == Handle(sys.st.proxies[key].endpoint, true))
  {
  }

  // ---- A running proxy stays the one ----

  /** The call is about to start or to store a proxy for the key. */
  predicate Starts(c: Call, key: ProxyKey) {
    (c.Starting? || c.Remembering?) && c.key == key
  }

  /** The proxy of the key is running and no call is about to bring another. */
  ghost predicate Settled(sys: System, key: ProxyKey, e: Endpoint) {
    Live(sys.st, key, e) && forall i | 0 <= i < |sys.calls| :: !Starts(sys.calls[i], key)
  }

  lemma MoveStaysSettled(st: State, c: Call, started: Started, order: seq<ProxyKey>, key: ProxyKey, e: Endpoint)
    requires Live(st, key, e) && !Starts(c, key)
    ensures Live(MoveCall(st, c, started, order).0, key, e) && !Starts(MoveCall(st, c, started, order).1, key)
  {
  }

  lemma NextStaysSettled(sys: System, step: Step, key: ProxyKey, e: Endpoint)
    requires Settled(sys, key, e) && step != TaskEnds(key)
    ensures Settled(Next(sys, step), key, e)
  {
    match step
    case Move(i, started, order) =>
      if i < |sys.calls| {
        MoveStaysSettled(sys.st, sys.calls[i], started, order, key, e);
        hide MoveCall;
      }
    case _ =>
  }

  /** Main result: until its task ends a running proxy stays the one of its key, no
      call starts another, and whoever looks for it gets it. */
  lemma {:induction false} RunningProxyIsReused(sys: System, steps: seq<Step>, key: ProxyKey, e: Endpoint)
    requires Settled(sys, key, e) && TaskEnds(key) !in steps
    ensures Settled(Run(sys, steps), key, e)
    ensures forall i, started, order | 0 <= i < |Run(sys, steps).calls| && Run(sys, steps).calls[i].Looking? && Run(sys, steps).calls[i].key == key ::
              Got(Run(sys, steps).calls[i].goal, key, e, Next(Run(sys, steps), Move(i, started, order)).calls[i])
  {
    if steps != [] {
      var n := |steps| - 1;
      assert steps[n] in steps;
      RunningProxyIsReused(sys, steps[..n], key, e);
      NextStaysSettled(Run(sys, steps[..n]), steps[n], key, e);
    }
    var now := Run(sys, steps);
    hide Run, Settled, Got;
    forall i: nat, started, order | i < |now.calls| && now.calls[i].Looking? && now.calls[i].key == key
      ensures Got(now.calls[i].goal, key, e, Next(now, Move(i, started, order)).calls[i])
    {
      LookReuses(now.st, key, now.calls[i].goal, started, order);
    }
  }

  /** Main result: what was stored last is what a later look gets, as long as its
      task has not ended and no call has stored another. */
  lemma {:induction false} StoredIsFound(sys: System, steps: seq<Step>, key: ProxyKey, e: Endpoint)
    requires Live(sys.st, key, e) && TaskEnds(key) !in steps
    requires forall n | 0 <= n < |steps| :: !Stores(Run(sys, steps[..n]), steps[n], key)
    ensures Live(Run(sys, steps).st, key, e)
  {
    if steps != [] {
      hide Stores, Next, Live;
      var n := |steps| - 1;
      forall m | 0 <= m < n ensures !Stores(Run(sys, steps[..n][..m]), steps[..n][m], key) {
        assert steps[..n][..m] == steps[..m];
      }
      assert steps[n] in steps;
      StoredIsFound(sys, steps[..n], key, e);
      NextKeepsLive(Run(sys, steps[..n]), steps[n], key, e);
    }
  }

  ghost predicate Stores(sys: System, step: Step, key: ProxyKey) {
    step.Move? && step.call < |sys.calls| && sys.calls[step.call].Remembering? && sys.calls[step.call].key == key
  }

  lemma NextKeepsLive(sys: System, step: Step, key: ProxyKey, e: Endpoint)
    requires Live(sys.st, key, e) && step != TaskEnds(key) && !Stores(sys, step, key)
    ensures Live(Next(sys, step).st, key, e)
  {
  }
}
