/** Every interleaving of the locked sections of concurrent `ensure_proxy` and
    `ensure_capture` calls, with proxy tasks ending at any moment. */
module SupervisorRuns {
  import opened Sequences
  import opened Options
  import opened ProxyRegistry

  /** What a call goes on with once it has its proxy: nothing, or the rest of a
      deep capture. */
  datatype Goal =
    | Return
    | Deep(status: CaptureStatus, todo: seq<string>)

  /** Where a call stands between two sections. */
  datatype Call =
    | Looking(key: ProxyKey, goal: Goal)
    | Starting(key: ProxyKey, goal: Goal)
    | Remembering(key: ProxyKey, endpoint: Endpoint, goal: Goal)
    | Finishing(status: CaptureStatus)
    | Returned(key: ProxyKey, result: Option<Endpoint>)
    | Captured

  datatype System = System(st: State, calls: seq<Call>)

  /** A start ends with the address it listens on, or with an error. */
  datatype Started = Listening(listen: string) | Failed(error: string)

  datatype Step =
    | EnsureProxy(key: ProxyKey)
    | EnsureCapture(workspace: string, deep: bool)
    | Move(call: nat, started: Started, order: seq<ProxyKey>)
    | TaskEnds(key: ProxyKey)

  /** The loop of `add_deep_capture`. */
  function NextProvider(status: CaptureStatus, todo: seq<string>): Call {
    if todo == [] then Finishing(status)
    else Looking(ProxyKey(status.workspace, todo[0]), Deep(status, todo[1..]))
  }

  function Resume(key: ProxyKey, goal: Goal, endpoint: Endpoint): Call {
    match goal
    case Return => Returned(key, Some(endpoint))
    case Deep(status, todo) => NextProvider(status.(proxies := status.proxies + [endpoint]), todo)
  }

  function ResumeFailed(key: ProxyKey, goal: Goal, error: string): Call {
    match goal
    case Return => Returned(key, None)
    case Deep(status, todo) => NextProvider(status.(errors := status.errors + [key.provider + " proxy: " + error]), todo)
  }

  function NewCapture(workspace: string, deep: bool): Call {
    NextProvider(CaptureStatus(workspace, [], []), if deep then ["anthropic", "openai"] else [])
  }

  ghost function MoveCall(st: State, c: Call, started: Started, order: seq<ProxyKey>): (State, Call) {
    match c
    case Looking(key, goal) =>
      var after := DropFinished(st, key);
      (after, match Held(after, key) case Some(e) => Resume(key, goal, e) case None => Starting(key, goal))
    case Starting(key, goal) =>
      (st, match started
           case Listening(listen) => Remembering(key, Endpoint(key.provider, listen), goal)
           case Failed(error) => ResumeFailed(key, goal, error))
    case Remembering(key, endpoint, goal) => (RememberProxy(st, key, endpoint), Resume(key, goal, endpoint))
    case Finishing(status) =>
      if IsOrder(order, st.proxies, status.workspace) then (RememberCapture(st, status, order), Captured) else (st, c)
    case _ => (st, c)
  }

  function EndTask(st: State, key: ProxyKey): State {
    if key in st.proxies then st.(proxies := st.proxies[key := st.proxies[key].(finished := true)]) else st
  }

  ghost function Next(sys: System, step: Step): System {
    match step
    case EnsureProxy(key) => sys.(calls := sys.calls + [Looking(key, Return)])
    case EnsureCapture(workspace, deep) => sys.(calls := sys.calls + [NewCapture(workspace, deep)])
    case Move(i, started, order) =>
      if i < |sys.calls| then
        var (st, c) := MoveCall(sys.st, sys.calls[i], started, order);
        System(st, sys.calls[i := c])
      else sys
    case TaskEnds(key) => sys.(st := EndTask(sys.st, key))
  }

  ghost function Run(sys: System, steps: seq<Step>): System {
    if steps == [] then sys else Next(Run(sys, steps[..|steps| - 1]), steps[|steps| - 1])
  }

  const IDLE := System(State(map[], map[]), [])

  // ---- The invariant over calls in flight ----

  /** A status on its way lists no provider twice and none that is still to come. */
  ghost predicate OnItsWay(status: CaptureStatus, todo: seq<string>) {
    AtMostOnce(status.proxies) && Distinct(todo) && forall p | p in todo :: !Lists(status.proxies, p)
  }

  ghost predicate GoalGood(key: ProxyKey, goal: Goal) {
    goal.Deep? ==> goal.status.workspace == key.workspace && OnItsWay(goal.status, [key.provider] + goal.todo)
  }

  ghost predicate CallGood(c: Call) {
    match c
    case Looking(key, goal) => GoalGood(key, goal)
    case Starting(key, goal) => GoalGood(key, goal)
    case Remembering(key, endpoint, goal) => GoalGood(key, goal) && endpoint.provider == key.provider
    case Finishing(status) => AtMostOnce(status.proxies)
    case _ => true
  }

  ghost predicate SystemGood(sys: System) {
    Good(sys.st) && forall i | 0 <= i < |sys.calls| :: CallGood(sys.calls[i])
  }

  lemma PushGood(status: CaptureStatus, todo: seq<string>, e: Endpoint)
    requires OnItsWay(status, [e.provider] + todo)
    ensures OnItsWay(status.(proxies := status.proxies + [e]), todo)
  {
    var all, after := [e.provider] + todo, status.proxies + [e];
    assert all[0] == e.provider && forall i | 0 <= i < |todo| :: all[i + 1] == todo[i];
    assert e.provider in all;
    assert forall i | 0 <= i < |status.proxies| :: after[i] == status.proxies[i];
    forall p | p in todo ensures !Lists(after, p) {
      assert p in all;
    }
  }

  lemma ResumeGood(key: ProxyKey, goal: Goal, e: Endpoint)
    requires GoalGood(key, goal) && e.provider == key.provider
    ensures CallGood(Resume(key, goal, e))
  {
    if goal.Deep? {
      PushGood(goal.status, goal.todo, e);
    }
  }

  lemma ResumeFailedGood(key: ProxyKey, goal: Goal, error: string)
    requires GoalGood(key, goal)
    ensures CallGood(ResumeFailed(key, goal, error))
  {
    if goal.Deep? {
      var all := [key.provider] + goal.todo;
      assert forall i | 0 <= i < |goal.todo| :: all[i + 1] == goal.todo[i];
      assert forall p | p in goal.todo :: p in all;
    }
  }

  lemma MoveKeeps(st: State, c: Call, started: Started, order: seq<ProxyKey>)
    requires Good(st) && CallGood(c)
    ensures Good(MoveCall(st, c, started, order).0) && CallGood(MoveCall(st, c, started, order).1)
  {
    match c
    case Looking(key, goal) =>
      DropKeeps(st, key);
      var after := DropFinished(st, key);
      if key in after.proxies {
        assert HandleGood(after, key);
        hide GoalGood, Good;
        ResumeGood(key, goal, after.proxies[key].endpoint);
      }
    case Starting(key, goal) =>
      match started {
        case Listening(_) =>
        case Failed(error) => ResumeFailedGood(key, goal, error);
      }
    case Remembering(key, endpoint, goal) =>
      RememberProxyKeeps(st, key, endpoint);
      ResumeGood(key, goal, endpoint);
    case Finishing(status) =>
      if IsOrder(order, st.proxies, status.workspace) {
        RememberCaptureKeeps(st, status, order);
      }
    case _ =>
  }

  lemma EndTaskKeeps(st: State, key: ProxyKey)
    requires Good(st)
    ensures Good(EndTask(st, key))
    ensures forall k :: Held(EndTask(st, key), k) == Held(st, k) && (Agrees(EndTask(st, key), k) <==> Agrees(st, k))
  {
    var after := EndTask(st, key);
    forall k | k in after.proxies ensures HandleGood(after, k) {
      assert HandleGood(st, k);
    }
    forall ws | ws in after.captures ensures CaptureGood(after, ws) {
      assert CaptureGood(st, ws);
    }
  }

  lemma NewCaptureGood(workspace: string, deep: bool)
    ensures CallGood(NewCapture(workspace, deep))
  {
    var todo := if deep then ["anthropic", "openai"] else [];
    assert deep ==> todo[0][0] != todo[1][0];
  }

  lemma NextKeeps(sys: System, step: Step)
    requires SystemGood(sys)
    ensures SystemGood(Next(sys, step))
  {
    hide Good, CallGood, MoveCall, NewCapture;
    match step
    case EnsureProxy(key) => assert CallGood(Looking(key, Return)) by { PlainCallGood(key); }
    case EnsureCapture(workspace, deep) => NewCaptureGood(workspace, deep);
    case Move(i, started, order) =>
      if i < |sys.calls| {
        MoveKeeps(sys.st, sys.calls[i], started, order);
      }
    case TaskEnds(key) => EndTaskKeeps(sys.st, key);
  }

  lemma PlainCallGood(key: ProxyKey)
    ensures CallGood(Looking(key, Return))
  {
  }

  /** Main result: in every interleaving each capture lists a provider at most
      once and lists every provider with a handle for its workspace. */
  lemma {:induction false} EveryRunIsGood(steps: seq<Step>)
    ensures SystemGood(Run(IDLE, steps))
  {
    if steps != [] {
      EveryRunIsGood(steps[..|steps| - 1]);
      NextKeeps(Run(IDLE, steps[..|steps| - 1]), steps[|steps| - 1]);
      hide SystemGood, Next;
    }
  }

  /** An `ensure_proxy` returns the endpoint that the map holds at that moment. */
  lemma ReturnedIsHeld(sys: System, i: nat, started: Started, order: seq<ProxyKey>)
    requires i < |sys.calls| && !sys.calls[i].Returned?
    ensures var after := Next(sys, Move(i, started, order));
            after.calls[i].Returned? && after.calls[i].result.Some? ==>
              Held(after.st, after.calls[i].key) == after.calls[i].result
  {
  }

  // ---- Agreement ----

  /** The list a call carries to `remember_capture`. */
  function Carried(c: Call): Option<CaptureStatus> {
    match c
    case Looking(_, Deep(status, _)) => Some(status)
    case Starting(_, Deep(status, _)) => Some(status)
    case Remembering(_, _, Deep(status, _)) => Some(status)
    case Finishing(status) => Some(status)
    case _ => None
  }

  ghost predicate CarriedMatches(st: State, c: Call) {
    Carried(c).Some? ==> Matches(Carried(c).value.proxies, st, Carried(c).value.workspace)
  }

  /** One call stores a new proxy while another carries an endpoint for the same
      provider and workspace. */
  ghost predicate Overtakes(sys: System, step: Step) {
    && step.Move? && step.call < |sys.calls| && sys.calls[step.call].Remembering?
    && var key := sys.calls[step.call].key;
       exists j | 0 <= j < |sys.calls| && j != step.call ::
         Carried(sys.calls[j]).Some? && Carried(sys.calls[j]).value.workspace == key.workspace
         && Lists(Carried(sys.calls[j]).value.proxies, key.provider)
  }

  ghost predicate InTune(sys: System) {
    && (forall k :: Agrees(sys.st, k))
    && (forall i | 0 <= i < |sys.calls| :: CarriedMatches(sys.st, sys.calls[i]))
  }

  ghost predicate NeverOvertakes(sys: System, steps: seq<Step>) {
    forall n | 0 <= n < |steps| :: !Overtakes(Run(sys, steps[..n]), steps[n])
  }

  ghost predicate AllInTune(st: State) {
    forall k :: Agrees(st, k)
  }

  /** Main result: the sections that can part a capture from a handle are exactly
      those that store a status naming another endpoint than the live handle. */
  lemma AgreementLostIff(sys: System, step: Step)
    requires SystemGood(sys) && AllInTune(sys.st)
    ensures AllInTune(Next(sys, step).st) <==>
            !(&& step.Move? && step.call < |sys.calls| && sys.calls[step.call].Finishing?
              && IsOrder(step.order, sys.st.proxies, sys.calls[step.call].status.workspace)
              && !Matches(sys.calls[step.call].status.proxies, sys.st, sys.calls[step.call].status.workspace))
  {
    if step.Move? && step.call < |sys.calls| {
      MoveAgreement(sys.st, sys.calls[step.call], step.started, step.order);
    } else if step.TaskEnds? {
      EndTaskKeeps(sys.st, step.key);
    }
  }

  lemma MoveAgreement(st: State, c: Call, started: Started, order: seq<ProxyKey>)
    requires Good(st) && CallGood(c) && AllInTune(st)
    ensures AllInTune(MoveCall(st, c, started, order).0) <==>
            !(&& c.Finishing? && IsOrder(order, st.proxies, c.status.workspace)
              && !Matches(c.status.proxies, st, c.status.workspace))
  {
    var after := MoveCall(st, c, started, order).0;
    match c
    case Looking(key, _) =>
      DropKeeps(st, key);
      forall k ensures Agrees(after, k) {
        assert Agrees(st, k);
      }
    case Remembering(key, endpoint, _) =>
      RememberProxyKeeps(st, key, endpoint);
      forall k ensures Agrees(after, k) {
        assert Agrees(st, k);
      }
    case Finishing(status) =>
      if IsOrder(order, st.proxies, status.workspace) {
        RememberCaptureKeeps(st, status, order);
        FromWorkspace(st, after, status.workspace);
      }
    case _ =>
  }

  lemma FromWorkspace(st: State, after: State, ws: string)
    requires AllInTune(st) && forall k: ProxyKey | k.workspace != ws :: Agrees(after, k) <==> Agrees(st, k)
    ensures AllInTune(after) <==> AllAgree(after, ws)
  {
    if AllAgree(after, ws) {
      forall k ensures Agrees(after, k) {
        assert Agrees(st, k);
        if k.workspace == ws {
          assert Agrees(after, ProxyKey(ws, k.provider));
        }
      }
    }
  }

  // ---- Runs in which no call overtakes another ----

  lemma CarriedStays(st: State, after: State, c: Call)
    requires CarriedMatches(st, c) && forall k :: Held(after, k) == Held(st, k) || Held(after, k) == None
    ensures CarriedMatches(after, c)
  {
    if Carried(c).Some? {
      var status := Carried(c).value;
      forall e | e in status.proxies && ProxyKey(status.workspace, e.provider) in after.proxies
        ensures after.proxies[ProxyKey(status.workspace, e.provider)].endpoint == e
      {
        var k := ProxyKey(status.workspace, e.provider);
        assert Held(after, k) == Held(st, k);
      }
    }
  }

  lemma MoverStaysInTune(st: State, c: Call, started: Started, order: seq<ProxyKey>)
    requires Good(st) && CallGood(c) && CarriedMatches(st, c)
    ensures CarriedMatches(MoveCall(st, c, started, order).0, MoveCall(st, c, started, order).1)
  {
    var (after, next) := MoveCall(st, c, started, order);
    match c
    case Looking(key, goal) =>
      DropKeeps(st, key);
      CarriedStays(st, after, c);
      if key in after.proxies {
        assert HandleGood(after, key);
      }
    case Remembering(key, endpoint, goal) =>
      if goal.Deep? {
        assert key.provider in [key.provider] + goal.todo;
      }
    case _ =>
  }

  lemma CallsStayInTune(sys: System, step: Step)
    requires SystemGood(sys) && InTune(sys) && !Overtakes(sys, step)
    ensures forall i | 0 <= i < |Next(sys, step).calls| :: CarriedMatches(Next(sys, step).st, Next(sys, step).calls[i])
  {
    var after := Next(sys, step);
    forall j | 0 <= j < |after.calls| ensures CarriedMatches(after.st, after.calls[j]) {
      match step
      case Move(i, started, order) =>
        if i < |sys.calls| {
          if j == i {
            MoverStaysInTune(sys.st, sys.calls[i], started, order);
          }
        }
      case TaskEnds(key) =>
        EndTaskKeeps(sys.st, key);
        CarriedStays(sys.st, after.st, sys.calls[j]);
      case _ =>
    }
  }

  /** Main result: in every run in which no call stores a new proxy for a provider
      that another call carries, each capture lists, at every moment, the endpoint
      of the live handle of each of its providers. */
  lemma {:induction false} AgreesUnlessOvertaken(steps: seq<Step>)
    requires NeverOvertakes(IDLE, steps)
    ensures InTune(Run(IDLE, steps))
  {
    if steps != [] {
      var n := |steps| - 1;
      var before := Run(IDLE, steps[..n]);
      forall m | 0 <= m < n ensures !Overtakes(Run(IDLE, steps[..n][..m]), steps[..n][m]) {
        assert steps[..n][..m] == steps[..m];
      }
      AgreesUnlessOvertaken(steps[..n]);
      EveryRunIsGood(steps[..n]);
      CallsStayInTune(before, steps[n]);
      AgreementLostIff(before, steps[n]);
    }
  }

  // ---- Runs in which one call overtakes another ----

  const WS := "w"
  const KEY := ProxyKey(WS, "anthropic")
  const FIRST := Endpoint("anthropic", "1")
  const SECOND := Endpoint("anthropic", "2")

  /** Two calls, one of which moves. */
  lemma FirstMoves(sys: System, c: Call, d: Call, started: Started, order: seq<ProxyKey>)
    requires sys.calls == [c, d]
    ensures Next(sys, Move(0, started, order))
            == System(MoveCall(sys.st, c, started, order).0, [MoveCall(sys.st, c, started, order).1, d])
  {
    hide MoveCall;
    var (st, next) := MoveCall(sys.st, c, started, order);
    assert sys.calls[0 := next] == [next, d];
  }

  lemma SecondMoves(sys: System, c: Call, d: Call, started: Started, order: seq<ProxyKey>)
    requires sys.calls == [c, d]
    ensures Next(sys, Move(1, started, order))
            == System(MoveCall(sys.st, d, started, order).0, [c, MoveCall(sys.st, d, started, order).1])
  {
    hide MoveCall;
    var (st, next) := MoveCall(sys.st, d, started, order);
    assert sys.calls[1 := next] == [c, next];
  }

  function Carrying(proxies: seq<Endpoint>, errors: seq<string>): CaptureStatus {
    CaptureStatus(WS, proxies, errors)
  }

  const TAKEN := "openai" + " proxy: " + "taken"

  /** The capture of the race, at each of its stops. */
  function Stop(n: nat): Call {
    var openai := ProxyKey(WS, "openai");
    match n
    case 0 => Looking(KEY, Deep(Carrying([], []), ["openai"]))
    case 1 => Starting(KEY, Deep(Carrying([], []), ["openai"]))
    case 2 => Remembering(KEY, FIRST, Deep(Carrying([], []), ["openai"]))
    case 3 => Looking(openai, Deep(Carrying([FIRST], []), []))
    case 4 => Starting(openai, Deep(Carrying([FIRST], []), []))
    case _ => Finishing(Carrying([FIRST], [TAKEN]))
  }

  const NOTHING := State(map[], map[])
  const HOLDS_FIRST := State(map[], map[KEY := Handle(FIRST, false)])
  const HOLDS_SECOND := State(map[], map[KEY := Handle(SECOND, false)])

  lemma StopsFollow()
    ensures NewCapture(WS, true) == Stop(0)
    ensures MoveCall(NOTHING, Stop(0), Listening("1"), []) == (NOTHING, Stop(1))
    ensures MoveCall(NOTHING, Stop(1), Listening("1"), []) == (NOTHING, Stop(2))
    ensures MoveCall(NOTHING, Stop(2), Listening("1"), []) == (HOLDS_FIRST, Stop(3))
  {
    assert ["anthropic", "openai"][1..] == ["openai"] && ["openai"][1..] == [];
    assert Carrying([], []).proxies + [FIRST] == [FIRST];
  }

  lemma LastStopsFollow()
    ensures MoveCall(HOLDS_SECOND, Stop(3), Listening("1"), []) == (HOLDS_SECOND, Stop(4))
    ensures MoveCall(HOLDS_SECOND, Stop(4), Failed("taken"), []) == (HOLDS_SECOND, Stop(5))
  {
    assert "openai" != "anthropic" by {
      assert "openai"[0] != "anthropic"[0];
    }
    assert Carrying([FIRST], []).errors + ["openai" + " proxy: " + "taken"] == [TAKEN];
  }

  lemma RequestFollows()
    ensures MoveCall(NOTHING, Looking(KEY, Return), Listening("2"), []) == (NOTHING, Starting(KEY, Return))
    ensures MoveCall(HOLDS_FIRST, Starting(KEY, Return), Listening("2"), []) == (HOLDS_FIRST, Remembering(KEY, SECOND, Return))
    ensures MoveCall(HOLDS_FIRST, Remembering(KEY, SECOND, Return), Listening("2"), [])
            == (HOLDS_SECOND, Returned(KEY, Some(SECOND)))
  {
    assert HOLDS_FIRST.proxies[KEY := Handle(SECOND, false)] == HOLDS_SECOND.proxies;
  }

  lemma LastStore()
    ensures MoveCall(HOLDS_SECOND, Stop(5), Listening("1"), [KEY])
            == (State(map[WS := Carrying([FIRST], [TAKEN])], map[KEY := Handle(SECOND, false)]), Captured)
  {
    assert IsOrder([KEY], HOLDS_SECOND.proxies, WS);
    assert EndpointsOf(HOLDS_SECOND.proxies, [KEY]) == [SECOND];
    assert Lists([FIRST], "anthropic") by {
      assert [FIRST][0].provider == "anthropic";
    }
    assert [SECOND][..0] == [];
    assert AddHandles([FIRST], [SECOND]) == [FIRST];
  }

  lemma Grows(steps: seq<Step>, step: Step)
    ensures Run(IDLE, steps + [step]) == Next(Run(IDLE, steps), step)
  {
    assert (steps + [step])[..|steps|] == steps;
  }

  /** The run of the race so far, with the state and the two calls it leads to. */
  ghost predicate LeadsTo(steps: seq<Step>, st: State, c: Call, d: Call) {
    Run(IDLE, steps) == System(st, [c, d])
  }

  lemma FirstGoesOn(steps: seq<Step>, st: State, c: Call, d: Call, started: Started, order: seq<ProxyKey>)
      returns (longer: seq<Step>)
    requires LeadsTo(steps, st, c, d)
    ensures LeadsTo(longer, MoveCall(st, c, started, order).0, MoveCall(st, c, started, order).1, d)
  {
    longer := steps + [Move(0, started, order)];
    Grows(steps, Move(0, started, order));
    FirstMoves(System(st, [c, d]), c, d, started, order);
  }

  lemma SecondGoesOn(steps: seq<Step>, st: State, c: Call, d: Call, started: Started, order: seq<ProxyKey>)
      returns (longer: seq<Step>)
    requires LeadsTo(steps, st, c, d)
    ensures LeadsTo(longer, MoveCall(st, d, started, order).0, c, MoveCall(st, d, started, order).1)
  {
    longer := steps + [Move(1, started, order)];
    Grows(steps, Move(1, started, order));
    SecondMoves(System(st, [c, d]), c, d, started, order);
  }

  lemma BothBegin() returns (steps: seq<Step>)
    ensures LeadsTo(steps, NOTHING, Stop(0), Looking(KEY, Return))
  {
    StopsFollow();
    Grows([], EnsureCapture(WS, true));
    Grows([EnsureCapture(WS, true)], EnsureProxy(KEY));
    steps := [EnsureCapture(WS, true), EnsureProxy(KEY)];
    assert [] + [EnsureCapture(WS, true)] == [EnsureCapture(WS, true)];
    assert [EnsureCapture(WS, true)] + [EnsureProxy(KEY)] == steps;
  }

  /** Main result: the condition above is needed. A deep capture and a proxy
      request both start a proxy, the request's is stored last, and the capture
      ends up with an endpoint that no handle holds, without the live one. */
  lemma RacePartsThem() returns (steps: seq<Step>)
    ensures var st := Run(IDLE, steps).st;
            && Held(st, KEY) == Some(SECOND) && WS in st.captures
            && st.captures[WS].proxies == [FIRST] && !Agrees(st, KEY)
  {
    StopsFollow();
    RequestFollows();
    LastStopsFollow();
    LastStore();
    hide MoveCall, Stop, LeadsTo, NewCapture;
    var asks := Looking(KEY, Return);
    steps := BothBegin();
    steps := FirstGoesOn(steps, NOTHING, Stop(0), asks, Listening("1"), []);
    steps := SecondGoesOn(steps, NOTHING, Stop(1), asks, Listening("2"), []);
    steps := FirstGoesOn(steps, NOTHING, Stop(1), Starting(KEY, Return), Listening("1"), []);
    steps := FirstGoesOn(steps, NOTHING, Stop(2), Starting(KEY, Return), Listening("1"), []);
    steps := SecondGoesOn(steps, HOLDS_FIRST, Stop(3), Starting(KEY, Return), Listening("2"), []);
    steps := SecondGoesOn(steps, HOLDS_FIRST, Stop(3), Remembering(KEY, SECOND, Return), Listening("2"), []);
    steps := RaceEnds(steps);
  }

  lemma RaceEnds(steps: seq<Step>) returns (all: seq<Step>)
    requires LeadsTo(steps, HOLDS_SECOND, Stop(3), Returned(KEY, Some(SECOND)))
    ensures var st := Run(IDLE, all).st;
            && Held(st, KEY) == Some(SECOND) && WS in st.captures
            && st.captures[WS].proxies == [FIRST] && !Agrees(st, KEY)
  {
    LastStopsFollow();
    LastStore();
    var done := Returned(KEY, Some(SECOND));
    hide MoveCall, Stop, Run;
    all := FirstGoesOn(steps, HOLDS_SECOND, Stop(3), done, Listening("1"), []);
    all := FirstGoesOn(all, HOLDS_SECOND, Stop(4), done, Failed("taken"), []);
    all := FirstGoesOn(all, HOLDS_SECOND, Stop(5), done, Listening("1"), [KEY]);
  }
}
