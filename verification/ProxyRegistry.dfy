/** The locked sections of the daemon supervisor: `existing_proxy`,
    `remember_proxy` and `remember_capture` in `src/daemon/supervisor.rs`. */
module ProxyRegistry {
  import opened Options

  datatype Endpoint = Endpoint(provider: string, listen: string)
  datatype ProxyKey = ProxyKey(workspace: string, provider: string)
  datatype Handle = Handle(endpoint: Endpoint, finished: bool)
  datatype CaptureStatus = CaptureStatus(workspace: string, proxies: seq<Endpoint>, errors: seq<string>)

  datatype State = State(captures: map<string, CaptureStatus>, proxies: map<ProxyKey, Handle>)

  // ---- The three sections ----

  function DropFinished(st: State, key: ProxyKey): State {
    if key in st.proxies && st.proxies[key].finished then st.(proxies := st.proxies - {key}) else st
  }

  function Held(st: State, key: ProxyKey): Option<Endpoint> {
    if key in st.proxies then Some(st.proxies[key].endpoint) else None
  }

  function Without(listed: seq<Endpoint>, provider: string): seq<Endpoint> {
    if listed == [] then []
    else Without(listed[..|listed| - 1], provider)
         + if listed[|listed| - 1].provider != provider then [listed[|listed| - 1]] else []
  }

  function RememberProxy(st: State, key: ProxyKey, endpoint: Endpoint): State {
    var ws := key.workspace;
    State(if ws in st.captures
          then st.captures[ws := st.captures[ws].(proxies := Without(st.captures[ws].proxies, key.provider) + [endpoint])]
          else st.captures,
          st.proxies[key := Handle(endpoint, false)])
  }

  predicate Lists(listed: seq<Endpoint>, provider: string) {
    exists i | 0 <= i < |listed| :: listed[i].provider == provider
  }

  function AddHandle(listed: seq<Endpoint>, e: Endpoint): seq<Endpoint> {
    if Lists(listed, e.provider) then listed else listed + [e]
  }

  /** The handles in the order in which the hash map gives them. */
  function AddHandles(listed: seq<Endpoint>, handles: seq<Endpoint>): seq<Endpoint> {
    if handles == [] then listed
    else AddHandle(AddHandles(listed, handles[..|handles| - 1]), handles[|handles| - 1])
  }

  function EndpointsOf(proxies: map<ProxyKey, Handle>, order: seq<ProxyKey>): seq<Endpoint>
    requires forall k | k in order :: k in proxies
  {
    seq(|order|, i requires 0 <= i < |order| => proxies[order[i]].endpoint)
  }

  ghost predicate IsOrder(order: seq<ProxyKey>, proxies: map<ProxyKey, Handle>, ws: string) {
    && (forall i, j | 0 <= i < j < |order| :: order[i] != order[j])
    && (forall k :: k in order <==> k in proxies && k.workspace == ws)
  }

  ghost function RememberCapture(st: State, status: CaptureStatus, order: seq<ProxyKey>): State
    requires IsOrder(order, st.proxies, status.workspace)
  {
    var full := status.(proxies := AddHandles(status.proxies, EndpointsOf(st.proxies, order)));
    st.(captures := st.captures[status.workspace := full])
  }

  // ---- The invariant ----

  ghost predicate AtMostOnce(listed: seq<Endpoint>) {
    forall i, j | 0 <= i < j < |listed| :: listed[i].provider != listed[j].provider
  }

  ghost predicate CaptureGood(st: State, ws: string)
    requires ws in st.captures
  {
    st.captures[ws].workspace == ws && AtMostOnce(st.captures[ws].proxies)
  }

  ghost predicate HandleGood(st: State, key: ProxyKey)
    requires key in st.proxies
  {
    && st.proxies[key].endpoint.provider == key.provider
    && (key.workspace in st.captures ==> Lists(st.captures[key.workspace].proxies, key.provider))
  }

  /** Each capture lists a provider at most once and lists every provider that has
      a handle for its workspace. */
  ghost predicate Good(st: State) {
    && (forall ws | ws in st.captures :: CaptureGood(st, ws))
    && (forall key | key in st.proxies :: HandleGood(st, key))
  }

  /** The capture lists the very endpoint of the handle. */
  ghost predicate Agrees(st: State, key: ProxyKey) {
    key in st.proxies && key.workspace in st.captures ==>
      st.proxies[key].endpoint in st.captures[key.workspace].proxies
  }

  // ---- Lists of endpoints ----

  lemma {:induction false} WithoutContents(listed: seq<Endpoint>, provider: string)
    ensures forall e :: e in Without(listed, provider) <==> e in listed && e.provider != provider
  {
    if listed != [] {
      var n := |listed| - 1;
      WithoutContents(listed[..n], provider);
      assert listed == listed[..n] + [listed[n]];
    }
  }

  lemma {:induction false} WithoutKeepsOrder(a: seq<Endpoint>, b: seq<Endpoint>, provider: string)
    ensures Without(a + b, provider) == Without(a, provider) + Without(b, provider)
  {
    if b == [] {
      assert a + b == a;
    } else {
      assert (a + b)[..|a + b| - 1] == a + b[..|b| - 1];
      WithoutKeepsOrder(a, b[..|b| - 1], provider);
    }
  }

  lemma {:induction false} WithoutOnce(listed: seq<Endpoint>, provider: string)
    requires AtMostOnce(listed)
    ensures AtMostOnce(Without(listed, provider))
  {
    if listed != [] {
      var n := |listed| - 1;
      WithoutOnce(listed[..n], provider);
      WithoutContents(listed[..n], provider);
      var w, last := Without(listed[..n], provider), listed[n];
      forall i | 0 <= i < |w| ensures w[i].provider != last.provider {
        assert w[i] in listed[..n];
      }
    }
  }

  lemma ReplaceOnce(listed: seq<Endpoint>, e: Endpoint)
    requires AtMostOnce(listed)
    ensures var after := Without(listed, e.provider) + [e];
            && AtMostOnce(after) && e in after
            && (forall p :: Lists(after, p) <==> Lists(listed, p) || p == e.provider)
            && (forall x: Endpoint | x.provider != e.provider :: x in after <==> x in listed)
  {
    var w := Without(listed, e.provider);
    WithoutOnce(listed, e.provider);
    WithoutContents(listed, e.provider);
    forall i | 0 <= i < |w| ensures w[i].provider != e.provider {
      assert w[i] in w;
    }
    forall p ensures Lists(w + [e], p) <==> Lists(listed, p) || p == e.provider {
      ListsByMember(w + [e], p);
      ListsByMember(listed, p);
    }
  }

  lemma ListsByMember(listed: seq<Endpoint>, p: string)
    ensures Lists(listed, p) <==> exists e :: e in listed && e.provider == p
  {
    if e :| e in listed && e.provider == p {
      var i: nat :| i < |listed| && listed[i] == e;
    }
    if Lists(listed, p) {
      var i: nat :| i < |listed| && listed[i].provider == p;
      assert listed[i] in listed;
    }
  }

  lemma AddOnce(listed: seq<Endpoint>, e: Endpoint)
    ensures AtMostOnce(listed) ==> AtMostOnce(AddHandle(listed, e))
    ensures listed <= AddHandle(listed, e)
    ensures Lists(AddHandle(listed, e), e.provider)
    ensures forall p :: Lists(AddHandle(listed, e), p) <==> Lists(listed, p) || p == e.provider
    ensures forall x :: x in AddHandle(listed, e) <==> x in listed || (x == e && !Lists(listed, e.provider))
  {
    var after := AddHandle(listed, e);
    if !Lists(listed, e.provider) {
      assert after[|listed|] == e;
      assert forall i | 0 <= i < |listed| :: after[i] == listed[i];
    }
  }

  /** Whatever the order of the handles, those whose provider is not listed yet
      are added, and nothing else. */
  lemma {:induction false} AddHandlesContents(listed: seq<Endpoint>, handles: seq<Endpoint>)
    requires AtMostOnce(handles)
    ensures AtMostOnce(listed) ==> AtMostOnce(AddHandles(listed, handles))
    ensures listed <= AddHandles(listed, handles)
    ensures forall p :: Lists(AddHandles(listed, handles), p) <==> Lists(listed, p) || Lists(handles, p)
    ensures forall e :: e in AddHandles(listed, handles) <==> e in listed || (e in handles && !Lists(listed, e.provider))
  {
    if handles != [] {
      var n := |handles| - 1;
      var before, last := handles[..n], handles[n];
      AddHandlesContents(listed, before);
      AddOnce(AddHandles(listed, before), last);
      LastHandle(before, last);
      assert handles == before + [last];
      hide AddHandle, Lists, AtMostOnce;
    }
  }

  lemma LastHandle(before: seq<Endpoint>, last: Endpoint)
    requires AtMostOnce(before + [last])
    ensures AtMostOnce(before) && !Lists(before, last.provider)
    ensures forall p :: Lists(before + [last], p) <==> Lists(before, p) || p == last.provider
  {
    var all := before + [last];
    assert all[|before|] == last && forall i | 0 <= i < |before| :: all[i] == before[i];
  }

  lemma OrderedHandles(st: State, ws: string, order: seq<ProxyKey>)
    requires IsOrder(order, st.proxies, ws) && forall k | k in st.proxies :: st.proxies[k].endpoint.provider == k.provider
    ensures AtMostOnce(EndpointsOf(st.proxies, order))
    ensures forall p :: Lists(EndpointsOf(st.proxies, order), p) <==> ProxyKey(ws, p) in st.proxies
    ensures forall e :: e in EndpointsOf(st.proxies, order)
                        <==> ProxyKey(ws, e.provider) in st.proxies && st.proxies[ProxyKey(ws, e.provider)].endpoint == e
  {
    var handles := EndpointsOf(st.proxies, order);
    assert forall i | 0 <= i < |order| :: order[i] in order;
    forall p ensures Lists(handles, p) <==> ProxyKey(ws, p) in st.proxies {
      if ProxyKey(ws, p) in st.proxies {
        var i: nat :| i < |order| && order[i] == ProxyKey(ws, p);
        assert handles[i].provider == p;
      }
    }
    forall e: Endpoint
      ensures e in handles <==> ProxyKey(ws, e.provider) in st.proxies && st.proxies[ProxyKey(ws, e.provider)].endpoint == e
    {
      if ProxyKey(ws, e.provider) in st.proxies && st.proxies[ProxyKey(ws, e.provider)].endpoint == e {
        var i: nat :| i < |order| && order[i] == ProxyKey(ws, e.provider);
        assert handles[i] == e;
      }
    }
  }

  // ---- What each section keeps ----

  /** What `existing_proxy` finds is never a finished task. */
  lemma DropKeeps(st: State, key: ProxyKey)
    requires Good(st)
    ensures Good(DropFinished(st, key)) && DropFinished(st, key).captures == st.captures
    ensures forall k :: k in DropFinished(st, key).proxies <==>
                          k in st.proxies && !(k == key && st.proxies[k].finished)
    ensures Held(DropFinished(st, key), key).Some? <==> key in st.proxies && !st.proxies[key].finished
  {
    var after := DropFinished(st, key);
    forall k | k in after.proxies ensures HandleGood(after, k) {
      assert HandleGood(st, k);
    }
    forall ws | ws in after.captures ensures CaptureGood(after, ws) {
      assert CaptureGood(st, ws);
    }
  }

  /** `remember_proxy` leaves map and capture with the same endpoint for its key,
      and every other entry and listed endpoint as it was. */
  lemma RememberProxyKeeps(st: State, key: ProxyKey, endpoint: Endpoint)
    requires Good(st) && endpoint.provider == key.provider
    ensures var after := RememberProxy(st, key, endpoint);
            && Good(after) && Held(after, key) == Some(endpoint) && Agrees(after, key)
            && (forall k | k != key :: Held(after, k) == Held(st, k) && (Agrees(after, k) <==> Agrees(st, k)))
            && after.captures.Keys == st.captures.Keys
  {
    var after, ws := RememberProxy(st, key, endpoint), key.workspace;
    if ws in st.captures {
      assert CaptureGood(st, ws);
      ReplaceOnce(st.captures[ws].proxies, endpoint);
    }
    hide Lists, AtMostOnce, Without;
    RememberProxyCaptures(st, key, endpoint);
    forall k | k in after.proxies ensures HandleGood(after, k) {
      assert k != key ==> HandleGood(st, k);
    }
    forall k | k != key ensures Held(after, k) == Held(st, k) && (Agrees(after, k) <==> Agrees(st, k)) {
      assert k in st.proxies ==> HandleGood(st, k);
    }
  }

  lemma RememberProxyCaptures(st: State, key: ProxyKey, endpoint: Endpoint)
    requires Good(st) && endpoint.provider == key.provider
    ensures forall ws | ws in st.captures :: CaptureGood(RememberProxy(st, key, endpoint), ws)
  {
    forall ws | ws in st.captures ensures CaptureGood(RememberProxy(st, key, endpoint), ws) {
      assert CaptureGood(st, ws);
      if ws == key.workspace {
        ReplaceOnce(st.captures[ws].proxies, endpoint);
      }
    }
  }

  /** The status handed in names the live handle wherever there is one. */
  ghost predicate Matches(listed: seq<Endpoint>, st: State, ws: string) {
    forall e | e in listed && ProxyKey(ws, e.provider) in st.proxies :: st.proxies[ProxyKey(ws, e.provider)].endpoint == e
  }

  ghost predicate AllAgree(st: State, ws: string) {
    forall p :: Agrees(st, ProxyKey(ws, p))
  }

  /** Main result: `remember_capture`, given a status that lists no provider twice,
      keeps the invariant; and the capture then agrees with the handles of its
      workspace if and only if the status handed in did. */
  lemma RememberCaptureKeeps(st: State, status: CaptureStatus, order: seq<ProxyKey>)
    requires Good(st) && AtMostOnce(status.proxies) && IsOrder(order, st.proxies, status.workspace)
    ensures Good(RememberCapture(st, status, order))
    ensures AllAgree(RememberCapture(st, status, order), status.workspace)
            <==> Matches(status.proxies, st, status.workspace)
    ensures forall k: ProxyKey | k.workspace != status.workspace ::
              Agrees(RememberCapture(st, status, order), k) <==> Agrees(st, k)
  {
    var ws, after := status.workspace, RememberCapture(st, status, order);
    var handles := EndpointsOf(st.proxies, order);
    assert forall k | k in st.proxies :: HandleGood(st, k);
    OrderedHandles(st, ws, order);
    AddHandlesContents(status.proxies, handles);
    var full := after.captures[ws].proxies;
    assert Good(after) by {
      hide AddHandles, EndpointsOf, Lists, AtMostOnce, IsOrder;
      forall w | w in after.captures ensures CaptureGood(after, w) {
        assert w != ws ==> CaptureGood(st, w);
      }
      forall k | k in after.proxies ensures HandleGood(after, k) {
        assert HandleGood(st, k);
        assert k == ProxyKey(k.workspace, k.provider);
      }
    }
    CaptureAgreesIff(st, status, order);
  }

  lemma CaptureAgreesIff(st: State, status: CaptureStatus, order: seq<ProxyKey>)
    requires Good(st) && AtMostOnce(status.proxies) && IsOrder(order, st.proxies, status.workspace)
    ensures AllAgree(RememberCapture(st, status, order), status.workspace)
            <==> Matches(status.proxies, st, status.workspace)
  {
    var ws, after := status.workspace, RememberCapture(st, status, order);
    assert forall k | k in st.proxies :: HandleGood(st, k);
    OrderedHandles(st, ws, order);
    AddHandlesContents(status.proxies, EndpointsOf(st.proxies, order));
    hide AddHandles, EndpointsOf, IsOrder, Good;
    var full := after.captures[ws].proxies;
    if Matches(status.proxies, st, ws) {
      forall p ensures Agrees(after, ProxyKey(ws, p)) {
        if ProxyKey(ws, p) in st.proxies && Lists(status.proxies, p) {
          var i: nat :| i < |status.proxies| && status.proxies[i].provider == p;
          assert status.proxies[i] in status.proxies;
        }
      }
    }
    if AllAgree(after, ws) {
      forall e | e in status.proxies && ProxyKey(ws, e.provider) in st.proxies
        ensures st.proxies[ProxyKey(ws, e.provider)].endpoint == e
      {
        var h := st.proxies[ProxyKey(ws, e.provider)].endpoint;
        assert Agrees(after, ProxyKey(ws, e.provider)) && h in full && e in full;
        var i: nat :| i < |full| && full[i] == e;
        var j: nat :| j < |full| && full[j] == h;
        assert i == j;
      }
    }
  }
}
