/** The supervisor's mutex-guarded maps, updated in place by the locked sections
    of `src/daemon/supervisor.rs`. */
module SupervisorState {
  import opened Options
  import opened ProxyRegistry

  class Supervisor {
    var captures: map<string, CaptureStatus>
    var proxies: map<ProxyKey, Handle>

    ghost function Contents(): State
      reads this
    {
      State(captures, proxies)
    }

    constructor ()
      ensures Contents() == State(map[], map[]) && Good(Contents())
    {
      captures, proxies := map[], map[];
    }

    method ExistingProxy(key: ProxyKey) returns (found: Option<Endpoint>)
      modifies this`proxies
      ensures Contents() == DropFinished(old(Contents()), key)
      ensures found == Held(Contents(), key)
    {
      if key in proxies && proxies[key].finished {
        proxies := proxies - {key};
      }
      found := if key in proxies then Some(proxies[key].endpoint) else None;
    }

    method RememberProxy(key: ProxyKey, endpoint: Endpoint)
      modifies this
      ensures Contents() == ProxyRegistry.RememberProxy(old(Contents()), key, endpoint)
    {
      proxies := proxies[key := Handle(endpoint, false)];
      if key.workspace in captures {
        var capture := captures[key.workspace];
        var kept := Retain(capture.proxies, key.provider);
        captures := captures[key.workspace := capture.(proxies := kept + [endpoint])];
      }
    }

    /** The handles come in whatever order the map gives them. */
    method RememberCapture(status: CaptureStatus) returns (ghost order: seq<ProxyKey>)
      modifies this`captures
      ensures IsOrder(order, old(proxies), status.workspace)
      ensures Contents() == ProxyRegistry.RememberCapture(old(Contents()), status, order)
    {
      var listed := status.proxies;
      var rest := set k | k in proxies && k.workspace == status.workspace;
      order := [];
      while rest != {}
        invariant captures == old(captures)
        invariant rest <= proxies.Keys && forall k | k in rest :: k.workspace == status.workspace
        invariant forall i, j | 0 <= i < j < |order| :: order[i] != order[j]
        invariant forall k :: k in order <==> k in proxies && k.workspace == status.workspace && k !in rest
        invariant listed == AddHandles(status.proxies, EndpointsOf(proxies, order))
      {
        var key :| key in rest;
        var e := proxies[key].endpoint;
        assert EndpointsOf(proxies, order + [key]) == EndpointsOf(proxies, order) + [e];
        assert EndpointsOf(proxies, order + [key])[..|order|] == EndpointsOf(proxies, order);
        var known := IsListed(listed, e.provider);
        if !known {
          listed := listed + [e];
        }
        rest := rest - {key};
        order := order + [key];
      }
      captures := captures[status.workspace := status.(proxies := listed)];
    }
  }

  method Retain(listed: seq<Endpoint>, provider: string) returns (kept: seq<Endpoint>)
    ensures kept == Without(listed, provider)
  {
    kept := [];
    assert listed[..0] == [];
    for i := 0 to |listed|
      invariant kept == Without(listed[..i], provider)
    {
      assert listed[..i + 1][..i] == listed[..i];
      if listed[i].provider != provider {
        kept := kept + [listed[i]];
      }
    }
    assert listed[..|listed|] == listed;
  }

  method IsListed(listed: seq<Endpoint>, provider: string) returns (found: bool)
    ensures found <==> Lists(listed, provider)
  {
    for i := 0 to |listed|
      invariant !Lists(listed[..i], provider)
    {
      if listed[i].provider == provider {
        return true;
      }
    }
    assert listed[..|listed|] == listed;
    found := false;
  }
}
