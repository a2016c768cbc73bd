/** Routing of calls to connected devices: relay/src/routing/device-router.ts.

    Every callback of the program runs to completion before the next one, so each method is
    one step; timers, send failures, replies and reconnects may call them in any order.
 */
module DeviceRouter {
  import opened Wrappers
  import opened DeviceRegistry

  /** Generations and route ids are random UUIDs in the program; here they are never reused. */
  datatype Connection = Connection(account: string, device: string, generation: nat)

  datatype Route = Route(device: string, generation: nat, requestId: string)

  datatype DeviceResult = DeviceResult(requestId: string, body: string)

  datatype ErrorCode =
    | InvalidArguments
    | CapabilityUnavailable
    | PermissionDenied
    | TimedOut
    | Disconnected
    | ProviderFailure

  /** What a routed call's promise is resolved with. */
  datatype Outcome =
    | Delivered(result: DeviceResult, device: string, generation: nat)
    | Failed(code: ErrorCode)

  /** A waiting call has not been resolved; any other has been exactly once.  A delivered result
      came from the connection the call was routed to and answers it. */
  ghost predicate CallOk(route: Route, resolved: seq<Outcome>, waiting: Option<Route>) {
    match waiting
    case Some(pending) => resolved == [] && pending == route
    case None =>
      && |resolved| == 1
      && (resolved[0].Delivered? ==>
            && resolved[0].result.requestId == route.requestId
            && resolved[0].device == route.device
            && resolved[0].generation == route.generation)
  }

  function Waiting(pending: map<nat, Route>, r: nat): Option<Route> {
    if r in pending then Some(pending[r]) else None
  }

  ghost predicate AllCallsOk(routed: map<nat, Route>, outcomes: map<nat, seq<Outcome>>, pending: map<nat, Route>,
                             next: nat)
  {
    && outcomes.Keys == routed.Keys && pending.Keys <= routed.Keys
    && (forall r | r in routed :: r < next && CallOk(routed[r], outcomes[r], Waiting(pending, r)))
  }

  /** Of the calls `pending`, those in `left` still wait and the others have failed; nothing else
      has changed. */
  ghost predicate FailedDown(pending: map<nat, Route>, outcomes: map<nat, seq<Outcome>>,
                             left: map<nat, Route>, after: map<nat, seq<Outcome>>)
  {
    && after.Keys == outcomes.Keys
    && (forall r | r in left :: r in pending && left[r] == pending[r])
    && (forall r | r in after ::
          after[r] == if r in pending && r !in left then [Failed(Disconnected)] else outcomes[r])
  }

  lemma FailOneMore(pending: map<nat, Route>, outcomes: map<nat, seq<Outcome>>,
                    left: map<nat, Route>, after: map<nat, seq<Outcome>>, r: nat)
    requires FailedDown(pending, outcomes, left, after) && r in left && r in after
    ensures FailedDown(pending, outcomes, left - {r}, after[r := [Failed(Disconnected)]])
  {}

  lemma FailingKeepsCalls(routed: map<nat, Route>, outcomes: map<nat, seq<Outcome>>, pending: map<nat, Route>,
                          next: nat, after: map<nat, seq<Outcome>>, left: map<nat, Route>)
    requires AllCallsOk(routed, outcomes, pending, next) && FailedDown(pending, outcomes, left, after)
    ensures AllCallsOk(routed, after, left, next)
  {
    forall r | r in routed ensures CallOk(routed[r], after[r], Waiting(left, r)) {
      assert CallOk(routed[r], outcomes[r], Waiting(pending, r));
    }
  }

  lemma WaitingIsUnresolved(routed: map<nat, Route>, outcomes: map<nat, seq<Outcome>>, pending: map<nat, Route>,
                            next: nat)
    requires AllCallsOk(routed, outcomes, pending, next)
    ensures forall r | r in pending :: r in outcomes && outcomes[r] == []
  {
    forall r | r in pending ensures r in outcomes && outcomes[r] == [] {
      assert CallOk(routed[r], outcomes[r], Waiting(pending, r));
    }
  }

  lemma ResolvingKeepsCalls(routed: map<nat, Route>, outcomes: map<nat, seq<Outcome>>, pending: map<nat, Route>,
                            next: nat, id: nat, outcome: Outcome)
    requires AllCallsOk(routed, outcomes, pending, next) && id in pending
    requires CallOk(pending[id], [outcome], None)
    ensures AllCallsOk(routed, outcomes[id := [outcome]], pending - {id}, next)
  {
    assert CallOk(routed[id], outcomes[id], Waiting(pending, id));
    forall r | r in routed ensures CallOk(routed[r], outcomes[id := [outcome]][r], Waiting(pending - {id}, r)) {
      assert CallOk(routed[r], outcomes[r], Waiting(pending, r));
    }
  }

  lemma AddingKeepsCalls(routed: map<nat, Route>, outcomes: map<nat, seq<Outcome>>, pending: map<nat, Route>, next: nat,
                         route: Route)
    requires AllCallsOk(routed, outcomes, pending, next)
    ensures AllCallsOk(routed[next := route], outcomes[next := []], pending[next := route], next + 1)
  {
    forall r | r in routed
      ensures r < next && CallOk(routed[r], outcomes[r], Waiting(pending[next := route], r))
    {
      assert CallOk(routed[r], outcomes[r], Waiting(pending, r));
    }
  }

  /** The calls waiting once those on `device` no longer do. */
  function WithoutDevice(pending: map<nat, Route>, device: string): map<nat, Route> {
    map r | r in pending && pending[r].device != device :: pending[r]
  }

  /** The calls waiting on `device`, and no others, have failed for want of a connection. */
  function FailedOn(outcomes: map<nat, seq<Outcome>>, pending: map<nat, Route>, device: string)
    : map<nat, seq<Outcome>>
  {
    map r | r in outcomes :: if r in pending && pending[r].device == device then [Failed(Disconnected)] else outcomes[r]
  }

  class DeviceRouter {
    const registry: DeviceRegistry
    var connections: map<string, Connection>
    var pending: map<nat, Route>
    var nextGeneration: nat
    var nextRoute: nat
    /** Every call ever routed, and every value its promise was resolved with. */
    ghost var routed: map<nat, Route>
    ghost var outcomes: map<nat, seq<Outcome>>

    ghost predicate OnCurrentConnection(route: Route)
      reads this`connections
    {
      route.device in connections && connections[route.device].generation == route.generation
    }

    ghost predicate Valid()
      reads this
    {
      && CallsOk()
      && (forall r | r in pending :: OnCurrentConnection(pending[r]))
      && (forall d | d in connections :: connections[d].device == d && connections[d].generation < nextGeneration)
    }

    /** No call is forgotten, and what a promise was resolved with stays. */
    ghost predicate Extends(before: map<nat, Route>, settled: map<nat, seq<Outcome>>)
      reads this`routed, this`outcomes
    {
      && (forall r | r in before :: r in routed && routed[r] == before[r])
      && (forall r | r in settled && settled[r] != [] :: r in outcomes && outcomes[r] == settled[r])
    }

    predicate IsCurrent(c: Connection)
      reads this`connections
    {
      c.device in connections && connections[c.device].generation == c.generation
    }

    constructor (registry: DeviceRegistry)
      ensures Valid() && this.registry == registry
      ensures connections == map[] && routed == map[] && outcomes == map[] && pending == map[]
    {
      this.registry := registry;
      connections, pending := map[], map[];
      nextGeneration, nextRoute := 0, 0;
      routed, outcomes := map[], map[];
    }

    ghost predicate Matches(route: Route, c: Connection) {
      route.device == c.device && route.generation == c.generation
    }

    ghost predicate CallsOk()
      reads this`routed, this`outcomes, this`pending, this`nextRoute
    {
      AllCallsOk(routed, outcomes, pending, nextRoute)
    }

    /** Fails exactly the calls in flight on `c`. */
    method FailRoutes(c: Connection)
      requires CallsOk()
      modifies this`pending, this`outcomes
      ensures CallsOk()
      ensures forall r | r in pending :: r in old(pending) && pending[r] == old(pending)[r] && !Matches(pending[r], c)
      ensures forall r | r in old(pending) && r !in pending :: Matches(old(pending)[r], c)
      ensures forall r | r in routed ::
        outcomes[r] == if r in old(pending) && r !in pending then [Failed(Disconnected)] else old(outcomes)[r]
    {
      ghost var was, wasSettled := pending, outcomes;
      WaitingIsUnresolved(routed, outcomes, pending, nextRoute);
      var left := pending.Keys;
      while left != {}
        invariant left <= pending.Keys
        invariant FailedDown(was, wasSettled, pending, outcomes)
        invariant forall r | r in was && r !in pending :: Matches(was[r], c)
        invariant forall r | r in pending && r !in left :: !Matches(was[r], c)
        decreases left
      {
        var r :| r in left;
        left := left - {r};
        if pending[r].device == c.device && pending[r].generation == c.generation {
          FailOneMore(was, wasSettled, pending, outcomes, r);
          Settle(r, Failed(Disconnected));
        }
      }
      FailingKeepsCalls(routed, wasSettled, was, nextRoute, outcomes, pending);
    }

    /** Resolves a pending call's promise; the only place where that happens. */
    method Settle(id: nat, outcome: Outcome)
      requires id in pending && id in outcomes && outcomes[id] == []
      modifies this`pending, this`outcomes
      ensures pending == old(pending) - {id} && outcomes == old(outcomes)[id := [outcome]]
    {
      outcomes := outcomes[id := outcomes[id] + [outcome]];
      pending := pending - {id};
      assert outcomes[id] == [outcome];
    }

    method Resolve(id: nat, outcome: Outcome)
      requires CallsOk() && id in pending
      requires outcome.Delivered? ==>
        && outcome.result.requestId == pending[id].requestId
        && outcome.device == pending[id].device && outcome.generation == pending[id].generation
      modifies this`pending, this`outcomes
      ensures CallsOk() && pending == old(pending) - {id} && outcomes == old(outcomes)[id := [outcome]]
    {
      assert CallOk(routed[id], outcomes[id], Waiting(pending, id));
      ResolvingKeepsCalls(routed, outcomes, pending, nextRoute, id, outcome);
      Settle(id, outcome);
    }

    /** Drops the connection if it is current and fails exactly the calls in flight on it. */
    method Disconnect(c: Connection)
      requires Valid()
      modifies this`connections, this`pending, this`outcomes
      ensures Valid()
      ensures connections == if old(IsCurrent(c)) then old(connections) - {c.device} else old(connections)
      ensures forall r | r in pending :: r in old(pending) && pending[r] == old(pending)[r] && !Matches(pending[r], c)
      ensures forall r | r in old(pending) && r !in pending :: Matches(old(pending)[r], c)
      ensures forall r | r in routed ::
        outcomes[r] == if r in old(pending) && r !in pending then [Failed(Disconnected)] else old(outcomes)[r]
    {
      if IsCurrent(c) {
        connections := connections - {c.device};
      }
      FailRoutes(c);
    }

    /** Nobody waits on a device that is not connected. */
    lemma NothingOn(device: string)
      requires Valid()
      ensures device !in connections ==>
        WithoutDevice(pending, device) == pending && FailedOn(outcomes, pending, device) == outcomes
    {
      assert forall r | r in pending :: OnCurrentConnection(pending[r]);
    }

    /** Takes a device offline: exactly its calls in flight fail. */
    method DisconnectDevice(device: string)
      requires Valid()
      modifies this`connections, this`pending, this`outcomes
      ensures Valid() && connections == old(connections) - {device}
      ensures pending == WithoutDevice(old(pending), device)
      ensures outcomes == FailedOn(old(outcomes), old(pending), device)
    {
      assert forall r | r in pending :: OnCurrentConnection(pending[r]);
      if device in connections {
        Disconnect(connections[device]);
      }
    }

    method AddConnection(account: string, device: string) returns (c: Connection)
      requires Valid() && device !in connections
      modifies this`connections, this`nextGeneration
      ensures Valid() && c == Connection(account, device, old(nextGeneration))
      ensures connections == old(connections)[device := c] && nextGeneration == old(nextGeneration) + 1
    {
      c := Connection(account, device, nextGeneration);
      nextGeneration := nextGeneration + 1;
      connections := connections[device := c];
    }

    /** Registers a connection for a device the registry binds to this account; the device's
        earlier connection is taken down first. */
    method ConnectDevice(account: string, device: string) returns (c: Option<Connection>)
      requires Valid()
      modifies this`connections, this`pending, this`outcomes, this`nextGeneration
      ensures Valid()
      ensures c.Some? <==> registry.Bound(device, account)
      ensures c.None? ==>
        && connections == old(connections) && pending == old(pending) && outcomes == old(outcomes)
        && nextGeneration == old(nextGeneration)
      ensures c.Some? ==>
        && c.value == Connection(account, device, old(nextGeneration))
        && connections == old(connections)[device := c.value]
        && nextGeneration == old(nextGeneration) + 1
        && pending == WithoutDevice(old(pending), device)
        && outcomes == FailedOn(old(outcomes), old(pending), device)
    {
      var binding := registry.GetDevice(device);
      if binding.None? || binding.value.account != account || binding.value.revoked {
        return None;
      }
      DisconnectDevice(device);
      var connection := AddConnection(account, device);
      return Some(connection);
    }

    /** The devices an unaddressed call could mean. */
    ghost function Candidates(account: string): set<string>
      reads this`connections, registry
    {
      set d | d in connections && registry.Bound(d, account)
    }

    /** Why a call cannot be routed, if it cannot. */
    ghost function Refusal(account: string, requested: Option<string>): Option<ErrorCode>
      reads this`connections, registry
    {
      if requested.Some? && requested.value != "" then
        if requested.value !in registry.devices then Some(CapabilityUnavailable)
        else if !registry.Bound(requested.value, account) then Some(PermissionDenied)
        else if requested.value !in connections then Some(Disconnected)
        else None
      else if |Candidates(account)| == 0 then Some(Disconnected)
      else if |Candidates(account)| > 1 then Some(InvalidArguments)
      else None
    }

    method ResolveConnection(account: string, requested: Option<string>) returns (r: Result<Connection, ErrorCode>)
      requires Valid()
      ensures r.Ok? ==>
        && r.value.device in connections && connections[r.value.device] == r.value
        && registry.Bound(r.value.device, account)
      ensures requested.Some? && requested.value != "" ==>
        && (r.Ok? ==> r.value.device == requested.value)
        && (r.Ok? <==> registry.Bound(requested.value, account) && requested.value in connections)
        && (r == Err(CapabilityUnavailable) <==> requested.value !in registry.devices)
        && (r == Err(PermissionDenied) <==>
              requested.value in registry.devices && !registry.Bound(requested.value, account))
        && (r == Err(Disconnected) <==> registry.Bound(requested.value, account) && requested.value !in connections)
      ensures requested.None? || requested.value == "" ==>
        && (r.Ok? ==> Candidates(account) == {r.value.device})
        && (r.Ok? <==> |Candidates(account)| == 1)
        && (r == Err(Disconnected) <==> Candidates(account) == {})
        && (r == Err(InvalidArguments) <==> |Candidates(account)| > 1)
      ensures Refusal(account, requested) == if r.Ok? then None else Some(r.error)
    {
      if requested.Some? && requested.value != "" {
        var binding := registry.GetDevice(requested.value);
        if binding.None? {
          return Err(CapabilityUnavailable);
        }
        if binding.value.account != account || binding.value.revoked {
          return Err(PermissionDenied);
        }
        if requested.value !in connections {
          return Err(Disconnected);
        }
        return Ok(connections[requested.value]);
      }
      var owned := registry.ListDevices(account);
      var online := set d | d in owned && !registry.devices[d].revoked && d in connections;
      assert online == Candidates(account);
      if |online| == 0 {
        return Err(Disconnected);
      }
      var d :| d in online;
      if |online| > 1 {
        return Err(InvalidArguments);
      }
      assert |online - {d}| == 0;
      assert online == {d};
      return Ok(connections[d]);
    }

    /** Makes the call's promise: it waits under a route id of its own. */
    method AddRoute(route: Route) returns (id: nat)
      requires Valid() && OnCurrentConnection(route)
      modifies this`pending, this`nextRoute, this`routed, this`outcomes
      ensures Valid() && Extends(old(routed), old(outcomes))
      ensures id == old(nextRoute) && id !in old(routed) && routed == old(routed)[id := route]
      ensures outcomes == old(outcomes)[id := []] && pending == old(pending)[id := route]
    {
      AddingKeepsCalls(routed, outcomes, pending, nextRoute, route);
      id := nextRoute;
      nextRoute := nextRoute + 1;
      pending := pending[id := route];
      routed := routed[id := route];
      outcomes := outcomes[id := []];
    }

    /** A call is routed to the current connection of a device bound to its caller, or fails at once. */
    method Call(account: string, requested: Option<string>, requestId: string)
        returns (r: Result<nat, ErrorCode>)
      requires Valid()
      modifies this`pending, this`nextRoute, this`routed, this`outcomes
      ensures Valid() && Extends(old(routed), old(outcomes))
      ensures r.Ok? <==> (if requested.Some? && requested.value != ""
                          then registry.Bound(requested.value, account) && requested.value in connections
                          else |Candidates(account)| == 1)
      ensures r.Err? ==>
        && Refusal(account, requested) == Some(r.error)
        && routed == old(routed) && pending == old(pending) && outcomes == old(outcomes)
      ensures r.Ok? ==>
        && r.value !in old(routed) && r.value in routed
        && routed == old(routed)[r.value := routed[r.value]]
        && outcomes == old(outcomes)[r.value := []]
        && pending == old(pending)[r.value := routed[r.value]]
        && routed[r.value].requestId == requestId
        && registry.Bound(routed[r.value].device, account)
        && OnCurrentConnection(routed[r.value])
        && (requested.Some? && requested.value != "" ==> routed[r.value].device == requested.value)
    {
      var resolved := ResolveConnection(account, requested);
      if resolved.Err? {
        return Err(resolved.error);
      }
      var id := AddRoute(Route(resolved.value.device, resolved.value.generation, requestId));
      return Ok(id);
    }

    /** The timer may fire at any moment, also for calls already settled. */
    method TimeOut(id: nat)
      requires Valid()
      modifies this`pending, this`outcomes
      ensures Valid() && Extends(old(routed), old(outcomes))
      ensures id !in old(pending) ==> pending == old(pending) && outcomes == old(outcomes)
      ensures id in old(pending) ==>
        pending == old(pending) - {id} && outcomes == old(outcomes)[id := [Failed(TimedOut)]]
    {
      if id in pending {
        Resolve(id, Failed(TimedOut));
      }
    }

    method SendFailed(id: nat)
      requires Valid()
      modifies this`pending, this`outcomes
      ensures Valid() && Extends(old(routed), old(outcomes))
      ensures id !in old(pending) ==> pending == old(pending) && outcomes == old(outcomes)
      ensures id in old(pending) ==>
        pending == old(pending) - {id} && outcomes == old(outcomes)[id := [Failed(Disconnected)]]
    {
      if id in pending {
        Resolve(id, Failed(Disconnected));
      }
    }

    /** A reply arriving over connection `c`. */
    method Receive(c: Connection, id: nat, result: DeviceResult)
      requires Valid()
      modifies this`pending, this`outcomes
      ensures Valid() && Extends(old(routed), old(outcomes))
      ensures !old(IsCurrent(c)) || id !in old(pending) || !Matches(old(pending)[id], c) ==>
        pending == old(pending) && outcomes == old(outcomes)
      ensures old(IsCurrent(c)) && id in old(pending) && Matches(old(pending)[id], c) ==>
        && pending == old(pending) - {id}
        && outcomes == old(outcomes)[id :=
             [if result.requestId == old(pending)[id].requestId
              then Delivered(result, c.device, c.generation) else Failed(ProviderFailure)]]
    {
      if !IsCurrent(c) || id !in pending
         || pending[id].device != c.device || pending[id].generation != c.generation {
        return;
      }
      if result.requestId != pending[id].requestId {
        Resolve(id, Failed(ProviderFailure));
      } else {
        Resolve(id, Delivered(result, c.device, c.generation));
      }
    }

    /** The disconnect of a connection handle: nothing once another connection took over. */
    method DisconnectHandle(c: Connection)
      requires Valid()
      modifies this`connections, this`pending, this`outcomes
      ensures Valid() && Extends(old(routed), old(outcomes))
      ensures !old(IsCurrent(c)) ==>
        connections == old(connections) && pending == old(pending) && outcomes == old(outcomes)
      ensures old(IsCurrent(c)) ==>
        && connections == old(connections) - {c.device}
        && pending == WithoutDevice(old(pending), c.device)
        && outcomes == FailedOn(old(outcomes), old(pending), c.device)
    {
      assert forall r | r in pending :: OnCurrentConnection(pending[r]);
      if IsCurrent(c) {
        Disconnect(c);
      }
    }
  }
}
